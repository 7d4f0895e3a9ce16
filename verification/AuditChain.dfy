/**
 The audit log of one organization: rows signed with a keyed MAC, the check that
 walks over them, and what the last hash of an export pins down.

 The MAC is an arbitrary function from texts to texts.  Nothing is assumed about it
 except, where said so, the shape of its result (64 lower-case hexadecimal digits).
 Where a statement needs two texts with one MAC to be equal, it says instead that the
 rows at hand would otherwise exhibit a collision.
 */
module AuditChain {
  import opened Basics

  type Mac = string -> string

  const MARKER_ENTITY_TYPE := "audit_chain"
  const MARKER_ACTION := "chain_v2_started"
  const MARKER_DETAILS := "Per-organization audit chain (v2) started; earlier records belong to the legacy global chain"

  // timestamp is the text Python gives for the stored moment.
  datatype Row = Row(
    id: nat,
    orgId: int,
    entityType: string,
    entityId: int,
    action: string,
    details: Option<string>,
    performedBy: Option<string>,
    timestamp: string,
    previousHash: Option<string>,
    recordHash: Option<string>)

  // ---------- signing ----------

  function Text(o: Option<string>): string {
    match o case None => "None" case Some(s) => s
  }

  function Join(parts: seq<string>): string {
    if parts == [] then "" else parts[0] + Join(parts[1..])
  }

  // The fields in signing order, without the previous hash, which comes last.
  function SignedFields(r: Row): seq<string> {
    [DecimalInt(r.orgId), r.entityType, DecimalInt(r.entityId), r.action, Text(r.details),
     Text(r.performedBy), r.timestamp]
  }

  function SignedText(r: Row): string {
    Join(SignedFields(r)) + Text(r.previousHash)
  }

  // The signature a row should carry, as a function of its other fields.
  type Signer = Row -> string

  function Recompute(mac: Mac): Signer {
    (r: Row) => mac(SignedText(r))
  }

  predicate IsMarker(r: Row) {
    r.entityType == MARKER_ENTITY_TYPE && r.action == MARKER_ACTION
  }

  // A missing and an empty hash are both "no hash".
  predicate HasHash(r: Row) {
    r.recordHash.Some? && r.recordHash.value != ""
  }

  predicate HashMatches(sign: Signer, r: Row) {
    r.recordHash == Some(sign(r))
  }

  // ---------- what a log must satisfy ----------

  // Position of the first marker row, or the length when there is none.
  function MarkerIndex(logs: seq<Row>): (m: nat)
    ensures m <= |logs|
    ensures m < |logs| ==> IsMarker(logs[m])
    ensures forall i :: 0 <= i < m ==> !IsMarker(logs[i])
  {
    if logs == [] || IsMarker(logs[0]) then 0
    else
      var n := MarkerIndex(logs[1..]);
      assert forall i :: 0 < i < |logs| ==> logs[i] == logs[1..][i - 1];
      n + 1
  }

  predicate HasMarker(logs: seq<Row>) {
    MarkerIndex(logs) < |logs|
  }

  datatype Reason = BrokenChain | HashMismatch

  // What is wrong with row i, given that the chain starts at row m.
  ghost function Fault(sign: Signer, logs: seq<Row>, m: nat, i: nat): Option<Reason>
    requires i < |logs|
  {
    var r := logs[i];
    if i < m then
      if HasHash(r) && !HashMatches(sign, r) then Some(HashMismatch) else None
    else if r.previousHash != (if i == m then None else logs[i - 1].recordHash) then Some(BrokenChain)
    else if !HasHash(r) || !HashMatches(sign, r) then Some(HashMismatch)
    else None
  }

  ghost predicate Sound(sign: Signer, logs: seq<Row>) {
    forall i :: 0 <= i < |logs| ==> Fault(sign, logs, MarkerIndex(logs), i) == None
  }

  // A list of rows that is one unbroken chain from its first row on.
  ghost predicate Linked(sign: Signer, rows: seq<Row>) {
    forall i :: 0 <= i < |rows| ==> Fault(sign, rows, 0, i) == None
  }

  function Unhashed(logs: seq<Row>): nat {
    if logs == [] then 0
    else Unhashed(logs[..|logs| - 1]) + (if HasHash(logs[|logs| - 1]) then 0 else 1)
  }

  // ---------- the check ----------

  datatype Verdict =
    | Valid(started: bool, legacyChecked: nat, legacyUnverifiable: nat, chainChecked: nat)
    | Compromised(logId: nat, reason: Reason, started: bool,
                  legacyChecked: nat, legacyUnverifiable: nat, chainChecked: nat)
  {
    function RowsAccounted(): nat { legacyChecked + legacyUnverifiable + chainChecked }
  }

  // The verdict a check must give: "valid" when no row is at fault, else the first row
  // at fault, with counters that account for exactly the rows before it.
  ghost predicate RightVerdict(sign: Signer, logs: seq<Row>, v: Verdict) {
    var m := MarkerIndex(logs);
    var stop := v.RowsAccounted();
    && stop <= |logs|
    && (forall i :: 0 <= i < stop ==> Fault(sign, logs, m, i) == None)
    && (v.Valid? <==> stop == |logs|)
    && (v.Compromised? ==> v.logId == logs[stop].id && Fault(sign, logs, m, stop) == Some(v.reason))
    && (v.started <==> m < |logs|)
    && v.legacyUnverifiable == Unhashed(logs[..if stop < m then stop else m])
    && v.chainChecked == (if stop < m then 0 else stop - m)
  }

  method VerifyAuditChain(sign: Signer, logs: seq<Row>) returns (v: Verdict)
    ensures RightVerdict(sign, logs, v)
  {
    var m := FindMarker(logs);
    var started := m < |logs|;
    var checked, unverifiable := 0, 0;
    for i := 0 to m
      invariant checked + unverifiable == i
      invariant unverifiable == Unhashed(logs[..i])
      invariant forall j :: 0 <= j < i ==> Fault(sign, logs, m, j) == None
    {
      var row := logs[i];
      assert logs[..i + 1][..i] == logs[..i];
      if !HasHash(row) {
        unverifiable := unverifiable + 1;
      } else if row.recordHash != Some(sign(row)) {
        return Compromised(row.id, HashMismatch, started, checked, unverifiable, 0);
      } else {
        checked := checked + 1;
      }
    }
    var chainChecked := 0;
    var previous: Option<string> := None;
    for i := m to |logs|
      invariant chainChecked == i - m
      invariant i > m ==> previous == logs[i - 1].recordHash
      invariant forall j :: 0 <= j < i ==> Fault(sign, logs, m, j) == None
    {
      var row := logs[i];
      var expected := if i == m then None else previous;
      if row.previousHash != expected {
        return Compromised(row.id, BrokenChain, true, checked, unverifiable, chainChecked);
      }
      if !HasHash(row) || row.recordHash != Some(sign(row)) {
        return Compromised(row.id, HashMismatch, true, checked, unverifiable, chainChecked);
      }
      chainChecked := chainChecked + 1;
      previous := row.recordHash;
    }
    v := Valid(started, checked, unverifiable, chainChecked);
  }

  method FindMarker(logs: seq<Row>) returns (m: nat)
    ensures m == MarkerIndex(logs)
    ensures m < |logs| ==> logs[m].entityType == "audit_chain" && logs[m].action == "chain_v2_started"
    ensures forall j :: 0 <= j < m ==> !(logs[j].entityType == "audit_chain" && logs[j].action == "chain_v2_started")
  {
    for i := 0 to |logs|
      invariant forall j :: 0 <= j < i ==> !IsMarker(logs[j])
    {
      if IsMarker(logs[i]) {
        return i;
      }
    }
    m := |logs|;
  }

  lemma {:induction false} ValidIffSound(sign: Signer, logs: seq<Row>, v: Verdict)
    requires RightVerdict(sign, logs, v)
    ensures v.Valid? <==> Sound(sign, logs)
  {
    if v.Compromised? {
      assert Fault(sign, logs, MarkerIndex(logs), v.RowsAccounted()) != None;
    }
  }

  // The verdict is determined by the log: no second answer satisfies RightVerdict.
  lemma {:induction false} VerdictUnique(sign: Signer, logs: seq<Row>, v: Verdict, w: Verdict)
    requires RightVerdict(sign, logs, v) && RightVerdict(sign, logs, w)
    ensures v == w
  {
    var m, a, b := MarkerIndex(logs), v.RowsAccounted(), w.RowsAccounted();
    assert a < |logs| ==> Fault(sign, logs, m, a) != None;
    assert b < |logs| ==> Fault(sign, logs, m, b) != None;
  }

  // ---------- the monthly report's check ----------

  // Counts the rows that carry a hash which is not their own.
  method MonthlyMismatches(sign: Signer, logs: seq<Row>) returns (mismatches: nat)
    ensures mismatches == 0 <==> HashesMatch(sign, logs)
  {
    mismatches := 0;
    for i := 0 to |logs|
      invariant mismatches == 0 <==> HashesMatch(sign, logs[..i])
    {
      assert logs[..i + 1] == logs[..i] + [logs[i]];
      if HasHash(logs[i]) && Some(sign(logs[i])) != logs[i].recordHash {
        assert !HashMatches(sign, logs[..i + 1][i]);
        mismatches := mismatches + 1;
      }
    }
    assert logs[..|logs|] == logs;
  }

  ghost predicate HashesMatch(sign: Signer, logs: seq<Row>) {
    forall i :: 0 <= i < |logs| && HasHash(logs[i]) ==> HashMatches(sign, logs[i])
  }

  // Row i has a hash and names its predecessor, the first row of the chain none.
  ghost predicate IsLink(logs: seq<Row>, m: nat, i: nat)
    requires i < |logs|
  {
    HasHash(logs[i]) && (i >= m ==> logs[i].previousHash == if i == m then None else logs[i - 1].recordHash)
  }

  ghost predicate LinkedFrom(logs: seq<Row>, m: nat) {
    forall i :: m <= i < |logs| ==> IsLink(logs, m, i)
  }

  // The report's check is the weaker one: it misses broken links and missing hashes from
  // the marker on, and nothing else.
  lemma {:induction false} SoundIsMonthlyPlusLinks(sign: Signer, logs: seq<Row>)
    ensures Sound(sign, logs) <==>
            HashesMatch(sign, logs) && LinkedFrom(logs, MarkerIndex(logs))
  {
    var m := MarkerIndex(logs);
    if Sound(sign, logs) {
      forall i | 0 <= i < |logs|
        ensures HasHash(logs[i]) ==> HashMatches(sign, logs[i])
        ensures m <= i ==> IsLink(logs, m, i)
      {
        assert Fault(sign, logs, m, i) == None;
      }
    } else {
      var i :| 0 <= i < |logs| && Fault(sign, logs, m, i) != None;
      if m <= i && IsLink(logs, m, i) {
        assert HasHash(logs[i]) && !HashMatches(sign, logs[i]);
      } else if i < m {
        assert HasHash(logs[i]) && !HashMatches(sign, logs[i]);
      }
    }
  }

  // ---------- what a final hash pins down ----------

  predicate IsHex(s: string) {
    forall i :: 0 <= i < |s| ==> '0' <= s[i] <= '9' || 'a' <= s[i] <= 'f'
  }

  ghost predicate HexDigest(mac: Mac) {
    forall s :: |mac(s)| == 64 && IsHex(mac(s))
  }

  ghost predicate Signs(rows: seq<Row>, text: string) {
    exists i :: 0 <= i < |rows| && SignedText(rows[i]) == text
  }

  // Two different texts, signed in a and in b, with one MAC.
  ghost predicate Collide(mac: Mac, a: seq<Row>, b: seq<Row>) {
    exists s, t :: Signs(a, s) && Signs(b, t) && s != t && mac(s) == mac(t)
  }

  ghost predicate SameTexts(a: seq<Row>, b: seq<Row>) {
    |a| == |b| && forall i :: 0 <= i < |a| ==> SignedText(a[i]) == SignedText(b[i])
  }

  // A text that ends in 64 hexadecimal digits does not end in "None".
  lemma {:induction false} NoneIsNotHex(text: string, before: string, h: string)
    requires |h| == 64 && IsHex(h) && |text| >= 64 && text[|text| - 64..] == h
    ensures text != before + "None"
  {
    assert text[|text| - 4] == h[60] != 'N';
  }

  // The end of a signed text shows which previous hash it was made with.
  lemma {:induction false} PreviousRecovered(a: Row, b: Row)
    requires a.previousHash.Some? && |a.previousHash.value| == 64 && IsHex(a.previousHash.value)
    requires b.previousHash.Some? ==> |b.previousHash.value| == 64
    requires SignedText(a) == SignedText(b)
    ensures a.previousHash == b.previousHash
  {
    var text, n := SignedText(a), |SignedText(a)|;
    assert text[n - 64..] == a.previousHash.value;
    if b.previousHash == None {
      NoneIsNotHex(text, Join(SignedFields(b)), a.previousHash.value);
      assert false;
    } else {
      assert text[n - 64..] == b.previousHash.value;
    }
  }

  // What being a link means for row i of a chain.
  lemma {:induction false} LinkAt(mac: Mac, a: seq<Row>, i: nat)
    requires HexDigest(mac) && Linked(Recompute(mac), a) && i < |a|
    ensures a[i].recordHash == Some(mac(SignedText(a[i])))
    ensures |a[i].recordHash.value| == 64 && IsHex(a[i].recordHash.value)
    ensures i == 0 ==> a[i].previousHash == None
    ensures i > 0 ==> a[i].previousHash == a[i - 1].recordHash && a[i].previousHash.Some?
                      && |a[i].previousHash.value| == 64 && IsHex(a[i].previousHash.value)
  {
    assert Fault(Recompute(mac), a, 0, i) == None;
    if i > 0 {
      assert Fault(Recompute(mac), a, 0, i - 1) == None;
      assert a[i - 1].recordHash == Some(mac(SignedText(a[i - 1])));
    }
  }

  lemma {:induction false} CollideGrows(mac: Mac, a: seq<Row>, b: seq<Row>, i: nat, j: nat)
    requires i <= |a| && j <= |b| && Collide(mac, a[..i], b[..j])
    ensures Collide(mac, a, b)
  {
    var s, t :| Signs(a[..i], s) && Signs(b[..j], t) && s != t && mac(s) == mac(t);
    assert Signs(a, s) && Signs(b, t);
  }

  // Chains that end in the same signed text both end there, or go on to the same hash.
  lemma {:induction false} SameTextsBack(mac: Mac, a: seq<Row>, b: seq<Row>)
    requires HexDigest(mac) && a != [] && b != []
    requires Linked(Recompute(mac), a) && Linked(Recompute(mac), b)
    requires SignedText(a[|a| - 1]) == SignedText(b[|b| - 1])
    ensures |a| == 1 <==> |b| == 1
    ensures |a| > 1 && |b| > 1 ==> a[|a| - 2].recordHash == b[|b| - 2].recordHash
  {
    var i, j := |a| - 1, |b| - 1;
    LinkAt(mac, a, i);
    LinkAt(mac, b, j);
    if i > 0 {
      PreviousRecovered(a[i], b[j]);
    } else if j > 0 {
      PreviousRecovered(b[j], a[i]);
    }
  }

  lemma {:induction false} PinnedChain(mac: Mac, a: seq<Row>, b: seq<Row>)
    requires HexDigest(mac) && a != [] && b != []
    requires Linked(Recompute(mac), a) && Linked(Recompute(mac), b)
    requires a[|a| - 1].recordHash == b[|b| - 1].recordHash
    ensures SameTexts(a, b) || Collide(mac, a, b)
    decreases |a|
  {
    var i, j := |a| - 1, |b| - 1;
    LinkAt(mac, a, i);
    LinkAt(mac, b, j);
    if SignedText(a[i]) != SignedText(b[j]) {
      assert Signs(a, SignedText(a[i])) && Signs(b, SignedText(b[j]));
    } else {
      SameTextsBack(mac, a, b);
      if i > 0 {
        LinkedPrefix(Recompute(mac), a, i);
        LinkedPrefix(Recompute(mac), b, j);
        PinnedChain(mac, a[..i], b[..j]);
        if Collide(mac, a[..i], b[..j]) {
          CollideGrows(mac, a, b, i, j);
        } else {
          SameTextsGrow(a, b);
        }
      }
    }
  }

  lemma {:induction false} SameTextsGrow(a: seq<Row>, b: seq<Row>)
    requires a != [] && b != [] && SameTexts(a[..|a| - 1], b[..|b| - 1])
    requires SignedText(a[|a| - 1]) == SignedText(b[|b| - 1])
    ensures SameTexts(a, b)
  {
    forall i | 0 <= i < |a| - 1 ensures SignedText(a[i]) == SignedText(b[i]) {
      assert a[..|a| - 1][i] == a[i] && b[..|b| - 1][i] == b[i];
    }
  }

  lemma {:induction false} LinkedPrefix(sign: Signer, chain: seq<Row>, n: nat)
    requires Linked(sign, chain) && n <= |chain|
    ensures Linked(sign, chain[..n])
  {
    forall i | 0 <= i < n ensures Fault(sign, chain[..n], 0, i) == None {
      assert Fault(sign, chain, 0, i) == None;
    }
  }

  function ChainPart(logs: seq<Row>): seq<Row> {
    logs[MarkerIndex(logs)..]
  }

  // The hash an export publishes for the whole log.
  function ChainHash(logs: seq<Row>): Option<string> {
    if logs == [] then None else logs[|logs| - 1].recordHash
  }

  lemma {:induction false} SoundChainIsLinked(sign: Signer, logs: seq<Row>)
    requires Sound(sign, logs)
    ensures Linked(sign, ChainPart(logs))
  {
    var m := MarkerIndex(logs);
    forall i | 0 <= i < |logs| - m ensures Fault(sign, ChainPart(logs), 0, i) == None {
      assert Fault(sign, logs, m, m + i) == None;
    }
  }

  // Two logs that both pass the check and export the same hash hold the same signed texts
  // in every row from the marker on, unless their rows show a MAC collision.
  lemma {:induction false} ExportPinsHistory(mac: Mac, a: seq<Row>, b: seq<Row>)
    requires HexDigest(mac)
    requires Sound(Recompute(mac), a) && Sound(Recompute(mac), b) && HasMarker(a) && HasMarker(b)
    requires ChainHash(a) == ChainHash(b)
    ensures SameTexts(ChainPart(a), ChainPart(b)) || Collide(mac, ChainPart(a), ChainPart(b))
  {
    SoundChainIsLinked(Recompute(mac), a);
    SoundChainIsLinked(Recompute(mac), b);
    PinnedChain(mac, ChainPart(a), ChainPart(b));
  }

  // The rows of s whose positions are not in drop.
  ghost function Without<T>(s: seq<T>, drop: set<nat>): (r: seq<T>)
    ensures |r| <= |s|
    ensures (exists i :: i in drop && i < |s|) ==> |r| < |s|
    ensures forall x :: x in r ==> x in s
    ensures s != [] && 0 !in drop ==> r != [] && r[0] == s[0]
    ensures s != [] && |s| - 1 !in drop ==> r != [] && r[|r| - 1] == s[|s| - 1]
  {
    if s == [] then []
    else
      var n := |s| - 1;
      var r := Without(s[..n], drop);
      assert n > 0 ==> s[..n][0] == s[0];
      if n in drop then r else r + [s[n]]
  }

  // A log that goes on from its marker with other rows has its marker where it was.
  lemma {:induction false} MarkerStays(logs: seq<Row>, rows: seq<Row>)
    requires HasMarker(logs) && rows != [] && rows[0] == logs[MarkerIndex(logs)]
    ensures MarkerIndex(logs[..MarkerIndex(logs)] + rows) == MarkerIndex(logs)
    ensures ChainPart(logs[..MarkerIndex(logs)] + rows) == rows
  {
    var m := MarkerIndex(logs);
    var left := logs[..m] + rows;
    assert left[m] == logs[m];
    assert forall i :: 0 <= i < m ==> left[i] == logs[i];
  }

  // Deleting any rows strictly between the marker and the last row is noticed.
  lemma {:induction false} DeletionDetected(mac: Mac, logs: seq<Row>, drop: set<nat>)
    requires HexDigest(mac) && Sound(Recompute(mac), logs) && HasMarker(logs)
    requires drop != {} && forall i :: i in drop ==> 0 < i < |ChainPart(logs)| - 1
    ensures var left := logs[..MarkerIndex(logs)] + Without(ChainPart(logs), drop);
            !Sound(Recompute(mac), left) || Collide(mac, ChainPart(logs), ChainPart(left))
  {
    var m, chain := MarkerIndex(logs), ChainPart(logs);
    var left := logs[..m] + Without(chain, drop);
    InnerRowsDropped(chain, drop);
    MarkerStays(logs, Without(chain, drop));
    if Sound(Recompute(mac), left) {
      assert ChainHash(left) == ChainHash(logs) by {
        assert logs[|logs| - 1] == chain[|chain| - 1] && left[|left| - 1] == chain[|chain| - 1];
      }
      ExportPinsHistory(mac, logs, left);
    }
  }

  lemma {:induction false} InnerRowsDropped(chain: seq<Row>, drop: set<nat>)
    requires drop != {} && forall i :: i in drop ==> 0 < i < |chain| - 1
    ensures var kept := Without(chain, drop);
            && kept != [] && |kept| < |chain|
            && kept[0] == chain[0] && kept[|kept| - 1] == chain[|chain| - 1]
  {
    var k :| k in drop;
    assert k in drop && k < |chain|;
  }

  // Along one chain no two rows name the same predecessor, unless the chain shows a collision.
  lemma {:induction false} NoFork(mac: Mac, chain: seq<Row>, i: nat, j: nat)
    requires HexDigest(mac) && Linked(Recompute(mac), chain) && i < j < |chain|
    ensures chain[i].previousHash != chain[j].previousHash || Collide(mac, chain, chain)
  {
    LinkAt(mac, chain, i);
    LinkAt(mac, chain, j);
    if i > 0 && chain[i].previousHash == chain[j].previousHash {
      LinkedPrefix(Recompute(mac), chain, i);
      LinkedPrefix(Recompute(mac), chain, j);
      PinnedChain(mac, chain[..i], chain[..j]);
      CollideGrows(mac, chain, chain, i, j);
    }
  }

  // ---------- an edited row ----------

  // One field of a row is changed, and nothing else.  An absent text prints as "None", so it
  // does not differ from that text.
  ghost predicate OneFieldEdited(r: Row, s: Row) {
    || (s == r.(orgId := s.orgId) && s.orgId != r.orgId)
    || (s == r.(entityType := s.entityType) && s.entityType != r.entityType)
    || (s == r.(entityId := s.entityId) && s.entityId != r.entityId)
    || (s == r.(action := s.action) && s.action != r.action)
    || (s == r.(details := s.details) && Text(s.details) != Text(r.details))
    || (s == r.(performedBy := s.performedBy) && Text(s.performedBy) != Text(r.performedBy))
    || (s == r.(timestamp := s.timestamp) && s.timestamp != r.timestamp)
  }

  lemma {:induction false} JoinAt(parts: seq<string>, k: nat, x: string)
    requires k < |parts|
    ensures Join(parts[k := x]) == Join(parts[..k]) + (x + Join(parts[k + 1..]))
  {
    var changed := parts[k := x];
    assert changed == parts[..k] + changed[k..] && changed[k..][0] == x && changed[k..][1..] == parts[k + 1..];
    JoinAppends(parts[..k], changed[k..]);
  }

  lemma {:induction false} MiddleShows(a: string, x: string, y: string, b: string)
    requires a + (x + b) == a + (y + b)
    ensures x == y
  {
    assert (a + (x + b))[|a|..] == x + b && (a + (y + b))[|a|..] == y + b;
    assert |x| == |y| && (x + b)[..|x|] == x && (y + b)[..|y|] == y;
  }

  // Rows that sign alike but for one part sign different texts.
  lemma {:induction false} PartShows(r: Row, s: Row, k: nat, x: string)
    requires k < |SignedFields(r)| && SignedFields(s) == SignedFields(r)[k := x] && x != SignedFields(r)[k]
    requires s.previousHash == r.previousHash
    ensures SignedText(s) != SignedText(r)
  {
    var parts := SignedFields(r);
    JoinAt(parts, k, x);
    JoinAt(parts, k, parts[k]);
    assert parts[k := parts[k]] == parts;
    if SignedText(s) == SignedText(r) {
      SameWithoutEnd(Join(SignedFields(s)), Join(parts), Text(r.previousHash));
      MiddleShows(Join(parts[..k]), x, parts[k], Join(parts[k + 1..]));
    }
  }

  lemma {:induction false} SameWithoutEnd(x: string, y: string, end: string)
    requires x + end == y + end
    ensures x == y
  {
    assert |x| == |y| && (x + end)[..|x|] == x && (y + end)[..|y|] == y;
  }

  // The signature covers every field: changing one changes the signed text.
  lemma {:induction false} EditChangesText(r: Row, s: Row)
    requires OneFieldEdited(r, s)
    ensures SignedText(s) != SignedText(r)
  {
    if s.orgId != r.orgId {
      if DecimalInt(s.orgId) == DecimalInt(r.orgId) {
        DecimalIntInjective(s.orgId, r.orgId);
      }
      PartShows(r, s, 0, DecimalInt(s.orgId));
    } else if s.entityType != r.entityType {
      PartShows(r, s, 1, s.entityType);
    } else if s.entityId != r.entityId {
      if DecimalInt(s.entityId) == DecimalInt(r.entityId) {
        DecimalIntInjective(s.entityId, r.entityId);
      }
      PartShows(r, s, 2, DecimalInt(s.entityId));
    } else if s.action != r.action {
      PartShows(r, s, 3, s.action);
    } else if s.details != r.details {
      PartShows(r, s, 4, Text(s.details));
    } else if s.performedBy != r.performedBy {
      PartShows(r, s, 5, Text(s.performedBy));
    } else {
      PartShows(r, s, 6, s.timestamp);
    }
  }

  // The marker stays first where it was, moves up to an edited row that has become one, or is
  // lost with the marker itself.
  lemma {:induction false} MarkerAfterEdit(logs: seq<Row>, i: nat, s: Row)
    requires i < |logs|
    ensures var m, m' := MarkerIndex(logs), MarkerIndex(logs[i := s]);
            && (i > m ==> m' == m)
            && (i == m ==> if IsMarker(s) then m' == m else m' > m)
            && (i < m ==> m' == if IsMarker(s) then i else m)
  {
    var m, edited := MarkerIndex(logs), logs[i := s];
    var m' := MarkerIndex(edited);
    assert m < |logs| && m != i ==> IsMarker(edited[m]);
    assert IsMarker(s) ==> IsMarker(edited[i]);
    assert m' < |logs| && m' != i ==> IsMarker(logs[m']);
  }

  // In a log that passes the check, edit one field of a row that carries a hash: the check
  // stops at that row and says that its hash does not match, or, where the edit has made a
  // legacy row that names a predecessor the marker, that the chain is broken.  Otherwise the
  // MAC gives the two texts of the row one signature.
  lemma {:induction false} EditDetected(mac: Mac, logs: seq<Row>, i: nat, s: Row, v: Verdict)
    requires Sound(Recompute(mac), logs) && i < |logs| && HasHash(logs[i]) && OneFieldEdited(logs[i], s)
    requires RightVerdict(Recompute(mac), logs[i := s], v)
    ensures SignedText(s) != SignedText(logs[i])
    ensures mac(SignedText(s)) != mac(SignedText(logs[i])) ==>
              && v.Compromised? && v.RowsAccounted() == i && v.logId == logs[i].id
              && v.reason == if i < MarkerIndex(logs) && IsMarker(s) && s.previousHash != None
                             then BrokenChain else HashMismatch
  {
    EditChangesText(logs[i], s);
    if mac(SignedText(s)) != mac(SignedText(logs[i])) {
      EditFaults(mac, logs, i, s);
    }
  }

  lemma {:induction false} EditFaults(mac: Mac, logs: seq<Row>, i: nat, s: Row)
    requires Sound(Recompute(mac), logs) && i < |logs| && HasHash(logs[i]) && OneFieldEdited(logs[i], s)
    requires mac(SignedText(s)) != mac(SignedText(logs[i]))
    ensures var sign, edited := Recompute(mac), logs[i := s];
            && (forall j :: 0 <= j < i ==> Fault(sign, edited, MarkerIndex(edited), j) == None)
            && Fault(sign, edited, MarkerIndex(edited), i)
               == Some(if i < MarkerIndex(logs) && IsMarker(s) && s.previousHash != None
                       then BrokenChain else HashMismatch)
  {
    var sign, edited, m := Recompute(mac), logs[i := s], MarkerIndex(logs);
    MarkerAfterEdit(logs, i, s);
    assert Fault(sign, logs, m, i) == None;
    forall j | 0 <= j < i ensures Fault(sign, edited, MarkerIndex(edited), j) == None {
      assert Fault(sign, logs, m, j) == None;
    }
  }

  // The hash pins texts, not fields: the fields are signed without separators, so two
  // chains of different rows can carry the same signed texts and the same hash.
  lemma {:induction false} FieldsAreNotPinned(mac: Mac)
    requires HexDigest(mac)
    ensures exists a, b :: OneHashForTwo(mac, a, b)
  {
    var a0 := Row(1, 1, MARKER_ENTITY_TYPE, 0, MARKER_ACTION, Some("x"), Some(""), "t", None, None);
    var a := a0.(recordHash := Some(Recompute(mac)(a0)));
    var b := a.(details := Some(""), performedBy := Some("x"));
    assert SignedText(a) == SignedText(a0);
    TextMoves(a, "x");
    assert OneHashForTwo(mac, a, b);
  }

  // Two rows that differ, each of which starts a chain that verifies, with one hash.
  ghost predicate OneHashForTwo(mac: Mac, a: Row, b: Row) {
    && a.performedBy != b.performedBy && a.details != b.details
    && Linked(Recompute(mac), [a]) && Linked(Recompute(mac), [b]) && IsMarker(a) && IsMarker(b)
    && a.recordHash == b.recordHash
  }

  // Moving the details over to the name of the actor leaves the signed text as it is.
  lemma {:induction false} TextMoves(r: Row, x: string)
    requires r.details == Some(x) && r.performedBy == Some("")
    ensures SignedText(r.(details := Some(""), performedBy := Some(x))) == SignedText(r)
  {
    var s := r.(details := Some(""), performedBy := Some(x));
    assert SignedFields(r)[6..] == SignedFields(s)[6..] && SignedFields(r)[..4] == SignedFields(s)[..4];
    JoinSplits(SignedFields(r));
    JoinSplits(SignedFields(s));
  }

  lemma {:induction false} JoinSplits(parts: seq<string>)
    requires |parts| >= 6
    ensures Join(parts) == Join(parts[..4]) + (parts[4] + parts[5] + Join(parts[6..]))
  {
    JoinAppends(parts[..4], parts[4..]);
    assert parts[..4] + parts[4..] == parts;
    assert parts[4..][2..] == parts[6..];
    JoinTwo(parts[4..]);
  }

  lemma {:induction false} JoinTwo(parts: seq<string>)
    requires |parts| >= 2
    ensures Join(parts) == parts[0] + parts[1] + Join(parts[2..])
  {
    assert parts[1..][1..] == parts[2..];
    assert Join(parts[1..]) == parts[1] + Join(parts[2..]);
  }

  lemma {:induction false} JoinAppends(a: seq<string>, b: seq<string>)
    ensures Join(a + b) == Join(a) + Join(b)
  {
    if a == [] {
      assert a + b == b;
    } else {
      assert (a + b)[1..] == a[1..] + b;
      JoinAppends(a[1..], b);
    }
  }

  // ---------- the counters ----------

  // How many of the rows before the fault, or before the marker, carry no hash, or an empty one:
  // the counter of rows that cannot be checked.
  function WithoutHash(logs: seq<Row>): nat {
    |Positions(|logs|, (k: nat) => Hashless(logs, k))|
  }

  predicate Hashless(logs: seq<Row>, k: nat) {
    k < |logs| && (logs[k].recordHash == None || logs[k].recordHash == Some(""))
  }

  lemma {:induction false} UnverifiableCounted(sign: Signer, logs: seq<Row>, v: Verdict)
    requires RightVerdict(sign, logs, v)
    ensures var m, all := MarkerIndex(logs), v.RowsAccounted();
            var read := if all < m then all else m;
            && v.legacyUnverifiable == WithoutHash(logs[..read])
            && v.legacyChecked == read - WithoutHash(logs[..read])
            && v.chainChecked == all - read
  {
    var m, all := MarkerIndex(logs), v.RowsAccounted();
    UnhashedCounted(logs[..if all < m then all else m]);
  }

  lemma {:induction false} UnhashedCounted(logs: seq<Row>)
    ensures Unhashed(logs) == WithoutHash(logs)
  {
    if logs != [] {
      var n := |logs| - 1;
      UnhashedCounted(logs[..n]);
      OneMorePosition(n, (k: nat) => Hashless(logs[..n], k), (k: nat) => Hashless(logs, k));
    }
  }
}
