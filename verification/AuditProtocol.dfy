/**
 Writing the audit log: the steps of one writer, any number of writers in any
 interleaving over any organizations, and what every reachable table satisfies.
 */
module AuditProtocol {
  import opened Basics
  import opened AuditChain

  datatype Request = Request(
    orgId: int,
    entityType: string,
    entityId: int,
    action: string,
    details: Option<string>,
    performedBy: Option<string>)

  function MarkerRequest(orgId: int): Request {
    Request(orgId, MARKER_ENTITY_TYPE, 0, MARKER_ACTION, Some(MARKER_DETAILS), Some("system"))
  }

  // A row for a request, signed over its other fields.
  function SignedRow(sign: Signer, id: nat, req: Request, timestamp: string, previous: Option<string>): Row {
    var r := Row(id, req.orgId, req.entityType, req.entityId, req.action, req.details, req.performedBy,
                 timestamp, previous, None);
    r.(recordHash := Some(sign(r)))
  }

  // ---------- what a query sees ----------

  // The rows of one organization, in the order of the table.
  function OrgRows(table: seq<Row>, orgId: int): seq<Row> {
    if table == [] then []
    else
      var n := |table| - 1;
      OrgRows(table[..n], orgId) + if table[n].orgId == orgId then [table[n]] else []
  }

  // ORDER BY id
  function SortById(rows: seq<Row>): seq<Row> {
    if rows == [] then [] else InsertById(SortById(rows[..|rows| - 1]), rows[|rows| - 1])
  }

  function InsertById(rows: seq<Row>, r: Row): seq<Row> {
    if rows == [] || rows[|rows| - 1].id <= r.id then rows + [r]
    else InsertById(rows[..|rows| - 1], r) + [rows[|rows| - 1]]
  }

  // The log of an organization as the check and the export read it.
  function OrgLog(table: seq<Row>, orgId: int): seq<Row> {
    SortById(OrgRows(table, orgId))
  }

  // ORDER BY id DESC, first row
  function LastById(rows: seq<Row>): Option<Row> {
    if rows == [] then None
    else
      var last, best := rows[|rows| - 1], LastById(rows[..|rows| - 1]);
      if best.Some? && best.value.id > last.id then best else Some(last)
  }

  function LastHash(rows: seq<Row>): Option<string> {
    match LastById(rows) case None => None case Some(r) => r.recordHash
  }

  // ---------- the steps ----------

  // Where a writer stands inside one call.  From Holding to Written it has the
  // organization's row lock and its own uncommitted rows.
  datatype Writer =
    | Waiting(req: Request)
    | Holding(req: Request)
    | Looked(req: Request, found: bool)
    | Marked(req: Request, pending: seq<Row>)
    | LastRead(req: Request, pending: seq<Row>, previous: Option<string>)
    | Written(req: Request, pending: seq<Row>)

  datatype State = State(table: seq<Row>, nextId: nat, writers: map<nat, Writer>)

  datatype Event =
    | Start(w: nat, req: Request)
    | Lock(w: nat)
    | Look(w: nat)
    | Mark(w: nat, timestamp: string)
    | ReadLast(w: nat)
    | Write(w: nat, timestamp: string)
    | Commit(w: nat)
    | Abort(w: nat)
    | SkipId

  ghost predicate Holds(s: State, w: nat, orgId: int) {
    w in s.writers && !s.writers[w].Waiting? && s.writers[w].req.orgId == orgId
  }

  ghost predicate Free(s: State, orgId: int) {
    forall w :: w in s.writers ==> !Holds(s, w, orgId)
  }

  // One step; an event that cannot happen in s leaves s as it is.
  ghost function Next(sign: Signer, s: State, e: Event): State {
    if e.SkipId? then s.(nextId := s.nextId + 1)
    else if e.Start? then if e.w in s.writers then s else At(s, e.w, Waiting(e.req))
    else if e.w !in s.writers then s
    else Advance(sign, s, e, s.writers[e.w])
  }

  ghost function At(s: State, w: nat, writer: Writer): State {
    s.(writers := s.writers[w := writer])
  }

  ghost function Advance(sign: Signer, s: State, e: Event, writer: Writer): State
    requires !e.SkipId?
  {
    var req := writer.req;
    if e.Lock? && writer.Waiting? then
      if Free(s, req.orgId) then At(s, e.w, Holding(req)) else s
    else if e.Look? && writer.Holding? then
      At(s, e.w, Looked(req, HasMarker(OrgRows(s.table, req.orgId))))
    else if e.Mark? && writer.Looked? then
      if writer.found then At(s, e.w, Marked(req, []))
      else
        var row := SignedRow(sign, s.nextId, MarkerRequest(req.orgId), e.timestamp, None);
        At(s, e.w, Marked(req, [row])).(nextId := s.nextId + 1)
    else if e.ReadLast? && writer.Marked? then
      At(s, e.w, LastRead(req, writer.pending, LastHash(OrgRows(s.table, req.orgId) + writer.pending)))
    else if e.Write? && writer.LastRead? then
      var row := SignedRow(sign, s.nextId, req, e.timestamp, writer.previous);
      At(s, e.w, Written(req, writer.pending + [row])).(nextId := s.nextId + 1)
    else if e.Commit? && writer.Written? then
      s.(table := s.table + writer.pending, writers := s.writers - {e.w})
    else if e.Abort? then s.(writers := s.writers - {e.w})
    else s
  }

  ghost function Run(sign: Signer, s: State, es: seq<Event>): State {
    if es == [] then s else Next(sign, Run(sign, s, es[..|es| - 1]), es[|es| - 1])
  }

  // ---------- the invariant ----------

  // The signature does not depend on the id or on the stored hash, and is never empty.
  ghost predicate GoodSigner(sign: Signer) {
    forall r :: sign(r) == sign(Unsigned(r)) && sign(r) != ""
  }

  function Unsigned(r: Row): Row {
    r.(id := 0, recordHash := None)
  }

  lemma {:induction false} RecomputeIsGood(mac: Mac)
    requires HexDigest(mac)
    ensures GoodSigner(Recompute(mac))
  {
    forall r ensures Recompute(mac)(r) == Recompute(mac)(Unsigned(r)) && Recompute(mac)(r) != "" {
      assert SignedText(r) == SignedText(Unsigned(r));
      assert |mac(SignedText(r))| == 64;
    }
  }

  ghost predicate Increasing(rows: seq<Row>) {
    forall i, j :: 0 <= i < j < |rows| ==> rows[i].id < rows[j].id
  }

  ghost predicate BelowId(rows: seq<Row>, n: nat) {
    forall i :: 0 <= i < |rows| ==> rows[i].id < n
  }

  ghost predicate GoodLog(sign: Signer, rows: seq<Row>) {
    Increasing(rows) && Sound(sign, rows)
  }

  ghost predicate OfOrg(rows: seq<Row>, orgId: int) {
    forall i :: 0 <= i < |rows| ==> rows[i].orgId == orgId
  }

  ghost predicate Carries(r: Row, req: Request) {
    && r.orgId == req.orgId && r.entityType == req.entityType && r.entityId == req.entityId
    && r.action == req.action && r.details == req.details && r.performedBy == req.performedBy
  }

  // What a writer's uncommitted rows are good for: appended to what is committed for the
  // organization, they keep its log good.
  ghost predicate Appendable(sign: Signer, s: State, orgId: int, pending: seq<Row>) {
    var rows := OrgRows(s.table, orgId) + pending;
    && OfOrg(pending, orgId) && BelowId(pending, s.nextId)
    && GoodLog(sign, rows) && HasMarker(rows)
  }

  ghost predicate WriterOk(sign: Signer, s: State, w: Writer) {
    match w
    case Waiting(_) => true
    case Holding(_) => true
    case Looked(req, found) => found == HasMarker(OrgRows(s.table, req.orgId))
    case Marked(req, pending) => Appendable(sign, s, req.orgId, pending) && MarkerAtMost(pending, req.orgId)
    case LastRead(req, pending, previous) =>
      && Appendable(sign, s, req.orgId, pending) && MarkerAtMost(pending, req.orgId)
      && var rows := OrgRows(s.table, req.orgId) + pending;
         previous == rows[|rows| - 1].recordHash
    case Written(req, pending) =>
      && Appendable(sign, s, req.orgId, pending) && pending != []
      && MarkerAtMost(pending[..|pending| - 1], req.orgId) && Carries(pending[|pending| - 1], req)
  }

  ghost predicate MarkerAtMost(pending: seq<Row>, orgId: int) {
    pending == [] || (|pending| == 1 && Carries(pending[0], MarkerRequest(orgId)) && pending[0].previousHash == None)
  }

  ghost predicate OneHolder(s: State) {
    forall v, w, orgId :: Holds(s, v, orgId) && Holds(s, w, orgId) ==> v == w
  }

  ghost predicate TableOk(sign: Signer, s: State) {
    BelowId(s.table, s.nextId) && forall orgId :: GoodLog(sign, OrgRows(s.table, orgId))
  }

  ghost predicate Inv(sign: Signer, s: State) {
    && TableOk(sign, s)
    && OneHolder(s)
    && forall w :: w in s.writers ==> WriterOk(sign, s, s.writers[w])
  }

  // ---------- filtering and sorting ----------

  lemma {:induction false} OrgRowsAppend(table: seq<Row>, pending: seq<Row>, orgId: int, other: int)
    requires OfOrg(pending, orgId)
    ensures OrgRows(table + pending, other) == OrgRows(table, other) + if other == orgId then pending else []
  {
    if pending == [] {
      assert table + pending == table;
    } else {
      var n := |pending| - 1;
      assert (table + pending)[..|table| + n] == table + pending[..n];
      OrgRowsAppend(table, pending[..n], orgId, other);
    }
  }

  lemma {:induction false} OrgRowsBelow(table: seq<Row>, orgId: int, n: nat)
    requires BelowId(table, n)
    ensures BelowId(OrgRows(table, orgId), n)
  {
    if table != [] {
      OrgRowsBelow(table[..|table| - 1], orgId, n);
    }
  }

  lemma {:induction false} SortOfIncreasing(rows: seq<Row>)
    requires Increasing(rows)
    ensures SortById(rows) == rows
  {
    if rows != [] {
      var n := |rows| - 1;
      SortOfIncreasing(rows[..n]);
      assert rows == rows[..n] + [rows[n]];
    }
  }

  lemma {:induction false} LastOfIncreasing(rows: seq<Row>)
    requires Increasing(rows) && rows != []
    ensures LastById(rows) == Some(rows[|rows| - 1])
  {
    if |rows| > 1 {
      LastOfIncreasing(rows[..|rows| - 1]);
    }
  }

  // ---------- appending ----------

  lemma {:induction false} MarkerIndexAppend(rows: seq<Row>, r: Row)
    ensures HasMarker(rows) ==> MarkerIndex(rows + [r]) == MarkerIndex(rows)
    ensures !HasMarker(rows) && IsMarker(r) ==> MarkerIndex(rows + [r]) == |rows|
  {
    var m, k := MarkerIndex(rows), MarkerIndex(rows + [r]);
    assert k < |rows| ==> (rows + [r])[k] == rows[k];
    if HasMarker(rows) {
      assert (rows + [r])[m] == rows[m] && IsMarker((rows + [r])[m]);
    } else if IsMarker(r) {
      assert (rows + [r])[|rows|] == r;
    }
  }

  lemma {:induction false} SoundAppend(sign: Signer, rows: seq<Row>, r: Row)
    requires Sound(sign, rows) && HasHash(r) && HashMatches(sign, r)
    requires if HasMarker(rows) then r.previousHash == rows[|rows| - 1].recordHash
             else IsMarker(r) && r.previousHash == None
    ensures Sound(sign, rows + [r]) && HasMarker(rows + [r])
  {
    MarkerIndexAppend(rows, r);
    var more, m := rows + [r], MarkerIndex(rows);
    forall i | 0 <= i < |more| ensures Fault(sign, more, MarkerIndex(more), i) == None {
      if i < |rows| {
        assert Fault(sign, rows, m, i) == None && more[i] == rows[i];
        assert i > 0 ==> more[i - 1] == rows[i - 1];
      }
    }
  }

  lemma {:induction false} SignedRowMatches(sign: Signer, id: nat, req: Request, timestamp: string,
                                            previous: Option<string>)
    requires GoodSigner(sign)
    ensures var r := SignedRow(sign, id, req, timestamp, previous);
            HasHash(r) && HashMatches(sign, r) && Carries(r, req) && r.id == id && r.previousHash == previous
  {
    var r := SignedRow(sign, id, req, timestamp, previous);
    assert Unsigned(r) == Unsigned(r.(recordHash := None));
    assert sign(r) == sign(r.(recordHash := None));
  }

  lemma {:induction false} AppendableGrows(sign: Signer, s: State, s': State, req: Request, orgId: int,
                                           pending: seq<Row>,
                        timestamp: string, previous: Option<string>)
    requires GoodSigner(sign) && TableOk(sign, s)
    requires OfOrg(pending, orgId) && BelowId(pending, s.nextId) && req.orgId == orgId
    requires s'.table == s.table && s'.nextId == s.nextId + 1
    requires var rows := OrgRows(s.table, orgId) + pending;
             && GoodLog(sign, rows)
             && if HasMarker(rows) then previous == rows[|rows| - 1].recordHash
                else IsMarker(SignedRow(sign, s.nextId, req, timestamp, previous)) && previous == None
    ensures Appendable(sign, s', orgId, pending + [SignedRow(sign, s.nextId, req, timestamp, previous)])
  {
    var rows := OrgRows(s.table, orgId) + pending;
    var r := SignedRow(sign, s.nextId, req, timestamp, previous);
    SignedRowMatches(sign, s.nextId, req, timestamp, previous);
    OrgRowsBelow(s.table, orgId, s.nextId);
    SoundAppend(sign, rows, r);
    assert rows + [r] == OrgRows(s.table, orgId) + (pending + [r]);
  }

  // ---------- every step keeps the invariant ----------

  // A step of one writer that leaves the table alone.
  lemma {:induction false} WriterStep(sign: Signer, s: State, s': State, w: nat)
    requires Inv(sign, s) && s'.table == s.table && s'.nextId >= s.nextId
    requires s'.writers.Keys <= s.writers.Keys + {w}
    requires forall v :: v in s'.writers && v != w ==> s'.writers[v] == s.writers[v]
    requires w in s'.writers ==> WriterOk(sign, s', s'.writers[w])
    requires forall orgId :: Holds(s', w, orgId) ==> Holds(s, w, orgId) || Free(s, orgId)
    ensures Inv(sign, s')
  {
    forall v | v in s'.writers ensures WriterOk(sign, s', s'.writers[v]) {
      if v != w {
        assert WriterOk(sign, s, s.writers[v]);
      }
    }
    forall u, v, orgId | Holds(s', u, orgId) && Holds(s', v, orgId) ensures u == v {
      if u != w { assert Holds(s, u, orgId); }
      if v != w { assert Holds(s, v, orgId); }
    }
  }

  // What a commit changes: the table grows by the pending rows, the lock is free again.
  lemma {:induction false} CommitEffect(sign: Signer, s: State, w: nat)
    requires w in s.writers && s.writers[w].Written?
    ensures Next(sign, s, Commit(w)) == State(s.table + s.writers[w].pending, s.nextId, s.writers - {w})
  {
  }

  lemma {:induction false} CommitTable(sign: Signer, s: State, w: nat, orgId: int)
    requires TableOk(sign, s) && w in s.writers && s.writers[w].Written? && WriterOk(sign, s, s.writers[w])
    ensures var table := s.table + s.writers[w].pending;
            && GoodLog(sign, OrgRows(table, orgId))
            && (orgId != s.writers[w].req.orgId ==> OrgRows(table, orgId) == OrgRows(s.table, orgId))
  {
    OrgRowsAppend(s.table, s.writers[w].pending, s.writers[w].req.orgId, orgId);
    assert OrgRows(s.table, orgId) + [] == OrgRows(s.table, orgId);
  }

  // Another writer that holds a lock is at work for another organization.
  lemma {:induction false} CommitOther(sign: Signer, s: State, w: nat, v: nat)
    requires Inv(sign, s) && w in s.writers && s.writers[w].Written? && v in s.writers && v != w
    ensures s.writers[v].Waiting? || SameRows(s.table + s.writers[w].pending, s.table, s.writers[v].req.orgId)
  {
    assert WriterOk(sign, s, s.writers[w]) && WriterOk(sign, s, s.writers[v]);
    if !s.writers[v].Waiting? {
      var orgId := s.writers[v].req.orgId;
      assert Holds(s, v, orgId) && Holds(s, w, s.writers[w].req.orgId);
      CommitTable(sign, s, w, orgId);
    }
  }

  predicate SameRows(table: seq<Row>, other: seq<Row>, orgId: int) {
    OrgRows(table, orgId) == OrgRows(other, orgId)
  }

  lemma {:induction false} CommitStep(sign: Signer, s: State, w: nat)
    requires Inv(sign, s) && w in s.writers && s.writers[w].Written?
    ensures Inv(sign, Next(sign, s, Commit(w)))
  {
    CommitEffect(sign, s, w);
    var s' := State(s.table + s.writers[w].pending, s.nextId, s.writers - {w});
    assert WriterOk(sign, s, s.writers[w]);
    forall orgId ensures GoodLog(sign, OrgRows(s'.table, orgId)) {
      CommitTable(sign, s, w, orgId);
    }
    forall v | v in s'.writers ensures WriterOk(sign, s', s'.writers[v]) {
      CommitOther(sign, s, w, v);
      assert WriterOk(sign, s, s.writers[v]);
    }
    forall u, v, orgId | Holds(s', u, orgId) && Holds(s', v, orgId) ensures u == v {
      assert Holds(s, u, orgId) && Holds(s, v, orgId);
    }
  }

  lemma {:induction false} SkipStep(sign: Signer, s: State)
    requires Inv(sign, s)
    ensures Inv(sign, Next(sign, s, SkipId))
  {
    var s' := Next(sign, s, SkipId);
    forall v | v in s'.writers ensures WriterOk(sign, s', s'.writers[v]) {
      assert WriterOk(sign, s, s.writers[v]);
    }
    forall u, v, orgId | Holds(s', u, orgId) && Holds(s', v, orgId) ensures u == v {
      assert Holds(s, u, orgId) && Holds(s, v, orgId);
    }
  }

  lemma {:induction false} MarkStep(sign: Signer, s: State, w: nat, t: string)
    requires GoodSigner(sign) && Inv(sign, s) && w in s.writers && s.writers[w].Looked?
    ensures Inv(sign, Next(sign, s, Mark(w, t)))
  {
    var s' := Next(sign, s, Mark(w, t));
    var Looked(req, found) := s.writers[w];
    assert WriterOk(sign, s, s.writers[w]) && Holds(s, w, req.orgId);
    var rows := OrgRows(s.table, req.orgId);
    assert rows + [] == rows;
    if found {
      assert Appendable(sign, s', req.orgId, []);
    } else {
      AppendableGrows(sign, s, s', MarkerRequest(req.orgId), req.orgId, [], t, None);
      var row := SignedRow(sign, s.nextId, MarkerRequest(req.orgId), t, None);
      assert [] + [row] == [row];
      SignedRowMatches(sign, s.nextId, MarkerRequest(req.orgId), t, None);
    }
    WriterStep(sign, s, s', w);
  }

  lemma {:induction false} ReadStep(sign: Signer, s: State, w: nat)
    requires Inv(sign, s) && w in s.writers && s.writers[w].Marked?
    ensures Inv(sign, Next(sign, s, ReadLast(w)))
  {
    var s' := Next(sign, s, ReadLast(w));
    var Marked(req, pending) := s.writers[w];
    assert WriterOk(sign, s, s.writers[w]) && Holds(s, w, req.orgId);
    LastOfIncreasing(OrgRows(s.table, req.orgId) + pending);
    assert Appendable(sign, s', req.orgId, pending);
    WriterStep(sign, s, s', w);
  }

  lemma {:induction false} WriteStep(sign: Signer, s: State, w: nat, t: string)
    requires GoodSigner(sign) && Inv(sign, s) && w in s.writers && s.writers[w].LastRead?
    ensures Inv(sign, Next(sign, s, Write(w, t)))
  {
    var LastRead(req, pending, previous) := s.writers[w];
    var row := SignedRow(sign, s.nextId, req, t, previous);
    var s' := At(s, w, Written(req, pending + [row])).(nextId := s.nextId + 1);
    assert WriterOk(sign, s, s.writers[w]) && Holds(s, w, req.orgId);
    WrittenOk(sign, s, s', req, pending, previous, t);
    WriterStep(sign, s, s', w);
  }

  lemma {:induction false} WrittenOk(sign: Signer, s: State, s': State, req: Request, pending: seq<Row>,
                                     previous: Option<string>, t: string)
    requires GoodSigner(sign) && TableOk(sign, s) && s'.table == s.table && s'.nextId == s.nextId + 1
    requires WriterOk(sign, s, LastRead(req, pending, previous))
    ensures WriterOk(sign, s', Written(req, pending + [SignedRow(sign, s.nextId, req, t, previous)]))
  {
    var row := SignedRow(sign, s.nextId, req, t, previous);
    AppendableGrows(sign, s, s', req, req.orgId, pending, t, previous);
    SignedRowMatches(sign, s.nextId, req, t, previous);
    assert (pending + [row])[..|pending|] == pending;
  }

  lemma {:induction false} LockOrLookStep(sign: Signer, s: State, e: Event)
    requires Inv(sign, s) && (e.Lock? || e.Look?) && e.w in s.writers
    ensures Inv(sign, Next(sign, s, e))
  {
    var s' := Next(sign, s, e);
    assert WriterOk(sign, s, s.writers[e.w]);
    if s' != s {
      if e.Look? {
        assert Holds(s, e.w, s.writers[e.w].req.orgId);
      }
      WriterStep(sign, s, s', e.w);
    }
  }

  lemma {:induction false} NextKeepsInv(sign: Signer, s: State, e: Event)
    requires GoodSigner(sign) && Inv(sign, s)
    ensures Inv(sign, Next(sign, s, e))
  {
    if e.SkipId? {
      SkipStep(sign, s);
    } else if e.Start? {
      if e.w !in s.writers {
        WriterStep(sign, s, Next(sign, s, e), e.w);
      }
    } else if e.w in s.writers {
      var writer := s.writers[e.w];
      if e.Lock? || e.Look? { LockOrLookStep(sign, s, e); }
      else if e.Mark? && writer.Looked? { MarkStep(sign, s, e.w, e.timestamp); }
      else if e.ReadLast? && writer.Marked? { ReadStep(sign, s, e.w); }
      else if e.Write? && writer.LastRead? { WriteStep(sign, s, e.w, e.timestamp); }
      else if e.Commit? && writer.Written? { CommitStep(sign, s, e.w); }
      else if e.Abort? { WriterStep(sign, s, Next(sign, s, e), e.w); }
    }
  }

  // ---------- runs ----------

  // A table written before any of these writers: listed in id order, each organization's
  // log passes the check.  Rows without a marker that are individually signed, or carry no
  // hash, are such a table (LegacyTable).
  ghost predicate Initial(sign: Signer, s: State) {
    TableOk(sign, s) && s.writers == map[]
  }

  ghost predicate Legacy(sign: Signer, s: State) {
    && s.writers == map[] && BelowId(s.table, s.nextId) && Increasing(s.table)
    && forall i :: 0 <= i < |s.table| ==>
         !IsMarker(s.table[i]) && (HasHash(s.table[i]) ==> HashMatches(sign, s.table[i]))
  }

  lemma {:induction false} OrgRowsOrigin(table: seq<Row>, orgId: int)
    requires Increasing(table)
    ensures Increasing(OrgRows(table, orgId))
    ensures forall r :: r in OrgRows(table, orgId) ==> r in table && r.orgId == orgId
  {
    if table != [] {
      var n := |table| - 1;
      OrgRowsOrigin(table[..n], orgId);
      var rows := OrgRows(table[..n], orgId);
      forall i | 0 <= i < |rows| ensures rows[i].id < table[n].id {
        assert rows[i] in table[..n];
      }
    }
  }

  lemma {:induction false} LegacyTable(sign: Signer, s: State)
    requires Legacy(sign, s)
    ensures Initial(sign, s)
  {
    forall orgId ensures GoodLog(sign, OrgRows(s.table, orgId)) {
      OrgRowsOrigin(s.table, orgId);
      var rows := OrgRows(s.table, orgId);
      forall i | 0 <= i < |rows|
        ensures !IsMarker(rows[i]) && (HasHash(rows[i]) ==> HashMatches(sign, rows[i]))
      {
        assert rows[i] in s.table;
      }
      assert MarkerIndex(rows) == |rows|;
    }
  }

  lemma {:induction false} RunKeepsInv(sign: Signer, s: State, es: seq<Event>)
    requires GoodSigner(sign) && Inv(sign, s)
    ensures Inv(sign, Run(sign, s, es))
  {
    if es != [] {
      RunKeepsInv(sign, s, es[..|es| - 1]);
      NextKeepsInv(sign, Run(sign, s, es[..|es| - 1]), es[|es| - 1]);
    }
  }

  // In every reachable state the log of every organization passes the check, and from its
  // marker on no two rows name one predecessor (short of a MAC collision).
  lemma {:induction false} EveryRunVerifies(mac: Mac, s: State, es: seq<Event>, orgId: int)
    requires HexDigest(mac) && Initial(Recompute(mac), s)
    ensures var log := OrgLog(Run(Recompute(mac), s, es).table, orgId);
            && Increasing(log) && Sound(Recompute(mac), log)
            && Linked(Recompute(mac), ChainPart(log))
            && forall i, j :: 0 <= i < j < |ChainPart(log)| ==>
                 ChainPart(log)[i].previousHash != ChainPart(log)[j].previousHash
                 || Collide(mac, ChainPart(log), ChainPart(log))
  {
    var sign := Recompute(mac);
    RecomputeIsGood(mac);
    RunKeepsInv(sign, s, es);
    var rows := OrgRows(Run(sign, s, es).table, orgId);
    SortOfIncreasing(rows);
    SoundChainIsLinked(sign, rows);
    forall i, j | 0 <= i < j < |ChainPart(rows)|
      ensures ChainPart(rows)[i].previousHash != ChainPart(rows)[j].previousHash
              || Collide(mac, ChainPart(rows), ChainPart(rows))
    {
      NoFork(mac, ChainPart(rows), i, j);
    }
  }

  // A commit appends the requested row, at most preceded by the organization's marker, and
  // an abort nothing.
  lemma {:induction false} CommitAppends(sign: Signer, s: State, w: nat)
    requires Inv(sign, s) && w in s.writers && s.writers[w].Written?
    ensures var req, table := s.writers[w].req, Next(sign, s, Commit(w)).table;
            var n := |table| - 1;
            && n >= |s.table| && table[..|s.table|] == s.table && Carries(table[n], req)
            && MarkerAtMost(table[|s.table|..n], req.orgId)
            && Next(sign, s, Abort(w)).table == s.table
  {
    assert WriterOk(sign, s, s.writers[w]);
    var pending := s.writers[w].pending;
    assert (s.table + pending)[|s.table|..|s.table| + |pending| - 1] == pending[..|pending| - 1];
  }

  // The committed table only ever grows at its end, whatever the writers do.
  lemma {:induction false} TableOnlyGrows(sign: Signer, s: State, es: seq<Event>)
    ensures s.table <= Run(sign, s, es).table
  {
    if es != [] {
      TableOnlyGrows(sign, s, es[..|es| - 1]);
    }
  }

  // ---------- one call, uninterrupted ----------

  // The rows one call appends when the organization's committed rows are these.
  function Batch(sign: Signer, rows: seq<Row>, nextId: nat, req: Request, t1: string, t2: string): seq<Row> {
    var mark := MarkRows(sign, rows, nextId, req, t1);
    mark + [SignedRow(sign, nextId + |mark|, req, t2, LastHash(rows + mark))]
  }

  function MarkRows(sign: Signer, rows: seq<Row>, nextId: nat, req: Request, t1: string): seq<Row> {
    if HasMarker(rows) then [] else [SignedRow(sign, nextId, MarkerRequest(req.orgId), t1, None)]
  }

  // One database session: the committed table and this session's flushed rows.
  class AuditSession {
    const sign: Signer
    var table: seq<Row>
    var pending: seq<Row>
    var nextId: nat

    constructor (sign: Signer, table: seq<Row>, nextId: nat)
      ensures this.sign == sign && this.table == table && this.nextId == nextId && pending == []
    {
      this.sign, this.table, this.nextId, pending := sign, table, nextId, [];
    }

    method InsertLogRow(req: Request, timestamp: string, previous: Option<string>)
      modifies this
      ensures table == old(table) && nextId == old(nextId) + 1
      ensures pending == old(pending) + [SignedRow(sign, old(nextId), req, timestamp, previous)]
    {
      pending := pending + [SignedRow(sign, nextId, req, timestamp, previous)];
      nextId := nextId + 1;
    }

    method CreateAuditLog(req: Request, t1: string, t2: string)
      requires pending == []
      modifies this
      ensures pending == []
      ensures table == old(table) + Batch(sign, OrgRows(old(table), req.orgId), old(nextId), req, t1, t2)
      ensures nextId == old(nextId) + |Batch(sign, OrgRows(old(table), req.orgId), old(nextId), req, t1, t2)|
    {
      var rows := OrgRows(table, req.orgId);
      ghost var mark := MarkRows(sign, rows, nextId, req, t1);
      if !HasMarker(rows) {
        InsertLogRow(MarkerRequest(req.orgId), t1, None);
      }
      assert pending == mark && nextId == old(nextId) + |mark|;
      var last := LastById(rows + pending);
      var previous := if last.Some? then last.value.recordHash else None;
      assert previous == LastHash(rows + mark);
      InsertLogRow(req, t2, previous);
      assert pending == Batch(sign, rows, old(nextId), req, t1, t2);
      table, pending := table + pending, [];
    }
  }

  function CallEvents(w: nat, req: Request, t1: string, t2: string): seq<Event> {
    [Start(w, req), Lock(w), Look(w), Mark(w, t1), ReadLast(w), Write(w, t2), Commit(w)]
  }

  lemma {:induction false} RunFirst(sign: Signer, s: State, e: Event, es: seq<Event>)
    ensures Run(sign, s, [e] + es) == Run(sign, Next(sign, s, e), es)
  {
    if es == [] {
      assert [e] + es == [e];
      assert Run(sign, s, [e][..0]) == s;
    } else {
      var n := |es| - 1;
      RunFirst(sign, s, e, es[..n]);
      assert ([e] + es)[..n + 1] == [e] + es[..n];
    }
  }

  lemma {:induction false} LoneLock(sign: Signer, s: State, w: nat, req: Request)
    requires w !in s.writers && Free(s, req.orgId)
    ensures Next(sign, s, Start(w, req)) == At(s, w, Waiting(req))
    ensures Next(sign, At(s, w, Waiting(req)), Lock(w)) == At(s, w, Holding(req))
    ensures Next(sign, At(s, w, Holding(req)), Look(w)) == At(s, w, Looked(req, HasMarker(OrgRows(s.table, req.orgId))))
  {
    var s1, s2 := At(s, w, Waiting(req)), At(s, w, Holding(req));
    var looked := Looked(req, HasMarker(OrgRows(s.table, req.orgId)));
    forall v | v in s1.writers ensures !Holds(s1, v, req.orgId) {
      assert v != w ==> !Holds(s, v, req.orgId);
    }
    assert At(s1, w, Holding(req)) == s2;
    assert At(s2, w, looked) == At(s, w, looked);
  }

  // Getting the lock and looking for the marker.
  lemma {:induction false} LoneLook(sign: Signer, s: State, w: nat, req: Request, rest: seq<Event>)
    requires w !in s.writers && Free(s, req.orgId)
    ensures Run(sign, s, [Start(w, req)] + ([Lock(w)] + ([Look(w)] + rest)))
            == Run(sign, At(s, w, Looked(req, HasMarker(OrgRows(s.table, req.orgId)))), rest)
  {
    var s1, s2 := At(s, w, Waiting(req)), At(s, w, Holding(req));
    LoneLock(sign, s, w, req);
    RunFirst(sign, s, Start(w, req), [Lock(w)] + ([Look(w)] + rest));
    RunFirst(sign, s1, Lock(w), [Look(w)] + rest);
    RunFirst(sign, s2, Look(w), rest);
  }

  // Inserting the marker if it is missing.
  lemma {:induction false} LoneMark(sign: Signer, s: State, w: nat, req: Request, t1: string)
    ensures var rows := OrgRows(s.table, req.orgId);
            var mark := MarkRows(sign, rows, s.nextId, req, t1);
            Next(sign, At(s, w, Looked(req, HasMarker(rows))), Mark(w, t1))
            == At(s.(nextId := s.nextId + |mark|), w, Marked(req, mark))
  {
    var rows := OrgRows(s.table, req.orgId);
    var s3, marked := At(s, w, Looked(req, HasMarker(rows))), Marked(req, MarkRows(sign, rows, s.nextId, req, t1));
    assert s3.writers[w := marked] == s.writers[w := marked];
  }

  lemma {:induction false} AtAt(s: State, w: nat, first: Writer, second: Writer)
    ensures At(At(s, w, first), w, second) == At(s, w, second)
  {
    assert s.writers[w := first][w := second] == s.writers[w := second];
  }

  lemma {:induction false} LoneRead(sign: Signer, s: State, w: nat, req: Request, mark: seq<Row>)
    ensures Next(sign, At(s, w, Marked(req, mark)), ReadLast(w))
            == At(s, w, LastRead(req, mark, LastHash(OrgRows(s.table, req.orgId) + mark)))
  {
    var s4, read := At(s, w, Marked(req, mark)), LastRead(req, mark, LastHash(OrgRows(s.table, req.orgId) + mark));
    AtAt(s, w, Marked(req, mark), read);
  }

  lemma {:induction false} LoneWrite(sign: Signer, s: State, w: nat, req: Request, mark: seq<Row>,
                                     previous: Option<string>, t2: string)
    ensures Next(sign, At(s, w, LastRead(req, mark, previous)), Write(w, t2))
            == At(s, w, Written(req, mark + [SignedRow(sign, s.nextId, req, t2, previous)])).(nextId := s.nextId + 1)
  {
    var written := Written(req, mark + [SignedRow(sign, s.nextId, req, t2, previous)]);
    assert s.writers[w := LastRead(req, mark, previous)][w := written] == s.writers[w := written];
  }

  lemma {:induction false} LoneCommit(sign: Signer, s: State, w: nat, req: Request, pending: seq<Row>)
    requires w !in s.writers
    ensures Next(sign, At(s, w, Written(req, pending)), Commit(w)) == s.(table := s.table + pending)
  {
    assert s.writers[w := Written(req, pending)] - {w} == s.writers;
  }

  function AppendEvents(w: nat, t2: string): seq<Event> {
    [ReadLast(w)] + ([Write(w, t2)] + ([Commit(w)] + []))
  }

  // Reading the last hash, writing and committing.
  lemma {:induction false} LoneAppend(sign: Signer, s: State, w: nat, req: Request, mark: seq<Row>, t2: string)
    requires w !in s.writers
    ensures var batch := mark + [SignedRow(sign, s.nextId, req, t2, LastHash(OrgRows(s.table, req.orgId) + mark))];
            Run(sign, At(s, w, Marked(req, mark)), AppendEvents(w, t2))
            == State(s.table + batch, s.nextId + 1, s.writers)
  {
    var previous := LastHash(OrgRows(s.table, req.orgId) + mark);
    var pending := mark + [SignedRow(sign, s.nextId, req, t2, previous)];
    LoneRead(sign, s, w, req, mark);
    LoneWrite(sign, s, w, req, mark, previous, t2);
    LoneCommit(sign, s.(nextId := s.nextId + 1), w, req, pending);
    RunFirst(sign, At(s, w, Marked(req, mark)), ReadLast(w), [Write(w, t2)] + ([Commit(w)] + []));
    RunFirst(sign, At(s, w, LastRead(req, mark, previous)), Write(w, t2), [Commit(w)] + []);
    RunFirst(sign, At(s.(nextId := s.nextId + 1), w, Written(req, pending)), Commit(w), []);
  }

  lemma {:induction false} LoneMarked(sign: Signer, s: State, w: nat, req: Request, t1: string, rest: seq<Event>)
    ensures var rows := OrgRows(s.table, req.orgId);
            var mark := MarkRows(sign, rows, s.nextId, req, t1);
            Run(sign, At(s, w, Looked(req, HasMarker(rows))), [Mark(w, t1)] + rest)
            == Run(sign, At(s.(nextId := s.nextId + |mark|), w, Marked(req, mark)), rest)
  {
    LoneMark(sign, s, w, req, t1);
    RunFirst(sign, At(s, w, Looked(req, HasMarker(OrgRows(s.table, req.orgId)))), Mark(w, t1), rest);
  }

  // From the look for the marker to the end.
  lemma {:induction false} LoneFinish(sign: Signer, s: State, w: nat, req: Request, t1: string, t2: string)
    requires w !in s.writers
    ensures var rows := OrgRows(s.table, req.orgId);
            var batch := Batch(sign, rows, s.nextId, req, t1, t2);
            Run(sign, At(s, w, Looked(req, HasMarker(rows))), [Mark(w, t1)] + AppendEvents(w, t2))
            == State(s.table + batch, s.nextId + |batch|, s.writers)
  {
    var rows := OrgRows(s.table, req.orgId);
    var mark := MarkRows(sign, rows, s.nextId, req, t1);
    assert |Batch(sign, rows, s.nextId, req, t1, t2)| == |mark| + 1;
    LoneMarked(sign, s, w, req, t1, AppendEvents(w, t2));
    LoneAppend(sign, s.(nextId := s.nextId + |mark|), w, req, mark, t2);
  }

  // From any state in which the organization's lock is free, a writer that is let through
  // finishes, and appends exactly the rows an uninterrupted call appends.
  lemma {:induction false} LoneCall(sign: Signer, s: State, w: nat, req: Request, t1: string, t2: string)
    requires w !in s.writers && Free(s, req.orgId)
    ensures var batch := Batch(sign, OrgRows(s.table, req.orgId), s.nextId, req, t1, t2);
            Run(sign, s, CallEvents(w, req, t1, t2))
            == State(s.table + batch, s.nextId + |batch|, s.writers)
  {
    CallInParts(w, req, t1, t2);
    LoneLook(sign, s, w, req, [Mark(w, t1)] + AppendEvents(w, t2));
    LoneFinish(sign, s, w, req, t1, t2);
  }

  lemma {:induction false} CallInParts(w: nat, req: Request, t1: string, t2: string)
    ensures CallEvents(w, req, t1, t2)
            == [Start(w, req)] + ([Lock(w)] + ([Look(w)] + ([Mark(w, t1)] + AppendEvents(w, t2))))
  {
  }

  ghost predicate IsFreshMarker(sign: Signer, r: Row, id: nat, orgId: int, t: string) {
    && r.id == id && r.orgId == orgId && r.entityType == "audit_chain" && r.entityId == 0
    && r.action == "chain_v2_started" && r.performedBy == Some("system") && r.timestamp == t
    && r.details == Some("Per-organization audit chain (v2) started; earlier records belong to the legacy global chain")
    && r.previousHash == None && r.recordHash == Some(sign(r.(recordHash := None)))
  }

  ghost predicate Stores(sign: Signer, r: Row, id: nat, req: Request, t: string) {
    && r.id == id && r.orgId == req.orgId && r.entityType == req.entityType && r.entityId == req.entityId
    && r.action == req.action && r.details == req.details && r.performedBy == req.performedBy
    && r.timestamp == t && r.recordHash == Some(sign(r.(recordHash := None)))
  }

  predicate HoldsMarker(rows: seq<Row>) {
    exists i :: 0 <= i < |rows| && rows[i].entityType == "audit_chain" && rows[i].action == "chain_v2_started"
  }

  lemma {:induction false} SignedRowInFull(sign: Signer, id: nat, req: Request, t: string, previous: Option<string>)
    ensures var r := SignedRow(sign, id, req, t, previous);
            Stores(sign, r, id, req, t) && r.previousHash == previous
  {
    var r := SignedRow(sign, id, req, t, previous);
    assert r.(recordHash := None) == Row(id, req.orgId, req.entityType, req.entityId, req.action, req.details,
                                         req.performedBy, t, previous, None);
  }

  lemma {:induction false} MarkedMeansMarker(rows: seq<Row>)
    ensures HoldsMarker(rows) <==> HasMarker(rows)
  {
    if HasMarker(rows) {
      assert IsMarker(rows[MarkerIndex(rows)]);
    }
  }

  // What one call writes, field by field.  An organization without a marker first gets one, which
  // names no predecessor; the requested row names the row of the greatest id, and carries the
  // texts and the time it was given.
  lemma {:induction false} BatchInFull(sign: Signer, rows: seq<Row>, nextId: nat, req: Request, t1: string, t2: string)
    requires Increasing(rows) && BelowId(rows, nextId)
    ensures var batch := Batch(sign, rows, nextId, req, t1, t2);
            var n := |batch| - 1;
            var before := rows + batch[..n];
            && n == (if HoldsMarker(rows) then 0 else 1)
            && (n == 1 ==> IsFreshMarker(sign, batch[0], nextId, req.orgId, t1))
            && Stores(sign, batch[n], nextId + n, req, t2)
            && before != [] && batch[n].previousHash == before[|before| - 1].recordHash
  {
    var mark := MarkRows(sign, rows, nextId, req, t1);
    MarkRowsInFull(sign, rows, nextId, req, t1);
    NamesLast(sign, rows + mark, nextId + |mark|, req, t2);
    assert Batch(sign, rows, nextId, req, t1, t2)[..|mark|] == mark;
  }

  lemma {:induction false} MarkRowsInFull(sign: Signer, rows: seq<Row>, nextId: nat, req: Request, t1: string)
    requires Increasing(rows) && BelowId(rows, nextId)
    ensures var mark := MarkRows(sign, rows, nextId, req, t1);
            && |mark| == (if HoldsMarker(rows) then 0 else 1)
            && (!HoldsMarker(rows) ==> IsFreshMarker(sign, mark[0], nextId, req.orgId, t1))
            && Increasing(rows + mark) && rows + mark != []
  {
    MarkedMeansMarker(rows);
    SignedRowInFull(sign, nextId, MarkerRequest(req.orgId), t1, None);
  }

  lemma {:induction false} NamesLast(sign: Signer, before: seq<Row>, id: nat, req: Request, t2: string)
    requires Increasing(before) && before != []
    ensures var r := SignedRow(sign, id, req, t2, LastHash(before));
            Stores(sign, r, id, req, t2) && r.previousHash == before[|before| - 1].recordHash
  {
    LastOfIncreasing(before);
    SignedRowInFull(sign, id, req, t2, LastHash(before));
  }
}
