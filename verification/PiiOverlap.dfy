/**
 Choosing among overlapping detections: the best scored span wins, then the earliest
 start, then the one reported first.
 */
module PiiOverlap {

  datatype Span = Span(start: nat, end: nat, score: int, kind: string)

  // Two spans that cannot both be kept, as the code tests it.
  predicate Overlap(a: Span, b: Span) {
    !(a.end <= b.start || a.start >= b.end)
  }

  // Candidate i ranks before candidate j.
  predicate Before(rs: seq<Span>, i: nat, j: nat)
    requires i < |rs| && j < |rs|
  {
    var a, b := rs[i], rs[j];
    a.score > b.score || (a.score == b.score && (a.start < b.start || (a.start == b.start && i < j)))
  }

  // ---------- what the choice must be ----------

  // A candidate is chosen exactly when no chosen candidate that ranks before it overlaps it.
  ghost predicate IsSelection(rs: seq<Span>, chosen: set<nat>) {
    && (forall i :: i in chosen ==> i < |rs|)
    && forall i :: 0 <= i < |rs| ==> (i in chosen <==> !Beaten(rs, chosen, i))
  }

  ghost predicate Beaten(rs: seq<Span>, chosen: set<nat>, i: nat)
    requires i < |rs|
  {
    exists j :: j in chosen && j < |rs| && Before(rs, j, i) && Overlap(rs[j], rs[i])
  }

  ghost function Members(s: seq<nat>): set<nat> {
    set x | x in s
  }

  predicate InRange(s: seq<nat>, n: nat) {
    forall k :: 0 <= k < |s| ==> s[k] < n
  }

  // By start, equal starts by rank: a stable sort of what was selected by rank.
  predicate Precedes(rs: seq<Span>, i: nat, j: nat)
    requires i < |rs| && j < |rs|
  {
    rs[i].start < rs[j].start || (rs[i].start == rs[j].start && Before(rs, i, j))
  }

  predicate ByStart(rs: seq<Span>, s: seq<nat>)
    requires InRange(s, |rs|)
  {
    forall i, j :: 0 <= i < j < |s| ==> Precedes(rs, s[i], s[j])
  }

  // r lists the chosen candidates, whose positions are idx, by start.
  ghost predicate Resolved(rs: seq<Span>, idx: seq<nat>, r: seq<Span>) {
    && InRange(idx, |rs|) && ByStart(rs, idx)
    && IsSelection(rs, Members(idx))
    && |r| == |idx| && forall k :: 0 <= k < |r| ==> r[k] == rs[idx[k]]
  }

  // What resolving must return.
  ghost predicate IsResolution(rs: seq<Span>, r: seq<Span>) {
    exists idx :: Resolved(rs, idx, r)
  }

  // ---------- sorting ----------

  predicate Ranked(rs: seq<Span>, s: seq<nat>)
    requires InRange(s, |rs|)
  {
    forall i, j :: 0 <= i < j < |s| ==> Before(rs, s[i], s[j])
  }

  // The first n candidates, sorted by rank.
  function RankOrder(rs: seq<Span>, n: nat): (s: seq<nat>)
    requires n <= |rs|
    ensures InRange(s, |rs|) && Ranked(rs, s)
    ensures forall i :: i in s <==> 0 <= i < n
  {
    if n == 0 then [] else InsertByRank(rs, RankOrder(rs, n - 1), n - 1)
  }

  function InsertByRank(rs: seq<Span>, s: seq<nat>, x: nat): (t: seq<nat>)
    requires x < |rs| && InRange(s, |rs|) && Ranked(rs, s) && x !in s
    ensures InRange(t, |rs|) && Ranked(rs, t)
    ensures forall i :: i in t <==> i in s || i == x
  {
    if s == [] || Before(rs, s[|s| - 1], x) then s + [x]
    else
      var n := |s| - 1;
      assert s == s[..n] + [s[n]];
      var u := InsertByRank(rs, s[..n], x);
      forall k | 0 <= k < |u| ensures Before(rs, u[k], s[n]) {
        assert u[k] in s[..n] || u[k] == x;
      }
      u + [s[n]]
  }

  // Sorted by start, equal starts in the order given.
  function StartOrder(rs: seq<Span>, s: seq<nat>): (t: seq<nat>)
    requires InRange(s, |rs|) && Ranked(rs, s)
    ensures InRange(t, |rs|) && ByStart(rs, t)
    ensures forall i :: i in t <==> i in s
  {
    if s == [] then []
    else
      var n := |s| - 1;
      assert s == s[..n] + [s[n]];
      var t := StartOrder(rs, s[..n]);
      forall k | 0 <= k < |t| ensures Before(rs, t[k], s[n]) {
        assert t[k] in s[..n];
      }
      InsertByStart(rs, t, s[n])
  }

  // Of those with its start, x comes last: it ranks behind all of s.
  function InsertByStart(rs: seq<Span>, s: seq<nat>, x: nat): (t: seq<nat>)
    requires x < |rs| && InRange(s, |rs|) && ByStart(rs, s)
    requires forall k :: 0 <= k < |s| ==> Before(rs, s[k], x)
    ensures InRange(t, |rs|) && ByStart(rs, t)
    ensures forall i :: i in t <==> i in s || i == x
  {
    if s == [] || rs[s[|s| - 1]].start <= rs[x].start then LastByStart(rs, s, x); s + [x]
    else
      var n := |s| - 1;
      assert s == s[..n] + [s[n]];
      var u := InsertByStart(rs, s[..n], x);
      forall k | 0 <= k < |u| ensures Precedes(rs, u[k], s[n]) {
        assert u[k] in s[..n] || u[k] == x;
      }
      u + [s[n]]
  }

  lemma {:induction false} LastByStart(rs: seq<Span>, s: seq<nat>, x: nat)
    requires x < |rs| && InRange(s, |rs|) && ByStart(rs, s)
    requires forall k :: 0 <= k < |s| ==> Before(rs, s[k], x)
    requires s != [] ==> rs[s[|s| - 1]].start <= rs[x].start
    ensures ByStart(rs, s + [x])
  {
    forall k | 0 <= k < |s| ensures Precedes(rs, s[k], x) {
      assert k < |s| - 1 ==> Precedes(rs, s[k], s[|s| - 1]);
    }
  }

  // ---------- the resolver ----------

  method ResolveOverlaps(rs: seq<Span>) returns (r: seq<Span>)
    ensures IsResolution(rs, r)
  {
    var ordered := RankOrder(rs, |rs|);
    var selected: seq<nat> := [];
    var occupied: seq<Span> := [];
    for k := 0 to |ordered|
      invariant InRange(selected, |rs|) && Ranked(rs, selected)
      invariant |occupied| == |selected| && forall m :: 0 <= m < |selected| ==> occupied[m] == rs[selected[m]]
      invariant forall i :: i in selected ==> i in ordered[..k]
      invariant forall m :: 0 <= m < k ==> (ordered[m] in selected <==> !Beaten(rs, Members(selected), ordered[m]))
    {
      var x := ordered[k];
      ghost var before := Members(selected);
      assert x !in ordered[..k];
      forall m | 0 <= m < |selected| ensures Before(rs, selected[m], x) {
        assert selected[m] in ordered[..k];
      }
      assert Clash(rs, occupied, x) <==> Beaten(rs, before, x) by {
        ClashIsBeaten(rs, ordered, k, selected, occupied);
      }
      if !Clash(rs, occupied, x) {
        selected := selected + [x];
        occupied := occupied + [rs[x]];
        LaterDoesNotBeat(rs, ordered, k, before, Members(selected));
      }
      assert forall m :: 0 <= m <= k ==> (ordered[m] in selected <==> ordered[m] in Members(selected));
    }
    assert ordered[..|ordered|] == ordered;
    forall i | 0 <= i < |rs| ensures i in Members(selected) <==> !Beaten(rs, Members(selected), i) {
      assert i in ordered;
    }
    var final := StartOrder(rs, selected);
    assert Members(final) == Members(selected);
    r := seq(|final|, k requires 0 <= k < |final| => rs[final[k]]);
    assert Resolved(rs, final, r);
  }

  predicate Clash(rs: seq<Span>, occupied: seq<Span>, x: nat)
    requires x < |rs|
  {
    exists m :: 0 <= m < |occupied| && Overlap(rs[x], occupied[m])
  }

  lemma {:induction false} ClashIsBeaten(rs: seq<Span>, ordered: seq<nat>, k: nat, selected: seq<nat>,
                                         occupied: seq<Span>)
    requires InRange(ordered, |rs|) && Ranked(rs, ordered) && k < |ordered|
    requires InRange(selected, |rs|) && forall i :: i in selected ==> i in ordered[..k]
    requires |occupied| == |selected| && forall m :: 0 <= m < |selected| ==> occupied[m] == rs[selected[m]]
    ensures Clash(rs, occupied, ordered[k]) <==> Beaten(rs, Members(selected), ordered[k])
  {
    var x := ordered[k];
    if Clash(rs, occupied, x) {
      var m :| 0 <= m < |occupied| && Overlap(rs[x], occupied[m]);
      assert selected[m] in ordered[..k];
      var p :| 0 <= p < k && ordered[..k][p] == selected[m];
      assert Before(rs, ordered[p], ordered[k]) && selected[m] in Members(selected);
    }
    if Beaten(rs, Members(selected), x) {
      var j :| j in Members(selected) && j < |rs| && Before(rs, j, x) && Overlap(rs[j], rs[x]);
      var m :| 0 <= m < |selected| && selected[m] == j;
      assert Overlap(rs[x], occupied[m]);
    }
  }

  lemma {:induction false} LaterDoesNotBeat(rs: seq<Span>, ordered: seq<nat>, k: nat, before: set<nat>, after: set<nat>)
    requires InRange(ordered, |rs|) && Ranked(rs, ordered) && k < |ordered|
    requires after == before + {ordered[k]}
    ensures forall m :: 0 <= m <= k ==> (Beaten(rs, before, ordered[m]) <==> Beaten(rs, after, ordered[m]))
  {
    forall m | 0 <= m <= k ensures Beaten(rs, before, ordered[m]) <==> Beaten(rs, after, ordered[m]) {
      assert m < k ==> Before(rs, ordered[m], ordered[k]);
      if Beaten(rs, before, ordered[m]) {
        var j :| j in before && j < |rs| && Before(rs, j, ordered[m]) && Overlap(rs[j], rs[ordered[m]]);
        assert j in after;
      }
    }
  }

  // ---------- what the choice guarantees ----------

  // There is only one selection.
  lemma {:induction false} SelectionUnique(rs: seq<Span>, a: set<nat>, b: set<nat>)
    requires IsSelection(rs, a) && IsSelection(rs, b)
    ensures a == b
  {
    var ordered := RankOrder(rs, |rs|);
    forall i | 0 <= i < |rs| ensures i in a <==> i in b {
      assert i in ordered;
      var k :| 0 <= k < |ordered| && ordered[k] == i;
      SelectionsAgree(rs, ordered, k, a, b);
    }
  }

  ghost predicate AllRanked(rs: seq<Span>, ordered: seq<nat>) {
    && InRange(ordered, |rs|) && Ranked(rs, ordered)
    && forall i :: 0 <= i < |rs| ==> i in ordered
  }

  lemma {:induction false} SelectionsAgree(rs: seq<Span>, ordered: seq<nat>, k: nat, a: set<nat>, b: set<nat>)
    requires AllRanked(rs, ordered) && k < |ordered|
    requires IsSelection(rs, a) && IsSelection(rs, b)
    ensures ordered[k] in a <==> ordered[k] in b
  {
    forall m | 0 <= m < k ensures ordered[m] in a <==> ordered[m] in b {
      SelectionsAgree(rs, ordered, m, a, b);
    }
    BeatenByEarlier(rs, ordered, k, a, b);
    BeatenByEarlier(rs, ordered, k, b, a);
  }

  lemma {:induction false} BeatenByEarlier(rs: seq<Span>, ordered: seq<nat>, k: nat, a: set<nat>, b: set<nat>)
    requires AllRanked(rs, ordered) && k < |ordered|
    requires forall m :: 0 <= m < k ==> (ordered[m] in a <==> ordered[m] in b)
    ensures Beaten(rs, a, ordered[k]) ==> Beaten(rs, b, ordered[k])
  {
    if Beaten(rs, a, ordered[k]) {
      var j :| j in a && j < |rs| && Before(rs, j, ordered[k]) && Overlap(rs[j], rs[ordered[k]]);
      assert j in ordered;
      var m :| 0 <= m < |ordered| && ordered[m] == j;
      assert j in b;
    }
  }

  ghost predicate NonEmpty(rs: seq<Span>) {
    forall i :: 0 <= i < |rs| ==> rs[i].start < rs[i].end
  }

  ghost predicate SortedDisjoint(r: seq<Span>) {
    forall i, j :: 0 <= i < j < |r| ==> r[i].end <= r[j].start
  }

  // No two chosen candidates overlap.
  lemma {:induction false} ChosenApart(rs: seq<Span>, chosen: set<nat>, x: nat, y: nat)
    requires IsSelection(rs, chosen) && x in chosen && y in chosen && x != y
    ensures !Overlap(rs[x], rs[y])
  {
    assert Before(rs, x, y) || Before(rs, y, x);
    assert !Beaten(rs, chosen, x) && !Beaten(rs, chosen, y);
  }

  lemma {:induction false} ListedApart(rs: seq<Span>, idx: seq<nat>, r: seq<Span>, i: nat, j: nat)
    requires Resolved(rs, idx, r) && i < j < |r|
    ensures Precedes(rs, idx[i], idx[j]) && !Overlap(r[i], r[j])
  {
    assert idx[i] in Members(idx) && idx[j] in Members(idx);
    assert Precedes(rs, idx[i], idx[j]);
    ChosenApart(rs, Members(idx), idx[i], idx[j]);
  }

  // The output is sorted and disjoint.
  lemma {:induction false} ResolvedIsDisjoint(rs: seq<Span>, idx: seq<nat>, r: seq<Span>)
    requires Resolved(rs, idx, r) && NonEmpty(rs)
    ensures NonEmpty(r) && SortedDisjoint(r)
  {
    forall i, j | 0 <= i < j < |r| ensures r[i].end <= r[j].start {
      ListedApart(rs, idx, r, i, j);
    }
  }

  // For nonempty spans: two overlap exactly when they share a position of the text.
  lemma {:induction false} OverlapIsShared(a: Span, b: Span)
    requires a.start < a.end && b.start < b.end
    ensures Overlap(a, b) <==> exists p :: Covers(a, p) && Covers(b, p)
  {
    var p := if a.start < b.start then b.start else a.start;
    assert Overlap(a, b) ==> Covers(a, p) && Covers(b, p);
  }

  predicate Covers(s: Span, p: nat) {
    s.start <= p < s.end
  }

  // Whatever is dropped overlaps a kept span that beats it: by its score, or at the same score
  // by an earlier start, or at the same start by having been reported first.
  lemma {:induction false} DroppedWasBeaten(rs: seq<Span>, idx: seq<nat>, r: seq<Span>, i: nat)
    requires Resolved(rs, idx, r) && i < |rs| && i !in idx
    ensures exists k :: 0 <= k < |r| && Overlap(r[k], rs[i]) && Beats(r[k], idx[k], rs[i], i)
  {
    assert i !in Members(idx);
    var j :| j in Members(idx) && j < |rs| && Before(rs, j, i) && Overlap(rs[j], rs[i]);
    var k :| 0 <= k < |idx| && idx[k] == j;
    assert r[k] == rs[j];
  }

  predicate Beats(a: Span, x: nat, b: Span, y: nat) {
    || a.score > b.score
    || (a.score == b.score && a.start < b.start)
    || (a.score == b.score && a.start == b.start && x < y)
  }

  ghost predicate Within(a: seq<nat>, b: seq<nat>) {
    forall p :: 0 <= p < |a| ==> a[p] in b
  }

  lemma {:induction false} PrefixWithin(rs: seq<Span>, a: seq<nat>, b: seq<nat>)
    requires InRange(a, |rs|) && ByStart(rs, a) && Within(a, b)
    requires a != [] && b != [] && a[|a| - 1] == b[|b| - 1]
    ensures Within(a[..|a| - 1], b[..|b| - 1])
  {
    var m := |a| - 1;
    forall p | 0 <= p < m ensures a[..m][p] in b[..|b| - 1] {
      assert Precedes(rs, a[p], a[m]);
      assert a[p] in b && b == b[..|b| - 1] + [b[|b| - 1]];
    }
  }

  lemma {:induction false} SameLast(rs: seq<Span>, a: seq<nat>, b: seq<nat>)
    requires InRange(a, |rs|) && InRange(b, |rs|) && ByStart(rs, a) && ByStart(rs, b)
    requires Within(a, b) && Within(b, a) && a != [] && b != []
    ensures a[|a| - 1] == b[|b| - 1]
  {
    var m, n := |a| - 1, |b| - 1;
    assert a[m] in b && b[n] in a;
    var p :| 0 <= p < |b| && b[p] == a[m];
    var q :| 0 <= q < |a| && a[q] == b[n];
  }

  // Sorted, a list is determined by its members.
  lemma {:induction false} SortedListUnique(rs: seq<Span>, a: seq<nat>, b: seq<nat>)
    requires InRange(a, |rs|) && InRange(b, |rs|) && ByStart(rs, a) && ByStart(rs, b)
    requires Within(a, b) && Within(b, a)
    ensures a == b
  {
    if a == [] || b == [] {
      EmptyTogether(a, b);
    } else {
      SameLast(rs, a, b);
      PrefixWithin(rs, a, b);
      PrefixWithin(rs, b, a);
      SortedListUnique(rs, a[..|a| - 1], b[..|b| - 1]);
      SamePrefixAndLast(a, b);
    }
  }

  lemma {:induction false} EmptyTogether(a: seq<nat>, b: seq<nat>)
    requires Within(a, b) && Within(b, a) && (a == [] || b == [])
    ensures a == b
  {
    assert Within(a, []) ==> |a| == 0 by { NothingWithinEmpty(a); }
    assert Within(b, []) ==> |b| == 0 by { NothingWithinEmpty(b); }
  }

  lemma {:induction false} NothingWithinEmpty(a: seq<nat>)
    ensures Within(a, []) ==> a == []
  {
    if a != [] {
      assert a[0] !in [];
    }
  }

  lemma {:induction false} SamePrefixAndLast(a: seq<nat>, b: seq<nat>)
    requires a != [] && b != [] && a[|a| - 1] == b[|b| - 1] && a[..|a| - 1] == b[..|b| - 1]
    ensures a == b
  {
    assert a == a[..|a| - 1] + [a[|a| - 1]] && b == b[..|b| - 1] + [b[|b| - 1]];
  }

  // The result is determined by the candidates.
  lemma {:induction false} ResolvedUnique(rs: seq<Span>, r: seq<Span>, r': seq<Span>)
    requires IsResolution(rs, r) && IsResolution(rs, r')
    ensures r == r'
  {
    var idx :| Resolved(rs, idx, r);
    var idx' :| Resolved(rs, idx', r');
    SelectionUnique(rs, Members(idx), Members(idx'));
    assert Within(idx, idx') && Within(idx', idx) by {
      assert forall p :: 0 <= p < |idx| ==> idx[p] in Members(idx);
      assert forall p :: 0 <= p < |idx'| ==> idx'[p] in Members(idx');
    }
    SortedListUnique(rs, idx, idx');
  }

  // A result resolves to itself.
  lemma {:induction false} ResolvesToItself(rs: seq<Span>, idx: seq<nat>, r: seq<Span>)
    requires Resolved(rs, idx, r)
    ensures IsResolution(r, r)
  {
    var all := seq(|r|, k requires 0 <= k < |r| => k);
    forall i, j | 0 <= i < j < |r| ensures Precedes(r, i, j) && !Overlap(r[i], r[j]) {
      ListedApart(rs, idx, r, i, j);
    }
    forall i | 0 <= i < |r| ensures i in Members(all) && !Beaten(r, Members(all), i) {
      assert all[i] == i;
      assert !Before(r, i, i);
    }
    assert Resolved(r, all, r);
  }

  // Resolving a result again changes nothing.
  lemma {:induction false} ResolveTwice(rs: seq<Span>, r: seq<Span>, r': seq<Span>)
    requires IsResolution(rs, r) && IsResolution(r, r')
    ensures r' == r
  {
    var idx :| Resolved(rs, idx, r);
    ResolvesToItself(rs, idx, r);
    ResolvedUnique(r, r', r);
  }

  // ---------- empty spans ----------

  ghost predicate Forward(rs: seq<Span>) {
    forall i :: 0 <= i < |rs| ==> rs[i].start <= rs[i].end
  }

  // Candidate e is empty and stands at the start of candidate a, which ranks before it and
  // is not empty.
  predicate EmptyAtStart(rs: seq<Span>, a: nat, e: nat)
    requires a < |rs| && e < |rs|
  {
    rs[a].start < rs[a].end && rs[e].start == rs[e].end == rs[a].start && Before(rs, a, e)
  }

  // Such a candidate is never dropped when a is kept: whatever reaches over it overlaps a.
  lemma {:induction false} EmptyIsKept(rs: seq<Span>, chosen: set<nat>, a: nat, e: nat)
    requires IsSelection(rs, chosen) && a in chosen && e < |rs| && EmptyAtStart(rs, a, e)
    ensures e in chosen
  {
    if Beaten(rs, chosen, e) {
      var c :| c in chosen && c < |rs| && Before(rs, c, e) && Overlap(rs[c], rs[e]);
      assert Overlap(rs[c], rs[a]) && c != a;
      ChosenApart(rs, chosen, c, a);
    }
  }

  // The output is in text order exactly when no empty candidate stands at the start of a kept
  // nonempty one that ranks before it.
  lemma {:induction false} OrderedUnlessEmptyAtStart(rs: seq<Span>, idx: seq<nat>, r: seq<Span>)
    requires Resolved(rs, idx, r) && Forward(rs)
    ensures SortedDisjoint(r) <==> forall a, e :: a in idx && 0 <= e < |rs| ==> !EmptyAtStart(rs, a, e)
  {
    if !SortedDisjoint(r) {
      var i, j :| 0 <= i < j < |r| && r[i].end > r[j].start;
      ListedApart(rs, idx, r, i, j);
      assert idx[i] in idx && EmptyAtStart(rs, idx[i], idx[j]);
    }
    forall a, e | a in idx && 0 <= e < |rs| && EmptyAtStart(rs, a, e) ensures !SortedDisjoint(r) {
      OutOfOrder(rs, idx, r, a, e);
    }
  }

  lemma {:induction false} OutOfOrder(rs: seq<Span>, idx: seq<nat>, r: seq<Span>, a: nat, e: nat)
    requires Resolved(rs, idx, r) && a in idx && e < |rs| && EmptyAtStart(rs, a, e)
    ensures !SortedDisjoint(r)
  {
    EmptyIsKept(rs, Members(idx), a, e);
    assert e in idx;
    var i :| 0 <= i < |idx| && idx[i] == a;
    var j :| 0 <= j < |idx| && idx[j] == e;
    assert !Precedes(rs, e, a);
    assert r[i].end > r[j].start;
  }

  // The smallest instance: a span, and an empty one at its start with a lower score.
  lemma {:induction false} EmptySpansBreakOrder(rs: seq<Span>)
    requires rs == [Span(5, 9, 2, "A"), Span(5, 5, 1, "B")]
    ensures IsResolution(rs, rs) && !SortedDisjoint(rs)
  {
    var idx: seq<nat> := [0, 1];
    assert !Overlap(rs[0], rs[1]) && !Overlap(rs[1], rs[0]);
    forall i | 0 <= i < |rs| ensures i in Members(idx) && !Beaten(rs, Members(idx), i) {
      assert idx[i] == i;
      assert !Before(rs, i, i);
    }
    assert Resolved(rs, idx, rs);
    assert 0 in idx && EmptyAtStart(rs, 0, 1);
    OrderedUnlessEmptyAtStart(rs, idx, rs);
  }
}
