/**
 When restoring an anonymised text with its own mapping gives the original back.
 */
module PiiRoundTrip {
  import opened Basics
  import opened PiiTokens
  import opened PiiOverlap
  import opened PiiMapping

  // ---------- texts as pieces ----------

  // Kept text, then a placeholder standing for a value.
  datatype Piece = Piece(gap: string, placeholder: string, value: string)

  function Joined(ps: seq<Piece>, tail: string): string {
    if ps == [] then tail else ps[0].gap + ps[0].placeholder + Joined(ps[1..], tail)
  }

  function Original(ps: seq<Piece>, tail: string): string {
    if ps == [] then tail else ps[0].gap + ps[0].value + Original(ps[1..], tail)
  }

  function RestoredPieces(ps: seq<Piece>, tail: string, m: map<string, string>): string {
    if ps == [] then Restore(tail, m)
    else Restore(ps[0].gap, m) + Lookup(m, ps[0].placeholder) + RestoredPieces(ps[1..], tail, m)
  }

  // Every stretch between placeholders is restored on its own, whatever stands in it.
  lemma {:induction false} RestoreByPieces(ps: seq<Piece>, tail: string, m: map<string, string>)
    requires forall k :: 0 <= k < |ps| ==> IsToken(ps[k].placeholder)
    ensures Restore(Joined(ps, tail), m) == RestoredPieces(ps, tail, m)
  {
    if ps != [] {
      RestoreSplit(ps[0].gap, ps[0].placeholder, Joined(ps[1..], tail), m);
      RestoreByPieces(ps[1..], tail, m);
    }
  }

  ghost predicate EachOwn(ps: seq<Piece>, m: map<string, string>) {
    forall k :: 0 <= k < |ps| ==> Lookup(m, ps[k].placeholder) == ps[k].value
  }

  ghost predicate AllFree(ps: seq<Piece>, tail: string) {
    TokenFree(tail) && forall k :: 0 <= k < |ps| ==> TokenFree(ps[k].gap)
  }

  // What is put back for any token is not empty and does not begin like a token.
  ghost predicate StartsPlain(m: map<string, string>) {
    forall token :: IsToken(token) ==> Lookup(m, token) != "" && Lookup(m, token)[0] != '<'
  }

  lemma {:induction false} PiecesComeBack(ps: seq<Piece>, tail: string, m: map<string, string>)
    requires EachOwn(ps, m) && AllFree(ps, tail)
    ensures RestoredPieces(ps, tail, m) == Original(ps, tail)
  {
    if ps == [] {
      RestoreTokenFree(tail, m);
    } else {
      RestoreTokenFree(ps[0].gap, m);
      PiecesComeBack(ps[1..], tail, m);
    }
  }

  // A kept stretch with a token in it does not come back, and shows it at the first token.
  lemma {:induction false} TokenBreaks(gap: string, m: map<string, string>, rest: string, rest': string)
    requires !TokenFree(gap) && StartsPlain(m)
    ensures Restore(gap, m) + rest != gap + rest'
  {
    FirstToken(gap);
    var a, token, b :| StartsAt(gap, a, token, b);
    RestoreSplit(a, token, b, m);
    RestoreTokenFree(a, m);
    var restored, kept := Restore(gap, m) + rest, gap + rest';
    assert restored[|a|] == Lookup(m, token)[0];
    assert kept[|a|] == token[0] == '<';
  }

  lemma {:induction false} SamePrefixDiffers(x: string, y: string, z: string)
    requires y != z
    ensures x + y != x + z
  {
    assert (x + y)[|x|..] == y && (x + z)[|x|..] == z;
  }

  lemma {:induction false} GapBreaks(p: Piece, m: map<string, string>, back: string, rest: string, rest': string)
    requires !TokenFree(p.gap) && StartsPlain(m)
    ensures Restore(p.gap, m) + back + rest != p.gap + p.value + rest'
  {
    TokenBreaks(p.gap, m, back + rest, p.value + rest');
    assert Restore(p.gap, m) + back + rest == Restore(p.gap, m) + (back + rest);
    assert p.gap + p.value + rest' == p.gap + (p.value + rest');
  }

  lemma {:induction false} TailBreaks(tail: string, m: map<string, string>)
    requires !TokenFree(tail) && StartsPlain(m)
    ensures Restore(tail, m) != tail
  {
    TokenBreaks(tail, m, "", "");
    assert Restore(tail, m) + "" == Restore(tail, m) && tail + "" == tail;
  }

  lemma {:induction false} PiecesBreak(ps: seq<Piece>, tail: string, m: map<string, string>)
    requires EachOwn(ps, m) && StartsPlain(m) && !AllFree(ps, tail)
    ensures RestoredPieces(ps, tail, m) != Original(ps, tail)
  {
    if ps == [] {
      TailBreaks(tail, m);
    } else {
      var p, rest, rest' := ps[0], RestoredPieces(ps[1..], tail, m), Original(ps[1..], tail);
      if TokenFree(p.gap) {
        RestoreTokenFree(p.gap, m);
        assert !AllFree(ps[1..], tail);
        PiecesBreak(ps[1..], tail, m);
        SamePrefixDiffers(p.gap + p.value, rest, rest');
      } else {
        GapBreaks(p, m, Lookup(m, p.placeholder), rest, rest');
      }
    }
  }

  // ---------- the pieces of an anonymised text ----------

  function PieceAt(text: string, spans: seq<Span>): Piece
    requires spans != []
  {
    Piece(Gap(text, spans), LastPlaceholder(text, spans), Value(text, spans[|spans| - 1]))
  }

  function PiecesOf(text: string, spans: seq<Span>): (ps: seq<Piece>)
    ensures |ps| == |spans|
  {
    if spans == [] then [] else PiecesOf(text, spans[..|spans| - 1]) + [PieceAt(text, spans)]
  }

  lemma {:induction false} PiecesAt(text: string, spans: seq<Span>, k: nat)
    requires k < |spans|
    ensures PiecesOf(text, spans)[k] == PieceAt(text, spans[..k + 1])
    ensures IsToken(PiecesOf(text, spans)[k].placeholder)
    decreases |spans|
  {
    var n := |spans| - 1;
    if k < n {
      PiecesAt(text, spans[..n], k);
      assert spans[..n][..k + 1] == spans[..k + 1];
    } else {
      assert spans[..k + 1] == spans;
      IsPlaceholder(text, spans);
    }
  }

  lemma {:induction false} IsPlaceholder(text: string, spans: seq<Span>)
    requires spans != []
    ensures IsToken(LastPlaceholder(text, spans))
  {
    var s := spans[|spans| - 1];
    LastIsDistinct(text, spans);
    PlaceholderIsToken(s.kind, IndexOf(Distinct(text, spans, s.kind), Value(text, s)) + 1);
  }

  lemma {:induction false} JoinedAppend(ps: seq<Piece>, p: Piece, tail: string)
    ensures Joined(ps + [p], tail) == Joined(ps, p.gap + p.placeholder + tail)
    ensures Original(ps + [p], tail) == Original(ps, p.gap + p.value + tail)
  {
    if ps != [] {
      assert (ps + [p])[1..] == ps[1..] + [p];
      JoinedAppend(ps[1..], p, tail);
    } else {
      assert ([p])[1..] == [] && [] + [p] == [p];
    }
  }

  lemma {:induction false} Assoc3(a: string, b: string, c: string, d: string)
    ensures a + b + c + d == a + (b + c + d)
  {
  }

  lemma {:induction false} PiecesOfBody(text: string, spans: seq<Span>, tail: string)
    ensures Joined(PiecesOf(text, spans), tail) == Body(text, spans) + tail
  {
    if spans == [] {
      assert "" + tail == tail;
    } else {
      var before, p := spans[..|spans| - 1], PieceAt(text, spans);
      JoinedAppend(PiecesOf(text, before), p, tail);
      PiecesOfBody(text, before, p.gap + p.placeholder + tail);
      Assoc3(Body(text, before), p.gap, p.placeholder, tail);
    }
  }

  lemma {:induction false} SliceJoin(text: string, a: nat, b: nat, c: nat)
    requires a <= b <= c <= |text|
    ensures text[a..b] + text[b..c] + text[c..] == text[a..]
  {
  }

  lemma {:induction false} PiecesOfText(text: string, spans: seq<Span>)
    requires Regular(text, spans)
    ensures Original(PiecesOf(text, spans), Tail(text, spans)) == text
  {
    if spans == [] {
      assert text[0..] == text;
    } else {
      var n := |spans| - 1;
      var before, s, p := spans[..n], spans[n], PieceAt(text, spans);
      RegularPrefix(text, spans);
      PiecesOfText(text, before);
      JoinedAppend(PiecesOf(text, before), p, Tail(text, spans));
      SliceJoin(text, LastEnd(before), s.start, s.end);
      assert p.gap + p.value + Tail(text, spans) == Tail(text, before);
    }
  }

  // ---------- when the mapping gives every span its own value ----------

  // One list of values starts like the other.
  predicate SameStart(d: seq<string>, e: seq<string>) {
    forall n :: 0 <= n < |d| && n < |e| ==> d[n] == e[n]
  }

  // Entity types that share a placeholder name carry the same values in the same order.
  ghost predicate SharedNamesAgree(text: string, spans: seq<Span>) {
    forall kind, kind' :: Name(kind) == Name(kind') ==>
      SameStart(Distinct(text, spans, kind), Distinct(text, spans, kind'))
  }

  lemma {:induction false} DistinctGrows(text: string, spans: seq<Span>, k: nat, kind: string)
    requires k <= |spans|
    ensures Distinct(text, spans[..k], kind) <= Distinct(text, spans, kind)
    decreases |spans|
  {
    if k < |spans| {
      var n := |spans| - 1;
      assert spans[..n][..k] == spans[..k];
      DistinctGrows(text, spans[..n], k, kind);
    } else {
      assert spans[..k] == spans;
    }
  }

  // The n-th value of a type was new at some span, whose placeholder has number n + 1.
  // Span k - 1 is the first with the n-th value of its type, and has its placeholder.
  ghost predicate Appears(text: string, spans: seq<Span>, kind: string, n: nat, k: nat) {
    && n < |Distinct(text, spans, kind)|
    && 0 < k <= |spans| && IsNew(text, spans[..k]) && spans[k - 1].kind == kind
    && Value(text, spans[k - 1]) == Distinct(text, spans, kind)[n]
    && LastPlaceholder(text, spans[..k]) == Placeholder(kind, n + 1)
  }

  lemma {:induction false} FirstAppearance(text: string, spans: seq<Span>, kind: string, n: nat)
    requires n < |Distinct(text, spans, kind)|
    ensures exists k: nat :: Appears(text, spans, kind, n, k)
    decreases |spans|
  {
    var last := |spans| - 1;
    var d := Distinct(text, spans[..last], kind);
    if n < |d| {
      FirstAppearance(text, spans[..last], kind, n);
      var k: nat :| Appears(text, spans[..last], kind, n, k);
      assert spans[..last][..k] == spans[..k];
      assert Appears(text, spans, kind, n, k);
    } else {
      assert spans[..last + 1] == spans;
      NewAtEnd(text, spans, kind);
      assert Appears(text, spans, kind, n, last + 1);
    }
  }

  lemma {:induction false} NewAtEnd(text: string, spans: seq<Span>, kind: string)
    requires spans != [] && Distinct(text, spans, kind) != Distinct(text, spans[..|spans| - 1], kind)
    ensures IsNew(text, spans) && spans[|spans| - 1].kind == kind
    ensures var d := Distinct(text, spans[..|spans| - 1], kind);
            && Distinct(text, spans, kind) == d + [Value(text, spans[|spans| - 1])]
            && LastPlaceholder(text, spans) == Placeholder(kind, |d| + 1)
  {
    NewIsNumbered(text, spans);
  }

  // What the mapping holds: every placeholder that was made, with a value it was made for.
  lemma {:induction false} MappingComplete(text: string, spans: seq<Span>, kind: string, n: nat)
    requires n < |Distinct(text, spans, kind)|
    ensures Placeholder(kind, n + 1) in Mapping(text, spans)
  {
    var last := |spans| - 1;
    if n < |Distinct(text, spans[..last], kind)| {
      MappingComplete(text, spans[..last], kind, n);
    } else {
      NewIsNumbered(text, spans);
    }
  }

  lemma {:induction false} NewIsLast(text: string, spans: seq<Span>)
    requires spans != [] && IsNew(text, spans)
    ensures var s := spans[|spans| - 1];
            var n := |Distinct(text, spans[..|spans| - 1], s.kind)|;
            && n < |Distinct(text, spans, s.kind)| && Distinct(text, spans, s.kind)[n] == Value(text, s)
            && LastPlaceholder(text, spans) == Placeholder(s.kind, n + 1)
  {
    NewIsNumbered(text, spans);
  }

  ghost predicate Gives(text: string, spans: seq<Span>, p: string, kind: string, n: nat) {
    && n < |Distinct(text, spans, kind)| && p == Placeholder(kind, n + 1)
    && p in Mapping(text, spans) && Mapping(text, spans)[p] == Distinct(text, spans, kind)[n]
  }

  lemma {:induction false} MappingSound(text: string, spans: seq<Span>, p: string)
    requires p in Mapping(text, spans)
    ensures exists kind, n: nat :: Gives(text, spans, p, kind, n)
  {
    var last := |spans| - 1;
    if IsNew(text, spans) && p == LastPlaceholder(text, spans) {
      NewIsLast(text, spans);
      var kind := spans[last].kind;
      assert Gives(text, spans, p, kind, |Distinct(text, spans[..last], kind)|);
    } else {
      MappingSound(text, spans[..last], p);
      var kind, n: nat :| Gives(text, spans[..last], p, kind, n);
      DistinctGrows(text, spans, last, kind);
      assert Gives(text, spans, p, kind, n);
    }
  }

  // The number of a span's placeholder points at its value in the full list of values.
  lemma {:induction false} NumberOf(text: string, spans: seq<Span>, k: nat) returns (n: nat)
    requires 0 < k <= |spans|
    ensures n < |Distinct(text, spans, spans[k - 1].kind)|
    ensures Distinct(text, spans, spans[k - 1].kind)[n] == Value(text, spans[k - 1])
    ensures LastPlaceholder(text, spans[..k]) == Placeholder(spans[k - 1].kind, n + 1)
  {
    var s := spans[k - 1];
    assert spans[..k][k - 1] == s;
    LastIsDistinct(text, spans[..k]);
    n := IndexOf(Distinct(text, spans[..k], s.kind), Value(text, s));
    DistinctGrows(text, spans, k, s.kind);
  }

  // The mapping gives every span its own value back exactly when the entity types that share
  // a name agree.
  lemma {:induction false} OwnValuesIffNamesAgree(text: string, spans: seq<Span>)
    ensures EachOwn(PiecesOf(text, spans), Mapping(text, spans)) <==> SharedNamesAgree(text, spans)
  {
    if SharedNamesAgree(text, spans) {
      forall k | 0 <= k < |spans|
        ensures Lookup(Mapping(text, spans), PiecesOf(text, spans)[k].placeholder) == PiecesOf(text, spans)[k].value
      {
        AgreeingGivesOwn(text, spans, k);
      }
    }
    if EachOwn(PiecesOf(text, spans), Mapping(text, spans)) {
      forall kind, kind' | Name(kind) == Name(kind')
        ensures SameStart(Distinct(text, spans, kind), Distinct(text, spans, kind'))
      {
        OwnGivesAgreement(text, spans, kind, kind');
      }
    }
  }

  lemma {:induction false} AgreeingGivesOwn(text: string, spans: seq<Span>, k: nat)
    requires SharedNamesAgree(text, spans) && k < |spans|
    ensures var p := PiecesOf(text, spans)[k]; Lookup(Mapping(text, spans), p.placeholder) == p.value
  {
    PiecesAt(text, spans, k);
    var n := NumberOf(text, spans, k + 1);
    AgreeingLookup(text, spans, spans[k].kind, n);
  }

  lemma {:induction false} AgreeingLookup(text: string, spans: seq<Span>, kind: string, n: nat)
    requires SharedNamesAgree(text, spans) && n < |Distinct(text, spans, kind)|
    ensures Lookup(Mapping(text, spans), Placeholder(kind, n + 1)) == Distinct(text, spans, kind)[n]
  {
    MappingComplete(text, spans, kind, n);
    MappingSound(text, spans, Placeholder(kind, n + 1));
    var kind', n': nat :| Gives(text, spans, Placeholder(kind, n + 1), kind', n');
    PlaceholderInjective(kind, n + 1, kind', n' + 1);
    assert SameStart(Distinct(text, spans, kind), Distinct(text, spans, kind'));
  }

  lemma {:induction false} OwnGivesAgreement(text: string, spans: seq<Span>, kind: string, kind': string)
    requires EachOwn(PiecesOf(text, spans), Mapping(text, spans)) && Name(kind) == Name(kind')
    ensures SameStart(Distinct(text, spans, kind), Distinct(text, spans, kind'))
  {
    var d, e := Distinct(text, spans, kind), Distinct(text, spans, kind');
    forall n | 0 <= n < |d| && n < |e| ensures d[n] == e[n] {
      OwnGivesValue(text, spans, kind, n);
      OwnGivesValue(text, spans, kind', n);
    }
  }

  lemma {:induction false} OwnGivesValue(text: string, spans: seq<Span>, kind: string, n: nat)
    requires EachOwn(PiecesOf(text, spans), Mapping(text, spans)) && n < |Distinct(text, spans, kind)|
    ensures Lookup(Mapping(text, spans), Placeholder(kind, n + 1)) == Distinct(text, spans, kind)[n]
  {
    FirstAppearance(text, spans, kind, n);
    var k: nat :| Appears(text, spans, kind, n, k);
    PiecesAt(text, spans, k - 1);
  }

  // ---------- the round trip ----------

  // No token lies wholly in text that was not replaced.
  ghost predicate GapsTokenFree(text: string, spans: seq<Span>) {
    AllFree(PiecesOf(text, spans), Tail(text, spans))
  }

  lemma {:induction false} RestoreAnonymised(text: string, spans: seq<Span>, m: map<string, string>)
    ensures Restore(Anonymised(text, spans), m) == RestoredPieces(PiecesOf(text, spans), Tail(text, spans), m)
  {
    forall k | 0 <= k < |spans| ensures IsToken(PiecesOf(text, spans)[k].placeholder) {
      PiecesAt(text, spans, k);
    }
    PiecesOfBody(text, spans, Tail(text, spans));
    RestoreByPieces(PiecesOf(text, spans), Tail(text, spans), m);
  }

  // The overlap resolver delivers what the replacement needs, unless an empty candidate
  // stands at the start of a kept one; without empty candidates, always.
  lemma {:induction false} ResolvedIsRegular(text: string, rs: seq<Span>, idx: seq<nat>, r: seq<Span>)
    requires Resolved(rs, idx, r) && Forward(rs) && InBounds(text, rs)
    ensures Regular(text, r) <==> forall a, e :: a in idx && 0 <= e < |rs| ==> !EmptyAtStart(rs, a, e)
    ensures NonEmpty(rs) ==> Regular(text, r)
  {
    OrderedUnlessEmptyAtStart(rs, idx, r);
  }

  // Restoring undoes the replacement, if no token stood in the text that was kept and the
  // entity types that share a name agree.
  lemma {:induction false} RoundTrip(text: string, spans: seq<Span>)
    requires Regular(text, spans) && SharedNamesAgree(text, spans) && GapsTokenFree(text, spans)
    ensures Restore(Anonymised(text, spans), Mapping(text, spans)) == text
  {
    OwnValuesIffNamesAgree(text, spans);
    RestoreAnonymised(text, spans, Mapping(text, spans));
    PiecesComeBack(PiecesOf(text, spans), Tail(text, spans), Mapping(text, spans));
    PiecesOfText(text, spans);
  }

  ghost predicate ValuesStartPlain(text: string, spans: seq<Span>) {
    forall k :: 0 <= k < |spans| ==> Value(text, spans[k]) != "" && Value(text, spans[k])[0] != '<'
  }

  lemma {:induction false} MappingStartsPlain(text: string, spans: seq<Span>)
    requires ValuesStartPlain(text, spans)
    ensures StartsPlain(Mapping(text, spans))
  {
    if spans != [] {
      MappingStartsPlain(text, spans[..|spans| - 1]);
      var m, m' := Mapping(text, spans[..|spans| - 1]), Mapping(text, spans);
      forall token | IsToken(token) ensures Lookup(m', token) != "" && Lookup(m', token)[0] != '<' {
        assert Lookup(m, token) != "" && Lookup(m, token)[0] != '<';
      }
    }
  }

  // For values that do not begin with an angle bracket, and entity types that agree on
  // shared names, the round trip succeeds exactly on texts without a token in what is kept.
  lemma {:induction false} RoundTripIff(text: string, spans: seq<Span>)
    requires Regular(text, spans) && SharedNamesAgree(text, spans) && ValuesStartPlain(text, spans)
    ensures Restore(Anonymised(text, spans), Mapping(text, spans)) == text <==> GapsTokenFree(text, spans)
  {
    if GapsTokenFree(text, spans) {
      RoundTrip(text, spans);
    } else {
      OwnValuesIffNamesAgree(text, spans);
      MappingStartsPlain(text, spans);
      RestoreAnonymised(text, spans, Mapping(text, spans));
      PiecesBreak(PiecesOf(text, spans), Tail(text, spans), Mapping(text, spans));
      PiecesOfText(text, spans);
    }
  }

  // What is put back for each placeholder is as long as the value it stands for.
  ghost predicate SameLengths(ps: seq<Piece>, m: map<string, string>) {
    forall k :: 0 <= k < |ps| ==> |Lookup(m, ps[k].placeholder)| == |ps[k].value|
  }

  lemma {:induction false} SameLengthsComeBackIff(ps: seq<Piece>, tail: string, m: map<string, string>)
    requires AllFree(ps, tail) && SameLengths(ps, m)
    ensures RestoredPieces(ps, tail, m) == Original(ps, tail) <==> EachOwn(ps, m)
  {
    if EachOwn(ps, m) {
      PiecesComeBack(ps, tail, m);
    } else {
      var p, rest, rest' := ps[0], RestoredPieces(ps[1..], tail, m), Original(ps[1..], tail);
      RestoreTokenFree(p.gap, m);
      SameLengthsComeBackIff(ps[1..], tail, m);
      if Lookup(m, p.placeholder) == p.value {
        assert !EachOwn(ps[1..], m);
      }
      EqualInParts(p.gap, Lookup(m, p.placeholder), rest, p.value, rest');
    }
  }

  // With parts of one length, equal texts are equal part by part.
  lemma {:induction false} EqualInParts(gap: string, v: string, rest: string, v': string, rest': string)
    requires |v| == |v'|
    ensures gap + v + rest == gap + v' + rest' <==> v == v' && rest == rest'
  {
    var n := |gap| + |v|;
    assert (gap + v + rest)[|gap|..n] == v && (gap + v' + rest')[|gap|..n] == v';
    assert (gap + v + rest)[n..] == rest && (gap + v' + rest')[n..] == rest';
  }

  // For any number of spans: when the mapping holds values of the right lengths, as it does
  // when those that share a placeholder are equally long, the round trip succeeds exactly if
  // the entity types that share a name agree.
  lemma {:induction false} RoundTripIffNamesAgree(text: string, spans: seq<Span>)
    requires Regular(text, spans) && GapsTokenFree(text, spans)
    requires SameLengths(PiecesOf(text, spans), Mapping(text, spans))
    ensures Restore(Anonymised(text, spans), Mapping(text, spans)) == text <==> SharedNamesAgree(text, spans)
  {
    OwnValuesIffNamesAgree(text, spans);
    RestoreAnonymised(text, spans, Mapping(text, spans));
    SameLengthsComeBackIff(PiecesOf(text, spans), Tail(text, spans), Mapping(text, spans));
    PiecesOfText(text, spans);
  }

  // Two spans of different types that share a name: their values cannot differ and both
  // come back.  The one placeholder stands for both and restores to the second value.
  lemma {:induction false} SharedNameLosesValue(text: string, spans: seq<Span>)
    requires |spans| == 2 && Regular(text, spans) && GapsTokenFree(text, spans)
    requires spans[0].kind != spans[1].kind && Name(spans[0].kind) == Name(spans[1].kind)
    requires Value(text, spans[0]) != Value(text, spans[1])
    ensures Restore(Anonymised(text, spans), Mapping(text, spans))
            == text[..spans[0].start] + Value(text, spans[1]) + text[spans[0].end..]
    ensures Restore(Anonymised(text, spans), Mapping(text, spans)) != text
  {
    var a, b, m := spans[0], spans[1], Mapping(text, spans);
    assert a.end <= b.start;
    var ps, tail := PiecesOf(text, spans), Tail(text, spans);
    PiecesAt(text, spans, 0);
    PiecesAt(text, spans, 1);
    assert ps == [ps[0], ps[1]];
    PrefixStep(text, spans, 0);
    PrefixStep(text, spans, 1);
    TwoPlaceholders(text, spans);
    RestoreAnonymised(text, spans, m);
    RestoredTwice(ps[0], ps[1], tail, m);
    SliceJoin(text, a.end, b.start, b.end);
    SliceJoin(text, 0, a.start, a.end);
    MiddleDiffers(text[..a.start], Value(text, a), Value(text, b), text[a.end..]);
  }

  lemma {:induction false} TwoPlaceholders(text: string, spans: seq<Span>)
    requires |spans| == 2 && spans[0].kind != spans[1].kind && Name(spans[0].kind) == Name(spans[1].kind)
    ensures spans[..2] == spans
    ensures LastPlaceholder(text, spans[..1]) == LastPlaceholder(text, spans)
    ensures Lookup(Mapping(text, spans), LastPlaceholder(text, spans[..1])) == Value(text, spans[1])
  {
    assert spans[..1][..0] == [];
    NewIsNumbered(text, spans[..1]);
    NewIsNumbered(text, spans);
  }

  lemma {:induction false} RestoredTwice(p: Piece, q: Piece, tail: string, m: map<string, string>)
    requires TokenFree(p.gap) && TokenFree(q.gap) && TokenFree(tail)
    ensures RestoredPieces([p, q], tail, m)
            == p.gap + Lookup(m, p.placeholder) + (q.gap + Lookup(m, q.placeholder) + tail)
  {
    RestoreTokenFree(p.gap, m);
    RestoreTokenFree(q.gap, m);
    RestoreTokenFree(tail, m);
    assert [q][1..] == [] && [p, q][1..] == [q];
    assert RestoredPieces([q], tail, m) == q.gap + Lookup(m, q.placeholder) + RestoredPieces([], tail, m);
  }

  lemma {:induction false} MiddleDiffers(x: string, v: string, w: string, z: string)
    requires v != w
    ensures x + v + z != x + w + z
  {
    if |v| == |w| {
      assert (x + v + z)[|x|..|x| + |v|] == v && (x + w + z)[|x|..|x| + |v|] == w;
    }
  }
}
