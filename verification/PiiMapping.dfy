/**
 Replacing detected values by numbered placeholders, with the mapping that undoes it.
 */
module PiiMapping {
  import opened Basics
  import opened PiiTokens
  import opened PiiOverlap

  // ---------- placeholders ----------

  const REPLACEMENTS: seq<(string, string)> := [
    ("PERSON", "PERSOON"), ("EMAIL_ADDRESS", "E-MAILADRES"), ("PHONE_NUMBER", "TELEFOONNUMMER"),
    ("NL_PHONE", "TELEFOONNUMMER"), ("IBAN_CODE", "REKENINGNUMMER"), ("CREDIT_CARD", "CREDITCARDNUMMER"),
    ("IP_ADDRESS", "IP-ADRES"), ("NL_BSN", "BSN"), ("LOCATION", "LOCATIE")]

  function FindName(table: seq<(string, string)>, kind: string): (name: string)
    ensures (forall i :: 0 <= i < |table| ==> IsName(table[i].1)) ==> IsName(name)
  {
    if table == [] then "PERSOONSGEGEVEN"
    else if table[0].0 == kind then table[0].1
    else FindName(table[1..], kind)
  }

  // The name in the placeholder of an entity type.
  function Name(kind: string): (name: string)
    ensures IsName(name)
  {
    FirstNames();
    OtherNames();
    FindName(REPLACEMENTS, kind)
  }

  lemma {:induction false} FirstNames()
    ensures forall i :: 0 <= i < 4 ==> IsName(REPLACEMENTS[i].1)
  {
    assert IsName("PERSOON") && IsName("E-MAILADRES") && IsName("TELEFOONNUMMER");
  }

  lemma {:induction false} OtherNames()
    ensures forall i :: 4 <= i < 9 ==> IsName(REPLACEMENTS[i].1)
    ensures IsName("PERSOONSGEGEVEN")
  {
    assert IsName("REKENINGNUMMER") && IsName("CREDITCARDNUMMER") && IsName("IP-ADRES") && IsName("BSN")
           && IsName("LOCATIE");
  }

  // The placeholder of the n-th distinct value of an entity type.
  function Placeholder(kind: string, n: nat): string {
    if n == 1 then "<" + Name(kind) + ">" else "<" + Name(kind) + "_" + Decimal(n) + ">"
  }

  lemma {:induction false} PlaceholderIsToken(kind: string, n: nat)
    ensures IsToken(Placeholder(kind, n))
  {
    var name, p := Name(kind), Placeholder(kind, n);
    var body := p[1..|p| - 1];
    assert body[..|name|] == name;
    if n != 1 {
      assert body[|name|..] == "_" + Decimal(n);
    }
  }

  // Different numbers, and different names, give different placeholders.
  lemma {:induction false} PlaceholderInjective(kind: string, n: nat, kind': string, n': nat)
    requires Placeholder(kind, n) == Placeholder(kind', n')
    ensures Name(kind) == Name(kind') && n == n'
  {
    var p, a, b := Placeholder(kind, n), Name(kind), Name(kind');
    assert p[1..1 + |a|] == a && p[1..1 + |b|] == b;
    assert p[1 + |a|] == if n == 1 then '>' else '_';
    assert p[1 + |b|] == if n' == 1 then '>' else '_';
    NameEnds(p, a, b);
    NameEnds(p, b, a);
    if n != 1 {
      var k := |a| + 2;
      assert p[k..|p| - 1] == Decimal(n) && p[k..|p| - 1] == Decimal(n');
      DecimalInjective(n, n');
    }
  }

  lemma {:induction false} NameEnds(p: string, a: string, b: string)
    requires IsName(a) && IsName(b) && |a| + 1 < |p| && |b| + 1 < |p|
    requires p[1..1 + |a|] == a && p[1..1 + |b|] == b
    requires p[1 + |a|] == '>' || p[1 + |a|] == '_'
    ensures |b| <= |a|
  {
    var q := p[1..];
    assert q[..|b|] == b && q[|a|] == p[1 + |a|];
    assert forall i :: 0 <= i < |b| ==> q[i] == b[i];
  }

  // ---------- numbering ----------

  predicate InBounds(text: string, spans: seq<Span>) {
    forall k :: 0 <= k < |spans| ==> spans[k].end <= |text|
  }

  // Spans in text order, disjoint and inside the text, empty ones allowed.
  ghost predicate Regular(text: string, spans: seq<Span>) {
    Forward(spans) && SortedDisjoint(spans) && InBounds(text, spans)
  }

  lemma {:induction false} RegularPrefix(text: string, spans: seq<Span>)
    requires Regular(text, spans) && spans != []
    ensures Regular(text, spans[..|spans| - 1])
    ensures LastEnd(spans[..|spans| - 1]) <= spans[|spans| - 1].start <= spans[|spans| - 1].end <= |text|
  {
  }

  function LastEnd(spans: seq<Span>): nat {
    if spans == [] then 0 else spans[|spans| - 1].end
  }

  function Value(text: string, s: Span): string {
    if s.start <= s.end <= |text| then text[s.start..s.end] else ""
  }

  // The distinct values of one entity type, in order of first appearance.
  function Distinct(text: string, spans: seq<Span>, kind: string): seq<string> {
    if spans == [] then []
    else
      var n := |spans| - 1;
      var d, v := Distinct(text, spans[..n], kind), Value(text, spans[n]);
      if spans[n].kind == kind && v !in d then d + [v] else d
  }

  function IndexOf(d: seq<string>, v: string): (i: nat)
    requires v in d
    ensures i < |d| && d[i] == v && v !in d[..i]
  {
    if d[0] == v then 0
    else
      assert d == [d[0]] + d[1..];
      var i := IndexOf(d[1..], v);
      assert d[..i + 1] == [d[0]] + d[1..][..i];
      i + 1
  }

  lemma {:induction false} IndexOfUnique(d: seq<string>, v: string, i: nat)
    requires i < |d| && d[i] == v && v !in d[..i]
    ensures v in d && IndexOf(d, v) == i
  {
    NotInPrefix(d, i, v);
    NotInPrefix(d, IndexOf(d, v), v);
  }

  lemma {:induction false} NotInPrefix(d: seq<string>, i: nat, v: string)
    requires i <= |d| && v !in d[..i]
    ensures forall k :: 0 <= k < i ==> d[k] != v
  {
    assert forall k :: 0 <= k < i ==> d[..i][k] == d[k];
  }

  // The placeholder of the last of these spans.
  function LastPlaceholder(text: string, spans: seq<Span>): string
    requires spans != []
  {
    var s := spans[|spans| - 1];
    var d := Distinct(text, spans, s.kind);
    LastIsDistinct(text, spans);
    Placeholder(s.kind, IndexOf(d, Value(text, s)) + 1)
  }

  lemma {:induction false} LastIsDistinct(text: string, spans: seq<Span>)
    requires spans != []
    ensures Value(text, spans[|spans| - 1]) in Distinct(text, spans, spans[|spans| - 1].kind)
  {
    var n := |spans| - 1;
    var d := Distinct(text, spans[..n], spans[n].kind);
    assert (d + [Value(text, spans[n])])[|d|] == Value(text, spans[n]);
  }

  // ---------- the anonymised text and the mapping, span by span ----------

  function Gap(text: string, spans: seq<Span>): string
    requires spans != []
  {
    var a, b := LastEnd(spans[..|spans| - 1]), spans[|spans| - 1].start;
    if a <= b <= |text| then text[a..b] else ""
  }

  function Body(text: string, spans: seq<Span>): string {
    if spans == [] then ""
    else Body(text, spans[..|spans| - 1]) + Gap(text, spans) + LastPlaceholder(text, spans)
  }

  function Tail(text: string, spans: seq<Span>): string {
    if LastEnd(spans) <= |text| then text[LastEnd(spans)..] else ""
  }

  function Anonymised(text: string, spans: seq<Span>): string {
    Body(text, spans) + Tail(text, spans)
  }

  predicate IsNew(text: string, spans: seq<Span>)
    requires spans != []
  {
    var n := |spans| - 1;
    Value(text, spans[n]) !in Distinct(text, spans[..n], spans[n].kind)
  }

  // A placeholder made twice keeps the value it was made for last.
  function Mapping(text: string, spans: seq<Span>): map<string, string> {
    if spans == [] then map[]
    else
      var n := |spans| - 1;
      var m := Mapping(text, spans[..n]);
      if IsNew(text, spans) then m[LastPlaceholder(text, spans) := Value(text, spans[n])] else m
  }

  // ---------- the method ----------

  function CacheKey(kind: string, value: string): string {
    kind + "::" + value
  }

  // No entity type of the detector has a colon in its name.
  predicate PlainKind(kind: string) {
    forall i :: 0 <= i < |kind| ==> kind[i] != ':'
  }

  lemma {:induction false} CacheKeyInjective(kind: string, v: string, kind': string, v': string)
    requires PlainKind(kind) && PlainKind(kind') && CacheKey(kind, v) == CacheKey(kind', v')
    ensures kind == kind' && v == v'
  {
    var key := CacheKey(kind, v);
    assert key[|kind|] == ':' && key[|kind'|] == ':';
    assert forall i :: 0 <= i < |kind| ==> key[i] == kind[i] != ':';
    assert forall i :: 0 <= i < |kind'| ==> key[i] == kind'[i] != ':';
    assert key[..|kind|] == kind && key[..|kind'|] == kind';
    assert key[|kind| + 2..] == v && key[|kind'| + 2..] == v';
  }

  ghost predicate CacheOk(text: string, spans: seq<Span>, cache: map<string, string>) {
    forall kind, v :: PlainKind(kind) ==>
      var d := Distinct(text, spans, kind);
      && (CacheKey(kind, v) in cache <==> v in d)
      && (v in d ==> cache[CacheKey(kind, v)] == Placeholder(kind, IndexOf(d, v) + 1))
  }

  ghost predicate CountsOk(text: string, spans: seq<Span>, counts: map<string, nat>) {
    forall kind :: (if kind in counts then counts[kind] else 0) == |Distinct(text, spans, kind)|
  }

  method AnonymizeWithMapping(text: string, spans: seq<Span>)
    returns (anonymised: string, mapping: map<string, string>)
    requires Regular(text, spans) && forall k :: 0 <= k < |spans| ==> PlainKind(spans[k].kind)
    ensures anonymised == Anonymised(text, spans)
    ensures mapping == Mapping(text, spans)
  {
    var cache: map<string, string> := map[];
    var counts: map<string, nat> := map[];
    mapping := map[];
    var pieces := "";
    var lastEnd := 0;
    for k := 0 to |spans|
      invariant CacheOk(text, spans[..k], cache) && CountsOk(text, spans[..k], counts)
      invariant mapping == Mapping(text, spans[..k])
      invariant pieces == Body(text, spans[..k]) && lastEnd == LastEnd(spans[..k])
    {
      var r := spans[k];
      var value, placeholder := text[r.start..r.end], "";
      PrefixStep(text, spans, k);
      placeholder, cache, counts, mapping :=
        PlaceholderFor(text, spans[..k + 1], r, value, cache, counts, mapping);
      pieces := pieces + text[lastEnd..r.start] + placeholder;
      lastEnd := r.end;
    }
    assert spans[..|spans|] == spans;
    assert LastEnd(spans) <= |text|;
    anonymised := pieces + text[lastEnd..];
  }

  // The loop body up to the choice of the placeholder; upto are the spans so far, r the last.
  method PlaceholderFor(text: string, ghost upto: seq<Span>, r: Span, value: string,
                        cache: map<string, string>, counts: map<string, nat>, mapping: map<string, string>)
    returns (placeholder: string, cache': map<string, string>, counts': map<string, nat>,
             mapping': map<string, string>)
    requires upto != [] && upto[|upto| - 1] == r && value == Value(text, r) && PlainKind(r.kind)
    requires CacheOk(text, upto[..|upto| - 1], cache) && CountsOk(text, upto[..|upto| - 1], counts)
    requires mapping == Mapping(text, upto[..|upto| - 1])
    ensures placeholder == LastPlaceholder(text, upto)
    ensures CacheOk(text, upto, cache') && CountsOk(text, upto, counts') && mapping' == Mapping(text, upto)
  {
    var key := CacheKey(r.kind, value);
    cache', counts', mapping' := cache, counts, mapping;
    if key in cache {
      placeholder := cache[key];
      CacheHit(text, upto, cache);
    } else {
      var n := (if r.kind in counts then counts[r.kind] else 0) + 1;
      counts' := counts[r.kind := n];
      placeholder := Placeholder(r.kind, n);
      NewValue(text, upto, cache);
      CacheMiss(text, upto, cache);
      cache' := cache[key := placeholder];
      mapping' := mapping[placeholder := value];
    }
  }

  lemma {:induction false} PrefixStep(text: string, spans: seq<Span>, k: nat)
    requires Regular(text, spans) && k < |spans|
    ensures spans[..k + 1] != [] && spans[..k + 1][k] == spans[k] && spans[..k + 1][..k] == spans[..k]
    ensures LastEnd(spans[..k]) <= spans[k].start
    ensures Value(text, spans[k]) == text[spans[k].start..spans[k].end]
    ensures Gap(text, spans[..k + 1]) == text[LastEnd(spans[..k])..spans[k].start]
  {
    assert spans[..k + 1][..k] == spans[..k];
    assert k > 0 ==> spans[k - 1].end <= spans[k].start;
  }

  lemma {:induction false} CacheHit(text: string, spans: seq<Span>, cache: map<string, string>)
    requires spans != [] && PlainKind(spans[|spans| - 1].kind)
    requires CacheOk(text, spans[..|spans| - 1], cache)
    requires CacheKey(spans[|spans| - 1].kind, Value(text, spans[|spans| - 1])) in cache
    ensures !IsNew(text, spans) && CacheOk(text, spans, cache)
    ensures cache[CacheKey(spans[|spans| - 1].kind, Value(text, spans[|spans| - 1]))] == LastPlaceholder(text, spans)
    ensures forall kind :: Distinct(text, spans, kind) == Distinct(text, spans[..|spans| - 1], kind)
  {
  }

  lemma {:induction false} NewValue(text: string, spans: seq<Span>, cache: map<string, string>)
    requires spans != [] && PlainKind(spans[|spans| - 1].kind)
    requires CacheOk(text, spans[..|spans| - 1], cache)
    requires CacheKey(spans[|spans| - 1].kind, Value(text, spans[|spans| - 1])) !in cache
    ensures IsNew(text, spans)
    ensures NewNumber(text, spans)
  {
    NewIsNumbered(text, spans);
  }

  // A new value gets the next number of its type.
  ghost predicate NewNumber(text: string, spans: seq<Span>)
    requires spans != []
  {
    var s := spans[|spans| - 1];
    var d := Distinct(text, spans[..|spans| - 1], s.kind);
    && Distinct(text, spans, s.kind) == d + [Value(text, s)]
    && LastPlaceholder(text, spans) == Placeholder(s.kind, |d| + 1)
    && forall kind :: kind != s.kind ==>
         Distinct(text, spans, kind) == Distinct(text, spans[..|spans| - 1], kind)
  }

  lemma {:induction false} NewIsNumbered(text: string, spans: seq<Span>)
    requires spans != [] && IsNew(text, spans)
    ensures NewNumber(text, spans)
  {
    var s := spans[|spans| - 1];
    var value, d := Value(text, s), Distinct(text, spans[..|spans| - 1], s.kind);
    assert (d + [value])[..|d|] == d;
    IndexOfUnique(d + [value], value, |d|);
  }

  lemma {:induction false} CacheMiss(text: string, spans: seq<Span>, cache: map<string, string>)
    requires spans != [] && PlainKind(spans[|spans| - 1].kind)
    requires CacheOk(text, spans[..|spans| - 1], cache)
    requires IsNew(text, spans) && NewNumber(text, spans)
    ensures var s := spans[|spans| - 1];
            CacheOk(text, spans, cache[CacheKey(s.kind, Value(text, s)) := LastPlaceholder(text, spans)])
  {
    var s := spans[|spans| - 1];
    var value, p := Value(text, s), LastPlaceholder(text, spans);
    var after := cache[CacheKey(s.kind, value) := p];
    forall kind, v | PlainKind(kind)
      ensures CacheKey(kind, v) in after <==> v in Distinct(text, spans, kind)
      ensures v in Distinct(text, spans, kind) ==>
                after[CacheKey(kind, v)] == Placeholder(kind, IndexOf(Distinct(text, spans, kind), v) + 1)
    {
      CacheMissAt(text, spans, cache, kind, v);
    }
  }

  lemma {:induction false} CacheMissAt(text: string, spans: seq<Span>, cache: map<string, string>, kind: string,
                                       v: string)
    requires spans != [] && PlainKind(spans[|spans| - 1].kind) && PlainKind(kind)
    requires CacheOk(text, spans[..|spans| - 1], cache)
    requires IsNew(text, spans) && NewNumber(text, spans)
    ensures var s := spans[|spans| - 1];
            var after := cache[CacheKey(s.kind, Value(text, s)) := LastPlaceholder(text, spans)];
            && (CacheKey(kind, v) in after <==> v in Distinct(text, spans, kind))
            && (v in Distinct(text, spans, kind) ==>
                  after[CacheKey(kind, v)] == Placeholder(kind, IndexOf(Distinct(text, spans, kind), v) + 1))
  {
    var s := spans[|spans| - 1];
    if CacheKey(kind, v) == CacheKey(s.kind, Value(text, s)) {
      CacheKeyInjective(kind, v, s.kind, Value(text, s));
      LastIsDistinct(text, spans);
    } else {
      OldNumber(text, spans, kind, v);
    }
  }

  // Numbers once given do not change.
  lemma {:induction false} OldNumber(text: string, spans: seq<Span>, kind: string, v: string)
    requires spans != [] && (kind != spans[|spans| - 1].kind || v != Value(text, spans[|spans| - 1]))
    ensures var d, e := Distinct(text, spans[..|spans| - 1], kind), Distinct(text, spans, kind);
            (v in d <==> v in e) && (v in d ==> IndexOf(e, v) == IndexOf(d, v))
  {
    var d, e := Distinct(text, spans[..|spans| - 1], kind), Distinct(text, spans, kind);
    if v in d {
      var i := IndexOf(d, v);
      assert e[..i] == d[..i];
      IndexOfUnique(e, v, i);
    }
  }

  // ---------- the names ----------

  lemma {:induction false} FindNameFinds(table: seq<(string, string)>, kind: string, i: nat)
    requires i <= |table| && (forall j :: 0 <= j < i ==> table[j].0 != kind) && (i < |table| ==> table[i].0 == kind)
    ensures FindName(table, kind) == if i < |table| then table[i].1 else "PERSOONSGEGEVEN"
  {
    if i > 0 {
      FindNameFinds(table[1..], kind, i - 1);
    }
  }

  // The name each entity type is given; two types of telephone number share one.
  lemma {:induction false} NamesAre(kind: string)
    ensures Name(kind) ==
      if kind == "PERSON" then "PERSOON"
      else if kind == "EMAIL_ADDRESS" then "E-MAILADRES"
      else if kind == "PHONE_NUMBER" then "TELEFOONNUMMER"
      else if kind == "NL_PHONE" then "TELEFOONNUMMER"
      else if kind == "IBAN_CODE" then "REKENINGNUMMER"
      else if kind == "CREDIT_CARD" then "CREDITCARDNUMMER"
      else if kind == "IP_ADDRESS" then "IP-ADRES"
      else if kind == "NL_BSN" then "BSN"
      else if kind == "LOCATION" then "LOCATIE"
      else "PERSOONSGEGEVEN"
  {
    var i := if kind == "PERSON" then 0
             else if kind == "EMAIL_ADDRESS" then 1
             else if kind == "PHONE_NUMBER" then 2
             else if kind == "NL_PHONE" then 3
             else if kind == "IBAN_CODE" then 4
             else if kind == "CREDIT_CARD" then 5
             else if kind == "IP_ADDRESS" then 6
             else if kind == "NL_BSN" then 7
             else if kind == "LOCATION" then 8
             else 9;
    FindNameFinds(REPLACEMENTS, kind, i);
  }
}
