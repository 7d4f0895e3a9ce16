/**
 Placeholder tokens in a text, and putting values back for them in one pass.

 A token is "<", a name of capital letters and hyphens that starts with a letter,
 optionally "_" and digits, and ">".
 */
module PiiTokens {
  import opened Basics

  const FILLER := "[omitted]"

  // The digits outside ASCII that the pattern's digit class also matches; which ones these
  // are depends on the Unicode version, and nothing below depends on it.
  const WIDE_DIGITS: set<char>

  predicate IsDigit(c: char) {
    '0' <= c <= '9' || (c > '\U{007F}' && c in WIDE_DIGITS)
  }

  predicate IsUpper(c: char) {
    'A' <= c <= 'Z'
  }

  // A name: a capital letter, then capital letters and hyphens.
  predicate IsName(s: string) {
    && s != "" && IsUpper(s[0])
    && forall i :: 0 <= i < |s| ==> IsUpper(s[i]) || s[i] == '-'
  }

  predicate IsCounter(s: string) {
    && |s| >= 2 && s[0] == '_'
    && forall i :: 1 <= i < |s| ==> IsDigit(s[i])
  }

  // What stands between the angle brackets.
  predicate IsBody(s: string) {
    exists n :: 0 <= n <= |s| && IsName(s[..n]) && (n == |s| || IsCounter(s[n..]))
  }

  predicate IsToken(s: string) {
    && |s| >= 2 && s[0] == '<' && s[|s| - 1] == '>'
    && IsBody(s[1..|s| - 1])
  }

  predicate HasAngle(s: string) {
    '<' in s || '>' in s
  }

  lemma {:induction false} BodyHasNoAngle(s: string)
    requires IsBody(s)
    ensures !HasAngle(s)
  {
    var n :| 0 <= n <= |s| && IsName(s[..n]) && (n == |s| || IsCounter(s[n..]));
    forall i | 0 <= i < |s| ensures s[i] != '<' && s[i] != '>' {
      if i < n {
        assert s[i] == s[..n][i];
      } else {
        assert s[i] == s[n..][i - n];
      }
    }
  }

  // Inside a token there is no angle bracket, so tokens cannot overlap or nest.
  lemma {:induction false} TokenAngles(s: string, i: nat)
    requires IsToken(s) && 0 < i < |s| - 1
    ensures s[i] != '<' && s[i] != '>'
  {
    BodyHasNoAngle(s[1..|s| - 1]);
    assert s[i] == s[1..|s| - 1][i - 1];
  }

  // ---------- scanning ----------

  // Length of the token at the start of t, or 0: the only candidate ends at the first ">".
  function TokenLength(t: string): (n: nat)
    ensures n <= |t|
    ensures n > 0 ==> IsToken(t[..n])
  {
    var n := FirstClose(t);
    if n > 0 && IsToken(t[..n]) then n else 0
  }

  // Position after the first ">", or 0.
  function FirstClose(t: string): (n: nat)
    ensures n <= |t|
    ensures n > 0 ==> t[n - 1] == '>' && forall i :: 0 <= i < n - 1 ==> t[i] != '>'
    ensures n == 0 ==> '>' !in t
  {
    if t == "" then 0
    else if t[0] == '>' then 1
    else
      var n := FirstClose(t[1..]);
      if n == 0 then 0 else n + 1
  }

  // The match at the start of a text is unique, so the pattern leaves the engine no choice.
  lemma {:induction false} TokenLengthUnique(t: string, n: nat)
    requires n <= |t| && IsToken(t[..n])
    ensures TokenLength(t) == n
  {
    assert t[n - 1] == t[..n][n - 1] == '>';
    var k := FirstClose(t);
    if k < n {
      TokenAngles(t[..n], k - 1);
    }
  }

  // ---------- restoring ----------

  function Lookup(m: map<string, string>, token: string): string {
    if token in m then m[token] else FILLER
  }

  function Restore(t: string, m: map<string, string>): string {
    if t == "" then ""
    else
      var n := TokenLength(t);
      if n > 0 then Lookup(m, t[..n]) + Restore(t[n..], m)
      else [t[0]] + Restore(t[1..], m)
  }

  // A token stands somewhere in t.
  ghost predicate TokenAt(t: string, i: int, j: int) {
    0 <= i <= j <= |t| && IsToken(t[i..j])
  }

  ghost predicate TokenFree(t: string) {
    forall i, j :: !TokenAt(t, i, j)
  }

  lemma {:induction false} TokenFreeTail(t: string, k: nat)
    requires TokenFree(t) && k <= |t|
    ensures TokenFree(t[k..])
  {
    forall i, j ensures !TokenAt(t[k..], i, j) {
      if TokenAt(t[k..], i, j) {
        TokenMoves(t[k..], i, j, t, k);
      }
    }
  }

  lemma {:induction false} TokenEnds(t: string, i: int, j: int)
    requires TokenAt(t, i, j)
    ensures i + 2 <= j && t[i] == '<' && t[j - 1] == '>'
  {
    assert t[i] == t[i..j][0] && t[j - 1] == t[i..j][j - i - 1];
  }

  // A token of t is one of u when that stretch of t is a stretch of u.
  lemma {:induction false} TokenMoves(t: string, i: int, j: int, u: string, k: int)
    requires TokenAt(t, i, j) && 0 <= i + k && j + k <= |u|
    requires forall p :: i <= p < j ==> t[p] == u[p + k]
    ensures TokenAt(u, i + k, j + k)
  {
    assert t[i..j] == u[i + k..j + k];
  }

  // Text without tokens comes through unchanged.
  lemma {:induction false} RestoreTokenFree(t: string, m: map<string, string>)
    requires TokenFree(t)
    ensures Restore(t, m) == t
  {
    if t != "" {
      NoTokenHere(t);
      TokenFreeTail(t, 1);
      RestoreTokenFree(t[1..], m);
      assert t == [t[0]] + t[1..];
    }
  }

  lemma {:induction false} NoTokenHere(t: string)
    requires TokenFree(t)
    ensures TokenLength(t) == 0
  {
    var n := TokenLength(t);
    assert t[0..n] == t[..n];
    assert n > 0 ==> TokenAt(t, 0, n);
  }

  // What precedes a token does not change whether a token starts earlier.
  lemma {:induction false} TokenLengthBefore(a: string, token: string, b: string)
    requires IsToken(token) && a != ""
    ensures TokenLength(a + token + b) == TokenLength(a)
  {
    var t := a + token + b;
    var n, k := TokenLength(t), TokenLength(a);
    if k > 0 {
      assert t[..k] == a[..k];
      TokenLengthUnique(t, k);
    } else if n > |a| {
      assert t[..n][|a|] == t[|a|] == token[0] == '<';
      assert t[..n][n - 1] == '>';
      TokenAngles(t[..n], |a|);
      assert false;
    } else if n > 0 {
      assert t[..n] == a[..n];
      TokenLengthUnique(a, n);
    }
  }

  lemma {:induction false} Assoc(h: string, x: string, y: string, z: string)
    ensures h + (x + y + z) == (h + x) + y + z
  {
  }

  lemma {:induction false} DropInside(a: string, y: string, z: string, k: nat)
    requires k <= |a|
    ensures (a + y + z)[k..] == a[k..] + y + z
    ensures (a + y + z)[..k] == a[..k]
  {
  }

  lemma {:induction false} RestoreHead(token: string, b: string, m: map<string, string>)
    requires IsToken(token)
    ensures Restore("" + token + b, m) == Restore("", m) + Lookup(m, token) + Restore(b, m)
  {
    assert "" + token + b == token + b;
    assert Restore("", m) + Lookup(m, token) == Lookup(m, token);
    assert (token + b)[..|token|] == token && (token + b)[|token|..] == b;
    TokenLengthUnique(token + b, |token|);
  }

  // A token stands for itself wherever it stands: what precedes and follows it is restored
  // on its own.  With RestoreTokenFree this fixes the result for every text.
  lemma {:induction false} RestoreSplit(a: string, token: string, b: string, m: map<string, string>)
    requires IsToken(token)
    ensures Restore(a + token + b, m) == Restore(a, m) + Lookup(m, token) + Restore(b, m)
  {
    var t := a + token + b;
    if a == "" {
      RestoreHead(token, b, m);
    } else {
      TokenLengthBefore(a, token, b);
      var n := TokenLength(a);
      var k := if n > 0 then n else 1;
      var head := if n > 0 then Lookup(m, a[..n]) else [a[0]];
      DropInside(a, token, b, k);
      RestoreSplit(a[k..], token, b, m);
      Assoc(head, Restore(a[k..], m), Lookup(m, token), Restore(b, m));
      assert t[0] == a[0];
      assert Restore(t, m) == head + Restore(t[k..], m);
    }
  }

  // Every text that is not free of tokens has a first one, with token-free text before it.
  ghost predicate StartsAt(t: string, a: string, token: string, b: string) {
    t == a + token + b && |b| < |t| && TokenFree(a) && IsToken(token)
  }

  lemma {:induction false} FirstToken(t: string)
    requires !TokenFree(t)
    ensures exists a, token, b :: StartsAt(t, a, token, b)
  {
    var n := TokenLength(t);
    if n > 0 {
      assert StartsAt(t, "", t[..n], t[n..]);
    } else {
      var i, j :| TokenAt(t, i, j);
      NoTokenAtStart(t, j);
      TokenMoves(t, i, j, t[1..], -1);
      FirstToken(t[1..]);
      var a, token, b :| StartsAt(t[1..], a, token, b);
      StartsLater(t, a, token, b);
    }
  }

  lemma {:induction false} StartsLater(t: string, a: string, token: string, b: string)
    requires t != "" && TokenLength(t) == 0 && StartsAt(t[1..], a, token, b)
    ensures StartsAt(t, [t[0]] + a, token, b)
  {
    assert t == [t[0]] + t[1..];
    Assoc([t[0]], a, token, b);
    TokenFreeLonger(t, a);
  }

  lemma {:induction false} TokenFreeLonger(t: string, a: string)
    requires t != "" && TokenLength(t) == 0 && [t[0]] + a <= t && TokenFree(a)
    ensures TokenFree([t[0]] + a)
  {
    forall i, j ensures !TokenAt([t[0]] + a, i, j) {
      if TokenAt([t[0]] + a, i, j) {
        TokenInPrefix([t[0]] + a, t, i, j);
        NoTokenAtStart(t, j);
        TokenInTail(t[0], a, i, j);
      }
    }
  }

  lemma {:induction false} TokenInPrefix(u: string, t: string, i: int, j: int)
    requires u <= t && TokenAt(u, i, j)
    ensures TokenAt(t, i, j)
  {
    TokenMoves(u, i, j, t, 0);
  }

  lemma {:induction false} TokenInTail(c: char, a: string, i: int, j: int)
    requires TokenAt([c] + a, i, j) && i > 0
    ensures TokenAt(a, i - 1, j - 1)
  {
    TokenMoves([c] + a, i, j, a, -1);
  }

  lemma {:induction false} NoTokenAtStart(t: string, j: int)
    requires TokenLength(t) == 0
    ensures !TokenAt(t, 0, j)
  {
    if TokenAt(t, 0, j) {
      assert t[0..j] == t[..j];
      TokenLengthUnique(t, j);
    }
  }

  // ---------- when the result holds no token ----------

  predicate InAlphabet(c: char) {
    IsUpper(c) || IsDigit(c) || c == '-' || c == '_' || c == '<' || c == '>'
  }

  // A value that can neither be part of a token nor hold one.
  predicate Inert(v: string) {
    !HasAngle(v) && exists i :: 0 <= i < |v| && !InAlphabet(v[i])
  }

  lemma {:induction false} TokenInAlphabet(s: string, i: nat)
    requires IsToken(s) && i < |s|
    ensures InAlphabet(s[i])
  {
    if 0 < i < |s| - 1 {
      var b := s[1..|s| - 1];
      assert b[i - 1] == s[i];
      BodyInAlphabet(b, i - 1);
    }
  }

  lemma {:induction false} BodyInAlphabet(b: string, i: nat)
    requires IsBody(b) && i < |b|
    ensures InAlphabet(b[i])
  {
    var n :| 0 <= n <= |b| && IsName(b[..n]) && (n == |b| || IsCounter(b[n..]));
    if i < n {
      assert b[..n][i] == b[i];
    } else {
      assert b[n..][i - n] == b[i];
    }
  }

  // An inert value keeps the texts on its two sides apart.
  lemma {:induction false} InertSeparates(a: string, v: string, b: string)
    requires TokenFree(a) && TokenFree(b) && Inert(v)
    ensures TokenFree(a + v + b)
  {
    var t := a + v + b;
    var k :| 0 <= k < |v| && !InAlphabet(v[k]);
    var p := |a| + k;
    forall i, j ensures !TokenAt(t, i, j) {
      if TokenAt(t, i, j) {
        TokenEnds(t, i, j);
        if j <= p {
          TokenMoves(t, i, j, a, 0);
        } else if p < i {
          TokenMoves(t, i, j, b, -(|a| + |v|));
        } else {
          TokenInAlphabet(t[i..j], p - i);
        }
      }
    }
  }

  lemma {:induction false} FillerIsInert()
    ensures Inert(FILLER)
  {
    assert FILLER[0] == '[' && !InAlphabet(FILLER[0]);
  }

  ghost predicate ValuesInert(m: map<string, string>) {
    forall token :: token in m ==> Inert(m[token])
  }

  lemma {:induction false} RestoreAround(a: string, token: string, b: string, m: map<string, string>)
    requires TokenFree(a) && IsToken(token) && ValuesInert(m) && TokenFree(Restore(b, m))
    ensures TokenFree(Restore(a + token + b, m))
  {
    RestoreSplit(a, token, b, m);
    RestoreTokenFree(a, m);
    FillerIsInert();
    InertSeparates(a, Lookup(m, token), Restore(b, m));
  }

  // No token is left when every value is inert; the filler is.
  lemma {:induction false} RestoreLeavesNoToken(t: string, m: map<string, string>)
    requires ValuesInert(m)
    ensures TokenFree(Restore(t, m))
    decreases |t|
  {
    if TokenFree(t) {
      RestoreTokenFree(t, m);
    } else {
      FirstToken(t);
      var a, token, b :| StartsAt(t, a, token, b);
      RestoreLeavesNoToken(b, m);
      RestoreAround(a, token, b, m);
    }
  }

  // With nothing to put back, a second pass of any kind changes nothing.
  lemma {:induction false} RestoreTwice(t: string, m: map<string, string>)
    ensures Restore(Restore(t, map[]), m) == Restore(t, map[])
  {
    RestoreLeavesNoToken(t, map[]);
    RestoreTokenFree(Restore(t, map[]), m);
  }

  // ---------- exactly which values leave no token ----------

  // A value that no texts without tokens around it can complete to a token.
  ghost predicate Harmless(v: string) {
    forall a, b :: TokenFree(a) && TokenFree(b) ==> TokenFree(a + v + b)
  }

  ghost predicate ValuesHarmless(m: map<string, string>) {
    forall token :: token in m && IsToken(token) ==> Harmless(m[token])
  }

  ghost predicate RestoresClean(m: map<string, string>) {
    forall t :: TokenFree(Restore(t, m))
  }

  // Restoring leaves no token in any text exactly when every value a token is mapped to is
  // harmless.
  lemma {:induction false} RestoresCleanIff(m: map<string, string>)
    ensures RestoresClean(m) <==> ValuesHarmless(m)
  {
    if ValuesHarmless(m) {
      forall t ensures TokenFree(Restore(t, m)) {
        HarmlessLeaveNoToken(t, m);
      }
    }
    if RestoresClean(m) {
      forall token | token in m && IsToken(token) ensures Harmless(m[token]) {
        CleanMeansHarmless(token, m);
      }
    }
  }

  lemma {:induction false} CleanMeansHarmless(token: string, m: map<string, string>)
    requires token in m && IsToken(token) && RestoresClean(m)
    ensures Harmless(m[token])
  {
    forall a, b | TokenFree(a) && TokenFree(b) ensures TokenFree(a + m[token] + b) {
      RestoreSplit(a, token, b, m);
      RestoreTokenFree(a, m);
      RestoreTokenFree(b, m);
      assert TokenFree(Restore(a + token + b, m));
    }
  }

  lemma {:induction false} HarmlessLeaveNoToken(t: string, m: map<string, string>)
    requires ValuesHarmless(m)
    ensures TokenFree(Restore(t, m))
    decreases |t|
  {
    if TokenFree(t) {
      RestoreTokenFree(t, m);
    } else {
      FirstToken(t);
      var a, token, b :| StartsAt(t, a, token, b);
      HarmlessLeaveNoToken(b, m);
      RestoreSplit(a, token, b, m);
      RestoreTokenFree(a, m);
      LookupSeparates(a, token, Restore(b, m), m);
    }
  }

  lemma {:induction false} LookupSeparates(a: string, token: string, b: string, m: map<string, string>)
    requires ValuesHarmless(m) && IsToken(token) && TokenFree(a) && TokenFree(b)
    ensures TokenFree(a + Lookup(m, token) + b)
  {
    if token in m {
      assert Harmless(m[token]);
    } else {
      FillerIsInert();
      InertSeparates(a, FILLER, b);
    }
  }

  predicate Letters(s: string) {
    forall i :: 0 <= i < |s| ==> IsUpper(s[i]) || s[i] == '-'
  }

  predicate Digits(s: string) {
    forall i :: 0 <= i < |s| ==> IsDigit(s[i])
  }

  // Letters and hyphens, then possibly "_" and digits, none of which need be there yet.
  predicate LettersThenDigits(s: string) {
    Letters(s) || exists n :: 0 <= n < |s| && Letters(s[..n]) && s[n] == '_' && Digits(s[n + 1..])
  }

  // The beginning of what stands between angle brackets, the end of it, a stretch of it.
  predicate BeginsBody(s: string) {
    s == "" || (IsUpper(s[0]) && LettersThenDigits(s))
  }

  predicate EndsBody(s: string) {
    Digits(s) || (LettersThenDigits(s) && s[|s| - 1] != '_')
  }

  predicate InsideBody(s: string) {
    Digits(s) || LettersThenDigits(s)
  }

  // Can be read off the value: no token in it, no "<" after which a token begins that could
  // be completed, no ">" before which one ends, and not itself a stretch inside a token.
  ghost predicate Apart(v: string) {
    && TokenFree(v)
    && (forall k :: 0 <= k < |v| && v[k] == '<' ==> !BeginsBody(v[k + 1..]))
    && (forall k :: 0 <= k < |v| && v[k] == '>' ==> !EndsBody(v[..k]))
    && !InsideBody(v)
  }

  // The first n characters are the name, the others the number with its underscore.
  predicate HasShape(s: string, n: nat) {
    && 0 < n <= |s| && IsUpper(s[0])
    && (forall i :: 0 <= i < n ==> IsUpper(s[i]) || s[i] == '-')
    && (n < |s| ==> s[n] == '_' && n + 1 < |s| && forall i :: n < i < |s| ==> IsDigit(s[i]))
  }

  lemma {:induction false} BodyShape(s: string)
    requires IsBody(s)
    ensures exists n: nat :: HasShape(s, n)
  {
    var n :| 0 <= n <= |s| && IsName(s[..n]) && (n == |s| || IsCounter(s[n..]));
    forall i | 0 <= i < n ensures IsUpper(s[i]) || s[i] == '-' {
      assert s[i] == s[..n][i];
    }
    forall i | n <= i < |s| ensures if i == n then s[i] == '_' else IsDigit(s[i]) {
      assert s[i] == s[n..][i - n];
    }
    assert s[0] == s[..n][0];
    assert HasShape(s, n);
  }

  lemma {:induction false} CounterAt(s: string, n: nat)
    requires n < |s| && s[n] == '_'
    requires forall i :: 0 <= i < n ==> IsUpper(s[i]) || s[i] == '-'
    requires forall i :: n < i < |s| ==> IsDigit(s[i])
    ensures LettersThenDigits(s)
  {
    assert Letters(s[..n]) && Digits(s[n + 1..]);
  }

  lemma {:induction false} BodyBeginning(s: string, k: nat)
    requires IsBody(s) && k <= |s|
    ensures BeginsBody(s[..k])
  {
    BodyShape(s);
    var n: nat :| HasShape(s, n);
    if k <= n {
      assert Letters(s[..k]);
    } else {
      CounterAt(s[..k], n);
    }
  }

  lemma {:induction false} BodyEnding(s: string, k: nat)
    requires IsBody(s) && k <= |s|
    ensures EndsBody(s[k..])
  {
    BodyShape(s);
    var n: nat :| HasShape(s, n);
    if n < k || k == |s| {
      assert Digits(s[k..]);
    } else if n == |s| {
      assert Letters(s[k..]);
    } else {
      CounterAt(s[k..], n - k);
      assert s[k..][|s| - k - 1] == s[|s| - 1];
    }
  }

  lemma {:induction false} BodyStretch(s: string, i: nat, j: nat)
    requires IsBody(s) && i <= j <= |s|
    ensures InsideBody(s[i..j])
  {
    BodyShape(s);
    var n: nat :| HasShape(s, n);
    if j <= n {
      assert Letters(s[i..j]);
    } else if n < i {
      assert Digits(s[i..j]);
    } else {
      CounterAt(s[i..j], n - i);
    }
  }

  // Whatever stands on its own keeps texts without tokens apart.
  lemma {:induction false} ApartIsHarmless(v: string)
    requires Apart(v)
    ensures Harmless(v)
  {
    forall a, b | TokenFree(a) && TokenFree(b) ensures TokenFree(a + v + b) {
      forall i, j ensures !TokenAt(a + v + b, i, j) {
        if TokenAt(a + v + b, i, j) {
          TokenShows(a, v, b, i, j);
        }
      }
    }
  }

  // A token between texts without one shows on the value.
  lemma {:induction false} TokenShows(a: string, v: string, b: string, i: int, j: int)
    requires TokenFree(a) && TokenFree(b) && TokenAt(a + v + b, i, j)
    ensures !Apart(v)
  {
    var t := a + v + b;
    var p, q := |a|, |a| + |v|;
    TokenEnds(t, i, j);
    if j <= p {
      TokenMoves(t, i, j, a, 0);
    } else if q <= i {
      TokenMoves(t, i, j, b, -q);
    } else if p <= i && j <= q {
      TokenMoves(t, i, j, v, -p);
    } else {
      assert t[p..q] == v;
      TokenReachesOver(t, p, q, i, j);
    }
  }

  // A token that reaches over an end of the stretch from p to q.
  lemma {:induction false} TokenReachesOver(t: string, p: int, q: int, i: int, j: int)
    requires 0 <= p <= q <= |t| && TokenAt(t, i, j) && i < q && p < j && (i < p || q < j)
    ensures !Apart(t[p..q])
  {
    var v := t[p..q];
    BodyAt(t, i, j);
    if p <= i {
      BodyBegins(t, i, j, q);
      Stretch(t, p, q, i + 1, q);
      assert v[i + 1 - p..q - p] == v[i - p + 1..] && v[i - p] == '<';
    } else if j <= q {
      BodyEnds(t, i, j, p);
      Stretch(t, p, q, p, j - 1);
      assert v[..j - 1 - p] == v[0..j - 1 - p] && v[j - 1 - p] == '>';
    } else {
      BodyInside(t, i, j, p, q);
    }
  }

  lemma {:induction false} Stretch(t: string, i: int, j: int, k: int, l: int)
    requires 0 <= i <= k <= l <= j <= |t|
    ensures t[i..j][k - i..l - i] == t[k..l]
  {
    assert forall n :: 0 <= n < l - k ==> t[i..j][k - i..l - i][n] == t[k..l][n];
  }

  // The text between the brackets of a token of t.
  lemma {:induction false} BodyAt(t: string, i: int, j: int)
    requires TokenAt(t, i, j)
    ensures i + 2 <= j && t[i] == '<' && t[j - 1] == '>' && IsBody(t[i + 1..j - 1])
  {
    TokenEnds(t, i, j);
    Stretch(t, i, j, i + 1, j - 1);
  }

  // Its beginnings, its ends and its stretches.
  lemma {:induction false} BodyBegins(t: string, i: int, j: int, l: int)
    requires TokenAt(t, i, j) && i + 1 <= l <= j - 1
    ensures BeginsBody(t[i + 1..l])
  {
    BodyAt(t, i, j);
    Stretch(t, i + 1, j - 1, i + 1, l);
    BodyBeginning(t[i + 1..j - 1], l - i - 1);
    assert t[i + 1..j - 1][..l - i - 1] == t[i + 1..j - 1][0..l - i - 1];
  }

  lemma {:induction false} BodyEnds(t: string, i: int, j: int, k: int)
    requires TokenAt(t, i, j) && i + 1 <= k <= j - 1
    ensures EndsBody(t[k..j - 1])
  {
    BodyAt(t, i, j);
    EndIs(t, i + 1, j - 1, k);
    BodyEndingIn(t[i + 1..j - 1], k - i - 1, t[k..j - 1]);
  }

  lemma {:induction false} BodyEndingIn(s: string, k: nat, end: string)
    requires IsBody(s) && k <= |s| && end == s[k..]
    ensures EndsBody(end)
  {
    BodyEnding(s, k);
  }

  lemma {:induction false} EndIs(t: string, i: int, j: int, k: int)
    requires 0 <= i <= k <= j <= |t|
    ensures t[i..j][k - i..] == t[k..j]
  {
    Stretch(t, i, j, k, j);
  }

  lemma {:induction false} BodyInside(t: string, i: int, j: int, k: int, l: int)
    requires TokenAt(t, i, j) && i + 1 <= k <= l <= j - 1
    ensures InsideBody(t[k..l])
  {
    BodyAt(t, i, j);
    Stretch(t, i + 1, j - 1, k, l);
    BodyStretch(t[i + 1..j - 1], k - i - 1, l - i - 1);
  }

  // ---------- and no others ----------

  lemma {:induction false} BeginningCompletes(s: string) returns (y: string)
    requires BeginsBody(s)
    ensures IsBody(s + y) && !HasAngle(y)
  {
    if s == "" {
      y := "A";
      assert (s + y)[..1] == "A";
    } else if Letters(s) {
      y := "";
      assert (s + y)[..|s|] == s;
    } else {
      y := "1";
      DigitCompletes(s);
    }
  }

  lemma {:induction false} DigitCompletes(s: string)
    requires s != "" && IsUpper(s[0]) && LettersThenDigits(s) && !Letters(s)
    ensures IsBody(s + "1")
  {
    var n :| 0 <= n < |s| && Letters(s[..n]) && s[n] == '_' && Digits(s[n + 1..]);
    var body := s + "1";
    assert body[..n] == s[..n] && s[..n][0] == s[0];
    assert body[n..] == "_" + (s[n + 1..] + "1");
    assert IsName(body[..n]) && IsCounter(body[n..]);
  }

  lemma {:induction false} EndCompletes(s: string) returns (x: string)
    requires EndsBody(s)
    ensures IsBody(x + s) && !HasAngle(x)
  {
    if s == "" || Letters(s) {
      x := "A";
      LetterFirst(s);
    } else if Digits(s) {
      x := "A_";
      LetterFirst("");
      var body := x + s;
      assert body[..1] == "A" && body[1..] == "_" + s && IsCounter(body[1..]);
    } else {
      x := "A";
      LettersAndDigits(s);
    }
  }

  lemma {:induction false} LettersAndDigits(s: string)
    requires LettersThenDigits(s) && !Letters(s) && s[|s| - 1] != '_'
    ensures IsBody("A" + s)
  {
    var n :| 0 <= n < |s| && Letters(s[..n]) && s[n] == '_' && Digits(s[n + 1..]);
    LetterFirst(s[..n]);
    CounterFrom(s, n);
    assert ("A" + s)[..n + 1] == "A" + s[..n];
    assert ("A" + s)[n + 1..] == s[n..];
  }

  lemma {:induction false} CounterFrom(s: string, n: nat)
    requires n < |s| && s[n] == '_' && Digits(s[n + 1..]) && s[|s| - 1] != '_'
    ensures IsCounter(s[n..])
  {
    forall i | 1 <= i < |s| - n ensures IsDigit(s[n..][i]) {
      assert s[n..][i] == s[n + 1..][i - 1];
    }
  }

  lemma {:induction false} LetterFirst(s: string)
    requires Letters(s)
    ensures IsName("A" + s) && ("A" + s)[..|s| + 1] == "A" + s
  {
  }

  predicate Completes(x: string, s: string, y: string) {
    IsBody(x + s + y) && !HasAngle(x) && !HasAngle(y)
  }

  lemma {:induction false} InsideCompletes(s: string)
    requires InsideBody(s)
    ensures exists x, y :: Completes(x, s, y)
  {
    if EndsBody(s) {
      var x := EndCompletes(s);
      assert x + s + "" == x + s;
      assert Completes(x, s, "");
    } else {
      LetterBefore(s);
      var y := BeginningCompletes("A" + s);
      assert Completes("A", s, y);
    }
  }

  lemma {:induction false} LetterBefore(s: string)
    requires LettersThenDigits(s)
    ensures BeginsBody("A" + s)
  {
    var t := "A" + s;
    if Letters(s) {
      LetterFirst(s);
    } else {
      var n :| 0 <= n < |s| && Letters(s[..n]) && s[n] == '_' && Digits(s[n + 1..]);
      LetterFirst(s[..n]);
      assert t[..n + 1] == "A" + s[..n] && Letters(t[..n + 1]);
      assert t[n + 1] == '_' && t[n + 2..] == s[n + 1..];
    }
  }

  // A body between brackets from i on makes a token.
  lemma {:induction false} Bracketed(t: string, i: nat, body: string)
    requires i + |body| + 2 <= |t| && IsBody(body)
    requires t[i] == '<' && t[i + 1..i + 1 + |body|] == body && t[i + 1 + |body|] == '>'
    ensures !TokenFree(t)
  {
    var j := i + |body| + 2;
    Stretch(t, i, j, i + 1, j - 1);
    assert t[i..j][0] == '<' && t[i..j][j - i - 1] == '>';
    assert TokenAt(t, i, j);
  }

  lemma {:induction false} BeginningHarms(v: string, k: nat)
    requires k < |v| && v[k] == '<' && BeginsBody(v[k + 1..])
    ensures !Harmless(v)
  {
    var y := BeginningCompletes(v[k + 1..]);
    OneBracket("");
    OneBracket(y + ">");
    Bracketed("" + v + (y + ">"), k, v[k + 1..] + y);
  }

  lemma {:induction false} EndHarms(v: string, k: nat)
    requires k < |v| && v[k] == '>' && EndsBody(v[..k])
    ensures !Harmless(v)
  {
    var x := EndCompletes(v[..k]);
    OneBracket("<" + x);
    OneBracket("");
    assert ("<" + x + v + "")[..k + |x| + 2] == "<" + (x + v[..k]) + ">";
    Bracketed("<" + x + v + "", 0, x + v[..k]);
  }

  lemma {:induction false} InsideHarms(v: string)
    requires InsideBody(v)
    ensures !Harmless(v)
  {
    InsideCompletes(v);
    var x, y :| Completes(x, v, y);
    OneBracket("<" + x);
    OneBracket(y + ">");
    BetweenBrackets(x, v, y);
    Bracketed("<" + x + v + (y + ">"), 0, x + v + y);
  }

  lemma {:induction false} BetweenBrackets(x: string, v: string, y: string)
    ensures var t, body := "<" + x + v + (y + ">"), x + v + y;
            |t| == |body| + 2 && t[0] == '<' && t[1..1 + |body|] == body && t[1 + |body|] == '>'
  {
    var t, body := "<" + x + v + (y + ">"), x + v + y;
    forall i | 0 <= i < |body| ensures t[1..1 + |body|][i] == body[i] {
      assert t[1..1 + |body|][i] == t[1 + i];
    }
  }

  // A value that does not stand on its own is completed to a token by some texts around it.
  lemma {:induction false} HarmlessIsApart(v: string)
    requires Harmless(v)
    ensures Apart(v)
  {
    OneBracket("");
    assert "" + v + "" == v;
    forall k | 0 <= k < |v| && v[k] == '<' ensures !BeginsBody(v[k + 1..]) {
      if BeginsBody(v[k + 1..]) {
        BeginningHarms(v, k);
      }
    }
    forall k | 0 <= k < |v| && v[k] == '>' ensures !EndsBody(v[..k]) {
      if EndsBody(v[..k]) {
        EndHarms(v, k);
      }
    }
    if InsideBody(v) {
      InsideHarms(v);
    }
  }

  // So whether restoring can leave a token is seen from each mapped value alone.
  lemma {:induction false} RestoresCleanIffApart(m: map<string, string>)
    ensures RestoresClean(m) <==> forall token :: token in m && IsToken(token) ==> Apart(m[token])
  {
    RestoresCleanIff(m);
    forall token | token in m && IsToken(token) ensures Apart(m[token]) <==> Harmless(m[token]) {
      if Apart(m[token]) {
        ApartIsHarmless(m[token]);
      } else if Harmless(m[token]) {
        HarmlessIsApart(m[token]);
      }
    }
  }

  // Two simple families: an empty value, and one that is a name, complete a token.
  lemma {:induction false} ValuesCanBuildTokens(token: string, value: string)
    requires IsToken(token) && (value == "" || IsName(value))
    ensures IsToken(Restore("<A" + token + ">", map[token := value]))
  {
    var m := map[token := value];
    RestoreSplit("<A", token, ">", m);
    OneBracket("<A");
    OneBracket(">");
    RestoreTokenFree("<A", m);
    RestoreTokenFree(">", m);
    NamedToken(value);
  }

  lemma {:induction false} NamedToken(value: string)
    requires Letters(value)
    ensures IsToken("<A" + value + ">")
  {
    var s := "<A" + value + ">";
    assert s[1..|s| - 1] == "A" + value;
    LetterFirst(value);
  }

  lemma {:induction false} OneBracket(t: string)
    requires '<' !in t || '>' !in t
    ensures TokenFree(t)
  {
    forall i, j ensures !TokenAt(t, i, j) {
      if TokenAt(t, i, j) {
        TokenEnds(t, i, j);
      }
    }
  }

  // ---------- the pattern ----------

  predicate NameAndNumber(s: string, name: string, digits: string) {
    && s == "<" + name + (if digits == "" then "" else "_" + digits) + ">"
    && name != "" && 'A' <= name[0] <= 'Z'
    && (forall i :: 0 < i < |name| ==> 'A' <= name[i] <= 'Z' || name[i] == '-')
    && (forall i :: 0 <= i < |digits| ==> IsDigit(digits[i]))
  }

  // A token is a name of capitals and hyphens that begins with a capital, in angle brackets,
  // with or without an underscore and digits after it.
  lemma {:induction false} TokensAre(s: string)
    ensures IsToken(s) <==> exists name, digits :: NameAndNumber(s, name, digits)
  {
    if IsToken(s) {
      var body := s[1..|s| - 1];
      var n :| 0 <= n <= |body| && IsName(body[..n]) && (n == |body| || IsCounter(body[n..]));
      assert s == "<" + body + ">";
      TokenParts(s, body, n);
    }
    forall name, digits | NameAndNumber(s, name, digits) ensures IsToken(s) {
      PartsMakeToken(s, name, digits);
    }
  }

  lemma {:induction false} TokenParts(s: string, body: string, n: nat)
    requires s == "<" + body + ">" && n <= |body| && IsName(body[..n]) && (n == |body| || IsCounter(body[n..]))
    ensures NameAndNumber(s, body[..n], if n == |body| then "" else body[n + 1..])
  {
    var name, rest := body[..n], body[n..];
    assert body == name + rest;
    Assoc("<", name, rest, ">");
    if n < |body| {
      assert body[n + 1..] == rest[1..];
      assert rest == "_" + rest[1..];
    }
  }

  lemma {:induction false} PartsMakeToken(s: string, name: string, digits: string)
    requires NameAndNumber(s, name, digits)
    ensures IsToken(s)
  {
    var tail := if digits == "" then "" else "_" + digits;
    assert s[1..|s| - 1] == name + tail;
    assert (name + tail)[..|name|] == name && (name + tail)[|name|..] == tail;
    assert IsName(name) && (digits != "" ==> IsCounter(tail));
  }

  // One pass over a text up to its first token and past it: the text before stays, the token
  // becomes its value or the filler, and what follows is restored in the same way.
  lemma {:induction false} FirstTokenRestored(a: string, token: string, b: string, m: map<string, string>)
    requires TokenFree(a) && IsToken(token)
    ensures Restore(a + token + b, m) == a + (if token in m then m[token] else "[omitted]") + Restore(b, m)
  {
    RestoreSplit(a, token, b, m);
    RestoreTokenFree(a, m);
  }
}
