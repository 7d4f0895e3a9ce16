/**
 Support requests and their two limits per user: the table, the windows that refuse, when a
 refusing window opens again, and what Retry-After promises.

 Times are microseconds.
 */
module SupportRequests {
  import opened Basics

  const SECOND: int := 1_000_000
  const HOUR: int := 3600 * SECOND
  const DAY: int := 24 * HOUR

  datatype Window = Window(length: int, limit: nat)

  const HOURLY: Window := Window(HOUR, 5)
  const DAILY: Window := Window(DAY, 20)

  datatype User = User(id: int, organizationId: int)

  datatype Row = Row(id: nat, reference: string, organizationId: int, userId: int, createdAt: int)

  datatype Outcome = Stored(reference: string) | RateLimited(retryAfter: int)

  // One request: the clock at the check and at the insert, and the id the database gives.
  datatype Event = Event(user: User, checkAt: int, createAt: int, id: nat)

  // When this user's rows were created, in table order.
  function Times(rows: seq<Row>, user: int): seq<int> {
    if rows == [] then []
    else Times(rows[..|rows| - 1], user)
         + if rows[|rows| - 1].userId == user then [rows[|rows| - 1].createdAt] else []
  }

  // How many of the times are at or after since.
  function Since(times: seq<int>, since: int): nat {
    if times == [] then 0
    else Since(times[..|times| - 1], since) + if times[|times| - 1] >= since then 1 else 0
  }

  // The earliest of them.
  function Oldest(times: seq<int>, since: int): (oldest: int)
    requires Since(times, since) > 0
    ensures oldest in times && oldest >= since
    ensures forall i :: 0 <= i < |times| && times[i] >= since ==> oldest <= times[i]
  {
    var n := |times| - 1;
    if times[n] < since then Oldest(times[..n], since)
    else if Since(times[..n], since) == 0 then NoneSince(times[..n], since); times[n]
    else
      var before := Oldest(times[..n], since);
      if before <= times[n] then before else times[n]
  }

  lemma {:induction false} NoneSince(times: seq<int>, since: int)
    ensures Since(times, since) == 0 <==> forall i :: 0 <= i < |times| ==> times[i] < since
  {
    if times != [] {
      var n := |times| - 1;
      NoneSince(times[..n], since);
    }
  }

  predicate Refuses(times: seq<int>, w: Window, now: int) {
    Since(times, now - w.length) >= w.limit
  }

  // The window that refuses, the hour before the day.
  function Refusal(times: seq<int>, now: int): Option<Window> {
    if Refuses(times, HOURLY, now) then Some(HOURLY)
    else if Refuses(times, DAILY, now) then Some(DAILY)
    else None
  }

  // The last instant at which a refusing window still refuses.
  function Until(times: seq<int>, w: Window, now: int): int
    requires w.limit > 0 && Refuses(times, w, now)
  {
    Oldest(times, now - w.length) + w.length
  }

  // Whole seconds, rounded down, but at least one.
  function RetryAfter(left: int): int {
    var wait := if left < 0 then -(-left / SECOND) else left / SECOND;
    if wait > 1 then wait else 1
  }

  function Zeros(n: nat): string {
    if n == 0 then "" else "0" + Zeros(n - 1)
  }

  function Pad(s: string): string {
    if |s| >= 6 then s else Zeros(6 - |s|) + s
  }

  function Padded(n: nat): string {
    Pad(Decimal(n))
  }

  function Reference(id: nat): string {
    "SR-" + Padded(id)
  }

  function Next(rows: seq<Row>, e: Event): (seq<Row>, Outcome) {
    var times := Times(rows, e.user.id);
    var refusal := Refusal(times, e.checkAt);
    if refusal.Some? then (rows, RateLimited(RetryAfter(Until(times, refusal.value, e.checkAt) - e.checkAt)))
    else (rows + [Row(e.id, Reference(e.id), e.user.organizationId, e.user.id, e.createAt)], Stored(Reference(e.id)))
  }

  class SupportTable {
    var rows: seq<Row>

    constructor ()
      ensures rows == []
    {
      rows := [];
    }

    method CheckLimits(user: int, now: int) returns (limited: Option<int>)
      ensures limited.None? <==> Refusal(Times(rows, user), now).None?
      ensures limited.Some? ==>
                var times := Times(rows, user);
                limited.value == RetryAfter(Until(times, Refusal(times, now).value, now) - now)
    {
      var times := Times(rows, user);
      for i := 0 to 2
        invariant i >= 1 ==> !Refuses(times, HOURLY, now)
        invariant i >= 2 ==> !Refuses(times, DAILY, now)
      {
        var w := if i == 0 then HOURLY else DAILY;
        var since := now - w.length;
        var count := Since(times, since);
        if count >= w.limit {
          var oldest := Oldest(times, since);
          return Some(RetryAfter(oldest + w.length - now));
        }
      }
      limited := None;
    }

    method CreateSupportRequest(user: User, checkAt: int, createAt: int, id: nat,
                                hex: string) returns (outcome: Outcome)
      modifies this
      ensures (rows, outcome) == Next(old(rows), Event(user, checkAt, createAt, id))
    {
      var limited := CheckLimits(user.id, checkAt);
      if limited.Some? {
        return RateLimited(limited.value);
      }
      rows := rows + [Row(id, "TMP-" + hex, user.organizationId, user.id, createAt)];
      var row := rows[|rows| - 1].(reference := Reference(id));
      rows := rows[|rows| - 1 := row];
      assert rows == old(rows) + [row];
      outcome := Stored(row.reference);
    }
  }

  // ---------- the limits hold on every run ----------

  function Run(rows: seq<Row>, es: seq<Event>): seq<Row>
    decreases |es|
  {
    if es == [] then rows else Run(Next(rows, es[0]).0, es[1..])
  }

  // How many of the times lie in the closed interval.
  function Within(times: seq<int>, lo: int, hi: int): nat {
    if times == [] then 0
    else Within(times[..|times| - 1], lo, hi) + if lo <= times[|times| - 1] <= hi then 1 else 0
  }

  ghost predicate WithinLimit(times: seq<int>, w: Window) {
    forall lo :: AtMost(times, lo, w.length, w.limit)
  }

  predicate AtMost(times: seq<int>, lo: int, length: int, limit: nat) {
    Within(times, lo, lo + length) <= limit
  }

  ghost predicate WithinLimits(rows: seq<Row>) {
    forall user :: WithinLimit(Times(rows, user), HOURLY) && WithinLimit(Times(rows, user), DAILY)
  }

  lemma {:induction false} WithinSince(times: seq<int>, lo: int, hi: int, since: int)
    requires since <= lo
    ensures Within(times, lo, hi) <= Since(times, since)
  {
    if times != [] {
      WithinSince(times[..|times| - 1], lo, hi, since);
    }
  }

  // A time let in by a window, checked no later than it is recorded, keeps to its limit.
  lemma {:induction false} LetIn(times: seq<int>, w: Window, checkAt: int, createAt: int)
    requires WithinLimit(times, w) && !Refuses(times, w, checkAt) && checkAt <= createAt
    ensures WithinLimit(times + [createAt], w)
  {
    assert (times + [createAt])[..|times|] == times;
    forall lo ensures AtMost(times + [createAt], lo, w.length, w.limit) {
      assert AtMost(times, lo, w.length, w.limit);
      if lo <= createAt <= lo + w.length {
        WithinSince(times, lo, lo + w.length, checkAt - w.length);
      }
    }
  }

  lemma {:induction false} TimesAppend(rows: seq<Row>, row: Row, user: int)
    ensures Times(rows + [row], user) == Times(rows, user) + if row.userId == user then [row.createdAt] else []
  {
    assert (rows + [row])[..|rows|] == rows;
  }

  lemma {:induction false} StoredWithinLimit(rows: seq<Row>, row: Row, w: Window, user: int, checkAt: int)
    requires WithinLimit(Times(rows, user), w) && checkAt <= row.createdAt
    requires row.userId == user ==> !Refuses(Times(rows, user), w, checkAt)
    ensures WithinLimit(Times(rows + [row], user), w)
  {
    TimesAppend(rows, row, user);
    if row.userId == user {
      LetIn(Times(rows, user), w, checkAt, row.createdAt);
    } else {
      assert Times(rows + [row], user) == Times(rows, user);
    }
  }

  lemma {:induction false} NextWithinLimits(rows: seq<Row>, e: Event)
    requires WithinLimits(rows) && e.checkAt <= e.createAt
    ensures WithinLimits(Next(rows, e).0)
  {
    if Refusal(Times(rows, e.user.id), e.checkAt).None? {
      var row := Row(e.id, Reference(e.id), e.user.organizationId, e.user.id, e.createAt);
      forall user ensures WithinLimit(Times(rows + [row], user), HOURLY)
          && WithinLimit(Times(rows + [row], user), DAILY) {
        StoredWithinLimit(rows, row, HOURLY, user, e.checkAt);
        StoredWithinLimit(rows, row, DAILY, user, e.checkAt);
      }
    }
  }

  // On every serial run, whatever the clock does between requests, each user has at most 5
  // requests in any closed hour and 20 in any closed day.
  lemma {:induction false} EveryRunWithinLimits(rows: seq<Row>, es: seq<Event>)
    requires WithinLimits(rows) && forall i :: 0 <= i < |es| ==> es[i].checkAt <= es[i].createAt
    ensures WithinLimits(Run(rows, es))
    decreases |es|
  {
    if es != [] {
      NextWithinLimits(rows, es[0]);
      EveryRunWithinLimits(Next(rows, es[0]).0, es[1..]);
    }
  }

  // In numbers: 5 in 3600 seconds, 20 in 86400, for every user and every interval.
  lemma {:induction false} LimitsInNumbers(es: seq<Event>, user: int, lo: int)
    requires forall i :: 0 <= i < |es| ==> es[i].checkAt <= es[i].createAt
    ensures Within(Times(Run([], es), user), lo, lo + 3_600_000_000) <= 5
    ensures Within(Times(Run([], es), user), lo, lo + 86_400_000_000) <= 20
  {
    StartsWithinLimits();
    EveryRunWithinLimits([], es);
    var times := Times(Run([], es), user);
    assert WithinLimit(times, HOURLY) && WithinLimit(times, DAILY);
    assert AtMost(times, lo, HOURLY.length, HOURLY.limit) && AtMost(times, lo, DAILY.length, DAILY.limit);
  }

  lemma {:induction false} StartsWithinLimits()
    ensures WithinLimits([])
  {
    forall user ensures WithinLimit(Times([], user), HOURLY) && WithinLimit(Times([], user), DAILY) {
      forall lo, w: Window ensures AtMost(Times([], user), lo, w.length, w.limit) {
      }
    }
  }

  // ---------- when a refusing window opens ----------

  ghost predicate UpTo(times: seq<int>, now: int) {
    forall i :: 0 <= i < |times| ==> times[i] <= now
  }

  lemma {:induction false} SinceIsWithin(times: seq<int>, since: int, now: int)
    requires UpTo(times, now)
    ensures Since(times, since) == Within(times, since, now)
  {
    if times != [] {
      SinceIsWithin(times[..|times| - 1], since, now);
    }
  }

  lemma {:induction false} SinceFalls(times: seq<int>, from: int, to: int)
    requires from <= to
    ensures Since(times, to) <= Since(times, from)
    ensures (exists i :: 0 <= i < |times| && from <= times[i] < to) <==> Since(times, to) < Since(times, from)
  {
    if times != [] {
      var n := |times| - 1;
      SinceFalls(times[..n], from, to);
    }
  }

  // With no new request of the user, a window that refuses at now refuses later exactly
  // until its oldest request plus its length, that instant included.
  lemma {:induction false} OpensExactlyAfter(times: seq<int>, w: Window, now: int, t: int)
    requires WithinLimit(times, w) && w.limit > 0 && now <= t
    requires UpTo(times, now) && Refuses(times, w, now)
    ensures Refuses(times, w, t) <==> t <= Until(times, w, now)
  {
    SinceIsWithin(times, now - w.length, now);
    assert AtMost(times, now - w.length, w.length, w.limit);
    assert Since(times, now - w.length) == w.limit;
    SinceFalls(times, now - w.length, t - w.length);
    var oldest := Oldest(times, now - w.length);
    assert oldest in times;
  }

  // A window that lets the user in now still does later, if nothing was stored meanwhile.
  lemma {:induction false} StaysOpen(times: seq<int>, w: Window, now: int, t: int)
    requires now <= t && !Refuses(times, w, now)
    ensures !Refuses(times, w, t)
  {
    SinceFalls(times, now - w.length, t - w.length);
  }

  // Until then every request of the user is refused, so that nothing is stored for the user
  // whatever the other users do.
  lemma {:induction false} RefusedUntilThen(rows: seq<Row>, es: seq<Event>, user: int, w: Window, now: int)
    requires w == HOURLY || w == DAILY
    requires WithinLimits(rows) && Refuses(Times(rows, user), w, now)
    requires UpTo(Times(rows, user), now)
    requires forall i :: 0 <= i < |es| ==> now <= es[i].checkAt <= es[i].createAt
    requires forall i :: 0 <= i < |es| && es[i].user.id == user ==>
               es[i].checkAt <= Until(Times(rows, user), w, now)
    ensures Times(Run(rows, es), user) == Times(rows, user)
    decreases |es|
  {
    if es != [] {
      RefusedThen(rows, es[0], user, w, now);
      NextWithinLimits(rows, es[0]);
      RefusedUntilThen(Next(rows, es[0]).0, es[1..], user, w, now);
    }
  }

  lemma {:induction false} RefusedThen(rows: seq<Row>, e: Event, user: int, w: Window, now: int)
    requires w == HOURLY || w == DAILY
    requires WithinLimit(Times(rows, user), w) && Refuses(Times(rows, user), w, now) && now <= e.checkAt
    requires UpTo(Times(rows, user), now)
    requires e.user.id == user ==> e.checkAt <= Until(Times(rows, user), w, now)
    ensures Times(Next(rows, e).0, user) == Times(rows, user)
  {
    if e.user.id == user {
      OpensExactlyAfter(Times(rows, user), w, now, e.checkAt);
    } else {
      TimesAppend(rows, Row(e.id, Reference(e.id), e.user.organizationId, e.user.id, e.createAt), user);
    }
  }

  lemma {:induction false} RunUpTo(rows: seq<Row>, es: seq<Event>, user: int, now: int)
    requires UpTo(Times(rows, user), now) && forall i :: 0 <= i < |es| ==> es[i].createAt <= now
    ensures UpTo(Times(Run(rows, es), user), now)
    decreases |es|
  {
    if es != [] {
      var e := es[0];
      TimesAppend(rows, Row(e.id, Reference(e.id), e.user.organizationId, e.user.id, e.createAt), user);
      RunUpTo(Next(rows, e).0, es[1..], user, now);
    }
  }

  // From the empty table, after any run up to now: a window that refuses the user at now
  // refuses, through whatever anybody asks up to its end, until exactly that end.
  lemma {:induction false} RefusalEndsExactly(past: seq<Event>, later: seq<Event>, user: int, w: Window, now: int,
                                              t: int)
    requires w == HOURLY || w == DAILY
    requires forall i :: 0 <= i < |past| ==> past[i].checkAt <= past[i].createAt <= now
    requires forall i :: 0 <= i < |later| ==> now <= later[i].checkAt <= later[i].createAt
    requires Refuses(Times(Run([], past), user), w, now) && now <= t
    requires forall i :: 0 <= i < |later| && later[i].user.id == user ==>
               later[i].checkAt <= Until(Times(Run([], past), user), w, now)
    ensures var rows := Run([], past);
            Refuses(Times(Run(rows, later), user), w, t) <==> t <= Until(Times(rows, user), w, now)
  {
    var rows := Run([], past);
    StartsWithinLimits();
    EveryRunWithinLimits([], past);
    RunUpTo([], past, user, now);
    RefusedUntilThen(rows, later, user, w, now);
    assert WithinLimit(Times(rows, user), HOURLY) && WithinLimit(Times(rows, user), DAILY);
    OpensExactlyAfter(Times(rows, user), w, now, t);
  }

  // From the empty table, after any run up to now that ends with the user refused, and
  // whatever anybody asks while a window of the user still refuses: the user's next request
  // is stored exactly when every window that refused at now has come to its end.
  lemma {:induction false} AdmittedExactly(past: seq<Event>, later: seq<Event>, w: Window, now: int, e: Event)
    requires w == HOURLY || w == DAILY
    requires forall i :: 0 <= i < |past| ==> past[i].checkAt <= past[i].createAt <= now
    requires forall i :: 0 <= i < |later| ==> now <= later[i].checkAt <= later[i].createAt
    requires Refuses(Times(Run([], past), e.user.id), w, now) && now <= e.checkAt
    requires forall i :: 0 <= i < |later| && later[i].user.id == e.user.id ==>
               later[i].checkAt <= Until(Times(Run([], past), e.user.id), w, now)
    ensures var times := Times(Run([], past), e.user.id);
            Next(Run(Run([], past), later), e).1.Stored? <==>
              && (Refuses(times, HOURLY, now) ==> e.checkAt > Until(times, HOURLY, now))
              && (Refuses(times, DAILY, now) ==> e.checkAt > Until(times, DAILY, now))
  {
    var rows, user := Run([], past), e.user.id;
    StartsWithinLimits();
    EveryRunWithinLimits([], past);
    RunUpTo([], past, user, now);
    RefusedUntilThen(rows, later, user, w, now);
    OpensThenStaysOpen(Times(rows, user), HOURLY, now, e.checkAt);
    OpensThenStaysOpen(Times(rows, user), DAILY, now, e.checkAt);
  }

  lemma {:induction false} OpensThenStaysOpen(times: seq<int>, w: Window, now: int, t: int)
    requires WithinLimit(times, w) && w.limit > 0 && UpTo(times, now) && now <= t
    ensures Refuses(times, w, t) <==> Refuses(times, w, now) && t <= Until(times, w, now)
  {
    if Refuses(times, w, now) {
      OpensExactlyAfter(times, w, now, t);
    } else {
      StaysOpen(times, w, now, t);
    }
  }

  // The time a request is refused with points within a second of the instant the window opens.
  // Waiting it out gets past the window exactly when less than a second was left.
  lemma {:induction false} RetryAfterPointsThere(times: seq<int>, w: Window, now: int)
    requires WithinLimit(times, w) && w.limit > 0
    requires UpTo(times, now) && Refuses(times, w, now)
    ensures var left := Until(times, w, now) - now;
            var retry := now + RetryAfter(left) * SECOND;
            && left >= 0
            && Until(times, w, now) - SECOND < retry <= Until(times, w, now) + SECOND
            && (Refuses(times, w, retry) <==> left >= SECOND)
  {
    var left := Until(times, w, now) - now;
    OpensExactlyAfter(times, w, now, now + RetryAfter(left) * SECOND);
  }

  // What a refused request is told: counted from its own check, the seconds to within one of
  // the instant the first refusing window opens; the hour is looked at before the day.
  lemma {:induction false} RefusalReports(rows: seq<Row>, e: Event)
    requires WithinLimits(rows) && UpTo(Times(rows, e.user.id), e.checkAt) && Next(rows, e).1.RateLimited?
    ensures var times, wait := Times(rows, e.user.id), Next(rows, e).1.retryAfter;
            var w := if Refuses(times, HOURLY, e.checkAt) then HOURLY else DAILY;
            && Next(rows, e).0 == rows && wait >= 1 && Refuses(times, w, e.checkAt)
            && Until(times, w, e.checkAt) - 1_000_000 < e.checkAt + wait * 1_000_000
            && e.checkAt + wait * 1_000_000 <= Until(times, w, e.checkAt) + 1_000_000
  {
    var times := Times(rows, e.user.id);
    assert WithinLimit(times, HOURLY) && WithinLimit(times, DAILY);
    RetryAfterPointsThere(times, if Refuses(times, HOURLY, e.checkAt) then HOURLY else DAILY, e.checkAt);
  }

  // What a request that is not refused stores.
  lemma {:induction false} StoredRow(rows: seq<Row>, e: Event)
    requires Next(rows, e).1.Stored?
    ensures var after := Next(rows, e).0;
            && |after| == |rows| + 1 && after[..|rows|] == rows
            && after[|rows|].userId == e.user.id && after[|rows|].organizationId == e.user.organizationId
            && after[|rows|].createdAt == e.createAt && after[|rows|].id == e.id
            && after[|rows|].reference == Next(rows, e).1.reference == Reference(e.id)
  {
  }

  // ---------- references ----------

  // The number a string of digits stands for.
  function Number(s: string): nat
    requires AllDigits(s)
  {
    if s == "" then 0 else 10 * Number(s[..|s| - 1]) + (s[|s| - 1] - '0') as nat
  }

  lemma {:induction false} NumberOfDecimal(n: nat)
    ensures Number(Decimal(n)) == n
  {
    var s := Decimal(n);
    if n >= 10 {
      NumberOfDecimal(n / 10);
      assert s[..|s| - 1] == Decimal(n / 10) && s[|s| - 1] == Digit(n % 10);
    } else {
      assert s[..|s| - 1] == "" && s[0] == Digit(n);
    }
  }

  lemma {:induction false} NumberOfPadded(k: nat, s: string)
    requires AllDigits(s)
    ensures AllDigits(Zeros(k) + s) && Number(Zeros(k) + s) == Number(s)
  {
    if k == 0 {
      assert Zeros(0) + s == s;
    } else {
      assert Zeros(k) + s == "0" + (Zeros(k - 1) + s);
      NumberOfPadded(k - 1, s);
      NumberAfterZero(Zeros(k - 1) + s);
    }
  }

  lemma {:induction false} NumberAfterZero(s: string)
    requires AllDigits(s)
    ensures AllDigits("0" + s) && Number("0" + s) == Number(s)
  {
    if s == "" {
      assert ("0" + s)[..0] == "";
    } else {
      var n := |s| - 1;
      assert ("0" + s)[..n + 1] == "0" + s[..n];
      NumberAfterZero(s[..n]);
    }
  }

  // Two ids never share a reference, padded or not.
  lemma {:induction false} ReferenceInjective(a: nat, b: nat)
    requires Reference(a) == Reference(b)
    ensures a == b
  {
    assert Reference(a)[3..] == Padded(a) && Reference(b)[3..] == Padded(b);
    NumberOfPadding(a);
    NumberOfPadding(b);
  }

  lemma {:induction false} NumberOfPadding(n: nat)
    ensures AllDigits(Padded(n)) && Number(Padded(n)) == n
  {
    NumberOfDecimal(n);
    NumberOfPad(Decimal(n));
  }

  lemma {:induction false} NumberOfPad(s: string)
    requires AllDigits(s)
    ensures AllDigits(Pad(s)) && Number(Pad(s)) == Number(s)
  {
    if |s| < 6 {
      NumberOfPadded(6 - |s|, s);
    }
  }

  ghost predicate ReferencesDistinct(rows: seq<Row>) {
    && (forall i :: 0 <= i < |rows| ==> rows[i].reference == Reference(rows[i].id))
    && (forall i, j :: 0 <= i < j < |rows| ==> rows[i].reference != rows[j].reference)
  }

  // The unique key on references never stands in the way of a fresh id.
  lemma {:induction false} NextKeepsReferencesDistinct(rows: seq<Row>, e: Event)
    requires ReferencesDistinct(rows) && forall i :: 0 <= i < |rows| ==> rows[i].id != e.id
    ensures ReferencesDistinct(Next(rows, e).0)
  {
    forall i | 0 <= i < |rows| ensures rows[i].reference != Reference(e.id) {
      if rows[i].reference == Reference(e.id) {
        ReferenceInjective(rows[i].id, e.id);
      }
    }
  }
}
