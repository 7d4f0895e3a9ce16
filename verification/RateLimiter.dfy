/**
 Two sliding windows for one intent: a list in memory, which records what it accepts, and a
 sorted set in Redis, which records every attempt and expires with its key; and the
 fallback from the second to the first, request by request.

 Times are integers; a window is a number of the same units.
 */
module RateLimiter {
  import opened Basics

  // The times later than cut, in order.
  function Kept(log: seq<int>, cut: int): seq<int> {
    if log == [] then []
    else Kept(log[..|log| - 1], cut) + if log[|log| - 1] > cut then [log[|log| - 1]] else []
  }

  // Entries of the sorted set, one for each distinct member, and when the key expires.
  datatype Zset = Zset(entries: seq<int>, expireAt: int)

  function MemoryStep(attempts: seq<int>, now: int, window: nat, max: nat): (seq<int>, bool) {
    var kept := Kept(attempts, now - window);
    if |kept| >= max then (kept, false) else (kept + [now], true)
  }

  // What the server still has under the key.
  function Alive(z: Option<Zset>, now: int): seq<int> {
    if z.Some? && now < z.value.expireAt then z.value.entries else []
  }

  function RedisStep(z: Option<Zset>, now: int, window: nat, max: nat): (Option<Zset>, bool) {
    var kept := Kept(Alive(z, now), now - window);
    (Some(Zset(kept + [now], now + window)), |kept| < max)
  }

  // How Redis takes part in one request: it answers, or it fails before or after having
  // recorded the attempt.
  datatype Route = Answers | FailsUnrecorded | FailsRecorded

  // What is stored under a key.
  function AttemptsOf(memory: map<string, seq<int>>, key: string): seq<int> {
    if key in memory then memory[key] else []
  }

  function ZsetOf(redis: map<string, Zset>, key: string): Option<Zset> {
    if key in redis then Some(redis[key]) else None
  }

  class Limiter {
    var memory: map<string, seq<int>>
    var redis: map<string, Zset>

    constructor ()
      ensures memory == map[] && redis == map[]
    {
      memory, redis := map[], map[];
    }

    method CheckMemory(key: string, window: nat, max: nat, now: int) returns (allowed: bool)
      modifies this`memory
      ensures memory == old(memory)[key := MemoryStep(AttemptsOf(old(memory), key), now, window, max).0]
      ensures allowed == MemoryStep(AttemptsOf(old(memory), key), now, window, max).1
    {
      var attempts := if key in memory then memory[key] else [];
      var kept: seq<int> := [];
      for i := 0 to |attempts|
        invariant kept == Kept(attempts[..i], now - window)
      {
        assert attempts[..i + 1][..i] == attempts[..i];
        if now - attempts[i] < window {
          kept := kept + [attempts[i]];
        }
      }
      assert attempts[..|attempts|] == attempts;
      memory := memory[key := kept];
      if |memory[key]| >= max {
        return false;
      }
      memory := memory[key := memory[key] + [now]];
      allowed := true;
    }

    // The pipeline: trim, count, add, set the expiry; then compare the count.
    method CheckRedis(key: string, window: nat, max: nat, now: int) returns (allowed: bool)
      modifies this`redis
      ensures redis == old(redis)[key := RedisStep(ZsetOf(old(redis), key), now, window, max).0.value]
      ensures allowed == RedisStep(ZsetOf(old(redis), key), now, window, max).1
    {
      var entries := if key in redis && now < redis[key].expireAt then redis[key].entries else [];
      entries := Kept(entries, now - window);
      var countBefore := |entries|;
      entries := entries + [now];
      redis := redis[key := Zset(entries, now + window)];
      allowed := countBefore < max;
    }

    method Check(key: string, window: nat, max: nat, now: int, route: Route) returns (allowed: bool)
      modifies this
      ensures route.FailsUnrecorded? ==> redis == old(redis)
      ensures !route.FailsUnrecorded? ==>
                redis == old(redis)[key := RedisStep(ZsetOf(old(redis), key), now, window, max).0.value]
      ensures route.Answers? ==>
                memory == old(memory) && allowed == RedisStep(ZsetOf(old(redis), key), now, window, max).1
      ensures !route.Answers? ==>
                && memory == old(memory)[key := MemoryStep(AttemptsOf(old(memory), key), now, window, max).0]
                && allowed == MemoryStep(AttemptsOf(old(memory), key), now, window, max).1
    {
      if !route.FailsUnrecorded? {
        allowed := CheckRedis(key, window, max, now);
      }
      if !route.Answers? {
        allowed := CheckMemory(key, window, max, now);
      }
    }
  }

  // ---------- a run on one key ----------

  datatype Request = Request(time: int, route: Route)

  // The limiter's state for the key, and what has happened: the times accepted by each
  // side and the times Redis recorded.
  datatype Play = Play(attempts: seq<int>, z: Option<Zset>, byMemory: seq<int>, byRedis: seq<int>, recorded: seq<int>)

  function PlayStep(p: Play, r: Request, window: nat, max: nat): Play {
    var q :=
      if r.route.FailsUnrecorded? then p
      else
        var (z, allowed) := RedisStep(p.z, r.time, window, max);
        p.(z := z, recorded := p.recorded + [r.time],
           byRedis := if r.route.Answers? && allowed then p.byRedis + [r.time] else p.byRedis);
    if r.route.Answers? then q
    else
      var (attempts, allowed) := MemoryStep(p.attempts, r.time, window, max);
      q.(attempts := attempts, byMemory := if allowed then p.byMemory + [r.time] else p.byMemory)
  }

  function Played(rs: seq<Request>, window: nat, max: nat): Play {
    if rs == [] then Play([], None, [], [], [])
    else PlayStep(Played(rs[..|rs| - 1], window, max), rs[|rs| - 1], window, max)
  }

  ghost predicate InOrder(rs: seq<Request>) {
    forall i, j :: 0 <= i < j < |rs| ==> rs[i].time <= rs[j].time
  }

  // How many of these times lie in the interval of that length from lo on, its end excluded.
  function CountIn(log: seq<int>, lo: int, window: nat): nat {
    if log == [] then 0
    else CountIn(log[..|log| - 1], lo, window) + if lo <= log[|log| - 1] < lo + window then 1 else 0
  }

  ghost predicate UpTo(log: seq<int>, now: int) {
    forall i :: 0 <= i < |log| ==> log[i] <= now
  }

  // ---------- facts about Kept and CountIn ----------

  lemma {:induction false} Append(log: seq<int>, t: int)
    ensures (log + [t])[..|log|] == log && (log + [t])[|log|] == t
    ensures forall cut :: Kept(log + [t], cut) == Kept(log, cut) + if t > cut then [t] else []
  {
    assert (log + [t])[..|log|] == log;
  }

  lemma {:induction false} KeptTwice(log: seq<int>, a: int, b: int)
    requires a <= b
    ensures Kept(Kept(log, a), b) == Kept(log, b)
  {
    if log != [] {
      var n := |log| - 1;
      KeptTwice(log[..n], a, b);
      Append(Kept(log[..n], a), log[n]);
      assert log[n] <= a ==> Kept(log, a) == Kept(log[..n], a);
    }
  }

  lemma {:induction false} KeptNothing(log: seq<int>, cut: int)
    requires UpTo(log, cut)
    ensures Kept(log, cut) == []
  {
    if log != [] {
      KeptNothing(log[..|log| - 1], cut);
    }
  }

  lemma {:induction false} CountWithinKept(log: seq<int>, cut: int, lo: int, window: nat)
    requires cut < lo
    ensures CountIn(log, lo, window) <= |Kept(log, cut)|
  {
    if log != [] {
      CountWithinKept(log[..|log| - 1], cut, lo, window);
    }
  }

  // A log whose entries are all accepted with less than max others in the window stays
  // within max in every window.
  lemma {:induction false} CountAfterAccept(log: seq<int>, now: int, window: nat, max: nat, lo: int)
    requires CountIn(log, lo, window) <= max
    requires |Kept(log, now - window)| < max
    ensures CountIn(log + [now], lo, window) <= max
  {
    Append(log, now);
    if lo <= now < lo + window {
      CountWithinKept(log, now - window, lo, window);
    }
  }

  // ---------- the invariant of a run ----------

  // The two logs hold the same times later than any cut from there on.
  ghost predicate AgreeFrom(a: seq<int>, b: seq<int>, from: int) {
    forall cut :: cut >= from ==> Kept(a, cut) == Kept(b, cut)
  }

  // Both limiters know what they must: the memory list holds what it accepted and the
  // sorted set, expiry or not, what was recorded, as far as the window reaches back.
  ghost predicate Knows(p: Play, now: int, window: nat) {
    && UpTo(p.recorded, now)
    && AgreeFrom(p.attempts, p.byMemory, now - window)
    && (forall t :: t >= now ==> Kept(Alive(p.z, t), t - window) == Kept(p.recorded, t - window))
  }

  lemma {:induction false} MemoryKnows(p: Play, now: int, t: int, window: nat, max: nat)
    requires Knows(p, now, window) && now <= t
    ensures var (attempts, allowed) := MemoryStep(p.attempts, t, window, max);
            && (allowed <==> |Kept(p.byMemory, t - window)| < max)
            && AgreeFrom(attempts, if allowed then p.byMemory + [t] else p.byMemory, t - window)
  {
    MemoryStepAgrees(p.attempts, p.byMemory, t, window, max);
  }

  lemma {:induction false} MemoryStepAgrees(attempts: seq<int>, accepted: seq<int>, t: int, window: nat, max: nat)
    requires AgreeFrom(attempts, accepted, t - window) && Kept(attempts, t - window) == Kept(accepted, t - window)
    ensures var (after, allowed) := MemoryStep(attempts, t, window, max);
            && (allowed <==> |Kept(accepted, t - window)| < max)
            && AgreeFrom(after, if allowed then accepted + [t] else accepted, t - window)
  {
    AllAcceptedLater(attempts, accepted, t, t - window);
  }

  lemma {:induction false} AllAcceptedLater(attempts: seq<int>, accepted: seq<int>, t: int, from: int)
    requires AgreeFrom(attempts, accepted, from)
    ensures AgreeFrom(Kept(attempts, from), accepted, from)
    ensures AgreeFrom(Kept(attempts, from) + [t], accepted + [t], from)
  {
    forall cut | cut >= from
      ensures Kept(Kept(attempts, from), cut) == Kept(accepted, cut)
      ensures Kept(Kept(attempts, from) + [t], cut) == Kept(accepted + [t], cut)
    {
      AcceptedLater(attempts, accepted, t, from, cut);
    }
  }

  lemma {:induction false} AcceptedLater(attempts: seq<int>, accepted: seq<int>, t: int, from: int, cut: int)
    requires from <= cut && Kept(attempts, cut) == Kept(accepted, cut)
    ensures Kept(Kept(attempts, from), cut) == Kept(accepted, cut)
    ensures Kept(Kept(attempts, from) + [t], cut) == Kept(accepted + [t], cut)
  {
    KeptTwice(attempts, from, cut);
    Append(Kept(attempts, from), t);
    Append(accepted, t);
  }

  lemma {:induction false} RedisKnows(p: Play, now: int, t: int, window: nat, max: nat)
    requires Knows(p, now, window) && now <= t
    ensures var (z, allowed) := RedisStep(p.z, t, window, max);
            && (allowed <==> |Kept(p.recorded, t - window)| < max)
            && UpTo(p.recorded + [t], t)
            && forall u :: u >= t ==> Kept(Alive(z, u), u - window) == Kept(p.recorded + [t], u - window)
  {
    var z := RedisStep(p.z, t, window, max).0;
    assert Kept(Alive(p.z, t), t - window) == Kept(p.recorded, t - window);
    forall u | u >= t ensures Kept(Alive(z, u), u - window) == Kept(p.recorded + [t], u - window) {
      RecordedLater(p.recorded, t, u, window);
    }
  }

  // What was kept when t was added and what was ever recorded agree from then on, and agree
  // on nothing once the key has expired.
  lemma {:induction false} RecordedLater(recorded: seq<int>, t: int, u: int, window: nat)
    requires UpTo(recorded, t) && t <= u
    ensures Kept(if u < t + window then Kept(recorded, t - window) + [t] else [], u - window)
            == Kept(recorded + [t], u - window)
  {
    if u < t + window {
      Append(Kept(recorded, t - window), t);
      Append(recorded, t);
      KeptTwice(recorded, t - window, u - window);
    } else {
      KeptNothing(recorded + [t], u - window);
    }
  }

  lemma {:induction false} StepKnows(p: Play, now: int, r: Request, window: nat, max: nat)
    requires Knows(p, now, window) && now <= r.time
    ensures Knows(PlayStep(p, r, window, max), r.time, window)
  {
    MemoryKnows(p, now, r.time, window, max);
    RedisKnows(p, now, r.time, window, max);
  }

  ghost predicate AtMost(log: seq<int>, window: nat, max: nat) {
    forall lo :: CountIn(log, lo, window) <= max
  }

  ghost predicate Bounded(p: Play, window: nat, max: nat) {
    AtMost(p.byMemory, window, max) && AtMost(p.byRedis, window, max)
  }

  // What Redis accepted was recorded.
  ghost predicate Fewer(log: seq<int>, than: seq<int>) {
    forall cut :: |Kept(log, cut)| <= |Kept(than, cut)|
  }

  lemma {:induction false} AtMostAppend(log: seq<int>, t: int, window: nat, max: nat)
    requires AtMost(log, window, max) && |Kept(log, t - window)| < max
    ensures AtMost(log + [t], window, max)
  {
    forall lo ensures CountIn(log + [t], lo, window) <= max {
      CountAfterAccept(log, t, window, max, lo);
    }
  }

  lemma {:induction false} FewerAppend(log: seq<int>, than: seq<int>, t: int)
    requires Fewer(log, than)
    ensures Fewer(log, than + [t]) && Fewer(log + [t], than + [t])
  {
    Append(log, t);
    Append(than, t);
    forall cut ensures |Kept(log, cut)| <= |Kept(than + [t], cut)|
        && |Kept(log + [t], cut)| <= |Kept(than + [t], cut)| {
      assert |Kept(log, cut)| <= |Kept(than, cut)|;
    }
  }

  lemma {:induction false} MemoryBounded(p: Play, now: int, r: Request, window: nat, max: nat)
    requires Knows(p, now, window) && now <= r.time && AtMost(p.byMemory, window, max)
    ensures AtMost(PlayStep(p, r, window, max).byMemory, window, max)
  {
    assert Kept(p.attempts, r.time - window) == Kept(p.byMemory, r.time - window);
    if |Kept(p.byMemory, r.time - window)| < max {
      AtMostAppend(p.byMemory, r.time, window, max);
    }
  }

  lemma {:induction false} RedisBounded(p: Play, now: int, r: Request, window: nat, max: nat)
    requires Knows(p, now, window) && now <= r.time
    requires AtMost(p.byRedis, window, max) && Fewer(p.byRedis, p.recorded)
    ensures AtMost(PlayStep(p, r, window, max).byRedis, window, max)
  {
    RedisAccepts(p, r, window, max);
    assert Kept(Alive(p.z, r.time), r.time - window) == Kept(p.recorded, r.time - window);
    assert |Kept(p.byRedis, r.time - window)| <= |Kept(p.recorded, r.time - window)|;
    if PlayStep(p, r, window, max).byRedis != p.byRedis {
      AtMostAppend(p.byRedis, r.time, window, max);
    }
  }

  lemma {:induction false} RedisAccepts(p: Play, r: Request, window: nat, max: nat)
    ensures var after := PlayStep(p, r, window, max).byRedis;
            || after == p.byRedis
            || (after == p.byRedis + [r.time] && |Kept(Alive(p.z, r.time), r.time - window)| < max)
  {
  }

  lemma {:induction false} StepBounded(p: Play, now: int, r: Request, window: nat, max: nat)
    requires Knows(p, now, window) && now <= r.time && Bounded(p, window, max) && Fewer(p.byRedis, p.recorded)
    ensures Bounded(PlayStep(p, r, window, max), window, max)
    ensures Fewer(PlayStep(p, r, window, max).byRedis, PlayStep(p, r, window, max).recorded)
  {
    MemoryBounded(p, now, r, window, max);
    RedisBounded(p, now, r, window, max);
    FewerAppend(p.byRedis, p.recorded, r.time);
  }

  lemma {:induction false} RunBounded(rs: seq<Request>, window: nat, max: nat, now: int)
    requires InOrder(rs) && forall i :: 0 <= i < |rs| ==> rs[i].time <= now
    ensures Knows(Played(rs, window, max), now, window)
    ensures Bounded(Played(rs, window, max), window, max)
    ensures Fewer(Played(rs, window, max).byRedis, Played(rs, window, max).recorded)
  {
    if rs != [] {
      var n := |rs| - 1;
      RunBounded(rs[..n], window, max, rs[n].time);
      StepKnows(Played(rs[..n], window, max), rs[n].time, rs[n], window, max);
      StepBounded(Played(rs[..n], window, max), rs[n].time, rs[n], window, max);
    }
  }

  // In every run with any mix of answers and failures of Redis, in every window-long
  // interval, each limiter accepts at most max requests, and both together at most twice that.
  lemma {:induction false} JointBound(rs: seq<Request>, window: nat, max: nat, lo: int)
    requires InOrder(rs)
    ensures var p := Played(rs, window, max);
            && CountIn(p.byMemory, lo, window) <= max
            && CountIn(p.byRedis, lo, window) <= max
            && CountIn(p.byMemory, lo, window) + CountIn(p.byRedis, lo, window) <= 2 * max
  {
    var now := if rs == [] then 0 else rs[|rs| - 1].time;
    RunBounded(rs, window, max, now);
    assert Bounded(Played(rs, window, max), window, max);
  }

  // ---------- one limiter against the other ----------

  function AllBy(times: seq<int>, route: Route): seq<Request> {
    seq(|times|, i requires 0 <= i < |times| => Request(times[i], route))
  }

  ghost predicate Nondecreasing(times: seq<int>) {
    forall i, j :: 0 <= i < j < |times| ==> times[i] <= times[j]
  }

  // Whether the last arrival of times is let in by the limiter of the route.
  predicate LetsIn(times: seq<int>, route: Route, window: nat, max: nat)
    requires times != []
  {
    var n := |times| - 1;
    var p := Played(AllBy(times[..n], route), window, max);
    if route.Answers? then RedisStep(p.z, times[n], window, max).1
    else MemoryStep(p.attempts, times[n], window, max).1
  }

  lemma {:induction false} AllByPrefix(times: seq<int>, route: Route)
    requires times != []
    ensures AllBy(times, route)[..|times| - 1] == AllBy(times[..|times| - 1], route)
    ensures AllBy(times, route)[|times| - 1] == Request(times[|times| - 1], route)
  {
  }

  // With Redis alone, every arrival is recorded.
  lemma {:induction false} RecordsAll(times: seq<int>, window: nat, max: nat)
    ensures Played(AllBy(times, Answers), window, max).recorded == times
  {
    if times == [] {
      assert AllBy(times, Answers) == [];
    } else {
      var n := |times| - 1;
      RecordsAll(times[..n], window, max);
      AllByPrefix(times, Answers);
      assert times[..n] + [times[n]] == times;
    }
  }

  // With memory alone, no more is accepted than arrived.
  lemma {:induction false} AcceptsSome(times: seq<int>, window: nat, max: nat)
    ensures forall cut :: |Kept(Played(AllBy(times, FailsUnrecorded), window, max).byMemory, cut)| <= |Kept(times, cut)|
  {
    if times == [] {
      assert AllBy(times, FailsUnrecorded) == [];
    } else {
      var n := |times| - 1;
      AcceptsSome(times[..n], window, max);
      AllByPrefix(times, FailsUnrecorded);
      var m := Played(AllBy(times[..n], FailsUnrecorded), window, max).byMemory;
      Append(m, times[n]);
      forall cut ensures |Kept(m, cut)| <= |Kept(times, cut)| && |Kept(m + [times[n]], cut)| <= |Kept(times, cut)| {
        assert |Kept(m, cut)| <= |Kept(times[..n], cut)|;
      }
    }
  }

  // On the same arrivals, whatever Redis lets in, the memory limiter lets in too.
  lemma {:induction false} RedisIsStricter(times: seq<int>, window: nat, max: nat)
    requires Nondecreasing(times) && times != [] && LetsIn(times, Answers, window, max)
    ensures LetsIn(times, FailsUnrecorded, window, max)
  {
    var n := |times| - 1;
    var before, t := times[..n], times[n];
    var r, m := Played(AllBy(before, Answers), window, max), Played(AllBy(before, FailsUnrecorded), window, max);
    RunBounded(AllBy(before, Answers), window, max, t);
    RunBounded(AllBy(before, FailsUnrecorded), window, max, t);
    RedisKnows(r, t, t, window, max);
    MemoryKnows(m, t, t, window, max);
    RecordsAll(before, window, max);
    AcceptsSome(before, window, max);
  }

  // The expiry of the key never changes an answer: Redis decides as if it kept every attempt.
  lemma {:induction false} ExpiryIsInvisible(rs: seq<Request>, window: nat, max: nat, now: int)
    requires InOrder(rs) && forall i :: 0 <= i < |rs| ==> rs[i].time <= now
    ensures var p := Played(rs, window, max);
            && Kept(Alive(p.z, now), now - window) == Kept(p.recorded, now - window)
            && RedisStep(p.z, now, window, max).1 == (|Kept(p.recorded, now - window)| < max)
  {
    RunBounded(rs, window, max, now);
  }

  // ---------- a limiter at work ----------

  datatype Policy = Policy(window: nat, max: nat)

  datatype Call = Call(key: string, now: int, route: Route)

  ghost predicate CallsInOrder(calls: seq<Call>) {
    forall i, j :: 0 <= i < j < |calls| ==> calls[i].now <= calls[j].now
  }

  ghost predicate NoneLater(calls: seq<Call>, now: int) {
    forall i :: 0 <= i < |calls| ==> calls[i].now <= now
  }

  // The times at which calls with this key were let in by one side: by Redis, or by memory.
  function LetInBy(calls: seq<Call>, answers: seq<bool>, key: string, redis: bool): seq<int>
    requires |answers| == |calls|
  {
    if calls == [] then []
    else
      var n := |calls| - 1;
      LetInBy(calls[..n], answers[..n], key, redis)
      + if calls[n].key == key && answers[n] && calls[n].route.Answers? == redis then [calls[n].now] else []
  }

  // The times at which Redis recorded an attempt with this key, let in or not.
  function RecordedFor(calls: seq<Call>, key: string): seq<int> {
    if calls == [] then []
    else
      var n := |calls| - 1;
      RecordedFor(calls[..n], key)
      + if calls[n].key == key && !calls[n].route.FailsUnrecorded? then [calls[n].now] else []
  }

  // How many of these times are less than a window ago.
  function Recent(times: seq<int>, now: int, window: nat): nat {
    if times == [] then 0
    else Recent(times[..|times| - 1], now, window) + if now - times[|times| - 1] < window then 1 else 0
  }

  // Call i is answered right: let in exactly when less than max recent ones count, which are
  // those that memory let in or, when Redis answers, those it recorded.
  ghost predicate AnsweredRight(calls: seq<Call>, answers: seq<bool>, i: nat, policy: string -> Policy)
    requires i < |calls| == |answers|
  {
    var call := calls[i];
    var counted := if call.route.Answers? then RecordedFor(calls[..i], call.key)
                   else LetInBy(calls[..i], answers[..i], call.key, false);
    answers[i] <==> Recent(counted, call.now, policy(call.key).window) < policy(call.key).max
  }

  // For every key, in every interval of its window's length, each side lets in at most max.
  ghost predicate WithinPolicy(calls: seq<Call>, answers: seq<bool>, policy: string -> Policy)
    requires |answers| == |calls|
  {
    forall key, lo :: KeyWithin(calls, answers, key, policy(key), lo)
  }

  predicate KeyWithin(calls: seq<Call>, answers: seq<bool>, key: string, policy: Policy, lo: int)
    requires |answers| == |calls|
  {
    && CountIn(LetInBy(calls, answers, key, false), lo, policy.window) <= policy.max
    && CountIn(LetInBy(calls, answers, key, true), lo, policy.window) <= policy.max
  }

  // A limiter that starts empty and serves calls in order of time, by any routes.
  method Serve(limiter: Limiter, policy: string -> Policy, calls: seq<Call>) returns (answers: seq<bool>)
    requires limiter.memory == map[] && limiter.redis == map[] && CallsInOrder(calls)
    modifies limiter
    ensures |answers| == |calls|
    ensures AllRight(calls, answers, policy)
    ensures WithinPolicy(calls, answers, policy)
  {
    answers := [];
    for i := 0 to |calls|
      invariant |answers| == i
      invariant AllRight(calls[..i], answers, policy)
      invariant AllTied(limiter.memory, limiter.redis, calls[..i], answers, policy)
    {
      var call := calls[i];
      ghost var memory, redis, before := limiter.memory, limiter.redis, answers;
      var allowed := limiter.Check(call.key, policy(call.key).window, policy(call.key).max, call.now, call.route);
      answers := answers + [allowed];
      assert calls[..i + 1] == calls[..i] + [call];
      EarlierCalls(calls, i);
      RightAgain(memory, redis, limiter.memory, limiter.redis, calls[..i], before, call, policy, allowed);
      TiedAgain(memory, redis, limiter.memory, limiter.redis, calls[..i], before, call, policy, allowed);
    }
    assert calls[..|calls|] == calls;
    TiedIsWithin(limiter.memory, limiter.redis, calls, answers, policy);
  }

  // The requests of one key, as the run on that key sees them.
  function Mine(calls: seq<Call>, key: string): seq<Request> {
    if calls == [] then []
    else
      var n := |calls| - 1;
      Mine(calls[..n], key) + if calls[n].key == key then [Request(calls[n].now, calls[n].route)] else []
  }

  // What is stored under the key, and what was answered, is that of the run on the key.
  ghost predicate Tied(memory: map<string, seq<int>>, redis: map<string, Zset>, calls: seq<Call>, answers: seq<bool>,
                       key: string, policy: Policy)
    requires |answers| == |calls|
  {
    var p := Played(Mine(calls, key), policy.window, policy.max);
    && AttemptsOf(memory, key) == p.attempts && ZsetOf(redis, key) == p.z
    && LetInBy(calls, answers, key, false) == p.byMemory && LetInBy(calls, answers, key, true) == p.byRedis
    && RecordedFor(calls, key) == p.recorded
  }

  lemma {:induction false} CallsAppend(calls: seq<Call>, answers: seq<bool>, call: Call, allowed: bool, key: string)
    requires |answers| == |calls|
    ensures Mine(calls + [call], key)
            == Mine(calls, key) + if call.key == key then [Request(call.now, call.route)] else []
    ensures RecordedFor(calls + [call], key)
            == RecordedFor(calls, key) + if call.key == key && !call.route.FailsUnrecorded? then [call.now] else []
    ensures LetInBy(calls + [call], answers + [allowed], key, true)
            == LetInBy(calls, answers, key, true)
               + if call.key == key && allowed && call.route.Answers? then [call.now] else []
    ensures LetInBy(calls + [call], answers + [allowed], key, false)
            == LetInBy(calls, answers, key, false)
               + if call.key == key && allowed && !call.route.Answers? then [call.now] else []
  {
    assert (calls + [call])[..|calls|] == calls && (answers + [allowed])[..|answers|] == answers;
  }

  lemma {:induction false} OtherCallAppends(calls: seq<Call>, answers: seq<bool>, call: Call, allowed: bool,
                                            key: string)
    requires |answers| == |calls| && call.key != key
    ensures Mine(calls + [call], key) == Mine(calls, key)
    ensures RecordedFor(calls + [call], key) == RecordedFor(calls, key)
    ensures LetInBy(calls + [call], answers + [allowed], key, true) == LetInBy(calls, answers, key, true)
    ensures LetInBy(calls + [call], answers + [allowed], key, false) == LetInBy(calls, answers, key, false)
  {
    CallsAppend(calls, answers, call, allowed, key);
  }

  lemma {:induction false} PlayedAppend(rs: seq<Request>, r: Request, window: nat, max: nat)
    ensures Played(rs + [r], window, max) == PlayStep(Played(rs, window, max), r, window, max)
  {
    assert (rs + [r])[..|rs|] == rs;
  }

  // What Check does to the state and answers, as its contract says.
  ghost predicate Checked(memory: map<string, seq<int>>, redis: map<string, Zset>, memory': map<string, seq<int>>,
                          redis': map<string, Zset>, call: Call, policy: Policy, allowed: bool) {
    var m := MemoryStep(AttemptsOf(memory, call.key), call.now, policy.window, policy.max);
    var r := RedisStep(ZsetOf(redis, call.key), call.now, policy.window, policy.max);
    && redis' == (if call.route.FailsUnrecorded? then redis else redis[call.key := r.0.value])
    && memory' == (if call.route.Answers? then memory else memory[call.key := m.0])
    && allowed == if call.route.Answers? then r.1 else m.1
  }

  lemma {:induction false} TiedStep(
      memory: map<string, seq<int>>, redis: map<string, Zset>, memory': map<string, seq<int>>,
      redis': map<string, Zset>, calls: seq<Call>, answers: seq<bool>, call: Call, policy: Policy, allowed: bool)
    requires |answers| == |calls| && Tied(memory, redis, calls, answers, call.key, policy)
    requires Checked(memory, redis, memory', redis', call, policy, allowed)
    ensures Tied(memory', redis', calls + [call], answers + [allowed], call.key, policy)
  {
    CallsAppend(calls, answers, call, allowed, call.key);
    PlayedAppend(Mine(calls, call.key), Request(call.now, call.route), policy.window, policy.max);
  }

  lemma {:induction false} MineInOrder(calls: seq<Call>, key: string, now: int)
    requires CallsInOrder(calls) && NoneLater(calls, now)
    ensures InOrder(Mine(calls, key))
    ensures forall i :: 0 <= i < |Mine(calls, key)| ==> Mine(calls, key)[i].time <= now
  {
    if calls != [] {
      var n := |calls| - 1;
      MineInOrder(calls[..n], key, calls[n].now);
    }
  }

  lemma {:induction false} KeptIsRecent(log: seq<int>, now: int, window: nat)
    ensures |Kept(log, now - window)| == Recent(log, now, window)
  {
    if log != [] {
      KeptIsRecent(log[..|log| - 1], now, window);
    }
  }

  // In the state of a run, a request is let in exactly by the recent ones that count.
  lemma {:induction false} KnowsDecides(p: Play, now: int, window: nat, max: nat)
    requires Knows(p, now, window)
    ensures MemoryStep(p.attempts, now, window, max).1 <==> Recent(p.byMemory, now, window) < max
    ensures RedisStep(p.z, now, window, max).1 <==> Recent(p.recorded, now, window) < max
  {
    KnowsRecent(p, now, window);
    StepsDecide(p.attempts, p.z, now, window, max);
  }

  // Either form lets a request in when fewer than max recent times are stored.
  lemma {:induction false} StepsDecide(attempts: seq<int>, z: Option<Zset>, now: int, window: nat, max: nat)
    ensures MemoryStep(attempts, now, window, max).1 <==> |Kept(attempts, now - window)| < max
    ensures RedisStep(z, now, window, max).1 <==> |Kept(Alive(z, now), now - window)| < max
  {
  }

  lemma {:induction false} KnowsRecent(p: Play, now: int, window: nat)
    requires Knows(p, now, window)
    ensures |Kept(p.attempts, now - window)| == Recent(p.byMemory, now, window)
    ensures |Kept(Alive(p.z, now), now - window)| == Recent(p.recorded, now, window)
  {
    KeptIsRecent(p.byMemory, now, window);
    KeptIsRecent(p.recorded, now, window);
  }

  lemma {:induction false} DecisionIsRight(
      memory: map<string, seq<int>>, redis: map<string, Zset>, memory': map<string, seq<int>>,
      redis': map<string, Zset>, calls: seq<Call>, answers: seq<bool>, call: Call, policy: string -> Policy,
      allowed: bool)
    requires |answers| == |calls| && CallsInOrder(calls) && NoneLater(calls, call.now)
    requires Tied(memory, redis, calls, answers, call.key, policy(call.key))
    requires Checked(memory, redis, memory', redis', call, policy(call.key), allowed)
    ensures AnsweredRight(calls + [call], answers + [allowed], |calls|, policy)
  {
    var n := |calls|;
    MineInOrder(calls, call.key, call.now);
    var Policy(window, max) := policy(call.key);
    RunBounded(Mine(calls, call.key), window, max, call.now);
    KnowsDecides(Played(Mine(calls, call.key), window, max), call.now, window, max);
    assert (calls + [call])[..n] == calls && (answers + [allowed])[..n] == answers;
  }

  // One more call, for every answer and every key.
  lemma {:induction false} RightAgain(
      memory: map<string, seq<int>>, redis: map<string, Zset>, memory': map<string, seq<int>>,
      redis': map<string, Zset>, calls: seq<Call>, answers: seq<bool>, call: Call, policy: string -> Policy,
      allowed: bool)
    requires |answers| == |calls| && CallsInOrder(calls) && NoneLater(calls, call.now)
    requires AllRight(calls, answers, policy) && AllTied(memory, redis, calls, answers, policy)
    requires Checked(memory, redis, memory', redis', call, policy(call.key), allowed)
    ensures AllRight(calls + [call], answers + [allowed], policy)
  {
    DecisionIsRight(memory, redis, memory', redis', calls, answers, call, policy, allowed);
    StillRight(calls, answers, call, allowed, policy);
  }

  lemma {:induction false} TiedAgain(
      memory: map<string, seq<int>>, redis: map<string, Zset>, memory': map<string, seq<int>>,
      redis': map<string, Zset>, calls: seq<Call>, answers: seq<bool>, call: Call, policy: string -> Policy,
      allowed: bool)
    requires |answers| == |calls| && AllTied(memory, redis, calls, answers, policy)
    requires Checked(memory, redis, memory', redis', call, policy(call.key), allowed)
    ensures AllTied(memory', redis', calls + [call], answers + [allowed], policy)
  {
    forall key ensures Tied(memory', redis', calls + [call], answers + [allowed], key, policy(key)) {
      assert Tied(memory, redis, calls, answers, key, policy(key));
      if key == call.key {
        TiedStep(memory, redis, memory', redis', calls, answers, call, policy(key), allowed);
      } else {
        OtherCallAppends(calls, answers, call, allowed, key);
      }
    }
  }

  ghost predicate AllTied(memory: map<string, seq<int>>, redis: map<string, Zset>, calls: seq<Call>,
                          answers: seq<bool>, policy: string -> Policy)
    requires |answers| == |calls|
  {
    forall key :: Tied(memory, redis, calls, answers, key, policy(key))
  }

  ghost predicate AllRight(calls: seq<Call>, answers: seq<bool>, policy: string -> Policy)
    requires |answers| == |calls|
  {
    forall i :: 0 <= i < |calls| ==> AnsweredRight(calls, answers, i, policy)
  }

  lemma {:induction false} EarlierCalls(calls: seq<Call>, i: nat)
    requires CallsInOrder(calls) && i < |calls|
    ensures CallsInOrder(calls[..i]) && NoneLater(calls[..i], calls[i].now)
  {
  }

  // Answers already given stay right.
  lemma {:induction false} StillRight(calls: seq<Call>, answers: seq<bool>, call: Call, allowed: bool,
                                      policy: string -> Policy)
    requires |answers| == |calls| && AllRight(calls, answers, policy)
    ensures forall j :: 0 <= j < |calls| ==> AnsweredRight(calls + [call], answers + [allowed], j, policy)
  {
    forall j | 0 <= j < |calls| ensures AnsweredRight(calls + [call], answers + [allowed], j, policy) {
      assert AnsweredRight(calls, answers, j, policy);
      assert (calls + [call])[..j] == calls[..j] && (answers + [allowed])[..j] == answers[..j];
    }
  }

  lemma {:induction false} TiedIsWithin(memory: map<string, seq<int>>, redis: map<string, Zset>, calls: seq<Call>,
                                        answers: seq<bool>, policy: string -> Policy)
    requires |answers| == |calls| && CallsInOrder(calls)
    requires AllTied(memory, redis, calls, answers, policy)
    ensures WithinPolicy(calls, answers, policy)
  {
    var now := if calls == [] then 0 else calls[|calls| - 1].now;
    forall key, lo ensures KeyWithin(calls, answers, key, policy(key), lo) {
      assert Tied(memory, redis, calls, answers, key, policy(key));
      MineInOrder(calls, key, now);
      JointBound(Mine(calls, key), policy(key).window, policy(key).max, lo);
    }
  }
}
