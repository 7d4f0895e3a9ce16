/**
 The password counter and lock of one account, shared by login and password change.

 Times are microseconds.  Unlike the second factor, a lock does not clear the counter.
 */
module PasswordLockout {
  import opened Basics

  const LOCK: int := 15 * 60 * 1_000_000
  const MAX_FAILED: nat := 5

  // verifies: a password against the stored hash; hash: what is stored for a new one.
  datatype Env = Env(verifies: (string, string) -> bool, hash: string -> string)

  datatype Account = Account(active: bool, passwordHash: string, mustChange: bool, failed: nat, lockedUntil: Option<int>)

  // The clock readings at the lock check and, if it comes to that, at the failure.
  datatype Clock = Clock(at: int, failAt: int)

  datatype Call =
    | Login(password: string)
    | ChangePassword(current: string, wanted: string)
    | AdminReset(password: string)

  datatype Event = Event(clock: Clock, call: Call)

  datatype Answer = Refused | Wrong | Unchanged | Accepted

  predicate Locked(a: Account, now: int) {
    a.lockedUntil.Some? && a.lockedUntil.value > now
  }

  function Failure(a: Account, now: int): Account {
    a.(failed := a.failed + 1, lockedUntil := if a.failed + 1 >= MAX_FAILED then Some(now + LOCK) else a.lockedUntil)
  }

  function Cleared(a: Account): Account {
    a.(failed := 0, lockedUntil := None)
  }

  function Next(env: Env, a: Account, e: Event): (Account, Answer) {
    match e.call
    case Login(password) =>
      if !a.active || Locked(a, e.clock.at) then (a, Refused)
      else if !env.verifies(password, a.passwordHash) then (Failure(a, e.clock.failAt), Wrong)
      else (Cleared(a), Accepted)
    case ChangePassword(current, wanted) =>
      if Locked(a, e.clock.at) then (a, Refused)
      else if !env.verifies(current, a.passwordHash) then (Failure(a, e.clock.failAt), Wrong)
      else if wanted == current then (a, Unchanged)
      else (Cleared(a.(passwordHash := env.hash(wanted), mustChange := false)), Accepted)
    case AdminReset(password) => (Cleared(a.(passwordHash := env.hash(password))), Accepted)
  }

  // The user row as the endpoints update it.
  class UserAccount {
    const env: Env
    var active: bool
    var passwordHash: string
    var mustChange: bool
    var failed: nat
    var lockedUntil: Option<int>

    constructor (env: Env, a: Account)
      ensures this.env == env && Value() == a
    {
      this.env := env;
      active, passwordHash, mustChange, failed, lockedUntil :=
        a.active, a.passwordHash, a.mustChange, a.failed, a.lockedUntil;
    }

    function Value(): Account
      reads this
    {
      Account(active, passwordHash, mustChange, failed, lockedUntil)
    }

    method SignIn(clock: Clock, password: string) returns (answer: Answer)
      modifies this
      ensures (Value(), answer) == Next(env, old(Value()), Event(clock, Login(password)))
    {
      if !active {
        return Refused;
      }
      if lockedUntil.Some? && lockedUntil.value > clock.at {
        return Refused;
      }
      if !env.verifies(password, passwordHash) {
        failed := failed + 1;
        if failed >= MAX_FAILED {
          lockedUntil := Some(clock.failAt + LOCK);
        }
        return Wrong;
      }
      failed, lockedUntil := 0, None;
      answer := Accepted;
    }

    method Change(clock: Clock, current: string, wanted: string) returns (answer: Answer)
      modifies this
      ensures (Value(), answer) == Next(env, old(Value()), Event(clock, ChangePassword(current, wanted)))
    {
      if lockedUntil.Some? && lockedUntil.value > clock.at {
        return Refused;
      }
      if !env.verifies(current, passwordHash) {
        failed := failed + 1;
        if failed >= MAX_FAILED {
          lockedUntil := Some(clock.failAt + LOCK);
        }
        return Wrong;
      }
      if wanted == current {
        return Unchanged;
      }
      passwordHash, mustChange := env.hash(wanted), false;
      failed, lockedUntil := 0, None;
      answer := Accepted;
    }
  }

  // ---------- runs ----------

  ghost predicate InOrder(es: seq<Event>) {
    && (forall i :: 0 <= i < |es| ==> es[i].clock.at <= es[i].clock.failAt)
    && (forall i, j :: 0 <= i < j < |es| ==> es[i].clock.failAt <= es[j].clock.at)
  }

  // Nothing in the run sets the counter back.
  predicate NoneAccepted(env: Env, a: Account, es: seq<Event>)
    decreases |es|
  {
    es == [] || (!Next(env, a, es[0]).1.Accepted? && NoneAccepted(env, Next(env, a, es[0]).0, es[1..]))
  }

  // Wrong passwords evaluated in requests that arrived from lo to hi.
  function Failures(env: Env, a: Account, es: seq<Event>, lo: int, hi: int): nat
    decreases |es|
  {
    if es == [] then 0
    else
      var (b, answer) := Next(env, a, es[0]);
      (if answer.Wrong? && lo <= es[0].clock.at <= hi then 1 else 0) + Failures(env, b, es[1..], lo, hi)
  }

  // How many more there can be: those left before the lock, then one for each lock.
  function Budget(a: Account, from: int, hi: int): int {
    var left := if a.failed < MAX_FAILED then MAX_FAILED - a.failed else 1;
    if from > hi then 0
    else if Locked(a, from) then
      if a.lockedUntil.value > hi then 0 else left + (hi - a.lockedUntil.value) / LOCK
    else left + (hi - from) / LOCK
  }

  lemma {:induction false} LocksIn(t: int, u: int)
    requires t <= u
    ensures t / LOCK <= u / LOCK && (t - LOCK) / LOCK == t / LOCK - 1
  {
  }

  lemma {:induction false} FailureSpendsBudget(a: Account, from: int, clock: Clock, hi: int)
    requires from <= clock.at <= clock.failAt && clock.at <= hi && !Locked(a, clock.at)
    ensures 1 + Budget(Failure(a, clock.failAt), clock.failAt, hi) <= Budget(a, from, hi)
  {
    LocksIn(0, hi - clock.at);
    if clock.failAt <= hi {
      LocksIn(0, hi - clock.failAt);
      LocksIn(hi - clock.failAt, hi - from);
      if Locked(a, from) {
        LocksIn(hi - clock.failAt, hi - a.lockedUntil.value);
      }
    }
    if Locked(a, from) {
      LocksIn(0, hi - a.lockedUntil.value);
    } else {
      LocksIn(0, hi - from);
    }
  }

  lemma {:induction false} BudgetShrinks(a: Account, from: int, later: int, hi: int)
    requires from <= later
    ensures 0 <= Budget(a, later, hi) <= Budget(a, from, hi)
  {
    if later <= hi {
      LocksIn(0, hi - later);
      LocksIn(hi - later, hi - from);
      if Locked(a, from) && !Locked(a, later) {
        LocksIn(hi - later, hi - a.lockedUntil.value);
      }
    }
  }

  // From any state, an interval of length t holds at most 5 + t div 15 min evaluated failures
  // if nothing sets the counter back; the requests before the interval only help.
  lemma {:induction false} LockoutBound(env: Env, a: Account, es: seq<Event>, lo: int, t: nat)
    requires InOrder(es) && NoneAccepted(env, a, es)
    ensures Failures(env, a, es, lo, lo + t) <= MAX_FAILED + t / LOCK
    decreases |es|
  {
    if es != [] {
      if es[0].clock.at < lo {
        LockoutBound(env, Next(env, a, es[0]).0, es[1..], lo, t);
      } else {
        FailuresWithinBudget(env, a, es, lo, lo, lo + t);
        if Locked(a, lo) && a.lockedUntil.value <= lo + t {
          assert (lo + t - a.lockedUntil.value) / LOCK <= t / LOCK;
        }
      }
    }
  }

  lemma {:induction false} FailuresWithinBudget(env: Env, a: Account, es: seq<Event>, from: int, lo: int, hi: int)
    requires InOrder(es) && NoneAccepted(env, a, es)
    requires es != [] ==> from <= es[0].clock.at
    ensures Failures(env, a, es, lo, hi) <= Budget(a, from, hi)
    decreases |es|
  {
    if es == [] {
      BudgetShrinks(a, from, from, hi);
    } else {
      var e := es[0];
      var (b, answer) := Next(env, a, e);
      FailuresWithinBudget(env, b, es[1..], e.clock.failAt, lo, hi);
      BudgetShrinks(a, from, e.clock.at, hi);
      if answer.Wrong? {
        if e.clock.at <= hi {
          FailureSpendsBudget(a, from, e.clock, hi);
        }
      } else {
        BudgetShrinks(a, from, e.clock.failAt, hi);
      }
    }
  }

  // ---------- exactly when a lock begins and ends ----------

  // An accepted password, at login or for a change, and a reset start over; at login nothing
  // else changes.
  lemma {:induction false} AcceptedStartsOver(env: Env, a: Account, e: Event)
    requires Next(env, a, e).1.Accepted?
    ensures var b := Next(env, a, e).0;
            && b.failed == 0 && b.lockedUntil == None && b.active == a.active
            && (e.call.Login? ==> b.passwordHash == a.passwordHash && b.mustChange == a.mustChange)
  {
  }

  predicate AllWrong(env: Env, a: Account, es: seq<Event>)
    decreases |es|
  {
    es == [] || (Next(env, a, es[0]).1.Wrong? && AllWrong(env, Next(env, a, es[0]).0, es[1..]))
  }

  function After(env: Env, a: Account, es: seq<Event>): Account
    decreases |es|
  {
    if es == [] then a else After(env, Next(env, a, es[0]).0, es[1..])
  }

  lemma {:induction false} WrongsCount(env: Env, a: Account, es: seq<Event>)
    requires AllWrong(env, a, es)
    ensures After(env, a, es)
            == if es == [] then a
               else a.(failed := a.failed + |es|,
                       lockedUntil := if a.failed + |es| >= 5
                                      then Some(es[|es| - 1].clock.failAt + 15 * 60 * 1_000_000) else a.lockedUntil)
    decreases |es|
  {
    if es != [] {
      WrongsCount(env, Next(env, a, es[0]).0, es[1..]);
    }
  }

  // From the fifth on, each wrong password in a row locks for fifteen minutes: then, and only
  // then, the right one is turned away.
  lemma {:induction false} FifthLocks(env: Env, a: Account, es: seq<Event>, clock: Clock, password: string)
    requires AllWrong(env, a, es) && a.failed == 0 && a.lockedUntil == None && a.active
    requires env.verifies(password, a.passwordHash)
    ensures Next(env, After(env, a, es), Event(clock, Login(password))).1
            == if |es| >= 5 && clock.at < es[|es| - 1].clock.failAt + 15 * 60 * 1_000_000 then Refused else Accepted
  {
    WrongsCount(env, a, es);
  }

  // A password verifies against the hash made of it and of no other.
  ghost predicate FaithfulHash(env: Env) {
    forall x, y :: Verifies(env, x, y) <==> x == y
  }

  predicate Verifies(env: Env, x: string, y: string) {
    env.verifies(x, env.hash(y))
  }

  // Once changed, the new password and no other lets the user in, at once.
  lemma {:induction false} NewPasswordCounts(env: Env, a: Account, e: Event, clock: Clock, password: string)
    requires FaithfulHash(env) && e.call.ChangePassword? && Next(env, a, e).1.Accepted?
    ensures var b := Next(env, a, e).0;
            && !b.mustChange && b.active == a.active
            && (Next(env, b, Event(clock, Login(password))).1.Accepted? <==> a.active && password == e.call.wanted)
            && e.call.wanted != e.call.current && env.verifies(e.call.current, a.passwordHash)
  {
    assert Verifies(env, password, e.call.wanted) <==> password == e.call.wanted;
  }
}
