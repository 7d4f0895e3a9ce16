/**
 The second factor of one user: enrolment, login step, disabling, lockout, replay
 protection of time-based codes and single-use backup codes.

 Times are microseconds.  Code generation, password hashing and secret encryption are
 arbitrary functions.
 */
module Mfa {
  import opened Basics

  const SECOND: int := 1_000_000
  const STEP_SECONDS: int := 30
  const LOCK: int := 15 * 60 * SECOND
  const MAX_FAILED: nat := 5
  const BACKUP_CODES: nat := 10

  // codeAt: the six digits of a secret at a step; verifies: a text against a stored hash.
  datatype Env = Env(codeAt: (string, int) -> string, verifies: (string, string) -> bool)

  function CurrentStep(now: int): int {
    now / (STEP_SECONDS * SECOND)
  }

  predicate IsTotpFormat(code: string) {
    |code| == 6 && AllDigits(code)
  }

  // ---------- time-based codes ----------

  predicate Acceptable(env: Env, secret: string, code: string, last: Option<int>, step: int) {
    env.codeAt(secret, step) == code && (last == None || step > last.value)
  }

  // The newest acceptable step within one of base.
  function AcceptedStep(env: Env, secret: string, code: string, last: Option<int>, base: int): (r: Option<int>)
    ensures r.Some? ==> base - 1 <= r.value <= base + 1 && Acceptable(env, secret, code, last, r.value)
    ensures forall step :: base - 1 <= step <= base + 1 && Acceptable(env, secret, code, last, step) ==>
              r.Some? && step <= r.value
  {
    if Acceptable(env, secret, code, last, base + 1) then Some(base + 1)
    else if Acceptable(env, secret, code, last, base) then Some(base)
    else if Acceptable(env, secret, code, last, base - 1) then Some(base - 1)
    else None
  }

  // Every candidate is compared; the last one that fits is returned.
  method VerifyTotp(env: Env, secret: string, code: string, last: Option<int>, now: int)
    returns (accepted: Option<int>)
    ensures IsTotpFormat(code) ==> accepted == AcceptedStep(env, secret, code, last, CurrentStep(now))
    ensures !IsTotpFormat(code) ==> accepted == None
  {
    accepted := None;
    if !IsTotpFormat(code) {
      return;
    }
    var base := CurrentStep(now);
    for step := base - 1 to base + 2
      invariant accepted.Some? ==>
        base - 1 <= accepted.value < step && Acceptable(env, secret, code, last, accepted.value)
      invariant forall s :: base - 1 <= s < step && Acceptable(env, secret, code, last, s) ==>
        accepted.Some? && s <= accepted.value
    {
      if env.codeAt(secret, step) == code && (last == None || step > last.value) {
        accepted := Some(step);
      }
    }
  }

  // ---------- backup codes ----------

  // Position of the first stored hash the code verifies against, or the length.
  function FirstMatch(env: Env, hashes: seq<string>, code: string): (i: nat)
    ensures i <= |hashes|
    ensures i < |hashes| ==> env.verifies(code, hashes[i])
    ensures forall j :: 0 <= j < i ==> !env.verifies(code, hashes[j])
  {
    if hashes == [] || env.verifies(code, hashes[0]) then 0
    else
      var i := FirstMatch(env, hashes[1..], code);
      assert forall j :: 0 < j < |hashes| ==> hashes[j] == hashes[1..][j - 1];
      i + 1
  }

  // The stored hashes without the one used, if the code is one of them.
  function Consumed(env: Env, hashes: seq<string>, code: string): Option<seq<string>> {
    var i := FirstMatch(env, hashes, code);
    if |code| != 10 || i == |hashes| then None else Some(hashes[..i] + hashes[i + 1..])
  }

  method ConsumeBackupCode(env: Env, stored: Option<seq<string>>, code: string) returns (left: Option<seq<string>>)
    ensures left == if stored == None then None else Consumed(env, stored.value, code)
  {
    if stored == None || |code| != 10 {
      return None;
    }
    var hashes := stored.value;
    var matchIndex: Option<nat> := None;
    for i := 0 to |hashes|
      invariant matchIndex.Some? ==> matchIndex.value < i && env.verifies(code, hashes[matchIndex.value])
      invariant forall j :: 0 <= j < (if matchIndex.Some? then matchIndex.value else i) ==>
                  !env.verifies(code, hashes[j])
    {
      if env.verifies(code, hashes[i]) && matchIndex == None {
        matchIndex := Some(i);
      }
    }
    if matchIndex == None {
      return None;
    }
    assert FirstMatch(env, hashes, code) == matchIndex.value;
    left := Some(hashes[..matchIndex.value] + hashes[matchIndex.value + 1..]);
  }

  function Matching(env: Env, hashes: seq<string>, code: string): nat {
    if hashes == [] then 0
    else (if env.verifies(code, hashes[0]) then 1 else 0) + Matching(env, hashes[1..], code)
  }

  // A code is accepted exactly when it matches a stored hash.
  lemma {:induction false} ConsumedIffMatching(env: Env, hashes: seq<string>, code: string)
    ensures FirstMatch(env, hashes, code) < |hashes| <==> Matching(env, hashes, code) > 0
    ensures Consumed(env, hashes, code).Some? <==> |code| == 10 && Matching(env, hashes, code) > 0
  {
    if hashes != [] {
      ConsumedIffMatching(env, hashes[1..], code);
    }
  }

  // What is left after the first element, when that is not the one taken.
  lemma {:induction false} ConsumedTail(env: Env, hashes: seq<string>, code: string)
    requires hashes != [] && !env.verifies(code, hashes[0]) && Consumed(env, hashes, code).Some?
    ensures Consumed(env, hashes[1..], code).Some?
    ensures Consumed(env, hashes, code).value == [hashes[0]] + Consumed(env, hashes[1..], code).value
  {
    var i := FirstMatch(env, hashes[1..], code);
    assert FirstMatch(env, hashes, code) == i + 1;
    assert hashes[..i + 1] == [hashes[0]] + hashes[1..][..i];
    assert hashes[i + 2..] == hashes[1..][i + 1..];
  }

  // Using a code takes one stored hash that it matches away, and no other.
  lemma {:induction false} ConsumeTakesOne(env: Env, hashes: seq<string>, code: string)
    ensures Consumed(env, hashes, code).Some? <==> |code| == 10 && Matching(env, hashes, code) > 0
    ensures Consumed(env, hashes, code).Some? ==>
              var left := Consumed(env, hashes, code).value;
              && |left| == |hashes| - 1 && Matching(env, left, code) == Matching(env, hashes, code) - 1
              && multiset(left) <= multiset(hashes)
  {
    ConsumedIffMatching(env, hashes, code);
    if Consumed(env, hashes, code).Some? {
      assert hashes == [hashes[0]] + hashes[1..];
      if env.verifies(code, hashes[0]) {
        assert hashes[..0] + hashes[1..] == hashes[1..];
      } else {
        ConsumedTail(env, hashes, code);
        ConsumeTakesOne(env, hashes[1..], code);
        var rest := Consumed(env, hashes[1..], code).value;
        assert ([hashes[0]] + rest)[1..] == rest;
      }
    }
  }

  // ---------- one user ----------

  datatype User = User(
    enabled: bool, secret: Option<string>, lastStep: Option<int>, backup: Option<seq<string>>,
    failed: nat, lockedUntil: Option<int>)

  // The clock readings of one request: at the lock check, at the code, at a failure.
  datatype Clock = Clock(at: int, codeAt: int, failAt: int)

  // broken: the code could not be checked (no key, unreadable secret), nothing is stored.
  datatype Call =
    | Setup(secret: string, broken: bool)
    | Enable(code: string, hashes: seq<string>, broken: bool)
    | Disable(passwordOk: bool, superAdmin: bool, code: string, broken: bool)
    | Login(active: bool, code: string, broken: bool)
    | Reset

  datatype Event = Event(clock: Clock, call: Call)

  datatype Kind = Totp(step: int) | Backup

  datatype Answer =
    | Refused
    | Unavailable
    | Wrong
    | Passed(kind: Kind)
    | Started
    | Cleared

  predicate Locked(u: User, now: int) {
    u.lockedUntil.Some? && u.lockedUntil.value > now
  }

  function Failure(u: User, now: int): User {
    if u.failed + 1 >= MAX_FAILED then u.(failed := 0, lockedUntil := Some(now + LOCK))
    else u.(failed := u.failed + 1)
  }

  function WithoutCounters(u: User): User {
    u.(failed := 0, lockedUntil := None)
  }

  function CheckCode(env: Env, u: User, code: string, allowBackup: bool, now: int): (User, Option<Kind>)
    requires IsTotpFormat(code) ==> u.secret.Some?
  {
    if IsTotpFormat(code) then
      match AcceptedStep(env, u.secret.value, code, u.lastStep, CurrentStep(now))
      case None => (u, None)
      case Some(step) => (u.(lastStep := Some(step)), Some(Totp(step)))
    else if !allowBackup || u.backup == None then (u, None)
    else
      match Consumed(env, u.backup.value, code)
      case None => (u, None)
      case Some(left) => (u.(backup := Some(left)), Some(Backup))
  }

  // What is left of the user once a check passed.
  function AfterPass(u: User, call: Call): User {
    match call
    case Enable(_, hashes, _) => WithoutCounters(u.(enabled := true, backup := Some(hashes)))
    case Disable(_, _, _, _) => User(false, None, None, None, 0, None)
    case _ => WithoutCounters(u)
  }

  // The request is turned away before any code is looked at.
  predicate TurnedAway(u: User, e: Event) {
    match e.call
    case Setup(_, _) => u.enabled
    case Enable(_, _, _) => u.enabled || u.secret == None || Locked(u, e.clock.at)
    case Disable(_, superAdmin, _, _) => superAdmin || !u.enabled || Locked(u, e.clock.at)
    case Login(active, _, _) => !active || !u.enabled || u.secret == None || Locked(u, e.clock.at)
    case Reset => false
  }

  // The secret is needed and cannot be read; a backup code needs none.
  predicate CannotCheck(u: User, call: Call)
    requires !call.Setup? && !call.Reset?
  {
    !PasswordWrong(call) && IsTotpFormat(call.code) && (call.broken || u.secret == None)
  }

  predicate PasswordWrong(call: Call) {
    match call case Disable(passwordOk, _, _, _) => !passwordOk case _ => false
  }

  function Next(env: Env, u: User, e: Event): (User, Answer) {
    if TurnedAway(u, e) then (u, Refused)
    else
      match e.call
      case Reset => (User(false, None, None, None, 0, None), Cleared)
      case Setup(secret, broken) =>
        if broken then (u, Unavailable) else (u.(secret := Some(secret), lastStep := None), Started)
      case call =>
        if CannotCheck(u, call) then (u, Unavailable)
        else
          var (v, kind) := if PasswordWrong(call) then (u, None)
                           else CheckCode(env, u, call.code, !call.Enable?, e.clock.codeAt);
          if kind == None then (Failure(u, e.clock.failAt), Wrong)
          else (AfterPass(v, call), Passed(kind.value))
  }

  // The user row as the endpoints update it.
  class MfaUser {
    const env: Env
    var enabled: bool
    var secret: Option<string>
    var lastStep: Option<int>
    var backup: Option<seq<string>>
    var failed: nat
    var lockedUntil: Option<int>

    constructor (env: Env, u: User)
      ensures this.env == env && Value() == u
    {
      this.env := env;
      enabled, secret, lastStep, backup := u.enabled, u.secret, u.lastStep, u.backup;
      failed, lockedUntil := u.failed, u.lockedUntil;
    }

    function Value(): User
      reads this
    {
      User(enabled, secret, lastStep, backup, failed, lockedUntil)
    }

    method RegisterFailure(now: int)
      modifies this`failed, this`lockedUntil
      ensures Value() == Failure(old(Value()), now)
    {
      failed := failed + 1;
      if failed >= MAX_FAILED {
        lockedUntil := Some(now + LOCK);
        failed := 0;
      }
    }

    method Check(code: string, allowBackup: bool, now: int) returns (kind: Option<Kind>)
      requires IsTotpFormat(code) ==> secret.Some?
      modifies this`lastStep, this`backup
      ensures (Value(), kind) == CheckCode(env, old(Value()), code, allowBackup, now)
    {
      if IsTotpFormat(code) {
        var step := VerifyTotp(env, secret.value, code, lastStep, now);
        if step == None {
          return None;
        }
        lastStep := step;
        return Some(Totp(step.value));
      }
      if !allowBackup {
        return None;
      }
      var left := ConsumeBackupCode(env, backup, code);
      if left == None {
        return None;
      }
      backup := left;
      kind := Some(Backup);
    }

    method ClearMfa()
      modifies this
      ensures Value() == User(false, None, None, None, 0, None)
    {
      enabled, secret, lastStep, backup := false, None, None, None;
      failed, lockedUntil := 0, None;
    }

    method MfaSetup(clock: Clock, newSecret: string, broken: bool) returns (answer: Answer)
      modifies this
      ensures (Value(), answer) == Next(env, old(Value()), Event(clock, Setup(newSecret, broken)))
    {
      if enabled {
        return Refused;
      }
      if broken {
        return Unavailable;
      }
      secret, lastStep := Some(newSecret), None;
      answer := Started;
    }

    method MfaEnable(clock: Clock, code: string, hashes: seq<string>, broken: bool) returns (answer: Answer)
      modifies this
      ensures (Value(), answer) == Next(env, old(Value()), Event(clock, Enable(code, hashes, broken)))
    {
      if enabled || secret == None || Locked(Value(), clock.at) {
        return Refused;
      }
      if IsTotpFormat(code) && broken {
        return Unavailable;
      }
      var kind := Check(code, false, clock.codeAt);
      if kind == None {
        RegisterFailure(clock.failAt);
        return Wrong;
      }
      backup, enabled := Some(hashes), true;
      failed, lockedUntil := 0, None;
      answer := Passed(kind.value);
    }

    method MfaDisable(clock: Clock, passwordOk: bool, superAdmin: bool, code: string, broken: bool)
      returns (answer: Answer)
      modifies this
      ensures (Value(), answer) == Next(env, old(Value()), Event(clock, Disable(passwordOk, superAdmin, code, broken)))
    {
      if superAdmin || !enabled || Locked(Value(), clock.at) {
        return Refused;
      }
      var kind: Option<Kind> := None;
      if passwordOk {
        if IsTotpFormat(code) && (broken || secret == None) {
          return Unavailable;
        }
        kind := Check(code, true, clock.codeAt);
      }
      if kind == None {
        RegisterFailure(clock.failAt);
        return Wrong;
      }
      ClearMfa();
      answer := Passed(kind.value);
    }

    method LoginMfa(clock: Clock, active: bool, code: string, broken: bool) returns (answer: Answer)
      modifies this
      ensures (Value(), answer) == Next(env, old(Value()), Event(clock, Login(active, code, broken)))
    {
      if !active || !enabled || secret == None || Locked(Value(), clock.at) {
        return Refused;
      }
      if IsTotpFormat(code) && broken {
        return Unavailable;
      }
      var kind := Check(code, true, clock.codeAt);
      if kind == None {
        RegisterFailure(clock.failAt);
        return Wrong;
      }
      failed, lockedUntil := 0, None;
      answer := Passed(kind.value);
    }
  }

  // ---------- runs ----------

  function After(env: Env, u: User, es: seq<Event>): User
    decreases |es|
  {
    if es == [] then u else After(env, Next(env, u, es[0]).0, es[1..])
  }

  function Answers(env: Env, u: User, es: seq<Event>): (answers: seq<Answer>)
    ensures |answers| == |es|
    decreases |es|
  {
    if es == [] then [] else [Next(env, u, es[0]).1] + Answers(env, Next(env, u, es[0]).0, es[1..])
  }

  // Requests are served one after another on a clock that does not run back.
  ghost predicate InOrder(es: seq<Event>) {
    && (forall i :: 0 <= i < |es| ==> es[i].clock.at <= es[i].clock.codeAt <= es[i].clock.failAt)
    && (forall i, j :: 0 <= i < j < |es| ==> es[i].clock.failAt <= es[j].clock.at)
  }

  // ---------- lockout ----------

  // Nothing in the run sets the counter back: no check passes and no one resets.
  ghost predicate NoneSucceeds(env: Env, u: User, es: seq<Event>) {
    forall i :: 0 <= i < |es| ==> !Answers(env, u, es)[i].Passed? && !Answers(env, u, es)[i].Cleared?
  }

  // How many codes were found wrong in requests that arrived from lo to hi.
  function Failures(env: Env, u: User, es: seq<Event>, lo: int, hi: int): nat
    decreases |es|
  {
    if es == [] then 0
    else
      var (v, answer) := Next(env, u, es[0]);
      (if answer.Wrong? && lo <= es[0].clock.at <= hi then 1 else 0) + Failures(env, v, es[1..], lo, hi)
  }

  // How many more can be: five less those counted, and five for each lock that can pass.
  function Budget(u: User, from: int, hi: int): int {
    if from > hi then 0
    else if Locked(u, from) then
      if u.lockedUntil.value > hi then 0 else 5 * ((hi - u.lockedUntil.value) / LOCK + 1)
    else (if u.failed < 5 then 5 - u.failed else 1) + 5 * ((hi - from) / LOCK)
  }

  lemma {:induction false} LocksFit(a: int, b: int)
    requires a <= b
    ensures a / LOCK <= b / LOCK
  {
  }

  lemma {:induction false} FailureSpendsBudget(u: User, from: int, clock: Clock, hi: int)
    requires from <= clock.at <= clock.failAt && clock.at <= hi && !Locked(u, clock.at)
    ensures 1 + Budget(Failure(u, clock.failAt), clock.failAt, hi) <= Budget(u, from, hi)
  {
    if clock.failAt <= hi {
      LocksFit(hi - clock.failAt, hi - clock.at);
      LocksFit(hi - clock.at, hi - from);
      if Locked(u, from) {
        LocksFit(hi - clock.at, hi - u.lockedUntil.value);
      }
    }
  }

  // Waiting and being refused never widens the budget.
  lemma {:induction false} BudgetShrinks(u: User, from: int, later: int, hi: int)
    requires from <= later
    ensures 0 <= Budget(u, later, hi) <= Budget(u, from, hi)
  {
    if later <= hi {
      assert (hi - later) / LOCK <= (hi - from) / LOCK;
      if Locked(u, from) && !Locked(u, later) {
        assert (hi - later) / LOCK <= (hi - u.lockedUntil.value) / LOCK;
      }
    }
  }

  lemma {:induction false} FailuresWithinBudget(env: Env, u: User, es: seq<Event>, from: int, lo: int, hi: int)
    requires InOrder(es) && NoneSucceeds(env, u, es)
    requires es != [] ==> from <= es[0].clock.at
    ensures Failures(env, u, es, lo, hi) <= Budget(u, from, hi)
    decreases |es|
  {
    if es == [] {
      BudgetShrinks(u, from, from, hi);
    } else {
      var e := es[0];
      var (v, answer) := Next(env, u, e);
      AnswersTail(env, u, es);
      FailuresWithinBudget(env, v, es[1..], e.clock.failAt, lo, hi);
      BudgetShrinks(u, from, e.clock.at, hi);
      if answer.Wrong? {
        if e.clock.at <= hi {
          FailureSpendsBudget(u, from, e.clock, hi);
        }
      } else {
        BudgetShrinks(u, from, e.clock.failAt, hi);
      }
    }
  }

  lemma {:induction false} AnswersTail(env: Env, u: User, es: seq<Event>)
    requires es != []
    ensures Answers(env, u, es)[0] == Next(env, u, es[0]).1
    ensures Answers(env, u, es)[1..] == Answers(env, Next(env, u, es[0]).0, es[1..])
  {
  }

  // In any run without a success or reset, any interval of length t holds at most
  // 5 * (t div 15 min + 1) failed checks, whatever the state before it.
  lemma {:induction false} LockoutBound(env: Env, u: User, es: seq<Event>, lo: int, t: nat)
    requires InOrder(es) && NoneSucceeds(env, u, es)
    ensures Failures(env, u, es, lo, lo + t) <= 5 * (t / LOCK + 1)
    decreases |es|
  {
    if es != [] {
      if es[0].clock.at < lo {
        AnswersTail(env, u, es);
        LockoutBound(env, Next(env, u, es[0]).0, es[1..], lo, t);
      } else {
        FailuresWithinBudget(env, u, es, lo, lo, lo + t);
        if Locked(u, lo) && u.lockedUntil.value <= lo + t {
          assert (lo + t - u.lockedUntil.value) / LOCK <= t / LOCK;
        }
      }
    }
  }

  // ---------- replay protection ----------

  // Nobody starts a new enrolment or wipes the old one.
  ghost predicate OneEnrolment(env: Env, u: User, es: seq<Event>) {
    forall i :: 0 <= i < |es| ==> !Answers(env, u, es)[i].Started? && !Answers(env, u, es)[i].Cleared?
  }

  // The time steps accepted in the run, in order.
  function AcceptedSteps(env: Env, u: User, es: seq<Event>): seq<int>
    decreases |es|
  {
    if es == [] then []
    else
      var (v, answer) := Next(env, u, es[0]);
      (if answer.Passed? && answer.kind.Totp? then [answer.kind.step] else []) + AcceptedSteps(env, v, es[1..])
  }

  ghost predicate Rising(steps: seq<int>) {
    forall i, j :: 0 <= i < j < |steps| ==> steps[i] < steps[j]
  }

  // Without a secret nothing passes by time-based code; disabling ends the enrolment.
  lemma {:induction false} NoSecretNoSteps(env: Env, u: User, es: seq<Event>)
    requires u.secret == None && OneEnrolment(env, u, es)
    ensures AcceptedSteps(env, u, es) == []
    decreases |es|
  {
    if es != [] {
      AnswersTail(env, u, es);
      NoSecretNoSteps(env, Next(env, u, es[0]).0, es[1..]);
    }
  }

  // Strictly increasing, newer than the last one before, and between the bounds.
  ghost predicate RisingWithin(steps: seq<int>, last: Option<int>, lo: int, hi: int) {
    && Rising(steps)
    && (forall i :: 0 <= i < |steps| ==> lo <= steps[i] <= hi)
    && (last.Some? ==> forall i :: 0 <= i < |steps| ==> steps[i] > last.value)
  }

  // Within one enrolment every accepted step is newer than all before it and within one of
  // the step at which it was checked: no step is accepted twice.
  lemma {:induction false} StepsRise(env: Env, u: User, es: seq<Event>, lo: int, hi: int)
    requires OneEnrolment(env, u, es)
    requires forall i :: 0 <= i < |es| ==> lo <= CurrentStep(es[i].clock.codeAt) <= hi
    ensures RisingWithin(AcceptedSteps(env, u, es), u.lastStep, lo - 1, hi + 1)
    decreases |es|
  {
    if es != [] {
      var e, rest := es[0], es[1..];
      var (v, answer) := Next(env, u, e);
      AnswersTail(env, u, es);
      StepTaken(env, u, e);
      assert forall i :: 0 <= i < |rest| ==> rest[i] == es[i + 1];
      if v.secret == None {
        NoSecretNoSteps(env, v, rest);
      } else {
        StepsRise(env, v, rest, lo, hi);
      }
      if answer.Passed? && answer.kind.Totp? {
        StepFirst(answer.kind.step, AcceptedSteps(env, v, rest), u.lastStep, lo - 1, hi + 1);
      } else {
        assert [] + AcceptedSteps(env, v, rest) == AcceptedSteps(env, v, rest);
      }
    }
  }

  // What one request does to the last accepted step, unless it ends the enrolment.
  lemma {:induction false} StepTaken(env: Env, u: User, e: Event)
    requires !Next(env, u, e).1.Started? && !Next(env, u, e).1.Cleared?
    ensures var (v, answer) := Next(env, u, e);
            if answer.Passed? && answer.kind.Totp? then
              && CurrentStep(e.clock.codeAt) - 1 <= answer.kind.step <= CurrentStep(e.clock.codeAt) + 1
              && (u.lastStep.Some? ==> answer.kind.step > u.lastStep.value)
              && (v.secret == None || v.lastStep == Some(answer.kind.step))
            else v.secret == None || v.lastStep == u.lastStep
  {
  }

  lemma {:induction false} StepFirst(step: int, later: seq<int>, last: Option<int>, lo: int, hi: int)
    requires later == [] || RisingWithin(later, Some(step), lo, hi)
    requires lo <= step <= hi && (last.Some? ==> step > last.value)
    ensures RisingWithin([step] + later, last, lo, hi)
  {
  }

  lemma {:induction false} RisingIsShort(steps: seq<int>, lo: int, hi: int)
    requires Rising(steps) && forall i :: 0 <= i < |steps| ==> lo <= steps[i] <= hi
    requires lo <= hi + 1
    ensures |steps| <= hi - lo + 1
  {
    if steps != [] {
      var n := |steps| - 1;
      forall i | 0 <= i < n ensures steps[i] <= steps[n] - 1 {
      }
      RisingIsShort(steps[..n], lo, steps[n] - 1);
    }
  }

  // So at most step(t2) - step(t1) + 3 time-based codes pass from t1 to t2.
  lemma {:induction false} StepsBound(env: Env, u: User, es: seq<Event>, t1: int, t2: int)
    requires OneEnrolment(env, u, es) && t1 <= t2
    requires forall i :: 0 <= i < |es| ==> t1 <= es[i].clock.codeAt <= t2
    ensures |AcceptedSteps(env, u, es)| <= t2 / 30_000_000 - t1 / 30_000_000 + 3
  {
    forall i | 0 <= i < |es|
      ensures CurrentStep(t1) <= CurrentStep(es[i].clock.codeAt) <= CurrentStep(t2)
    {
      StepMonotone(t1, es[i].clock.codeAt);
      StepMonotone(es[i].clock.codeAt, t2);
    }
    StepMonotone(t1, t2);
    StepsRise(env, u, es, CurrentStep(t1), CurrentStep(t2));
    RisingIsShort(AcceptedSteps(env, u, es), CurrentStep(t1) - 1, CurrentStep(t2) + 1);
  }

  lemma {:induction false} StepMonotone(a: int, b: int)
    requires a <= b
    ensures CurrentStep(a) <= CurrentStep(b)
  {
  }

  // ---------- backup codes over a run ----------

  function BackupPasses(env: Env, u: User, es: seq<Event>): nat
    decreases |es|
  {
    if es == [] then 0
    else
      var (v, answer) := Next(env, u, es[0]);
      (if answer.Passed? && answer.kind.Backup? then 1 else 0) + BackupPasses(env, v, es[1..])
  }

  // While the factor stays enabled, stored codes plus codes used stay the same number.
  lemma {:induction false} BackupCodesAddUp(env: Env, u: User, es: seq<Event>)
    requires u.enabled && u.backup.Some?
    requires forall k :: 0 <= k <= |es| ==> After(env, u, es[..k]).enabled
    ensures After(env, u, es).backup.Some?
    ensures |After(env, u, es).backup.value| + BackupPasses(env, u, es) == |u.backup.value|
    decreases |es|
  {
    if es != [] {
      var v, rest := Next(env, u, es[0]).0, es[1..];
      forall k | 0 <= k <= |rest| ensures After(env, v, rest[..k]).enabled {
        assert es[..k + 1][1..] == rest[..k];
        assert After(env, u, es[..k + 1]).enabled;
      }
      assert rest[..0] == [];
      assert After(env, v, []).enabled;
      if Next(env, u, es[0]).1.Passed? && !es[0].call.Disable? && !IsTotpFormat(es[0].call.code) {
        ConsumeTakesOne(env, u.backup.value, es[0].call.code);
      }
      BackupCodesAddUp(env, v, rest);
    }
  }

  // Enabling issues ten codes; from then on what is stored and what was used total ten.
  lemma {:induction false} TenBackupCodes(env: Env, u: User, e: Event, es: seq<Event>)
    requires e.call.Enable? && |e.call.hashes| == BACKUP_CODES && Next(env, u, e).1.Passed?
    requires forall k :: 0 <= k <= |es| ==> After(env, Next(env, u, e).0, es[..k]).enabled
    ensures var v := Next(env, u, e).0;
            && After(env, v, es).backup.Some?
            && |After(env, v, es).backup.value| + BackupPasses(env, v, es) == 10
  {
    BackupCodesAddUp(env, Next(env, u, e).0, es);
  }

  // ---------- exactly when a lock begins and ends ----------

  // A check that passes starts over: no failures, no lock.
  lemma {:induction false} PassStartsOver(env: Env, u: User, e: Event)
    requires Next(env, u, e).1.Passed?
    ensures Next(env, u, e).0.failed == 0 && Next(env, u, e).0.lockedUntil == None
    ensures match e.call
            case Enable(_, hashes, _) => Next(env, u, e).0.enabled && Next(env, u, e).0.backup == Some(hashes)
            case Disable(_, _, _, _) => !Next(env, u, e).0.enabled && Next(env, u, e).0.secret == None
                                        && Next(env, u, e).0.backup == None && Next(env, u, e).0.lastStep == None
            case _ => Next(env, u, e).0.enabled && Next(env, u, e).0.secret == u.secret
  {
  }

  ghost predicate AllWrong(env: Env, u: User, es: seq<Event>) {
    forall i :: 0 <= i < |es| ==> Answers(env, u, es)[i].Wrong?
  }

  lemma {:induction false} WrongsCount(env: Env, u: User, es: seq<Event>)
    requires AllWrong(env, u, es) && u.lockedUntil == None && u.failed < 5 && u.failed + |es| <= 5
    ensures After(env, u, es)
            == if u.failed + |es| < 5 then u.(failed := u.failed + |es|)
               else u.(failed := 0, lockedUntil := Some(es[|es| - 1].clock.failAt + 15 * 60 * 1_000_000))
    decreases |es|
  {
    if es != [] {
      var v, answers := Next(env, u, es[0]).0, Answers(env, u, es);
      assert answers[0] == Next(env, u, es[0]).1;
      assert forall i :: 0 <= i < |es| - 1 ==> answers[i + 1] == Answers(env, v, es[1..])[i];
      if u.failed + 1 < 5 {
        WrongsCount(env, v, es[1..]);
      } else {
        assert es[1..] == [];
      }
    }
  }

  // Four wrong codes in a row leave the user free, the fifth locks: the next login is turned
  // away exactly in the fifteen minutes after it, apart from what turns it away anyway.
  lemma {:induction false} FifthLocks(env: Env, u: User, es: seq<Event>, clock: Clock, code: string, broken: bool)
    requires AllWrong(env, u, es) && |es| <= 5 && u.failed == 0 && u.lockedUntil == None
    requires u.enabled && u.secret.Some?
    ensures Next(env, After(env, u, es), Event(clock, Login(true, code, broken))).1.Refused?
            <==> |es| == 5 && clock.at < es[4].clock.failAt + 15 * 60 * 1_000_000
  {
    WrongsCount(env, u, es);
  }

  // ---------- exactly which checks pass ----------

  predicate SixDigits(code: string) {
    |code| == 6 && forall i :: 0 <= i < 6 ==> '0' <= code[i] <= '9'
  }

  // The code of a step of 30 seconds at most one away from now, and newer than the last used.
  ghost predicate TotpFits(env: Env, u: User, code: string, now: int)
    requires u.secret.Some?
  {
    exists step :: StepFits(env, u, code, now, step)
  }

  predicate StepFits(env: Env, u: User, code: string, now: int, step: int)
    requires u.secret.Some?
  {
    && now / 30_000_000 - 1 <= step <= now / 30_000_000 + 1
    && env.codeAt(u.secret.value, step) == code && (u.lastStep.Some? ==> step > u.lastStep.value)
  }

  // Ten characters that verify against one of the stored hashes.
  ghost predicate BackupFits(env: Env, u: User, code: string) {
    u.backup.Some? && |code| == 10 && exists i :: 0 <= i < |u.backup.value| && env.verifies(code, u.backup.value[i])
  }

  lemma {:induction false} FormatIs(code: string)
    ensures IsTotpFormat(code) <==> SixDigits(code)
  {
  }

  lemma {:induction false} TotpFound(env: Env, u: User, code: string, now: int)
    requires u.secret.Some?
    ensures var found := AcceptedStep(env, u.secret.value, code, u.lastStep, CurrentStep(now));
            && (found.Some? <==> TotpFits(env, u, code, now))
            && (found.Some? ==> StepFits(env, u, code, now, found.value)
                                && forall step :: StepFits(env, u, code, now, step) ==> step <= found.value)
  {
    var found := AcceptedStep(env, u.secret.value, code, u.lastStep, CurrentStep(now));
    forall step | StepFits(env, u, code, now, step) ensures found.Some? && step <= found.value {
      assert Acceptable(env, u.secret.value, code, u.lastStep, step);
    }
    if found.Some? {
      assert StepFits(env, u, code, now, found.value);
    }
  }

  lemma {:induction false} BackupFound(env: Env, u: User, code: string)
    requires u.backup.Some?
    ensures var left := Consumed(env, u.backup.value, code);
            && (left.Some? <==> BackupFits(env, u, code))
            && (left.Some? ==> |left.value| == |u.backup.value| - 1)
  {
    var i := FirstMatch(env, u.backup.value, code);
    if i < |u.backup.value| {
      assert env.verifies(code, u.backup.value[i]);
    }
  }

  // A check of a code, by either kind: whether it passes, and what it leaves.
  lemma {:induction false} CheckExactly(env: Env, u: User, code: string, allowBackup: bool, now: int)
    requires u.secret.Some?
    ensures var (v, kind) := CheckCode(env, u, code, allowBackup, now);
            && (kind.Some? <==> if SixDigits(code) then TotpFits(env, u, code, now)
                                else allowBackup && BackupFits(env, u, code))
            && (kind.None? ==> v == u)
            && (kind.Some? && SixDigits(code) ==>
                  kind.value.Totp? && StepFits(env, u, code, now, kind.value.step)
                  && v == u.(lastStep := Some(kind.value.step)))
            && (kind.Some? && !SixDigits(code) ==>
                  kind.value.Backup? && v.backup.Some? && |v.backup.value| == |u.backup.value| - 1
                  && v == u.(backup := v.backup))
  {
    FormatIs(code);
    TotpFound(env, u, code, now);
    if u.backup.Some? {
      BackupFound(env, u, code);
    }
  }

  predicate Held(u: User, now: int) {
    u.lockedUntil.Some? && now < u.lockedUntil.value
  }

  // The login step: turned away, unable to check, passed or wrong, exactly so.
  lemma {:induction false} LoginExactly(env: Env, u: User, clock: Clock, active: bool, code: string, broken: bool)
    ensures var (v, answer) := Next(env, u, Event(clock, Login(active, code, broken)));
            if !active || !u.enabled || u.secret == None || Held(u, clock.at) then answer == Refused && v == u
            else if SixDigits(code) && broken then answer == Unavailable && v == u
            else
              && (answer.Passed? <==> if SixDigits(code) then TotpFits(env, u, code, clock.codeAt)
                                      else BackupFits(env, u, code))
              && (!answer.Passed? ==> answer == Wrong && v.secret == u.secret && v.lastStep == u.lastStep
                                      && v.backup == u.backup && v.enabled)
              && (answer.Passed? ==> v.enabled && (answer.kind.Totp? <==> SixDigits(code)))
  {
    FormatIs(code);
    if u.secret.Some? {
      CheckExactly(env, u, code, true, clock.codeAt);
    }
  }

  // Confirming an enrolment takes a time-based code; a backup code is of no use.
  lemma {:induction false} EnableExactly(env: Env, u: User, clock: Clock, code: string, hashes: seq<string>,
                                         broken: bool)
    ensures var (v, answer) := Next(env, u, Event(clock, Enable(code, hashes, broken)));
            if u.enabled || u.secret == None || Held(u, clock.at) then answer == Refused && v == u
            else if SixDigits(code) && broken then answer == Unavailable && v == u
            else
              && (answer.Passed? <==> SixDigits(code) && TotpFits(env, u, code, clock.codeAt))
              && (!answer.Passed? ==> answer == Wrong && !v.enabled && v.secret == u.secret && v.lastStep == u.lastStep)
              && (answer.Passed? ==> v.enabled && v.secret == u.secret && v.backup == Some(hashes)
                                     && answer.kind.Totp? && v.lastStep == Some(answer.kind.step))
  {
    FormatIs(code);
    if u.secret.Some? {
      CheckExactly(env, u, code, false, clock.codeAt);
    }
  }

  // Disabling takes the password and a code; a wrong password counts as a wrong code whatever
  // the code is.
  lemma {:induction false} DisableExactly(env: Env, u: User, clock: Clock, passwordOk: bool, superAdmin: bool,
                                          code: string, broken: bool)
    requires u.secret.Some?
    ensures var (v, answer) := Next(env, u, Event(clock, Disable(passwordOk, superAdmin, code, broken)));
            if superAdmin || !u.enabled || Held(u, clock.at) then answer == Refused && v == u
            else if passwordOk && SixDigits(code) && broken then answer == Unavailable && v == u
            else
              && (answer.Passed? <==>
                    passwordOk && if SixDigits(code) then TotpFits(env, u, code, clock.codeAt) else BackupFits(env, u, code))
              && (!answer.Passed? ==> answer == Wrong && v.enabled && v.secret == u.secret
                                      && v.lastStep == u.lastStep && v.backup == u.backup)
              && (answer.Passed? ==> v == User(false, None, None, None, 0, None))
  {
    FormatIs(code);
    CheckExactly(env, u, code, true, clock.codeAt);
  }

  // Setup takes a new secret while the factor is off, and a reset wipes everything.
  lemma {:induction false} SetupAndReset(env: Env, u: User, clock: Clock, secret: string, broken: bool)
    ensures Next(env, u, Event(clock, Setup(secret, broken)))
            == if u.enabled then (u, Refused) else if broken then (u, Unavailable)
               else (u.(secret := Some(secret), lastStep := None), Started)
    ensures Next(env, u, Event(clock, Reset)) == (User(false, None, None, None, 0, None), Cleared)
  {
  }
}
