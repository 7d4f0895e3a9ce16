/**
 Creating a tenant: six steps in one transaction, a file outside the database, an
 idempotency key, and any number of calls at the same time.
 */
module Provisioning {
  import opened Basics
  import TenantModules

  // ---------- parameters and rows ----------

  // The parameters a fingerprint is taken of, normalised: the organization name trimmed,
  // the modules without their order, the e-mail trimmed and in lower case.
  datatype Canonical = Canonical(
    name: string, country: Option<string>, sector: Option<string>, tier: string,
    modules: multiset<string>, username: string, email: Option<string>,
    demoDocument: bool, demoRun: bool)

  datatype Params = Params(key: string, c: Canonical)

  // digest: the hash behind the fingerprint; fold: how names are compared.
  datatype Env = Env(digest: Canonical -> string, fold: string -> string)

  datatype Row =
    | OrgRow(org: nat, name: string, tier: string)
    | UserRow(org: nat, username: string)
    | ModuleRow(org: nat, moduleKey: string)
    | PolicyRow(org: nat)
    | SystemRow(org: nat, moduleKey: string)
    | RiskRow(org: nat, moduleKey: string)
    | DocumentRow(org: nat)
    | RequestRow(org: nat, key: string, hash: string, username: string)

  const STEPS: nat := 6

  function Keys(p: Params): set<string> {
    set k | k in p.c.modules
  }

  // The rows step i (from 0) inserts for a new organization.
  function StepRows(env: Env, p: Params, org: nat, i: nat): set<Row> {
    if i == 0 then {OrgRow(org, p.c.name, p.c.tier)}
    else if i == 1 then {UserRow(org, p.c.username)}
    else if i == 2 then set k | k in Keys(p) :: ModuleRow(org, k)
    else if i == 3 then
      {PolicyRow(org)}
      + (set k | k in Keys(p) * TenantModules.WorkflowKeys() :: SystemRow(org, k))
      + (set k | k in Keys(p) * TenantModules.WorkflowKeys() :: RiskRow(org, k))
    else if i == 4 then if p.c.demoDocument then {DocumentRow(org)} else {}
    else {RequestRow(org, p.key, env.digest(p.c), p.c.username)}
  }

  ghost function RowsUpTo(env: Env, p: Params, org: nat, n: nat): set<Row> {
    if n == 0 then {} else RowsUpTo(env, p, org, n - 1) + StepRows(env, p, org, n - 1)
  }

  ghost function TenantRows(env: Env, p: Params, org: nat): set<Row> {
    RowsUpTo(env, p, org, STEPS)
  }

  // What a tenant consists of: the organization, its administrator, one row for each module
  // asked for, the policy, a system and a risk for each of these modules that is a workflow,
  // the document if asked for, and the record of the request.
  predicate BelongsTo(env: Env, p: Params, org: nat, r: Row) {
    r.org == org &&
    match r
    case OrgRow(_, name, tier) => name == p.c.name && tier == p.c.tier
    case UserRow(_, username) => username == p.c.username
    case ModuleRow(_, k) => k in p.c.modules
    case PolicyRow(_) => true
    case SystemRow(_, k) => k in p.c.modules && k in TenantModules.CATALOG && k != "core"
    case RiskRow(_, k) => k in p.c.modules && k in TenantModules.CATALOG && k != "core"
    case DocumentRow(_) => p.c.demoDocument
    case RequestRow(_, key, hash, username) =>
      key == p.key && hash == env.digest(p.c) && username == p.c.username
  }

  // The six steps together insert exactly that.
  lemma {:induction false} TenantRowsAre(env: Env, p: Params, org: nat)
    ensures forall r :: r in TenantRows(env, p, org) <==> BelongsTo(env, p, org, r)
  {
    forall r ensures r in TenantRows(env, p, org) <==> BelongsTo(env, p, org, r) {
      InSteps(env, p, org, r);
      assert r in TenantRows(env, p, org) <==>
        || r in StepRows(env, p, org, 0) || r in StepRows(env, p, org, 1) || r in StepRows(env, p, org, 2)
        || r in StepRows(env, p, org, 3) || r in StepRows(env, p, org, 4) || r in StepRows(env, p, org, 5);
    }
  }

  lemma {:induction false} InSteps(env: Env, p: Params, org: nat, r: Row)
    ensures r in RowsUpTo(env, p, org, 6) <==>
              || r in StepRows(env, p, org, 0) || r in StepRows(env, p, org, 1) || r in StepRows(env, p, org, 2)
              || r in StepRows(env, p, org, 3) || r in StepRows(env, p, org, 4) || r in StepRows(env, p, org, 5)
  {
    assert RowsUpTo(env, p, org, 1) == RowsUpTo(env, p, org, 0) + StepRows(env, p, org, 0);
    assert RowsUpTo(env, p, org, 2) == RowsUpTo(env, p, org, 1) + StepRows(env, p, org, 1);
    assert RowsUpTo(env, p, org, 3) == RowsUpTo(env, p, org, 2) + StepRows(env, p, org, 2);
    assert RowsUpTo(env, p, org, 4) == RowsUpTo(env, p, org, 3) + StepRows(env, p, org, 3);
    assert RowsUpTo(env, p, org, 5) == RowsUpTo(env, p, org, 4) + StepRows(env, p, org, 4);
    assert RowsUpTo(env, p, org, 6) == RowsUpTo(env, p, org, 5) + StepRows(env, p, org, 5);
  }

  // The check of tier and modules finds nothing, in whatever order the modules are listed.
  ghost predicate ModulesPass(p: Params) {
    exists modules :: Lists(p, modules) && TenantModules.ValidateTierModules(p.c.tier, modules) == []
  }

  predicate Lists(p: Params, modules: seq<string>) {
    multiset(modules) == p.c.modules
  }

  lemma {:induction false} ListedKeys(p: Params, modules: seq<string>)
    requires Lists(p, modules)
    ensures TenantModules.KeySet(modules) == Keys(p)
  {
    forall k ensures k in TenantModules.KeySet(modules) <==> k in Keys(p) {
      assert k in modules <==> k in multiset(modules);
    }
  }

  lemma {:induction false} PassingMeets(p: Params, modules: seq<string>)
    requires Lists(p, modules) && TenantModules.ValidateTierModules(p.c.tier, modules) == []
    ensures TenantModules.Meets(p.c.tier, Keys(p))
  {
    TenantModules.ValidIffMeets(p.c.tier, modules);
    ListedKeys(p, modules);
  }

  // ---------- calls ----------

  datatype Outcome =
    | Created(org: nat)
    | Replayed(org: nat)
    | Invalid           // 422
    | KeyConflict       // 409, the key was used with other parameters
    | Conflict          // 409, the name or the username is taken
    | Failed            // the call's own error

  // Where a call stands.  A running call has its uncommitted rows, and demoFile once it
  // knows of a file it wrote; orphan says that a file of it stays behind for good.
  datatype Call =
    | Arrived(p: Params)
    | Fresh(p: Params)
    | Running(p: Params, org: nat, step: nat, pending: set<Row>, demoFile: bool)
    | Undone(p: Params, org: nat, integrity: bool, demoFile: bool, orphan: bool)
    | Rechecking(p: Params, org: nat, orphan: bool)
    | Done(p: Params, took: Option<nat>, outcome: Outcome, orphan: bool)

  // files: the organizations with a demo file on disk
  datatype State = State(rows: set<Row>, files: set<nat>, nextOrg: nat, calls: map<nat, Call>)

  // How a step can go wrong.  WriteFails: the demo file was created but writing it failed,
  // before the call noted the file.
  datatype Fault = NoFault | FailsBefore | WriteFails | FlushFails

  datatype Event =
    | Arrive(c: nat, p: Params, valid: bool)   // valid: by the rules for names and addresses
    | Find(c: nat)
    | Check(c: nat)
    | Step(c: nat, fault: Fault)
    | Commit(c: nat, fails: bool)
    | Clean(c: nat, unlinkFails: bool)
    | Recheck(c: nat)
    | OtherUser(org: nat, username: string)

  // ---------- what a call reads ----------

  predicate KeyUsed(rows: set<Row>, key: string) {
    exists r :: r in rows && r.RequestRow? && r.key == key
  }

  predicate UsernameTaken(rows: set<Row>, username: string) {
    exists r :: r in rows && r.UserRow? && r.username == username
  }

  predicate NameTaken(env: Env, rows: set<Row>, name: string) {
    exists r :: r in rows && r.OrgRow? && env.fold(r.name) == env.fold(name)
  }

  // The answer from the idempotency table, if the key is there.
  ghost function FindReplay(env: Env, rows: set<Row>, p: Params): Option<Outcome> {
    if !KeyUsed(rows, p.key) then None
    else
      var r :| r in rows && r.RequestRow? && r.key == p.key;
      Some(if r.hash == env.digest(p.c) then Replayed(r.org) else KeyConflict)
  }

  // Another uncommitted call has inserted this username, or this key: the insert waits.
  ghost predicate Blocked(s: State, c: nat, p: Params, step: nat) {
    exists d :: d in s.calls && d != c && s.calls[d].Running? && Holds(s.calls[d], p, step)
  }

  ghost predicate Holds(other: Call, p: Params, step: nat)
    requires other.Running?
  {
    || (step == 1 && UsernameTaken(other.pending, p.c.username))
    || (step == 5 && exists r :: r in other.pending && r.RequestRow? && r.key == p.key)
  }

  // Inserting this step's rows hits a unique key that is committed.
  predicate Violates(rows: set<Row>, p: Params, step: nat) {
    || (step == 1 && UsernameTaken(rows, p.c.username))
    || (step == 5 && KeyUsed(rows, p.key))
  }

  // ---------- the steps ----------

  ghost function At(s: State, c: nat, call: Call): State {
    s.(calls := s.calls[c := call])
  }

  ghost function TakeStep(env: Env, s: State, c: nat, call: Call, fault: Fault): State
    requires call.Running? && call.step < STEPS
  {
    var p, org, i := call.p, call.org, call.step;
    var writesFile := i == 4 && p.c.demoDocument;
    if fault.FailsBefore? then At(s, c, Undone(p, org, false, call.demoFile, false))
    else if writesFile && fault.WriteFails? then
      At(s, c, Undone(p, org, false, call.demoFile, true)).(files := s.files + {org})
    else
      var file := call.demoFile || writesFile;
      var t := if writesFile then s.(files := s.files + {org}) else s;
      if Violates(s.rows, p, i) then At(t, c, Undone(p, org, true, file, false))
      else if fault.FlushFails? then At(t, c, Undone(p, org, false, file, false))
      else At(t, c, Running(p, org, i + 1, call.pending + StepRows(env, p, org, i), file))
  }

  ghost function Advance(env: Env, s: State, e: Event, call: Call): State
    requires !e.OtherUser?
  {
    var c, p := e.c, call.p;
    if e.Find? && call.Arrived? then
      match FindReplay(env, s.rows, p)
      case Some(outcome) => At(s, c, Done(p, None, outcome, false))
      case None => At(s, c, Fresh(p))
    else if e.Check? && call.Fresh? then
      if NameTaken(env, s.rows, p.c.name) || UsernameTaken(s.rows, p.c.username)
      then At(s, c, Done(p, None, Conflict, false))
      else At(s, c, Running(p, s.nextOrg, 0, {}, false)).(nextOrg := s.nextOrg + 1)
    else if e.Step? && call.Running? && call.step < STEPS then
      if Blocked(s, c, p, call.step) then s else TakeStep(env, s, c, call, e.fault)
    else if e.Commit? && call.Running? && call.step == STEPS then
      if e.fails then At(s, c, Undone(p, call.org, false, call.demoFile, false))
      else At(s, c, Done(p, Some(call.org), Created(call.org), false)).(rows := s.rows + call.pending)
    else if e.Clean? && call.Undone? then
      var gone := call.demoFile && !e.unlinkFails;
      var orphan := call.orphan || (call.demoFile && e.unlinkFails);
      var t := if gone then s.(files := s.files - {call.org}) else s;
      At(t, c, if call.integrity then Rechecking(p, call.org, orphan) else Done(p, Some(call.org), Failed, orphan))
    else if e.Recheck? && call.Rechecking? then
      match FindReplay(env, s.rows, p)
      case Some(outcome) => At(s, c, Done(p, Some(call.org), outcome, call.orphan))
      case None => At(s, c, Done(p, Some(call.org), Conflict, call.orphan))
    else s
  }

  // A user created elsewhere, for an existing organization, under the same unique key.
  ghost predicate OtherUserPossible(s: State, org: nat, username: string) {
    && (exists r :: r in s.rows && r.OrgRow? && r.org == org)
    && !UsernameTaken(s.rows, username)
    && forall d :: d in s.calls && s.calls[d].Running? ==> !UsernameTaken(s.calls[d].pending, username)
  }

  // One event; one that cannot happen in s leaves s as it is.
  ghost function Next(env: Env, s: State, e: Event): State {
    if e.OtherUser? then
      if OtherUserPossible(s, e.org, e.username) then s.(rows := s.rows + {UserRow(e.org, e.username)}) else s
    else if e.Arrive? then
      if e.c in s.calls then s
      else At(s, e.c, if e.valid && ModulesPass(e.p) then Arrived(e.p) else Done(e.p, None, Invalid, false))
    else if e.c !in s.calls then s
    else Advance(env, s, e, s.calls[e.c])
  }

  ghost function Run(env: Env, s: State, es: seq<Event>): State {
    if es == [] then s else Next(env, Run(env, s, es[..|es| - 1]), es[|es| - 1])
  }

  // ---------- the invariant ----------

  ghost predicate UniqueKeys(rows: set<Row>) {
    && (forall q, r :: q in rows && r in rows && q.RequestRow? && r.RequestRow? && q.key == r.key ==> q == r)
    && (forall q, r :: q in rows && r in rows && q.UserRow? && r.UserRow? && q.username == r.username ==> q == r)
  }

  ghost predicate NoRows(rows: set<Row>, org: nat) {
    forall r :: r in rows ==> r.org != org
  }

  // The organization id a call took.
  function OrgOf(call: Call): Option<nat> {
    match call
    case Arrived(_) => None
    case Fresh(_) => None
    case Running(_, org, _, _, _) => Some(org)
    case Undone(_, org, _, _, _) => Some(org)
    case Rechecking(_, org, _) => Some(org)
    case Done(_, org, _, _) => org
  }

  ghost predicate RunningOk(env: Env, s: State, call: Call)
    requires call.Running?
  {
    var p, org, n := call.p, call.org, call.step;
    && n <= STEPS && call.pending == RowsUpTo(env, p, org, n)
    && NoRows(s.rows, org)
    && (n >= 2 ==> !UsernameTaken(s.rows, p.c.username))
    && (n >= 6 ==> !KeyUsed(s.rows, p.key))
    && (call.demoFile <==> n >= 5 && p.c.demoDocument)
    && (org in s.files <==> call.demoFile)
  }

  ghost predicate DoneOk(env: Env, s: State, call: Call)
    requires call.Done?
  {
    var p := call.p;
    && (call.outcome.Created? ==>
          && call.took == Some(call.outcome.org) && TenantRows(env, p, call.outcome.org) <= s.rows
          && (call.outcome.org in s.files <==> p.c.demoDocument))
    && (!call.outcome.Created? && call.took.Some? ==>
          NoRows(s.rows, call.took.value) && (call.took.value in s.files <==> call.orphan))
    && (call.outcome.Replayed? ==> Recorded(s.rows, p.key, call.outcome.org, env.digest(p.c)))
    && (call.outcome.KeyConflict? ==> exists r :: r in s.rows && r.RequestRow? && r.key == p.key
                                                  && r.hash != env.digest(p.c))
    && (call.outcome.Failed? ==> call.took.Some?)
  }

  ghost predicate Recorded(rows: set<Row>, key: string, org: nat, hash: string) {
    exists r :: r in rows && r.RequestRow? && r.key == key && r.org == org && r.hash == hash
  }

  ghost predicate CallOk(env: Env, s: State, call: Call) {
    match call
    case Arrived(_) => true
    case Fresh(_) => true
    case Running(_, _, _, _, _) => RunningOk(env, s, call)
    case Undone(_, org, _, demoFile, orphan) => 
      NoRows(s.rows, org) && (org in s.files <==> demoFile || orphan) && !(demoFile && orphan)
    case Rechecking(_, org, orphan) => NoRows(s.rows, org) && (org in s.files <==> orphan)
    case Done(_, _, _, _) => DoneOk(env, s, call)
  }

  // Two running calls never both hold one username or one key.
  ghost predicate Exclusive(a: Call, b: Call) {
    a.Running? && b.Running? ==>
      && (a.step >= 2 && b.step >= 2 ==> a.p.c.username != b.p.c.username)
      && (a.step >= 6 && b.step >= 6 ==> a.p.key != b.p.key)
  }

  ghost predicate Apart(a: Call, b: Call) {
    Exclusive(a, b) && (OrgOf(a).Some? ==> OrgOf(a) != OrgOf(b))
  }

  ghost predicate Bounded(s: State) {
    && (forall r :: r in s.rows ==> r.org < s.nextOrg)
    && (forall org :: org in s.files ==> org < s.nextOrg)
    && (forall c :: c in s.calls && OrgOf(s.calls[c]).Some? ==> OrgOf(s.calls[c]).value < s.nextOrg)
  }

  ghost predicate Inv(env: Env, s: State) {
    && UniqueKeys(s.rows) && Bounded(s)
    && (forall c :: c in s.calls ==> CallOk(env, s, s.calls[c]))
    && (forall c, d :: c in s.calls && d in s.calls && c != d ==> Apart(s.calls[c], s.calls[d]))
  }

  ghost predicate Initial(s: State) {
    UniqueKeys(s.rows) && Bounded(s) && s.calls == map[]
  }

  // ---------- rows of one call ----------

  lemma {:induction false} RowsUpToFacts(env: Env, p: Params, org: nat, n: nat)
    requires n <= STEPS
    ensures forall r :: r in RowsUpTo(env, p, org, n) ==> r.org == org
    ensures forall r :: r in RowsUpTo(env, p, org, n) && r.UserRow? ==> n >= 2 && r == UserRow(org, p.c.username)
    ensures forall r :: r in RowsUpTo(env, p, org, n) && r.RequestRow? ==>
              n >= 6 && r == RequestRow(org, p.key, env.digest(p.c), p.c.username)
    ensures n >= 2 ==> UserRow(org, p.c.username) in RowsUpTo(env, p, org, n)
    ensures n >= 6 ==> RequestRow(org, p.key, env.digest(p.c), p.c.username) in RowsUpTo(env, p, org, n)
  {
    if n > 0 {
      RowsUpToFacts(env, p, org, n - 1);
    }
  }

  // ---------- framing ----------

  // What another call needs of a step that is not its own: its rows, its file and its unique
  // keys stay as they are.
  ghost predicate Untouched(s: State, t: State, call: Call) {
    && s.rows <= t.rows
    && (OrgOf(call).Some? ==>
          && (OrgOf(call).value in t.files <==> OrgOf(call).value in s.files)
          && (NoRows(s.rows, OrgOf(call).value) ==> NoRows(t.rows, OrgOf(call).value)))
    && (call.Running? ==>
          && (call.step >= 2 && UsernameTaken(t.rows, call.p.c.username) ==> UsernameTaken(s.rows, call.p.c.username))
          && (call.step >= 6 && KeyUsed(t.rows, call.p.key) ==> KeyUsed(s.rows, call.p.key)))
  }

  lemma {:induction false} UntouchedStaysOk(env: Env, s: State, t: State, call: Call)
    requires CallOk(env, s, call) && Untouched(s, t, call)
    ensures CallOk(env, t, call)
  {
  }

  // A step of call c that leaves the rows alone and touches at most its own file.
  lemma {:induction false} OwnStep(env: Env, s: State, t: State, c: nat)
    requires Inv(env, s) && t.rows == s.rows && t.nextOrg >= s.nextOrg
    requires c in t.calls && t.calls == s.calls[c := t.calls[c]]
    requires CallOk(env, t, t.calls[c]) && Bounded(t)
    requires forall org :: org in s.files + t.files && (org in s.files <==> org !in t.files)
              ==> OrgOf(t.calls[c]) == Some(org)
    requires forall d :: d in s.calls && d != c ==> Apart(t.calls[c], s.calls[d]) && Apart(s.calls[d], t.calls[c])
    ensures Inv(env, t)
  {
    forall d | d in t.calls ensures CallOk(env, t, t.calls[d]) {
      if d != c {
        assert Apart(s.calls[d], t.calls[c]);
        UntouchedStaysOk(env, s, t, s.calls[d]);
      }
    }
    forall d, f | d in t.calls && f in t.calls && d != f ensures Apart(t.calls[d], t.calls[f]) {
      if d != c && f != c {
        assert Apart(s.calls[d], s.calls[f]);
      }
    }
  }

  // A call that no longer runs, or runs with the same rows, stays apart from the others.
  lemma {:induction false} StaysApart(env: Env, s: State, c: nat, call: Call)
    requires Inv(env, s) && c in s.calls && (OrgOf(call) == OrgOf(s.calls[c]) || OrgOf(call) == None)
    requires call.Running? ==> s.calls[c].Running? && call.step == s.calls[c].step && call.p == s.calls[c].p
    ensures forall d :: d in s.calls && d != c ==> Apart(call, s.calls[d]) && Apart(s.calls[d], call)
  {
    forall d | d in s.calls && d != c ensures Apart(call, s.calls[d]) && Apart(s.calls[d], call) {
      assert Apart(s.calls[c], s.calls[d]) && Apart(s.calls[d], s.calls[c]);
    }
  }

  // ---------- every event keeps the invariant ----------

  lemma {:induction false} ArriveStep(env: Env, s: State, c: nat, p: Params, valid: bool)
    requires Inv(env, s) && c !in s.calls
    ensures Inv(env, Next(env, s, Arrive(c, p, valid)))
  {
    var t := Next(env, s, Arrive(c, p, valid));
    forall d | d in s.calls ensures Apart(t.calls[c], s.calls[d]) && Apart(s.calls[d], t.calls[c]) {
      assert OrgOf(t.calls[c]) == None;
    }
    OwnStep(env, s, t, c);
  }

  // The idempotency table answers with what it holds.
  lemma {:induction false} FindReplayFacts(env: Env, s: State, p: Params)
    requires UniqueKeys(s.rows)
    ensures FindReplay(env, s.rows, p) == None <==> !KeyUsed(s.rows, p.key)
    ensures FindReplay(env, s.rows, p).Some? ==>
              var o := FindReplay(env, s.rows, p).value;
              || (o.Replayed? && Recorded(s.rows, p.key, o.org, env.digest(p.c)))
              || (o.KeyConflict? && exists r :: r in s.rows && r.RequestRow? && r.key == p.key
                                                && r.hash != env.digest(p.c))
  {
    if KeyUsed(s.rows, p.key) {
      var r :| r in s.rows && r.RequestRow? && r.key == p.key;
      assert Recorded(s.rows, p.key, r.org, r.hash);
    }
  }

  lemma {:induction false} FindStep(env: Env, s: State, c: nat)
    requires Inv(env, s) && c in s.calls && s.calls[c].Arrived?
    ensures Inv(env, Next(env, s, Find(c)))
  {
    var t := Next(env, s, Find(c));
    FindReplayFacts(env, s, s.calls[c].p);
    StaysApart(env, s, c, t.calls[c]);
    OwnStep(env, s, t, c);
  }

  lemma {:induction false} CheckStep(env: Env, s: State, c: nat)
    requires Inv(env, s) && c in s.calls && s.calls[c].Fresh?
    ensures Inv(env, Next(env, s, Check(c)))
  {
    var t, call := Next(env, s, Check(c)), s.calls[c];
    if t.calls[c].Done? {
      StaysApart(env, s, c, t.calls[c]);
    } else {
      forall d | d in s.calls && d != c ensures Apart(t.calls[c], s.calls[d]) && Apart(s.calls[d], t.calls[c]) {
        assert OrgOf(s.calls[d]).Some? ==> OrgOf(s.calls[d]).value < s.nextOrg;
      }
    }
    OwnStep(env, s, t, c);
  }

  lemma {:induction false} CleanStep(env: Env, s: State, c: nat, unlinkFails: bool)
    requires Inv(env, s) && c in s.calls && s.calls[c].Undone?
    ensures Inv(env, Next(env, s, Clean(c, unlinkFails)))
  {
    var t := Next(env, s, Clean(c, unlinkFails));
    assert CallOk(env, s, s.calls[c]);
    StaysApart(env, s, c, t.calls[c]);
    OwnStep(env, s, t, c);
  }

  lemma {:induction false} RecheckStep(env: Env, s: State, c: nat)
    requires Inv(env, s) && c in s.calls && s.calls[c].Rechecking?
    ensures Inv(env, Next(env, s, Recheck(c)))
  {
    var t := Next(env, s, Recheck(c));
    assert CallOk(env, s, s.calls[c]);
    FindReplayFacts(env, s, s.calls[c].p);
    StaysApart(env, s, c, t.calls[c]);
    OwnStep(env, s, t, c);
  }

  // A step that went through keeps the call apart: the keys it took were free.
  lemma {:induction false} StepApart(env: Env, s: State, c: nat, d: nat)
    requires Inv(env, s) && c in s.calls && s.calls[c].Running? && s.calls[c].step < STEPS
    requires d in s.calls && d != c && !Blocked(s, c, s.calls[c].p, s.calls[c].step)
    ensures var call := s.calls[c];
            Exclusive(call.(step := call.step + 1), s.calls[d]) && Exclusive(s.calls[d], call.(step := call.step + 1))
  {
    var call, other := s.calls[c], s.calls[d];
    assert Apart(call, other) && Apart(other, call);
    if other.Running? {
      assert CallOk(env, s, other);
      RowsUpToFacts(env, other.p, other.org, other.step);
      assert !Holds(other, call.p, call.step);
    }
  }

  // What a step that went through makes of a call.
  lemma {:induction false} StepGoesOn(env: Env, s: State, t: State, call: Call, file: bool)
    requires call.Running? && RunningOk(env, s, call) && call.step < STEPS && !Violates(s.rows, call.p, call.step)
    requires t.rows == s.rows && file == (call.demoFile || (call.step == 4 && call.p.c.demoDocument))
    requires call.org in t.files <==> file
    ensures RunningOk(env, t, Running(call.p, call.org, call.step + 1,
                                      call.pending + StepRows(env, call.p, call.org, call.step), file))
  {
    assert RowsUpTo(env, call.p, call.org, call.step + 1)
        == RowsUpTo(env, call.p, call.org, call.step) + StepRows(env, call.p, call.org, call.step);
  }

  lemma {:induction false} StepBounded(env: Env, s: State, c: nat, fault: Fault)
    requires Bounded(s) && c in s.calls && s.calls[c].Running? && s.calls[c].step < STEPS
    ensures var t := TakeStep(env, s, c, s.calls[c], fault);
            && Bounded(t) && c in t.calls && OrgOf(t.calls[c]) == Some(s.calls[c].org)
            && t.calls == s.calls[c := t.calls[c]]
  {
    var t := TakeStep(env, s, c, s.calls[c], fault);
    assert OrgOf(s.calls[c]).value < s.nextOrg;
    assert OrgOf(t.calls[c]) == Some(s.calls[c].org);
  }

  lemma {:induction false} StepCallOk(env: Env, s: State, c: nat, fault: Fault)
    requires c in s.calls && s.calls[c].Running? && s.calls[c].step < STEPS && RunningOk(env, s, s.calls[c])
    ensures var t := TakeStep(env, s, c, s.calls[c], fault);
            && c in t.calls && CallOk(env, t, t.calls[c])
            && (t.calls[c].Running? ==> t.calls[c].p == s.calls[c].p && t.calls[c].step == s.calls[c].step + 1)
  {
    var call := s.calls[c];
    var t := TakeStep(env, s, c, call, fault);
    StepEnds(env, s, c, fault);
    if t.calls[c].Running? {
      StepGoesOn(env, s, t, call, t.calls[c].demoFile);
    }
  }

  // What a step that did not go through leaves of a call.
  lemma {:induction false} StepEnds(env: Env, s: State, c: nat, fault: Fault)
    requires c in s.calls && s.calls[c].Running? && s.calls[c].step < STEPS && RunningOk(env, s, s.calls[c])
    ensures var t := TakeStep(env, s, c, s.calls[c], fault);
            c in t.calls && (t.calls[c].Running? || (t.calls[c].Undone? && CallOk(env, t, t.calls[c])))
  {
  }

  lemma {:induction false} StepStep(env: Env, s: State, c: nat, fault: Fault)
    requires Inv(env, s) && c in s.calls && s.calls[c].Running? && s.calls[c].step < STEPS
    requires !Blocked(s, c, s.calls[c].p, s.calls[c].step)
    ensures Inv(env, TakeStep(env, s, c, s.calls[c], fault))
  {
    var call := s.calls[c];
    var t := TakeStep(env, s, c, call, fault);
    assert CallOk(env, s, call);
    StepBounded(env, s, c, fault);
    StepCallOk(env, s, c, fault);
    forall d | d in s.calls && d != c ensures Apart(t.calls[c], s.calls[d]) && Apart(s.calls[d], t.calls[c]) {
      assert Apart(call, s.calls[d]) && Apart(s.calls[d], call);
      StepApart(env, s, c, d);
    }
    OwnStep(env, s, t, c);
  }

  lemma {:induction false} FailedCommitStep(env: Env, s: State, c: nat)
    requires Inv(env, s) && c in s.calls && s.calls[c].Running? && s.calls[c].step == STEPS
    ensures Inv(env, Next(env, s, Commit(c, true)))
  {
    var t := Next(env, s, Commit(c, true));
    assert CallOk(env, s, s.calls[c]);
    StaysApart(env, s, c, t.calls[c]);
    OwnStep(env, s, t, c);
  }

  lemma {:induction false} CommitKeepsKeys(env: Env, s: State, c: nat)
    requires Inv(env, s) && c in s.calls && s.calls[c].Running? && s.calls[c].step == STEPS
    ensures UniqueKeys(s.rows + s.calls[c].pending)
  {
    var call := s.calls[c];
    assert CallOk(env, s, call);
    RowsUpToFacts(env, call.p, call.org, STEPS);
  }

  lemma {:induction false} CommitUntouched(env: Env, s: State, c: nat)
    requires Inv(env, s) && c in s.calls && s.calls[c].Running? && s.calls[c].step == STEPS
    ensures forall d :: d in s.calls && d != c ==> Untouched(s, Next(env, s, Commit(c, false)), s.calls[d])
  {
    var call := s.calls[c];
    assert CallOk(env, s, call);
    RowsUpToFacts(env, call.p, call.org, STEPS);
    forall d | d in s.calls && d != c ensures Untouched(s, Next(env, s, Commit(c, false)), s.calls[d]) {
      assert Apart(call, s.calls[d]) && Apart(s.calls[d], call);
    }
  }

  lemma {:induction false} CommitStep(env: Env, s: State, c: nat)
    requires Inv(env, s) && c in s.calls && s.calls[c].Running? && s.calls[c].step == STEPS
    ensures Inv(env, Next(env, s, Commit(c, false)))
  {
    var call, t := s.calls[c], Next(env, s, Commit(c, false));
    assert CallOk(env, s, call);
    CommitKeepsKeys(env, s, c);
    RowsUpToFacts(env, call.p, call.org, STEPS);
    CommitUntouched(env, s, c);
    forall d | d in t.calls ensures CallOk(env, t, t.calls[d]) {
      if d != c {
        UntouchedStaysOk(env, s, t, s.calls[d]);
      }
    }
    StaysApart(env, s, c, t.calls[c]);
    forall d, f | d in t.calls && f in t.calls && d != f ensures Apart(t.calls[d], t.calls[f]) {
      if d != c && f != c {
        assert Apart(s.calls[d], s.calls[f]);
      }
    }
  }

  lemma {:induction false} OtherUserStep(env: Env, s: State, org: nat, username: string)
    requires Inv(env, s) && OtherUserPossible(s, org, username)
    ensures Inv(env, Next(env, s, OtherUser(org, username)))
  {
    var t := Next(env, s, OtherUser(org, username));
    forall d | d in t.calls ensures CallOk(env, t, t.calls[d]) {
      var call := s.calls[d];
      assert CallOk(env, s, call);
      if call.Running? {
        RowsUpToFacts(env, call.p, call.org, call.step);
        assert !UsernameTaken(call.pending, username);
      }
      UntouchedStaysOk(env, s, t, call);
    }
  }

  lemma {:induction false} NextKeepsInv(env: Env, s: State, e: Event)
    requires Inv(env, s)
    ensures Inv(env, Next(env, s, e))
  {
    if e.OtherUser? {
      if OtherUserPossible(s, e.org, e.username) { OtherUserStep(env, s, e.org, e.username); }
    } else if e.Arrive? {
      if e.c !in s.calls { ArriveStep(env, s, e.c, e.p, e.valid); }
    } else if e.c in s.calls {
      var call := s.calls[e.c];
      if e.Find? && call.Arrived? { FindStep(env, s, e.c); }
      else if e.Check? && call.Fresh? { CheckStep(env, s, e.c); }
      else if e.Clean? && call.Undone? { CleanStep(env, s, e.c, e.unlinkFails); }
      else if e.Recheck? && call.Rechecking? { RecheckStep(env, s, e.c); }
      else if e.Step? && call.Running? && call.step < STEPS {
        if !Blocked(s, e.c, call.p, call.step) { StepStep(env, s, e.c, e.fault); }
      }
      else if e.Commit? && call.Running? && call.step == STEPS {
        if e.fails { FailedCommitStep(env, s, e.c); } else { CommitStep(env, s, e.c); }
      }
    }
  }

  lemma {:induction false} RunKeepsInv(env: Env, s: State, es: seq<Event>)
    requires Inv(env, s)
    ensures Inv(env, Run(env, s, es))
  {
    if es != [] {
      RunKeepsInv(env, s, es[..|es| - 1]);
      NextKeepsInv(env, Run(env, s, es[..|es| - 1]), es[|es| - 1]);
    }
  }

  // ---------- what every run guarantees ----------

  predicate Succeeded(call: Call) {
    call.Done? && (call.outcome.Created? || call.outcome.Replayed?)
  }

  // A finished call left what it should: all that belongs to a tenant it created and, but for
  // users added since, nothing else of that organization; or no row.  Its demo file is there
  // exactly when it should be, or when it is an orphan.
  ghost predicate LeftRight(env: Env, t: State, call: Call)
    requires call.Done?
  {
    if call.outcome.Created? then
      && call.took == Some(call.outcome.org) && HasItsRows(env, t.rows, call.p, call.outcome.org)
      && (call.outcome.org in t.files <==> call.p.c.demoDocument)
      && TenantModules.Meets(call.p.c.tier, ModulesOf(t.rows, call.outcome.org))
    else
      call.took.Some? ==> NoRows(t.rows, call.took.value) && (call.took.value in t.files <==> call.orphan)
  }

  ghost predicate HasItsRows(env: Env, rows: set<Row>, p: Params, org: nat) {
    && (forall r :: BelongsTo(env, p, org, r) ==> r in rows)
    && (forall r :: r in rows && r.org == org && !r.UserRow? ==> BelongsTo(env, p, org, r))
  }

  // The modules an organization has.
  function ModulesOf(rows: set<Row>, org: nat): set<string> {
    set r | r in rows && r.ModuleRow? && r.org == org :: r.moduleKey
  }

  lemma {:induction false} ModulesAreKeys(env: Env, rows: set<Row>, p: Params, org: nat)
    requires HasItsRows(env, rows, p, org)
    ensures ModulesOf(rows, org) == Keys(p)
  {
    forall k ensures k in ModulesOf(rows, org) <==> k in Keys(p) {
      assert BelongsTo(env, p, org, ModuleRow(org, k)) <==> k in p.c.modules;
    }
  }

  // Every call past the validation has modules that pass it, and of a created tenant the
  // database holds nothing that does not belong to it but users.
  ghost predicate CallExact(env: Env, s: State, call: Call) {
    && ((call.Done? && call.outcome.Invalid?) || ModulesPass(call.p))
    && (call.Done? && call.outcome.Created? ==>
          forall r :: r in s.rows && r.org == call.outcome.org && !r.UserRow?
              ==> r in TenantRows(env, call.p, call.outcome.org))
  }

  ghost predicate Exact(env: Env, s: State) {
    forall c :: c in s.calls ==> CallExact(env, s, s.calls[c])
  }

  // The rows stay, and the one call that moves neither creates its tenant nor starts over.
  ghost predicate Quiet(s: State, t: State, c: nat) {
    && t.rows == s.rows
    && (forall d :: d in t.calls && d != c ==> d in s.calls && t.calls[d] == s.calls[d])
    && (c in t.calls && c in s.calls ==> MovesQuietly(s.calls[c], t.calls[c]))
    && (c in t.calls && c !in s.calls ==> StartsQuietly(t.calls[c]))
  }

  ghost predicate MovesQuietly(before: Call, after: Call) {
    after == before || (!before.Done? && after.p == before.p && !(after.Done? && after.outcome.Created?))
  }

  ghost predicate StartsQuietly(call: Call) {
    if call.Done? then call.outcome.Invalid? else ModulesPass(call.p)
  }

  lemma {:induction false} TakeStepIsQuiet(env: Env, s: State, c: nat, call: Call, fault: Fault)
    requires call.Running? && call.step < STEPS && c in s.calls && s.calls[c] == call
    ensures Quiet(s, TakeStep(env, s, c, call, fault), c)
  {
  }

  lemma {:induction false} LookIsQuiet(env: Env, s: State, e: Event, call: Call)
    requires (e.Find? || e.Recheck?) && e.c in s.calls && s.calls[e.c] == call
    ensures Quiet(s, Advance(env, s, e, call), e.c)
  {
    NeverCreated(env, s.rows, call.p);
  }

  // So it is with every step other than a commit or a new user.
  lemma {:induction false} StepIsQuiet(env: Env, s: State, e: Event)
    requires !e.OtherUser? && !(e.Commit? && !e.fails)
    ensures Quiet(s, Next(env, s, e), e.c)
  {
    if !e.Arrive? && e.c in s.calls {
      var call := s.calls[e.c];
      if e.Step? {
        if call.Running? && call.step < STEPS {
          TakeStepIsQuiet(env, s, e.c, call, e.fault);
        }
      } else if e.Find? || e.Recheck? {
        LookIsQuiet(env, s, e, call);
      }
    }
  }

  lemma {:induction false} QuietStaysExact(env: Env, s: State, t: State, c: nat)
    requires Exact(env, s) && Quiet(s, t, c)
    ensures Exact(env, t)
  {
    forall d | d in t.calls ensures CallExact(env, t, t.calls[d]) {
      if d in s.calls {
        assert CallExact(env, s, s.calls[d]);
      }
    }
  }

  lemma {:induction false} OtherUserKeepsExact(env: Env, s: State, e: Event)
    requires Exact(env, s) && e.OtherUser?
    ensures Exact(env, Next(env, s, e))
  {
    var t := Next(env, s, e);
    forall d | d in t.calls ensures CallExact(env, t, t.calls[d]) {
      assert CallExact(env, s, s.calls[d]);
    }
  }

  lemma {:induction false} NeverCreated(env: Env, rows: set<Row>, p: Params)
    ensures FindReplay(env, rows, p).Some? ==> !FindReplay(env, rows, p).value.Created?
  {
  }

  lemma {:induction false} CommitEffect(env: Env, s: State, c: nat)
    requires c in s.calls && s.calls[c].Running? && s.calls[c].step == STEPS
    ensures var call := s.calls[c];
            Next(env, s, Commit(c, false))
            == State(s.rows + call.pending, s.files, s.nextOrg,
                     s.calls[c := Done(call.p, Some(call.org), Created(call.org), false)])
  {
  }

  lemma {:induction false} OthersStayExact(env: Env, s: State, c: nat, d: nat, t: State)
    requires Inv(env, s) && c in s.calls && s.calls[c].Running? && s.calls[c].step == STEPS
    requires d in s.calls && d != c && CallExact(env, s, s.calls[d]) && t.rows == s.rows + s.calls[c].pending
    ensures CallExact(env, t, s.calls[d])
  {
    var call, other := s.calls[c], s.calls[d];
    if other.Done? && other.outcome.Created? {
      assert CallOk(env, s, call) && CallOk(env, s, other) && Apart(call, other);
      RowsUpToFacts(env, call.p, call.org, STEPS);
    }
  }

  lemma {:induction false} CommitKeepsExact(env: Env, s: State, c: nat)
    requires Inv(env, s) && Exact(env, s)
    ensures Exact(env, Next(env, s, Commit(c, false)))
  {
    if c in s.calls && s.calls[c].Running? && s.calls[c].step == STEPS {
      CommittedIsExact(env, s, c);
    } else {
      CommitIdles(env, s, c);
    }
  }

  lemma {:induction false} CommitIdles(env: Env, s: State, c: nat)
    requires c !in s.calls || !s.calls[c].Running? || s.calls[c].step != STEPS
    ensures Next(env, s, Commit(c, false)) == s
  {
  }

  lemma {:induction false} CommittedIsExact(env: Env, s: State, c: nat)
    requires Inv(env, s) && Exact(env, s) && c in s.calls && s.calls[c].Running? && s.calls[c].step == STEPS
    ensures Exact(env, Next(env, s, Commit(c, false)))
  {
    var call, t := s.calls[c], Next(env, s, Commit(c, false));
    CommitEffect(env, s, c);
    assert CallOk(env, s, call) && CallExact(env, s, call);
    forall d | d in t.calls ensures CallExact(env, t, t.calls[d]) {
      if d != c {
        OthersStayExact(env, s, c, d, t);
      }
    }
  }

  lemma {:induction false} NextKeepsExact(env: Env, s: State, e: Event)
    requires Inv(env, s) && Exact(env, s)
    ensures Exact(env, Next(env, s, e))
  {
    if e.OtherUser? {
      OtherUserKeepsExact(env, s, e);
    } else if e.Commit? && !e.fails {
      CommitKeepsExact(env, s, e.c);
    } else {
      StepIsQuiet(env, s, e);
      QuietStaysExact(env, s, Next(env, s, e), e.c);
    }
  }

  lemma {:induction false} RunKeepsExact(env: Env, s: State, es: seq<Event>)
    requires Initial(s)
    ensures Exact(env, Run(env, s, es))
    decreases |es|
  {
    if es != [] {
      var n := |es| - 1;
      RunKeepsExact(env, s, es[..n]);
      RunKeepsInv(env, s, es[..n]);
      NextKeepsExact(env, Run(env, s, es[..n]), es[n]);
    }
  }

  lemma {:induction false} CreatedAsAWhole(env: Env, t: State, call: Call)
    requires CallOk(env, t, call) && CallExact(env, t, call) && call.Done? && call.outcome.Created?
    ensures LeftRight(env, t, call)
  {
    var org := call.outcome.org;
    TenantRowsAre(env, call.p, org);
    assert HasItsRows(env, t.rows, call.p, org);
    ModulesAreKeys(env, t.rows, call.p, org);
    var modules :| Lists(call.p, modules) && TenantModules.ValidateTierModules(call.p.c.tier, modules) == [];
    PassingMeets(call.p, modules);
  }

  // Calls with one key never create two tenants, and all that succeed name the same one.
  ghost predicate OneTenant(t: State, c: nat, d: nat)
    requires c in t.calls && d in t.calls
  {
    t.calls[c].p.key == t.calls[d].p.key && Succeeded(t.calls[c]) && Succeeded(t.calls[d]) ==>
      && t.calls[c].outcome.org == t.calls[d].outcome.org
      && (t.calls[c].outcome.Created? && t.calls[d].outcome.Created? ==> c == d)
  }

  lemma {:induction false} SuccessIsRecorded(env: Env, t: State, c: nat)
    requires Inv(env, t) && c in t.calls && Succeeded(t.calls[c])
    ensures Recorded(t.rows, t.calls[c].p.key, t.calls[c].outcome.org, env.digest(t.calls[c].p.c))
  {
    var call := t.calls[c];
    assert CallOk(env, t, call);
    if call.outcome.Created? {
      RowsUpToFacts(env, call.p, call.outcome.org, STEPS);
      assert RequestRow(call.outcome.org, call.p.key, env.digest(call.p.c), call.p.c.username) in t.rows;
    }
  }

  lemma {:induction false} InvMeansOneTenant(env: Env, t: State, c: nat, d: nat)
    requires Inv(env, t) && c in t.calls && d in t.calls
    ensures OneTenant(t, c, d)
  {
    if Succeeded(t.calls[c]) && Succeeded(t.calls[d]) {
      SuccessIsRecorded(env, t, c);
      SuccessIsRecorded(env, t, d);
      assert CallOk(env, t, t.calls[c]) && CallOk(env, t, t.calls[d]);
      assert c != d ==> Apart(t.calls[c], t.calls[d]);
    }
  }

  // For every run from any consistent database: a tenant is created as a whole, with exactly
  // what belongs to it and modules that meet its tier, or not at all, at most one for a key,
  // and every other call on that key ends with the same organization, a refusal, or its own
  // error.
  lemma {:induction false} EveryRun(env: Env, s: State, es: seq<Event>)
    requires Initial(s)
    ensures var t := Run(env, s, es);
            && (forall c :: c in t.calls && t.calls[c].Done? ==> LeftRight(env, t, t.calls[c]))
            && (forall c, d :: c in t.calls && d in t.calls ==> OneTenant(t, c, d))
  {
    RunKeepsInv(env, s, es);
    RunKeepsExact(env, s, es);
    var t := Run(env, s, es);
    forall c | c in t.calls && t.calls[c].Done? ensures LeftRight(env, t, t.calls[c]) {
      assert CallOk(env, t, t.calls[c]) && CallExact(env, t, t.calls[c]);
      if t.calls[c].outcome.Created? {
        CreatedAsAWhole(env, t, t.calls[c]);
      }
    }
    forall c, d | c in t.calls && d in t.calls ensures OneTenant(t, c, d) {
      InvMeansOneTenant(env, t, c, d);
    }
  }

  // Once a call with some parameters has succeeded, no call with the key and the same
  // fingerprint was or is told that the parameters differ.
  lemma {:induction false} NoFalseConflict(env: Env, s: State, es: seq<Event>, c: nat, d: nat)
    requires Initial(s)
    requires var t := Run(env, s, es);
             && c in t.calls && d in t.calls && Succeeded(t.calls[c]) && t.calls[d].Done?
             && t.calls[c].p.key == t.calls[d].p.key
             && env.digest(t.calls[c].p.c) == env.digest(t.calls[d].p.c)
    ensures Run(env, s, es).calls[d].outcome != KeyConflict
  {
    RunKeepsInv(env, s, es);
    var t := Run(env, s, es);
    SuccessIsRecorded(env, t, c);
    assert CallOk(env, t, t.calls[d]);
  }

  predicate Orphan(s: State, c: nat) {
    c in s.calls &&
    match s.calls[c]
    case Undone(_, _, _, _, orphan) => orphan
    case Rechecking(_, _, orphan) => orphan
    case Done(_, _, _, orphan) => orphan
    case _ => false
  }

  // An orphaned file comes from exactly two faults: writing the demo file fails after
  // creating it, or removing it fails.
  ghost predicate Orphans(env: Env, s: State, e: Event, c: nat) {
    || (&& e.Step? && e.c == c && e.fault == WriteFails && c in s.calls && s.calls[c].Running?
        && s.calls[c].step == 4 && s.calls[c].p.c.demoDocument)
    || (e.Clean? && e.c == c && e.unlinkFails && c in s.calls && s.calls[c].Undone? && s.calls[c].demoFile)
  }

  lemma {:induction false} StepOrphans(env: Env, s: State, e: Event, c: nat)
    ensures Orphan(Next(env, s, e), c) <==> Orphan(s, c) || Orphans(env, s, e, c)
  {
  }

  ghost predicate OrphansAt(env: Env, s: State, es: seq<Event>, i: nat, c: nat)
    requires i < |es|
  {
    Orphans(env, Run(env, s, es[..i]), es[i], c)
  }

  lemma {:induction false} OrphansInPrefix(env: Env, s: State, es: seq<Event>, n: nat, c: nat)
    requires n <= |es|
    ensures forall i :: 0 <= i < n ==> OrphansAt(env, s, es[..n], i, c) == OrphansAt(env, s, es, i, c)
  {
    forall i | 0 <= i < n ensures OrphansAt(env, s, es[..n], i, c) == OrphansAt(env, s, es, i, c) {
      assert es[..n][..i] == es[..i];
    }
  }

  // Of a call that finished without creating its tenant, a file is on disk exactly when one of
  // the two faults struck it during the run.
  lemma {:induction false} OrphanCause(env: Env, s: State, es: seq<Event>, c: nat)
    requires Initial(s)
    requires var t := Run(env, s, es);
             c in t.calls && t.calls[c].Done? && !t.calls[c].outcome.Created? && t.calls[c].took.Some?
    ensures var t := Run(env, s, es);
            t.calls[c].took.value in t.files <==> exists i :: 0 <= i < |es| && OrphansAt(env, s, es, i, c)
  {
    EveryRun(env, s, es);
    OrphansCounted(env, s, es, c);
    assert LeftRight(env, Run(env, s, es), Run(env, s, es).calls[c]);
  }

  lemma {:induction false} OrphansCounted(env: Env, s: State, es: seq<Event>, c: nat)
    requires Initial(s)
    ensures Orphan(Run(env, s, es), c) <==> exists i :: 0 <= i < |es| && OrphansAt(env, s, es, i, c)
    decreases |es|
  {
    if es != [] {
      var n := |es| - 1;
      OrphansCounted(env, s, es[..n], c);
      OrphansInPrefix(env, s, es, n, c);
      OrphanLast(env, s, es, c);
    }
  }

  lemma {:induction false} OrphanLast(env: Env, s: State, es: seq<Event>, c: nat)
    requires es != []
    ensures Orphan(Run(env, s, es), c)
            <==> Orphan(Run(env, s, es[..|es| - 1]), c) || OrphansAt(env, s, es, |es| - 1, c)
  {
    StepOrphans(env, Run(env, s, es[..|es| - 1]), es[|es| - 1], c);
  }

  // ---------- what a call must answer ----------

  // Nothing goes wrong in the first n steps.
  predicate Spared(p: Params, faults: seq<Fault>, n: nat)
    requires n <= |faults|
  {
    forall i :: 0 <= i < n ==> faults[i] == NoFault || (faults[i] == WriteFails && !(i == 4 && p.c.demoDocument))
  }

  // The inserts come to a unique key that is taken: the username, or the key of the call.
  predicate Raced(rows: set<Row>, p: Params, faults: seq<Fault>)
    requires |faults| == STEPS
  {
    if UsernameTaken(rows, p.c.username) then Spared(p, faults, 1) && faults[1] != FailsBefore
    else Spared(p, faults, 5) && faults[5] != FailsBefore && KeyUsed(rows, p.key)
  }

  // The demo file is created, be it without its contents.
  predicate FileMade(rows: set<Row>, p: Params, faults: seq<Fault>)
    requires |faults| == STEPS
  {
    p.c.demoDocument && Spared(p, faults, 4) && faults[4] != FailsBefore && !UsernameTaken(rows, p.c.username)
  }

  ghost predicate IsReplay(env: Env, rows: set<Row>, p: Params, outcome: Outcome) {
    exists r :: r in rows && r.RequestRow? && r.key == p.key
                && outcome == if r.hash == env.digest(p.c) then Replayed(r.org) else KeyConflict
  }

  // The call passes its checks and comes to its inserts.
  ghost predicate Inserts(env: Env, rows: set<Row>, p: Params, passes: bool) {
    passes && !KeyUsed(rows, p.key) && !NameTaken(env, rows, p.c.name) && !UsernameTaken(rows, p.c.username)
  }

  // before: the rows its checks find; later: those its inserts find; org: the next free id.
  ghost predicate RightAnswer(env: Env, before: set<Row>, later: set<Row>, p: Params, passes: bool, faults: seq<Fault>,
                              commitFails: bool, org: nat, outcome: Outcome)
    requires |faults| == STEPS
  {
    if !passes then outcome == Invalid
    else if KeyUsed(before, p.key) then IsReplay(env, before, p, outcome)
    else if NameTaken(env, before, p.c.name) || UsernameTaken(before, p.c.username) then outcome == Conflict
    else RightEnd(env, later, p, faults, commitFails, org, outcome)
  }

  // The answer of a call that comes to its inserts.
  ghost predicate RightEnd(env: Env, later: set<Row>, p: Params, faults: seq<Fault>, commitFails: bool, org: nat,
                           outcome: Outcome)
    requires |faults| == STEPS
  {
    if Raced(later, p, faults) then
      if KeyUsed(later, p.key) then IsReplay(env, later, p, outcome) else outcome == Conflict
    else outcome == if Spared(p, faults, STEPS) && !commitFails then Created(org) else Failed
  }

  ghost predicate RightRows(env: Env, before: set<Row>, later: set<Row>, p: Params, passes: bool, outcome: Outcome,
                            rows: set<Row>) {
    if outcome.Created? then forall r :: r in rows <==> r in later || BelongsTo(env, p, outcome.org, r)
    else rows == if Inserts(env, before, p, passes) then later else before
  }

  ghost predicate RightFiles(env: Env, before: set<Row>, later: set<Row>, p: Params, passes: bool, faults: seq<Fault>,
                             unlinkFails: bool, org: nat, outcome: Outcome, was: set<nat>, files: set<nat>)
    requires |faults| == STEPS
  {
    files == was + if Inserts(env, before, p, passes) && FileMade(later, p, faults)
                      && (outcome.Created? || faults[4] == WriteFails || unlinkFails)
                   then {org} else {}
  }

  // When a call creates its tenant: exactly when it passes, nothing goes wrong, and no key is
  // taken at either look.
  lemma {:induction false} CreatedExactly(env: Env, before: set<Row>, later: set<Row>, p: Params, passes: bool,
                                          faults: seq<Fault>, commitFails: bool, org: nat, outcome: Outcome)
    requires |faults| == STEPS && before <= later
    requires RightAnswer(env, before, later, p, passes, faults, commitFails, org, outcome)
    ensures outcome.Created? <==>
              && passes && Spared(p, faults, STEPS) && !commitFails
              && !KeyUsed(before, p.key) && !NameTaken(env, before, p.c.name)
              && !UsernameTaken(later, p.c.username) && !KeyUsed(later, p.key)
    ensures outcome.Created? ==> outcome.org == org
  {
    assert UsernameTaken(before, p.c.username) ==> UsernameTaken(later, p.c.username);
  }

  // Step n (from 0) ends the call.
  predicate Stops(rows: set<Row>, p: Params, fault: Fault, n: nat) {
    || fault == FailsBefore || (n == 4 && p.c.demoDocument && fault == WriteFails)
    || Violates(rows, p, n) || fault == FlushFails
  }

  // What that says of the whole call, when the steps before went through.
  lemma {:induction false} StoppedAt(rows: set<Row>, p: Params, faults: seq<Fault>, n: nat)
    requires n < STEPS == |faults| && Spared(p, faults, n) && Stops(rows, p, faults[n], n)
    requires n >= 2 ==> !UsernameTaken(rows, p.c.username)
    ensures FileMade(rows, p, faults) <==> p.c.demoDocument && (n == 5 || (n == 4 && faults[n] != FailsBefore))
    ensures Raced(rows, p, faults) <==> faults[n] != FailsBefore && Violates(rows, p, n)
    ensures Spared(p, faults, STEPS) ==> Raced(rows, p, faults)
  {
    assert forall m :: 0 <= m <= n ==> Spared(p, faults, m);
    assert !Violates(rows, p, n) ==> forall m :: n < m <= STEPS ==> !Spared(p, faults, m);
  }

  // ---------- a call left alone ----------

  // Every event of one call; those that cannot happen are passed over.
  function CallEvents(c: nat, p: Params, valid: bool, faults: seq<Fault>, commitFails: bool,
                      unlinkFails: bool): seq<Event>
    requires |faults| == STEPS
  {
    [Arrive(c, p, valid)] + [Find(c)] + [Check(c)] + StepEvents(c, faults, STEPS)
    + [Commit(c, commitFails)] + [Clean(c, unlinkFails)] + [Recheck(c)]
  }

  function StepEvents(c: nat, faults: seq<Fault>, n: nat): seq<Event>
    requires n <= |faults|
  {
    if n == 0 then [] else StepEvents(c, faults, n - 1) + [Step(c, faults[n - 1])]
  }

  ghost predicate OthersIdle(s: State, c: nat) {
    forall d :: d in s.calls && d != c ==> !s.calls[d].Running?
  }

  lemma {:induction false} RunAppend(env: Env, s: State, es: seq<Event>, e: Event)
    ensures Run(env, s, es + [e]) == Next(env, Run(env, s, es), e)
  {
    assert (es + [e])[..|es|] == es;
  }

  lemma {:induction false} RunJoin(env: Env, s: State, a: seq<Event>, b: seq<Event>)
    ensures Run(env, s, a + b) == Run(env, Run(env, s, a), b)
    decreases |b|
  {
    if b == [] {
      assert a + b == a;
    } else {
      var n := |b| - 1;
      assert (a + b)[..|a| + n] == a + b[..n] && (a + b)[|a| + n] == b[n];
      RunJoin(env, s, a, b[..n]);
    }
  }

  lemma {:induction false} RunThree(env: Env, s: State, e1: Event, e2: Event, e3: Event)
    ensures Run(env, s, [e1] + [e2] + [e3]) == Next(env, Next(env, Next(env, s, e1), e2), e3)
  {
    assert [] + [e1] == [e1];
    RunAppend(env, s, [], e1);
    RunAppend(env, s, [e1], e2);
    RunAppend(env, s, [e1] + [e2], e3);
  }

  // What one call left alone has answered, committed and written.
  ghost predicate Answered(env: Env, s: State, t: State, c: nat, p: Params, passes: bool, faults: seq<Fault>,
                           commitFails: bool, unlinkFails: bool)
    requires |faults| == STEPS
  {
    && c in t.calls && t.calls[c].Done?
    && RightAnswer(env, s.rows, s.rows, p, passes, faults, commitFails, s.nextOrg, t.calls[c].outcome)
    && RightRows(env, s.rows, s.rows, p, passes, t.calls[c].outcome, t.rows)
    && RightFiles(env, s.rows, s.rows, p, passes, faults, unlinkFails, s.nextOrg, t.calls[c].outcome, s.files, t.files)
  }

  // Once it is over, nothing more comes of the call.
  lemma {:induction false} OverStays(env: Env, t: State, c: nat, e: Event)
    requires c in t.calls && t.calls[c].Done? && !e.OtherUser? && e.c == c
    ensures Next(env, t, e) == t
  {
  }

  lemma {:induction false} StepsStayOver(env: Env, t: State, c: nat, faults: seq<Fault>, n: nat)
    requires c in t.calls && t.calls[c].Done? && n <= |faults|
    ensures Run(env, t, StepEvents(c, faults, n)) == t
  {
    if n > 0 {
      StepsStayOver(env, t, c, faults, n - 1);
      RunAppend(env, t, StepEvents(c, faults, n - 1), Step(c, faults[n - 1]));
    }
  }

  // The call has come through n steps for org, and committed nothing.
  ghost predicate HasTaken(env: Env, s: State, t: State, c: nat, p: Params, org: nat, faults: seq<Fault>, n: nat)
    requires n <= STEPS == |faults|
  {
    var file := n >= 5 && p.c.demoDocument;
    && t.rows == s.rows && OthersIdle(t, c) && c in t.calls
    && t.calls[c] == Running(p, org, n, RowsUpTo(env, p, org, n), file)
    && t.files == s.files + (if file then {org} else {})
    && Spared(p, faults, n)
    && (n >= 2 ==> !UsernameTaken(s.rows, p.c.username)) && (n >= 6 ==> !KeyUsed(s.rows, p.key))
  }

  // The call has been stopped, with what it must undo.
  ghost predicate HasStopped(s: State, t: State, c: nat, p: Params, org: nat, faults: seq<Fault>, commitFails: bool)
    requires |faults| == STEPS
  {
    var made, written := FileMade(s.rows, p, faults), faults[4] != WriteFails;
    && t.rows == s.rows && c in t.calls
    && t.calls[c] == Undone(p, org, Raced(s.rows, p, faults), made && written, made && !written)
    && t.files == s.files + (if made then {org} else {})
    && (Spared(p, faults, STEPS) && !commitFails ==> Raced(s.rows, p, faults))
  }

  lemma {:induction false} LoneStep(env: Env, s: State, t: State, c: nat, p: Params, org: nat, faults: seq<Fault>,
                                    n: nat)
    requires n < STEPS == |faults| && org !in s.files && HasTaken(env, s, t, c, p, org, faults, n)
    ensures var u := Next(env, t, Step(c, faults[n]));
            HasTaken(env, s, u, c, p, org, faults, n + 1) || HasStopped(s, u, c, p, org, faults, false)
  {
    StepTaken(env, t, c, faults[n]);
    if Stops(s.rows, p, faults[n], n) {
      StepStops(env, s, t, c, p, org, faults, n);
    } else {
      assert RowsUpTo(env, p, org, n + 1) == RowsUpTo(env, p, org, n) + StepRows(env, p, org, n);
    }
  }

  lemma {:induction false} StepStops(env: Env, s: State, t: State, c: nat, p: Params, org: nat, faults: seq<Fault>,
                                     n: nat)
    requires n < STEPS == |faults| && org !in s.files && HasTaken(env, s, t, c, p, org, faults, n)
    requires Stops(s.rows, p, faults[n], n)
    ensures HasStopped(s, TakeStep(env, t, c, t.calls[c], faults[n]), c, p, org, faults, false)
  {
    StoppedAt(s.rows, p, faults, n);
  }

  lemma {:induction false} StepTaken(env: Env, t: State, c: nat, fault: Fault)
    requires OthersIdle(t, c) && c in t.calls && t.calls[c].Running? && t.calls[c].step < STEPS
    ensures Next(env, t, Step(c, fault)) == TakeStep(env, t, c, t.calls[c], fault)
  {
    assert !Blocked(t, c, t.calls[c].p, t.calls[c].step);
  }

  lemma {:induction false} LoneSteps(env: Env, s: State, t: State, c: nat, p: Params, org: nat, faults: seq<Fault>,
                                     n: nat)
    requires n <= STEPS == |faults| && org !in s.files && HasTaken(env, s, t, c, p, org, faults, 0)
    ensures var u := Run(env, t, StepEvents(c, faults, n));
            HasTaken(env, s, u, c, p, org, faults, n) || HasStopped(s, u, c, p, org, faults, false)
  {
    if n > 0 {
      var before, e := Run(env, t, StepEvents(c, faults, n - 1)), Step(c, faults[n - 1]);
      LoneSteps(env, s, t, c, p, org, faults, n - 1);
      if HasTaken(env, s, before, c, p, org, faults, n - 1) {
        LoneStep(env, s, before, c, p, org, faults, n - 1);
      } else {
        StoppedStays(env, s, before, c, p, org, faults, e);
      }
      RunAppend(env, t, StepEvents(c, faults, n - 1), e);
    }
  }

  lemma {:induction false} StoppedStays(env: Env, s: State, t: State, c: nat, p: Params, org: nat, faults: seq<Fault>,
                                        e: Event)
    requires |faults| == STEPS && HasStopped(s, t, c, p, org, faults, false) && (e.Step? || e.Commit?) && e.c == c
    ensures Next(env, t, e) == t
  {
  }

  // Where the checks leave a call.
  ghost function Admitted(env: Env, s: State, c: nat, p: Params, passes: bool): State {
    if !passes then At(s, c, Done(p, None, Invalid, false))
    else if KeyUsed(s.rows, p.key) then At(s, c, Done(p, None, FindReplay(env, s.rows, p).value, false))
    else if !Inserts(env, s.rows, p, true) then At(s, c, Done(p, None, Conflict, false))
    else At(s, c, Running(p, s.nextOrg, 0, {}, false)).(nextOrg := s.nextOrg + 1)
  }

  lemma {:induction false} LoneStart(env: Env, s: State, c: nat, p: Params, valid: bool)
    requires c !in s.calls
    ensures Run(env, s, [Arrive(c, p, valid)] + [Find(c)] + [Check(c)])
            == Admitted(env, s, c, p, valid && ModulesPass(p))
  {
    RunThree(env, s, Arrive(c, p, valid), Find(c), Check(c));
    LoneArrive(env, s, c, p, valid);
    if valid && ModulesPass(p) {
      LoneFind(env, s, c, p);
      AtAt(s, c, Arrived(p), Fresh(p));
      if KeyUsed(s.rows, p.key) {
        OverStays(env, Admitted(env, s, c, p, true), c, Check(c));
      } else {
        LoneCheck(env, s, c, p);
      }
    } else {
      OverStays(env, Admitted(env, s, c, p, false), c, Find(c));
      OverStays(env, Admitted(env, s, c, p, false), c, Check(c));
    }
  }

  lemma {:induction false} AtAt(s: State, c: nat, first: Call, second: Call)
    ensures At(At(s, c, first), c, second) == At(s, c, second)
  {
    assert s.calls[c := first][c := second] == s.calls[c := second];
  }

  lemma {:induction false} LoneArrive(env: Env, s: State, c: nat, p: Params, valid: bool)
    requires c !in s.calls
    ensures Next(env, s, Arrive(c, p, valid))
            == At(s, c, if valid && ModulesPass(p) then Arrived(p) else Done(p, None, Invalid, false))
  {
  }

  lemma {:induction false} ReplayFound(env: Env, rows: set<Row>, p: Params)
    requires KeyUsed(rows, p.key)
    ensures FindReplay(env, rows, p).Some? && IsReplay(env, rows, p, FindReplay(env, rows, p).value)
  {
  }

  lemma {:induction false} LoneFind(env: Env, s: State, c: nat, p: Params)
    ensures Next(env, At(s, c, Arrived(p)), Find(c))
            == At(s, c, if KeyUsed(s.rows, p.key) then Done(p, None, FindReplay(env, s.rows, p).value, false)
                        else Fresh(p))
  {
    var after := if KeyUsed(s.rows, p.key) then Done(p, None, FindReplay(env, s.rows, p).value, false) else Fresh(p);
    AtAt(s, c, Arrived(p), after);
  }

  lemma {:induction false} LoneCheck(env: Env, s: State, c: nat, p: Params)
    requires !KeyUsed(s.rows, p.key)
    ensures Next(env, At(s, c, Fresh(p)), Check(c)) == Admitted(env, s, c, p, true)
  {
    AtAt(s, c, Fresh(p), Done(p, None, Conflict, false));
    AtAt(s, c, Fresh(p), Running(p, s.nextOrg, 0, {}, false));
  }

  // After the inserts: the commit, or undoing what was done.
  lemma {:induction false} LoneCommit(env: Env, s: State, t: State, c: nat, p: Params, faults: seq<Fault>,
                                      commitFails: bool, unlinkFails: bool)
    requires |faults| == STEPS && HasTaken(env, s, t, c, p, s.nextOrg, faults, STEPS)
    requires Inserts(env, s.rows, p, true)
    ensures var u := Next(env, t, Commit(c, commitFails));
            if commitFails then HasStopped(s, u, c, p, s.nextOrg, faults, true)
            else Answered(env, s, u, c, p, true, faults, false, unlinkFails)
  {
    TenantRowsAre(env, p, s.nextOrg);
  }

  lemma {:induction false} LoneUndo(env: Env, s: State, t: State, c: nat, p: Params, faults: seq<Fault>,
                                    commitFails: bool, unlinkFails: bool)
    requires |faults| == STEPS && HasStopped(s, t, c, p, s.nextOrg, faults, commitFails) && s.nextOrg !in s.files
    requires Inserts(env, s.rows, p, true)
    ensures Answered(env, s, Next(env, Next(env, t, Clean(c, unlinkFails)), Recheck(c)), c, p, true, faults,
                     commitFails, unlinkFails)
  {
    var u := Next(env, t, Clean(c, unlinkFails));
    var stays := FileMade(s.rows, p, faults) && (faults[4] == WriteFails || unlinkFails);
    assert u.files == s.files + if stays then {s.nextOrg} else {};
    if KeyUsed(s.rows, p.key) {
      ReplayFound(env, s.rows, p);
    }
  }

  lemma {:induction false} LoneEnd(env: Env, s: State, t: State, c: nat, p: Params, faults: seq<Fault>,
                                   commitFails: bool, unlinkFails: bool)
    requires |faults| == STEPS && s.nextOrg !in s.files && Inserts(env, s.rows, p, true)
    requires HasTaken(env, s, t, c, p, s.nextOrg, faults, STEPS) || HasStopped(s, t, c, p, s.nextOrg, faults, false)
    ensures var u := Next(env, Next(env, Next(env, t, Commit(c, commitFails)), Clean(c, unlinkFails)), Recheck(c));
            Answered(env, s, u, c, p, true, faults, commitFails, unlinkFails)
  {
    var committed := Next(env, t, Commit(c, commitFails));
    if HasTaken(env, s, t, c, p, s.nextOrg, faults, STEPS) {
      LoneCommit(env, s, t, c, p, faults, commitFails, unlinkFails);
    } else {
      StoppedStays(env, s, t, c, p, s.nextOrg, faults, Commit(c, commitFails));
    }
    if HasStopped(s, committed, c, p, s.nextOrg, faults, commitFails) {
      LoneUndo(env, s, committed, c, p, faults, commitFails, unlinkFails);
    } else {
      OverStays(env, committed, c, Clean(c, unlinkFails));
      OverStays(env, committed, c, Recheck(c));
    }
  }

  // From any state in which no one is at work, whatever goes wrong: a call left alone ends with
  // the right answer, rows and files.
  lemma {:induction false} LoneCallAnswers(env: Env, s: State, c: nat, p: Params, valid: bool, faults: seq<Fault>,
                                           commitFails: bool, unlinkFails: bool)
    requires |faults| == STEPS && c !in s.calls && OthersIdle(s, c) && s.nextOrg !in s.files
    ensures Answered(env, s, Run(env, s, CallEvents(c, p, valid, faults, commitFails, unlinkFails)), c, p,
                     valid && ModulesPass(p), faults, commitFails, unlinkFails)
  {
    var passes := valid && ModulesPass(p);
    var first := [Arrive(c, p, valid)] + [Find(c)] + [Check(c)];
    var last := [Commit(c, commitFails)] + [Clean(c, unlinkFails)] + [Recheck(c)];
    var t := Run(env, s, first);
    var u := Run(env, t, StepEvents(c, faults, STEPS));
    assert CallEvents(c, p, valid, faults, commitFails, unlinkFails) == (first + StepEvents(c, faults, STEPS)) + last;
    RunJoin(env, s, first + StepEvents(c, faults, STEPS), last);
    RunJoin(env, s, first, StepEvents(c, faults, STEPS));
    RunThree(env, u, Commit(c, commitFails), Clean(c, unlinkFails), Recheck(c));
    LoneStart(env, s, c, p, valid);
    if Inserts(env, s.rows, p, passes) {
      AdmittedTakesOff(env, s, c, p, faults);
      LoneSteps(env, s, t, c, p, s.nextOrg, faults, STEPS);
      LoneEnd(env, s, u, c, p, faults, commitFails, unlinkFails);
    } else {
      StepsStayOver(env, t, c, faults, STEPS);
      OverStays(env, t, c, Commit(c, commitFails));
      OverStays(env, t, c, Clean(c, unlinkFails));
      OverStays(env, t, c, Recheck(c));
      AwayIsAnswered(env, s, c, p, passes, faults, commitFails, unlinkFails);
    }
  }

  lemma {:induction false} AdmittedTakesOff(env: Env, s: State, c: nat, p: Params, faults: seq<Fault>)
    requires |faults| == STEPS && OthersIdle(s, c) && Inserts(env, s.rows, p, true)
    ensures HasTaken(env, s, Admitted(env, s, c, p, true), c, p, s.nextOrg, faults, 0)
  {
  }

  lemma {:induction false} AwayIsAnswered(env: Env, s: State, c: nat, p: Params, passes: bool, faults: seq<Fault>,
                                          commitFails: bool, unlinkFails: bool)
    requires |faults| == STEPS && !Inserts(env, s.rows, p, passes)
    ensures Answered(env, s, Admitted(env, s, c, p, passes), c, p, passes, faults, commitFails, unlinkFails)
  {
    if KeyUsed(s.rows, p.key) {
      ReplayFound(env, s.rows, p);
    }
  }

  // Among them: a call that passes, on a new key with free names and no mishap, creates its
  // tenant with all that belongs to it.
  lemma {:induction false} LoneCallCreates(env: Env, s: State, c: nat, p: Params, faults: seq<Fault>)
    requires c !in s.calls && OthersIdle(s, c) && s.nextOrg !in s.files
    requires Inserts(env, s.rows, p, ModulesPass(p)) && |faults| == STEPS && Spared(p, faults, STEPS)
    ensures var t := Run(env, s, CallEvents(c, p, true, faults, false, false));
            && c in t.calls && t.calls[c].Done? && t.calls[c].outcome == Created(s.nextOrg)
            && forall r :: r in t.rows <==> r in s.rows || BelongsTo(env, p, s.nextOrg, r)
  {
    LoneCallAnswers(env, s, c, p, true, faults, false, false);
  }

  // ---------- one call ----------

  // The database and the disk as one call sees them.
  class Server {
    const env: Env
    var rows: set<Row>
    var files: set<nat>
    var nextOrg: nat

    constructor (env: Env, rows: set<Row>, files: set<nat>, nextOrg: nat)
      ensures this.env == env && this.rows == rows && this.files == files && this.nextOrg == nextOrg
    {
      this.env, this.rows, this.files, this.nextOrg := env, rows, files, nextOrg;
    }

    method Replay(p: Params) returns (found: Option<Outcome>)
      ensures found == None <==> !KeyUsed(rows, p.key)
      ensures found.Some? ==> IsReplay(env, rows, p, found.value)
    {
      if !KeyUsed(rows, p.key) {
        return None;
      }
      var r :| r in rows && r.RequestRow? && r.key == p.key;
      found := Some(if r.hash == env.digest(p.c) then Replayed(r.org) else KeyConflict);
    }

    // meanwhile: what others commit between this call's checks and its inserts.
    // modules: those of p, as listed; valid: by the rules for names and addresses.
    method ProvisionTenant(p: Params, modules: seq<string>, valid: bool, meanwhile: set<Row>, faults: seq<Fault>,
                           commitFails: bool, unlinkFails: bool) returns (outcome: Outcome)
      requires |faults| == STEPS && nextOrg !in files && Lists(p, modules)
      modifies this
      ensures var passes := valid && TenantModules.ValidateTierModules(p.c.tier, modules) == [];
              && RightAnswer(env, old(rows), old(rows) + meanwhile, p, passes, faults, commitFails, old(nextOrg), outcome)
              && RightRows(env, old(rows), old(rows) + meanwhile, p, passes, outcome, rows)
              && RightFiles(env, old(rows), old(rows) + meanwhile, p, passes, faults, unlinkFails, old(nextOrg),
                            outcome, old(files), files)
      ensures outcome.Created? <==>
                && valid && TenantModules.ValidateTierModules(p.c.tier, modules) == []
                && Spared(p, faults, STEPS) && !commitFails
                && !KeyUsed(old(rows), p.key) && !NameTaken(env, old(rows), p.c.name)
                && !UsernameTaken(old(rows) + meanwhile, p.c.username) && !KeyUsed(old(rows) + meanwhile, p.key)
      ensures outcome.Created? ==> TenantModules.Meets(p.c.tier, Keys(p))
    {
      if !valid || TenantModules.ValidateTierModules(p.c.tier, modules) != [] {
        return Invalid;
      }
      var replay := Replay(p);
      if replay.Some? {
        return replay.value;
      }
      if NameTaken(env, rows, p.c.name) || UsernameTaken(rows, p.c.username) {
        return Conflict;
      }
      rows := rows + meanwhile;
      ghost var later := rows;
      assert Inserts(env, old(rows), p, true);
      outcome := InsertTenant(p, faults, commitFails, unlinkFails);
      PassingMeets(p, modules);
      CreatedExactly(env, old(rows), later, p, true, faults, commitFails, old(nextOrg), outcome);
    }

    // The transaction: the steps and the commit, or undoing them.
    method InsertTenant(p: Params, faults: seq<Fault>, commitFails: bool, unlinkFails: bool) returns (outcome: Outcome)
      requires |faults| == STEPS && nextOrg !in files
      modifies this
      ensures RightEnd(env, old(rows), p, faults, commitFails, old(nextOrg), outcome)
      ensures if outcome.Created? then forall r :: r in rows <==> r in old(rows) || BelongsTo(env, p, old(nextOrg), r)
              else rows == old(rows)
      ensures files == old(files) + if FileMade(old(rows), p, faults)
                                       && (outcome.Created? || faults[4] == WriteFails || unlinkFails)
                                    then {old(nextOrg)} else {}
      ensures nextOrg == old(nextOrg) + 1
    {
      var org := nextOrg;
      nextOrg := nextOrg + 1;
      var done, pending, demoFile, integrity := RunSteps(p, org, faults);
      if done && !commitFails {
        rows := rows + pending;
        return Created(org);
      }
      if demoFile && !unlinkFails {
        files := files - {org};
      }
      if integrity {
        var replay := Replay(p);
        return if replay.Some? then replay.value else Conflict;
      }
      outcome := Failed;
    }

    // The loop over the steps, up to the first that fails.
    method RunSteps(p: Params, org: nat, faults: seq<Fault>)
      returns (done: bool, pending: set<Row>, demoFile: bool, integrity: bool)
      requires |faults| == STEPS && org !in files
      modifies this`files
      ensures done <==> Spared(p, faults, STEPS) && !UsernameTaken(rows, p.c.username) && !KeyUsed(rows, p.key)
      ensures done ==> forall r :: r in pending <==> BelongsTo(env, p, org, r)
      ensures integrity <==> Raced(rows, p, faults)
      ensures demoFile <==> FileMade(rows, p, faults) && faults[4] != WriteFails
      ensures files == old(files) + if FileMade(rows, p, faults) then {org} else {}
    {
      pending, demoFile, integrity := {}, false, false;
      for i := 0 to STEPS
        invariant pending == RowsUpTo(env, p, org, i) && !integrity
        invariant demoFile <==> i >= 5 && p.c.demoDocument
        invariant files == old(files) + if demoFile then {org} else {}
        invariant i >= 2 ==> !UsernameTaken(rows, p.c.username)
        invariant i >= 6 ==> !KeyUsed(rows, p.key)
        invariant Spared(p, faults, i)
      {
        if Stops(rows, p, faults[i], i) {
          StoppedAt(rows, p, faults, i);
        }
        if faults[i] == FailsBefore {
          return false, {}, demoFile, false;
        }
        if i == 4 && p.c.demoDocument {
          files := files + {org};
          if faults[i] == WriteFails {
            return false, {}, demoFile, false;
          }
          demoFile := true;
        }
        if Violates(rows, p, i) {
          return false, {}, demoFile, true;
        }
        if faults[i] == FlushFails {
          return false, {}, demoFile, false;
        }
        pending := pending + StepRows(env, p, org, i);
      }
      TenantRowsAre(env, p, org);
      done := true;
    }
  }
}
