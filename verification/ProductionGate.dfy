/**
 The three places that decide whether a system may go into production: the deployment check,
 the readiness report, and the governance update; and what every run of them keeps.

 Times are microseconds.  A request reads the clock once.
 */
module ProductionGate {
  import opened Basics

  const DAY: int := 24 * 3600 * 1_000_000
  const RISK_AGE: int := 30 * DAY

  type OtherText = s: string | s != "restricted" && s != "production" && s != "archived"

  // No stage, the stages the code names, and any other text.
  datatype Stage = Unset | Restricted | Production | Archived | Named(name: OtherText)

  datatype System = System(orgId: nat, stage: Stage, conformity: bool, reviewedAt: Option<int>,
                           category: Option<string>, deleted: bool)

  datatype Org = Org(required: Option<int>, maxReviewAge: Option<int>)

  datatype Risk = Risk(id: nat, systemId: nat, high: bool, deleted: bool, createdAt: Option<int>)

  // A corrective action, of which only what it is about and whether it is closed matter here.
  datatype Action = Action(riskId: Option<nat>, closed: bool)

  datatype Approval = Approval(systemId: nat, approver: int, at: int)

  // The rows of every table in the order of their ids.
  datatype Tables = Tables(systems: map<nat, System>, orgs: map<nat, Org>, risks: seq<Risk>,
                           actions: seq<Action>, approvals: seq<Approval>)

  // admin: the role; superAdmin: super-admin powers, which need a verified second factor.
  datatype Actor = Actor(id: int, orgId: nat, admin: bool, superAdmin: bool)

  datatype Update = Update(category: Option<string>, stage: Option<Stage>, conformity: Option<bool>,
                           reviewedAt: Option<int>, reasonGiven: bool)

  datatype Refusal =
    | NotFound
    | NotAllowed
    | NoReason
    | NotRestricted
    | OpenRisk(risk: nat)
    | AgedRisk(risk: nat)
    | NoConformity
    | NoOrganization
    | TooFewApprovals(required: int, current: nat)
    | ApproverActs
    | BadConfig

  datatype Report = Report(current: nat, required: int, openHigh: nat, agedHigh: nat,
                           conformity: bool, separation: bool, allowed: bool)

  predicate Live(t: Tables, sid: nat, actor: Actor) {
    sid in t.systems && t.systems[sid].orgId == actor.orgId && !t.systems[sid].deleted
  }

  predicate High(risk: Risk, sid: nat) {
    risk.systemId == sid && risk.high && !risk.deleted
  }

  function HighRisks(risks: seq<Risk>, sid: nat): seq<Risk> {
    if risks == [] then []
    else HighRisks(risks[..|risks| - 1], sid) + if High(risks[|risks| - 1], sid) then [risks[|risks| - 1]] else []
  }

  predicate Closed(actions: seq<Action>, risk: nat) {
    exists k :: 0 <= k < |actions| && actions[k].closed && actions[k].riskId == Some(risk)
  }

  predicate Aged(risk: Risk, now: int) {
    risk.createdAt.Some? && risk.createdAt.value < now - RISK_AGE
  }

  function ApprovalsOf(approvals: seq<Approval>, sid: nat): seq<Approval> {
    if approvals == [] then []
    else
      var n := |approvals| - 1;
      ApprovalsOf(approvals[..n], sid) + if approvals[n].systemId == sid then [approvals[n]] else []
  }

  // What a query for the latest of these rows may answer; it may pick any of equal times.
  ghost predicate IsLatest(rows: seq<Approval>, latest: Option<Approval>) {
    match latest
    case None => rows == []
    case Some(a) => a in rows && forall b :: b in rows ==> b.at <= a.at
  }

  // A number that counts as absent when it is zero, as absent ones do.
  function OrElse(n: Option<int>, otherwise: int): int {
    if n.Some? && n.value != 0 then n.value else otherwise
  }

  // The first high risk that stands in the way, open before aged.
  function RiskProblem(risks: seq<Risk>, actions: seq<Action>, now: int): Option<Refusal> {
    if risks == [] then None
    else if !Closed(actions, risks[0].id) then Some(OpenRisk(risks[0].id))
    else if Aged(risks[0], now) then Some(AgedRisk(risks[0].id))
    else RiskProblem(risks[1..], actions, now)
  }

  function OpenAmong(risks: seq<Risk>, actions: seq<Action>): nat {
    if risks == [] then 0
    else OpenAmong(risks[..|risks| - 1], actions) + if Closed(actions, risks[|risks| - 1].id) then 0 else 1
  }

  function AgedAmong(risks: seq<Risk>, now: int): nat {
    if risks == [] then 0
    else AgedAmong(risks[..|risks| - 1], now) + if Aged(risks[|risks| - 1], now) then 1 else 0
  }

  // ---------- the deployment check ----------

  function CheckDeployment(t: Tables, sid: nat, actor: Actor, now: int, latest: Option<Approval>): Option<Refusal>
    requires sid in t.systems
  {
    var system := t.systems[sid];
    var problem := RiskProblem(HighRisks(t.risks, sid), t.actions, now);
    if !system.stage.Restricted? then Some(NotRestricted)
    else if problem.Some? then problem
    else if !system.conformity then Some(NoConformity)
    else if system.orgId !in t.orgs then Some(NoOrganization)
    else
      var required := OrElse(t.orgs[system.orgId].required, 1);
      var current := |ApprovalsOf(t.approvals, sid)|;
      if current < required then Some(TooFewApprovals(required, current))
      else if latest.Some? && latest.value.approver == actor.id then Some(ApproverActs)
      else None
  }

  // ---------- what a request does ----------

  datatype Call =
    | Approve
    | Deploy(latest: Option<Approval>)
    | Patch(update: Update, latest: Option<Approval>)
    | Create
    | Archive
    | CreateOrg(orgId: nat)
    | Configure(orgId: nat, required: Option<int>, maxReviewAge: Option<int>)
    | Elsewhere(risks: seq<Risk>, actions: seq<Action>)

  // Organizations are created with the defaults of their columns, here or by provisioning.
  // Elsewhere stands for every other endpoint: it leaves risks and corrective actions in any
  // state at all.
  datatype Event = Event(actor: Actor, sid: nat, now: int, call: Call)

  function PatchRefusal(t: Tables, sid: nat, actor: Actor, update: Update, now: int,
                        latest: Option<Approval>): Option<Refusal>
    requires sid in t.systems
  {
    var orgId := t.systems[sid].orgId;
    var problem := RiskProblem(HighRisks(t.risks, sid), t.actions, now);
    if !update.reasonGiven then Some(NoReason)
    else if update.stage != Some(Production) then None
    else if !actor.admin then Some(NotAllowed)
    else if latest.Some? && latest.value.approver == actor.id then Some(ApproverActs)
    else if problem.Some? then problem
    else if update.conformity != Some(true) then Some(NoConformity)
    else if orgId !in t.orgs then Some(NoOrganization)
    else
      var required := OrElse(t.orgs[orgId].required, 1);
      var current := |ApprovalsOf(t.approvals, sid)|;
      if current < required then Some(TooFewApprovals(required, current)) else None
  }

  predicate Stale(s: System, orgs: map<nat, Org>, now: int) {
    && s.orgId in orgs
    && s.reviewedAt.Some?
    && s.reviewedAt.value < now - OrElse(orgs[s.orgId].maxReviewAge, 30) * DAY
  }

  function Or<T>(wanted: Option<T>, present: T): T {
    if wanted.Some? then wanted.value else present
  }

  function Patched(s: System, update: Update, orgs: map<nat, Org>, now: int): System {
    var changed := s.(category := if update.category.Some? then update.category else s.category,
                      stage := Or(update.stage, s.stage),
                      conformity := Or(update.conformity, s.conformity),
                      reviewedAt := if update.reviewedAt.Some? then update.reviewedAt else s.reviewedAt);
    if Stale(changed, orgs, now) then changed.(stage := Restricted) else changed
  }

  function Configured(o: Org, required: Option<int>, maxReviewAge: Option<int>): Org {
    Org(if required.Some? then required else o.required, if maxReviewAge.Some? then maxReviewAge else o.maxReviewAge)
  }

  function Next(t: Tables, e: Event): (Tables, Option<Refusal>) {
    var sid := e.sid;
    match e.call
    case Approve =>
      if !e.actor.admin && !e.actor.superAdmin then (t, Some(NotAllowed))
      else if !Live(t, sid, e.actor) then (t, Some(NotFound))
      else (t.(approvals := t.approvals + [Approval(sid, e.actor.id, e.now)]), None)
    case Deploy(latest) =>
      if !e.actor.admin && !e.actor.superAdmin then (t, Some(NotAllowed))
      else if !Live(t, sid, e.actor) then (t, Some(NotFound))
      else
        var refusal := CheckDeployment(t, sid, e.actor, e.now, latest);
        if refusal.Some? then (t, refusal)
        else (t.(systems := t.systems[sid := t.systems[sid].(stage := Production)]), None)
    case Patch(update, latest) =>
      if !Live(t, sid, e.actor) then (t, Some(NotFound))
      else
        var refusal := PatchRefusal(t, sid, e.actor, update, e.now, latest);
        if refusal.Some? then (t, refusal)
        else (t.(systems := t.systems[sid := Patched(t.systems[sid], update, t.orgs, e.now)]), None)
    case Create =>
      if sid in t.systems then (t, None)
      else (t.(systems := t.systems[sid := System(e.actor.orgId, Unset, false, None, None, false)]), None)
    case Archive =>
      if !Live(t, sid, e.actor) then (t, Some(NotFound))
      else (t.(systems := t.systems[sid := t.systems[sid].(deleted := true, stage := Archived)]), None)
    case CreateOrg(orgId) =>
      if orgId in t.orgs then (t, None)
      else (t.(orgs := t.orgs[orgId := Org(Some(1), Some(30))]), None)
    case Configure(orgId, required, maxReviewAge) =>
      if !e.actor.admin && !e.actor.superAdmin then (t, Some(NotAllowed))
      else if orgId !in t.orgs then (t, Some(NotFound))
      else if (required.Some? && required.value < 1) || (maxReviewAge.Some? && maxReviewAge.value < 1) then
        (t, Some(BadConfig))
      else (t.(orgs := t.orgs[orgId := Configured(t.orgs[orgId], required, maxReviewAge)]), None)
    case Elsewhere(risks, actions) => (t.(risks := risks, actions := actions), None)
  }

  // ---------- the endpoints ----------

  class Governance {
    var systems: map<nat, System>
    var orgs: map<nat, Org>
    var risks: seq<Risk>
    var actions: seq<Action>
    var approvals: seq<Approval>

    constructor (t: Tables)
      ensures Value() == t
    {
      systems, orgs, risks, actions, approvals := t.systems, t.orgs, t.risks, t.actions, t.approvals;
    }

    function Value(): Tables
      reads this
    {
      Tables(systems, orgs, risks, actions, approvals)
    }

    method CountProblems(highRisks: seq<Risk>, now: int) returns (openHigh: nat, agedHigh: nat)
      ensures openHigh == OpenAmong(highRisks, actions) && agedHigh == AgedAmong(highRisks, now)
    {
      openHigh, agedHigh := 0, 0;
      for i := 0 to |highRisks|
        invariant openHigh == OpenAmong(highRisks[..i], actions) && agedHigh == AgedAmong(highRisks[..i], now)
      {
        assert highRisks[..i + 1][..i] == highRisks[..i];
        if !Closed(actions, highRisks[i].id) {
          openHigh := openHigh + 1;
        }
        if Aged(highRisks[i], now) {
          agedHigh := agedHigh + 1;
        }
      }
      assert highRisks[..|highRisks|] == highRisks;
    }

    // The report names what counts, and allows a deployment when nothing stands against it.
    method ProductionReadinessCheck(sid: nat, actor: Actor, now: int) returns (report: Option<Report>)
      ensures report.Some? <==> Live(Value(), sid, actor) && systems[sid].orgId in orgs
      ensures report.Some? ==>
                var r, rows := report.value, ApprovalsOf(approvals, sid);
                && r.current == |rows|
                && r.required == OrElse(orgs[systems[sid].orgId].required, 1)
                && r.openHigh == OpenAmong(HighRisks(risks, sid), actions)
                && r.agedHigh == AgedAmong(HighRisks(risks, sid), now)
                && r.conformity == systems[sid].conformity
                && (r.separation <==> rows != [] && rows[|rows| - 1].approver == actor.id)
                && r.allowed == Allowed(Value(), sid, actor, now)
    {
      if sid !in systems || systems[sid].orgId != actor.orgId || systems[sid].deleted {
        return None;
      }
      var system := systems[sid];
      if system.orgId !in orgs {
        return None;
      }
      var required := OrElse(orgs[system.orgId].required, 1);
      var rows := ApprovalsOf(approvals, sid);
      var highRisks := HighRisks(risks, sid);
      var openHigh, agedHigh := CountProblems(highRisks, now);
      var separation := rows != [] && rows[|rows| - 1].approver == actor.id;
      var allowed := |rows| >= required && openHigh == 0 && agedHigh == 0 && system.conformity && !separation;
      AllowedByCounts(Value(), sid, actor, now);
      report := Some(Report(|rows|, required, openHigh, agedHigh, system.conformity, separation, allowed));
    }

    method ApproveProduction(sid: nat, actor: Actor, now: int) returns (refusal: Option<Refusal>)
      modifies this
      ensures (Value(), refusal) == Next(old(Value()), Event(actor, sid, now, Approve))
      ensures refusal.None? ==> approvals == old(approvals) + [Approval(sid, actor.id, now)]
    {
      if !actor.admin && !actor.superAdmin {
        return Some(NotAllowed);
      }
      if sid !in systems || systems[sid].orgId != actor.orgId || systems[sid].deleted {
        return Some(NotFound);
      }
      approvals := approvals + [Approval(sid, actor.id, now)];
      refusal := None;
    }

    method DeployAiSystem(sid: nat, actor: Actor, now: int, latest: Option<Approval>) returns (refusal: Option<Refusal>)
      modifies this
      ensures (Value(), refusal) == Next(old(Value()), Event(actor, sid, now, Deploy(latest)))
    {
      if !actor.admin && !actor.superAdmin {
        return Some(NotAllowed);
      }
      if sid !in systems || systems[sid].orgId != actor.orgId || systems[sid].deleted {
        return Some(NotFound);
      }
      refusal := CheckDeployment(Value(), sid, actor, now, latest);
      if refusal.None? {
        systems := systems[sid := systems[sid].(stage := Production)];
      }
    }

    // The gate of the update, in its own order of checks.
    method MayGoToProduction(sid: nat, actor: Actor, update: Update, now: int, latest: Option<Approval>)
      returns (refusal: Option<Refusal>)
      requires sid in systems && update.reasonGiven && update.stage == Some(Production)
      ensures refusal == PatchRefusal(Value(), sid, actor, update, now, latest)
    {
      if !actor.admin {
        return Some(NotAllowed);
      }
      var highRisks := HighRisks(risks, sid);
      if latest.Some? && latest.value.approver == actor.id {
        return Some(ApproverActs);
      }
      for i := 0 to |highRisks|
        invariant RiskProblem(highRisks, actions, now) == RiskProblem(highRisks[i..], actions, now)
      {
        if !Closed(actions, highRisks[i].id) {
          return Some(OpenRisk(highRisks[i].id));
        }
        if Aged(highRisks[i], now) {
          return Some(AgedRisk(highRisks[i].id));
        }
      }
      if update.conformity != Some(true) {
        return Some(NoConformity);
      }
      if systems[sid].orgId !in orgs {
        return Some(NoOrganization);
      }
      var required := OrElse(orgs[systems[sid].orgId].required, 1);
      var current := |ApprovalsOf(approvals, sid)|;
      if current < required {
        return Some(TooFewApprovals(required, current));
      }
      refusal := None;
    }

    method ApplyUpdate(system: System, update: Update, now: int) returns (changed: System)
      ensures changed == Patched(system, update, orgs, now)
    {
      changed := system;
      if update.category.Some? {
        changed := changed.(category := update.category);
      }
      if update.stage.Some? {
        changed := changed.(stage := update.stage.value);
      }
      if update.conformity.Some? {
        changed := changed.(conformity := update.conformity.value);
      }
      if update.reviewedAt.Some? {
        changed := changed.(reviewedAt := update.reviewedAt);
      }
      if changed.orgId in orgs && changed.reviewedAt.Some? {
        var maxAge := OrElse(orgs[changed.orgId].maxReviewAge, 30);
        if changed.reviewedAt.value < now - maxAge * DAY {
          changed := changed.(stage := Restricted);
        }
      }
    }

    method UpdateAiSystemGovernance(sid: nat, actor: Actor, update: Update, now: int, latest: Option<Approval>)
      returns (refusal: Option<Refusal>)
      modifies this
      ensures (Value(), refusal) == Next(old(Value()), Event(actor, sid, now, Patch(update, latest)))
      ensures refusal.None? ==> sid in systems && (systems[sid].stage.Restricted? || !Stale(systems[sid], orgs, now))
    {
      if sid !in systems || systems[sid].orgId != actor.orgId || systems[sid].deleted {
        return Some(NotFound);
      }
      if !update.reasonGiven {
        return Some(NoReason);
      }
      if update.stage == Some(Production) {
        refusal := MayGoToProduction(sid, actor, update, now, latest);
        if refusal.Some? {
          return;
        }
      }
      var system := ApplyUpdate(systems[sid], update, now);
      systems := systems[sid := system];
      refusal := None;
      UpdateChecksReview(old(Value()), Event(actor, sid, now, Patch(update, latest)));
    }

    // Nothing is written before both values have passed.
    method UpdateGovernanceConfig(orgId: nat, actor: Actor, now: int, required: Option<int>, maxReviewAge: Option<int>)
      returns (refusal: Option<Refusal>)
      modifies this
      ensures (Value(), refusal) == Next(old(Value()), Event(actor, 0, now, Configure(orgId, required, maxReviewAge)))
    {
      if !actor.admin && !actor.superAdmin {
        return Some(NotAllowed);
      }
      if orgId !in orgs {
        return Some(NotFound);
      }
      var org := orgs[orgId];
      if required.Some? {
        if required.value < 1 {
          return Some(BadConfig);
        }
        org := org.(required := required);
      }
      if maxReviewAge.Some? {
        if maxReviewAge.value < 1 {
          return Some(BadConfig);
        }
        org := org.(maxReviewAge := maxReviewAge);
      }
      orgs := orgs[orgId := org];
      refusal := None;
    }
  }

  // ---------- what the gates ask for ----------

  // Every high risk has a closed corrective action and is at most 30 days old.
  ghost predicate Settled(t: Tables, sid: nat, now: int) {
    forall k :: 0 <= k < |t.risks| && High(t.risks[k], sid) ==> Closed(t.actions, t.risks[k].id)
                                                                && !Aged(t.risks[k], now)
  }

  ghost predicate Enough(t: Tables, sid: nat)
    requires sid in t.systems
  {
    var orgId := t.systems[sid].orgId;
    orgId in t.orgs && |ApprovalsOf(t.approvals, sid)| >= OrElse(t.orgs[orgId].required, 1)
  }

  predicate ActorIs(a: Option<Approval>, actor: Actor) {
    a.Some? && a.value.approver == actor.id
  }

  // The last approval as the report sees it: the last row.
  function LastRow(t: Tables, sid: nat): Option<Approval> {
    var rows := ApprovalsOf(t.approvals, sid);
    if rows == [] then None else Some(rows[|rows| - 1])
  }

  // What the report allows.
  ghost predicate Allowed(t: Tables, sid: nat, actor: Actor, now: int)
    requires sid in t.systems
  {
    Enough(t, sid) && Settled(t, sid, now) && t.systems[sid].conformity && !ActorIs(LastRow(t, sid), actor)
  }

  lemma {:induction false} HighRisksAre(risks: seq<Risk>, sid: nat, p: Risk -> bool)
    ensures (forall k :: 0 <= k < |HighRisks(risks, sid)| ==> p(HighRisks(risks, sid)[k]))
            <==> forall k :: 0 <= k < |risks| && High(risks[k], sid) ==> p(risks[k])
  {
    if risks != [] {
      var n := |risks| - 1;
      HighRisksAre(risks[..n], sid, p);
      var before, highs := HighRisks(risks[..n], sid), HighRisks(risks, sid);
      assert forall k :: 0 <= k < |before| ==> highs[k] == before[k];
      assert High(risks[n], sid) ==> highs[|before|] == risks[n];
    }
  }

  lemma {:induction false} NoneAmong(risks: seq<Risk>, actions: seq<Action>, now: int)
    ensures OpenAmong(risks, actions) == 0 <==> forall k :: 0 <= k < |risks| ==> Closed(actions, risks[k].id)
    ensures AgedAmong(risks, now) == 0 <==> forall k :: 0 <= k < |risks| ==> !Aged(risks[k], now)
  {
    if risks != [] {
      var before := risks[..|risks| - 1];
      NoneAmong(before, actions, now);
      assert forall k :: 0 <= k < |before| ==> before[k] == risks[k];
    }
  }

  lemma {:induction false} NoProblem(risks: seq<Risk>, actions: seq<Action>, now: int)
    ensures RiskProblem(risks, actions, now).None?
            <==> forall k :: 0 <= k < |risks| ==> Closed(actions, risks[k].id) && !Aged(risks[k], now)
  {
    if risks != [] {
      NoProblem(risks[1..], actions, now);
      assert forall k :: 0 < k < |risks| ==> risks[k] == risks[1..][k - 1];
    }
  }

  lemma {:induction false} NoProblemMeansSettled(t: Tables, sid: nat, now: int)
    ensures RiskProblem(HighRisks(t.risks, sid), t.actions, now).None? <==> Settled(t, sid, now)
  {
    HighRisksAre(t.risks, sid, (r: Risk) => Closed(t.actions, r.id) && !Aged(r, now));
    NoProblem(HighRisks(t.risks, sid), t.actions, now);
  }

  // The counters are zero together exactly when every high risk is settled.
  lemma {:induction false} AllowedByCounts(t: Tables, sid: nat, actor: Actor, now: int)
    requires sid in t.systems && t.systems[sid].orgId in t.orgs
    ensures var rows, highs := ApprovalsOf(t.approvals, sid), HighRisks(t.risks, sid);
            Allowed(t, sid, actor, now) <==>
              && |rows| >= OrElse(t.orgs[t.systems[sid].orgId].required, 1)
              && OpenAmong(highs, t.actions) == 0 && AgedAmong(highs, now) == 0
              && t.systems[sid].conformity && !(rows != [] && rows[|rows| - 1].approver == actor.id)
  {
    NoneAmong(HighRisks(t.risks, sid), t.actions, now);
    NoProblem(HighRisks(t.risks, sid), t.actions, now);
    NoProblemMeansSettled(t, sid, now);
  }

  lemma {:induction false} DeployPassesIff(t: Tables, sid: nat, actor: Actor, now: int, latest: Option<Approval>)
    requires sid in t.systems
    ensures CheckDeployment(t, sid, actor, now, latest).None? <==>
              && t.systems[sid].stage.Restricted?
              && Settled(t, sid, now) && t.systems[sid].conformity && Enough(t, sid) && !ActorIs(latest, actor)
  {
    NoProblemMeansSettled(t, sid, now);
  }

  lemma {:induction false} PatchPassesIff(t: Tables, sid: nat, actor: Actor, update: Update, now: int,
                                          latest: Option<Approval>)
    requires sid in t.systems && update.stage == Some(Production)
    ensures PatchRefusal(t, sid, actor, update, now, latest).None? <==>
              && update.reasonGiven && actor.admin && update.conformity == Some(true)
              && Settled(t, sid, now) && Enough(t, sid) && !ActorIs(latest, actor)
  {
    NoProblemMeansSettled(t, sid, now);
  }

  // ---------- the gates against one another ----------

  // The deployment check passes exactly when the report allows it and the stage is
  // "restricted", for every actor, if and only if the latest approval is by the one who
  // approved in the last row, or something else stands in the way.
  lemma {:induction false} DeployAgreesIff(t: Tables, sid: nat, now: int, latest: Option<Approval>)
    requires sid in t.systems && IsLatest(ApprovalsOf(t.approvals, sid), latest)
    ensures (forall actor :: DeployAgrees(t, sid, actor, now, latest)) <==>
              || latest.None?
              || latest.value.approver == LastRow(t, sid).value.approver
              || !(t.systems[sid].stage.Restricted? && Settled(t, sid, now) && t.systems[sid].conformity
                    && Enough(t, sid))
  {
    forall actor {
      DeployPassesIff(t, sid, actor, now, latest);
    }
    if latest.Some? {
      var author := Actor(latest.value.approver, 0, true, false);
      DeployPassesIff(t, sid, author, now, latest);
      assert (forall actor :: DeployAgrees(t, sid, actor, now, latest)) ==> DeployAgrees(t, sid, author, now, latest);
    }
  }

  ghost predicate DeployAgrees(t: Tables, sid: nat, actor: Actor, now: int, latest: Option<Approval>)
    requires sid in t.systems
  {
    CheckDeployment(t, sid, actor, now, latest).None?
    <==> Allowed(t, sid, actor, now) && t.systems[sid].stage.Restricted?
  }

  ghost predicate InTimeOrder(rows: seq<Approval>) {
    forall i, j :: 0 <= i < j < |rows| ==> rows[i].at < rows[j].at
  }

  // Rows in strict order of time: the latest is the last.
  lemma {:induction false} LatestIsLast(rows: seq<Approval>, latest: Option<Approval>)
    requires InTimeOrder(rows) && IsLatest(rows, latest)
    ensures latest == if rows == [] then None else Some(rows[|rows| - 1])
  {
    if rows != [] {
      assert rows[|rows| - 1] in rows;
    }
  }

  // The update lets a system into production exactly when an admin gives a reason, sends
  // conformity along, and the report would allow it with conformity set.  Neither the stage
  // the system is in nor the conformity stored counts.
  lemma {:induction false} PatchAgrees(t: Tables, sid: nat, actor: Actor, update: Update, now: int,
                                       latest: Option<Approval>)
    requires sid in t.systems && update.stage == Some(Production)
    requires InTimeOrder(ApprovalsOf(t.approvals, sid)) && IsLatest(ApprovalsOf(t.approvals, sid), latest)
    ensures var conform := t.(systems := t.systems[sid := t.systems[sid].(conformity := true)]);
            PatchRefusal(t, sid, actor, update, now, latest).None? <==>
              && update.reasonGiven && actor.admin && update.conformity == Some(true)
              && Allowed(conform, sid, actor, now)
  {
    PatchPassesIff(t, sid, actor, update, now, latest);
    LatestIsLast(ApprovalsOf(t.approvals, sid), latest);
  }

  // ---------- what a step can do ----------

  predicate InProduction(t: Tables, sid: nat) {
    sid in t.systems && t.systems[sid].stage.Production?
  }

  // What the database answered in this step was true of the tables.
  ghost predicate Truthful(t: Tables, e: Event) {
    match e.call
    case Deploy(latest) => IsLatest(ApprovalsOf(t.approvals, e.sid), latest)
    case Patch(_, latest) => IsLatest(ApprovalsOf(t.approvals, e.sid), latest)
    case _ => true
  }

  // The query always has an answer.
  lemma {:induction false} SomeRowIsLatest(rows: seq<Approval>)
    ensures exists latest :: IsLatest(rows, latest)
  {
    if rows == [] {
      assert IsLatest(rows, None);
    } else {
      var before, last := rows[..|rows| - 1], rows[|rows| - 1];
      SomeRowIsLatest(before);
      var latest :| IsLatest(before, latest);
      assert forall b :: b in rows ==> b in before || b == last;
      assert IsLatest(rows, if latest.None? || latest.value.at <= last.at then Some(last) else latest);
    }
  }

  // There is an approval by someone other than the actor, and none is later.
  ghost predicate OtherApproved(t: Tables, sid: nat, actor: Actor) {
    var rows := ApprovalsOf(t.approvals, sid);
    exists a :: a in rows && a.approver != actor.id && forall b :: b in rows ==> b.at <= a.at
  }

  // Every organization asks for at least one approval; zero, or none given, counts as one.
  ghost predicate AsksForSome(t: Tables) {
    forall o :: o in t.orgs ==> OrElse(t.orgs[o].required, 1) >= 1
  }

  // A step that puts the system into production when all that is asked for is there.
  ghost predicate Earned(t: Tables, e: Event, sid: nat) {
    && e.sid == sid && (e.call.Deploy? || e.call.Patch?)
    && Live(t, sid, e.actor) && (e.actor.admin || e.actor.superAdmin)
    && Settled(t, sid, e.now) && Enough(t, sid) && OtherApproved(t, sid, e.actor)
    && InProduction(Next(t, e).0, sid) && Next(t, e).0.systems[sid].conformity
  }

  // Nothing but a deployment or an update moves a system into production, and only then.
  lemma {:induction false} EntersEarned(t: Tables, e: Event, sid: nat)
    requires Truthful(t, e) && AsksForSome(t) && !InProduction(t, sid) && InProduction(Next(t, e).0, sid)
    ensures Earned(t, e, sid)
  {
    match e.call
    case Deploy(latest) =>
      DeployPassesIff(t, sid, e.actor, e.now, latest);
    case Patch(update, latest) =>
      PatchPassesIff(t, sid, e.actor, update, e.now, latest);
    case _ =>
  }

  lemma {:induction false} EntersConforming(t: Tables, e: Event, sid: nat)
    requires !InProduction(t, sid) && InProduction(Next(t, e).0, sid)
    ensures Next(t, e).0.systems[sid].conformity
  {
  }

  // A step leaves a system that conformed in production without conformity exactly when it
  // is an update that withdraws conformity and says nothing of the stage, with a reason and
  // with a review that has not run out.
  lemma {:induction false} ConformityWithdrawnIff(t: Tables, e: Event, sid: nat)
    requires InProduction(t, sid) && t.systems[sid].conformity
    ensures InProduction(Next(t, e).0, sid) && !Next(t, e).0.systems[sid].conformity <==> Withdraws(t, e, sid)
  {
  }

  predicate Withdraws(t: Tables, e: Event, sid: nat) {
    && e.sid == sid && Live(t, sid, e.actor)
    && match e.call {
         case Patch(update, _) =>
           var s := t.systems[sid];
           var reviewedAt := if update.reviewedAt.Some? then update.reviewedAt else s.reviewedAt;
           && update.reasonGiven && update.conformity == Some(false) && update.stage.None?
           && !Stale(s.(reviewedAt := reviewedAt), t.orgs, e.now)
         case _ => false
       }
  }

  ghost predicate ConformsInProduction(t: Tables, sid: nat) {
    InProduction(t, sid) ==> t.systems[sid].conformity
  }

  // An update that is carried out leaves a system "restricted", or with a review that has
  // not run out, or never reviewed.
  lemma {:induction false} UpdateChecksReview(t: Tables, e: Event)
    requires e.call.Patch? && Next(t, e).1.None?
    ensures var s := Next(t, e).0.systems[e.sid]; s.stage.Restricted? || !Stale(s, t.orgs, e.now)
  {
  }

  // ---------- runs ----------

  function Run(t: Tables, es: seq<Event>): Tables
    decreases |es|
  {
    if es == [] then t else Next(Run(t, es[..|es| - 1]), es[|es| - 1]).0
  }

  ghost predicate TruthfulRun(t: Tables, es: seq<Event>) {
    forall i :: 0 <= i < |es| ==> Truthful(Run(t, es[..i]), es[i])
  }

  lemma {:induction false} TruthfulPrefix(t: Tables, es: seq<Event>, n: nat)
    requires TruthfulRun(t, es) && n <= |es|
    ensures TruthfulRun(t, es[..n])
  {
    forall i | 0 <= i < n ensures Truthful(Run(t, es[..n][..i]), es[..n][i]) {
      assert es[..n][..i] == es[..i];
    }
  }

  lemma {:induction false} Prefixes(es: seq<Event>, n: nat)
    requires n <= |es|
    ensures es[..|es|] == es && forall j :: 0 <= j <= n ==> es[..n][..j] == es[..j]
  {
  }

  lemma {:induction false} RunAsksForSome(t: Tables, es: seq<Event>)
    requires AsksForSome(t)
    ensures AsksForSome(Run(t, es))
    decreases |es|
  {
    if es != [] {
      RunAsksForSome(t, es[..|es| - 1]);
    }
  }

  lemma {:induction false} StaysSince(t: Tables, es: seq<Event>, n: nat, i: nat, sid: nat)
    requires |es| == n + 1 && InProduction(Run(t, es), sid)
    requires forall j :: i < j <= n ==> InProduction(Run(t, es[..n][..j]), sid)
    ensures forall j :: i < j <= |es| ==> InProduction(Run(t, es[..j]), sid)
  {
    Prefixes(es, n);
    forall j | i < j <= |es| ensures InProduction(Run(t, es[..j]), sid) {
      assert j <= n ==> es[..n][..j] == es[..j];
    }
  }

  // Whatever happens to risks, actions and organizations in between: a system in production
  // was moved there by a step that had everything it takes, and has been there since.
  lemma {:induction false} ProductionWasEarned(t: Tables, es: seq<Event>, sid: nat)
    requires TruthfulRun(t, es) && AsksForSome(t)
    requires !InProduction(t, sid) && InProduction(Run(t, es), sid)
    ensures exists i :: EarnedAt(t, es, i, sid)
    decreases |es|
  {
    var n := |es| - 1;
    Prefixes(es, n);
    if InProduction(Run(t, es[..n]), sid) {
      TruthfulPrefix(t, es, n);
      ProductionWasEarned(t, es[..n], sid);
      var i :| EarnedAt(t, es[..n], i, sid);
      StaysSince(t, es, n, i, sid);
      assert EarnedAt(t, es, i, sid);
    } else {
      assert Truthful(Run(t, es[..n]), es[n]);
      RunAsksForSome(t, es[..n]);
      EntersEarned(Run(t, es[..n]), es[n], sid);
      assert EarnedAt(t, es, n, sid);
    }
  }

  ghost predicate EarnedAt(t: Tables, es: seq<Event>, i: nat, sid: nat) {
    && i < |es| && Earned(Run(t, es[..i]), es[i], sid)
    && forall j :: i < j <= |es| ==> InProduction(Run(t, es[..j]), sid)
  }

  // On a run without such a withdrawal, a system in production conforms.
  lemma {:induction false} ConformsUntilWithdrawn(t: Tables, es: seq<Event>, sid: nat)
    requires ConformsInProduction(t, sid)
    requires forall i :: 0 <= i < |es| ==> !Withdraws(Run(t, es[..i]), es[i], sid)
    ensures ConformsInProduction(Run(t, es), sid)
    decreases |es|
  {
    if es != [] {
      var n := |es| - 1;
      var before := Run(t, es[..n]);
      Prefixes(es, n);
      assert forall i :: 0 <= i < n ==> !Withdraws(Run(t, es[..n][..i]), es[..n][i], sid);
      ConformsUntilWithdrawn(t, es[..n], sid);
      assert !Withdraws(before, es[n], sid);
      if InProduction(before, sid) {
        ConformityWithdrawnIff(before, es[n], sid);
      } else if InProduction(Next(before, es[n]).0, sid) {
        EntersConforming(before, es[n], sid);
      }
    }
  }

  // The clock moves on between requests.
  ghost predicate ClockRises(es: seq<Event>) {
    forall i, j :: 0 <= i < j < |es| ==> es[i].now < es[j].now
  }

  ghost predicate Before(rows: seq<Approval>, now: int) {
    forall i :: 0 <= i < |rows| ==> rows[i].at < now
  }

  lemma {:induction false} ApprovalAppends(approvals: seq<Approval>, a: Approval, sid: nat)
    ensures ApprovalsOf(approvals + [a], sid) == ApprovalsOf(approvals, sid) + if a.systemId == sid then [a] else []
  {
    assert (approvals + [a])[..|approvals|] == approvals;
  }

  ghost predicate OrderedBefore(rows: seq<Approval>, now: int) {
    InTimeOrder(rows) && Before(rows, now)
  }

  lemma {:induction false} AppendKeepsOrder(approvals: seq<Approval>, a: Approval, sid: nat, now: int)
    requires OrderedBefore(ApprovalsOf(approvals, sid), a.at) && a.at < now
    ensures OrderedBefore(ApprovalsOf(approvals, sid), now)
    ensures OrderedBefore(ApprovalsOf(approvals + [a], sid), now)
  {
    ApprovalAppends(approvals, a, sid);
    LaterAtEnd(ApprovalsOf(approvals, sid), a, now);
  }

  lemma {:induction false} LaterAtEnd(rows: seq<Approval>, a: Approval, now: int)
    requires OrderedBefore(rows, a.at) && a.at < now
    ensures OrderedBefore(rows, now) && OrderedBefore(rows + [a], now) && rows + [] == rows
  {
  }

  lemma {:induction false} NextKeepsOrder(t: Tables, e: Event, sid: nat, now: int)
    requires OrderedBefore(ApprovalsOf(t.approvals, sid), e.now) && e.now < now
    ensures OrderedBefore(ApprovalsOf(Next(t, e).0.approvals, sid), now)
  {
    AppendKeepsOrder(t.approvals, Approval(e.sid, e.actor.id, e.now), sid, now);
  }

  lemma {:induction false} RunKeepsOrder(t: Tables, es: seq<Event>, sid: nat, now: int)
    requires ClockRises(es) && t.approvals == [] && forall i :: 0 <= i < |es| ==> es[i].now < now
    ensures OrderedBefore(ApprovalsOf(Run(t, es).approvals, sid), now)
    decreases |es|
  {
    if es != [] {
      var n := |es| - 1;
      RunKeepsOrder(t, es[..n], sid, es[n].now);
      NextKeepsOrder(Run(t, es[..n]), es[n], sid, now);
    }
  }

  // In every state reached while the clock rises, whoever asks: the deployment check passes
  // exactly when the report allows it and the stage is "restricted".
  lemma {:induction false} GatesAgreeOnEveryRun(t: Tables, es: seq<Event>, sid: nat, actor: Actor, now: int,
                                                latest: Option<Approval>)
    requires ClockRises(es) && t.approvals == [] && sid in Run(t, es).systems
    requires IsLatest(ApprovalsOf(Run(t, es).approvals, sid), latest)
    ensures DeployAgrees(Run(t, es), sid, actor, now, latest)
  {
    var end := if es == [] then 0 else es[|es| - 1].now + 1;
    RunKeepsOrder(t, es, sid, end);
    LatestIsLast(ApprovalsOf(Run(t, es).approvals, sid), latest);
    DeployPassesIff(Run(t, es), sid, actor, now, latest);
  }

  // ---------- who approved may not deploy ----------

  // An approval that is carried out adds one row to its system, by the actor and at the time
  // of the request, and leaves every other system's rows alone.
  lemma {:induction false} ApprovalIsByActor(t: Tables, e: Event, sid: nat)
    requires e.call.Approve? && Next(t, e).1.None?
    ensures var before, after := ApprovalsOf(t.approvals, sid), ApprovalsOf(Next(t, e).0.approvals, sid);
            if sid == e.sid then
              |after| == |before| + 1 && after[..|before|] == before
              && after[|before|].systemId == sid && after[|before|].approver == e.actor.id
              && after[|before|].at == e.now
            else after == before
  {
    ApprovalAppends(t.approvals, Approval(e.sid, e.actor.id, e.now), sid);
  }

  lemma {:induction false} OnlyApprovalsApprove(t: Tables, e: Event, sid: nat)
    requires !e.call.Approve? || Next(t, e).1.Some? || e.sid != sid
    ensures ApprovalsOf(Next(t, e).0.approvals, sid) == ApprovalsOf(t.approvals, sid)
  {
    if e.call.Approve? && Next(t, e).1.None? {
      ApprovalIsByActor(t, e, sid);
    }
  }

  ghost predicate LastIsBy(t: Tables, sid: nat, user: int) {
    var rows := ApprovalsOf(t.approvals, sid);
    rows != [] && rows[|rows| - 1].approver == user
  }

  ghost predicate NoOneElseApproves(es: seq<Event>, from: nat, sid: nat, user: int) {
    forall j :: from < j < |es| && es[j].call.Approve? && es[j].sid == sid ==> es[j].actor.id == user
  }

  lemma {:induction false} LastStaysBy(t: Tables, es: seq<Event>, k: nat, sid: nat, user: int)
    requires k < |es| && es[k].call.Approve? && es[k].sid == sid && es[k].actor.id == user
    requires Next(Run(t, es[..k]), es[k]).1.None?
    requires NoOneElseApproves(es, k, sid, user)
    ensures LastIsBy(Run(t, es), sid, user)
    decreases |es|
  {
    var n := |es| - 1;
    var before := Run(t, es[..n]);
    if k == n {
      ApprovalIsByActor(before, es[n], sid);
    } else {
      assert es[..n][..k] == es[..k];
      LastStaysBy(t, es[..n], k, sid, user);
      if es[n].call.Approve? && es[n].sid == sid && Next(before, es[n]).1.None? {
        ApprovalIsByActor(before, es[n], sid);
      } else {
        OnlyApprovalsApprove(before, es[n], sid);
      }
    }
  }

  // A request to move the system into production.
  predicate AsksForProduction(e: Event) {
    match e.call
    case Deploy(_) => true
    case Patch(update, _) => update.stage == Some(Production)
    case _ => false
  }

  // On every run while the clock rises: who has approved a system is refused production for it,
  // by either way, until someone else approves it.
  lemma {:induction false} ApproverIsRefused(t: Tables, es: seq<Event>, k: nat, e: Event)
    requires ClockRises(es) && t.approvals == []
    requires k < |es| && es[k].call.Approve? && es[k].sid == e.sid && es[k].actor.id == e.actor.id
    requires Next(Run(t, es[..k]), es[k]).1.None?
    requires NoOneElseApproves(es, k, e.sid, e.actor.id)
    requires AsksForProduction(e) && Truthful(Run(t, es), e)
    ensures Next(Run(t, es), e).1.Some? && Next(Run(t, es), e).0 == Run(t, es)
  {
    var now := Run(t, es);
    LastStaysBy(t, es, k, e.sid, e.actor.id);
    RunKeepsOrder(t, es, e.sid, es[|es| - 1].now + 1);
    var latest := e.call.latest;
    LatestIsLast(ApprovalsOf(now.approvals, e.sid), latest);
    assert ActorIs(latest, e.actor);
    if Live(now, e.sid, e.actor) {
      match e.call
      case Deploy(_) => DeployPassesIff(now, e.sid, e.actor, e.now, latest);
      case Patch(update, _) => PatchPassesIff(now, e.sid, e.actor, update, e.now, latest);
    }
  }

  // ---------- the requests in full ----------

  // Who is an administrator, by role or by super-admin powers.
  predicate MayAdminister(actor: Actor) {
    actor.admin || actor.superAdmin
  }

  // The requests about a system find it exactly when it is of the actor's organization and has
  // not been archived.
  predicate Finds(t: Tables, e: Event) {
    e.sid in t.systems && e.actor.orgId == t.systems[e.sid].orgId && t.systems[e.sid].deleted == false
  }

  lemma {:induction false} ApproveInFull(t: Tables, e: Event)
    requires e.call.Approve?
    ensures Next(t, e).1.None? <==> MayAdminister(e.actor) && Finds(t, e)
    ensures Next(t, e).0.(approvals := t.approvals) == t
  {
  }

  predicate HighAt(t: Tables, sid: nat, k: nat) {
    k < |t.risks| && t.risks[k].systemId == sid && t.risks[k].high && !t.risks[k].deleted
  }

  predicate OpenAt(t: Tables, sid: nat, k: nat) {
    HighAt(t, sid, k)
    && forall m :: 0 <= m < |t.actions| && t.actions[m].riskId == Some(t.risks[k].id) ==> !t.actions[m].closed
  }

  predicate AgedAt(t: Tables, sid: nat, now: int, k: nat) {
    HighAt(t, sid, k) && t.risks[k].createdAt.Some? && now - t.risks[k].createdAt.value > 2_592_000_000_000
  }

  // A high risk stands against production when nothing closed is linked to it, or when it was
  // entered more than thirty days ago.
  predicate StandsAgainst(t: Tables, sid: nat, now: int, k: nat) {
    OpenAt(t, sid, k) || AgedAt(t, sid, now, k)
  }

  lemma {:induction false} SettledInFull(t: Tables, sid: nat, now: int)
    ensures Settled(t, sid, now) <==> forall k: nat :: !StandsAgainst(t, sid, now, k)
  {
    if Settled(t, sid, now) {
      forall k: nat ensures !StandsAgainst(t, sid, now, k) {
        assert k < |t.risks| && High(t.risks[k], sid) ==> Closed(t.actions, t.risks[k].id);
      }
    }
    if forall k: nat :: !StandsAgainst(t, sid, now, k) {
      forall k | 0 <= k < |t.risks| && High(t.risks[k], sid)
        ensures Closed(t.actions, t.risks[k].id) && !Aged(t.risks[k], now)
      {
        assert !StandsAgainst(t, sid, now, k);
      }
    }
  }

  function ApprovalsCounted(t: Tables, sid: nat): nat {
    |Positions(|t.approvals|, (k: nat) => k < |t.approvals| && t.approvals[k].systemId == sid)|
  }

  lemma {:induction false} ApprovalsAreCounted(t: Tables, sid: nat)
    ensures |ApprovalsOf(t.approvals, sid)| == ApprovalsCounted(t, sid)
    decreases |t.approvals|
  {
    if t.approvals != [] {
      var n := |t.approvals| - 1;
      var before := t.(approvals := t.approvals[..n]);
      ApprovalsAreCounted(before, sid);
      OneMorePosition(n, (k: nat) => k < |before.approvals| && before.approvals[k].systemId == sid,
                      (k: nat) => k < |t.approvals| && t.approvals[k].systemId == sid);
    }
  }

  // The organization is there and as many approvals as it asks for, or one when it gives no
  // number or zero.
  ghost predicate HasApprovals(t: Tables, sid: nat, orgId: nat) {
    && orgId in t.orgs
    && (t.orgs[orgId].required in {None, Some(0)} ==> ApprovalsCounted(t, sid) >= 1)
    && (t.orgs[orgId].required.Some? ==> ApprovalsCounted(t, sid) >= t.orgs[orgId].required.value)
  }

  lemma {:induction false} EnoughInFull(t: Tables, sid: nat)
    requires sid in t.systems
    ensures Enough(t, sid) <==> HasApprovals(t, sid, t.systems[sid].orgId)
  {
    ApprovalsAreCounted(t, sid);
  }

  // A deployment is carried out exactly under these conditions; it moves this system into
  // production and changes nothing else.
  lemma {:induction false} DeployInFull(t: Tables, e: Event)
    requires e.call.Deploy?
    ensures Next(t, e).1.None? <==>
              && MayAdminister(e.actor) && Finds(t, e)
              && t.systems[e.sid].stage == Restricted && t.systems[e.sid].conformity
              && (forall k: nat :: !StandsAgainst(t, e.sid, e.now, k))
              && HasApprovals(t, e.sid, e.actor.orgId)
              && (e.call.latest.Some? ==> e.call.latest.value.approver != e.actor.id)
    ensures Next(t, e).1.None? ==>
              && Next(t, e).0.systems.Keys == t.systems.Keys
              && Next(t, e).0.systems[e.sid] == t.systems[e.sid].(stage := Production)
    ensures OnlySystem(t, Next(t, e).0, e.sid) && (Next(t, e).1.Some? ==> Next(t, e).0 == t)
  {
    if e.sid in t.systems {
      DeployPassesIff(t, e.sid, e.actor, e.now, e.call.latest);
      SettledInFull(t, e.sid, e.now);
      EnoughInFull(t, e.sid);
    }
  }

  // Nothing but the row of this system differs.
  ghost predicate OnlySystem(t: Tables, u: Tables, sid: nat) {
    && u.(systems := t.systems) == t
    && forall s :: s != sid ==> (s in u.systems <==> s in t.systems)
                                && (s in t.systems ==> u.systems[s] == t.systems[s])
  }

  // An update asks for less when it leaves production out; then any user of the organization
  // may send it, with a reason.
  lemma {:induction false} PatchInFull(t: Tables, e: Event)
    requires e.call.Patch?
    ensures var update := e.call.update;
            Next(t, e).1.None? <==>
              && Finds(t, e) && update.reasonGiven
              && (update.stage == Some(Production) ==>
                    && e.actor.admin && update.conformity == Some(true)
                    && (forall k: nat :: !StandsAgainst(t, e.sid, e.now, k))
                    && HasApprovals(t, e.sid, e.actor.orgId)
                    && (e.call.latest.Some? ==> e.call.latest.value.approver != e.actor.id))
    ensures OnlySystem(t, Next(t, e).0, e.sid) && (Next(t, e).1.Some? ==> Next(t, e).0 == t)
  {
    if e.sid in t.systems && e.call.update.stage == Some(Production) {
      PatchPassesIff(t, e.sid, e.actor, e.call.update, e.now, e.call.latest);
      SettledInFull(t, e.sid, e.now);
      EnoughInFull(t, e.sid);
    }
  }

  // What an update leaves: the values sent, else the stored ones; and "restricted" whatever was
  // asked when the review is older than the organization allows, thirty days by default.
  lemma {:induction false} UpdateWrites(t: Tables, e: Event)
    requires e.call.Patch? && Next(t, e).1.None?
    ensures var update, s, r := e.call.update, t.systems[e.sid], Next(t, e).0.systems[e.sid];
            && r.orgId == s.orgId && !r.deleted
            && r.category == (if update.category == None then s.category else update.category)
            && r.reviewedAt == (if update.reviewedAt == None then s.reviewedAt else update.reviewedAt)
            && (update.conformity == None ==> r.conformity == s.conformity)
            && (update.conformity != None ==> Some(r.conformity) == update.conformity)
            && (Overdue(t, r, e.now) ==> r.stage == Restricted)
            && (!Overdue(t, r, e.now) && update.stage == None ==> r.stage == s.stage)
            && (!Overdue(t, r, e.now) && update.stage != None ==> Some(r.stage) == update.stage)
  {
    OverdueIsStale(t, Next(t, e).0.systems[e.sid], e.now);
  }

  predicate Overdue(t: Tables, s: System, now: int) {
    && s.orgId in t.orgs && s.reviewedAt.Some?
    && var days := if t.orgs[s.orgId].maxReviewAge in {None, Some(0)} then 30 else t.orgs[s.orgId].maxReviewAge.value;
       now - s.reviewedAt.value > 86_400_000_000 * days
  }

  lemma {:induction false} OverdueIsStale(t: Tables, s: System, now: int)
    ensures Overdue(t, s, now) <==> Stale(s, t.orgs, now)
  {
    assert DAY == 86_400_000_000;
  }

  predicate AtLeastOne(n: Option<int>) {
    n.Some? ==> n.value >= 1
  }

  // A configuration is taken exactly when every number in it is at least one; what it leaves
  // out stays.
  lemma {:induction false} ConfigureInFull(t: Tables, e: Event)
    requires e.call.Configure?
    ensures var given, org := e.call, e.call.orgId;
            && (Next(t, e).1.None? <==>
                  && MayAdminister(e.actor) && org in t.orgs
                  && AtLeastOne(given.required) && AtLeastOne(given.maxReviewAge))
            && (Next(t, e).1.Some? ==> Next(t, e).0 == t)
            && (Next(t, e).1.None? ==>
                  var before, after := t.orgs[org], Next(t, e).0.orgs[org];
                  && (if given.required == None then after.required == before.required else after.required == given.required)
                  && (if given.maxReviewAge == None then after.maxReviewAge == before.maxReviewAge
                      else after.maxReviewAge == given.maxReviewAge)
                  && Next(t, e).0 == t.(orgs := t.orgs[org := after]))
  {
  }

  // ---------- the figures of the report ----------

  // The counters of the report count the high risks without a closed action, and the aged ones.
  lemma {:induction false} OpenIsCounted(t: Tables, sid: nat)
    ensures OpenAmong(HighRisks(t.risks, sid), t.actions) == |Positions(|t.risks|, (k: nat) => OpenAt(t, sid, k))|
    decreases |t.risks|
  {
    if t.risks != [] {
      var n := |t.risks| - 1;
      var before := t.(risks := t.risks[..n]);
      OpenIsCounted(before, sid);
      OneMorePosition(n, (k: nat) => OpenAt(before, sid, k), (k: nat) => OpenAt(t, sid, k));
      OneMoreRisk(t, sid, 0);
    }
  }

  lemma {:induction false} AgedIsCounted(t: Tables, sid: nat, now: int)
    ensures AgedAmong(HighRisks(t.risks, sid), now) == |Positions(|t.risks|, (k: nat) => AgedAt(t, sid, now, k))|
    decreases |t.risks|
  {
    if t.risks != [] {
      var n := |t.risks| - 1;
      var before := t.(risks := t.risks[..n]);
      AgedIsCounted(before, sid, now);
      OneMorePosition(n, (k: nat) => AgedAt(before, sid, now, k), (k: nat) => AgedAt(t, sid, now, k));
      OneMoreRisk(t, sid, now);
    }
  }

  lemma {:induction false} OneMoreRisk(t: Tables, sid: nat, now: int)
    requires t.risks != []
    ensures var n := |t.risks| - 1;
            var before, highs := HighRisks(t.risks[..n], sid), HighRisks(t.risks, sid);
            && OpenAmong(highs, t.actions) == OpenAmong(before, t.actions) + (if OpenAt(t, sid, n) then 1 else 0)
            && AgedAmong(highs, now) == AgedAmong(before, now) + (if AgedAt(t, sid, now, n) then 1 else 0)
  {
    var n := |t.risks| - 1;
    var before := HighRisks(t.risks[..n], sid);
    assert (before + [t.risks[n]])[..|before|] == before && before + [] == before;
    assert OpenAt(t, sid, n) <==> High(t.risks[n], sid) && !Closed(t.actions, t.risks[n].id);
  }

  // ---------- systems come and go ----------

  // A new system starts without a stage and without conformity, in its maker's organization.
  lemma {:induction false} CreatedOutside(t: Tables, e: Event)
    requires e.call.Create? && e.sid !in t.systems
    ensures var u := Next(t, e).0;
            && OnlySystem(t, u, e.sid) && Finds(u, e) && u.systems[e.sid].stage == Unset
            && u.systems[e.sid].conformity == false && u.systems[e.sid].reviewedAt == None
            && u.systems[e.sid].category == None
  {
  }

  // A new organization asks for one approval and a review within thirty days.
  lemma {:induction false} OrganizationDefaults(t: Tables, e: Event)
    requires e.call.CreateOrg? && e.call.orgId !in t.orgs
    ensures var u := Next(t, e).0;
            && u.orgs == t.orgs[e.call.orgId := u.orgs[e.call.orgId]]
            && u.orgs[e.call.orgId].required == Some(1) && u.orgs[e.call.orgId].maxReviewAge == Some(30)
            && u.(orgs := t.orgs) == t
  {
  }

  // The other endpoints may leave risks and actions in any state, and touch nothing else.
  lemma {:induction false} ElsewhereInFull(t: Tables, e: Event)
    requires e.call.Elsewhere?
    ensures Next(t, e) == (Tables(t.systems, t.orgs, e.call.risks, e.call.actions, t.approvals), None)
  {
  }

  predicate Gone(t: Tables, sid: nat) {
    sid in t.systems && t.systems[sid].deleted && t.systems[sid].stage == Archived
  }

  predicate AboutSystem(e: Event) {
    e.call.Approve? || e.call.Deploy? || e.call.Patch? || e.call.Archive?
  }

  // Archiving is for good: whatever follows, the row stays as it was left, and every request
  // about the system is refused.
  lemma {:induction false} ArchivedForGood(t: Tables, archive: Event, es: seq<Event>, e: Event)
    requires archive.call.Archive? && Next(t, archive).1.None?
    requires e.sid == archive.sid && AboutSystem(e)
    ensures Finds(t, archive)
    ensures var now := Run(Next(t, archive).0, es);
            && e.sid in now.systems && now.systems[e.sid] == Next(t, archive).0.systems[e.sid]
            && Next(now, e).1 in {Some(NotFound), Some(NotAllowed)} && Next(now, e).0 == now
    decreases |es|
  {
    var start := Next(t, archive).0;
    assert Gone(start, e.sid);
    if es != [] {
      ArchivedForGood(t, archive, es[..|es| - 1], e);
    }
  }

  // An archive is refused only when the system is not found.
  lemma {:induction false} ArchiveInFull(t: Tables, e: Event)
    requires e.call.Archive?
    ensures Next(t, e).1 == (if Finds(t, e) then None else Some(NotFound))
    ensures OnlySystem(t, Next(t, e).0, e.sid)
  {
  }
}
