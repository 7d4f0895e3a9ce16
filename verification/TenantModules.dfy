/**
 Which modules a tenant has, the rules of its tier, and everything that writes them:
 provisioning, the module endpoint, seeding and the setup of the headquarters tenant.
 */
module TenantModules {
  import opened Basics

  const CORE := "core"
  const COMPLIANCE := "compliance_monitor"
  const CATALOG: set<string> := {
    "core", "document_intelligence", "compliance_monitor", "customer_support_ai", "sales_qualification_ai",
    "invoice_processing_ai", "hr_recruitment_ai", "marketing_automation_ai", "meeting_agenda_assistant",
    "quote_contract_generator", "business_intelligence"}

  function WorkflowKeys(): set<string> {
    CATALOG - {CORE}
  }

  predicate KnownTier(tier: string) {
    tier == "starter" || tier == "business" || tier == "enterprise"
  }

  function MinWorkflows(tier: string): nat {
    if tier == "starter" then 2 else if tier == "business" then 5 else 7
  }

  function RequiredWorkflows(tier: string): set<string> {
    if tier == "starter" then {} else {COMPLIANCE}
  }

  // ---------- the rules ----------

  // What a set of modules must be for a tier.
  predicate Meets(tier: string, keys: set<string>) {
    && KnownTier(tier)
    && keys <= CATALOG && CORE in keys
    && |keys * WorkflowKeys()| >= MinWorkflows(tier)
    && RequiredWorkflows(tier) <= keys
  }

  datatype Problem = UnknownTier | DuplicateModules | UnknownModules | CoreMissing | TooFewWorkflows | RequiredMissing

  function KeySet(modules: seq<string>): set<string> {
    set k | k in modules
  }

  predicate HasDuplicates(modules: seq<string>) {
    exists i, j :: 0 <= i < j < |modules| && modules[i] == modules[j]
  }

  function ValidateTierModules(tier: string, modules: seq<string>): seq<Problem> {
    if !KnownTier(tier) then [UnknownTier]
    else
      var keys := KeySet(modules);
      (if HasDuplicates(modules) then [DuplicateModules] else [])
      + (if keys - CATALOG != {} then [UnknownModules] else [])
      + (if CORE !in keys then [CoreMissing] else [])
      + (if |keys * WorkflowKeys()| < MinWorkflows(tier) then [TooFewWorkflows] else [])
      + (if RequiredWorkflows(tier) - keys != {} then [RequiredMissing] else [])
  }

  // No problem is reported exactly for a list without repetition whose set meets the tier.
  lemma {:induction false} ValidIffMeets(tier: string, modules: seq<string>)
    ensures ValidateTierModules(tier, modules) == [] <==> !HasDuplicates(modules) && Meets(tier, KeySet(modules))
  {
    var keys, required := KeySet(modules), RequiredWorkflows(tier);
    assert keys - CATALOG == {} <==> keys <= CATALOG by {
      assert forall k :: k in keys && k !in CATALOG ==> k in keys - CATALOG;
    }
    assert required - keys == {} <==> required <= keys by {
      assert forall k :: k in required && k !in keys ==> k in required - keys;
    }
  }

  // The rules in full: starter asks for two workflows, business for five and enterprise for
  // seven, these two with the compliance monitor, all of them for the core.
  lemma {:induction false} RulesInFull(tier: string, keys: set<string>)
    ensures Meets(tier, keys) <==>
              && keys <= {"core", "document_intelligence", "compliance_monitor", "customer_support_ai",
                          "sales_qualification_ai", "invoice_processing_ai", "hr_recruitment_ai",
                          "marketing_automation_ai", "meeting_agenda_assistant", "quote_contract_generator",
                          "business_intelligence"}
              && "core" in keys
              && (|| (tier == "starter" && |keys - {"core"}| >= 2)
                  || (tier == "business" && |keys - {"core"}| >= 5 && "compliance_monitor" in keys)
                  || (tier == "enterprise" && |keys - {"core"}| >= 7 && "compliance_monitor" in keys))
  {
    if keys <= CATALOG {
      assert keys * WorkflowKeys() == keys - {"core"};
    }
    assert tier != "starter" ==> (RequiredWorkflows(tier) <= keys <==> "compliance_monitor" in keys);
  }

  // Rules are about having enough: more catalog modules never break them.
  lemma {:induction false} MoreModulesStillMeet(tier: string, keys: set<string>, more: set<string>)
    requires Meets(tier, keys) && keys <= more <= CATALOG
    ensures Meets(tier, more)
  {
    SubsetSize(keys * WorkflowKeys(), more * WorkflowKeys());
  }

  // The whole catalog meets every tier.
  lemma {:induction false} CatalogMeets(tier: string)
    requires KnownTier(tier)
    ensures Meets(tier, CATALOG)
  {
    var w: set<string> := {"document_intelligence", "compliance_monitor", "customer_support_ai",
      "sales_qualification_ai", "invoice_processing_ai", "hr_recruitment_ai", "marketing_automation_ai"};
    assert |w| == 7;
    assert w <= CATALOG * WorkflowKeys();
    SubsetSize(w, CATALOG * WorkflowKeys());
  }

  // ---------- the table ----------

  // The primary facts: which organizations exist, their tiers (absent: none), and one row
  // per organization and module with its active flag.
  datatype Tenants = Tenants(orgs: set<int>, tiers: map<int, string>, rows: map<(int, string), bool>)

  function Active(rows: map<(int, string), bool>, org: int): set<string> {
    set r | r in rows && r.0 == org && rows[r] :: r.1
  }

  ghost predicate Consistent(t: Tenants) {
    forall org :: org in t.tiers ==> org in t.orgs && Meets(t.tiers[org], Active(t.rows, org))
  }

  // The table after making wanted the active set of org.
  function Replaced(rows: map<(int, string), bool>, org: int, wanted: set<string>): map<(int, string), bool> {
    map r | r in rows.Keys + (set k | k in wanted :: (org, k)) ::
      if r.0 == org then r.1 in wanted else rows[r]
  }

  // The table after inserting what is missing, switching nothing.
  function Ensured(rows: map<(int, string), bool>, org: int, keys: set<string>): map<(int, string), bool> {
    map r | r in rows.Keys + (set k | k in keys :: (org, k)) :: if r in rows then rows[r] else true
  }

  // The table after switching on every one of keys.
  function Activated(rows: map<(int, string), bool>, org: int, keys: set<string>): map<(int, string), bool> {
    map r | r in rows.Keys + (set k | k in keys :: (org, k)) :: if r.0 == org && r.1 in keys then true else rows[r]
  }

  // The table after switching off keys.
  function Narrowed(rows: map<(int, string), bool>, org: int, keys: set<string>): map<(int, string), bool> {
    map r | r in rows :: if r.0 == org && r.1 in keys then false else rows[r]
  }

  // What replacement means: exactly the wanted set, nothing deleted, no one else touched.
  lemma {:induction false} ReplacedIsWanted(rows: map<(int, string), bool>, org: int, wanted: set<string>)
    ensures var after := Replaced(rows, org, wanted);
            && Active(after, org) == wanted
            && rows.Keys <= after.Keys
            && (forall other :: other != org ==> Active(after, other) == Active(rows, other))
            && (forall r :: r in after && r.0 != org ==> r in rows && after[r] == rows[r])
            && Replaced(after, org, wanted) == after
  {
    var after := Replaced(rows, org, wanted);
    forall k | k in wanted ensures k in Active(after, org) {
      assert (org, k) in after;
    }
    forall other | other != org ensures Active(after, other) == Active(rows, other) {
      forall k ensures k in Active(after, other) <==> k in Active(rows, other) {
        assert (other, k) in after <==> (other, k) in rows;
      }
    }
  }

  lemma {:induction false} EnsuredKeepsOthers(rows: map<(int, string), bool>, org: int, keys: set<string>, other: int)
    requires other != org
    ensures Active(Ensured(rows, org, keys), other) == Active(rows, other)
  {
    forall k ensures k in Active(Ensured(rows, org, keys), other) <==> k in Active(rows, other) {
      assert (other, k) in Ensured(rows, org, keys) <==> (other, k) in rows;
    }
  }

  lemma {:induction false} ActivatedAdds(rows: map<(int, string), bool>, org: int, keys: set<string>)
    ensures Active(Activated(rows, org, keys), org) == Active(rows, org) + keys
    ensures forall other :: other != org ==> Active(Activated(rows, org, keys), other) == Active(rows, other)
  {
    var after := Activated(rows, org, keys);
    forall k ensures k in Active(after, org) <==> k in Active(rows, org) + keys {
      assert (org, k) in after <==> (org, k) in rows || k in keys;
    }
    forall other | other != org ensures Active(after, other) == Active(rows, other) {
      forall k ensures k in Active(after, other) <==> k in Active(rows, other) {
        assert (other, k) in after <==> (other, k) in rows;
      }
    }
  }

  // Switching on one key more, and whether it was on.
  lemma {:induction false} ActivatedOne(rows: map<(int, string), bool>, org: int, wanted: set<string>,
                                        todo: set<string>, key: string)
    requires key in todo && todo <= wanted
    ensures var so := Activated(rows, org, wanted - todo);
            && Activated(rows, org, wanted - (todo - {key})) == so[(org, key) := true]
            && (key in Active(rows, org) <==> (org, key) in so && so[(org, key)])
            && (key in Active(rows, org) ==> so[(org, key) := true] == so)
            && wanted - (todo - {key}) == (wanted - todo) + {key}
  {
    var so := Activated(rows, org, wanted - todo);
    assert (org, key) in so <==> (org, key) in rows;
    assert wanted - (todo - {key}) == (wanted - todo) + {key};
    assert key in Active(rows, org) <==> (org, key) in rows && rows[(org, key)];
  }

  lemma {:induction false} SameWithoutDifference(a: set<string>, b: set<string>)
    ensures a == b <==> b - a == {} && a - b == {}
  {
    if b - a == {} && a - b == {} {
      forall k ensures k in a <==> k in b {
        assert k !in b - a && k !in a - b;
      }
    }
  }

  // ---------- the writers ----------

  datatype PutResult =
    | NotFound
    | TierRequired
    | Violated(problems: seq<Problem>)
    | Put(changed: bool, added: set<string>, removed: set<string>)

  function WantedTier(t: Tenants, org: int, tier: Option<string>): Option<string> {
    if tier.Some? && tier.value != "" then tier
    else if org in t.tiers then Some(t.tiers[org]) else None
  }

  datatype Writer =
    | PutModules(org: int, asked: Option<string>, modules: seq<string>)
    | Provision(org: int, tier: string, modules: seq<string>)
    | Seed(org: int, keys: set<string>)
    | SetupHq(org: int, keys: set<string>)
    | CreateOrg(org: int)

  function PutOutcome(t: Tenants, org: int, tier: Option<string>, modules: seq<string>): PutResult {
    if org !in t.orgs then NotFound
    else
      var wanted := WantedTier(t, org, tier);
      if wanted == None then TierRequired
      else
        var problems := ValidateTierModules(wanted.value, modules);
        if problems != [] then Violated(problems)
        else
          var before, keys := Active(t.rows, org), KeySet(modules);
          Put(before != keys || org !in t.tiers || t.tiers[org] != wanted.value, keys - before, before - keys)
  }

  function AfterPut(t: Tenants, org: int, tier: Option<string>, modules: seq<string>): Tenants {
    if PutOutcome(t, org, tier, modules).Put? then
      t.(rows := Replaced(t.rows, org, KeySet(modules)), tiers := t.tiers[org := WantedTier(t, org, tier).value])
    else t
  }

  // One call of a writer.  HQ setup switches its modules on one by one, each in its own
  // transaction: keys is the part of the catalog it got through.  Seeding inserts for an
  // organization without a tier only.
  function Next(t: Tenants, w: Writer): Tenants {
    match w
    case PutModules(org, tier, modules) => AfterPut(t, org, tier, modules)
    case Provision(org, tier, modules) =>
      if org in t.orgs || ValidateTierModules(tier, modules) != [] then t
      else Tenants(t.orgs + {org}, t.tiers[org := tier], Replaced(t.rows, org, KeySet(modules)))
    case Seed(org, keys) =>
      if org !in t.orgs || org in t.tiers then t else t.(rows := Ensured(t.rows, org, keys))
    case SetupHq(org, keys) =>
      if org !in t.orgs || !(keys <= CATALOG) then t else t.(rows := Activated(t.rows, org, keys))
    case CreateOrg(org) => if org in t.orgs then t else t.(orgs := t.orgs + {org})
  }

  lemma {:induction false} PutKeepsConsistent(t: Tenants, org: int, tier: Option<string>, modules: seq<string>)
    requires Consistent(t)
    ensures Consistent(AfterPut(t, org, tier, modules))
  {
    ReplacedIsWanted(t.rows, org, KeySet(modules));
    if PutOutcome(t, org, tier, modules).Put? {
      ValidIffMeets(WantedTier(t, org, tier).value, modules);
    }
  }

  lemma {:induction false} NextKeepsConsistent(t: Tenants, w: Writer)
    requires Consistent(t)
    ensures Consistent(Next(t, w))
  {
    var after := Next(t, w);
    forall org | org in after.tiers ensures org in after.orgs && Meets(after.tiers[org], Active(after.rows, org)) {
      match w
      case PutModules(o, tier, modules) =>
        PutKeepsConsistent(t, o, tier, modules);
      case Provision(o, tier, modules) =>
        ReplacedIsWanted(t.rows, o, KeySet(modules));
        ValidIffMeets(tier, modules);
      case Seed(o, keys) =>
        if org != o {
          EnsuredKeepsOthers(t.rows, o, keys, org);
        }
      case SetupHq(o, keys) =>
        ActivatedAdds(t.rows, o, keys);
        if org == o && keys <= CATALOG {
          MoreModulesStillMeet(t.tiers[o], Active(t.rows, o), Active(t.rows, o) + keys);
        }
      case CreateOrg(o) =>
    }
  }

  function Run(t: Tenants, ws: seq<Writer>): Tenants {
    if ws == [] then t else Next(Run(t, ws[..|ws| - 1]), ws[|ws| - 1])
  }

  // Whatever the writers do, in any order, every tenant with a tier meets its rules, and no
  // module row is ever deleted.
  lemma {:induction false} EveryTenantMeetsItsTier(t: Tenants, ws: seq<Writer>)
    requires Consistent(t)
    ensures Consistent(Run(t, ws)) && t.rows.Keys <= Run(t, ws).rows.Keys
  {
    if ws != [] {
      EveryTenantMeetsItsTier(t, ws[..|ws| - 1]);
      NextKeepsConsistent(Run(t, ws[..|ws| - 1]), ws[|ws| - 1]);
    }
  }

  // What a put that nothing stands against does and answers.
  lemma {:induction false} PutGoesThrough(t: Tenants, org: int, tier: Option<string>, modules: seq<string>,
                                          wanted: string)
    requires org in t.orgs && WantedTier(t, org, tier) == Some(wanted) && ValidateTierModules(wanted, modules) == []
    ensures var before, keys := Active(t.rows, org), KeySet(modules);
            && PutOutcome(t, org, tier, modules)
               == Put(keys - before != {} || before - keys != {} || org !in t.tiers || t.tiers[org] != wanted,
                      keys - before, before - keys)
            && AfterPut(t, org, tier, modules)
               == Tenants(t.orgs, t.tiers[org := wanted], Replaced(t.rows, org, keys))
  {
    SameWithoutDifference(Active(t.rows, org), KeySet(modules));
  }

  // What a put is for: the tier asked for, or the present one when none is, and exactly the
  // modules listed; other tenants as they were.
  ghost predicate SetUp(t: Tenants, after: Tenants, org: int, tier: Option<string>, modules: seq<string>,
                        added: set<string>, removed: set<string>) {
    && org in after.tiers && (if tier.Some? && tier.value != "" then after.tiers[org] == tier.value
                              else org in t.tiers && after.tiers[org] == t.tiers[org])
    && Active(after.rows, org) == KeySet(modules)
    && (forall other :: other != org ==> Active(after.rows, other) == Active(t.rows, other))
    && (forall other :: other != org && other in after.tiers ==> other in t.tiers
                                                                 && after.tiers[other] == t.tiers[other])
    && added == KeySet(modules) - Active(t.rows, org) && removed == Active(t.rows, org) - KeySet(modules)
  }

  lemma {:induction false} PutSetsUp(t: Tenants, org: int, tier: Option<string>, modules: seq<string>)
    requires PutOutcome(t, org, tier, modules).Put?
    ensures var result := PutOutcome(t, org, tier, modules);
            SetUp(t, AfterPut(t, org, tier, modules), org, tier, modules, result.added, result.removed)
  {
    PutMeans(t, org, tier, modules);
    var wanted := WantedTier(t, org, tier).value;
    PutGoesThrough(t, org, tier, modules, wanted);
    ReplacedSetsUp(t, org, tier, modules, wanted);
  }

  lemma {:induction false} PutMeans(t: Tenants, org: int, tier: Option<string>, modules: seq<string>)
    requires PutOutcome(t, org, tier, modules).Put?
    ensures org in t.orgs && WantedTier(t, org, tier).Some?
    ensures ValidateTierModules(WantedTier(t, org, tier).value, modules) == []
  {
  }

  lemma {:induction false} ReplacedSetsUp(t: Tenants, org: int, tier: Option<string>, modules: seq<string>,
                                          wanted: string)
    requires WantedTier(t, org, tier) == Some(wanted)
    ensures var before, keys := Active(t.rows, org), KeySet(modules);
            SetUp(t, Tenants(t.orgs, t.tiers[org := wanted], Replaced(t.rows, org, keys)), org, tier, modules,
                  keys - before, before - keys)
  {
    ReplacedIsWanted(t.rows, org, KeySet(modules));
  }

  // Asking for what is there changes nothing.
  lemma {:induction false} PutWhatIsThere(t: Tenants, org: int, tier: Option<string>, modules: seq<string>,
                                          wanted: string)
    requires org in t.orgs && org in t.tiers && t.tiers[org] == wanted && WantedTier(t, org, tier) == Some(wanted)
    requires ValidateTierModules(wanted, modules) == [] && Active(t.rows, org) == KeySet(modules)
    requires Replaced(t.rows, org, KeySet(modules)) == t.rows
    ensures PutOutcome(t, org, tier, modules) == Put(false, {}, {}) && AfterPut(t, org, tier, modules) == t
  {
    NothingToChange(KeySet(modules));
    assert PutOutcome(t, org, tier, modules) == Put(false, {}, {});
    assert t.tiers[org := wanted] == t.tiers;
  }

  lemma {:induction false} NothingToChange(keys: set<string>)
    ensures keys - keys == {}
  {
  }

  // A put accepted once is a no-op the second time.
  lemma {:induction false} PutTwice(t: Tenants, org: int, tier: Option<string>, modules: seq<string>)
    requires PutOutcome(t, org, tier, modules).Put?
    ensures var after := AfterPut(t, org, tier, modules);
            && PutOutcome(after, org, tier, modules) == Put(false, {}, {})
            && AfterPut(after, org, tier, modules) == after
  {
    var wanted := WantedTier(t, org, tier).value;
    ReplacedIsWanted(t.rows, org, KeySet(modules));
    PutWhatIsThere(AfterPut(t, org, tier, modules), org, tier, modules, wanted);
  }

  // ---------- the services ----------

  // The module table as the services change it.
  class TenantTable {
    var orgs: set<int>
    var tiers: map<int, string>
    var rows: map<(int, string), bool>

    constructor (t: Tenants)
      ensures Value() == t
    {
      orgs, tiers, rows := t.orgs, t.tiers, t.rows;
    }

    function Value(): Tenants
      reads this
    {
      Tenants(orgs, tiers, rows)
    }

    method ReplaceModules(org: int, wanted: set<string>) returns (added: set<string>, removed: set<string>)
      modifies this`rows
      ensures rows == Replaced(old(rows), org, wanted)
      ensures added == wanted - Active(old(rows), org) && removed == Active(old(rows), org) - wanted
      ensures (Active(old(rows), org) + added) - removed == wanted
    {
      ghost var was := rows;
      added := SwitchOn(org, wanted);
      ActivatedAdds(was, org, wanted);
      removed := SwitchOff(org, wanted);
      assert rows == Replaced(was, org, wanted);
    }

    // First loop: insert or reactivate what is wanted.
    method SwitchOn(org: int, wanted: set<string>) returns (added: set<string>)
      modifies this`rows
      ensures rows == Activated(old(rows), org, wanted)
      ensures added == wanted - Active(old(rows), org)
    {
      added := {};
      var todo := wanted;
      while todo != {}
        invariant todo <= wanted
        invariant rows == Activated(old(rows), org, wanted - todo)
        invariant added == (wanted - todo) - Active(old(rows), org)
      {
        var key :| key in todo;
        ActivatedOne(old(rows), org, wanted, todo, key);
        if (org, key) !in rows || !rows[(org, key)] {
          rows := rows[(org, key) := true];
          added := added + {key};
        }
        todo := todo - {key};
      }
    }

    // Second loop: deactivate the rest of this organization's active rows.
    method SwitchOff(org: int, wanted: set<string>) returns (removed: set<string>)
      modifies this`rows
      ensures rows == Narrowed(old(rows), org, Active(old(rows), org) - wanted)
      ensures removed == Active(old(rows), org) - wanted
    {
      removed := {};
      var todo := Active(rows, org);
      while todo != {}
        invariant todo <= Active(old(rows), org)
        invariant rows == Narrowed(old(rows), org, (Active(old(rows), org) - todo) - wanted)
        invariant removed == (Active(old(rows), org) - todo) - wanted
      {
        var key :| key in todo;
        assert (org, key) in old(rows);
        if key !in wanted {
          rows := rows[(org, key) := false];
          removed := removed + {key};
        }
        todo := todo - {key};
      }
    }

    method PutTenantModules(org: int, tier: Option<string>, modules: seq<string>) returns (result: PutResult)
      modifies this
      ensures result == PutOutcome(old(Value()), org, tier, modules)
      ensures Value() == AfterPut(old(Value()), org, tier, modules)
      ensures result.Put? ==> SetUp(old(Value()), Value(), org, tier, modules, result.added, result.removed)
    {
      if org !in orgs {
        return NotFound;
      }
      var wanted := if tier.Some? && tier.value != "" then tier
                    else if org in tiers then Some(tiers[org]) else None;
      if wanted == None {
        return TierRequired;
      }
      var problems := ValidateTierModules(wanted.value, modules);
      if problems != [] {
        return Violated(problems);
      }
      var added, removed := ReplaceModules(org, KeySet(modules));
      var tierChanged := org !in tiers || tiers[org] != wanted.value;
      tiers := tiers[org := wanted.value];
      result := Put(added != {} || removed != {} || tierChanged, added, removed);
      PutGoesThrough(old(Value()), org, tier, modules, wanted.value);
      assert Value() == AfterPut(old(Value()), org, tier, modules);
      ReplacedSetsUp(old(Value()), org, tier, modules, wanted.value);
    }

    method EnsureModules(org: int, keys: set<string>) returns (inserted: nat, skipped: nat)
      modifies this`rows
      ensures rows == Ensured(old(rows), org, keys)
      ensures inserted + skipped == |keys| && inserted == |rows| - |old(rows)|
    {
      inserted, skipped := 0, 0;
      var todo := keys;
      ghost var was := rows;
      while todo != {}
        invariant todo <= keys
        invariant rows == Ensured(was, org, keys - todo)
        invariant inserted + skipped == |keys| - |todo| && inserted == |rows| - |was|
      {
        var key :| key in todo;
        if (org, key) in rows {
          skipped := skipped + 1;
        } else {
          rows := rows[(org, key) := true];
          inserted := inserted + 1;
        }
        todo := todo - {key};
      }
    }
  }
}
