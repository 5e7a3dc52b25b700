/** The order an import runs in, and which steps it can take back. */
module ImportOrder {
  import opened Compose
  import opened ImportPlan
  import opened ImportLaws

  // ----- tenants, then keys, then sites -----------------------------------------------------------

  /** What a step builds: 0 a tenant, 1 a key, 2 a site or part of one. */
  function Kind(s: Step): nat {
    if s.argv == [] then 3
    else if s.argv[0] == "user" then 0
    else if s.argv[0] == "key" then 1
    else if s.argv[0] == "site" then 2
    else 3
  }

  predicate AllOfKind(steps: seq<Step>, kind: nat) {
    forall i :: 0 <= i < |steps| ==> Kind(steps[i]) == kind
  }

  /** How far along the rebuilding of a site a step is: 0 creates it, 4 disables it. */
  function Phase(s: Step): nat {
    if |s.argv| < 3 || s.argv[0] != "site" then 5
    else if s.argv[1] == "add" then 0
    else if s.argv[1] == "alias" then 1
    else if s.argv[1] == "hook" then 2
    else if s.argv[1] == "cron" || s.argv[1] == "worker" then 3
    else if s.argv[1] == "disable" then 4
    else 5
  }

  /** The site a step is about. */
  function About(s: Step): string {
    if |s.argv| < 3 then ""
    else if s.argv[1] == "add" || s.argv[1] == "disable" then s.argv[2]
    else if |s.argv| >= 4 then s.argv[3]
    else ""
  }

  predicate IsPart(step: Step, domain: string, phase: nat) {
    Kind(step) == 2 && Phase(step) == phase && About(step) == domain
  }

  lemma StepShapes(u: User, k: Key)
    ensures Kind(UserStep(u)) == 0 && Kind(KeyStep(k)) == 1
  {
  }

  lemma UnitIsPart(u: Unit)
    ensures IsPart(UnitStep(u), u.domain, 3)
  {
    var argv := UnitArgv(u);
    assert |argv| >= 7 && argv[0] == "site" && argv[1] == UnitNoun(u) && argv[3] == u.domain;
  }

  lemma {:induction false} UserKinds(im: Importer, st: Store, us: seq<User>)
    ensures AllOfKind(PlanUsers(im, st, us).steps, 0)
  {
    if us != [] {
      UserKinds(im, st, us[..|us| - 1]);
      hide UserStep;
      forall u, k ensures Kind(UserStep(u)) == 0 && Kind(KeyStep(k)) == 1 { StepShapes(u, k); }
    }
  }

  lemma {:induction false} KeyKinds(im: Importer, st: Store, sites: seq<Site>, ks: seq<Key>)
    ensures AllOfKind(PlanKeys(im, st, sites, ks).steps, 1)
  {
    if ks != [] {
      KeyKinds(im, st, sites, ks[..|ks| - 1]);
      hide KeyStep;
      hide KeyInScope;
      forall u, k ensures Kind(UserStep(u)) == 0 && Kind(KeyStep(k)) == 1 { StepShapes(u, k); }
    }
  }

  // ----- the steps of one site --------------------------------------------------------------------

  /** Steps about one site whose phases never go back, from one phase to another. */
  predicate Rising(steps: seq<Step>, domain: string, from: nat, to: nat) {
    (forall i :: 0 <= i < |steps| ==>
       Kind(steps[i]) == 2 && About(steps[i]) == domain && from <= Phase(steps[i]) <= to)
    && forall i, j :: 0 <= i < j < |steps| ==> Phase(steps[i]) <= Phase(steps[j])
  }

  /** The steps of one site, as a plan of their own. */
  predicate IsBlock(block: seq<Step>, domain: string) {
    block != [] && Phase(block[0]) == 0 && About(block[0]) == domain
    && Rising(block, domain, 0, 4) && Rising(block[1..], domain, 1, 4)
  }

  lemma RisingConcat(a: seq<Step>, b: seq<Step>, domain: string, from: nat, mid: nat, mid': nat, to: nat)
    requires Rising(a, domain, from, mid) && Rising(b, domain, mid', to) && from <= mid <= mid' <= to
    ensures Rising(a + b, domain, from, to)
  {
  }

  lemma OneRises(step: Step, domain: string, phase: nat)
    requires IsPart(step, domain, phase)
    ensures Rising([step], domain, phase, phase)
  {
  }

  lemma {:induction false} UnitsRise(units: seq<Unit>, domain: string)
    ensures Rising(UnitSteps(units, domain), domain, 3, 3)
  {
    if units != [] {
      var u := units[|units| - 1];
      UnitsRise(units[..|units| - 1], domain);
      UnitIsPart(u);
      OneRises(UnitStep(u), u.domain, 3);
      hide UnitStep;
      RisingConcat(UnitSteps(units[..|units| - 1], domain), if u.domain == domain then [UnitStep(u)] else [],
                   domain, 3, 3, 3, 3);
    }
  }

  lemma OptionalsRise(s: Site)
    ensures Rising(HookSteps(s), s.domain, 2, 2) && Rising(DisableSteps(s), s.domain, 4, 4)
  {
    OneRises(HookStep(s), s.domain, 2);
    OneRises(DisableStep(s), s.domain, 4);
    hide HookStep;
    hide DisableStep;
  }

  /** A site is created first; its aliases, hooks, units and final disabling follow in that order. */
  lemma SiteRises(s: Site, units: seq<Unit>)
    ensures SiteSteps(s, units)[0] == SiteStep(s) && IsBlock(SiteSteps(s, units), s.domain)
  {
    hide SettingsArgv;
    hide UnitArgv;
    OneRises(SiteStep(s), s.domain, 0);
    OptionalsRise(s);
    UnitsRise(units, s.domain);
    hide Rising;
    hide SiteStep;
    hide AliasSteps;
    hide HookSteps;
    hide UnitSteps;
    hide DisableSteps;
    var aliases, hooks := AliasSteps(s, s.aliases), HookSteps(s);
    var ofUnits, disable := UnitSteps(units, s.domain), DisableSteps(s);
    RisingConcat(aliases, hooks, s.domain, 1, 1, 2, 2);
    RisingConcat(aliases + hooks, ofUnits, s.domain, 1, 2, 3, 3);
    RisingConcat(aliases + hooks + ofUnits, disable, s.domain, 1, 3, 4, 4);
    RisingConcat([SiteStep(s)], aliases + hooks + ofUnits + disable, s.domain, 0, 0, 1, 4);
    assert SiteSteps(s, units)[1..] == aliases + hooks + ofUnits + disable;
  }

  // ----- the whole plan -----------------------------------------------------------------------------

  /** Step j belongs to a site that step i creates: everything from i to j is about that site, and in
      order. */
  predicate Follows(steps: seq<Step>, i: nat, j: nat)
    requires i <= j < |steps|
  {
    Phase(steps[i]) == 0
    && Rising(steps[i..j + 1], About(steps[i]), 0, 4) && Rising(steps[i + 1..j + 1], About(steps[i]), 1, 4)
  }

  predicate InBlocks(steps: seq<Step>) {
    forall j :: 0 <= j < |steps| ==> Kind(steps[j]) == 2 && exists i :: 0 <= i <= j && Follows(steps, i, j)
  }

  /** Where a step belongs does not depend on what surrounds the plan's part. */
  lemma FollowsInside(a: seq<Step>, steps: seq<Step>, b: seq<Step>, i: nat, j: nat)
    requires i <= j < |steps| && Follows(steps, i, j)
    ensures Follows(a + steps + b, |a| + i, |a| + j)
  {
    var all := a + steps + b;
    assert all[|a| + i..|a| + j + 1] == steps[i..j + 1];
    assert all[|a| + i + 1..|a| + j + 1] == steps[i + 1..j + 1];
  }

  lemma BlockFollows(block: seq<Step>, domain: string, k: nat)
    requires IsBlock(block, domain) && k < |block|
    ensures Kind(block[k]) == 2 && Follows(block, 0, k)
  {
    assert block[0..k + 1] == block[..k + 1];
    assert block[1..k + 1] == block[1..][..k];
    assert Kind(block[k]) == 2;
    hide Rising;
  }

  lemma BlockAppended(steps: seq<Step>, block: seq<Step>, domain: string)
    requires InBlocks(steps) && IsBlock(block, domain)
    ensures InBlocks(steps + block)
  {
    var all, n := steps + block, |steps|;
    hide IsBlock;
    hide Follows;
    hide Kind;
    assert [] + steps + block == all && steps + block + [] == all;
    forall j | 0 <= j < |all| ensures Kind(all[j]) == 2 && exists i :: 0 <= i <= j && Follows(all, i, j) {
      if j < n {
        assert Kind(steps[j]) == 2;
        var i :| 0 <= i <= j && Follows(steps, i, j);
        FollowsInside([], steps, block, i, j);
      } else {
        BlockFollows(block, domain, j - n);
        FollowsInside(steps, block, [], 0, j - n);
      }
    }
  }

  lemma {:induction false} SitesInBlocks(im: Importer, st: Store, units: seq<Unit>, ss: seq<Site>)
    ensures InBlocks(PlanSites(im, st, units, ss).steps)
  {
    if ss != [] {
      var front, s := ss[..|ss| - 1], ss[|ss| - 1];
      SitesInBlocks(im, st, units, front);
      SiteRises(s, units);
      hide SiteSteps;
      hide InBlocks;
      hide IsBlock;
      if SitePlanned(im, st, s) {
        BlockAppended(PlanSites(im, st, units, front).steps, SiteSteps(s, units), s.domain);
      } else {
        assert PlanSites(im, st, units, front).steps + [] == PlanSites(im, st, units, front).steps;
      }
    }
  }

  /** The three parts of a plan. */
  lemma PlanParts(im: Importer, st: Store, e: Export, o: Order)
    returns (users: seq<Step>, keys: seq<Step>, sites: seq<Step>)
    ensures PlanOf(im, st, e, o).steps == users + keys + sites
    ensures AllOfKind(users, 0) && AllOfKind(keys, 1) && InBlocks(sites)
  {
    users := PlanUsers(im, st, o.users).steps;
    keys := if im.skipKeys then [] else PlanKeys(im, st, e.sites, o.keys).steps;
    sites := if im.skipSites then [] else PlanSites(im, st, e.units, o.sites).steps;
    UserKinds(im, st, o.users);
    KeyKinds(im, st, e.sites, o.keys);
    SitesInBlocks(im, st, e.units, o.sites);
  }

  /** Tenants precede keys, and keys precede sites. Every step about a site comes after the one that
      creates it, with nothing about any other site in between, and its aliases, hooks, units and
      final disabling in that order. */
  lemma ImportInOrder(im: Importer, st: Store, e: Export, o: Order, j: nat)
    requires j < |PlanOf(im, st, e, o).steps|
    ensures var steps := PlanOf(im, st, e, o).steps;
            (forall i :: 0 <= i < j ==> Kind(steps[i]) <= Kind(steps[j]) <= 2)
            && (Kind(steps[j]) == 2 ==> exists i :: 0 <= i <= j && Follows(steps, i, j))
  {
    var users, keys, sites := PlanParts(im, st, e, o);
    var steps := PlanOf(im, st, e, o).steps;
    hide PlanOf;
    hide Kind;
    hide Follows;
    var n := |users + keys|;
    assert forall i :: 0 <= i < n ==> Kind(steps[i]) <= 1;
    assert forall i :: n <= i < |steps| ==> steps[i] == sites[i - n];
    if j >= n {
      assert Kind(sites[j - n]) == 2;
      var i :| 0 <= i <= j - n && Follows(sites, i, j - n);
      FollowsInside(users + keys, sites, [], i, j - n);
      assert users + keys + sites + [] == steps;
    }
  }

  // ----- what can be taken back -----------------------------------------------------------------------

  /** The steps that have an undo are exactly those that create a tenant or a site. */
  lemma UndoableRestores(im: Importer, st: Store, e: Export, step: Step)
    requires Restores(im, st, e, step)
    ensures step.undo.Some? <==>
            (exists u :: u in e.users && UserPlanned(im, st, u) && step == UserStep(u))
            || (!im.skipSites && exists s :: s in e.sites && SitePlanned(im, st, s) && step == SiteStep(s))
  {
    if s :| !im.skipSites && s in e.sites && SitePlanned(im, st, s) && step in SiteSteps(s, e.units) {
      OnlyCreationIsUndone(s, e.units);
    }
  }

  lemma OnlyCreationIsUndone(s: Site, units: seq<Unit>)
    ensures forall step :: step in SiteSteps(s, units) && step.undo.Some? ==> step == SiteStep(s)
  {
    UnitsAreKept(units, s.domain);
    var aliases := AliasSteps(s, s.aliases);
    assert forall i :: 0 <= i < |aliases| ==> aliases[i].undo.None?;
    hide UnitSteps;
  }

  lemma {:induction false} UnitsAreKept(units: seq<Unit>, domain: string)
    ensures forall step :: step in UnitSteps(units, domain) ==> step.undo.None?
  {
    if units != [] {
      UnitsAreKept(units[..|units| - 1], domain);
    }
  }

  /** A failed import deletes only tenants and sites that were not found when it was planned, and whose
      creation succeeded in the same run. */
  lemma DeletesOnlyWhatItImported(im: Importer, st: Store, e: Export, o: Order, f: Flags, env: Env, i: nat)
    requires InOrder(im, e, o)
    requires var steps := PlanOf(im, st, e, o).steps;
             Completed([], steps, f, env) < i < |Execution([], steps, f, env)|
    ensures var run := Execution([], PlanOf(im, st, e, o).steps, f, env);
            (exists u :: u in e.users && UserPlanned(im, st, u) && run[i].argv == Backward(UserStep(u))
                         && Call(Forward(UserStep(u), f), true) in run[..i])
            || (exists s :: s in e.sites && SitePlanned(im, st, s) && run[i].argv == Backward(SiteStep(s))
                            && Call(Forward(SiteStep(s), f), true) in run[..i])
  {
    var steps := PlanOf(im, st, e, o).steps;
    var run := Execution([], steps, f, env);
    var j := CallOf([], steps, f, env, i);
    PlanRestores(im, st, e, o, steps[j]);
    UndoableRestores(im, st, e, steps[j]);
    hide PlanOf;
    hide Execution;
    hide Completed;
    hide Restores;
    assert run[..i][j] == run[j];
    if u :| u in e.users && UserPlanned(im, st, u) && steps[j] == UserStep(u) {
      assert run[i].argv == Backward(UserStep(u));
    }
  }
}
