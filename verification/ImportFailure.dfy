/** What an import that fails leaves: the tenants and sites it was rebuilding are gone, the keys that are
    not those of such a tenant stay, and the rest is as it was. */
module ImportFailure {
  import opened Text
  import opened Compose
  import opened Conservation
  import opened NewLaws
  import opened ImportPlan
  import opened ImportLaws
  import opened ImportOrder
  import opened ImportFlags

  // ----- what each step touches -------------------------------------------------------------------

  predicate AddsTenant(s: Step, tenant: string) {
    Kind(s) == 0 && |s.argv| >= 3 && s.argv[2] == tenant
  }

  /** The steps create the tenant. */
  predicate Creates(steps: seq<Step>, tenant: string) {
    exists i :: 0 <= i < |steps| && AddsTenant(steps[i], tenant)
  }

  /** A key of user scope for a tenant the plan creates: `user delete` takes it away with the tenant. */
  predicate GoesWithTenant(steps: seq<Step>, g: Grant) {
    g.scope == "user" && Creates(steps, g.owner)
  }

  function TenantResource(tenant: string): string {
    "tenant " + tenant
  }

  function KeyResource(line: string): string {
    "key " + line
  }

  function SiteResource(domain: string): string {
    "site " + domain
  }

  lemma Apart(a: string, b: string)
    ensures TenantResource(a) != KeyResource(b) && SiteResource(a) != KeyResource(b)
  {
    assert TenantResource(a)[0] == 't' && KeyResource(b)[0] == 'k' && SiteResource(a)[0] == 's';
  }

  function KeyTouches(steps: seq<Step>, g: Grant): string {
    if GoesWithTenant(steps, g) then TenantResource(g.owner) else KeyResource(g.line)
  }

  /** A tenant with its keys, any other key, or a site with its aliases, hooks and units. */
  function Resource(steps: seq<Step>, s: Step): string {
    if Kind(s) == 0 && |s.argv| >= 3 then TenantResource(s.argv[2])
    else if Kind(s) == 1 && |s.argv| >= 2 && GrantAsked(s.argv).Some? then KeyTouches(steps, GrantAsked(s.argv).value)
    else SiteResource(About(s))
  }

  /** The sites a tenant owned before the import, by domain. */
  type Owned = string -> set<string>

  /** What a step touches, and its undo deletes: its resource, and with a tenant the sites it owned. */
  function Reach(steps: seq<Step>, owned: Owned, s: Step): set<string> {
    {Resource(steps, s)}
    + if Kind(s) == 0 && |s.argv| >= 3 then set d | d in owned(s.argv[2]) :: SiteResource(d) else {}
  }

  function Regions(steps: seq<Step>, owned: Owned): (regions: seq<Region>)
    ensures |regions| == |steps|
  {
    seq(|steps|, i requires 0 <= i < |steps| => Region(Reach(steps, owned, steps[i]), Reach(steps, owned, steps[i])))
  }

  /** A step that adds a key which no deletion of a tenant takes away. */
  predicate KeepsKey(steps: seq<Step>, s: Step) {
    Kind(s) == 1 && |s.argv| >= 2 && GrantAsked(s.argv).Some? && !GoesWithTenant(steps, GrantAsked(s.argv).value)
  }

  // ----- the steps of a plan ------------------------------------------------------------------------

  /** A step that creates a tenant or a site can be undone; one that adds a key is kept. */
  predicate WellShaped(s: Step) {
    (Kind(s) == 0 ==> |s.argv| >= 3 && s.undo.Some?)
    && (Kind(s) == 1 ==> |s.argv| >= 2 && GrantAsked(s.argv).Some? && s.undo.None?)
    && (Kind(s) == 2 && Phase(s) == 0 ==> s.undo.Some?)
  }

  /** Only the first step of a site creates it. */
  lemma CreatesIsFirst(s: Site, units: seq<Unit>, step: Step)
    requires step in SiteSteps(s, units) && Phase(step) == 0
    ensures step == SiteStep(s)
  {
    SiteRises(s, units);
    var block := SiteSteps(s, units);
    hide SiteSteps;
    assert forall i :: 0 < i < |block| ==> block[i] == block[1..][i - 1];
  }

  lemma UserIsWellShaped(u: User)
    ensures WellShaped(UserStep(u)) && Kind(UserStep(u)) == 0
  {
    hide GrantAsked;
    UserArgvParts(u);
  }

  lemma KeyIsWellShaped(k: Key)
    ensures WellShaped(KeyStep(k)) && Kind(KeyStep(k)) == 1
  {
    hide GrantAsked;
    KeyReplayed(k);
  }

  lemma RestoresIsWellShaped(im: Importer, st: Store, e: Export, step: Step)
    requires Restores(im, st, e, step)
    ensures WellShaped(step) && Kind(step) <= 2
  {
    hide UserStep;
    hide KeyStep;
    hide SiteStep;
    hide SiteSteps;
    hide GrantAsked;
    hide Phase;
    if u :| u in e.users && UserPlanned(im, st, u) && step == UserStep(u) {
      UserIsWellShaped(u);
    } else if k :| !im.skipKeys && k in e.keys && KeyPlanned(im, st, e.sites, k) && step == KeyStep(k) {
      KeyIsWellShaped(k);
    } else {
      var s :| s in e.sites && SitePlanned(im, st, s) && step in SiteSteps(s, e.units);
      SiteStepsAreSites(s, e.units, step);
      if Phase(step) == 0 {
        CreatesIsFirst(s, e.units, step);
        CreationIsUndone(s);
      }
    }
  }

  lemma CreationIsUndone(s: Site)
    ensures SiteStep(s).undo.Some?
  {
  }

  lemma SiteStepsAreSites(s: Site, units: seq<Unit>, step: Step)
    requires step in SiteSteps(s, units)
    ensures Kind(step) == 2
  {
    SiteRises(s, units);
    hide SiteSteps;
  }

  /** Well-shaped steps, tenants before keys before sites, and each site created first. */
  ghost predicate WellOrdered(steps: seq<Step>) {
    (forall j :: 0 <= j < |steps| ==> WellShaped(steps[j]) && Kind(steps[j]) <= 2)
    && (forall i, j :: 0 <= i < j < |steps| ==> Kind(steps[i]) <= Kind(steps[j]))
    && (forall j :: 0 <= j < |steps| && Kind(steps[j]) == 2 ==> CreatedBefore(steps, j))
  }

  /** The site of step j is created by step j or an earlier one. */
  predicate CreatedBefore(steps: seq<Step>, j: nat)
    requires j < |steps|
  {
    exists i :: 0 <= i <= j && Kind(steps[i]) == 2 && Phase(steps[i]) == 0 && About(steps[i]) == About(steps[j])
  }

  lemma FollowsCreated(steps: seq<Step>, i: nat, j: nat)
    requires i <= j < |steps| && Follows(steps, i, j)
    ensures Kind(steps[i]) == 2 && Phase(steps[i]) == 0 && About(steps[i]) == About(steps[j])
  {
    var block := steps[i..j + 1];
    assert block[0] == steps[i] && block[j - i] == steps[j];
  }

  lemma PlanIsOrderly(im: Importer, st: Store, e: Export, o: Order)
    requires InOrder(im, e, o)
    ensures WellOrdered(PlanOf(im, st, e, o).steps)
  {
    var steps := PlanOf(im, st, e, o).steps;
    hide PlanOf;
    hide Restores;
    hide InOrder;
    hide WellShaped;
    hide Kind;
    hide Follows;
    hide Phase;
    hide About;
    forall j: nat | j < |steps|
      ensures WellShaped(steps[j]) && Kind(steps[j]) <= 2
      ensures forall i :: 0 <= i < j ==> Kind(steps[i]) <= Kind(steps[j])
      ensures Kind(steps[j]) == 2 ==> CreatedBefore(steps, j)
    {
      PlanRestores(im, st, e, o, steps[j]);
      RestoresIsWellShaped(im, st, e, steps[j]);
      ImportInOrder(im, st, e, o, j);
      if Kind(steps[j]) == 2 {
        var i :| 0 <= i <= j && Follows(steps, i, j);
        FollowsCreated(steps, i, j);
      }
    }
    forall i: nat, j: nat | i < j < |steps| ensures Kind(steps[i]) <= Kind(steps[j]) {
    }
  }

  // ----- when it fails --------------------------------------------------------------------------------

  /** One of the first k steps adds this key, to stay. */
  predicate KeptKey(steps: seq<Step>, k: nat, r: string)
    requires k <= |steps|
  {
    exists i :: 0 <= i < k && KeepsKey(steps, steps[i]) && r == Resource(steps, steps[i])
  }

  lemma SiteCreation(steps: seq<Step>, j: nat) returns (i: nat)
    requires j < |steps| && CreatedBefore(steps, j)
    ensures i <= j && Kind(steps[i]) == 2 && Phase(steps[i]) == 0 && About(steps[i]) == About(steps[j])
  {
    i :| 0 <= i <= j && Kind(steps[i]) == 2 && Phase(steps[i]) == 0 && About(steps[i]) == About(steps[j]);
  }

  /** The first step to touch a tenant or a site is to create it, or its owner. */
  lemma FirstCreates(steps: seq<Step>, owned: Owned, j: nat, r: string)
    requires WellOrdered(steps) && j < |steps| && r in Reach(steps, owned, steps[j])
    requires forall i :: 0 <= i < j ==> r !in Reach(steps, owned, steps[i])
    ensures steps[j].undo.Some? || (KeepsKey(steps, steps[j]) && r == Resource(steps, steps[j]))
  {
    hide KeepsKey;
    hide Kind;
    hide About;
    hide Phase;
    hide GrantAsked;
    hide Resource;
    hide CreatedBefore;
    assert WellShaped(steps[j]);
    if Kind(steps[j]) == 1 && !KeepsKey(steps, steps[j]) {
      var i := TenantComesFirst(steps, j);
      assert false;
    } else if Kind(steps[j]) == 2 {
      SiteComesFirst(steps, j);
    }
  }

  lemma SiteComesFirst(steps: seq<Step>, j: nat)
    requires WellOrdered(steps) && j < |steps| && Kind(steps[j]) == 2
    requires forall i :: 0 <= i < j ==> Resource(steps, steps[i]) != Resource(steps, steps[j])
    ensures steps[j].undo.Some?
  {
    hide Kind;
    hide About;
    hide Phase;
    hide GrantAsked;
    hide CreatedBefore;
    var i := SiteCreation(steps, j);
    assert WellShaped(steps[i]);
  }

  /** The tenant whose key step j adds is created earlier, by a step that touches the same resource. */
  lemma TenantComesFirst(steps: seq<Step>, j: nat) returns (i: nat)
    requires WellOrdered(steps) && j < |steps| && Kind(steps[j]) == 1 && !KeepsKey(steps, steps[j])
    ensures i < j && Resource(steps, steps[i]) == Resource(steps, steps[j])
  {
    hide CreatedBefore;
    assert WellShaped(steps[j]);
    var g := GrantAsked(steps[j].argv).value;
    hide GrantAsked;
    i :| 0 <= i < |steps| && AddsTenant(steps[i], g.owner);
  }

  /** And what is kept is touched by steps that are kept, and nothing else. */
  lemma KeptIsKept(steps: seq<Step>, owned: Owned, k: nat, r: string, i: nat)
    requires WellOrdered(steps) && i < k <= |steps| && KeptKey(steps, k, r) && r in Reach(steps, owned, steps[i])
    ensures steps[i].undo.None?
  {
    hide CreatedBefore;
    hide GrantAsked;
    var h :| 0 <= h < k && KeepsKey(steps, steps[h]) && r == Resource(steps, steps[h]);
    var line := GrantAsked(steps[h].argv).value.line;
    forall a ensures TenantResource(a) != KeyResource(line) && SiteResource(a) != KeyResource(line) {
      Apart(a, line);
    }
    hide TenantResource;
    hide KeyResource;
    hide SiteResource;
    assert WellShaped(steps[i]);
  }

  /** A tenant with its keys, or a site, that one of the first k steps was to create or add to, or that
      belonged to such a tenant. */
  predicate Claimed(steps: seq<Step>, owned: Owned, k: nat, r: string)
    requires k <= |steps|
  {
    !KeptKey(steps, k, r) && exists i :: 0 <= i < k && r in Reach(steps, owned, steps[i])
  }

  /** One resource after a run that fails at step k and whose undos succeed. */
  lemma FailedResource(w: World, steps: seq<Step>, owned: Owned, f: Flags, eff: Effect, env: Env, r: string)
    requires WellOrdered(steps) && FailsRemovably(w, [], steps, Regions(steps, owned), f, eff, env)
    requires UndosSucceed([] + Attempts([], steps, f, env), steps[..Completed([], steps, f, env)], env)
    ensures var k, end := Completed([], steps, f, env), After(w, Execution([], steps, f, env), eff);
            if KeptKey(steps, k, r) then At(end, r) == At(Before(w, steps[..k], f, eff, k), r)
            else if Claimed(steps, owned, k, r) then At(end, r) == None
            else At(end, r) == At(w, r)
  {
    hide Execution;
    hide Completed;
    hide Attempts;
    hide Removable;
    hide KeepsKey;
    hide WellOrdered;
    hide Reach;
    hide Resource;
    var regions, k := Regions(steps, owned), Completed([], steps, f, env);
    FirstTouchRemoves(w, [], steps, regions, f, eff, env, r);
    assert forall i :: 0 <= i < k ==>
             steps[..k][i] == steps[i]
             && regions[..k][i].touched == regions[..k][i].undone == Reach(steps, owned, steps[i]);
    var j := FirstTouch(regions[..k], r);
    if KeptKey(steps, k, r) {
      forall i | 0 <= i < k && r in regions[..k][i].touched ensures steps[..k][i].undo.None? {
        KeptIsKept(steps, owned, k, r, i);
      }
    } else if j < k {
      FirstCreates(steps, owned, j, r);
    }
  }

  /** An import fails at some step and its undos succeed. Every tenant and site that a completed step was
      to create is gone, whether the step created it or found it there, and with a tenant its keys and
      the sites it owned. The other keys the import added are as the run left them; everything else is
      as it was. So the server is as it was exactly when none of the former was there, and adding the
      latter changed nothing. */
  lemma FailedImport(w: World, im: Importer, st: Store, e: Export, o: Order, owned: Owned, f: Flags, eff: Effect,
                     env: Env)
    requires InOrder(im, e, o)
    requires var steps := PlanOf(im, st, e, o).steps;
             FailsRemovably(w, [], steps, Regions(steps, owned), f, eff, env)
             && UndosSucceed([] + Attempts([], steps, f, env), steps[..Completed([], steps, f, env)], env)
    ensures var steps := PlanOf(im, st, e, o).steps;
            var k, end := Completed([], steps, f, env), After(w, Execution([], steps, f, env), eff);
            var left := Before(w, steps[..k], f, eff, k);
            (forall r: string :: Claimed(steps, owned, k, r) ==> r !in end)
            && (forall r: string :: KeptKey(steps, k, r) ==> At(end, r) == At(left, r))
            && (forall r: string :: !Claimed(steps, owned, k, r) && !KeptKey(steps, k, r) ==> At(end, r) == At(w, r))
            && (end == w <==> (forall r: string :: Claimed(steps, owned, k, r) ==> r !in w)
                              && forall r: string :: KeptKey(steps, k, r) ==> At(left, r) == At(w, r))
  {
    PlanIsOrderly(im, st, e, o);
    var steps := PlanOf(im, st, e, o).steps;
    var k, end := Completed([], steps, f, env), After(w, Execution([], steps, f, env), eff);
    hide PlanOf;
    hide InOrder;
    hide Execution;
    hide Completed;
    hide Attempts;
    hide WellOrdered;
    hide Removable;
    hide KeptKey;
    hide UndosSucceed;
    forall r: string
      ensures if KeptKey(steps, k, r) then At(end, r) == At(Before(w, steps[..k], f, eff, k), r)
              else if Claimed(steps, owned, k, r) then At(end, r).None?
              else At(end, r) == At(w, r)
    {
      FailedResource(w, steps, owned, f, eff, env, r);
    }
    hide Claimed;
    forall r: string ensures !(KeptKey(steps, k, r) && Claimed(steps, owned, k, r)) {
      KeptIsNotClaimed(steps, owned, k, r);
    }
    if forall r: string :: At(end, r) == At(w, r) {
      SameEverywhere(end, w);
    }
  }

  lemma KeptIsNotClaimed(steps: seq<Step>, owned: Owned, k: nat, r: string)
    requires k <= |steps|
    ensures !(KeptKey(steps, k, r) && Claimed(steps, owned, k, r))
  {
  }

  // ----- with a store that tells the truth ------------------------------------------------------------

  /** The store answers, and every tenant and site of the server is in it. */
  ghost predicate Mirrors(st: Store, w: World, owned: Owned) {
    st.answers
    && (forall x :: TenantResource(x) in w ==> x in st.users)
    && (forall d :: SiteResource(d) in w ==> d in st.sites)
    && (forall x, d :: d in owned(x) ==> x in st.users)
  }

  lemma PlannedTenantIsMissing(w: World, im: Importer, st: Store, e: Export, steps: seq<Step>, owned: Owned, i: nat,
                               r: string)
    requires Mirrors(st, w, owned) && i < |steps| && Restores(im, st, e, steps[i]) && Kind(steps[i]) == 0
    requires r in Reach(steps, owned, steps[i])
    ensures r !in w
  {
    var u := TenantStep(im, st, e, steps[i]);
    hide TenantResource;
    hide SiteResource;
    hide Restores;
    hide UserStep;
    assert steps[i].argv[..3][2] == u.name;
  }

  lemma PlannedSiteIsMissing(w: World, im: Importer, st: Store, e: Export, steps: seq<Step>, owned: Owned, i: nat,
                             r: string)
    requires Mirrors(st, w, owned) && i < |steps| && Restores(im, st, e, steps[i]) && Kind(steps[i]) == 2
    requires r in Reach(steps, owned, steps[i])
    ensures r !in w
  {
    var s := SiteOfStep(im, st, e, steps[i]);
    hide TenantResource;
    hide SiteResource;
    hide Restores;
    hide About;
  }

  /** A key that goes with a tenant goes with one the import plans to create. */
  lemma KeyOfMissingTenant(w: World, im: Importer, st: Store, e: Export, o: Order, owned: Owned, i: nat, r: string)
    requires InOrder(im, e, o) && Mirrors(st, w, owned) && i < |PlanOf(im, st, e, o).steps|
    requires var steps := PlanOf(im, st, e, o).steps;
             WellShaped(steps[i]) && Kind(steps[i]) == 1 && !KeepsKey(steps, steps[i])
             && r in Reach(steps, owned, steps[i])
    ensures r !in w
  {
    hide PlanOf;
    hide InOrder;
    hide GrantAsked;
    hide TenantResource;
    hide SiteResource;
    var g := GrantAsked(PlanOf(im, st, e, o).steps[i].argv).value;
    CreatesPlanned(im, st, e, o, g.owner);
  }

  /** Then what an import plans to create is not there. */
  lemma ClaimedIsMissing(w: World, im: Importer, st: Store, e: Export, o: Order, owned: Owned, k: nat, r: string)
    requires InOrder(im, e, o) && Mirrors(st, w, owned) && k <= |PlanOf(im, st, e, o).steps|
    requires Claimed(PlanOf(im, st, e, o).steps, owned, k, r)
    ensures r !in w
  {
    hide PlanOf;
    hide InOrder;
    hide Mirrors;
    hide Restores;
    hide KeepsKey;
    hide Kind;
    hide Phase;
    hide GrantAsked;
    hide TenantResource;
    hide SiteResource;
    hide Resource;
    var steps := PlanOf(im, st, e, o).steps;
    var i: nat :| 0 <= i < k && r in Reach(steps, owned, steps[i]);
    PlanRestores(im, st, e, o, steps[i]);
    RestoresIsWellShaped(im, st, e, steps[i]);
    if Kind(steps[i]) == 0 {
      PlannedTenantIsMissing(w, im, st, e, steps, owned, i, r);
    } else if Kind(steps[i]) == 1 {
      KeyOfMissingTenant(w, im, st, e, o, owned, i, r);
    } else {
      PlannedSiteIsMissing(w, im, st, e, steps, owned, i, r);
    }
  }

  /** A step about a site is about one the import plans to create. */
  lemma SiteOfStep(im: Importer, st: Store, e: Export, step: Step) returns (s: Site)
    requires Restores(im, st, e, step) && Kind(step) == 2
    ensures SitePlanned(im, st, s) && About(step) == s.domain
  {
    hide SiteSteps;
    hide UserStep;
    hide KeyStep;
    forall u ensures Kind(UserStep(u)) == 0 {
      UserIsWellShaped(u);
    }
    forall k ensures Kind(KeyStep(k)) == 1 {
      KeyIsWellShaped(k);
    }
    s :| s in e.sites && SitePlanned(im, st, s) && step in SiteSteps(s, e.units);
    SiteRises(s, e.units);
  }

  /** Where the store tells the truth, a failed import leaves everything as it was but for the keys that
      stay: the server is as it was exactly when adding those changed nothing. */
  lemma FailedImportRestores(w: World, im: Importer, st: Store, e: Export, o: Order, owned: Owned, f: Flags,
                             eff: Effect, env: Env)
    requires InOrder(im, e, o) && Mirrors(st, w, owned)
    requires var steps := PlanOf(im, st, e, o).steps;
             FailsRemovably(w, [], steps, Regions(steps, owned), f, eff, env)
             && UndosSucceed([] + Attempts([], steps, f, env), steps[..Completed([], steps, f, env)], env)
    ensures var steps := PlanOf(im, st, e, o).steps;
            var k, end := Completed([], steps, f, env), After(w, Execution([], steps, f, env), eff);
            var left := Before(w, steps[..k], f, eff, k);
            (forall r: string :: !KeptKey(steps, k, r) ==> At(end, r) == At(w, r))
            && (forall r: string :: KeptKey(steps, k, r) ==> At(end, r) == At(left, r))
            && (end == w <==> forall r: string :: KeptKey(steps, k, r) ==> At(left, r) == At(w, r))
  {
    FailedImport(w, im, st, e, o, owned, f, eff, env);
    var steps := PlanOf(im, st, e, o).steps;
    var k := Completed([], steps, f, env);
    hide PlanOf;
    hide InOrder;
    hide Execution;
    hide Completed;
    hide Attempts;
    hide Claimed;
    hide KeptKey;
    hide Mirrors;
    hide UndosSucceed;
    hide Removable;
    forall r: string | Claimed(steps, owned, k, r) ensures r !in w {
      ClaimedIsMissing(w, im, st, e, o, owned, k, r);
    }
  }

  /** Which keys those are: the planned ones that are global, of a site, or of a tenant this run does
      not create. */
  lemma WhichKeysStay(im: Importer, st: Store, e: Export, o: Order, k: Key)
    requires InOrder(im, e, o)
    ensures KeepsKey(PlanOf(im, st, e, o).steps, KeyStep(k)) <==>
            !(k.scope == "user" && exists u :: u in e.users && UserPlanned(im, st, u) && u.name == k.owner)
  {
    var steps := PlanOf(im, st, e, o).steps;
    KeyReplayed(k);
    StepShapes(User("", "", "", "", "", false, false, false), k);
    CreatesPlanned(im, st, e, o, k.owner);
    hide PlanOf;
    hide InOrder;
    hide GrantAsked;
    hide UserPlanned;
    hide Creates;
  }

  /** The tenants a plan creates are the wanted ones that are missing. */
  lemma CreatesPlanned(im: Importer, st: Store, e: Export, o: Order, tenant: string)
    requires InOrder(im, e, o)
    ensures Creates(PlanOf(im, st, e, o).steps, tenant) <==>
            exists u :: u in e.users && UserPlanned(im, st, u) && u.name == tenant
  {
    var steps := PlanOf(im, st, e, o).steps;
    hide PlanOf;
    hide InOrder;
    hide UserPlanned;
    if i :| 0 <= i < |steps| && AddsTenant(steps[i], tenant) {
      PlanRestores(im, st, e, o, steps[i]);
      var u := TenantStep(im, st, e, steps[i]);
    }
    if u :| u in e.users && UserPlanned(im, st, u) && u.name == tenant {
      PlanRestores(im, st, e, o, UserStep(u));
      UserArgvParts(u);
    }
  }

  /** A step that creates a tenant creates one of the export's. */
  lemma TenantStep(im: Importer, st: Store, e: Export, step: Step) returns (u: User)
    requires Restores(im, st, e, step) && Kind(step) == 0
    ensures u in e.users && UserPlanned(im, st, u) && step == UserStep(u) && step.argv[..3] == ["user", "add", u.name]
  {
    forall k ensures Kind(KeyStep(k)) == 1 {
      StepShapes(User("", "", "", "", "", false, false, false), k);
    }
    forall s | step in SiteSteps(s, e.units) ensures Kind(step) == 2 {
      SiteStepsAreSites(s, e.units, step);
    }
    hide SiteSteps;
    hide KeyStep;
    hide UserPlanned;
    u :| u in e.users && UserPlanned(im, st, u) && step == UserStep(u);
    UserArgvParts(u);
  }

  // ----- a key that stays -----------------------------------------------------------------------------

  function InstallKey(w: World, argv: seq<string>): World {
    if |argv| >= 6 && argv[0] == "key" then w[KeyResource(argv[5]) := "installed"] else w
  }

  /** An administrator's key is installed and then the only site is refused: the import fails, and what
      it created is not removed. */
  lemma GlobalKeyStays(w: World, f: Flags, key: Key, site: Site)
    requires !f.dryRun && key.scope == "global" && !key.revoked && key.blob != ""
    ensures var e := Export(1, [], [site], [key], []);
            var im, st := Importer([], false, false), Store(true, true, None, {}, {}, {}, {});
            var steps := PlanOf(im, st, e, Order([], [key], [site])).steps;
            After(w, Execution([], steps, f, OnlyKeys), InstallKey) ==
            w[KeyResource(AuthorizedLine(key)) := "installed"]
  {
    hide SettingsArgv;
    hide AuthorizedLine;
    hide SiteSteps;
    hide KeyStep;
    var im, st := Importer([], false, false), Store(true, true, None, {}, {}, {}, {});
    var e, o := Export(1, [], [site], [key], []), Order([], [key], [site]);
    var steps := PlanOf(im, st, e, o).steps;
    assert steps == [KeyStep(key)] + SiteSteps(site, []) by {
      assert [key][..0] == [] && [site][..0] == [];
      assert PlanKeys(im, st, [site], [key]).steps == [] + [KeyStep(key)];
      assert PlanSites(im, st, [], [site]).steps == [] + SiteSteps(site, []);
    }
    hide PlanOf;
    KeyThenSite(w, f, key, site, steps);
  }

  lemma KeyThenSite(w: World, f: Flags, key: Key, site: Site, steps: seq<Step>)
    requires !f.dryRun && steps == [KeyStep(key)] + SiteSteps(site, [])
    ensures After(w, Execution([], steps, f, OnlyKeys), InstallKey) ==
            w[KeyResource(AuthorizedLine(key)) := "installed"]
  {
    hide SettingsArgv;
    hide AuthorizedLine;
    hide AliasSteps;
    hide HookSteps;
    hide UnitSteps;
    hide DisableSteps;
    KeyArgvParts(key);
    assert steps[1] == SiteStep(site);
    assert Forward(steps[0], f)[0] == "key" && Forward(steps[1], f)[0] == "site";
    assert Forward(steps[0], f)[5] == AuthorizedLine(key);
    hide SiteSteps;
    hide KeyStep;
    assert steps[1..][0] == steps[1];
    assert Completed([], steps, f, OnlyKeys) == 1 by {
      assert Completed([] + [Call(Forward(steps[0], f), true)], steps[1..], f, OnlyKeys) == 0;
    }
    FailedRun(w, [], steps, f, InstallKey, OnlyKeys);
    assert steps[..1] == [steps[0]] && steps[..1][..1] == steps[..1] && steps[..1][0..] == steps[..1];
    FirstStep(w, steps[..1], f, InstallKey);
    var log := [] + Attempts([], steps, f, OnlyKeys);
    assert [steps[0]][..0] == [] && Unwinding(log, [], OnlyKeys) == [];
    assert steps[0].undo.None? by {
      KeyIsKept(key);
    }
    assert Unwinding(log, steps[..1], OnlyKeys) == [];
  }

  lemma KeyIsKept(k: Key)
    ensures KeyStep(k).undo.None?
  {
  }
}
