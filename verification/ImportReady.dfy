/** Whether each step of an import finds the tenant or site it needs, and no key that it adds again. */
module ImportReady {
  import opened Text
  import opened Compose
  import opened ImportPlan
  import opened ImportLaws
  import opened ImportOrder
  import opened ImportFlags
  import opened ImportFailure
  import opened ImportTwins

  // ----- what a step needs --------------------------------------------------------------------------

  /** The tenant is in the store, or created by an earlier step. */
  predicate TenantThere(st: Store, before: seq<Step>, tenant: string) {
    tenant in st.users || Creates(before, tenant)
  }

  /** The step gives the server a site of that name, or an alias. */
  predicate NamesSite(s: Step, name: string) {
    Kind(s) == 2
    && ((Phase(s) == 0 && About(s) == name) || (Phase(s) == 1 && |s.argv| >= 5 && s.argv[4] == name))
  }

  /** FindSiteByName would find the site: by its domain or by an alias. */
  predicate SiteThere(st: Store, before: seq<Step>, name: string) {
    name in st.sites || name in st.aliases || exists i :: 0 <= i < |before| && NamesSite(before[i], name)
  }

  /** The key has a label, and a scope that fits its tenant and site. */
  predicate Acceptable(g: Grant) {
    g.name != ""
    && ((g.scope == "global" && g.owner == "" && g.site == "")
        || (g.scope == "user" && g.owner != "" && g.site == "")
        || (g.scope == "site" && g.site != ""))
  }

  /** The key is in the store, or added by an earlier step. */
  predicate KeyThere(st: Store, before: seq<Step>, fp: Hash, mark: string) {
    mark in st.fingerprints || exists i :: 0 <= i < |before| && Print(before[i], fp) == Some(mark)
  }

  predicate KeyReady(st: Store, before: seq<Step>, fp: Hash, g: Grant) {
    Acceptable(g) && !KeyThere(st, before, fp, fp(g.line))
    && (g.scope == "user" ==> TenantThere(st, before, g.owner)) && (g.scope == "site" ==> SiteThere(st, before, g.site))
  }

  /** What the step's command looks up, and refuses to go on without, is there; a key is not. */
  predicate Ready(st: Store, before: seq<Step>, fp: Hash, s: Step) {
    match Kind(s)
    case 1 => |s.argv| >= 2 && GrantAsked(s.argv).Some? && KeyReady(st, before, fp, GrantAsked(s.argv).value)
    case 2 => if Phase(s) == 0 then |s.argv| >= 5 && TenantThere(st, before, s.argv[4])
              else SiteThere(st, before, About(s))
    case _ => true
  }

  predicate AllReady(st: Store, fp: Hash, steps: seq<Step>) {
    forall j :: 0 <= j < |steps| ==> Ready(st, steps[..j], fp, steps[j])
  }

  /** The tenant is here, or the import creates it. */
  predicate TenantComes(im: Importer, st: Store, e: Export, tenant: string) {
    tenant in st.users || exists u :: u in e.users && UserPlanned(im, st, u) && u.name == tenant
  }

  predicate KeyCanCome(im: Importer, st: Store, e: Export, fp: Hash, k: Key) {
    Acceptable(GrantOf(k)) && fp(AuthorizedLine(k)) !in st.fingerprints
    && (k.scope == "user" ==> TenantComes(im, st, e, k.owner))
    && (k.scope == "site" ==> k.site in st.sites || k.site in st.aliases)
  }

  // ----- tenants and sites among the earlier steps --------------------------------------------------

  /** Whatever tenant a plan creates, it creates before its keys and sites. */
  lemma TenantInTime(im: Importer, st: Store, e: Export, o: Order, j: nat, tenant: string)
    requires InOrder(im, e, o) && j < |PlanOf(im, st, e, o).steps| && Kind(PlanOf(im, st, e, o).steps[j]) > 0
    ensures TenantThere(st, PlanOf(im, st, e, o).steps[..j], tenant) <==> TenantComes(im, st, e, tenant)
  {
    CreatesPlanned(im, st, e, o, tenant);
    PlanIsOrderly(im, st, e, o);
    var steps := PlanOf(im, st, e, o).steps;
    hide PlanOf;
    hide InOrder;
    hide UserPlanned;
    hide WellShaped;
    CreatedInTime(steps, j, tenant);
  }

  lemma CreatedInTime(steps: seq<Step>, j: nat, tenant: string)
    requires WellOrdered(steps) && j < |steps| && Kind(steps[j]) > 0
    ensures Creates(steps[..j], tenant) <==> Creates(steps, tenant)
  {
    hide WellShaped;
    hide CreatedBefore;
    hide Kind;
    if i :| 0 <= i < |steps| && AddsTenant(steps[i], tenant) {
      assert Kind(steps[i]) < Kind(steps[j]);
      assert AddsTenant(steps[..j][i], tenant);
    }
    if i :| 0 <= i < j && AddsTenant(steps[..j][i], tenant) {
      assert AddsTenant(steps[i], tenant);
    }
  }

  /** No site is there in time for a key, unless it was there before. */
  lemma NoSiteInTime(st: Store, steps: seq<Step>, j: nat, name: string)
    requires WellOrdered(steps) && j < |steps| && Kind(steps[j]) == 1
    ensures SiteThere(st, steps[..j], name) <==> name in st.sites || name in st.aliases
  {
    hide WellShaped;
    hide CreatedBefore;
    hide Kind;
    assert forall i :: 0 <= i < j ==> Kind(steps[..j][i]) <= 1;
  }

  /** A site is there for everything that follows its creation. */
  lemma PartsAreReady(st: Store, steps: seq<Step>, fp: Hash, j: nat)
    requires WellOrdered(steps) && j < |steps| && Kind(steps[j]) == 2 && Phase(steps[j]) > 0
    ensures Ready(st, steps[..j], fp, steps[j])
  {
    hide WellShaped;
    hide Kind;
    hide Phase;
    hide About;
    hide GrantAsked;
    hide KeyReady;
    hide TenantThere;
    hide CreatedBefore;
    var i := SiteCreation(steps, j);
    assert NamesSite(steps[..j][i], About(steps[j]));
  }

  // ----- one step at a time ---------------------------------------------------------------------------

  /** No earlier step adds the key. */
  predicate First(steps: seq<Step>, fp: Hash, j: nat)
    requires j < |steps|
  {
    forall i :: 0 <= i < j && Print(steps[i], fp).Some? ==> Print(steps[i], fp) != Print(steps[j], fp)
  }

  lemma KeyIsReady(im: Importer, st: Store, e: Export, o: Order, fp: Hash, j: nat, k: Key)
    requires InOrder(im, e, o) && j < |PlanOf(im, st, e, o).steps| && PlanOf(im, st, e, o).steps[j] == KeyStep(k)
    ensures var steps := PlanOf(im, st, e, o).steps;
            Ready(st, steps[..j], fp, steps[j]) <==> KeyCanCome(im, st, e, fp, k) && First(steps, fp, j)
  {
    var steps := PlanOf(im, st, e, o).steps;
    KeyArgvRead(k);
    KeyReplayed(k);
    PrintOfKey(k, fp);
    assert Kind(KeyStep(k)) == 1;
    hide PlanOf;
    hide InOrder;
    hide GrantAsked;
    hide KeyStep;
    hide TenantThere;
    hide SiteThere;
    hide TenantComes;
    hide WellOrdered;
    hide Print;
    hide Acceptable;
    hide AuthorizedLine;
    TenantInTime(im, st, e, o, j, k.owner);
    PlanIsOrderly(im, st, e, o);
    NoSiteInTime(st, steps, j, k.site);
    assert KeyThere(st, steps[..j], fp, fp(AuthorizedLine(k))) <==>
           fp(AuthorizedLine(k)) in st.fingerprints || !First(steps, fp, j) by {
      assert forall i :: 0 <= i < j ==> steps[..j][i] == steps[i];
    }
  }

  lemma SiteIsReady(im: Importer, st: Store, e: Export, o: Order, fp: Hash, j: nat, s: Site)
    requires InOrder(im, e, o) && j < |PlanOf(im, st, e, o).steps| && PlanOf(im, st, e, o).steps[j] == SiteStep(s)
    ensures var steps := PlanOf(im, st, e, o).steps;
            Ready(st, steps[..j], fp, steps[j]) <==> TenantComes(im, st, e, s.owner)
  {
    hide SettingsArgv;
    var steps := PlanOf(im, st, e, o).steps;
    assert Kind(SiteStep(s)) == 2 && Phase(SiteStep(s)) == 0 && SiteStep(s).argv[4] == s.owner;
    hide PlanOf;
    hide InOrder;
    hide SiteStep;
    hide TenantThere;
    hide TenantComes;
    TenantInTime(im, st, e, o, j, s.owner);
  }

  // ----- the whole plan -------------------------------------------------------------------------------

  /** Every step of an import finds its tenant or site, in the store or created by an earlier step, and
      adds no key that is already there, exactly when: each planned key is acceptable, not installed,
      and not for a site that is not here already; the owner of every planned key and site is here or
      among the planned tenants; and no two planned keys have the same fingerprint. */
  lemma ImportReady(im: Importer, st: Store, e: Export, o: Order, fp: Hash)
    requires InOrder(im, e, o)
    ensures AllReady(st, fp, PlanOf(im, st, e, o).steps) <==>
            (im.skipKeys || ((forall k :: Live(im, st, e, k) ==> KeyCanCome(im, st, e, fp, k))
                             && NoTwins(im, st, e, fp)))
            && (im.skipSites || forall s :: s in e.sites && SitePlanned(im, st, s) ==> TenantComes(im, st, e, s.owner))
  {
    var steps := PlanOf(im, st, e, o).steps;
    hide PlanOf;
    hide InOrder;
    hide Ready;
    hide TenantComes;
    hide KeyCanCome;
    hide KeyPlanned;
    hide SitePlanned;
    hide NoTwins;
    hide NoRepeat;
    if AllReady(st, fp, steps) {
      if !im.skipKeys {
        forall k | Live(im, st, e, k) ensures KeyCanCome(im, st, e, fp, k) {
          PlannedKeyIsReady(im, st, e, o, fp, k);
        }
        ReadyHasNoTwins(im, st, e, o, fp);
      }
      if !im.skipSites {
        forall s | s in e.sites && SitePlanned(im, st, s) ensures TenantComes(im, st, e, s.owner) {
          PlannedSiteIsReady(im, st, e, o, fp, s);
        }
      }
    } else {
      var j :| 0 <= j < |steps| && !Ready(st, steps[..j], fp, steps[j]);
      WhatIsUnready(im, st, e, o, fp, j);
    }
  }

  lemma PlannedKeyIsReady(im: Importer, st: Store, e: Export, o: Order, fp: Hash, k: Key)
    requires InOrder(im, e, o) && AllReady(st, fp, PlanOf(im, st, e, o).steps)
    requires !im.skipKeys && Live(im, st, e, k)
    ensures KeyCanCome(im, st, e, fp, k)
  {
    var steps := PlanOf(im, st, e, o).steps;
    PlanRestores(im, st, e, o, KeyStep(k));
    hide PlanOf;
    hide InOrder;
    hide KeyPlanned;
    hide KeyStep;
    hide Ready;
    var j :| 0 <= j < |steps| && steps[j] == KeyStep(k);
    KeyIsReady(im, st, e, o, fp, j, k);
  }

  /** A step that adds a key adds a live key of the export. */
  lemma KeyOfStep(im: Importer, st: Store, e: Export, fp: Hash, step: Step) returns (k: Key)
    requires Restores(im, st, e, step) && Print(step, fp).Some?
    ensures !im.skipKeys && Live(im, st, e, k) && step == KeyStep(k)
  {
    hide SiteSteps;
    hide KeyStep;
    hide UserStep;
    hide KeyPlanned;
    hide UserPlanned;
    hide SitePlanned;
    hide GrantAsked;
    forall u ensures Kind(UserStep(u)) == 0 {
      StepShapes(u, Key("", "", "", "", "", "", "", "", UNLIMITED, false));
    }
    forall s | step in SiteSteps(s, e.units) ensures Kind(step) == 2 {
      SiteStepsAreSites(s, e.units, step);
    }
    k :| k in e.keys && KeyPlanned(im, st, e.sites, k) && step == KeyStep(k);
  }

  lemma ReadyHasNoTwins(im: Importer, st: Store, e: Export, o: Order, fp: Hash)
    requires InOrder(im, e, o) && AllReady(st, fp, PlanOf(im, st, e, o).steps) && !im.skipKeys
    ensures NoTwins(im, st, e, fp)
  {
    var steps := PlanOf(im, st, e, o).steps;
    PlanHasNoTwins(im, st, e, o, fp);
    hide PlanOf;
    hide InOrder;
    hide Ready;
    hide Print;
    hide NoTwins;
    hide Restores;
    forall j: nat | j < |steps| && Print(steps[j], fp).Some? ensures First(steps, fp, j) {
      PlanRestores(im, st, e, o, steps[j]);
      var k := KeyOfStep(im, st, e, fp, steps[j]);
      KeyIsReady(im, st, e, o, fp, j, k);
    }
  }

  lemma PlannedSiteIsReady(im: Importer, st: Store, e: Export, o: Order, fp: Hash, s: Site)
    requires InOrder(im, e, o) && AllReady(st, fp, PlanOf(im, st, e, o).steps)
    requires !im.skipSites && s in e.sites && SitePlanned(im, st, s)
    ensures TenantComes(im, st, e, s.owner)
  {
    var steps := PlanOf(im, st, e, o).steps;
    assert SiteStep(s) in SiteSteps(s, e.units) by {
      SiteRises(s, e.units);
    }
    PlanRestores(im, st, e, o, SiteStep(s));
    hide PlanOf;
    hide InOrder;
    hide SitePlanned;
    hide SiteStep;
    hide SiteSteps;
    hide Ready;
    var j :| 0 <= j < |steps| && steps[j] == SiteStep(s);
    SiteIsReady(im, st, e, o, fp, j, s);
  }

  /** A step that is not ready is a planned key, or creates a planned site. */
  lemma WhatIsUnready(im: Importer, st: Store, e: Export, o: Order, fp: Hash, j: nat)
    requires InOrder(im, e, o) && j < |PlanOf(im, st, e, o).steps|
    requires !Ready(st, PlanOf(im, st, e, o).steps[..j], fp, PlanOf(im, st, e, o).steps[j])
    ensures (!im.skipKeys && exists k :: Live(im, st, e, k)
                                         && (!KeyCanCome(im, st, e, fp, k) || !NoTwins(im, st, e, fp)))
            || (!im.skipSites && exists s :: s in e.sites && SitePlanned(im, st, s) && !TenantComes(im, st, e, s.owner))
  {
    var steps := PlanOf(im, st, e, o).steps;
    var step := steps[j];
    PlanRestores(im, st, e, o, step);
    PlanIsOrderly(im, st, e, o);
    hide PlanOf;
    hide InOrder;
    hide KeyPlanned;
    hide SitePlanned;
    hide UserPlanned;
    hide SiteSteps;
    hide SiteStep;
    hide KeyStep;
    hide UserStep;
    hide KeyCanCome;
    hide TenantComes;
    hide WellOrdered;
    hide Phase;
    hide NoTwins;
    hide Print;
    if k :| !im.skipKeys && k in e.keys && KeyPlanned(im, st, e.sites, k) && step == KeyStep(k) {
      KeyIsReady(im, st, e, o, fp, j, k);
      PlanHasNoTwins(im, st, e, o, fp);
      assert Live(im, st, e, k);
    } else if s :| !im.skipSites && s in e.sites && SitePlanned(im, st, s) && step in SiteSteps(s, e.units) {
      SiteStepsAreSites(s, e.units, step);
      if Phase(step) == 0 {
        CreatesIsFirst(s, e.units, step);
        SiteIsReady(im, st, e, o, fp, j, s);
      } else {
        PartsAreReady(st, steps, fp, j);
      }
    } else {
      var u :| u in e.users && step == UserStep(u);
      TenantIsReady(st, steps[..j], fp, u);
    }
  }

  lemma TenantIsReady(st: Store, before: seq<Step>, fp: Hash, u: User)
    ensures Ready(st, before, fp, UserStep(u))
  {
    assert Kind(UserStep(u)) == 0;
  }

  // ----- when a step is not ready ---------------------------------------------------------------------

  /** Commands refuse to run without what they look up, and to add a key again. */
  ghost predicate Refuses(st: Store, fp: Hash, steps: seq<Step>, f: Flags, env: Env) {
    forall j :: 0 <= j < |steps| && env(Successes(steps[..j], f), Forward(steps[j], f)) ==>
      Ready(st, steps[..j], fp, steps[j])
  }

  /** Then an import that is not ready throughout never runs to its end. */
  lemma UnreadyNeverCompletes(st: Store, fp: Hash, steps: seq<Step>, f: Flags, env: Env)
    requires Refuses(st, fp, steps, f, env) && !AllReady(st, fp, steps)
    ensures Completed([], steps, f, env) < |steps|
  {
    var j :| 0 <= j < |steps| && !Ready(st, steps[..j], fp, steps[j]);
    hide Completed;
    hide Ready;
    assert [] + Successes(steps[..j], f) == Successes(steps[..j], f);
    if j < Completed([], steps, f, env) {
      CompletedIs([], steps, f, env, j);
    }
  }

  /** Moving to a server that has no sites, an export with a live key for a site can not be imported:
      not even when it holds that site, because keys are restored before sites. */
  lemma SiteKeyStopsImport(im: Importer, st: Store, e: Export, o: Order, fp: Hash, f: Flags, env: Env, k: Key)
    requires InOrder(im, e, o) && Refuses(st, fp, PlanOf(im, st, e, o).steps, f, env)
    requires !im.skipKeys && Live(im, st, e, k) && k.scope == "site"
    requires k.site !in st.sites && k.site !in st.aliases
    ensures Completed([], PlanOf(im, st, e, o).steps, f, env) < |PlanOf(im, st, e, o).steps|
  {
    ImportReady(im, st, e, o, fp);
    hide PlanOf;
    hide InOrder;
    hide Refuses;
    hide AllReady;
    hide Live;
    hide NoTwins;
    UnreadyNeverCompletes(st, fp, PlanOf(im, st, e, o).steps, f, env);
  }

  /** Nor can an export in which one key is live twice, whatever its scopes. */
  lemma TwinsStopImport(im: Importer, st: Store, e: Export, o: Order, fp: Hash, f: Flags, env: Env, k: Key, k': Key)
    requires InOrder(im, e, o) && Refuses(st, fp, PlanOf(im, st, e, o).steps, f, env)
    requires !im.skipKeys && Live(im, st, e, k) && Live(im, st, e, k')
    requires k != k' && AuthorizedLine(k) == AuthorizedLine(k')
    ensures Completed([], PlanOf(im, st, e, o).steps, f, env) < |PlanOf(im, st, e, o).steps|
  {
    ImportReady(im, st, e, o, fp);
    hide PlanOf;
    hide InOrder;
    hide Refuses;
    hide AllReady;
    hide Live;
    UnreadyNeverCompletes(st, fp, PlanOf(im, st, e, o).steps, f, env);
  }

  /** A tenant, its site and a key for that site, moved to an empty server: the tenant and the site
      could come, but the key can not, and the import stops before its end. */
  lemma MovedSiteKey(u: User, s: Site, k: Key, o: Order, fp: Hash, f: Flags, env: Env)
    requires s.owner == u.name && k.scope == "site" && k.site == s.domain && !k.revoked && k.blob != ""
    requires InOrder(Importer([], false, false), Export(1, [u], [s], [k], []), o)
    requires var steps := PlanOf(Importer([], false, false), Store(true, true, None, {}, {}, {}, {}),
                                 Export(1, [u], [s], [k], []), o).steps;
             Refuses(Store(true, true, None, {}, {}, {}, {}), fp, steps, f, env)
    ensures var im, st := Importer([], false, false), Store(true, true, None, {}, {}, {}, {});
            var e := Export(1, [u], [s], [k], []);
            TenantComes(im, st, e, s.owner)
            && Completed([], PlanOf(im, st, e, o).steps, f, env) < |PlanOf(im, st, e, o).steps|
  {
    var im, st := Importer([], false, false), Store(true, true, None, {}, {}, {}, {});
    var e := Export(1, [u], [s], [k], []);
    hide PlanOf;
    hide InOrder;
    hide Refuses;
    assert u in e.users && UserPlanned(im, st, u);
    assert k in e.keys && KeyPlanned(im, st, e.sites, k);
    SiteKeyStopsImport(im, st, e, o, fp, f, env, k);
  }
}
