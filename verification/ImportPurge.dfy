/** An import that fails half way, with commands that do what ratline's do: adding what is there succeeds
    and changes nothing, and deleting a tenant tears its sites down first (internal/cli/cmd_user.go).
    On a bare server nothing is left behind; where lookups fail, what was there is deleted. */
module ImportPurge {
  import opened Compose
  import opened Conservation
  import opened ImportPlan
  import opened ImportFlags
  import opened ImportOrder
  import opened ImportFailure

  predicate NoAliases(log: seq<Call>, argv: seq<string>) {
    |argv| < 2 || argv[1] != "alias"
  }

  predicate IsSite(r: string) {
    "site " <= r
  }

  /** The server without a tenant and its sites; a site's value is its owner. */
  function Purged(w: World, tenant: string): World {
    map r | r in w && r != TenantResource(tenant) && !(IsSite(r) && w[r] == tenant) :: w[r]
  }

  function Added(w: World, r: string, v: string): World {
    if r in w then w else w[r := v]
  }

  function Serve(w: World, argv: seq<string>): World {
    if |argv| < 3 then w
    else match (argv[0], argv[1])
      case ("user", "add") => Added(w, TenantResource(argv[2]), "there")
      case ("user", "delete") => Purged(w, argv[2])
      case ("site", "add") => if |argv| < 5 then w else Added(w, SiteResource(argv[2]), argv[4])
      case ("site", "delete") => w - {SiteResource(argv[2])}
      case _ => w
  }

  /** Neither the tenant nor a site of that name is there, nor any site the tenant owns. */
  predicate Bare(w: World, u: User, s: Site) {
    TenantResource(u.name) !in w && SiteResource(s.domain) !in w
    && forall r :: r in w && IsSite(r) ==> w[r] != u.name
  }

  /** The sites each tenant owns. */
  function OwnedIn(w: World): Owned {
    tenant => set r | r in w && IsSite(r) && w[r] == tenant :: r[5..]
  }

  /** The steps before the first alias. */
  function Creation(u: User, s: Site): seq<Step> {
    [UserStep(u), SiteStep(s)]
  }

  lemma CreatesTenant(w: World, u: User, s: Site, f: Flags)
    ensures Serve(w, Forward(Creation(u, s)[0], f)) == Added(w, TenantResource(u.name), "there")
  {
    UserArgvParts(u);
    hide UserArgv;
    hide Added;
    var argv := Forward(Creation(u, s)[0], f);
    assert argv[0] == "user" && argv[1] == "add" && argv[2] == u.name;
  }

  lemma CreatesSite(w: World, u: User, s: Site, f: Flags)
    ensures Serve(w, Forward(Creation(u, s)[1], f)) == Added(w, SiteResource(s.domain), s.owner)
  {
    hide UserArgv;
    hide Added;
  }

  lemma Creates(w: World, u: User, s: Site, f: Flags)
    ensures Serve(w, Forward(Creation(u, s)[0], f)) == Added(w, TenantResource(u.name), "there")
    ensures Serve(w, Forward(Creation(u, s)[1], f)) == Added(w, SiteResource(s.domain), s.owner)
  {
    hide *;
    CreatesTenant(w, u, s, f);
    CreatesSite(w, u, s, f);
  }

  lemma Deletes(w: World, u: User, s: Site)
    ensures forall i :: 0 <= i < 2 ==> Creation(u, s)[i].undo.Some?
    ensures Serve(w, Backward(Creation(u, s)[0])) == Purged(w, u.name)
    ensures Serve(w, Backward(Creation(u, s)[1])) == w - {SiteResource(s.domain)}
  {
    hide UserArgv;
    hide Purged;
  }

  // ----- the run ------------------------------------------------------------------------------------

  /** The worlds such a run passes through, forwards... */
  function There(w: World, u: User, s: Site, i: nat): World {
    if i == 0 then w
    else if i == 1 then Added(w, TenantResource(u.name), "there")
    else Added(Added(w, TenantResource(u.name), "there"), SiteResource(s.domain), s.owner)
  }

  /** ...and back. */
  function Back(end: World, u: User, s: Site, i: nat): World {
    if i == 0 then Purged(end - {SiteResource(s.domain)}, u.name)
    else if i == 1 then end - {SiteResource(s.domain)}
    else end
  }

  lemma {:induction false} WayThere(w: World, u: User, s: Site, f: Flags, i: nat)
    requires i <= 2 == |Creation(u, s)|
    ensures Before(w, Creation(u, s), f, Serve, i) == There(w, u, s, i)
  {
    hide Serve;
    hide Creation;
    hide Before;
    if i == 0 {
      NothingDone(w, Creation(u, s), f, Serve);
    } else {
      WayThere(w, u, s, f, i - 1);
      BeforeNext(w, Creation(u, s), f, Serve, i - 1);
      Creates(There(w, u, s, i - 1), u, s, f);
    }
  }

  lemma EachTakenBack(u: User, s: Site, log: seq<Call>, i: nat)
    requires i < 2
    ensures TakenBack(log, Creation(u, s), NoAliases, i)
  {
    hide Unwinding;
    hide UserArgv;
  }

  lemma {:induction false} WayBack(end: World, log: seq<Call>, u: User, s: Site, i: nat)
    requires i <= 2 == |Creation(u, s)|
    ensures Unwound(end, log, Creation(u, s), Serve, NoAliases, i) == Back(end, u, s, i)
    decreases 2 - i
  {
    hide Serve;
    hide TakenBack;
    hide Unwound;
    hide Creation;
    if i == 2 {
      NothingUnwound(end, log, Creation(u, s), Serve, NoAliases);
    } else {
      WayBack(end, log, u, s, i + 1);
      EachTakenBack(u, s, log, i);
      UnwoundNext(end, log, Creation(u, s), Serve, NoAliases, i);
      Deletes(Back(end, u, s, i + 1), u, s);
    }
  }

  lemma TenantIsNoSite(tenant: string, r: string)
    requires IsSite(r)
    ensures TenantResource(tenant) != r
    ensures SiteResource(r[5..]) == r
  {
    assert TenantResource(tenant)[0] == 't' && r[0] == "site "[0];
  }

  /** Once the site is gone, deleting the tenant takes along the sites it owned before, and no others. */
  lemma PurgeTakes(w: World, u: User, s: Site)
    ensures var later := There(w, u, s, 2) - {SiteResource(s.domain)};
            (forall r :: r != TenantResource(u.name) && !(IsSite(r) && r in w && w[r] == u.name) ==>
               At(Purged(later, u.name), r) == At(later, r))
            && (forall r :: r == TenantResource(u.name) || (IsSite(r) && r in w && w[r] == u.name) ==>
                  r !in Purged(later, u.name))
            && Purged(later, u.name) == Purged(w - {SiteResource(s.domain)}, u.name)
  {
    assert IsSite(SiteResource(s.domain));
    TenantIsNoSite(u.name, SiteResource(s.domain));
    assert !IsSite(TenantResource(u.name)) by {
      if IsSite(TenantResource(u.name)) {
        TenantIsNoSite(u.name, TenantResource(u.name));
      }
    }
    hide TenantResource;
    hide SiteResource;
    hide IsSite;
  }

  lemma PurgeIsConfined(w: World, u: User, s: Site)
    requires Bare(w, u, s)
    ensures Purged(w - {SiteResource(s.domain)}, u.name) == w
  {
  }

  lemma SiteNamesTheSite(s: Site)
    ensures Kind(SiteStep(s)) == 2 && About(SiteStep(s)) == s.domain
  {
  }

  function TenantReach(w: World, u: User): set<string> {
    {TenantResource(u.name)} + set d | d in OwnedIn(w)(u.name) :: SiteResource(d)
  }

  lemma TenantReachIs(w: World, u: User, r: string)
    ensures r in TenantReach(w, u) <==> r == TenantResource(u.name) || (IsSite(r) && r in w && w[r] == u.name)
  {
    if r in w && IsSite(r) {
      TenantIsNoSite(u.name, r);
      if w[r] == u.name {
        assert r[5..] in OwnedIn(w)(u.name);
      }
    }
    if d :| d in OwnedIn(w)(u.name) && r == SiteResource(d) {
      var r' :| r' in w && IsSite(r') && w[r'] == u.name && r'[5..] == d;
      TenantIsNoSite(u.name, r');
    }
  }

  function ReachOf(w: World, u: User, s: Site, i: nat): set<string> {
    if i == 0 then TenantReach(w, u) else {SiteResource(s.domain)}
  }

  lemma CreationReach(w: World, u: User, s: Site, steps: seq<Step>, i: nat)
    requires i < 2 <= |steps| && steps[..2] == Creation(u, s)
    ensures Regions(steps, OwnedIn(w))[i] == Region(ReachOf(w, u, s, i), ReachOf(w, u, s, i))
  {
    assert steps[0] == steps[..2][0] && steps[1] == steps[..2][1];
    UserIsWellShaped(u);
    UserArgvParts(u);
    SiteNamesTheSite(s);
    hide GrantAsked;
    hide SiteStep;
    hide OwnedIn;
  }

  /** Where each command runs, it keeps to its region, and its undo deletes that. */
  lemma StepsFit(w: World, u: User, s: Site, f: Flags, i: nat)
    requires i < 2 == |Creation(u, s)| && Creation(u, s)[i].undo.Some?
    ensures var region := Region(ReachOf(w, u, s, i), ReachOf(w, u, s, i));
            var later := Back(There(w, u, s, 2), u, s, i + 1);
            Confined(Serve, Forward(Creation(u, s)[i], f), There(w, u, s, i), region)
            && Confined(Serve, Backward(Creation(u, s)[i]), later, region)
            && Removes(Serve, Backward(Creation(u, s)[i]), later, region)
  {
    hide Serve;
    hide Creation;
    hide Purged;
    hide TenantResource;
    hide SiteResource;
    hide TenantReach;
    hide IsSite;
    PurgeTakes(w, u, s);
    Creates(There(w, u, s, i), u, s, f);
    Deletes(Back(There(w, u, s, 2), u, s, i + 1), u, s);
    forall r
      ensures r in TenantReach(w, u) <==> r == TenantResource(u.name) || (IsSite(r) && r in w && w[r] == u.name)
    {
      TenantReachIs(w, u, r);
    }
  }

  /** Each step keeps to its region, there and back, and its undo deletes. */
  lemma StepIsRemovable(w: World, log: seq<Call>, u: User, s: Site, f: Flags, regions: seq<Region>, i: nat)
    requires i < 2 == |Creation(u, s)| == |regions|
    requires regions[i] == Region(ReachOf(w, u, s, i), ReachOf(w, u, s, i))
    ensures Keeps(w, log, Creation(u, s), regions, f, Serve, NoAliases, i)
    ensures Creation(u, s)[i].undo.Some?
    ensures Removes(Serve, Backward(Creation(u, s)[i]), Later(w, log, Creation(u, s), f, Serve, NoAliases, i),
                    regions[i])
  {
    hide Serve;
    hide TakenBack;
    hide Unwound;
    hide Before;
    hide Creation;
    hide There;
    hide Back;
    hide Confined;
    hide Removes;
    hide ReachOf;
    WayThere(w, u, s, f, i);
    WayThere(w, u, s, f, 2);
    WayBack(There(w, u, s, 2), log, u, s, i + 1);
    Deletes(w, u, s);
    StepsFit(w, u, s, f, i);
  }

  lemma SecondWords(u: User, s: Site, a: string, f: Flags)
    ensures |Forward(UserStep(u), f)| >= 2 && Forward(UserStep(u), f)[1] == "add"
    ensures |Forward(SiteStep(s), f)| >= 2 && Forward(SiteStep(s), f)[1] == "add"
    ensures |Forward(AliasStep(s, a), f)| >= 2 && Forward(AliasStep(s, a), f)[1] == "alias"
  {
    UserArgvParts(u);
    hide UserArgv;
  }

  lemma FirstSteps(s: Site)
    requires |s.aliases| > 0
    ensures var steps := SiteSteps(s, []);
            |steps| >= 2 && steps[0] == SiteStep(s) && steps[1] == AliasStep(s, s.aliases[0])
  {
    hide SiteStep;
    hide AliasStep;
  }

  lemma OnlyAliasFails(u: User, s: Site, f: Flags, steps: seq<Step>)
    requires |s.aliases| > 0 && steps == [UserStep(u)] + SiteSteps(s, [])
    ensures |steps| >= 3 && steps[..2] == Creation(u, s)
    ensures Completed([], steps, f, NoAliases) == 2
  {
    hide SiteSteps;
    hide UserStep;
    hide SiteStep;
    hide AliasStep;
    hide Completed;
    hide Forward;
    FirstSteps(s);
    SecondWords(u, s, s.aliases[0], f);
    CompletedIs([], steps, f, NoAliases, 0);
    CompletedIs([], steps, f, NoAliases, 1);
    CompletedIs([], steps, f, NoAliases, 2);
  }

  /** The store finds neither the tenant nor the site: they are missing, or lookups fail. */
  predicate FindsNeither(st: Store, u: User, s: Site) {
    !HasUser(st, u.name) && !HasSite(st, s.domain)
  }

  lemma SmallPlan(st: Store, u: User, s: Site)
    requires FindsNeither(st, u, s)
    ensures var im, e, o := Importer([], false, false), Export(1, [u], [s], [], []), Order([u], [], [s]);
            InOrder(im, e, o) && PlanOf(im, st, e, o).steps == [UserStep(u)] + SiteSteps(s, [])
  {
    hide UserStep;
    hide SiteSteps;
    var im := Importer([], false, false);
    assert [u][..0] == [] && [s][..0] == [];
    assert PlanUsers(im, st, [u]).steps == [] + [UserStep(u)];
    assert PlanSites(im, st, [], [s]).steps == [] + SiteSteps(s, []);
    assert PlanKeys(im, st, [s], []) == NOTHING;
  }

  /** A tenant and its site are added, and the site's first alias is refused: the undos succeed, and the
      site, the tenant and every other site of the tenant are gone. */
  lemma AliasFails(w: World, st: Store, u: User, s: Site, f: Flags)
    requires FindsNeither(st, u, s) && |s.aliases| > 0 && !f.dryRun
    ensures var im, e, o := Importer([], false, false), Export(1, [u], [s], [], []), Order([u], [], [s]);
            var steps := PlanOf(im, st, e, o).steps;
            InOrder(im, e, o) && Completed([], steps, f, NoAliases) == 2
            && FailsRemovably(w, [], steps, Regions(steps, OwnedIn(w)), f, Serve, NoAliases)
            && UndosSucceed([] + Attempts([], steps, f, NoAliases), steps[..2], NoAliases)
            && After(w, Execution([], steps, f, NoAliases), Serve) == Purged(w - {SiteResource(s.domain)}, u.name)
  {
    var im, e, o := Importer([], false, false), Export(1, [u], [s], [], []), Order([u], [], [s]);
    var steps := PlanOf(im, st, e, o).steps;
    hide PlanOf;
    hide InOrder;
    SmallPlan(st, u, s);
    RunFails(w, u, s, f, steps);
  }

  lemma RunFails(w: World, u: User, s: Site, f: Flags, steps: seq<Step>)
    requires steps == [UserStep(u)] + SiteSteps(s, []) && |s.aliases| > 0 && !f.dryRun
    ensures Completed([], steps, f, NoAliases) == 2 < |steps|
    ensures FailsRemovably(w, [], steps, Regions(steps, OwnedIn(w)), f, Serve, NoAliases)
    ensures UndosSucceed([] + Attempts([], steps, f, NoAliases), steps[..2], NoAliases)
    ensures After(w, Execution([], steps, f, NoAliases), Serve) == Purged(w - {SiteResource(s.domain)}, u.name)
  {
    hide SiteSteps;
    hide UserStep;
    hide Creation;
    hide Completed;
    hide Attempts;
    hide Execution;
    hide Keeps;
    hide Removes;
    hide TakenBack;
    hide Serve;
    hide ReachOf;
    hide Reach;
    hide OwnedIn;
    OnlyAliasFails(u, s, f, steps);
    var log := [] + Attempts([], steps, f, NoAliases);
    var regions := Regions(steps, OwnedIn(w))[..2];
    forall i: nat | i < 2
      ensures Keeps(w, log, steps[..2], regions, f, Serve, NoAliases, i) && TakenBack(log, steps[..2], NoAliases, i)
      ensures steps[..2][i].undo.Some?
      ensures Removes(Serve, Backward(steps[..2][i]), Later(w, log, steps[..2], f, Serve, NoAliases, i), regions[i])
    {
      CreationReach(w, u, s, steps, i);
      StepIsRemovable(w, log, u, s, f, regions, i);
      EachTakenBack(u, s, log, i);
    }
    FailedRun(w, [], steps, f, Serve, NoAliases);
    WayThere(w, u, s, f, 2);
    WayBack(There(w, u, s, 2), log, u, s, 0);
    PurgeTakes(w, u, s);
  }

  /** On a server where the tenant and its sites were missing, nothing is left behind. */
  lemma NothingIsLeft(w: World, st: Store, u: User, s: Site, f: Flags)
    requires FindsNeither(st, u, s) && |s.aliases| > 0 && !f.dryRun && Bare(w, u, s)
    ensures var steps := PlanOf(Importer([], false, false), st, Export(1, [u], [s], [], []), Order([u], [], [s])).steps;
            After(w, Execution([], steps, f, NoAliases), Serve) == w
  {
    AliasFails(w, st, u, s, f);
    hide PlanOf;
    hide Execution;
    PurgeIsConfined(w, u, s);
  }

  /** Where lookups fail, a tenant that is there is planned, found and deleted, with every site it owns. */
  lemma BlindImportDeletes(w: World, st: Store, u: User, s: Site, f: Flags)
    requires !st.answers && |s.aliases| > 0 && !f.dryRun && TenantResource(u.name) in w
    ensures var steps := PlanOf(Importer([], false, false), st, Export(1, [u], [s], [], []), Order([u], [], [s])).steps;
            var end := After(w, Execution([], steps, f, NoAliases), Serve);
            TenantResource(u.name) !in end && SiteResource(s.domain) !in end
            && forall r :: r in w && IsSite(r) && w[r] == u.name ==> r !in end
  {
    AliasFails(w, st, u, s, f);
    hide PlanOf;
    hide Execution;
  }
}
