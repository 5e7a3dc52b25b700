/** The likeliest failure of `ratline new` (internal/cli/cmd_new.go), with commands that do what ratline's
    do: the certificate is refused, and tenant, site and database are deleted - those the run created,
    and those a repeated run found there and left alone. */
module NewFailure {
  import opened Compose
  import opened Conservation
  import opened NewStack
  import opened NewLaws

  predicate NoCertificates(log: seq<Call>, argv: seq<string>) {
    argv == [] || argv[0] != "cert"
  }

  /** The parts of a stack, in the order they are created. */
  datatype Part = Tenant | Site | Database

  /** Adding what is there succeeds and changes nothing. Attaching a new database writes to the site. */
  function Made(w: World, p: Part): World {
    match p
    case Tenant => if TENANT in w then w else w[TENANT := "there"]
    case Site => if SITE in w then w else w[SITE := "there"]
    case Database => if DATABASE in w then w else w[DATABASE := "there"][SITE := "attached"]
  }

  /** Deleting the tenant takes its site along; dropping the database leaves the site as it is. */
  function Unmade(w: World, p: Part): World {
    match p
    case Tenant => w - {TENANT, SITE}
    case Site => w - {SITE}
    case Database => w - {DATABASE}
  }

  function Provision(w: World, argv: seq<string>): World {
    if |argv| < 2 then w
    else match (argv[0], argv[1])
      case ("user", "add") => Made(w, Tenant)
      case ("user", "delete") => Unmade(w, Tenant)
      case ("site", "add") => Made(w, Site)
      case ("site", "delete") => Unmade(w, Site)
      case ("db", "create") => Made(w, Database)
      case ("db", "drop") => Unmade(w, Database)
      case _ => w
  }

  /** A stack with everything, whose plan gives no key to a tenant that is there. */
  predicate IsWhole(s: Stack, l: Lookups) {
    s.withDb && s.tls && !GivesKey(s, l)
  }

  function Parts(l: Lookups): seq<Part> {
    if l.tenantFound then [Site, Database] else [Tenant, Site, Database]
  }

  function StepOf(s: Stack, p: Part): Step {
    match p
    case Tenant => AddTenant(s)
    case Site => AddSite(s)
    case Database => AddDatabase(s)
  }

  function RegionOf(p: Part): Region {
    match p
    case Tenant => Region({TENANT}, {TENANT})
    case Site => Region({SITE}, {SITE})
    case Database => Region({DATABASE, SITE}, {DATABASE})
  }

  /** The steps before the certificate. */
  function Creation(s: Stack, l: Lookups): (steps: seq<Step>)
    ensures |steps| == |Parts(l)|
  {
    seq(|Parts(l)|, i requires 0 <= i < |Parts(l)| => StepOf(s, Parts(l)[i]))
  }

  function CreationRegions(l: Lookups): (regions: seq<Region>)
    ensures |regions| == |Parts(l)|
  {
    seq(|Parts(l)|, i requires 0 <= i < |Parts(l)| => RegionOf(Parts(l)[i]))
  }

  lemma StepDoes(u: World, s: Stack, p: Part, f: Flags)
    ensures Provision(u, Forward(StepOf(s, p), f)) == Made(u, p)
    ensures StepOf(s, p).undo.Some? && Provision(u, Backward(StepOf(s, p))) == Unmade(u, p)
    ensures Forward(StepOf(s, p), f) != [] && Forward(StepOf(s, p), f)[0] != "cert"
    ensures Backward(StepOf(s, p))[0] != "cert"
  {
    hide Made;
    hide Unmade;
  }

  // ----- the run ------------------------------------------------------------------------------------

  lemma PlanIsCreation(s: Stack, l: Lookups)
    requires IsWhole(s, l)
    ensures StepsOf(s, l) == Creation(s, l) + [AddCertificate(s)]
    ensures |Touches(s, l, {})| == |Parts(l)| + 1 && Touches(s, l, {})[..|Parts(l)|] == CreationRegions(l)
  {
    hide AddTenant;
    hide AddSite;
    hide AddDatabase;
    hide AddCertificate;
    assert {TENANT} + {} == {TENANT};
  }

  lemma {:induction false} AllBeforeComplete(s: Stack, l: Lookups, steps: seq<Step>, f: Flags, i: nat)
    requires steps == Creation(s, l) + [AddCertificate(s)] && i <= |Parts(l)|
    ensures Completed([], steps, f, NoCertificates) >= i
  {
    hide Completed;
    if i > 0 {
      AllBeforeComplete(s, l, steps, f, i - 1);
      StepDoes(map[], s, Parts(l)[i - 1], f);
      CompletedIs([], steps, f, NoCertificates, i - 1);
    }
  }

  lemma OnlyCertificateFails(s: Stack, l: Lookups, steps: seq<Step>, f: Flags)
    requires steps == Creation(s, l) + [AddCertificate(s)]
    ensures Completed([], steps, f, NoCertificates) == |Parts(l)|
  {
    hide Completed;
    AllBeforeComplete(s, l, steps, f, |Parts(l)|);
    assert Forward(AddCertificate(s), f)[0] == "cert";
    CompletedIs([], steps, f, NoCertificates, |Parts(l)|);
  }

  /** The worlds such a run passes through, forwards... */
  function There(w: World, l: Lookups, i: nat): World
    requires i <= |Parts(l)|
  {
    if i == 0 then w else Made(There(w, l, i - 1), Parts(l)[i - 1])
  }

  /** ...and back. */
  function Back(end: World, l: Lookups, i: nat): World
    requires i <= |Parts(l)|
    decreases |Parts(l)| - i
  {
    if i == |Parts(l)| then end else Unmade(Back(end, l, i + 1), Parts(l)[i])
  }

  lemma {:induction false} WayThere(w: World, s: Stack, l: Lookups, f: Flags, i: nat)
    requires i <= |Parts(l)|
    ensures Before(w, Creation(s, l), f, Provision, i) == There(w, l, i)
  {
    hide Provision;
    hide Before;
    hide StepOf;
    hide Made;
    if i == 0 {
      NothingDone(w, Creation(s, l), f, Provision);
    } else {
      WayThere(w, s, l, f, i - 1);
      BeforeNext(w, Creation(s, l), f, Provision, i - 1);
      StepDoes(There(w, l, i - 1), s, Parts(l)[i - 1], f);
    }
  }

  lemma EachTakenBack(s: Stack, l: Lookups, log: seq<Call>, i: nat)
    requires i < |Parts(l)|
    ensures TakenBack(log, Creation(s, l), NoCertificates, i)
  {
    hide Unwinding;
    hide StepOf;
    StepDoes(map[], s, Parts(l)[i], Flags(false, false, false, false));
  }

  lemma {:induction false} WayBack(end: World, log: seq<Call>, s: Stack, l: Lookups, i: nat)
    requires i <= |Parts(l)|
    ensures Unwound(end, log, Creation(s, l), Provision, NoCertificates, i) == Back(end, l, i)
    decreases |Parts(l)| - i
  {
    hide Provision;
    hide TakenBack;
    hide Unwound;
    hide StepOf;
    hide Unmade;
    if i == |Parts(l)| {
      NothingUnwound(end, log, Creation(s, l), Provision, NoCertificates);
    } else {
      WayBack(end, log, s, l, i + 1);
      EachTakenBack(s, l, log, i);
      UnwoundNext(end, log, Creation(s, l), Provision, NoCertificates, i);
      StepDoes(Back(end, l, i + 1), s, Parts(l)[i], Flags(false, false, false, false));
    }
  }

  /** Where each command runs, it keeps to its region, and its undo deletes its part. */
  lemma StepsFit(w: World, l: Lookups, i: nat)
    requires i < |Parts(l)|
    ensures var p, region := Parts(l)[i], RegionOf(Parts(l)[i]);
            var later := Back(There(w, l, |Parts(l)|), l, i + 1);
            (forall r :: r !in region.touched ==> At(Made(There(w, l, i), p), r) == At(There(w, l, i), r))
            && (forall r :: r !in region.touched ==> At(Unmade(later, p), r) == At(later, r))
            && forall r :: r in region.undone ==> r !in Unmade(later, p)
  {
    if Parts(l)[i] == Tenant {
      assert SITE !in Back(There(w, l, 3), l, 1);
    }
  }

  lemma MadeAndUnmade(w: World)
    ensures Unmade(Unmade(Made(Made(w, Site), Database), Database), Site) == w - {SITE, DATABASE}
    ensures Unmade(w - {SITE, DATABASE}, Tenant) == w - {SITE, DATABASE} - {TENANT}
    ensures Made(w, Tenant) - {SITE, DATABASE} - {TENANT} == w - {SITE, DATABASE} - {TENANT}
  {
  }

  /** What is left at the end: nothing of the parts of the plan, and everything else. */
  lemma WhatIsLeft(w: World, l: Lookups)
    ensures Back(There(w, l, |Parts(l)|), l, 0) == w - {SITE, DATABASE} - if l.tenantFound then {} else {TENANT}
  {
    hide Made;
    hide Unmade;
    MadeAndUnmade(w);
    MadeAndUnmade(Made(w, Tenant));
    if l.tenantFound {
      var end := There(w, l, 2);
      assert There(w, l, 1) == Made(There(w, l, 0), Site) && end == Made(There(w, l, 1), Database);
      assert Back(end, l, 1) == Unmade(end, Database) && Back(end, l, 0) == Unmade(Back(end, l, 1), Site);
    } else {
      var end := There(w, l, 3);
      assert There(w, l, 1) == Made(There(w, l, 0), Tenant) && There(w, l, 2) == Made(There(w, l, 1), Site);
      assert end == Made(There(w, l, 2), Database);
      assert Back(end, l, 2) == Unmade(end, Database) && Back(end, l, 1) == Unmade(Back(end, l, 2), Site);
      assert Back(end, l, 0) == Unmade(Back(end, l, 1), Tenant);
    }
  }

  lemma StepKeeps(w: World, log: seq<Call>, s: Stack, l: Lookups, f: Flags, i: nat)
    requires i < |Parts(l)|
    ensures Keeps(w, log, Creation(s, l), CreationRegions(l), f, Provision, NoCertificates, i)
    ensures Creation(s, l)[i].undo.Some?
    ensures Removes(Provision, Backward(Creation(s, l)[i]),
                    Later(w, log, Creation(s, l), f, Provision, NoCertificates, i), CreationRegions(l)[i])
  {
    hide Provision;
    hide TakenBack;
    hide Unwound;
    hide Before;
    hide StepOf;
    hide There;
    hide Back;
    hide Made;
    hide Unmade;
    hide RegionOf;
    var n := |Parts(l)|;
    WayThere(w, s, l, f, i);
    WayThere(w, s, l, f, n);
    WayBack(There(w, l, n), log, s, l, i + 1);
    StepDoes(There(w, l, i), s, Parts(l)[i], f);
    StepDoes(Back(There(w, l, n), l, i + 1), s, Parts(l)[i], f);
    StepsFit(w, l, i);
  }

  /** The certificate is refused. Tenant, site and database are gone at the end, and nothing else: on a
      bare server nothing is left behind; a stack that was there, and given again, is lost. */
  lemma CertificateFails(w: World, s: Stack, l: Lookups, f: Flags)
    requires IsWhole(s, l) && !f.dryRun
    ensures FailsRemovably(w, [], StepsOf(s, l), Touches(s, l, {}), f, Provision, NoCertificates)
    ensures Completed([], StepsOf(s, l), f, NoCertificates) == |Parts(l)|
    ensures After(w, Execution([], StepsOf(s, l), f, NoCertificates), Provision) ==
            w - {SITE, DATABASE} - if l.tenantFound then {} else {TENANT}
  {
    hide StepsOf;
    hide Touches;
    hide Completed;
    hide Attempts;
    hide Creation;
    hide CreationRegions;
    hide Parts;
    hide Keeps;
    hide Removes;
    hide Execution;
    hide TakenBack;
    hide IsWhole;
    var steps, n := StepsOf(s, l), |Parts(l)|;
    PlanIsCreation(s, l);
    OnlyCertificateFails(s, l, steps, f);
    var log := [] + Attempts([], steps, f, NoCertificates);
    assert steps[..n] == Creation(s, l);
    forall i: nat | i < n
      ensures Keeps(w, log, Creation(s, l), CreationRegions(l), f, Provision, NoCertificates, i)
      ensures Creation(s, l)[i].undo.Some?
      ensures Removes(Provision, Backward(Creation(s, l)[i]),
                      Later(w, log, Creation(s, l), f, Provision, NoCertificates, i), CreationRegions(l)[i])
    {
      StepKeeps(w, log, s, l, f, i);
    }
    FailedRun(w, [], steps, f, Provision, NoCertificates);
    WayThere(w, s, l, f, n);
    WayBack(There(w, l, n), log, s, l, 0);
    WhatIsLeft(w, l);
  }

  /** A running stack is given again: the tenant is found, site and database are there and left alone, the
      certificate is refused - and the site and the database are deleted. */
  lemma RepeatedNewDeletes(w: World, s: Stack, l: Lookups, f: Flags)
    requires IsWhole(s, l) && !f.dryRun && l.tenantFound && SITE in w && DATABASE in w
    ensures var end := After(w, Execution([], StepsOf(s, l), f, NoCertificates), Provision);
            end == w - {SITE, DATABASE} != w
  {
    hide Execution;
    hide StepsOf;
    CertificateFails(w, s, l, f);
  }
}
