/** What an import plans, exactly: everything that is wanted and missing, and so nothing the second
    time but the keys that cannot be recognised. */
module ImportLaws {
  import opened Compose
  import opened Sorting
  import opened ImportPlan

  // ----- what a plan contains -----------------------------------------------------------------------

  predicate UserPlanned(im: Importer, st: Store, u: User) {
    Wanted(im, u.name) && !HasUser(st, u.name)
  }

  predicate KeyPlanned(im: Importer, st: Store, sites: seq<Site>, k: Key) {
    !k.revoked && k.blob != "" && KeyInScope(im, sites, k) && !HasKey(st, k.fingerprint)
  }

  predicate SitePlanned(im: Importer, st: Store, s: Site) {
    Wanted(im, s.owner) && !HasSite(st, s.domain)
  }

  /** A step restores a tenant exactly when one of the tenants is wanted and missing. */
  lemma {:induction false} UsersPlanned(im: Importer, st: Store, us: seq<User>, step: Step)
    ensures step in PlanUsers(im, st, us).steps <==>
            exists u :: u in us && UserPlanned(im, st, u) && step == UserStep(u)
  {
    if us != [] {
      UsersPlanned(im, st, us[..|us| - 1], step);
      hide UserStep;
      forall u ensures u in us <==> u in us[..|us| - 1] || u == us[|us| - 1] {
      }
    }
  }

  /** A step restores a key exactly when one of the keys is live, in scope and not installed. */
  lemma {:induction false} KeysPlanned(im: Importer, st: Store, sites: seq<Site>, ks: seq<Key>, step: Step)
    ensures step in PlanKeys(im, st, sites, ks).steps <==>
            exists k :: k in ks && KeyPlanned(im, st, sites, k) && step == KeyStep(k)
  {
    if ks != [] {
      KeysPlanned(im, st, sites, ks[..|ks| - 1], step);
      hide KeyStep;
      hide KeyInScope;
      forall k ensures k in ks <==> k in ks[..|ks| - 1] || k == ks[|ks| - 1] {
      }
    }
  }

  /** A step rebuilds a site, or part of one, exactly when the site is wanted and missing. */
  lemma {:induction false} SitesPlanned(im: Importer, st: Store, units: seq<Unit>, ss: seq<Site>, step: Step)
    ensures step in PlanSites(im, st, units, ss).steps <==>
            exists s :: s in ss && SitePlanned(im, st, s) && step in SiteSteps(s, units)
  {
    hide SiteSteps;
    hide Wanted;
    hide HasSite;
    if ss != [] {
      SitesPlanned(im, st, units, ss[..|ss| - 1], step);
      forall s ensures s in ss <==> s in ss[..|ss| - 1] || s == ss[|ss| - 1] {
      }
    }
  }

  /** The steps of a plan, whatever order the records were taken in: one for each wanted tenant that is
      missing, one for each live key in scope that is not installed, and all of those of each wanted
      site that is missing. Nothing that is already here, revoked or not asked for is planned. */
  predicate Restores(im: Importer, st: Store, e: Export, step: Step) {
    (exists u :: u in e.users && UserPlanned(im, st, u) && step == UserStep(u))
    || (!im.skipKeys && exists k :: k in e.keys && KeyPlanned(im, st, e.sites, k) && step == KeyStep(k))
    || (!im.skipSites && exists s :: s in e.sites && SitePlanned(im, st, s) && step in SiteSteps(s, e.units))
  }

  lemma PlanRestores(im: Importer, st: Store, e: Export, o: Order, step: Step)
    requires InOrder(im, e, o)
    ensures step in PlanOf(im, st, e, o).steps <==> Restores(im, st, e, step)
  {
    UsersPlanned(im, st, o.users, step);
    SameElements(o.users, e.users, UserName);
    if !im.skipKeys {
      KeysPlanned(im, st, e.sites, o.keys, step);
      SameElements(o.keys, e.keys, KeyName);
    }
    if !im.skipSites {
      SitesPlanned(im, st, e.units, o.sites, step);
      SameElements(o.sites, e.sites, SiteDomain);
    }
    hide UserStep;
    hide KeyStep;
    hide SiteSteps;
    hide PlanUsers;
    hide PlanKeys;
    hide PlanSites;
    hide UserPlanned;
    hide KeyPlanned;
    hide SitePlanned;
    hide SortOf;
  }

  // ----- running it twice -----------------------------------------------------------------------------

  /** What a successful command records in the store. `fp` is the fingerprint of an authorized line. */
  function Recorded(st: Store, argv: seq<string>, fp: string -> string): Store {
    if |argv| >= 5 && argv[0] == "site" && argv[1] == "alias" && argv[2] == "add" then
      st.(aliases := st.aliases + {argv[4]})
    else if |argv| < 3 || argv[1] != "add" then st
    else if argv[0] == "user" then st.(users := st.users + {argv[2]})
    else if argv[0] == "site" then st.(sites := st.sites + {argv[2]})
    else if argv[0] == "key" && |argv| >= 6 then st.(fingerprints := st.fingerprints + {fp(argv[5])})
    else st
  }

  function AfterCalls(st: Store, calls: seq<Call>, fp: string -> string): Store {
    if calls == [] then st
    else
      var before, c := AfterCalls(st, calls[..|calls| - 1], fp), calls[|calls| - 1];
      if c.ok then Recorded(before, c.argv, fp) else before
  }

  predicate Includes(more: Store, less: Store) {
    more.answers == less.answers && less.users <= more.users && less.sites <= more.sites
    && less.aliases <= more.aliases && less.fingerprints <= more.fingerprints
  }

  /** The server, with nothing on it. */
  function Bare(st: Store): Store {
    st.(users := {}, sites := {}, aliases := {}, fingerprints := {})
  }

  /** Recording is never forgotten. */
  lemma {:induction false} CallsRecord(st: Store, calls: seq<Call>, fp: string -> string, i: nat)
    requires i < |calls| && calls[i].ok
    ensures Includes(AfterCalls(st, calls, fp), st)
    ensures Includes(AfterCalls(st, calls, fp), Recorded(Bare(st), calls[i].argv, fp))
    decreases |calls|
  {
    var front := calls[..|calls| - 1];
    if i < |front| {
      assert front[i] == calls[i];
      CallsRecord(st, front, fp, i);
    } else {
      CallsInclude(st, front, fp);
    }
  }

  lemma {:induction false} CallsInclude(st: Store, calls: seq<Call>, fp: string -> string)
    ensures Includes(AfterCalls(st, calls, fp), st)
  {
    if calls != [] {
      CallsInclude(st, calls[..|calls| - 1], fp);
    }
  }

  lemma AddIsRecorded(st: Store, argv: seq<string>, fp: string -> string)
    requires |argv| >= 3 && argv[1] == "add"
    ensures argv[0] == "user" ==> argv[2] in Recorded(st, argv, fp).users
    ensures argv[0] == "site" ==> argv[2] in Recorded(st, argv, fp).sites
    ensures argv[0] == "key" && |argv| >= 6 ==> fp(argv[5]) in Recorded(st, argv, fp).fingerprints
  {
  }

  lemma UserArgvStarts(u: User, f: Flags)
    ensures var argv := Forward(UserStep(u), f);
            |argv| >= 3 && argv[0] == "user" && argv[1] == "add" && argv[2] == u.name
  {
  }

  lemma UserRecorded(st: Store, steps: seq<Step>, f: Flags, fp: string -> string, u: User)
    requires UserStep(u) in steps
    ensures u.name in AfterCalls(st, Successes(steps, f), fp).users
  {
    hide UserStep;
    hide AfterCalls;
    hide Recorded;
    hide Forward;
    var i :| 0 <= i < |steps| && steps[i] == UserStep(u);
    CallsRecord(st, Successes(steps, f), fp, i);
    UserArgvStarts(u, f);
    AddIsRecorded(Bare(st), Forward(UserStep(u), f), fp);
  }

  lemma SiteArgvStarts(s: Site, f: Flags)
    ensures var argv := Forward(SiteStep(s), f);
            |argv| >= 3 && argv[0] == "site" && argv[1] == "add" && argv[2] == s.domain
  {
  }

  lemma SiteRecorded(st: Store, steps: seq<Step>, f: Flags, fp: string -> string, s: Site)
    requires SiteStep(s) in steps
    ensures s.domain in AfterCalls(st, Successes(steps, f), fp).sites
  {
    hide SiteStep;
    hide AfterCalls;
    hide Recorded;
    hide Forward;
    var i :| 0 <= i < |steps| && steps[i] == SiteStep(s);
    CallsRecord(st, Successes(steps, f), fp, i);
    SiteArgvStarts(s, f);
    AddIsRecorded(Bare(st), Forward(SiteStep(s), f), fp);
  }

  lemma KeyArgvStarts(k: Key, f: Flags)
    ensures var argv := Forward(KeyStep(k), f);
            |argv| >= 6 && argv[0] == "key" && argv[1] == "add" && argv[5] == AuthorizedLine(k)
  {
  }

  lemma KeyRecorded(st: Store, steps: seq<Step>, f: Flags, fp: string -> string, k: Key)
    requires KeyStep(k) in steps
    ensures fp(AuthorizedLine(k)) in AfterCalls(st, Successes(steps, f), fp).fingerprints
  {
    hide KeyStep;
    hide AfterCalls;
    hide Recorded;
    hide Forward;
    var i :| 0 <= i < |steps| && steps[i] == KeyStep(k);
    CallsRecord(st, Successes(steps, f), fp, i);
    KeyArgvStarts(k, f);
    AddIsRecorded(Bare(st), Forward(KeyStep(k), f), fp);
  }

  /** The fingerprints an export carries are those of its keys. */
  predicate Fingerprinted(e: Export, fp: string -> string) {
    forall i :: 0 <= i < |e.keys| ==>
      e.keys[i].fingerprint == "" || e.keys[i].fingerprint == fp(AuthorizedLine(e.keys[i]))
  }

  /** The store once a plan has run to its end. */
  function Imported(im: Importer, st: Store, e: Export, o: Order, f: Flags, fp: string -> string): Store {
    AfterCalls(st, Successes(PlanOf(im, st, e, o).steps, f), fp)
  }

  lemma NoUserMissing(im: Importer, st: Store, e: Export, o: Order, f: Flags, fp: string -> string, u: User)
    requires InOrder(im, e, o) && st.answers && u in e.users
    ensures !UserPlanned(im, Imported(im, st, e, o, f, fp), u)
  {
    var steps := PlanOf(im, st, e, o).steps;
    CallsInclude(st, Successes(steps, f), fp);
    hide AfterCalls;
    hide PlanOf;
    hide UserStep;
    if UserPlanned(im, st, u) {
      assert UserStep(u) in steps by {
        PlanRestores(im, st, e, o, UserStep(u));
      }
      UserRecorded(st, steps, f, fp, u);
    }
  }

  lemma NoSiteMissing(im: Importer, st: Store, e: Export, o: Order, f: Flags, fp: string -> string, s: Site)
    requires InOrder(im, e, o) && st.answers && !im.skipSites && s in e.sites
    ensures !SitePlanned(im, Imported(im, st, e, o, f, fp), s)
  {
    var steps := PlanOf(im, st, e, o).steps;
    CallsInclude(st, Successes(steps, f), fp);
    hide AfterCalls;
    hide PlanOf;
    hide SiteStep;
    if SitePlanned(im, st, s) {
      assert SiteStep(s) in steps by {
        assert SiteSteps(s, e.units)[0] == SiteStep(s);
        PlanRestores(im, st, e, o, SiteStep(s));
      }
      SiteRecorded(st, steps, f, fp, s);
    }
  }

  /** A key is planned again exactly when it was planned before and carries no fingerprint. */
  lemma OnlyNamelessKeysMissing(im: Importer, st: Store, e: Export, o: Order, f: Flags, fp: string -> string, k: Key)
    requires InOrder(im, e, o) && st.answers && !im.skipKeys && k in e.keys && Fingerprinted(e, fp)
    ensures KeyPlanned(im, Imported(im, st, e, o, f, fp), e.sites, k) <==>
            KeyPlanned(im, st, e.sites, k) && k.fingerprint == ""
  {
    var steps := PlanOf(im, st, e, o).steps;
    CallsInclude(st, Successes(steps, f), fp);
    hide AfterCalls;
    hide PlanOf;
    hide KeyStep;
    hide KeyInScope;
    if KeyPlanned(im, st, e.sites, k) && k.fingerprint != "" {
      assert KeyStep(k) in steps by {
        PlanRestores(im, st, e, o, KeyStep(k));
      }
      KeyRecorded(st, steps, f, fp, k);
    }
  }

  predicate PlannedWithoutFingerprint(im: Importer, st: Store, e: Export, k: Key) {
    k in e.keys && KeyPlanned(im, st, e.sites, k) && k.fingerprint == ""
  }

  /** Whatever a second import restores is a key without a fingerprint. */
  lemma RestoresAgain(im: Importer, st: Store, e: Export, o: Order, f: Flags, fp: string -> string, step: Step)
    requires InOrder(im, e, o) && st.answers && Fingerprinted(e, fp)
    ensures Restores(im, Imported(im, st, e, o, f, fp), e, step) <==>
            !im.skipKeys && exists k :: PlannedWithoutFingerprint(im, st, e, k) && step == KeyStep(k)
  {
    var st' := Imported(im, st, e, o, f, fp);
    forall u | u in e.users ensures !UserPlanned(im, st', u) {
      NoUserMissing(im, st, e, o, f, fp, u);
    }
    if !im.skipSites {
      forall s | s in e.sites ensures !SitePlanned(im, st', s) {
        NoSiteMissing(im, st, e, o, f, fp, s);
      }
    }
    if !im.skipKeys {
      forall k | k in e.keys
        ensures KeyPlanned(im, st', e.sites, k) <==> KeyPlanned(im, st, e.sites, k) && k.fingerprint == ""
      {
        OnlyNamelessKeysMissing(im, st, e, o, f, fp, k);
      }
    }
    hide Imported;
    hide UserPlanned;
    hide KeyPlanned;
    hide SitePlanned;
    hide UserStep;
    hide KeyStep;
    hide SiteSteps;
  }

  /** Once a plan has run to its end, planning the same export again, in any order, finds nothing to
      do: exactly when every key it restored carries a fingerprint. */
  lemma ImportTwice(im: Importer, st: Store, e: Export, o: Order, o': Order, f: Flags, fp: string -> string)
    requires InOrder(im, e, o) && InOrder(im, e, o') && st.answers && Fingerprinted(e, fp)
    ensures PlanOf(im, Imported(im, st, e, o, f, fp), e, o').steps == [] <==>
            im.skipKeys || forall k :: !PlannedWithoutFingerprint(im, st, e, k)
  {
    var st' := Imported(im, st, e, o, f, fp);
    var again := PlanOf(im, st', e, o').steps;
    hide PlanOf;
    hide Imported;
    hide InOrder;
    hide Restores;
    hide PlannedWithoutFingerprint;
    hide Fingerprinted;
    if again != [] {
      RestoresAgain(im, st, e, o, f, fp, again[0]);
      PlanRestores(im, st', e, o', again[0]);
    }
    if k :| PlannedWithoutFingerprint(im, st, e, k) {
      RestoresAgain(im, st, e, o, f, fp, KeyStep(k));
      PlanRestores(im, st', e, o', KeyStep(k));
    }
  }
}
