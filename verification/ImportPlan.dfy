/** `ratline import` (internal/cli/cmd_import.go): what is planned to rebuild a server from an export,
    what is skipped, and in which order. */
module ImportPlan {
  import opened Text
  import opened Compose
  import opened Sorting
  import opened NewStack
  import opened SiteSettings

  // ----- the export -------------------------------------------------------------------------------

  datatype User = User(name: string, shell: string, comment: string, quota: string, memoryMax: string,
                       sftpOnly: bool, passwordLogin: bool, disabled: bool)

  /** What a key is limited to: until when, from which addresses, by which preset, and how. */
  datatype Limits = Limits(expires: string, from: seq<string>, preset: string, sftpOnly: bool, allowShell: bool)

  const UNLIMITED := Limits("", [], "", false, false)

  /** `name` is the key's label. */
  datatype Key = Key(name: string, fingerprint: string, algorithm: string, blob: string, comment: string,
                     scope: string, owner: string, site: string, limits: Limits, revoked: bool)

  datatype Site = Site(domain: string, owner: string, runtime: string, settings: Settings, relaxed: seq<string>,
                       aliases: seq<string>, preDeploy: string, postDeploy: string, enabled: bool)

  datatype Unit = Unit(domain: string, name: string, job: bool, command: string, schedule: string,
                       description: string, memoryMax: string, timeout: string, persistent: bool,
                       instances: nat, enabled: bool)

  datatype Export = Export(schema: int, users: seq<User>, sites: seq<Site>, keys: seq<Key>, units: seq<Unit>)

  datatype Importer = Importer(only: seq<string>, skipKeys: bool, skipSites: bool)

  /** What this server has. A lookup that fails says nothing is there. */
  datatype Store = Store(opens: bool, answers: bool, schema: Option<int>, users: set<string>,
                         sites: set<string>, aliases: set<string>, fingerprints: set<string>)

  datatype ImportError = NewerSchema(theirs: int, here: int) | StoreUnavailable

  // ----- one step of each kind ----------------------------------------------------------------------

  function UserArgv(u: User): seq<string> {
    var argv := ["user", "add", u.name];
    var argv := AppendIf(argv, "--shell", u.shell);
    var argv := AppendIf(argv, "--comment", u.comment);
    var argv := AppendIf(argv, "--quota", u.quota);
    var argv := AppendIf(argv, "--memory-max", u.memoryMax);
    if u.sftpOnly then argv + ["--sftp-only"] else argv
  }

  function UserStep(u: User): Step {
    Step("recreating the tenant " + u.name, UserArgv(u), Some(["user", "delete", u.name, "--purge"]), "")
  }

  function AuthorizedLine(k: Key): string {
    if k.comment == "" then k.algorithm + " " + k.blob else k.algorithm + " " + k.blob + " " + k.comment
  }

  function KeyStep(k: Key): Step {
    var argv := ["key", "add", "--scope", k.scope, "--key", AuthorizedLine(k)];
    var argv := AppendIf(argv, "--user", k.owner);
    var argv := AppendIf(argv, "--site", k.site);
    var argv := AppendIf(argv, "--label", k.name);
    Step("restoring the key " + k.name, argv, None, "")
  }

  function SettingsArgv(s: Site): seq<string> {
    Spoken(s.settings, Passed(s.runtime)) + Relaxations(s.relaxed)
  }

  function SiteStep(s: Site): Step {
    Step("recreating the site " + s.domain,
         ["site", "add", s.domain, "--user", s.owner, "--runtime", s.runtime, "--ssl", "none"] + SettingsArgv(s),
         Some(["site", "delete", s.domain, "--purge"]), "")
  }

  function AliasStep(s: Site, a: string): Step {
    Step("restoring the alias " + a, ["site", "alias", "add", s.domain, a], None, "")
  }

  function HookStep(s: Site): Step {
    var argv := AppendIf(["site", "hook", "set", s.domain], "--before", s.preDeploy);
    Step("restoring the deploy hooks on " + s.domain, AppendIf(argv, "--after", s.postDeploy), None, "")
  }

  function UnitNoun(u: Unit): string {
    if u.job then "cron" else "worker"
  }

  function UnitArgv(u: Unit): seq<string> {
    var argv := ["site", UnitNoun(u), "add", u.domain, u.name, "--command", u.command];
    var argv := AppendIf(argv, "--schedule", u.schedule);
    var argv := AppendIf(argv, "--description", u.description);
    var argv := AppendIf(argv, "--memory-max", u.memoryMax);
    var argv := if u.job then AppendIf(argv, "--timeout", u.timeout) else argv;
    var argv := if u.job && u.persistent then argv + ["--persistent"] else argv;
    if u.enabled then argv else argv + ["--disabled"]
  }

  function UnitStep(u: Unit): Step {
    Step("restoring the " + (if u.job then "job" else "worker") + " " + u.name, UnitArgv(u), None, "")
  }

  function DisableStep(s: Site): Step {
    Step("leaving " + s.domain + " disabled, as it was", ["site", "disable", s.domain], None, "")
  }

  // ----- what is planned ------------------------------------------------------------------------------

  predicate Wanted(im: Importer, owner: string) {
    im.only == [] || owner in im.only
  }

  predicate HasUser(st: Store, name: string) {
    st.answers && name in st.users
  }

  predicate HasSite(st: Store, domain: string) {
    st.answers && domain in st.sites
  }

  predicate HasKey(st: Store, fingerprint: string) {
    fingerprint != "" && st.answers && fingerprint in st.fingerprints
  }

  /** The owner of the last site of that name, or nobody. */
  function OwnerOf(sites: seq<Site>, domain: string): string {
    if sites == [] then ""
    else if sites[|sites| - 1].domain == domain then sites[|sites| - 1].owner
    else OwnerOf(sites[..|sites| - 1], domain)
  }

  predicate KeyInScope(im: Importer, sites: seq<Site>, k: Key) {
    im.only == []
    || (k.scope == "user" && Wanted(im, k.owner))
    || (k.scope == "site" && Wanted(im, OwnerOf(sites, k.site)))
  }

  function Then(p: Plan, q: Plan): Plan {
    Plan(p.steps + q.steps, p.notes + q.notes)
  }

  const NOTHING := Plan([], [])

  function PlanUser(im: Importer, st: Store, u: User): Plan {
    if !Wanted(im, u.name) then NOTHING
    else if HasUser(st, u.name) then Plan([], ["tenant " + u.name + " already exists, leaving it alone"])
    else Plan([UserStep(u)], [])
  }

  function PlanKey(im: Importer, st: Store, sites: seq<Site>, k: Key): Plan {
    if k.revoked then Plan([], ["not restoring the revoked key " + k.name + " - it was revoked on purpose"])
    else if k.blob == "" || !KeyInScope(im, sites, k) then NOTHING
    else if HasKey(st, k.fingerprint) then
      Plan([], ["key " + k.name + " is already installed, leaving it alone"])
    else Plan([KeyStep(k)], [])
  }

  function AliasSteps(s: Site, aliases: seq<string>): seq<Step> {
    seq(|aliases|, i requires 0 <= i < |aliases| => AliasStep(s, aliases[i]))
  }

  function UnitSteps(units: seq<Unit>, domain: string): seq<Step> {
    if units == [] then []
    else
      var u := units[|units| - 1];
      UnitSteps(units[..|units| - 1], domain) + if u.domain == domain then [UnitStep(u)] else []
  }

  function HookSteps(s: Site): seq<Step> {
    if s.preDeploy != "" || s.postDeploy != "" then [HookStep(s)] else []
  }

  function DisableSteps(s: Site): seq<Step> {
    if s.enabled then [] else [DisableStep(s)]
  }

  function SiteSteps(s: Site, units: seq<Unit>): seq<Step> {
    [SiteStep(s)] + (AliasSteps(s, s.aliases) + HookSteps(s) + UnitSteps(units, s.domain) + DisableSteps(s))
  }

  function PlanSite(im: Importer, st: Store, units: seq<Unit>, s: Site): Plan {
    if !Wanted(im, s.owner) then NOTHING
    else if HasSite(st, s.domain) then Plan([], ["site " + s.domain + " already exists, leaving it alone"])
    else Plan(SiteSteps(s, units), [])
  }

  function PlanUsers(im: Importer, st: Store, us: seq<User>): Plan {
    if us == [] then NOTHING else Then(PlanUsers(im, st, us[..|us| - 1]), PlanUser(im, st, us[|us| - 1]))
  }

  function PlanKeys(im: Importer, st: Store, sites: seq<Site>, ks: seq<Key>): Plan {
    if ks == [] then NOTHING else Then(PlanKeys(im, st, sites, ks[..|ks| - 1]), PlanKey(im, st, sites, ks[|ks| - 1]))
  }

  function PlanSites(im: Importer, st: Store, units: seq<Unit>, ss: seq<Site>): Plan {
    if ss == [] then NOTHING else Then(PlanSites(im, st, units, ss[..|ss| - 1]), PlanSite(im, st, units, ss[|ss| - 1]))
  }

  function UserName(u: User): string {
    u.name
  }

  function KeyName(k: Key): string {
    k.name
  }

  function SiteDomain(s: Site): string {
    s.domain
  }

  /** The order the export's records are taken in. */
  datatype Order = Order(users: seq<User>, keys: seq<Key>, sites: seq<Site>)

  ghost predicate InOrder(im: Importer, e: Export, o: Order) {
    SortOf(o.users, e.users, UserName)
    && (im.skipKeys || SortOf(o.keys, e.keys, KeyName))
    && (im.skipSites || SortOf(o.sites, e.sites, SiteDomain))
  }

  function PlanOf(im: Importer, st: Store, e: Export, o: Order): Plan {
    Then(Then(PlanUsers(im, st, o.users),
              if im.skipKeys then NOTHING else PlanKeys(im, st, e.sites, o.keys)),
         if im.skipSites then NOTHING else PlanSites(im, st, e.units, o.sites))
  }

  // ----- the planner as the source runs it ----------------------------------------------------------

  method IsWanted(im: Importer, owner: string) returns (wanted: bool)
    ensures wanted == Wanted(im, owner)
  {
    if |im.only| == 0 {
      return true;
    }
    for i := 0 to |im.only|
      invariant owner !in im.only[..i]
    {
      if im.only[i] == owner {
        return true;
      }
    }
    return false;
  }

  /** Planning adds to the plan; the users first. */
  method AddUsers(im: Importer, st: Store, users: seq<User>) returns (p: Plan, us: seq<User>)
    ensures SortOf(us, users, UserName) && p == PlanUsers(im, st, us)
  {
    var sorted := SortBy(users, UserName);
    us := sorted;
    p := NOTHING;
    for i := 0 to |sorted|
      invariant p == PlanUsers(im, st, sorted[..i])
    {
      assert sorted[..i + 1][..i] == sorted[..i];
      var u := sorted[i];
      var wanted := IsWanted(im, u.name);
      if !wanted {
        continue;
      }
      if HasUser(st, u.name) {
        p := Plan(p.steps, p.notes + ["tenant " + u.name + " already exists, leaving it alone"]);
        continue;
      }
      p := Plan(p.steps + [UserStep(u)], p.notes);
    }
    assert sorted[..|sorted|] == sorted;
  }

  /** Which tenant a site belongs to: the last site of a name wins. */
  method Owners(sites: seq<Site>) returns (owns: map<string, string>)
    ensures forall d :: (if d in owns then owns[d] else "") == OwnerOf(sites, d)
  {
    owns := map[];
    for i := 0 to |sites|
      invariant forall d :: (if d in owns then owns[d] else "") == OwnerOf(sites[..i], d)
    {
      assert sites[..i + 1][..i] == sites[..i];
      owns := owns[sites[i].domain := sites[i].owner];
    }
    assert sites[..|sites|] == sites;
  }

  method AddKeys(im: Importer, st: Store, sites: seq<Site>, keys: seq<Key>) returns (p: Plan, ks: seq<Key>)
    ensures SortOf(ks, keys, KeyName) && p == PlanKeys(im, st, sites, ks)
  {
    var owns := Owners(sites);
    var sorted := SortBy(keys, KeyName);
    ks := sorted;
    p := NOTHING;
    for i := 0 to |sorted|
      invariant p == PlanKeys(im, st, sites, sorted[..i])
    {
      assert sorted[..i + 1][..i] == sorted[..i];
      var q := AddKeyOf(im, st, sites, owns, sorted[i]);
      p := Plan(p.steps + q.steps, p.notes + q.notes);
    }
    assert sorted[..|sorted|] == sorted;
  }

  method AddKeyOf(im: Importer, st: Store, ghost sites: seq<Site>, owns: map<string, string>, k: Key)
    returns (p: Plan)
    requires forall d :: (if d in owns then owns[d] else "") == OwnerOf(sites, d)
    ensures p == PlanKey(im, st, sites, k)
  {
    if k.revoked {
      return Plan([], ["not restoring the revoked key " + k.name + " - it was revoked on purpose"]);
    }
    if k.blob == "" {
      return NOTHING;
    }
    if |im.only| > 0 {
      var wanted := false;
      if k.scope == "user" {
        wanted := IsWanted(im, k.owner);
      } else if k.scope == "site" {
        wanted := IsWanted(im, if k.site in owns then owns[k.site] else "");
      }
      if !wanted {
        return NOTHING;
      }
    }
    if k.fingerprint != "" {
      if st.answers && k.fingerprint in st.fingerprints {
        return Plan([], ["key " + k.name + " is already installed, leaving it alone"]);
      }
    }
    return Plan([KeyStep(k)], []);
  }

  method AddSites(im: Importer, st: Store, units: seq<Unit>, sites: seq<Site>) returns (p: Plan, ss: seq<Site>)
    ensures SortOf(ss, sites, SiteDomain) && p == PlanSites(im, st, units, ss)
  {
    var sorted := SortBy(sites, SiteDomain);
    ss := sorted;
    p := NOTHING;
    for i := 0 to |sorted|
      invariant p == PlanSites(im, st, units, sorted[..i])
    {
      assert sorted[..i + 1][..i] == sorted[..i];
      var s := sorted[i];
      var wanted := IsWanted(im, s.owner);
      if !wanted {
        continue;
      }
      if HasSite(st, s.domain) {
        p := Plan(p.steps, p.notes + ["site " + s.domain + " already exists, leaving it alone"]);
        continue;
      }
      var steps := StepsForSite(s, units);
      p := Plan(p.steps + steps, p.notes);
    }
    assert sorted[..|sorted|] == sorted;
  }

  method SiteArgvFor(s: Site) returns (argv: seq<string>)
    ensures argv == SiteStep(s).argv
  {
    argv := ["site", "add", s.domain, "--user", s.owner, "--runtime", s.runtime, "--ssl", "none"]
            + Spoken(s.settings, Passed(s.runtime));
    ghost var head := argv;
    for i := 0 to |s.relaxed|
      invariant argv == head + Relaxations(s.relaxed[..i])
    {
      assert s.relaxed[..i + 1][..i] == s.relaxed[..i];
      argv := argv + ["--relax", s.relaxed[i]];
    }
    assert s.relaxed[..|s.relaxed|] == s.relaxed;
  }

  method StepsForSite(s: Site, units: seq<Unit>) returns (steps: seq<Step>)
    ensures steps == SiteSteps(s, units)
  {
    hide SettingsArgv;
    hide UnitArgv;
    hide HookStep;
    var argv := SiteArgvFor(s);
    steps := [SiteStep(s).(argv := argv)];
    for i := 0 to |s.aliases|
      invariant steps == [SiteStep(s)] + AliasSteps(s, s.aliases[..i])
    {
      steps := steps + [AliasStep(s, s.aliases[i])];
    }
    assert s.aliases[..|s.aliases|] == s.aliases;
    if s.preDeploy != "" || s.postDeploy != "" {
      steps := steps + [HookStep(s)];
    }
    ghost var head := AliasSteps(s, s.aliases) + HookSteps(s);
    assert steps == [SiteStep(s)] + head;
    for i := 0 to |units|
      invariant steps == [SiteStep(s)] + (head + UnitSteps(units[..i], s.domain))
    {
      assert units[..i + 1][..i] == units[..i];
      if units[i].domain != s.domain {
        continue;
      }
      steps := steps + [UnitStep(units[i])];
    }
    assert units[..|units|] == units;
    if !s.enabled {
      steps := steps + [DisableStep(s)];
    }
  }

  /** The whole plan, or why there is none. Nothing is run. */
  method MakePlan(im: Importer, e: Export, st: Store) returns (r: Result<Plan, ImportError>, ghost o: Order)
    ensures r.Err? <==> (st.schema.Some? && e.schema > st.schema.value) || !st.opens
    ensures r.Ok? ==> InOrder(im, e, o) && r.value == PlanOf(im, st, e, o)
  {
    if st.schema.Some? && e.schema > st.schema.value {
      return Err(NewerSchema(e.schema, st.schema.value)), Order([], [], []);
    }
    if !st.opens {
      return Err(StoreUnavailable), Order([], [], []);
    }
    var users, us := AddUsers(im, st, e.users);
    var keys, sites := NOTHING, NOTHING;
    var ks, ss := [], [];
    if !im.skipKeys {
      keys, ks := AddKeys(im, st, e.sites, e.keys);
    }
    if !im.skipSites {
      sites, ss := AddSites(im, st, e.units, e.sites);
    }
    hide PlanUsers;
    hide PlanKeys;
    hide PlanSites;
    hide SortOf;
    hide Then;
    return Ok(Then(Then(users, keys), sites)), Order(us, ks, ss);
  }
}
