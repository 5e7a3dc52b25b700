/** `ratline new` (internal/cli/cmd_new.go): the plan that provisions a tenant, a site, a database and
    a certificate. */
module NewStack {
  import opened Text
  import opened Compose
  import opened DatabaseName

  // ----- the plan ---------------------------------------------------------------------------------

  datatype Stack = Stack(
    domain: string, owner: string, sshKey: string,
    withDb: bool, dbName: string, envKey: string,
    tls: bool, email: string, siteArgs: seq<string>)

  /** What the plan is told: whether the names are valid, the store opens, and GetUser finds the
      owner. */
  datatype Lookups = Lookups(domainOk: bool, ownerOk: bool, storeOk: bool, tenantFound: bool)

  datatype Refusal = BadDomain | BadOwner | NoStore | BadDatabaseName(name: string)

  function AppendIf(args: seq<string>, flag: string, value: string): seq<string> {
    if value == "" then args else args + [flag, value]
  }

  function AddTenant(s: Stack): Step {
    Step("creating the tenant " + s.owner,
         AppendIf(["user", "add", s.owner], "--ssh-key", s.sshKey),
         Some(["user", "delete", s.owner, "--purge"]), "")
  }

  function AddKey(s: Stack): Step {
    Step("adding the key to " + s.owner,
         ["key", "add", "--scope", "user", "--user", s.owner, "--label", s.domain + " deploy", "--key", s.sshKey],
         None, "")
  }

  function AddSite(s: Stack): Step {
    Step("creating the site " + s.domain,
         ["site", "add", s.domain, "--user", s.owner, "--ssl", "none"] + s.siteArgs,
         Some(["site", "delete", s.domain, "--purge"]), "")
  }

  function NameFor(s: Stack): string {
    if s.dbName == "" then DerivedName(s.domain) else s.dbName
  }

  function AddDatabase(s: Stack): Step {
    Step("creating the database " + NameFor(s),
         AppendIf(["db", "create", NameFor(s), "--owner", s.owner, "--attach", s.domain], "--env-key", s.envKey),
         Some(["db", "drop", NameFor(s), "--force"]), "")
  }

  const CERTIFICATE_IS_KEPT := "A certificate is the exception: issuing one spends a rate limit, so it is not revoked."

  function AddCertificate(s: Stack): Step {
    Step("issuing a certificate for " + s.domain,
         AppendIf(["cert", "issue", s.domain], "--email", s.email),
         None, CERTIFICATE_IS_KEPT)
  }

  predicate GivesKey(s: Stack, l: Lookups) {
    l.tenantFound && s.sshKey != ""
  }

  function TenantSteps(s: Stack, l: Lookups): seq<Step> {
    if !l.tenantFound then [AddTenant(s)] else if s.sshKey != "" then [AddKey(s)] else []
  }

  function StepsOf(s: Stack, l: Lookups): seq<Step> {
    TenantSteps(s, l) + [AddSite(s)]
    + (if s.withDb then [AddDatabase(s)] else [])
    + (if s.tls then [AddCertificate(s)] else [])
  }

  function RefusalOf(s: Stack, l: Lookups): Option<Refusal> {
    if !l.domainOk then Some(BadDomain)
    else if !l.ownerOk then Some(BadOwner)
    else if !l.storeOk then Some(NoStore)
    else if s.withDb && s.dbName == "" && !UsableName(DerivedName(s.domain)) then
      Some(BadDatabaseName(DerivedName(s.domain)))
    else None
  }

  /** The plan, or why there is none: nothing is run either way. */
  method MakePlan(s: Stack, l: Lookups) returns (r: Result<Plan, Refusal>)
    ensures r.Err? <==> RefusalOf(s, l).Some?
    ensures r.Err? ==> r.error == RefusalOf(s, l).value
    ensures r.Ok? ==> r.value.steps == StepsOf(s, l)
    ensures r.Ok? ==> (r.value.notes != [] <==> l.tenantFound)
  {
    var steps, notes := [], [];
    if !l.domainOk {
      return Err(BadDomain);
    }
    if !l.ownerOk {
      return Err(BadOwner);
    }
    if !l.storeOk {
      return Err(NoStore);
    }
    if !l.tenantFound {
      var argv := ["user", "add", s.owner];
      if s.sshKey != "" {
        argv := argv + ["--ssh-key", s.sshKey];
      }
      steps := steps + [Step("creating the tenant " + s.owner, argv,
                             Some(["user", "delete", s.owner, "--purge"]), "")];
    } else {
      notes := notes + ["tenant " + s.owner + " already exists, leaving it alone"];
      if s.sshKey != "" {
        steps := steps + [AddKey(s)];
      }
    }
    assert steps == TenantSteps(s, l);
    steps := steps + [AddSite(s)];
    if s.withDb {
      var name := s.dbName;
      if name == "" {
        name := DatabaseNameFor(s.domain);
        if !UsableName(name) {
          return Err(BadDatabaseName(name));
        }
      }
      var argv := ["db", "create", name, "--owner", s.owner, "--attach", s.domain];
      if s.envKey != "" {
        argv := argv + ["--env-key", s.envKey];
      }
      steps := steps + [Step("creating the database " + name, argv, Some(["db", "drop", name, "--force"]), "")];
    }
    if s.tls {
      var argv := ["cert", "issue", s.domain];
      if s.email != "" {
        argv := argv + ["--email", s.email];
      }
      steps := steps + [Step("issuing a certificate for " + s.domain, argv, None, CERTIFICATE_IS_KEPT)];
    }
    return Ok(Plan(steps, notes));
  }
}
