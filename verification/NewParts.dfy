/** The commands of `ratline new` (internal/cli/cmd_new.go), read back from their flags, the order they run
    in, how each is taken back, and why there may be no plan. */
module NewParts {
  import opened Text
  import opened NewStack
  import opened ImportFlags
  import DatabaseName

  function Asked(argv: seq<string>, at: nat): Option<map<string, string>>
    requires at <= |argv|
  {
    ReadFlags(map[], argv[at..], {})
  }

  /** The tenant is created with the key that was given, if one was. */
  lemma TenantAsked(s: Stack)
    ensures var argv := AddTenant(s).argv;
            |argv| >= 3 && argv[..3] == ["user", "add", s.owner]
            && Asked(argv, 3).Some? && Given(Asked(argv, 3).value, "--ssh-key") == s.sshKey
            && AddTenant(s).undo == Some(["user", "delete", s.owner, "--purge"])
  {
    if s.sshKey != "" {
      FlagRead(map[], "--ssh-key", s.sshKey, [], {});
      assert ["--ssh-key", s.sshKey] + [] == AddTenant(s).argv[3..];
    }
  }

  /** The key of an existing tenant is added for that tenant, labelled by the domain, and kept. */
  lemma KeyAsked(s: Stack)
    ensures var argv := AddKey(s).argv;
            |argv| >= 2 && argv[..2] == ["key", "add"] && Asked(argv, 2).Some?
            && var m := Asked(argv, 2).value;
               Given(m, "--scope") == "user" && Given(m, "--user") == s.owner
               && Given(m, "--label") == s.domain + " deploy" && Given(m, "--key") == s.sshKey
               && m.Keys == {"--scope", "--user", "--label", "--key"}
    ensures AddKey(s).undo == None
  {
    var name := s.domain + " deploy";
    var m1 := map["--scope" := "user"];
    var m2 := m1["--user" := s.owner];
    var m3 := m2["--label" := name];
    FlagRead(map[], "--scope", "user", ["--user", s.owner] + (["--label", name] + (["--key", s.sshKey] + [])), {});
    FlagRead(m1, "--user", s.owner, ["--label", name] + (["--key", s.sshKey] + []), {});
    FlagRead(m2, "--label", name, ["--key", s.sshKey] + [], {});
    FlagRead(m3, "--key", s.sshKey, [], {});
    assert AddKey(s).argv[2..] ==
           ["--scope", "user"] + (["--user", s.owner] + (["--label", name] + (["--key", s.sshKey] + [])));
  }

  /** The site is created for the owner, without a certificate, and with the flags of its recipe behind. */
  lemma SiteAsked(s: Stack)
    ensures AddSite(s).argv == ["site", "add", s.domain, "--user", s.owner, "--ssl", "none"] + s.siteArgs
    ensures AddSite(s).undo == Some(["site", "delete", s.domain, "--purge"])
  {
  }

  /** The database is created for the owner, attached to the site, under the name given or derived. */
  lemma DatabaseAsked(s: Stack)
    ensures var argv := AddDatabase(s).argv;
            var name := if s.dbName == "" then DerivedNameOf(s) else s.dbName;
            |argv| >= 3 && argv[..3] == ["db", "create", name] && Asked(argv, 3).Some?
            && var m := Asked(argv, 3).value;
               Given(m, "--owner") == s.owner && Given(m, "--attach") == s.domain && Given(m, "--env-key") == s.envKey
               && ("--env-key" in m <==> s.envKey != "")
               && AddDatabase(s).undo == Some(["db", "drop", name, "--force"])
  {
    var last := if s.envKey == "" then [] else ["--env-key", s.envKey] + [];
    var m1 := map["--owner" := s.owner];
    var m2 := m1["--attach" := s.domain];
    FlagRead(map[], "--owner", s.owner, ["--attach", s.domain] + last, {});
    FlagRead(m1, "--attach", s.domain, last, {});
    if s.envKey != "" {
      FlagRead(m2, "--env-key", s.envKey, [], {});
    }
    assert AddDatabase(s).argv[3..] == ["--owner", s.owner] + (["--attach", s.domain] + last);
  }

  function DerivedNameOf(s: Stack): string {
    DatabaseName.DerivedName(s.domain)
  }

  /** The certificate is issued for the domain, with the address given, if one was, and kept. */
  lemma CertificateAsked(s: Stack)
    ensures var argv := AddCertificate(s).argv;
            |argv| >= 3 && argv[..3] == ["cert", "issue", s.domain]
            && Asked(argv, 3).Some? && Given(Asked(argv, 3).value, "--email") == s.email
            && ("--email" in Asked(argv, 3).value <==> s.email != "")
    ensures AddCertificate(s).undo == None
  {
    if s.email != "" {
      FlagRead(map[], "--email", s.email, [], {});
      assert ["--email", s.email] + [] == AddCertificate(s).argv[3..];
    }
  }

  /** The order of the steps: the tenant, or the key of one that is there; the site; the database, if one
      is asked for; and the certificate last, if one is. */
  lemma StepsAre(s: Stack, l: Lookups)
    ensures StepsOf(s, l) ==
            (if !l.tenantFound then [AddTenant(s)] else [])
            + (if l.tenantFound && s.sshKey != "" then [AddKey(s)] else [])
            + [AddSite(s)] + (if s.withDb then [AddDatabase(s)] else []) + (if s.tls then [AddCertificate(s)] else [])
  {
    hide AddTenant;
    hide AddKey;
    hide AddSite;
    hide AddDatabase;
    hide AddCertificate;
  }

  /** Why there is no plan: the first of the checks that fails. */
  lemma RefusalIs(s: Stack, l: Lookups)
    ensures RefusalOf(s, l) == Some(BadDomain) <==> !l.domainOk
    ensures RefusalOf(s, l) == Some(BadOwner) <==> l.domainOk && !l.ownerOk
    ensures RefusalOf(s, l) == Some(NoStore) <==> l.domainOk && l.ownerOk && !l.storeOk
    ensures RefusalOf(s, l) == Some(BadDatabaseName(DerivedNameOf(s))) <==>
            l.domainOk && l.ownerOk && l.storeOk && s.withDb && s.dbName == ""
            && !DatabaseName.UsableName(DerivedNameOf(s))
    ensures RefusalOf(s, l) == None <==>
            l.domainOk && l.ownerOk && l.storeOk
            && !(s.withDb && s.dbName == "" && !DatabaseName.UsableName(DerivedNameOf(s)))
  {
  }
}
