/** What a replayed `site add` asks for (internal/cli/cmd_import.go): the site as it was, exactly when
    each of its fields is passed on or at the default of its flag. */
module ImportSettings {
  import opened Text
  import opened SiteSettings
  import opened ImportPlan
  import opened ImportFlags

  // ----- reading one setting ------------------------------------------------------------------------

  function SettingAsked(m: map<string, string>, f: string): string {
    if f in m then m[f] else Default(f)
  }

  /** What the flags say, over what was said before. */
  function Heard(seen: map<string, string>, s: Settings, flags: seq<string>): map<string, string> {
    if flags == [] then seen
    else
      var f, m := flags[|flags| - 1], Heard(seen, s, flags[..|flags| - 1]);
      if Value(s, f) == "" then m else m[f := Value(s, f)]
  }

  lemma OneIsHeard(m: map<string, string>, f: string, v: string)
    requires f in SWITCHES ==> v in {"", "true"}
    ensures ReadFlags(m, AppendFlag([], f, v), SWITCHES) == Some(if v == "" then m else m[f := v])
  {
    assert [f, v][2..] == [] && [f][1..] == [];
  }

  lemma {:induction false} SpokenIsHeard(seen: map<string, string>, s: Settings, flags: seq<string>)
    requires WellTyped(s)
    ensures ReadFlags(seen, Spoken(s, flags), SWITCHES) == Some(Heard(seen, s, flags))
  {
    if flags != [] {
      var f, front := flags[|flags| - 1], flags[..|flags| - 1];
      var said, last := Spoken(s, front), AppendFlag([], f, Value(s, f));
      SpokenIsHeard(seen, s, front);
      OneIsHeard(Heard(seen, s, front), f, Value(s, f));
      assert Spoken(s, flags) == said + last;
      ReadFlagsConcat(seen, said, last, SWITCHES);
    }
  }

  /** Each flag that is passed with a value is heard with that value, and no other. */
  lemma {:induction false} HeardGives(seen: map<string, string>, s: Settings, flags: seq<string>, f: string)
    ensures var m, given := Heard(seen, s, flags), f in flags && Value(s, f) != "";
            (f in m <==> f in seen || given)
            && (given ==> m[f] == Value(s, f))
            && (!given && f in seen ==> m[f] == seen[f])
  {
    hide Value;
    if flags != [] {
      var g, front := flags[|flags| - 1], flags[..|flags| - 1];
      assert f in flags <==> f in front || f == g;
      HeardGives(seen, s, front, f);
    }
  }

  // ----- the relaxed directives -----------------------------------------------------------------------

  /** Every value of the flag is a list with commas. */
  function Listed(v: string): seq<string> {
    if v == "" then [] else Split(v, ',')
  }

  function AllListed(vs: seq<string>): seq<string> {
    if vs == [] then [] else AllListed(vs[..|vs| - 1]) + Listed(vs[|vs| - 1])
  }

  /** The directives a command line relaxes: those of each `--relax` in turn. */
  function RelaxAsked(args: seq<string>, switches: set<string>): seq<string>
    decreases |args|
  {
    if args == [] then []
    else if args[0] in switches then RelaxAsked(args[1..], switches)
    else if |args| == 1 then []
    else (if args[0] == "--relax" then Listed(args[1]) else []) + RelaxAsked(args[2..], switches)
  }

  lemma {:induction false} RelaxAskedConcat(seen: map<string, string>, a: seq<string>, b: seq<string>,
                                            switches: set<string>)
    requires ReadFlags(seen, a, switches).Some?
    ensures RelaxAsked(a + b, switches) == RelaxAsked(a, switches) + RelaxAsked(b, switches)
    decreases |a|
  {
    hide Listed;
    if a == [] {
      assert a + b == b;
    } else if a[0] in switches {
      assert (a + b)[1..] == a[1..] + b;
      RelaxAskedConcat(seen[a[0] := "true"], a[1..], b, switches);
    } else {
      assert (a + b)[2..] == a[2..] + b;
      RelaxAskedConcat(seen[a[0] := a[1]], a[2..], b, switches);
    }
  }

  lemma OneRelaxes(f: string, v: string)
    requires f != "--relax"
    ensures RelaxAsked(AppendFlag([], f, v), SWITCHES) == []
  {
    assert [f, v][2..] == [] && [f][1..] == [];
  }

  lemma {:induction false} SpokenRelaxes(s: Settings, flags: seq<string>)
    requires WellTyped(s) && "--relax" !in flags
    ensures RelaxAsked(Spoken(s, flags), SWITCHES) == []
  {
    if flags != [] {
      var f, front := flags[|flags| - 1], flags[..|flags| - 1];
      var said, last := Spoken(s, front), AppendFlag([], f, Value(s, f));
      SpokenRelaxes(s, front);
      SpokenIsHeard(map[], s, front);
      OneRelaxes(f, Value(s, f));
      assert Spoken(s, flags) == said + last;
      RelaxAskedConcat(map[], said, last, SWITCHES);
    }
  }

  lemma {:induction false} RelaxationsAreRead(seen: map<string, string>, vs: seq<string>)
    ensures var r := ReadFlags(seen, Relaxations(vs), SWITCHES);
            r.Some?
            && forall w :: w != "--relax" ==> (w in r.value <==> w in seen) && (w in seen ==> r.value[w] == seen[w])
    ensures RelaxAsked(Relaxations(vs), SWITCHES) == AllListed(vs)
  {
    if vs != [] {
      var front, v := vs[..|vs| - 1], vs[|vs| - 1];
      RelaxationsAreRead(seen, front);
      hide Listed;
      var pair, m := ["--relax", v], ReadFlags(seen, Relaxations(front), SWITCHES).value;
      assert pair[2..] == [];
      ReadFlagsConcat(seen, Relaxations(front), pair, SWITCHES);
      RelaxAskedConcat(seen, Relaxations(front), pair, SWITCHES);
      assert ReadFlags(m, pair, SWITCHES) == Some(m["--relax" := v]);
    }
  }

  /** How long the parts are together. */
  function Bytes(vs: seq<string>): nat {
    if vs == [] then 0 else Bytes(vs[..|vs| - 1]) + |vs[|vs| - 1]|
  }

  lemma {:induction false} BytesConcat(a: seq<string>, b: seq<string>)
    ensures Bytes(a + b) == Bytes(a) + Bytes(b)
  {
    if b == [] {
      assert a + b == a;
    } else {
      assert (a + b)[..|a + b| - 1] == a + b[..|b| - 1];
      BytesConcat(a, b[..|b| - 1]);
    }
  }

  predicate Plain(v: string) {
    v != "" && ',' !in v
  }

  /** Splitting loses the commas and nothing else. */
  lemma {:induction false} SplitBytes(v: string)
    ensures Bytes(Split(v, ',')) <= |v| && (Bytes(Split(v, ',')) == |v| <==> ',' !in v)
    decreases |v|
  {
    IndexOfLeast(v, ',');
    var i := IndexOf(v, ',');
    if i == |v| {
      assert v[..i] == v && [v][..0] == [];
    } else {
      SplitBytes(v[i + 1..]);
      BytesConcat([v[..i]], Split(v[i + 1..], ','));
      assert [v[..i]][..0] == [] && Bytes([v[..i]]) == i;
    }
  }

  lemma ListedBytes(v: string)
    ensures Bytes(Listed(v)) <= |v| && (Bytes(Listed(v)) == |v| <==> ',' !in v)
    ensures ',' !in v ==> Listed(v) == if v == "" then [] else [v]
  {
    SplitBytes(v);
    IndexOfLeast(v, ',');
    var i := IndexOf(v, ',');
    assert i < |v| ==> v[i] in v;
  }

  lemma {:induction false} AllListedBytes(vs: seq<string>)
    ensures Bytes(AllListed(vs)) <= Bytes(vs)
    ensures Bytes(AllListed(vs)) == Bytes(vs) ==> forall v :: v in vs ==> ',' !in v
  {
    hide Listed;
    if vs != [] {
      var front, v := vs[..|vs| - 1], vs[|vs| - 1];
      AllListedBytes(front);
      ListedBytes(v);
      BytesConcat(AllListed(front), Listed(v));
      assert vs == front + [v];
    }
  }

  /** Without commas, what is empty is dropped. */
  lemma {:induction false} WithoutCommas(vs: seq<string>)
    requires forall i :: 0 <= i < |vs| ==> ',' !in vs[i]
    ensures |AllListed(vs)| <= |vs|
    ensures |AllListed(vs)| == |vs| <==> forall i :: 0 <= i < |vs| ==> vs[i] != ""
    ensures |AllListed(vs)| == |vs| ==> AllListed(vs) == vs
  {
    if vs != [] {
      var front, v := vs[..|vs| - 1], vs[|vs| - 1];
      WithoutCommas(front);
      ListedBytes(v);
      hide Listed;
      assert vs == front + [v];
    }
  }

  /** Directives come back as they were exactly when none is empty or holds a comma. */
  lemma RelaxedComesBack(vs: seq<string>)
    ensures AllListed(vs) == vs <==> forall i :: 0 <= i < |vs| ==> Plain(vs[i])
  {
    AllListedBytes(vs);
    assert (forall v :: v in vs ==> ',' !in v) <==> forall i :: 0 <= i < |vs| ==> ',' !in vs[i];
    if forall i :: 0 <= i < |vs| ==> ',' !in vs[i] {
      WithoutCommas(vs);
    }
  }

  // ----- the whole site -------------------------------------------------------------------------------

  /** The flags that are fields of their own. */
  predicate IsSetting(f: string) {
    f !in {"--user", "--runtime", "--ssl", "--relax"}
  }

  /** The command asks for the site: its domain, owner, runtime, every setting and every relaxed
      directive. */
  ghost predicate AsksFor(argv: seq<string>, s: Site) {
    |argv| >= 3 && argv[..3] == ["site", "add", s.domain]
    && var r := ReadFlags(map[], argv[3..], SWITCHES);
       r.Some? && Given(r.value, "--user") == s.owner && Given(r.value, "--runtime") == s.runtime
       && (forall f: string :: IsSetting(f) ==> SettingAsked(r.value, f) == Value(s.settings, f))
       && RelaxAsked(argv[3..], SWITCHES) == s.relaxed
  }

  /** What the replayed command leaves to a default is at that default. */
  predicate Carried(s: Site, f: string) {
    Value(s.settings, f) == Default(f) || (f in Passed(s.runtime) && Value(s.settings, f) != "")
  }

  function Leading(s: Site): map<string, string> {
    map[]["--user" := s.owner]["--runtime" := s.runtime]["--ssl" := "none"]
  }

  lemma NoneOfTheLeading(f: string, s: Site)
    ensures IsSetting(f) ==> f !in Leading(s)
    ensures Given(Leading(s), "--user") == s.owner && Given(Leading(s), "--runtime") == s.runtime
  {
  }

  /** The three flags that are always given come first. */
  lemma SiteArgvRead(s: Site)
    ensures var argv := SiteStep(s).argv;
            |argv| >= 3 && argv[..3] == ["site", "add", s.domain]
            && ReadFlags(map[], argv[3..], SWITCHES) == ReadFlags(Leading(s), SettingsArgv(s), SWITCHES)
            && RelaxAsked(argv[3..], SWITCHES) == RelaxAsked(SettingsArgv(s), SWITCHES)
  {
    var rest := SettingsArgv(s);
    hide SettingsArgv;
    var three := ["--user", s.owner, "--runtime", s.runtime, "--ssl", "none"];
    assert SiteStep(s).argv[3..] == three + rest;
    LeadingRead(s, rest);
  }

  lemma LeadingRead(s: Site, rest: seq<string>)
    ensures var argv := ["--user", s.owner, "--runtime", s.runtime, "--ssl", "none"] + rest;
            ReadFlags(map[], argv, SWITCHES) == ReadFlags(Leading(s), rest, SWITCHES)
            && RelaxAsked(argv, SWITCHES) == RelaxAsked(rest, SWITCHES)
  {
    var two := ["--runtime", s.runtime] + (["--ssl", "none"] + rest);
    assert ["--user", s.owner, "--runtime", s.runtime, "--ssl", "none"] + rest == ["--user", s.owner] + two;
    LeadingFlag(map[], "--user", s.owner, two);
    LeadingFlag(map[]["--user" := s.owner], "--runtime", s.runtime, ["--ssl", "none"] + rest);
    LeadingFlag(map[]["--user" := s.owner]["--runtime" := s.runtime], "--ssl", "none", rest);
  }

  lemma LeadingFlag(seen: map<string, string>, f: string, v: string, rest: seq<string>)
    requires f in {"--user", "--runtime", "--ssl"}
    ensures ReadFlags(seen, [f, v] + rest, SWITCHES) == ReadFlags(seen[f := v], rest, SWITCHES)
    ensures RelaxAsked([f, v] + rest, SWITCHES) == RelaxAsked(rest, SWITCHES)
  {
    FlagRead(seen, f, v, rest, SWITCHES);
    assert ([f, v] + rest)[2..] == rest;
  }

  lemma PassedAreSettings(runtime: string, f: string)
    requires f in Passed(runtime)
    ensures IsSetting(f)
  {
  }

  /** What the settings of a replayed site are heard as. */
  lemma SettingsHeard(s: Site)
    requires WellTyped(s.settings)
    ensures var r := ReadFlags(Leading(s), SettingsArgv(s), SWITCHES);
            r.Some? && Given(r.value, "--user") == s.owner && Given(r.value, "--runtime") == s.runtime
            && forall f: string :: IsSetting(f) ==>
                 SettingAsked(r.value, f) ==
                 if f in Passed(s.runtime) && Value(s.settings, f) != "" then Value(s.settings, f) else Default(f)
    ensures RelaxAsked(SettingsArgv(s), SWITCHES) == AllListed(s.relaxed)
  {
    hide Passed;
    hide Leading;
    hide Default;
    hide Value;
    hide WellTyped;
    var flags := Passed(s.runtime);
    var said, m := Spoken(s.settings, flags), Heard(Leading(s), s.settings, flags);
    forall f | f in flags ensures IsSetting(f) {
      PassedAreSettings(s.runtime, f);
    }
    SpokenIsHeard(Leading(s), s.settings, flags);
    SpokenRelaxes(s.settings, flags);
    RelaxationsAreRead(m, s.relaxed);
    ReadFlagsConcat(Leading(s), said, Relaxations(s.relaxed), SWITCHES);
    RelaxAskedConcat(Leading(s), said, Relaxations(s.relaxed), SWITCHES);
    forall f: string | f != "--relax"
      ensures IsSetting(f) ==> f !in Leading(s)
      ensures var given := f in flags && Value(s.settings, f) != "";
              (f in m <==> f in Leading(s) || given)
              && (given ==> m[f] == Value(s.settings, f))
              && (!given && f in Leading(s) ==> m[f] == Leading(s)[f])
    {
      HeardGives(Leading(s), s.settings, flags, f);
      NoneOfTheLeading(f, s);
    }
    NoneOfTheLeading("--relax", s);
  }

  /** A site comes back as it was exactly when each of its settings is passed on or at its flag's
      default, and its relaxed directives can be listed. */
  lemma SiteComesBack(s: Site)
    requires WellTyped(s.settings)
    ensures AsksFor(SiteStep(s).argv, s) <==>
            (forall f: string :: IsSetting(f) ==> Carried(s, f))
            && forall i :: 0 <= i < |s.relaxed| ==> Plain(s.relaxed[i])
  {
    SiteArgvRead(s);
    SettingsHeard(s);
    RelaxedComesBack(s.relaxed);
    hide SiteStep;
    hide SettingsArgv;
    hide SettingAsked;
    hide Value;
    hide Passed;
    hide Plain;
    hide Default;
  }

  /** No runtime passes on how the application is started, what supervises it, or that browsers are told
      to use TLS only. */
  lemma StartCommandIsLost(s: Site)
    requires WellTyped(s.settings)
    requires Value(s.settings, "--start-command") != "" || Value(s.settings, "--daemon") != ""
             || Value(s.settings, "--hsts") != ""
    ensures !AsksFor(SiteStep(s).argv, s)
  {
    hide AsksFor;
    hide SiteStep;
    hide Passed;
    hide Default;
    hide Value;
    hide WellTyped;
    SiteComesBack(s);
    forall f | f in {"--start-command", "--daemon", "--hsts"}
      ensures f !in Passed(s.runtime) && Default(f) == "" && IsSetting(f)
    {
      NeverPassed(s.runtime, f);
    }
    assert !Carried(s, "--start-command") || !Carried(s, "--daemon") || !Carried(s, "--hsts");
  }

  lemma NeverPassed(runtime: string, f: string)
    requires f in {"--start-command", "--daemon", "--hsts"}
    ensures f !in Passed(runtime) && Default(f) == "" && IsSetting(f)
  {
  }

  lemma PassedToAll(f: string)
    ensures f in OF_ALL <==> OfferedTo(f) == RUNTIMES && f !in {"--start-command", "--hsts"}
  {
  }

  lemma PassedToStatic(f: string)
    ensures f in OfRuntime("static") <==> OfferedTo(f) == {"static"}
  {
  }

  lemma PassedToNode(f: string)
    ensures f in OfRuntime("node") <==> (OfferedTo(f) == {"node"} || OfferedTo(f) == {"node", "bun"}) && f != "--daemon"
  {
  }

  lemma PassedToBun(f: string)
    ensures f in OfRuntime("bun") <==>
            (OfferedTo(f) == {"bun"} || OfferedTo(f) == {"node", "bun"}) && f !in {"--daemon", "--instances"}
  {
  }

  lemma PassedToPython(f: string)
    ensures f in OfRuntime("python") <==> OfferedTo(f) == {"python"}
  {
  }

  lemma OfferedToWhom(f: string)
    ensures OfferedTo(f) in {{}, {"static"}, {"node"}, {"bun"}, {"node", "bun"}, {"python"}, RUNTIMES}
    ensures f == "--daemon" || f == "--instances" ==> OfferedTo(f) == {"node", "bun"}
    ensures f == "--start-command" || f == "--hsts" ==> OfferedTo(f) == RUNTIMES
  {
  }

  /** An import passes on every setting `site add` takes for the site's runtime, but for those three and for
      the instances of a bun site. */
  lemma OfferedArePassed(runtime: string, f: string)
    requires runtime in RUNTIMES
    ensures f in Passed(runtime) <==>
            runtime in OfferedTo(f) && f !in {"--start-command", "--daemon", "--hsts"}
            && !(runtime == "bun" && f == "--instances")
  {
    hide OfRuntime;
    hide OF_ALL;
    hide OfferedTo;
    PassedToAll(f);
    PassedToStatic(f);
    PassedToNode(f);
    PassedToBun(f);
    PassedToPython(f);
    OfferedToWhom(f);
    assert f in Passed(runtime) <==> f in OfRuntime(runtime) || f in OF_ALL;
  }

  /** A bun site with more than one instance comes back with one. */
  lemma BunInstancesAreLost(s: Site)
    requires WellTyped(s.settings) && s.runtime == "bun"
    requires Value(s.settings, "--instances") != "1"
    ensures !AsksFor(SiteStep(s).argv, s)
    ensures var r := ReadFlags(map[], SiteStep(s).argv[3..], SWITCHES);
            r.Some? && SettingAsked(r.value, "--instances") == "1"
  {
    hide AsksFor;
    hide SiteStep;
    hide Passed;
    hide Value;
    hide WellTyped;
    SiteComesBack(s);
    SiteArgvRead(s);
    SettingsHeard(s);
    OfferedArePassed("bun", "--instances");
    assert IsSetting("--instances") && !Carried(s, "--instances");
  }

  /** What `site add` stores when no flag is given. */
  const PLAIN: Settings := map["--index" := "index.html", "--listen" := "socket", "--instances" := "1",
                               "--branch" := "main", "--www-redirect" := "none"]

  lemma PlainIsDefault(f: string)
    ensures Value(PLAIN, f) == Default(f)
  {
  }

  /** A site that was added without any flag but the required ones comes back, of whatever runtime. */
  lemma PlainSiteComesBack(s: Site)
    requires s.settings == PLAIN && s.relaxed == []
    ensures AsksFor(SiteStep(s).argv, s)
  {
    hide AsksFor;
    hide SiteStep;
    hide Passed;
    hide Default;
    hide Value;
    assert WellTyped(s.settings) by {
      PlainIsTyped();
    }
    SiteComesBack(s);
    forall f: string | IsSetting(f) ensures Carried(s, f) {
      PlainIsDefault(f);
    }
  }

  lemma PlainIsTyped()
    ensures WellTyped(PLAIN)
  {
  }
}
