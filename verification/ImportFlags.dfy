/** What the commands an import replays ask for (internal/cli/cmd_import.go), read back from their flags. */
module ImportFlags {
  import opened Text
  import opened NewStack
  import opened ImportPlan

  /** Flags as the commands read them: a switch stands alone, any other flag takes the next word for
      its value, whatever that looks like. None when the last flag has no value. */
  function ReadFlags(seen: map<string, string>, args: seq<string>, switches: set<string>): Option<map<string, string>>
    decreases |args|
  {
    if args == [] then Some(seen)
    else if args[0] in switches then ReadFlags(seen[args[0] := "true"], args[1..], switches)
    else if |args| == 1 then None
    else ReadFlags(seen[args[0] := args[1]], args[2..], switches)
  }

  function Given(m: map<string, string>, flag: string): string {
    if flag in m then m[flag] else ""
  }

  lemma FlagRead(seen: map<string, string>, flag: string, value: string, rest: seq<string>, switches: set<string>)
    requires flag !in switches
    ensures ReadFlags(seen, [flag, value] + rest, switches) == ReadFlags(seen[flag := value], rest, switches)
  {
    assert ([flag, value] + rest)[2..] == rest;
  }

  lemma {:induction false} ReadFlagsConcat(seen: map<string, string>, a: seq<string>, b: seq<string>,
                                           switches: set<string>)
    requires ReadFlags(seen, a, switches).Some?
    ensures ReadFlags(seen, a + b, switches) == ReadFlags(ReadFlags(seen, a, switches).value, b, switches)
    decreases |a|
  {
    if a == [] {
      assert a + b == b;
    } else if a[0] in switches {
      assert (a + b)[1..] == a[1..] + b;
      ReadFlagsConcat(seen[a[0] := "true"], a[1..], b, switches);
    } else {
      assert (a + b)[2..] == a[2..] + b;
      ReadFlagsConcat(seen[a[0] := a[1]], a[2..], b, switches);
    }
  }

  // ----- flags that are given only when they have a value ---------------------------------------------

  type Fields = seq<(string, string)>

  function Appended(fields: Fields): seq<string> {
    if fields == [] then []
    else
      var f := fields[|fields| - 1];
      AppendIf(Appended(fields[..|fields| - 1]), f.0, f.1)
  }

  function With(seen: map<string, string>, fields: Fields): map<string, string> {
    if fields == [] then seen
    else
      var f, m := fields[|fields| - 1], With(seen, fields[..|fields| - 1]);
      if f.1 == "" then m else m[f.0 := f.1]
  }

  predicate Unswitched(fields: Fields, switches: set<string>) {
    forall i :: 0 <= i < |fields| ==> fields[i].0 !in switches
  }

  predicate DistinctFlags(fields: Fields) {
    forall i, j :: 0 <= i < j < |fields| ==> fields[i].0 != fields[j].0
  }

  lemma {:induction false} AppendedIsRead(seen: map<string, string>, fields: Fields, switches: set<string>)
    requires Unswitched(fields, switches)
    ensures ReadFlags(seen, Appended(fields), switches) == Some(With(seen, fields))
  {
    if fields != [] {
      var f, front := fields[|fields| - 1], fields[..|fields| - 1];
      assert Unswitched(front, switches);
      AppendedIsRead(seen, front, switches);
      if f.1 != "" {
        ReadFlagsConcat(seen, Appended(front), [f.0, f.1], switches);
        assert [f.0, f.1][2..] == [];
      }
    }
  }

  /** Every field is given with its own value, and nothing else is given. */
  lemma {:induction false} WithGives(seen: map<string, string>, fields: Fields, i: nat, flag: string)
    requires DistinctFlags(fields) && forall j :: 0 <= j < |fields| ==> fields[j].0 !in seen
    ensures i < |fields| ==> Given(With(seen, fields), fields[i].0) == fields[i].1
    ensures i < |fields| ==> (fields[i].0 in With(seen, fields) <==> fields[i].1 != "")
    ensures (forall j :: 0 <= j < |fields| ==> fields[j].0 != flag) ==>
              (flag in With(seen, fields) <==> flag in seen) && Given(With(seen, fields), flag) == Given(seen, flag)
  {
    if fields != [] {
      var n := |fields| - 1;
      WithGives(seen, fields[..n], i, flag);
      WithGives(seen, fields[..n], i, fields[n].0);
    }
  }

  lemma {:induction false} SwitchesAreRead(seen: map<string, string>, on: seq<string>, switches: set<string>,
                                           flag: string)
    requires forall j :: 0 <= j < |on| ==> on[j] in switches
    ensures var r := ReadFlags(seen, on, switches);
            r.Some? && (flag in r.value <==> flag in seen || flag in on)
            && (flag !in on ==> Given(r.value, flag) == Given(seen, flag))
    decreases |on|
  {
    if on != [] {
      SwitchesAreRead(seen[on[0] := "true"], on[1..], switches, flag);
      assert flag in on <==> flag == on[0] || flag in on[1..];
    }
  }

  /** Fields, and switches behind them: each field is read with its own value, and exactly the
      switches given are on. */
  lemma ReadBackFlags(seen: map<string, string>, fields: Fields, on: seq<string>, switches: set<string>,
                      i: nat, flag: string)
    requires DistinctFlags(fields) && Unswitched(fields, switches)
    requires forall j :: 0 <= j < |fields| ==> fields[j].0 !in seen
    requires forall j :: 0 <= j < |on| ==> on[j] in switches
    ensures var r := ReadFlags(seen, Appended(fields) + on, switches);
            r.Some?
            && (i < |fields| ==> Given(r.value, fields[i].0) == fields[i].1)
            && (i < |fields| ==> (fields[i].0 in r.value <==> fields[i].1 != ""))
            && (flag !in seen && flag !in switches && (forall j :: 0 <= j < |fields| ==> fields[j].0 != flag) ==>
                  flag !in r.value)
            && (flag in switches && flag !in seen ==> (flag in r.value <==> flag in on))
            && (flag in seen && flag !in switches ==> Given(r.value, flag) == seen[flag])
  {
    AppendedIsRead(seen, fields, switches);
    ReadFlagsConcat(seen, Appended(fields), on, switches);
    WithGives(seen, fields, i, flag);
    var m := With(seen, fields);
    SwitchesAreRead(m, on, switches, flag);
    hide ReadFlags;
    hide With;
    hide Appended;
    if i < |fields| {
      SwitchesAreRead(m, on, switches, fields[i].0);
    }
  }

  // ----- a tenant, a key, a unit ------------------------------------------------------------------------

  lemma OneMoreAppended(fields: Fields, f: (string, string), head: seq<string>)
    ensures Appended(fields + [f]) == AppendIf(Appended(fields), f.0, f.1)
    ensures AppendIf(head + Appended(fields), f.0, f.1) == head + Appended(fields + [f])
  {
    assert (fields + [f])[..|fields|] == fields;
  }

  const USER_SWITCHES: set<string> := {"--sftp-only", "--password-login"}

  /** The tenant a `user add` asks for. It has no flag for a disabled one. */
  function UserAsked(argv: seq<string>): Option<User>
    requires |argv| >= 3
  {
    var r := ReadFlags(map[], argv[3..], USER_SWITCHES);
    if r.None? then None
    else
      var m := r.value;
      Some(User(argv[2], Given(m, "--shell"), Given(m, "--comment"), Given(m, "--quota"), Given(m, "--memory-max"),
                "--sftp-only" in m, "--password-login" in m, false))
  }

  function UserFields(u: User): Fields {
    [("--shell", u.shell), ("--comment", u.comment), ("--quota", u.quota), ("--memory-max", u.memoryMax)]
  }

  lemma UserArgvParts(u: User)
    ensures UserArgv(u) ==
            ["user", "add", u.name] + (Appended(UserFields(u)) + if u.sftpOnly then ["--sftp-only"] else [])
  {
    var head, fs := ["user", "add", u.name], UserFields(u);
    assert fs[..1] == [fs[0]] && fs[..2] == fs[..1] + [fs[1]];
    assert fs[..3] == fs[..2] + [fs[2]] && fs == fs[..3] + [fs[3]];
    assert head + Appended([]) == head;
    OneMoreAppended([], fs[0], head);
    assert [] + [fs[0]] == fs[..1];
    OneMoreAppended(fs[..1], fs[1], head);
    OneMoreAppended(fs[..2], fs[2], head);
    OneMoreAppended(fs[..3], fs[3], head);
  }

  /** `user add`, replayed, is given what the export holds, less the password login and the mark that
      the tenant is disabled. */
  lemma UserReplayed(u: User)
    ensures UserAsked(UserArgv(u)) == Some(u.(passwordLogin := false, disabled := false))
  {
    UserArgvParts(u);
    var on := if u.sftpOnly then ["--sftp-only"] else [];
    assert UserArgv(u)[3..] == Appended(UserFields(u)) + on;
    hide UserArgv;
    hide Appended;
    hide ReadFlags;
    ReadBackFlags(map[], UserFields(u), on, USER_SWITCHES, 0, "--sftp-only");
    ReadBackFlags(map[], UserFields(u), on, USER_SWITCHES, 1, "--password-login");
    ReadBackFlags(map[], UserFields(u), on, USER_SWITCHES, 2, "--sftp-only");
    ReadBackFlags(map[], UserFields(u), on, USER_SWITCHES, 3, "--sftp-only");
  }

  /** A tenant comes back as it was exactly when it could not log in by password and was not
      disabled. */
  lemma UserComesBack(u: User)
    ensures UserAsked(UserArgv(u)) == Some(u) <==> !u.passwordLogin && !u.disabled
  {
    UserReplayed(u);
    hide UserAsked;
    hide UserArgv;
  }

  function KeyFields(k: Key): Fields {
    [("--user", k.owner), ("--site", k.site), ("--label", k.name)]
  }

  lemma KeyArgvParts(k: Key)
    ensures KeyStep(k).argv == ["key", "add", "--scope", k.scope, "--key", AuthorizedLine(k)] + Appended(KeyFields(k))
  {
    var head, fs := ["key", "add", "--scope", k.scope, "--key", AuthorizedLine(k)], KeyFields(k);
    assert fs[..1] == [fs[0]] && fs[..2] == fs[..1] + [fs[1]] && fs == fs[..2] + [fs[2]];
    assert head + Appended([]) == head;
    OneMoreAppended([], fs[0], head);
    assert [] + [fs[0]] == fs[..1];
    OneMoreAppended(fs[..1], fs[1], head);
    OneMoreAppended(fs[..2], fs[2], head);
  }

  const KEY_SWITCHES: set<string> := {"--sftp-only", "--allow-shell"}

  /** What a `key add` asks for, and what an exported key amounts to. */
  datatype Grant = Grant(scope: string, line: string, owner: string, site: string, name: string, limits: Limits)

  function GrantOf(k: Key): Grant {
    Grant(k.scope, AuthorizedLine(k), k.owner, k.site, k.name, k.limits)
  }

  function LimitsAsked(m: map<string, string>): Limits {
    Limits(Given(m, "--expires"), if "--from" in m then Split(m["--from"], ',') else [], Given(m, "--command"),
           "--sftp-only" in m, "--allow-shell" in m)
  }

  function GrantAsked(argv: seq<string>): Option<Grant>
    requires |argv| >= 2
  {
    var r := ReadFlags(map[], argv[2..], KEY_SWITCHES);
    if r.None? then None
    else
      var m := r.value;
      Some(Grant(Given(m, "--scope"), Given(m, "--key"), Given(m, "--user"), Given(m, "--site"), Given(m, "--label"),
                 LimitsAsked(m)))
  }

  /** None of the flags that limit a key is among those read. */
  lemma NoLimits(seen: map<string, string>, fs: Fields)
    requires DistinctFlags(fs) && Unswitched(fs, KEY_SWITCHES) && forall j :: 0 <= j < |fs| ==> fs[j].0 !in seen
    requires forall flag :: flag in {"--expires", "--from", "--command", "--sftp-only", "--allow-shell"} ==>
               flag !in seen && forall j :: 0 <= j < |fs| ==> fs[j].0 != flag
    ensures var r := ReadFlags(seen, Appended(fs), KEY_SWITCHES);
            r.Some? && LimitsAsked(r.value) == UNLIMITED
  {
    hide ReadFlags;
    hide Appended;
    hide With;
    AppendedIsRead(seen, fs, KEY_SWITCHES);
    forall flag | flag in {"--expires", "--from", "--command", "--sftp-only", "--allow-shell"}
      ensures flag !in With(seen, fs)
    {
      WithGives(seen, fs, 0, flag);
    }
  }

  /** The two flags that are always given come first. */
  lemma KeyArgvRead(k: Key)
    ensures KeyStep(k).argv[..2] == ["key", "add"]
    ensures ReadFlags(map[], KeyStep(k).argv[2..], KEY_SWITCHES) ==
            ReadFlags(map["--scope" := k.scope]["--key" := AuthorizedLine(k)], Appended(KeyFields(k)), KEY_SWITCHES)
  {
    KeyArgvParts(k);
    var line, fs := AuthorizedLine(k), Appended(KeyFields(k));
    hide KeyStep;
    hide AuthorizedLine;
    hide Appended;
    hide KeyFields;
    assert KeyStep(k).argv[2..] == ["--scope", k.scope] + (["--key", line] + fs);
    FlagRead(map[], "--scope", k.scope, ["--key", line] + fs, KEY_SWITCHES);
    FlagRead(map["--scope" := k.scope], "--key", line, fs, KEY_SWITCHES);
  }

  /** `key add`, replayed, is given the scope, the whole authorized line, and the tenant, site and
      label the export holds, but none of the key's limits. */
  lemma KeyReplayed(k: Key)
    ensures GrantAsked(KeyStep(k).argv) == Some(GrantOf(k).(limits := UNLIMITED))
  {
    hide KeyStep;
    hide Appended;
    hide ReadFlags;
    hide AuthorizedLine;
    KeyArgvRead(k);
    var fs := KeyFields(k);
    var line := AuthorizedLine(k);
    var seen := map["--scope" := k.scope]["--key" := line];
    assert Appended(fs) + [] == Appended(fs);
    NoLimits(seen, fs);
    assert fs[0].0 == "--user" && fs[1].0 == "--site" && fs[2].0 == "--label";
    hide LimitsAsked;
    hide KeyFields;
    hide DistinctFlags;
    ReadBackFlags(seen, fs, [], KEY_SWITCHES, 0, "--scope");
    ReadBackFlags(seen, fs, [], KEY_SWITCHES, 1, "--key");
    ReadBackFlags(seen, fs, [], KEY_SWITCHES, 2, "--key");
  }

  /** A key comes back as it was exactly when it was not limited. */
  lemma KeyComesBack(k: Key)
    ensures GrantAsked(KeyStep(k).argv) == Some(GrantOf(k)) <==> k.limits == UNLIMITED
  {
    KeyReplayed(k);
    hide GrantAsked;
    hide KeyStep;
  }

  /** A key of the old server that has expired, and was never revoked, is planned like any other, and
      comes back without its expiry. */
  lemma ExpiredKeyComesBack(im: Importer, st: Store, sites: seq<Site>, k: Key)
    requires k.limits == UNLIMITED.(expires := "2020-01-01") && !k.revoked && k.blob != ""
    requires KeyInScope(im, sites, k) && !HasKey(st, k.fingerprint)
    ensures PlanKey(im, st, sites, k).steps == [KeyStep(k)]
    ensures GrantAsked(KeyStep(k).argv) == Some(GrantOf(k).(limits := UNLIMITED)) != Some(GrantOf(k))
  {
    KeyReplayed(k);
    hide GrantAsked;
    hide KeyStep;
  }

  const UNIT_SWITCHES: set<string> := {"--persistent", "--disabled"}

  function UnitFields(u: Unit): Fields {
    [("--schedule", u.schedule), ("--description", u.description), ("--memory-max", u.memoryMax)]
    + if u.job then [("--timeout", u.timeout)] else []
  }

  function UnitOn(u: Unit): seq<string> {
    (if u.job && u.persistent then ["--persistent"] else []) + if u.enabled then [] else ["--disabled"]
  }

  lemma UnitArgvParts(u: Unit)
    ensures UnitArgv(u) == ["site", UnitNoun(u), "add", u.domain, u.name, "--command", u.command]
                           + (Appended(UnitFields(u)) + UnitOn(u))
  {
    var head := ["site", UnitNoun(u), "add", u.domain, u.name, "--command", u.command];
    var fs: Fields := [("--schedule", u.schedule), ("--description", u.description), ("--memory-max", u.memoryMax)];
    assert fs[..1] == [fs[0]] && fs[..2] == fs[..1] + [fs[1]] && fs == fs[..2] + [fs[2]];
    assert head + Appended([]) == head;
    OneMoreAppended([], fs[0], head);
    assert [] + [fs[0]] == fs[..1];
    OneMoreAppended(fs[..1], fs[1], head);
    OneMoreAppended(fs[..2], fs[2], head);
    OneMoreAppended(fs, ("--timeout", u.timeout), head);
    assert fs + [] == fs;
    hide Appended;
    hide AppendIf;
  }

  /** The unit a `site cron add` or `site worker add` asks for. A worker has no schedule, timeout or
      persistence to ask for, and neither has a number of instances. */
  function UnitAsked(argv: seq<string>): Option<Unit>
    requires |argv| >= 5
  {
    var r, job := ReadFlags(map[], argv[5..], UNIT_SWITCHES), argv[1] == "cron";
    if r.None? || (!job && ("--schedule" in r.value || "--timeout" in r.value || "--persistent" in r.value)) then None
    else
      var m := r.value;
      Some(Unit(argv[3], argv[4], job, Given(m, "--command"), Given(m, "--schedule"), Given(m, "--description"),
                Given(m, "--memory-max"), Given(m, "--timeout"), "--persistent" in m, 0, "--disabled" !in m))
  }

  lemma UnitFlags(u: Unit)
    ensures var r := ReadFlags(map[], UnitArgv(u)[5..], UNIT_SWITCHES);
            r.Some? && Given(r.value, "--command") == u.command && Given(r.value, "--schedule") == u.schedule
            && ("--schedule" in r.value <==> u.schedule != "")
            && Given(r.value, "--description") == u.description && Given(r.value, "--memory-max") == u.memoryMax
            && (u.job ==> Given(r.value, "--timeout") == u.timeout)
            && (!u.job ==> "--timeout" !in r.value)
            && ("--persistent" in r.value <==> u.job && u.persistent)
            && ("--disabled" in r.value <==> !u.enabled)
  {
    hide UnitArgv;
    hide Appended;
    hide ReadFlags;
    UnitArgvParts(u);
    var fs, on := UnitFields(u), UnitOn(u);
    var seen := map["--command" := u.command];
    assert UnitArgv(u)[5..] == ["--command", u.command] + (Appended(fs) + on);
    FlagRead(map[], "--command", u.command, Appended(fs) + on, UNIT_SWITCHES);
    assert fs[0].0 == "--schedule" && fs[1].0 == "--description" && fs[2].0 == "--memory-max";
    assert u.job ==> fs[3].0 == "--timeout";
    assert "--persistent" in on <==> u.job && u.persistent;
    assert "--disabled" in on <==> !u.enabled;
    assert forall j :: 0 <= j < |on| ==> on[j] in UNIT_SWITCHES;
    assert !u.job ==> forall j :: 0 <= j < |fs| ==> fs[j].0 != "--timeout";
    hide UnitFields;
    hide UnitOn;
    hide DistinctFlags;
    ReadBackFlags(seen, fs, on, UNIT_SWITCHES, 0, "--command");
    ReadBackFlags(seen, fs, on, UNIT_SWITCHES, 1, "--persistent");
    ReadBackFlags(seen, fs, on, UNIT_SWITCHES, 2, "--disabled");
    ReadBackFlags(seen, fs, on, UNIT_SWITCHES, 3, "--timeout");
  }

  /** A job comes back as it was exactly when it ran once at a time; a worker exactly when it also had
      no schedule, timeout or persistence. */
  lemma UnitComesBack(u: Unit)
    ensures UnitAsked(UnitArgv(u)) == Some(u) <==>
            u.instances == 0 && (u.job || (u.schedule == "" && u.timeout == "" && !u.persistent))
  {
    UnitFlags(u);
    UnitArgvParts(u);
    hide ReadFlags;
    hide UnitFields;
    hide UnitOn;
    hide Appended;
    hide UnitArgv;
  }
}
