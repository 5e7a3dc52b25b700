/** The environment file as cmd/ratline-shell/exec.go reads it at service start, by the rules of
    systemd.exec(5) EnvironmentFile=, and its merge over the unit's environment. */
module ExecEnv {
  import opened Text
  import opened Bindings

  // ----- logical lines ----------------------------------------------------------------------------

  /** The line ends in one backslash, not in two. */
  predicate Continues(s: string) {
    s != "" && s[|s| - 1] == '\\' && !(|s| >= 2 && s[|s| - 2] == '\\')
  }

  function WithoutCR(line: string): string {
    TrimRight(line, {'\r'})
  }

  /** The logical lines, with `cur` already read of the first. */
  function Joined(lines: seq<string>, cur: string): seq<string>
    decreases |lines|
  {
    if lines == [] then (if cur != "" then [cur] else [])
    else
      var s := WithoutCR(lines[0]);
      if Continues(s) then Joined(lines[1..], cur + s[..|s| - 1])
      else [cur + s] + Joined(lines[1..], "")
  }

  method SplitContinuedLines(data: string) returns (out: seq<string>)
    ensures out == Joined(Split(data, '\n'), "")
  {
    var lines := Split(data, '\n');
    out := [];
    var cur := "";
    for i := 0 to |lines|
      invariant Joined(lines, "") == out + Joined(lines[i..], cur)
    {
      assert lines[i..][1..] == lines[i + 1..];
      var s := WithoutCR(lines[i]);
      ghost var rest := lines[i + 1..];
      if Continues(s) {
        cur := cur + s[..|s| - 1];
        continue;
      }
      assert out + ([cur + s] + Joined(rest, "")) == (out + [cur + s]) + Joined(rest, "");
      out := out + [cur + s];
      cur := "";
    }
    if |cur| > 0 {
      out := out + [cur];
    }
  }

  /** Without a continuation every line is its own, less its carriage returns. */
  function Stripped(lines: seq<string>): seq<string> {
    seq(|lines|, i requires 0 <= i < |lines| => WithoutCR(lines[i]))
  }

  lemma {:induction false} NothingToJoin(lines: seq<string>)
    requires forall i :: 0 <= i < |lines| ==> !Continues(WithoutCR(lines[i]))
    ensures Joined(lines, "") == Stripped(lines)
    decreases |lines|
  {
    if lines != [] {
      NothingToJoin(lines[1..]);
      assert "" + WithoutCR(lines[0]) == WithoutCR(lines[0]);
      assert Stripped(lines) == [WithoutCR(lines[0])] + Stripped(lines[1..]);
    }
  }

  // ----- values -----------------------------------------------------------------------------------

  datatype ValueError = UnterminatedQuote | TextAfterQuote

  type Read = Option<(string, nat)>

  function Prefixed(b: string, r: Read): Read {
    match r case None => None case Some((t, end)) => Some((b + t, end))
  }

  lemma PrefixedStep(b: string, c: char, r: Read)
    ensures Prefixed(b, Prefixed([c], r)) == Prefixed(b + [c], r)
    ensures Prefixed("", r) == r
  {
    if r.Some? {
      Assoc(b, [c], r.value.0);
      assert "" + r.value.0 == r.value.0;
    }
  }

  /** The text up to the closing quote `q`, and where that is; None when there is none. */
  function Quoted(s: string, q: char, i: nat): (r: Read)
    requires i <= |s|
    ensures r.Some? ==> r.value.1 < |s|
    decreases |s| - i
  {
    if i == |s| then None
    else if s[i] == '\\' && i + 1 < |s| then Prefixed([s[i + 1]], Quoted(s, q, i + 2))
    else if s[i] == q then Some(("", i))
    else Prefixed([s[i]], Quoted(s, q, i + 1))
  }

  function Unescaped(s: string): string {
    if s == "" then ""
    else if s[0] == '\\' && |s| > 1 then [s[1]] + Unescaped(s[2..])
    else [s[0]] + Unescaped(s[1..])
  }

  function UnquoteValue(value: string): Result<string, ValueError> {
    var s := TrimLeft(value, BLANK);
    if s == "" then Ok("")
    else if s[0] == '"' || s[0] == '\'' then
      match Quoted(s, s[0], 1)
      case None => Err(UnterminatedQuote)
      case Some((t, end)) =>
        var tail := TrimSpace(s[end + 1..]);
        if tail != "" && tail[0] != '#' && tail[0] != ';' then Err(TextAfterQuote) else Ok(t)
    else Ok(Unescaped(TrimRight(s, BLANK)))
  }

  method ReadQuoted(s: string, q: char) returns (r: Read)
    requires |s| >= 1
    ensures r == Quoted(s, q, 1)
  {
    var b := "";
    var i := 1;
    PrefixedStep("", q, Quoted(s, q, 1));
    while i < |s|
      invariant 1 <= i <= |s|
      invariant Quoted(s, q, 1) == Prefixed(b, Quoted(s, q, i))
      decreases |s| - i
    {
      var c := s[i];
      if c == '\\' && i + 1 < |s| {
        i := i + 1;
        c := s[i];
      } else if c == q {
        assert b + "" == b;
        return Some((b, i));
      }
      PrefixedStep(b, c, Quoted(s, q, i + 1));
      b := b + [c];
      i := i + 1;
    }
    return None;
  }

  method ReadUnquoted(s: string) returns (b: string)
    ensures b == Unescaped(s)
  {
    b := "";
    var i := 0;
    while i < |s|
      invariant 0 <= i <= |s| && Unescaped(s) == b + Unescaped(s[i..])
      decreases |s| - i
    {
      assert s[i..][1..] == s[i + 1..];
      assert |s[i..]| > 1 ==> s[i..][2..] == s[i + 2..];
      if s[i] == '\\' && i + 1 < |s| {
        i := i + 1;
      }
      b := b + [s[i]];
      i := i + 1;
    }
  }

  method UnquoteEnvValue(value: string) returns (r: Result<string, ValueError>)
    ensures r == UnquoteValue(value)
  {
    var s := TrimLeft(value, BLANK);
    if s == "" {
      return Ok("");
    }
    if s[0] == '"' || s[0] == '\'' {
      var quoted := ReadQuoted(s, s[0]);
      if quoted.None? {
        return Err(UnterminatedQuote);
      }
      var tail := TrimSpace(s[quoted.value.1 + 1..]);
      if tail != "" && tail[0] != '#' && tail[0] != ';' {
        return Err(TextAfterQuote);
      }
      return Ok(quoted.value.0);
    }
    var text := ReadUnquoted(TrimRight(s, BLANK));
    return Ok(text);
  }

  // ----- lines ------------------------------------------------------------------------------------

  predicate NameByte(c: char, first: bool) {
    c == '_' || 'A' <= c <= 'Z' || 'a' <= c <= 'z' || ('0' <= c <= '9' && !first)
  }

  predicate ValidName(name: string) {
    name != "" && forall i :: 0 <= i < |name| ==> NameByte(name[i], i == 0)
  }

  datatype Reading =
    | Nothing
    | Assigned(b: Binding)
    | NotAssignment
    | BadValue(name: string, e: ValueError)
    | HasNul(name: string)

  function ReadLine(raw: string): Reading {
    var line := TrimLeft(raw, BLANK);
    if line == "" || line[0] == '#' || line[0] == ';' then Nothing
    else match Cut(line, '=')
      case None => NotAssignment
      case Some((k, rest)) =>
        var key := TrimSpace(k);
        if !ValidName(key) then NotAssignment
        else match UnquoteValue(rest)
          case Err(e) => BadValue(key, e)
          case Ok(v) => if '\0' in v then HasNul(key) else Assigned((key, v))
  }

  function Assignments(lines: seq<string>): seq<Binding> {
    if lines == [] then []
    else
      (match ReadLine(lines[0]) case Assigned(b) => [b] case _ => []) + Assignments(lines[1..])
  }

  /** How many lines are warned about. */
  function Warnings(lines: seq<string>): nat {
    if lines == [] then 0
    else (match ReadLine(lines[0]) case Assigned(_) => 0 case Nothing => 0 case _ => 1) + Warnings(lines[1..])
  }

  function EnvPairs(data: string): seq<Binding> {
    Assignments(Joined(Split(data, '\n'), ""))
  }

  lemma Splice(a: seq<Binding>, b: seq<Binding>, c: seq<Binding>)
    ensures a + (b + c) == (a + b) + c
  {
  }

  lemma {:induction false} AssignmentsConcat(a: seq<string>, b: seq<string>)
    ensures Assignments(a + b) == Assignments(a) + Assignments(b)
    ensures Warnings(a + b) == Warnings(a) + Warnings(b)
  {
    hide ReadLine;
    if a == [] {
      assert a + b == b;
    } else {
      AssignmentsConcat(a[1..], b);
      assert (a + b)[1..] == a[1..] + b;
      Splice((match ReadLine(a[0]) case Assigned(e) => [e] case _ => []), Assignments(a[1..]), Assignments(b));
    }
  }

  method ReadOne(raw: string) returns (r: Reading)
    ensures r == ReadLine(raw)
  {
    var line := TrimLeft(raw, BLANK);
    if line == "" || line[0] == '#' || line[0] == ';' {
      return Nothing;
    }
    var cut := Cut(line, '=');
    if cut.None? || !ValidName(TrimSpace(cut.value.0)) {
      return NotAssignment;
    }
    var key := TrimSpace(cut.value.0);
    var value := UnquoteEnvValue(cut.value.1);
    if value.Err? {
      return BadValue(key, value.error);
    }
    if '\0' in value.value {
      return HasNul(key);
    }
    return Assigned((key, value.value));
  }

  /** parseEnvFile: the assignments in order, and one warning for each line that is neither an
      assignment nor skipped. */
  method ParseEnvFile(data: string) returns (pairs: seq<Binding>, warnings: nat)
    ensures pairs == EnvPairs(data)
    ensures warnings == Warnings(Joined(Split(data, '\n'), ""))
  {
    var lines := SplitContinuedLines(data);
    pairs, warnings := [], 0;
    hide ReadLine;
    for n := 0 to |lines|
      invariant pairs == Assignments(lines[..n]) && warnings == Warnings(lines[..n])
    {
      assert lines[..n + 1] == lines[..n] + [lines[n]];
      AssignmentsConcat(lines[..n], [lines[n]]);
      var r := ReadOne(lines[n]);
      match r {
        case Nothing =>
        case Assigned(b) => pairs := pairs + [b];
        case _ => warnings := warnings + 1;
      }
    }
    assert lines[..|lines|] == lines;
  }

  // ----- the merge --------------------------------------------------------------------------------

  function NameOf(kv: string): string {
    match Cut(kv, '=') case None => kv case Some((k, _)) => k
  }

  function Assignment(b: Binding): string {
    b.0 + "=" + b.1
  }

  /** Everything mergeEnv reads, in order, by name. */
  function Entries(base: seq<string>, pairs: seq<Binding>): seq<Binding> {
    seq(|base|, i requires 0 <= i < |base| => (NameOf(base[i]), base[i]))
    + seq(|pairs|, i requires 0 <= i < |pairs| => (pairs[i].0, Assignment(pairs[i])))
  }

  /** One entry for each name, in the order of first appearance, with its last value. */
  function Merged(entries: seq<Binding>): seq<string> {
    var ns := Names(entries);
    seq(|ns|, i requires 0 <= i < |ns| =>
      match LastOf(entries, ns[i]) case None => "" case Some(kv) => kv)
  }

  /** The index map of mergeEnv: the position of each name. */
  ghost predicate Indexes(index: map<string, nat>, ns: seq<string>) {
    (forall n :: n in index <==> n in ns)
    && (forall n :: n in index ==> index[n] < |ns| && ns[index[n]] == n)
  }

  /** One entry more: its slot is overwritten, or it is appended. */
  lemma MergeStep(entries: seq<Binding>, e: Binding, index: map<string, nat>)
    requires Indexes(index, Names(entries))
    ensures var ns, out := Names(entries), Merged(entries);
            if e.0 in index then
              Names(entries + [e]) == ns && Merged(entries + [e]) == out[index[e.0] := e.1]
            else
              Names(entries + [e]) == ns + [e.0] && Merged(entries + [e]) == out + [e.1]
              && Indexes(index[e.0 := |out|], ns + [e.0])
  {
    var more, ns := entries + [e], Names(entries);
    assert more[..|more| - 1] == entries;
    NamesAreDistinct(entries);
    NamesAreBound(entries, e.0);
    var out, out' := Merged(entries), Merged(more);
    if e.0 in index {
      forall i | 0 <= i < |ns| ensures out'[i] == out[index[e.0] := e.1][i] {
        assert ns[i] == e.0 <==> i == index[e.0];
      }
    } else {
      var ns' := ns + [e.0];
      forall i | 0 <= i < |ns'| ensures out'[i] == (out + [e.1])[i] {
      }
    }
  }

  /** What mergeEnv holds after the first `n` entries. */
  ghost predicate MergedSoFar(all: seq<Binding>, n: nat, index: map<string, nat>, out: seq<string>) {
    n <= |all| && out == Merged(all[..n]) && Indexes(index, Names(all[..n]))
  }

  /** The next entry, over the slot of its name or behind the others. */
  method MergeOne(ghost all: seq<Binding>, ghost n: nat, index: map<string, nat>, out: seq<string>,
                  k: string, kv: string)
    returns (index': map<string, nat>, out': seq<string>)
    requires n < |all| && all[n] == (k, kv) && MergedSoFar(all, n, index, out)
    ensures MergedSoFar(all, n + 1, index', out')
  {
    assert all[..n + 1] == all[..n] + [(k, kv)];
    MergeStep(all[..n], (k, kv), index);
    if k in index {
      index', out' := index, out[index[k] := kv];
    } else {
      index', out' := index[k := |out|], out + [kv];
    }
  }

  method MergeEnv(base: seq<string>, pairs: seq<Binding>) returns (out: seq<string>)
    ensures out == Merged(Entries(base, pairs))
  {
    var index: map<string, nat> := map[];
    out := [];
    ghost var all := Entries(base, pairs);
    assert MergedSoFar(all, 0, index, out);
    hide MergedSoFar;
    for i := 0 to |base|
      invariant MergedSoFar(all, i, index, out)
    {
      index, out := MergeOne(all, i, index, out, NameOf(base[i]), base[i]);
    }
    for i := 0 to |pairs|
      invariant MergedSoFar(all, |base| + i, index, out)
    {
      var kv := pairs[i].0 + "=" + pairs[i].1;
      index, out := MergeOne(all, |base| + i, index, out, pairs[i].0, kv);
    }
    AllMerged(all, index, out);
  }

  lemma AllMerged(all: seq<Binding>, index: map<string, nat>, out: seq<string>)
    requires MergedSoFar(all, |all|, index, out)
    ensures out == Merged(all)
  {
    assert all[..|all|] == all;
  }

  // ----- looking a name up --------------------------------------------------------------------------

  function Lookup(env: seq<string>, name: string): string {
    if env == [] then ""
    else match Cut(env[|env| - 1], '=')
      case None => Lookup(env[..|env| - 1], name)
      case Some((k, v)) => if k == name then v else Lookup(env[..|env| - 1], name)
  }

  method LookupEnv(env: seq<string>, name: string) returns (v: string)
    ensures v == Lookup(env, name)
  {
    var i := |env| - 1;
    assert env[..|env|] == env;
    while i >= 0
      invariant -1 <= i < |env|
      invariant Lookup(env, name) == Lookup(env[..i + 1], name)
    {
      assert env[..i + 1][..i] == env[..i];
      var cut := Cut(env[i], '=');
      if cut.Some? && cut.value.0 == name {
        return cut.value.1;
      }
      i := i - 1;
    }
    return "";
  }

  /** Every entry of the environment is an assignment. */
  predicate WellFormed(env: seq<string>) {
    forall i :: 0 <= i < |env| ==> Cut(env[i], '=').Some?
  }

  /** The environment as a list of named values. */
  function Valued(env: seq<string>): seq<Binding> {
    seq(|env|, i requires 0 <= i < |env| =>
      match Cut(env[i], '=') case None => (env[i], "") case Some(b) => b)
  }

  lemma {:induction false} LookupIsLast(env: seq<string>, name: string)
    requires WellFormed(env)
    ensures Lookup(env, name) == match LastOf(Valued(env), name) case None => "" case Some(v) => v
  {
    if env != [] {
      LookupIsLast(env[..|env| - 1], name);
      assert Valued(env)[..|env| - 1] == Valued(env[..|env| - 1]);
    }
  }

  predicate NamesWithoutEquals(pairs: seq<Binding>) {
    forall i :: 0 <= i < |pairs| ==> '=' !in pairs[i].0
  }

  lemma EntryCut(base: seq<string>, pairs: seq<Binding>, i: nat)
    requires WellFormed(base) && NamesWithoutEquals(pairs) && i < |base| + |pairs|
    ensures var all, e := Valued(base) + pairs, Entries(base, pairs)[i];
            Cut(e.1, '=') == Some(all[i]) && e.0 == all[i].0
  {
    if i >= |base| {
      var p := pairs[i - |base|];
      CutUnique(p.0, '=', p.1);
    }
  }

  /** The entries and the values they carry are bound alike. */
  ghost predicate Alike(entries: seq<Binding>, all: seq<Binding>) {
    Names(entries) == Names(all)
    && (forall n :: LastOf(entries, n).Some? <==> LastOf(all, n).Some?)
    && (forall n :: LastOf(entries, n).Some? ==>
          Cut(LastOf(entries, n).value, '=') == Some((n, LastOf(all, n).value)))
  }

  lemma {:induction false} EntriesAlike(entries: seq<Binding>, all: seq<Binding>)
    requires |entries| == |all|
    requires forall i :: 0 <= i < |all| ==> entries[i].0 == all[i].0 && Cut(entries[i].1, '=') == Some(all[i])
    ensures Alike(entries, all)
  {
    if all != [] {
      EntriesAlike(entries[..|all| - 1], all[..|all| - 1]);
    }
  }

  lemma EnvEntriesAlike(base: seq<string>, pairs: seq<Binding>)
    requires WellFormed(base) && NamesWithoutEquals(pairs)
    ensures Alike(Entries(base, pairs), Valued(base) + pairs)
  {
    var entries, all := Entries(base, pairs), Valued(base) + pairs;
    forall i | 0 <= i < |all|
      ensures entries[i].0 == all[i].0 && Cut(entries[i].1, '=') == Some(all[i])
    {
      EntryCut(base, pairs, i);
    }
    EntriesAlike(entries, all);
  }

  /** mergeEnv is map override: after it a name has the last value of the file's pairs, or else
      the value it had before. */
  lemma MergeOverrides(base: seq<string>, pairs: seq<Binding>, name: string)
    requires WellFormed(base) && NamesWithoutEquals(pairs)
    ensures Lookup(Merged(Entries(base, pairs)), name) ==
            match LastOf(pairs, name) case None => Lookup(base, name) case Some(v) => v
  {
    var entries, all := Entries(base, pairs), Valued(base) + pairs;
    EnvEntriesAlike(base, pairs);
    MergedValues(entries, all);
    LookupIsLast(Merged(entries), name);
    LastOfConcat(Valued(base), pairs, name);
    LookupIsLast(base, name);
  }

  lemma MergedAt(entries: seq<Binding>, i: nat)
    requires i < |Names(entries)|
    ensures LastOf(entries, Names(entries)[i]).Some?
    ensures Merged(entries)[i] == LastOf(entries, Names(entries)[i]).value
  {
    NamesAreBound(entries, Names(entries)[i]);
  }

  /** The merged environment as named values: each name once, with its last value. */
  lemma MergedValues(entries: seq<Binding>, all: seq<Binding>)
    requires Alike(entries, all)
    ensures WellFormed(Merged(entries)) && |Merged(entries)| == |Names(all)|
    ensures Names(Valued(Merged(entries))) == Names(all)
    ensures forall n :: LastOf(Valued(Merged(entries)), n) == LastOf(all, n)
  {
    var env, ns := Merged(entries), Names(all);
    forall i | 0 <= i < |env|
      ensures LastOf(all, ns[i]).Some? && Cut(env[i], '=') == Some((ns[i], LastOf(all, ns[i]).value))
    {
      MergedAt(entries, i);
    }
    var vs := Valued(env);
    NamesAreDistinct(all);
    DistinctNames(vs, ns);
    forall n ensures LastOf(vs, n) == LastOf(all, n) {
      NamesAreBound(all, n);
      NamesAreBound(vs, n);
      if n in ns {
        var i :| 0 <= i < |ns| && ns[i] == n;
        assert LastOf(vs, ns[i]) == Some(vs[i].1);
      }
    }
  }

  /** Each name once, in the order of first appearance. */
  lemma MergedNames(base: seq<string>, pairs: seq<Binding>)
    requires WellFormed(base) && NamesWithoutEquals(pairs)
    ensures var out, all := Merged(Entries(base, pairs)), Valued(base) + pairs;
            WellFormed(out) && |out| == |Names(all)| && Distinct(Names(all))
            && forall i :: 0 <= i < |out| ==> Valued(out)[i].0 == Names(all)[i]
  {
    var entries, all := Entries(base, pairs), Valued(base) + pairs;
    EnvEntriesAlike(base, pairs);
    NamesAreDistinct(all);
    forall i | 0 <= i < |Names(all)|
      ensures Cut(Merged(entries)[i], '=').Some? && Cut(Merged(entries)[i], '=').value.0 == Names(all)[i]
    {
      MergedAt(entries, i);
    }
  }

  // ----- PATH is the unit's ---------------------------------------------------------------------------

  function NotNamed(pairs: seq<Binding>, name: string): seq<Binding> {
    if pairs == [] then []
    else NotNamed(pairs[..|pairs| - 1], name) + if pairs[|pairs| - 1].0 == name then [] else [pairs[|pairs| - 1]]
  }

  method WithoutPath(pairs: seq<Binding>) returns (out: seq<Binding>, dropped: bool)
    ensures out == NotNamed(pairs, "PATH")
    ensures dropped <==> exists i :: 0 <= i < |pairs| && pairs[i].0 == "PATH"
  {
    out, dropped := [], false;
    for i := 0 to |pairs|
      invariant out == NotNamed(pairs[..i], "PATH")
      invariant dropped <==> exists j :: 0 <= j < i && pairs[j].0 == "PATH"
    {
      assert pairs[..i + 1][..i] == pairs[..i];
      if pairs[i].0 == "PATH" {
        dropped := true;
      } else {
        out := out + [pairs[i]];
      }
    }
    assert pairs[..|pairs|] == pairs;
  }

  lemma {:induction false} NotNamedKeeps(pairs: seq<Binding>, name: string, n: string)
    ensures LastOf(NotNamed(pairs, name), n) == if n == name then None else LastOf(pairs, n)
  {
    if pairs != [] {
      var front, last := pairs[..|pairs| - 1], pairs[|pairs| - 1];
      NotNamedKeeps(front, name, n);
      var kept := NotNamed(front, name);
      if last.0 == name {
        assert kept + [] == kept;
      } else {
        LastOfConcat(kept, [last], n);
        assert [last][..0] == [];
      }
    }
  }

  lemma {:induction false} NotNamedIsPart(pairs: seq<Binding>, name: string)
    requires NamesWithoutEquals(pairs)
    ensures NamesWithoutEquals(NotNamed(pairs, name))
  {
    if pairs != [] {
      NotNamedIsPart(pairs[..|pairs| - 1], name);
    }
  }

  /** Whatever the environment file says, PATH stays what the unit made it; every other name gets
      the file's last value. */
  lemma PathIsTheUnits(base: seq<string>, pairs: seq<Binding>, name: string)
    requires WellFormed(base) && NamesWithoutEquals(pairs)
    ensures var env := Merged(Entries(base, NotNamed(pairs, "PATH")));
            Lookup(env, "PATH") == Lookup(base, "PATH")
            && (name != "PATH" ==>
                  Lookup(env, name) == match LastOf(pairs, name) case None => Lookup(base, name) case Some(v) => v)
  {
    NotNamedKeeps(pairs, "PATH", "PATH");
    NotNamedKeeps(pairs, "PATH", name);
    NotNamedIsPart(pairs, "PATH");
    MergeOverrides(base, NotNamed(pairs, "PATH"), "PATH");
    MergeOverrides(base, NotNamed(pairs, "PATH"), name);
  }

  /** And the pairs that are read always have names without '='. */
  lemma {:induction false} ReadNamesAreValid(lines: seq<string>)
    ensures forall i :: 0 <= i < |Assignments(lines)| ==> ValidName(Assignments(lines)[i].0)
    ensures NamesWithoutEquals(Assignments(lines))
  {
    if lines != [] {
      ReadNamesAreValid(lines[1..]);
    }
  }
}
