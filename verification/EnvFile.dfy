/** The `.env` editor (internal/cli/cmd_site_env.go): a list of preserved lines, a map of values and the
    order of its names, read from a file, edited and rendered again. Every operation keeps the order a
    list of exactly the names in the map. */
module EnvFile {
  import opened Text
  import opened Bindings
  import ExecEnv

  /** The state of an envFile. */
  datatype Env = Env(lines: seq<string>, values: map<string, string>, order: seq<string>)

  const EMPTY := Env([], map[], [])

  // ----- validation of what is set ------------------------------------------------------------------

  const MAX_KEY := 128
  const MAX_VALUE := 32768

  predicate KeyAllowed(k: string) {
    |k| <= MAX_KEY && ExecEnv.ValidName(k)
  }

  predicate ValueAllowed(v: string) {
    '\0' !in v && '\n' !in v && '\r' !in v && |v| <= MAX_VALUE
  }

  const SENSITIVE: set<string> := {"LD_PRELOAD", "LD_LIBRARY_PATH", "LD_AUDIT", "DYLD_INSERT_LIBRARIES"}

  predicate MaySet(k: string, v: string) {
    KeyAllowed(k) && ValueAllowed(v) && k !in SENSITIVE
  }

  // ----- reading ------------------------------------------------------------------------------------

  /** A line that is neither blank nor a comment, cut at its '='. */
  function BindingOf(line: string): Option<Binding> {
    var trimmed := TrimSpace(line);
    if trimmed == "" || trimmed[0] == '#' then None
    else match Cut(trimmed, '=')
      case None => None
      case Some((k, v)) => Some((TrimSpace(k), v))
  }

  function Put(e: Env, k: string, v: string): Env {
    Env(e.lines, e.values[k := v], if k in e.values then e.order else e.order + [k])
  }

  function AddLine(e: Env, line: string): Env {
    match BindingOf(line)
    case None => e.(lines := e.lines + [line])
    case Some((k, v)) => Put(e, k, v)
  }

  function AddLines(e: Env, lines: seq<string>): Env {
    if lines == [] then e else AddLine(AddLines(e, lines[..|lines| - 1]), lines[|lines| - 1])
  }

  function Parse(data: string): Env {
    AddLines(EMPTY, Split(data, '\n'))
  }

  function Remove(e: Env, k: string): Env {
    if k in e.values then Env(e.lines, e.values - {k}, Without(e.order, k)) else e
  }

  function Without(ns: seq<string>, k: string): seq<string> {
    if ns == [] then []
    else Without(ns[..|ns| - 1], k) + if ns[|ns| - 1] == k then [] else [ns[|ns| - 1]]
  }

  // ----- rendering ----------------------------------------------------------------------------------

  /** Each line, and a newline behind it. */
  function Unlines(lines: seq<string>): string {
    if lines == [] then "" else Unlines(lines[..|lines| - 1]) + lines[|lines| - 1] + "\n"
  }

  function NotBlank(lines: seq<string>): seq<string> {
    if lines == [] then []
    else NotBlank(lines[..|lines| - 1])
         + if TrimSpace(lines[|lines| - 1]) == "" then [] else [lines[|lines| - 1]]
  }

  function BindingLines(values: map<string, string>, order: seq<string>): seq<string>
    requires forall i :: 0 <= i < |order| ==> order[i] in values
  {
    seq(|order|, i requires 0 <= i < |order| => order[i] + "=" + values[order[i]])
  }

  function RenderedHead(e: Env): seq<string> {
    NotBlank(e.lines) + if e.lines == [] then [] else [""]
  }

  function RenderedLines(e: Env): seq<string>
    requires Ordered(e)
  {
    RenderedHead(e) + BindingLines(e.values, e.order)
  }

  function Render(e: Env): string
    requires Ordered(e)
  {
    Unlines(RenderedLines(e))
  }

  /** The class invariant: the order lists the keys, each once. */
  predicate Ordered(e: Env) {
    Distinct(e.order)
    && (forall i :: 0 <= i < |e.order| ==> e.order[i] in e.values)
    && (forall k :: k in e.values ==> k in e.order)
  }

  function Pairs(e: Env): seq<Binding>
    requires Ordered(e)
  {
    seq(|e.order|, i requires 0 <= i < |e.order| => (e.order[i], e.values[e.order[i]]))
  }

  // ----- the invariant is kept ------------------------------------------------------------------------

  lemma PutIsOrdered(e: Env, k: string, v: string)
    requires Ordered(e)
    ensures Ordered(Put(e, k, v))
  {
    var e' := Put(e, k, v);
    forall n | n in e'.values ensures n in e'.order {
      if n != k {
        assert n in e.values;
      }
    }
  }

  lemma {:induction false} WithoutKeeps(ns: seq<string>, k: string)
    ensures forall n :: n in Without(ns, k) <==> n in ns && n != k
  {
    if ns != [] {
      WithoutKeeps(ns[..|ns| - 1], k);
      assert ns == ns[..|ns| - 1] + [ns[|ns| - 1]];
    }
  }

  lemma {:induction false} WithoutIsDistinct(ns: seq<string>, k: string)
    requires Distinct(ns)
    ensures Distinct(Without(ns, k))
  {
    if ns != [] {
      var front, last := ns[..|ns| - 1], ns[|ns| - 1];
      WithoutIsDistinct(front, k);
      WithoutKeeps(front, k);
      assert last !in front by {
        assert forall i :: 0 <= i < |front| ==> front[i] == ns[i] != last;
      }
      var kept := Without(front, k);
      assert forall i :: 0 <= i < |kept| ==> kept[i] in kept;
    }
  }

  lemma RemoveIsOrdered(e: Env, k: string)
    requires Ordered(e)
    ensures Ordered(Remove(e, k))
  {
    WithoutKeeps(e.order, k);
    WithoutIsDistinct(e.order, k);
    var kept := Without(e.order, k);
    forall i | 0 <= i < |kept| ensures kept[i] in e.values && kept[i] != k {
      assert kept[i] in kept;
      assert kept[i] in e.order;
    }
  }

  /** Unsetting what was just added leaves what there was. */
  lemma RemoveUndoesPut(e: Env, k: string, v: string)
    requires Ordered(e) && k !in e.values
    ensures Remove(Put(e, k, v), k) == e
  {
    assert (e.order + [k])[..|e.order + [k]| - 1] == e.order;
    WithoutAbsent(e.order, k);
    assert Without(e.order, k) + [] == e.order;
    assert e.values[k := v] - {k} == e.values;
  }

  lemma {:induction false} WithoutAbsent(ns: seq<string>, k: string)
    requires k !in ns
    ensures Without(ns, k) == ns
  {
    if ns != [] {
      WithoutAbsent(ns[..|ns| - 1], k);
    }
  }

  lemma {:induction false} AddLinesOrdered(e: Env, lines: seq<string>)
    requires Ordered(e)
    ensures Ordered(AddLines(e, lines))
  {
    if lines != [] {
      AddLinesOrdered(e, lines[..|lines| - 1]);
      var b := BindingOf(lines[|lines| - 1]);
      if b.Some? {
        PutIsOrdered(AddLines(e, lines[..|lines| - 1]), b.value.0, b.value.1);
      }
    }
  }

  lemma ParseIsOrdered(data: string)
    ensures Ordered(Parse(data))
  {
    AddLinesOrdered(EMPTY, Split(data, '\n'));
  }

  // ----- what reading means: last value, first place ----------------------------------------------------

  function BindingsIn(lines: seq<string>): seq<Binding> {
    if lines == [] then []
    else BindingsIn(lines[..|lines| - 1])
         + match BindingOf(lines[|lines| - 1]) case None => [] case Some(b) => [b]
  }

  function Preserved(lines: seq<string>): seq<string> {
    if lines == [] then []
    else Preserved(lines[..|lines| - 1])
         + match BindingOf(lines[|lines| - 1]) case None => [lines[|lines| - 1]] case Some(_) => []
  }

  /** Reading keeps every other line in order, and of the bindings the last value of each name in
      the order of first appearance. */
  lemma {:induction false} ParseMeans(lines: seq<string>)
    ensures var e, bs := AddLines(EMPTY, lines), BindingsIn(lines);
            e.lines == Preserved(lines) && e.order == Names(bs)
            && (forall k :: k in e.values <==> LastOf(bs, k).Some?)
            && (forall k :: k in e.values ==> LastOf(bs, k) == Some(e.values[k]))
  {
    if lines != [] {
      var front, last := lines[..|lines| - 1], lines[|lines| - 1];
      ParseMeans(front);
      var bs := BindingsIn(front);
      match BindingOf(last) {
        case None => assert BindingsIn(lines) == bs;
        case Some(b) =>
          assert (bs + [b])[..|bs + [b]| - 1] == bs;
          NamesAreBound(bs, b.0);
      }
    }
  }

  // ----- the class --------------------------------------------------------------------------------------

  class EnvEditor {
    var lines: seq<string>
    var values: map<string, string>
    var order: seq<string>

    function State(): Env
      reads this
    {
      Env(lines, values, order)
    }

    predicate Valid()
      reads this
    {
      Ordered(State())
    }

    /** openEnvFile: an absent file is an empty one. */
    constructor (data: Option<string>)
      ensures Valid()
      ensures State() == if data.None? then EMPTY else Parse(data.value)
    {
      lines, values, order := [], map[], [];
      new;
      if data.Some? {
        var read := Split(data.value, '\n');
        for i := 0 to |read|
          invariant State() == AddLines(EMPTY, read[..i])
        {
          assert read[..i + 1][..i] == read[..i];
          AddOne(read[i]);
        }
        assert read[..|read|] == read;
        ParseIsOrdered(data.value);
      }
    }

    /** One turn of the reading loop. */
    method AddOne(line: string)
      modifies this
      ensures State() == AddLine(old(State()), line)
    {
      var trimmed := TrimSpace(line);
      if trimmed == "" || trimmed[0] == '#' {
        lines := lines + [line];
        return;
      }
      var cut := Cut(trimmed, '=');
      if cut.None? {
        lines := lines + [line];
        return;
      }
      var key := TrimSpace(cut.value.0);
      if key !in values {
        order := order + [key];
      }
      values := values[key := cut.value.1];
    }

    method Set(key: string, value: string) returns (ok: bool)
      requires Valid()
      modifies this
      ensures Valid()
      ensures ok <==> MaySet(key, value)
      ensures State() == if ok then Put(old(State()), key, value) else old(State())
    {
      if !KeyAllowed(key) || !ValueAllowed(value) || key in SENSITIVE {
        return false;
      }
      PutIsOrdered(State(), key, value);
      if key !in values {
        order := order + [key];
      }
      values := values[key := value];
      return true;
    }

    method Unset(key: string) returns (found: bool)
      requires Valid()
      modifies this
      ensures Valid()
      ensures found <==> key in old(values)
      ensures State() == Remove(old(State()), key)
    {
      if key !in values {
        return false;
      }
      RemoveIsOrdered(State(), key);
      values := values - {key};
      var kept := [];
      for i := 0 to |order|
        invariant kept == Without(order[..i], key)
        invariant order == old(order) && values == old(values) - {key} && lines == old(lines)
      {
        assert order[..i + 1][..i] == order[..i];
        if order[i] != key {
          kept := kept + [order[i]];
        }
      }
      assert order[..|order|] == order;
      order := kept;
      return true;
    }

    /** The preserved lines that are not blank. */
    method RenderLines() returns (b: string)
      ensures b == Unlines(NotBlank(lines))
    {
      b := "";
      for i := 0 to |lines|
        invariant b == Unlines(NotBlank(lines[..i]))
      {
        assert lines[..i + 1][..i] == lines[..i];
        ghost var kept := NotBlank(lines[..i]);
        assert kept + [] == kept;
        if TrimSpace(lines[i]) == "" {
          continue;
        }
        b := b + lines[i] + "\n";
      }
      assert lines[..|lines|] == lines;
    }

    /** Everything before the bindings: those lines, and a blank one if there are any at all. */
    method RenderHead() returns (b: string)
      ensures b == Unlines(RenderedHead(State()))
    {
      b := RenderLines();
      assert NotBlank(lines) + [] == NotBlank(lines);
      if |lines| > 0 {
        b := b + "" + "\n";
      }
    }

    method RenderText() returns (b: string)
      requires Valid()
      ensures b == Render(State())
    {
      b := RenderHead();
      ghost var head, tail := RenderedHead(State()), BindingLines(values, order);
      assert head + tail[..0] == head;
      hide Unlines;
      for i := 0 to |order|
        invariant b == Unlines(head + tail[..i])
      {
        UnlinesGrow(head, tail, i);
        b := b + (order[i] + "=" + values[order[i]]) + "\n";
      }
      assert tail[..|order|] == tail;
    }
  }

  lemma UnlinesGrow(head: seq<string>, tail: seq<string>, i: nat)
    requires i < |tail|
    ensures Unlines(head + tail[..i + 1]) == Unlines(head + tail[..i]) + tail[i] + "\n"
  {
    assert head + tail[..i + 1] == (head + tail[..i]) + [tail[i]];
  }
}
