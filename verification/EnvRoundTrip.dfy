/** The two ends of a site's environment file agree: what the editor renders, the editor reads
    again, and the wrapper reads at service start. */
module EnvRoundTrip {
  import opened Text
  import opened Bindings
  import opened EnvFile
  import opened ExecEnv

  lemma {:induction false} UnlinesSplit(lines: seq<string>)
    requires Free(lines, '\n')
    ensures Split(Unlines(lines), '\n') == lines + [""]
  {
    if lines == [] {
      SplitCons("", '\n', "");
    } else {
      var front, last := lines[..|lines| - 1], lines[|lines| - 1];
      UnlinesSplit(front);
      var x := Unlines(front);
      SplitExtend(x, last, '\n');
      assert (front + [""])[..|front|] == front && "" + last == last;
      assert front + [last] == lines;
      SplitAppend(x + last, '\n', "");
      SplitCons("", '\n', "");
      assert x + last + ['\n'] + "" == Unlines(lines);
    }
  }

  // ----- a line that is rendered from a binding ---------------------------------------------------------

  /** A name and a value that the editor reads back from the line it writes for them. */
  predicate Renderable(k: string, v: string) {
    Trimmed(k, SPACE) && '=' !in k && (k == "" || k[0] != '#')
    && (v == "" || v[|v| - 1] !in SPACE)
  }

  lemma RenderableReads(k: string, v: string)
    requires Renderable(k, v)
    ensures BindingOf(k + "=" + v) == Some((k, v))
  {
    TrimAcross(k, '=', v, SPACE);
    TrimLeftPad("", k, SPACE);
    TrimRightPad(v, "", SPACE);
    assert "" + k == k && v + "" == v;
    var t := k + ['='] + v;
    assert TrimSpace(t) == t;
    assert t[0] == if k == "" then '=' else k[0];
    CutUnique(k, '=', v);
    TrimmedFixed(k, SPACE);
  }

  /** Whatever the editor reads is renderable. */
  lemma ReadIsRenderable(line: string)
    requires BindingOf(line).Some?
    ensures Renderable(BindingOf(line).value.0, BindingOf(line).value.1)
    ensures '\n' !in line ==> '\n' !in BindingOf(line).value.0 && '\n' !in BindingOf(line).value.1
  {
    var t := TrimSpace(line);
    var (k0, v) := Cut(t, '=').value;
    CutParts(t, '=');
    var l, r := TrimParts(line, SPACE);
    var l', r' := TrimParts(k0, SPACE);
    var k := TrimSpace(k0);
    assert t == k0 + ['='] + v;
    assert v != "" ==> t[|t| - 1] == v[|v| - 1];
    assert k != "" && l' == "" ==> k[0] == k0[0] == t[0];
    assert k0 != "" ==> k0[0] == t[0];
    assert forall j :: 0 <= j < |l'| ==> l'[j] == k0[j];
  }

  // ----- reading what was rendered ------------------------------------------------------------------------

  /** What the editor holds can be written as lines: those it preserves bind nothing, and no
      newline hides in anything. */
  predicate Textual(e: Env) {
    Ordered(e)
    && Free(e.lines, '\n')
    && (forall i :: 0 <= i < |e.lines| ==> BindingOf(e.lines[i]).None?)
    && (forall k :: k in e.values ==> '\n' !in k && '\n' !in e.values[k])
  }

  /** And everything comes back when those lines are read again. */
  predicate Canonical(e: Env) {
    Textual(e) && (forall k :: k in e.values ==> Renderable(k, e.values[k]))
  }

  lemma {:induction false} ReadKeepsCanonical(e: Env, lines: seq<string>)
    requires Canonical(e) && Free(lines, '\n')
    ensures Canonical(AddLines(e, lines))
  {
    if lines != [] {
      var front, last := lines[..|lines| - 1], lines[|lines| - 1];
      ReadKeepsCanonical(e, front);
      if BindingOf(last).Some? {
        ReadIsRenderable(last);
        PutIsOrdered(AddLines(e, front), BindingOf(last).value.0, BindingOf(last).value.1);
      }
    }
  }

  lemma ParseIsCanonical(data: string)
    ensures Canonical(Parse(data))
  {
    SplitPieces(data, '\n');
    ReadKeepsCanonical(EMPTY, Split(data, '\n'));
  }

  lemma {:induction false} AddLinesConcat(e: Env, a: seq<string>, b: seq<string>)
    ensures AddLines(e, a + b) == AddLines(AddLines(e, a), b)
  {
    if b == [] {
      assert a + b == a;
    } else {
      assert (a + b)[..|a + b| - 1] == a + b[..|b| - 1];
      AddLinesConcat(e, a, b[..|b| - 1]);
    }
  }

  /** Lines that bind nothing are all kept. */
  lemma {:induction false} PreservedStay(e: Env, lines: seq<string>)
    requires forall i :: 0 <= i < |lines| ==> BindingOf(lines[i]).None?
    ensures AddLines(e, lines) == e.(lines := e.lines + lines)
  {
    if lines == [] {
      assert e.lines + [] == e.lines;
    } else {
      var front, last := lines[..|lines| - 1], lines[|lines| - 1];
      PreservedStay(e, front);
      assert e.lines + lines == (e.lines + front) + [last];
    }
  }

  /** The first `n` bindings of an environment. */
  function FirstOf(e: Env, n: nat): map<string, string>
    requires n <= |e.order| && Ordered(e)
  {
    map i | 0 <= i < n :: e.order[i] := e.values[e.order[i]]
  }

  /** The editor after reading the first `n` bindings. */
  function ReadUpTo(e: Env, head: seq<string>, n: nat): Env
    requires n <= |e.order| && Ordered(e)
  {
    Env(head, FirstOf(e, n), e.order[..n])
  }

  lemma NextBinding(e: Env, head: seq<string>, n: nat)
    requires Ordered(e) && n < |e.order|
    ensures Put(ReadUpTo(e, head, n), e.order[n], e.values[e.order[n]]) == ReadUpTo(e, head, n + 1)
  {
    var k := e.order[n];
    assert k !in FirstOf(e, n);
    assert e.order[..n + 1] == e.order[..n] + [k];
    assert FirstOf(e, n + 1) == FirstOf(e, n)[k := e.values[k]];
  }

  lemma {:induction false} BindingsComeBack(e: Env, head: seq<string>, n: nat)
    requires Canonical(e) && n <= |e.order|
    ensures AddLines(Env(head, map[], []), BindingLines(e.values, e.order)[..n]) == ReadUpTo(e, head, n)
    decreases n
  {
    var ls := BindingLines(e.values, e.order);
    if n == 0 {
      assert FirstOf(e, 0) == map[];
    } else {
      var k := e.order[n - 1];
      BindingsComeBack(e, head, n - 1);
      RenderableReads(k, e.values[k]);
      NextBinding(e, head, n - 1);
      LastLine(Env(head, map[], []), ls, n, k + "=" + e.values[k]);
    }
  }

  lemma LastLine(e: Env, lines: seq<string>, n: nat, line: string)
    requires 0 < n <= |lines| && lines[n - 1] == line
    ensures AddLines(e, lines[..n]) == AddLine(AddLines(e, lines[..n - 1]), line)
  {
    assert lines[..n][..n - 1] == lines[..n - 1];
  }

  lemma {:induction false} NotBlankIsPart(lines: seq<string>)
    ensures Free(lines, '\n') ==> Free(NotBlank(lines), '\n')
    ensures (forall i :: 0 <= i < |lines| ==> BindingOf(lines[i]).None?) ==>
              forall i :: 0 <= i < |NotBlank(lines)| ==> BindingOf(NotBlank(lines)[i]).None?
    ensures forall i :: 0 <= i < |NotBlank(lines)| ==>
              TrimSpace(NotBlank(lines)[i]) != "" && NotBlank(lines)[i] in lines
  {
    hide TrimSpace;
    hide BindingOf;
    if lines != [] {
      NotBlankIsPart(lines[..|lines| - 1]);
      assert forall i :: 0 <= i < |lines[..|lines| - 1]| ==> lines[..|lines| - 1][i] == lines[i];
      assert lines == lines[..|lines| - 1] + [lines[|lines| - 1]];
    }
  }

  lemma HeadIsPreserved(e: Env)
    requires Textual(e)
    ensures Free(RenderedHead(e), '\n')
    ensures forall i :: 0 <= i < |RenderedHead(e)| ==> BindingOf(RenderedHead(e)[i]).None?
  {
    NotBlankIsPart(e.lines);
  }

  lemma BindingLinesFree(e: Env)
    requires Textual(e)
    ensures Free(BindingLines(e.values, e.order), '\n')
  {
  }

  lemma HeadComesBack(e: Env)
    requires Canonical(e)
    ensures AddLines(EMPTY, RenderedHead(e)) == Env(RenderedHead(e), map[], [])
  {
    HeadIsPreserved(e);
    PreservedStay(EMPTY, RenderedHead(e));
    assert [] + RenderedHead(e) == RenderedHead(e);
  }

  lemma TailComesBack(e: Env)
    requires Canonical(e)
    ensures AddLines(Env(RenderedHead(e), map[], []), BindingLines(e.values, e.order))
            == Env(RenderedHead(e), e.values, e.order)
  {
    var tail := BindingLines(e.values, e.order);
    BindingsComeBack(e, RenderedHead(e), |e.order|);
    assert tail[..|e.order|] == tail && e.order[..|e.order|] == e.order;
    AllOfThem(e);
  }

  lemma RenderedSplits(e: Env)
    requires Textual(e)
    ensures Split(Render(e), '\n') == RenderedHead(e) + BindingLines(e.values, e.order) + [""]
  {
    HeadIsPreserved(e);
    BindingLinesFree(e);
    UnlinesSplit(RenderedLines(e));
  }

  /** Reading what was rendered: the preserved lines that are not blank and the one or two blank
      ones rendering adds, and the same bindings in the same order. */
  lemma ReadRendered(e: Env)
    requires Canonical(e)
    ensures Parse(Render(e)) == Env(RenderedHead(e) + [""], e.values, e.order)
  {
    var head, tail := RenderedHead(e), BindingLines(e.values, e.order);
    RenderedSplits(e);
    AddLinesConcat(EMPTY, head + tail, [""]);
    AddLinesConcat(EMPTY, head, tail);
    HeadComesBack(e);
    TailComesBack(e);
    PreservedStay(Env(head, e.values, e.order), [""]);
  }

  lemma AllOfThem(e: Env)
    requires Ordered(e)
    ensures FirstOf(e, |e.order|) == e.values
  {
    forall k ensures k in FirstOf(e, |e.order|) <==> k in e.values {
    }
  }

  // ----- the normaliser -----------------------------------------------------------------------------------

  /** Reading a file and writing it again. */
  function Normalised(data: string): string {
    ParseIsOrdered(data);
    Render(Parse(data))
  }

  lemma {:induction false} NotBlankConcat(a: seq<string>, b: seq<string>)
    ensures NotBlank(a + b) == NotBlank(a) + NotBlank(b)
  {
    if b == [] {
      assert a + b == a;
    } else {
      assert (a + b)[..|a + b| - 1] == a + b[..|b| - 1];
      NotBlankConcat(a, b[..|b| - 1]);
    }
  }

  lemma {:induction false} NotBlankTwice(lines: seq<string>)
    ensures NotBlank(NotBlank(lines)) == NotBlank(lines)
  {
    if lines != [] {
      var front, last := lines[..|lines| - 1], lines[|lines| - 1];
      NotBlankTwice(front);
      NotBlankConcat(NotBlank(front), if TrimSpace(last) == "" then [] else [last]);
      assert [last][..0] == [];
    }
  }

  lemma HeadAgain(e: Env)
    ensures NotBlank(RenderedHead(e) + [""]) == NotBlank(e.lines)
  {
    NotBlankTwice(e.lines);
    NotBlankConcat(NotBlank(e.lines), if e.lines == [] then [] else [""]);
    NotBlankConcat(RenderedHead(e), [""]);
    assert [""][..0] == [];
  }

  lemma UnlinesLength(a: seq<string>, b: seq<string>)
    ensures |Unlines(a + b)| == |Unlines(a)| + |Unlines(b)|
  {
    if b == [] {
      assert a + b == a;
    } else {
      assert (a + b)[..|a + b| - 1] == a + b[..|b| - 1];
      UnlinesLength(a, b[..|b| - 1]);
    }
  }

  /** The second rendering has a blank line before the bindings whatever the first had. */
  lemma RenderAgain(e: Env)
    requires Canonical(e)
    ensures Canonical(Parse(Render(e)))
    ensures Render(Parse(Render(e))) == Unlines(NotBlank(e.lines) + [""] + BindingLines(e.values, e.order))
  {
    ParseIsCanonical(Render(e));
    ReadRendered(e);
    HeadAgain(e);
  }

  /** Writing again what was read keeps every binding, and one pass is enough exactly when the
      file had a line that is not a binding, be it the empty one behind a final newline. */
  lemma OnePassSuffices(data: string)
    ensures var e, e' := Parse(data), Parse(Normalised(data));
            e'.values == e.values && e'.order == e.order
    ensures Normalised(Normalised(data)) == Normalised(data) <==> Parse(data).lines != []
  {
    var e := Parse(data);
    ParseIsCanonical(data);
    ReadRendered(e);
    RenderAgain(e);
    var tail := BindingLines(e.values, e.order);
    if e.lines == [] {
      assert NotBlank(e.lines) + [""] + tail == [""] + tail;
      assert RenderedLines(e) == tail;
      UnlinesLength([""], tail);
      assert [""][..0] == [];
    }
  }

  /** Two passes always are. */
  lemma TwoPassesSuffice(data: string)
    ensures Normalised(Normalised(Normalised(data))) == Normalised(Normalised(data))
  {
    ParseIsCanonical(data);
    ReadRendered(Parse(data));
    OnePassSuffices(Normalised(data));
  }

  // ----- the wrapper reads what the editor writes -----------------------------------------------------------

  /** A value the wrapper reads as it stands. */
  predicate PlainValue(v: string) {
    '\\' !in v && '\n' !in v && '\0' !in v
    && (v == "" || (v[0] !in BLANK && v[0] != '"' && v[0] != '\'' && v[|v| - 1] !in BLANK + {'\r'}))
  }

  lemma {:induction false} UnescapedPlain(s: string)
    ensures |Unescaped(s)| <= |s|
    ensures Unescaped(s) == s <==> forall i :: 0 <= i < |s| - 1 ==> s[i] != '\\'
    decreases |s|
  {
    if s != "" {
      if s[0] == '\\' && |s| > 1 {
        UnescapedPlain(s[2..]);
      } else {
        UnescapedPlain(s[1..]);
        assert s == [s[0]] + s[1..];
        assert forall i :: 1 <= i < |s| ==> s[i] == s[1..][i - 1];
        assert forall i :: 0 <= i < |s[1..]| - 1 ==> s[1..][i] == s[i + 1];
        assert Unescaped(s)[1..] == Unescaped(s[1..]);
      }
    }
  }

  lemma {:induction false} QuotedIsShort(s: string, q: char, i: nat)
    requires i <= |s|
    ensures Quoted(s, q, i).Some? ==> |Quoted(s, q, i).value.0| < |s| - i
    decreases |s| - i
  {
    if i < |s| {
      if s[i] == '\\' && i + 1 < |s| {
        QuotedIsShort(s, q, i + 2);
      } else if s[i] != q {
        QuotedIsShort(s, q, i + 1);
      }
    }
  }

  /** Trimmed, unquoted, and with no backslash but perhaps the last byte. */
  predicate Verbatim(v: string) {
    v == "" || (v[0] !in BLANK && v[0] != '"' && v[0] != '\'' && v[|v| - 1] !in BLANK
                && forall i :: 0 <= i < |v| - 1 ==> v[i] != '\\')
  }

  lemma UntrimmedIsShorter(v: string)
    ensures |TrimLeft(v, BLANK)| <= |v| && |TrimRight(v, BLANK)| <= |v|
    ensures TrimLeft(v, BLANK) == v <==> v == "" || v[0] !in BLANK
    ensures TrimLeft(v, BLANK) != v ==> |TrimLeft(v, BLANK)| < |v|
    ensures TrimRight(v, BLANK) == v <==> v == "" || v[|v| - 1] !in BLANK
    ensures TrimRight(v, BLANK) != v ==> |TrimRight(v, BLANK)| < |v|
  {
    if v != "" {
      assert |v[1..]| < |v| && |v[..|v| - 1]| < |v|;
    }
  }

  /** A value stands for itself exactly when it is verbatim; and no value stands for a longer one. */
  lemma StandsForItself(v: string)
    ensures UnquoteValue(v).Ok? ==> |UnquoteValue(v).value| <= |v|
    ensures UnquoteValue(v) == Ok(v) <==> Verbatim(v)
  {
    var s := TrimLeft(v, BLANK);
    UntrimmedIsShorter(v);
    if s != "" {
      if s[0] == '"' || s[0] == '\'' {
        QuotedIsShort(s, s[0], 1);
      } else {
        UntrimmedIsShorter(s);
        UnescapedPlain(TrimRight(s, BLANK));
      }
    }
  }

  lemma PlainStandsForItself(v: string)
    requires PlainValue(v)
    ensures UnquoteValue(v) == Ok(v)
  {
    StandsForItself(v);
  }

  lemma ValidNameParts(k: string)
    requires ValidName(k)
    ensures '=' !in k && '\\' !in k && '\n' !in k && '\r' !in k
    ensures Trimmed(k, SPACE) && k[0] !in BLANK && k[0] != '#' && k[0] != ';'
  {
    forall i | 0 <= i < |k|
      ensures k[i] != '=' && k[i] != '\\' && k[i] != '\n' && k[i] != '\r' && k[i] !in SPACE
    {
      assert NameByte(k[i], i == 0);
    }
  }

  /** Any line of a valid name and '=' is read by its value. */
  lemma NamedLine(k: string, v: string)
    requires ValidName(k)
    ensures ReadLine(k + "=" + v) ==
            match UnquoteValue(v)
            case Err(e) => BadValue(k, e)
            case Ok(w) => if '\0' in w then HasNul(k) else Assigned((k, w))
  {
    ValidNameParts(k);
    var line := k + ['='] + v;
    TrimLeftPad("", line, BLANK);
    assert "" + line == line;
    CutUnique(k, '=', v);
    TrimmedFixed(k, SPACE);
  }

  /** A carriage return at the end is dropped, and a single backslash joins the next line. */
  lemma PlainLineStands(k: string, v: string)
    requires ValidName(k) && PlainValue(v)
    ensures var line := k + "=" + v;
            WithoutCR(line) == line && !Continues(line) && ReadLine(line) == Assigned((k, v))
  {
    ValidNameParts(k);
    var line := k + "=" + v;
    assert line[|line| - 1] == if v == "" then '=' else v[|v| - 1];
    TrimRightPad(line, "", {'\r'});
    assert line + "" == line;
    PlainStandsForItself(v);
    NamedLine(k, v);
  }

  lemma LeadingName(pad: string, k: string, tail: string)
    requires AllIn(pad, SPACE) && k != "" && k[0] !in SPACE
    ensures TrimLeft(pad + k + tail, SPACE) == k + tail
  {
    Assoc(pad, k, tail);
    assert (k + tail)[0] == k[0];
    TrimLeftPad(pad, k + tail, SPACE);
  }

  /** Where the name of an assignment stands in its line. */
  lemma NameInLine(s: string) returns (pad: string, k: string, tail: string, rest: string)
    requires ReadLine(s).Assigned?
    ensures s == (pad + k + tail) + ['='] + rest
    ensures AllIn(pad, SPACE) && ValidName(k)
  {
    var line := TrimLeft(s, BLANK);
    var l := TrimLeftParts(s, BLANK);
    CutParts(line, '=');
    var (k0, r) := Cut(line, '=').value;
    var l', r' := TrimParts(k0, SPACE);
    k, rest, tail, pad := TrimSpace(k0), r, r', l + l';
    Assoc(l, k0, ['=']);
    Assoc(l, k0 + ['='], rest);
    Assoc(l, l' + k, r');
    Assoc(l, l', k);
  }

  /** A name the wrapper accepts starts the line, but for white space. */
  lemma AssignedNames(s: string)
    requires ReadLine(s).Assigned?
    ensures TrimSpace(s) != "" && TrimSpace(s)[0] != '#' && '=' in TrimSpace(s)
  {
    var pad, k, tail, rest := NameInLine(s);
    hide ReadLine;
    ValidNameParts(k);
    TrimAcross(pad + k + tail, '=', rest, SPACE);
    LeadingName(pad, k, tail);
    assert (k + tail)[0] == k[0];
  }

  /** Lines the editor preserves assign nothing for the wrapper either. */
  lemma PreservedAssignNothing(line: string)
    requires BindingOf(line).None?
    ensures !ReadLine(WithoutCR(line)).Assigned?
  {
    var s := WithoutCR(line);
    var r := TrimRightParts(line, {'\r'});
    assert AllIn(r, SPACE);
    TrimAround("", s, r, SPACE);
    assert "" + s + r == line;
    if ReadLine(s).Assigned? {
      AssignedNames(s);
      CutParts(TrimSpace(line), '=');
    }
  }

  lemma {:induction false} NothingAssigned(lines: seq<string>)
    requires forall i :: 0 <= i < |lines| ==> BindingOf(lines[i]).None?
    ensures Assignments(Stripped(lines)) == []
    decreases |lines|
  {
    if lines != [] {
      PreservedAssignNothing(lines[0]);
      NothingAssigned(lines[1..]);
      assert Stripped(lines)[1..] == Stripped(lines[1..]);
    }
  }

  /** What the whole-file agreement asks of an environment: names the wrapper accepts, values it
      takes as they stand, and no preserved line that would swallow the next. */
  predicate Faithful(e: Env) {
    Textual(e)
    && (forall k :: k in e.values ==> ValidName(k) && PlainValue(e.values[k]))
    && (forall i :: 0 <= i < |e.lines| && TrimSpace(e.lines[i]) != "" ==> !Continues(WithoutCR(e.lines[i])))
  }

  /** A line that stands as it is and assigns one pair. */
  predicate Assigns(line: string, b: Binding) {
    WithoutCR(line) == line && ReadLine(line) == Assigned(b)
  }

  /** Lines that each assign one pair assign those pairs. */
  lemma {:induction false} AssignedInOrder(ls: seq<string>, ps: seq<Binding>)
    requires |ls| == |ps| && forall i :: 0 <= i < |ls| ==> Assigns(ls[i], ps[i])
    ensures Assignments(Stripped(ls)) == ps
    decreases |ls|
  {
    hide ReadLine;
    hide WithoutCR;
    if ls != [] {
      assert Assigns(ls[0], ps[0]);
      assert Stripped(ls)[0] == ls[0] && ReadLine(ls[0]) == Assigned(ps[0]);
      AssignedInOrder(ls[1..], ps[1..]);
      StrippedTail(ls);
      assert ps == [ps[0]] + ps[1..];
    }
  }

  lemma StrippedTail(ls: seq<string>)
    requires ls != []
    ensures Stripped(ls)[1..] == Stripped(ls[1..])
  {
  }

  lemma BindingsAreAssigned(e: Env)
    requires Faithful(e)
    ensures Assignments(Stripped(BindingLines(e.values, e.order))) == Pairs(e)
  {
    var ls, ps := BindingLines(e.values, e.order), Pairs(e);
    forall i | 0 <= i < |ls| ensures Assigns(ls[i], ps[i]) {
      PlainLineStands(e.order[i], e.values[e.order[i]]);
    }
    AssignedInOrder(ls, ps);
  }

  predicate NoneContinues(lines: seq<string>) {
    forall i :: 0 <= i < |lines| ==> !Continues(WithoutCR(lines[i]))
  }

  lemma HeadContinuesNothing(e: Env)
    requires Faithful(e)
    ensures NoneContinues(RenderedHead(e))
  {
    NotBlankIsPart(e.lines);
    var kept := NotBlank(e.lines);
    forall i | 0 <= i < |kept| ensures !Continues(WithoutCR(kept[i])) {
      assert kept[i] in e.lines;
    }
    assert WithoutCR("") == "";
  }

  lemma StrippedConcat(a: seq<string>, b: seq<string>)
    ensures Stripped(a + b) == Stripped(a) + Stripped(b)
  {
  }

  /** Without continuations the parts of a file assign what each assigns. */
  lemma PartsAssign(head: seq<string>, tail: seq<string>)
    requires NoneContinues(head) && NoneContinues(tail)
    ensures Assignments(Joined(head + tail + [""], "")) == Assignments(Stripped(head)) + Assignments(Stripped(tail))
  {
    assert WithoutCR("") == "";
    hide Continues;
    hide WithoutCR;
    hide ReadLine;
    NothingToJoin(head + tail + [""]);
    StrippedConcat(head + tail, [""]);
    StrippedConcat(head, tail);
    AssignmentsConcat(Stripped(head) + Stripped(tail), Stripped([""]));
    AssignmentsConcat(Stripped(head), Stripped(tail));
    NothingAssigned([""]);
  }

  /** The cross-component round trip: the wrapper reads from what the editor renders exactly the
      editor's pairs, in the editor's order. */
  lemma WrapperReadsWhatEditorWrites(e: Env)
    requires Faithful(e)
    ensures EnvPairs(Render(e)) == Pairs(e)
  {
    RenderedSplits(e);
    HeadContinuesNothing(e);
    PartsAssign(RenderedHead(e), BindingLines(e.values, e.order));
    HeadIsPreserved(e);
    NothingAssigned(RenderedHead(e));
    BindingsAreAssigned(e);
  }

  lemma PairsAreValues(e: Env, k: string)
    requires Ordered(e) && k in e.values
    ensures LastOf(Pairs(e), k) == Some(e.values[k])
  {
    var i :| 0 <= i < |e.order| && e.order[i] == k;
    DistinctNames(Pairs(e), e.order);
    assert Pairs(e)[i] == (k, e.values[k]);
  }

  lemma NamesHaveNoEquals(e: Env)
    requires Faithful(e)
    ensures NamesWithoutEquals(Pairs(e))
  {
    forall i | 0 <= i < |Pairs(e)| ensures '=' !in Pairs(e)[i].0 {
      ValidNameParts(e.order[i]);
    }
  }

  /** From the command line to the process: a plain value set on a name other than PATH is what
      the service is started with, whatever the unit's own environment said. */
  lemma SetReachesTheService(e: Env, k: string, v: string, base: seq<string>)
    requires Faithful(e) && MaySet(k, v) && PlainValue(v) && k != "PATH" && WellFormed(base)
    ensures Ordered(Put(e, k, v))
    ensures var pairs := EnvPairs(Render(Put(e, k, v)));
            Lookup(Merged(Entries(base, NotNamed(pairs, "PATH"))), k) == v
  {
    var e' := Put(e, k, v);
    WrapperReadsWhatEditorWrites(e');
    NamesHaveNoEquals(e');
    PathIsTheUnits(base, Pairs(e'), k);
    PairsAreValues(e', k);
  }

  // ----- one binding, exactly ---------------------------------------------------------------------------------

  /** The rendering of a single binding in a file of its own. */
  lemma AloneText(k: string, v: string)
    ensures Ordered(Put(EMPTY, k, v)) && Render(Put(EMPTY, k, v)) == k + "=" + v + "\n"
  {
    var e := Put(EMPTY, k, v);
    assert e.order == [k] && e.values[k] == v;
    assert [k][..0] == [];
    assert BindingLines(e.values, e.order) == [k + "=" + v];
    assert RenderedLines(e) == [k + "=" + v];
    var line := k + "=" + v;
    assert [line][..0] == [] && Unlines([]) == "";
    assert "" + line == line;
  }

  lemma AloneLines(k: string, v: string)
    requires ValidName(k) && '\n' !in v && '\r' !in v
    ensures Split(k + "=" + v + "\n", '\n') == [k + "=" + v, ""]
    ensures WithoutCR(k + "=" + v) == k + "=" + v && WithoutCR("") == ""
  {
    ValidNameParts(k);
    var line := k + "=" + v;
    assert k + "=" + v + "\n" == line + ['\n'] + "";
    SplitCons(line, '\n', "");
    SplitCons("", '\n', "");
    TrimRightPad(line, "", {'\r'});
    assert line + "" == line;
    assert line[|line| - 1] == if v == "" then '=' else v[|v| - 1];
  }

  /** The logical lines of such a file: a last lone backslash is gone, and with it the newline. */
  lemma AloneJoined(k: string, v: string)
    requires ValidName(k) && '\n' !in v && '\r' !in v
    ensures var line := k + "=" + v;
            Joined(Split(k + "=" + v + "\n", '\n'), "") ==
            if Continues(line) then [line[..|line| - 1]] else [line, ""]
  {
    var line := k + "=" + v;
    AloneLines(k, v);
    assert [line, ""][1..] == [""] && [""][1..] == [];
    assert "" + line == line && "" + "" == "";
    assert line[..|line| - 1] + "" == line[..|line| - 1] == "" + line[..|line| - 1];
  }

  lemma ContinuesAtValue(k: string, v: string)
    requires ValidName(k) && Continues(k + "=" + v)
    ensures v != "" && v[|v| - 1] == '\\'
    ensures (k + "=" + v)[..|k + "=" + v| - 1] == k + "=" + v[..|v| - 1]
  {
    var line := k + "=" + v;
    assert line[|line| - 1] == if v == "" then '=' else v[|v| - 1];
  }

  /** A value the editor lets be set (EnvValue), in a file of its own, reaches the service unchanged
      exactly when it is plain: a backslash, an outer blank or a leading quote is read as something else. */
  lemma SetValueArrives(k: string, v: string)
    requires ValidName(k) && ValueAllowed(v)
    ensures Ordered(Put(EMPTY, k, v))
    ensures EnvPairs(Render(Put(EMPTY, k, v))) == [(k, v)] <==> PlainValue(v)
  {
    AloneText(k, v);
    hide Render;
    AloneJoined(k, v);
    if Continues(k + "=" + v) {
      ContinuesAtValue(k, v);
      NamedLine(k, v[..|v| - 1]);
      StandsForItself(v[..|v| - 1]);
      OneLine(k + "=" + v[..|v| - 1], k, v);
    } else {
      NamedLine(k, v);
      StandsForItself(v);
      LoneBackslash(k, v);
      OneLine(k + "=" + v, k, v);
      VerbatimIsPlain(v);
    }
  }

  /** One line of text assigns what it reads as, and an empty line behind it nothing. */
  lemma OneLine(line: string, k: string, v: string)
    ensures Assignments([line]) == [(k, v)] <==> ReadLine(line) == Assigned((k, v))
    ensures Assignments([line, ""]) == [(k, v)] <==> ReadLine(line) == Assigned((k, v))
  {
    assert [line][1..] == [] && [line, ""][1..] == [""] && [""][1..] == [];
    assert ReadLine("") == Nothing;
    var a := match ReadLine(line) case Assigned(b) => [b] case _ => [];
    assert a + [] == a;
  }

  lemma VerbatimIsPlain(v: string)
    requires ValueAllowed(v)
    requires v != "" && v[|v| - 1] == '\\' ==> |v| >= 2 && v[|v| - 2] == '\\'
    ensures Verbatim(v) <==> PlainValue(v)
  {
  }

  /** Without a continuation a last backslash is preceded by another. */
  lemma LoneBackslash(k: string, v: string)
    requires ValidName(k) && !Continues(k + "=" + v)
    ensures v != "" && v[|v| - 1] == '\\' ==> |v| >= 2 && v[|v| - 2] == '\\'
  {
    var line := k + "=" + v;
    assert v != "" ==> line[|line| - 1] == v[|v| - 1];
    assert |v| >= 2 ==> line[|line| - 2] == v[|v| - 2];
    assert |v| == 1 ==> line[|line| - 2] == '=';
  }
}
