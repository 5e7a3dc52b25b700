/** One line of the configuration file as internal/config/edit.go reads it: its trailing comment, how deep
    it is indented, the name before the colon and the value after it. */
module ConfigLines {
  import opened Text

  const INDENT_WIDTH := 2

  const NO_QUOTE := '\0'

  // ----- trailing comments --------------------------------------------------------------

  /** The quote that is open after reading `s`, starting inside `q`. */
  function QuoteFrom(q: char, s: string): char {
    if s == "" then q
    else
      var p := QuoteFrom(q, s[..|s| - 1]);
      var c := s[|s| - 1];
      if p != NO_QUOTE then (if c == p then NO_QUOTE else p)
      else if c == '\'' || c == '"' then c
      else NO_QUOTE
  }

  /** A '#' outside quotes, at the start or after a blank. */
  predicate OpensComment(s: string, i: nat) {
    i < |s| && s[i] == '#' && (i == 0 || s[i - 1] in BLANK) && QuoteFrom(NO_QUOTE, s[..i]) == NO_QUOTE
  }

  function CommentFrom(s: string, i: nat): (r: nat)
    requires i <= |s|
    ensures i <= r <= |s|
    decreases |s| - i
  {
    if i == |s| || OpensComment(s, i) then i else CommentFrom(s, i + 1)
  }

  /** Where the trailing comment starts; the length when there is none. */
  function CommentAt(s: string): (r: nat)
    ensures r <= |s|
  {
    CommentFrom(s, 0)
  }

  /** The least index at which a comment opens, and nothing else, is where it starts. */
  lemma CommentAtLeast(s: string, i: nat)
    requires i <= |s|
    ensures CommentAt(s) == i <==>
            (i < |s| ==> OpensComment(s, i)) && forall j :: 0 <= j < i ==> !OpensComment(s, j)
  {
    var c := CommentAt(s);
    CommentFromLeast(s, 0);
  }

  lemma {:induction false} CommentFromLeast(s: string, i: nat)
    requires i <= |s|
    ensures CommentFrom(s, i) < |s| ==> OpensComment(s, CommentFrom(s, i))
    ensures forall j :: i <= j < CommentFrom(s, i) ==> !OpensComment(s, j)
    decreases |s| - i
  {
    if i < |s| && !OpensComment(s, i) {
      CommentFromLeast(s, i + 1);
    }
  }

  function StripComment(s: string): string {
    s[..CommentAt(s)]
  }

  method CutComment(s: string) returns (before: string, comment: string, found: bool)
    ensures before == StripComment(s) && comment == s[CommentAt(s)..]
    ensures found <==> CommentAt(s) < |s|
  {
    var quote := NO_QUOTE;
    var i := 0;
    while i < |s|
      invariant 0 <= i <= |s|
      invariant quote == QuoteFrom(NO_QUOTE, s[..i])
      invariant forall j :: 0 <= j < i ==> !OpensComment(s, j)
    {
      assert s[..i + 1][..i] == s[..i];
      if quote != NO_QUOTE {
        if s[i] == quote {
          quote := NO_QUOTE;
        }
      } else if s[i] == '\'' || s[i] == '"' {
        quote := s[i];
      } else if s[i] == '#' {
        if i == 0 || s[i - 1] == ' ' || s[i - 1] == '\t' {
          CommentAtLeast(s, i);
          return s[..i], s[i..], true;
        }
      }
      i := i + 1;
    }
    CommentAtLeast(s, |s|);
    assert s[..i] == s;
    return s, "", false;
  }

  /** Whether a comment opens at `i` depends on nothing after `i`. */
  lemma OpensCommentPrefix(s: string, t: string, i: nat)
    requires i < |s| && OpensComment(s + t, i)
    ensures OpensComment(s, i)
  {
    assert s[..i] == (s + t)[..i];
  }

  lemma OpensCommentExtend(s: string, t: string, i: nat)
    requires OpensComment(s, i)
    ensures OpensComment(s + t, i)
  {
    assert s[..i] == (s + t)[..i];
  }

  lemma {:induction false} QuoteConcat(q: char, a: string, b: string)
    ensures QuoteFrom(q, a + b) == QuoteFrom(QuoteFrom(q, a), b)
  {
    if b == "" {
      assert a + b == a;
    } else {
      QuoteConcat(q, a, b[..|b| - 1]);
      assert (a + b)[..|a + b| - 1] == a + b[..|b| - 1];
    }
  }

  lemma {:induction false} QuoteIsAQuote(t: string)
    ensures QuoteFrom(NO_QUOTE, t) in {NO_QUOTE, '\'', '"'}
  {
    if t != "" {
      QuoteIsAQuote(t[..|t| - 1]);
    }
  }

  lemma QuoteOverSpaces(q: char, s: string)
    requires q in {NO_QUOTE, '\'', '"'}
    requires s == " " || s == "  "
    ensures QuoteFrom(q, s) == q
  {
    assert " "[..0] == "" && "  "[..1] == " ";
  }

  // ----- what a line is -------------------------------------------------------------------

  /** `Blank` covers comment-only lines; `Odd` an indentation the editor refuses; `Bare` a
      line without a colon. */
  datatype Kind =
    | Blank
    | Odd(indent: nat)
    | Bare(level: nat)
    | Entry(level: nat, name: string)

  function Indent(line: string): nat {
    |line| - |TrimLeft(line, {' '})|
  }

  function Classify(raw: string): Kind {
    var line := StripComment(raw);
    var indent := Indent(line);
    if TrimSpace(line) == "" then Blank
    else if indent % INDENT_WIDTH != 0 then Odd(indent)
    else match Cut(TrimSpace(line), ':')
      case None => Bare(indent / INDENT_WIDTH)
      case Some((name, _)) => Entry(indent / INDENT_WIDTH, TrimSpace(name))
  }

  /** No byte that quotes, comments or separates: what splitKey asks of a name. */
  predicate Clean(s: string) {
    NoneIn(s, {'\'', '"', '#', ':'})
  }

  /** The kind of every line that starts with `before` and then a colon. */
  function HeadKind(before: string): Kind {
    if Indent(before) % INDENT_WIDTH != 0 then Odd(Indent(before))
    else Entry(Indent(before) / INDENT_WIDTH, TrimSpace(before))
  }

  /** Nothing in a clean head opens a comment, so the strip keeps it and its colon. */
  lemma HeadIsKept(before: string, after: string) returns (w: string)
    requires Clean(before)
    ensures StripComment(before + [':'] + after) == before + [':'] + w
  {
    var raw := before + [':'] + after;
    var c := CommentAt(raw);
    CommentAtLeast(raw, c);
    assert forall k :: 0 <= k <= |before| ==> raw[k] == (before + [':'])[k];
    assert c > |before|;
    w := raw[|before| + 1..c];
  }

  lemma HeadIndent(before: string, tail: string)
    requires TrimSpace(before) != ""
    ensures Indent(before + tail) == Indent(before)
  {
    TrimLeftLess(before, {' '}, SPACE);
    TrimLeftKeepsTail(before, tail, {' '});
  }

  lemma HeadName(before: string, w: string)
    requires ':' !in before
    ensures TrimSpace(before + [':'] + w) != ""
    ensures Cut(TrimSpace(before + [':'] + w), ':').Some?
    ensures TrimSpace(Cut(TrimSpace(before + [':'] + w), ':').value.0) == TrimSpace(before)
  {
    var head := TrimLeft(before, SPACE);
    TrimAcross(before, ':', w, SPACE);
    var l := TrimLeftParts(before, SPACE);
    CutUnique(head, ':', TrimRight(w, SPACE));
    TrimLeftTwice(before, SPACE);
  }

  /** The text before the colon alone decides what a line is, whatever follows. */
  lemma HeadDecides(before: string, after: string)
    requires Clean(before) && TrimSpace(before) != ""
    ensures Classify(before + [':'] + after) == HeadKind(before)
  {
    var w := HeadIsKept(before, after);
    HeadName(before, w);
    Assoc(before, [':'], w);
    HeadIndent(before, [':'] + w);
  }

  /** Trimming only ever takes whitespace off the front of a cut. */
  lemma CutOfTrimmed(line: string) returns (before: string, rest: string)
    requires Cut(TrimSpace(line), ':').Some?
    ensures line == before + ([':'] + rest) && ':' !in before
    ensures TrimSpace(before) == TrimSpace(Cut(TrimSpace(line), ':').value.0)
  {
    var l, r := TrimParts(line, SPACE);
    CutParts(TrimSpace(line), ':');
    var (n, t) := Cut(TrimSpace(line), ':').value;
    before, rest := l + n, t + r;
    TrimAround(l, n, "", SPACE);
    assert l + n + "" == l + n;
    Assoc(n, [':'], t);
    Assoc(l, n, [':'] + t);
    Assoc(before, [':'] + t, r);
    Assoc([':'], t, r);
  }

  lemma CleanAround(s: string)
    requires Clean(TrimSpace(s)) && ':' !in s
    ensures Clean(s)
  {
    var l, r := TrimParts(s, SPACE);
    var m := TrimSpace(s);
    forall k | 0 <= k < |s| ensures s[k] !in {'\'', '"', '#', ':'} {
      if |l| <= k < |l| + |m| {
        assert s[k] == m[k - |l|];
      } else if k < |l| {
        assert s[k] == l[k];
      } else {
        assert s[k] == r[k - |l| - |m|];
      }
    }
  }

  /** A line whose name needs no quoting is cut where the raw text first has a colon. */
  lemma EntryHead(raw: string) returns (before: string, after: string)
    requires Classify(raw).Entry? && Clean(Classify(raw).name) && Classify(raw).name != ""
    ensures Cut(raw, ':') == Some((before, after)) && raw == before + [':'] + after
    ensures Clean(before) && TrimSpace(before) == Classify(raw).name
    ensures HeadKind(before) == Classify(raw)
  {
    var line := StripComment(raw);
    var rest;
    before, rest := CutOfTrimmed(line);
    var comment := raw[CommentAt(raw)..];
    after := rest + comment;
    assert raw == line + comment;
    Assoc(before, [':'] + rest, comment);
    Assoc([':'], rest, comment);
    Assoc(before, [':'], after);
    CleanAround(before);
    CutUnique(before, ':', after);
    HeadDecides(before, after);
  }

  // ----- the value after the colon --------------------------------------------------------

  function AfterColon(line: string): string {
    match Cut(line, ':')
    case None => ""
    case Some((_, after)) => after
  }

  /** The value on a line, as GetValue reads it. */
  function ValueOf(line: string): string {
    TrimSpace(StripComment(AfterColon(line)))
  }

  function ReplaceValue(line: string, value: string): string {
    match Cut(line, ':')
    case None => line
    case Some((before, after)) => before + ": " + value + TrailingComment(after)
  }

  /** A trailing comment as replaceValue writes it back: two spaces, then its own text. */
  function TrailingComment(after: string): string {
    if CommentAt(after) < |after| then "  " + after[CommentAt(after)..] else ""
  }

  /** No comment opens inside the value where the editor writes it, after a space. */
  predicate CommentSafe(v: string) {
    CommentAt(" " + v) == |v| + 1
  }

  /** The value leaves no quote open. */
  predicate Closed(v: string) {
    QuoteFrom(NO_QUOTE, " " + v) == NO_QUOTE
  }

  /** A value that reads back from a line, with or without a comment after it. */
  predicate Readable(v: string, commented: bool) {
    '\n' !in v && Trimmed(v, SPACE) && CommentSafe(v) && (commented ==> Closed(v))
  }

  /** Past a safe value and two spaces, a '#' opens a comment exactly when no quote is open. */
  lemma CommentBehind(v: string, c: string)
    requires CommentSafe(v) && c != "" && c[0] == '#'
    ensures Closed(v) ==> CommentAt(" " + v + ("  " + c)) == |v| + 3
    ensures !Closed(v) ==> CommentAt(" " + v + ("  " + c)) > |v| + 3
  {
    var t, gap := " " + v, "  ";
    var s := t + (gap + c);
    CommentAtLeast(t, |t|);
    forall j | 0 <= j < |t| + 2 ensures !OpensComment(s, j) {
      if j < |t| {
        if OpensComment(s, j) {
          OpensCommentPrefix(t, gap + c, j);
        }
      } else {
        assert s[j] == gap[j - |t|];
      }
    }
    QuoteConcat(NO_QUOTE, t, gap);
    QuoteIsAQuote(t);
    QuoteOverSpaces(QuoteFrom(NO_QUOTE, t), gap);
    assert s[..|t| + 2] == t + gap;
    assert s[|t| + 2] == '#' && s[|t| + 1] == ' ';
    assert OpensComment(s, |t| + 2) <==> Closed(v);
    CommentAtLeast(s, |t| + 2);
    CommentAtLeast(s, CommentAt(s));
  }

  lemma TrimAfterSpace(v: string, r: string)
    requires AllIn(r, SPACE)
    ensures TrimSpace(" " + v + r) == TrimSpace(v)
  {
    TrimAround(" ", v, r, SPACE);
  }

  /** An unsafe value is cut short. */
  lemma UnsafeIsCut(v: string, suffix: string)
    requires !CommentSafe(v)
    ensures |TrimSpace(StripComment(" " + v + suffix))| < |v|
  {
    var t := " " + v;
    var s := t + suffix;
    var i := CommentAt(t);
    CommentAtLeast(t, i);
    OpensCommentExtend(t, suffix, i);
    var c := CommentAt(s);
    CommentAtLeast(s, c);
    assert c <= i;
    assert s[0] == ' ';
    assert c > 0;
    assert s[..c] == " " + s[1..c] + "";
    TrimAfterSpace(s[1..c], "");
  }

  /** Behind an open quote the comment mark is part of what is read. */
  lemma UnclosedReadsMore(v: string, c: string)
    requires CommentSafe(v) && !Closed(v) && c != "" && c[0] == '#'
    ensures TrimSpace(StripComment(" " + v + ("  " + c))) != v
  {
    CommentBehind(v, c);
    var s := " " + v + ("  " + c);
    var k := StripComment(s);
    var l, r := TrimParts(k, SPACE);
    var m := TrimSpace(k);
    var p := |v| + 3;
    ClosedEmpty();
    assert k[1] == s[1] == v[0];
    assert forall j :: |l| + |m| <= j < |k| ==> k[j] == r[j - |l| - |m|];
    assert k[p] == s[p] == '#';
    assert |l| >= 2 ==> l[1] == k[1];
  }

  lemma ClosedEmpty()
    ensures Closed("")
  {
    assert " " + "" == " ";
    QuoteOverSpaces(NO_QUOTE, " ");
  }

  /** Reading what was written gives the value back exactly when it is readable. */
  lemma ReadBack(v: string, comment: string)
    requires '\n' !in v
    requires comment == "" || comment[0] == '#'
    ensures var suffix := if comment == "" then "" else "  " + comment;
            TrimSpace(StripComment(" " + v + suffix)) == v <==> Readable(v, comment != "")
  {
    var suffix := if comment == "" then "" else "  " + comment;
    TrimmedFixed(v, SPACE);
    if !CommentSafe(v) {
      UnsafeIsCut(v, suffix);
    } else if comment == "" {
      assert " " + v + suffix == " " + v;
      TrimAfterSpace(v, "");
    } else if Closed(v) {
      CommentBehind(v, comment);
      assert (" " + v + suffix)[..|v| + 3] == " " + v + "  ";
      TrimAfterSpace(v, "  ");
    } else {
      UnclosedReadsMore(v, comment);
    }
  }
}
