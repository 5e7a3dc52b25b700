/** `commandLine` (internal/cli/compose.go), which prints a step's arguments as a line to copy, and
    the words a POSIX shell reads from such a line (IEEE Std 1003.1, Shell Command Language,
    sections 2.2.1 and 2.2.2). */
module CommandLine {
  import opened Text

  // ----- printing -----------------------------------------------------------------------------

  /** The cut set " \t'\"". */
  const QUOTED: set<char> := {' ', '\t', '\'', '"'}

  predicate NeedsQuotes(a: string) {
    exists i :: 0 <= i < |a| && a[i] in QUOTED
  }

  /** `strings.ReplaceAll(a, "'", `'\''`)`. */
  function EscapeQuotes(a: string): string {
    if a == "" then "" else (if a[0] == '\'' then "'\\''" else [a[0]]) + EscapeQuotes(a[1..])
  }

  function Shown(a: string): string {
    if NeedsQuotes(a) then "'" + EscapeQuotes(a) + "'" else a
  }

  function ShownAll(args: seq<string>): seq<string> {
    seq(|args|, i requires 0 <= i < |args| => Shown(args[i]))
  }

  method ContainsAny(a: string, cut: set<char>) returns (found: bool)
    ensures found <==> exists i :: 0 <= i < |a| && a[i] in cut
  {
    for i := 0 to |a|
      invariant forall j :: 0 <= j < i ==> a[j] !in cut
    {
      if a[i] in cut {
        return true;
      }
    }
    return false;
  }

  method CommandLine(argv: seq<string>) returns (line: string)
    ensures line == Join(ShownAll(["ratline"] + argv), " ")
  {
    var out := ["ratline"];
    for i := 0 to |argv|
      invariant out == ShownAll((["ratline"] + argv)[..i + 1])
    {
      var a := argv[i];
      var quote := ContainsAny(a, QUOTED);
      if quote {
        a := "'" + EscapeQuotes(a) + "'";
      }
      out := out + [a];
    }
    assert (["ratline"] + argv)[..|argv| + 1] == ["ratline"] + argv;
    return Join(out, " ");
  }

  /** An argument is printed as it is exactly when it has no blank and no quote; otherwise between single
      quotes, each of its own leaving the quotes, escaped, and coming back. */
  lemma ShownIs(a: string)
    ensures Shown(a) == a <==> forall i :: 0 <= i < |a| ==> a[i] != ' ' && a[i] != '\t' && a[i] != '\'' && a[i] != '"'
    ensures Shown(a) != a ==> Shown(a) == "'" + EscapeQuotes(a) + "'"
  {
    EscapedIsLonger(a);
  }

  lemma {:induction false} EscapedIsLonger(a: string)
    ensures |EscapeQuotes(a)| >= |a|
  {
    if a != "" {
      EscapedIsLonger(a[1..]);
    }
  }

  // ----- reading ------------------------------------------------------------------------------

  datatype Mode = Bare | Quote | Escape

  /** The words read so far, the word being read, and how the next byte is quoted. `Beyond` is a
      line that means more to the shell than a list of words. */
  datatype Lexer =
    | Lexer(words: seq<string>, word: Option<string>, mode: Mode)
    | Beyond

  /** What is never itself outside quotes: operators, expansions, patterns, and the double quote,
      which is not modelled. */
  const SPECIAL: set<char> :=
    {'|', '&', ';', '<', '>', '(', ')', '$', '`', '"', '\n', '*', '?', '['}

  /** What is not itself at the start of a word: a comment and the home directory. */
  const SPECIAL_FIRST: set<char> := {'#', '~'}

  function Extend(word: Option<string>, s: string): Option<string> {
    Some(if word.Some? then word.value + s else s)
  }

  function Scan(l: Lexer, c: char): Lexer {
    match l
    case Beyond => Beyond
    case Lexer(words, word, Quote) =>
      if c == '\'' then l.(mode := Bare) else l.(word := Extend(word, [c]))
    case Lexer(words, word, Escape) =>
      if c == '\n' then l.(mode := Bare) else Lexer(words, Extend(word, [c]), Bare)
    case Lexer(words, word, Bare) =>
      if c == ' ' || c == '\t' then
        if word.Some? then Lexer(words + [word.value], None, Bare) else l
      else if c == '\'' then Lexer(words, Extend(word, ""), Quote)
      else if c == '\\' then l.(mode := Escape)
      else if c in SPECIAL || (word.None? && c in SPECIAL_FIRST) then Beyond
      else l.(word := Extend(word, [c]))
  }

  function ScanAll(l: Lexer, s: string): Lexer
    decreases |s|
  {
    if s == "" then l else ScanAll(Scan(l, s[0]), s[1..])
  }

  function Closed(l: Lexer): Option<seq<string>> {
    if l.Beyond? || l.mode != Bare then None
    else Some(l.words + if l.word.Some? then [l.word.value] else [])
  }

  /** The words of a line; None when a quote is left open or the line is more than words. */
  function Words(line: string): Option<seq<string>> {
    Closed(ScanAll(Lexer([], None, Bare), line))
  }

  lemma {:induction false} ScanConcat(l: Lexer, a: string, b: string)
    ensures ScanAll(l, a + b) == ScanAll(ScanAll(l, a), b)
    decreases |a|
  {
    if a == "" {
      assert a + b == b;
    } else {
      assert (a + b)[1..] == a[1..] + b;
      ScanConcat(Scan(l, a[0]), a[1..], b);
    }
  }

  lemma {:induction false} ScanBeyond(s: string)
    ensures ScanAll(Beyond, s) == Beyond
    decreases |s|
  {
    if s != "" {
      ScanBeyond(s[1..]);
    }
  }

  // ----- one argument ---------------------------------------------------------------------------

  predicate Plain(a: string) {
    (forall i :: 0 <= i < |a| ==> a[i] !in QUOTED && a[i] !in SPECIAL && a[i] != '\\')
    && (a != "" ==> a[0] !in SPECIAL_FIRST)
  }

  /** An argument its printed form says faithfully. */
  predicate Faithful(a: string) {
    a != "" && (NeedsQuotes(a) || Plain(a))
  }

  lemma {:induction false} ScanEscaped(l: Lexer, a: string)
    requires l.Lexer? && l.mode == Quote && l.word.Some?
    ensures ScanAll(l, EscapeQuotes(a)) == l.(word := Some(l.word.value + a))
    decreases |a|
  {
    if a == "" {
      assert l.word.value + a == l.word.value;
    } else {
      var w := l.word.value;
      var next := l.(word := Some(w + [a[0]]));
      if a[0] == '\'' {
        var q := "'\\''";
        assert q[1..] == "\\''" && "\\''"[1..] == "''" && "''"[1..] == "'" && "'"[1..] == "";
        var l1 := Scan(l, '\'');
        var l2, l3 := Scan(l1, '\\'), Scan(Scan(l1, '\\'), '\'');
        assert Scan(l3, '\'') == next by {
          assert w + [a[0]] + "" == w + [a[0]];
        }
        assert ScanAll(l3, "'") == next;
        assert ScanAll(l2, "''") == ScanAll(l3, "'");
        assert ScanAll(l1, "\\''") == ScanAll(l2, "''");
        assert ScanAll(l, q) == ScanAll(l1, "\\''");
        ScanConcat(l, q, EscapeQuotes(a[1..]));
      } else {
        assert ([a[0]] + EscapeQuotes(a[1..]))[1..] == EscapeQuotes(a[1..]);
      }
      ScanEscaped(next, a[1..]);
      assert w + [a[0]] + a[1..] == w + a;
    }
  }

  /** A quoted argument is read back whole, at the start of a word or inside one. */
  lemma ScanQuoted(l: Lexer, a: string)
    requires l.Lexer? && l.mode == Bare
    ensures ScanAll(l, "'" + EscapeQuotes(a) + "'") == l.(word := Extend(l.word, a))
  {
    var start := Lexer(l.words, Extend(l.word, ""), Quote);
    var e := EscapeQuotes(a);
    assert "'" + e + "'" == "'" + (e + "'") && ("'" + (e + "'"))[1..] == e + "'";
    ScanConcat(start, e, "'");
    ScanEscaped(start, a);
    var last := ScanAll(start, e);
    assert "'"[1..] == "";
    assert ScanAll(last, "'") == Scan(last, '\'');
    assert "" + a == a;
    if l.word.Some? {
      assert l.word.value + "" == l.word.value;
    }
  }

  lemma {:induction false} ScanPlain(l: Lexer, a: string)
    requires l.Lexer? && l.mode == Bare && a != ""
    requires forall i :: 0 <= i < |a| ==> a[i] !in QUOTED && a[i] !in SPECIAL && a[i] != '\\'
    requires l.word.Some? || a[0] !in SPECIAL_FIRST
    ensures ScanAll(l, a) == l.(word := Extend(l.word, a))
    decreases |a|
  {
    var next := l.(word := Extend(l.word, [a[0]]));
    assert a == [a[0]] + a[1..];
    assert Scan(l, a[0]) == next;
    if |a| == 1 {
      assert a == [a[0]];
    } else {
      ScanPlain(next, a[1..]);
      if l.word.Some? {
        assert l.word.value + [a[0]] + a[1..] == l.word.value + a;
      }
    }
  }

  // ----- lengths ----------------------------------------------------------------------------------

  /** The bytes of some words, and one more for each. */
  function Size(words: seq<string>): nat {
    if words == [] then 0 else Size(words[..|words| - 1]) + |words[|words| - 1]| + 1
  }

  function SizeOf(l: Lexer): nat
    requires l.Lexer?
  {
    Size(l.words) + if l.word.Some? then |l.word.value| + 1 else 0
  }

  /** A word begun before an argument starts is a separator lost. */
  function Budget(l: Lexer): int
    requires l.Lexer?
  {
    SizeOf(l) - if l.word.Some? then 1 else 0
  }

  lemma {:induction false} SizeConcat(a: seq<string>, b: seq<string>)
    ensures Size(a + b) == Size(a) + Size(b)
    decreases |b|
  {
    if b == [] {
      assert a + b == a;
    } else {
      assert (a + b)[..|a + b| - 1] == a + b[..|b| - 1];
      SizeConcat(a, b[..|b| - 1]);
    }
  }

  /** Bytes that are not quoted make a word no longer than themselves, and shorter when one of them
      is a backslash. */
  lemma {:induction false} ScanBare(l: Lexer, a: string)
    requires l.Lexer? && l.mode != Quote
    requires !NeedsQuotes(a)
    ensures var r := ScanAll(l, a);
            r.Beyond? ||
            (r.mode != Quote
             && Budget(r) <= Budget(l) + |a| - if l.mode == Bare && '\\' in a then 1 else 0)
    decreases |a|
  {
    if a != "" {
      assert a[0] !in QUOTED;
      assert a == [a[0]] + a[1..];
      var next := Scan(l, a[0]);
      if next.Beyond? {
        ScanBeyond(a[1..]);
      } else {
        assert !NeedsQuotes(a[1..]) by {
          assert forall i :: 0 <= i < |a| - 1 ==> a[1..][i] == a[i + 1];
        }
        ScanBare(next, a[1..]);
      }
    }
  }

  /** Without a backslash to hide it, a special byte is beyond words. */
  lemma {:induction false} ScanSpecial(l: Lexer, a: string)
    requires l.Lexer? && l.mode == Bare && '\\' !in a
    requires !NeedsQuotes(a) && exists i :: 0 <= i < |a| && a[i] in SPECIAL
    ensures ScanAll(l, a) == Beyond
    decreases |a|
  {
    assert a[0] !in QUOTED && a[0] != '\\';
    if Scan(l, a[0]).Beyond? {
      ScanBeyond(a[1..]);
    } else {
      var i :| 0 <= i < |a| && a[i] in SPECIAL;
      assert a[1..][i - 1] == a[i];
      assert !NeedsQuotes(a[1..]) by {
        assert forall k :: 0 <= k < |a| - 1 ==> a[1..][k] == a[k + 1];
      }
      ScanSpecial(Scan(l, a[0]), a[1..]);
    }
  }

  /** What printing one argument can add to what is read: its bytes and no more, and fewer when the
      argument is not faithful and starts a word. */
  lemma ScanShown(l: Lexer, a: string)
    requires l.Lexer? && l.mode == Bare
    ensures var r := ScanAll(l, Shown(a));
            r.Beyond? ||
            (r.mode != Quote && Budget(r) <= Budget(l) + |a|
             && (Faithful(a) && l.word.None? ==> r == l.(word := Some(a)))
             && (!Faithful(a) && l.word.None? ==> r == l || Budget(r) < Budget(l) + |a|))
    ensures Faithful(a) && l.word.None? ==> ScanAll(l, Shown(a)).Lexer?
    ensures a == "" ==> ScanAll(l, Shown(a)) == l
  {
    if NeedsQuotes(a) {
      ScanQuoted(l, a);
    } else if a != "" {
      if Plain(a) && l.word.None? {
        ScanPlain(l, a);
      } else {
        ScanBare(l, a);
        if '\\' !in a {
          if exists i :: 0 <= i < |a| && a[i] in SPECIAL {
            ScanSpecial(l, a);
          } else if l.word.None? {
            assert forall i :: 0 <= i < |a| ==> a[i] !in QUOTED;
            assert a[0] in SPECIAL_FIRST;
            ScanBeyond(a[1..]);
          }
        }
      }
    }
  }

  lemma ScanSeparated(l: Lexer, a: string)
    requires l.Lexer? && l.mode == Bare
    ensures var r := ScanAll(l, Shown(a) + " ");
            r.Beyond? ||
            (r.mode == Bare && Budget(r) <= Budget(l) + |a| + 1
             && (l.word.None? && !Faithful(a) ==> Budget(r) < Budget(l) + |a| + 1))
    ensures l.word.None? && Faithful(a) ==> ScanAll(l, Shown(a) + " ") == Lexer(l.words + [a], None, Bare)
  {
    ScanConcat(l, Shown(a), " ");
    ScanShown(l, a);
    var r := ScanAll(l, Shown(a));
    assert " "[1..] == "";
    assert ScanAll(r, " ") == Scan(r, ' ');
    if r.Lexer? && r.word.Some? {
      assert (r.words + [r.word.value])[..|r.words|] == r.words;
    }
  }

  // ----- the whole line -----------------------------------------------------------------------------

  predicate AllFaithful(args: seq<string>) {
    forall i :: 0 <= i < |args| ==> Faithful(args[i])
  }

  lemma AllFaithfulParts(a: string, rest: seq<string>)
    ensures AllFaithful([a] + rest) <==> Faithful(a) && AllFaithful(rest)
  {
    assert ([a] + rest)[0] == a;
    assert forall i :: 0 <= i < |rest| ==> ([a] + rest)[i + 1] == rest[i];
  }

  lemma ShownParts(a: string, rest: seq<string>)
    requires rest != []
    ensures Join(ShownAll([a] + rest), " ") == Shown(a) + " " + Join(ShownAll(rest), " ")
  {
    assert ShownAll([a] + rest) == [Shown(a)] + ShownAll(rest);
  }

  lemma ClosedSize(l: Lexer)
    ensures Closed(l).Some? ==> Size(Closed(l).value) == SizeOf(l)
  {
    if l.Lexer? {
      if l.word.Some? {
        assert (l.words + [l.word.value])[..|l.words|] == l.words;
      } else {
        assert l.words + [] == l.words;
      }
    }
  }

  /** What is read is no longer than what was printed, and as long only when the next word starts
      afresh and every argument is faithful. */
  predicate Bounded(read: Option<seq<string>>, l: Lexer, args: seq<string>)
    requires l.Lexer?
  {
    (read.Some? ==> Size(read.value) <= Budget(l) + Size(args))
    && (l.word.None? && AllFaithful(args) ==> read == Some(l.words + args))
    && (l.word.None? && !AllFaithful(args) ==> read.None? || Size(read.value) < Budget(l) + Size(args))
  }

  lemma BoundedOne(l: Lexer, a: string)
    requires l.Lexer? && l.mode == Bare
    ensures Bounded(Closed(ScanAll(l, Shown(a))), l, [a])
  {
    ScanShown(l, a);
    ClosedSize(ScanAll(l, Shown(a)));
    AllFaithfulParts(a, []);
    SizeConcat([], [a]);
    assert [a] + [] == [a] && [a][..0] == [];
    hide ScanAll;
    hide Shown;
    hide Faithful;
  }

  lemma BoundedMore(read: Option<seq<string>>, l: Lexer, next: Lexer, a: string, rest: seq<string>)
    requires l.Lexer? && next.Lexer? && Bounded(read, next, rest)
    requires Budget(next) <= Budget(l) + |a| + 1
    requires l.word.None? && !Faithful(a) ==> Budget(next) < Budget(l) + |a| + 1
    requires l.word.None? && Faithful(a) ==> next == Lexer(l.words + [a], None, Bare)
    ensures Bounded(read, l, [a] + rest)
  {
    AllFaithfulParts(a, rest);
    SizeConcat([a], rest);
    assert [a][..0] == [] && Size([a]) == |a| + 1;
    if l.word.None? && Faithful(a) {
      assert l.words + [a] + rest == l.words + ([a] + rest);
      SizeConcat(l.words, [a]);
    }
    hide Faithful;
    hide Size;
  }

  lemma {:induction false} ScanLine(l: Lexer, args: seq<string>)
    requires l.Lexer? && l.mode == Bare && args != []
    ensures Bounded(Closed(ScanAll(l, Join(ShownAll(args), " "))), l, args)
    decreases |args|
  {
    var a, rest := args[0], args[1..];
    assert args == [a] + rest;
    if rest == [] {
      assert args == [a] && ShownAll(args) == [Shown(a)];
      BoundedOne(l, a);
    } else {
      var tail := Join(ShownAll(rest), " ");
      ShownParts(a, rest);
      ScanConcat(l, Shown(a) + " ", tail);
      ScanSeparated(l, a);
      var next := ScanAll(l, Shown(a) + " ");
      hide Join;
      hide ShownAll;
      hide Shown;
      if next.Beyond? {
        ScanBeyond(tail);
        AllFaithfulParts(a, rest);
      } else {
        ScanLine(next, rest);
        BoundedMore(Closed(ScanAll(next, tail)), l, next, a, rest);
      }
    }
  }

  /** The line a step is shown as runs the step, pasted into a shell, exactly when every argument is
      non-empty and either was quoted or means nothing special to a shell. */
  lemma PastedBack(argv: seq<string>)
    ensures Words(Join(ShownAll(["ratline"] + argv), " ")) == Some(["ratline"] + argv)
            <==> AllFaithful(argv)
  {
    hide ScanAll;
    hide Faithful;
    hide Size;
    hide Join;
    hide ShownAll;
    hide AllFaithful;
    var start := Lexer([], None, Bare);
    ScanLine(start, ["ratline"] + argv);
    AllFaithfulParts("ratline", argv);
    RatlineIsFaithful();
    assert [] + (["ratline"] + argv) == ["ratline"] + argv;
  }

  lemma RatlineIsFaithful()
    ensures Faithful("ratline") && Budget(Lexer([], None, Bare)) == 0
  {
  }
}
