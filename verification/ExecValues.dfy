/** What the values of an environment file stand for (cmd/ratline-shell/exec.go), said of the text. */
module ExecValues {
  import opened Text
  import opened Bindings
  import opened ExecEnv

  datatype Unit = Plain(c: char) | Escaped(c: char)

  /** A byte that stands for itself is no backslash, nor the quote it is between. */
  predicate Fits(units: seq<Unit>, q: char) {
    forall i :: 0 <= i < |units| && units[i].Plain? ==> units[i].c != '\\' && units[i].c != q
  }

  function Written(units: seq<Unit>): string {
    if units == [] then ""
    else (if units[0].Plain? then [units[0].c] else ['\\', units[0].c]) + Written(units[1..])
  }

  /** What is written stands for its bytes, less the backslashes before them. */
  function Meaning(units: seq<Unit>): string {
    seq(|units|, i requires 0 <= i < |units| => units[i].c)
  }

  /** No quote: for text outside quotes. */
  const UNQUOTED := '\\'

  // ----- every text is written so -----------------------------------------------------------------------

  /** The units of a text up to the first quote that is not behind a backslash, and what is left: that
      quote and more, nothing, or one last backslash. */
  lemma {:induction false} Decomposes(s: string, q: char) returns (units: seq<Unit>, rest: string)
    requires q != '\\'
    ensures Fits(units, q) && s == Written(units) + rest
    ensures rest == "" || rest == "\\" || rest[0] == q
    decreases |s|
  {
    hide Written;
    hide Fits;
    NoUnits(q);
    if s == "" || s == "\\" || s[0] == q {
      units, rest := [], s;
    } else if s[0] == '\\' {
      var more, r := Decomposes(s[2..], q);
      units, rest := [Escaped(s[1])] + more, r;
      OneMore(Escaped(s[1]), more, q, r);
      assert s == ['\\', s[1]] + s[2..];
    } else {
      var more, r := Decomposes(s[1..], q);
      units, rest := [Plain(s[0])] + more, r;
      OneMore(Plain(s[0]), more, q, r);
      assert s == [s[0]] + s[1..];
    }
  }

  lemma NoUnits(q: char)
    ensures Written([]) == "" && Fits([], q)
  {
  }

  lemma OneMore(u: Unit, more: seq<Unit>, q: char, rest: string)
    requires Fits(more, q) && (u.Plain? ==> u.c != '\\' && u.c != q)
    ensures Fits([u] + more, q)
    ensures Written([u] + more) + rest == (if u.Plain? then [u.c] else ['\\', u.c]) + (Written(more) + rest)
  {
    assert ([u] + more)[1..] == more;
  }

  // ----- quoted values ------------------------------------------------------------------------------------

  /** Reading on through the units. */
  lemma {:induction false} QuotedThrough(s: string, q: char, i: nat, units: seq<Unit>)
    requires q != '\\' && Fits(units, q)
    requires i + |Written(units)| <= |s| && s[i..i + |Written(units)|] == Written(units)
    ensures Quoted(s, q, i) == Prefixed(Meaning(units), Quoted(s, q, i + |Written(units)|))
    decreases |units|
  {
    var w := Written(units);
    if units == [] {
      PrefixedStep("", q, Quoted(s, q, i));
      assert Meaning(units) == "";
    } else {
      var u, more := units[0], units[1..];
      var n := if u.Plain? then 1 else 2;
      assert |w| == n + |Written(more)| && w[n..] == Written(more);
      assert s[i..i + |w|][n..] == s[i + n..i + |w|];
      assert s[i] == s[i..i + |w|][0] == w[0];
      assert u.Escaped? ==> s[i + 1] == s[i..i + |w|][1] == w[1];
      QuotedThrough(s, q, i + n, more);
      PrefixedMore(u.c, Meaning(more), Quoted(s, q, i + |w|));
      assert Meaning(units) == [u.c] + Meaning(more);
    }
  }

  lemma PrefixedMore(c: char, b: string, r: Read)
    ensures Prefixed([c], Prefixed(b, r)) == Prefixed([c] + b, r)
  {
    if r.Some? {
      Assoc([c], b, r.value.0);
    }
  }

  predicate IsQuote(q: char) {
    q == '"' || q == '\''
  }

  predicate Blanks(s: string) {
    forall k :: 0 <= k < |s| ==> s[k] == ' ' || s[k] == '\t'
  }

  lemma StartsWithQuote(lead: string, q: char, more: string)
    requires Blanks(lead) && IsQuote(q)
    ensures TrimLeft(lead + ([q] + more), BLANK) == [q] + more
  {
    TrimLeftPad(lead, [q] + more, BLANK);
  }

  lemma QuotedCloses(q: char, units: seq<Unit>, tail: string)
    requires IsQuote(q) && Fits(units, q)
    ensures var s := [q] + (Written(units) + ([q] + tail));
            Quoted(s, q, 1) == Some((Meaning(units), 1 + |Written(units)|))
            && s[1 + |Written(units)| + 1..] == tail
  {
    var w := Written(units);
    var s := [q] + (w + ([q] + tail));
    assert s[1..1 + |w|] == w && s[1 + |w|] == q && s[1 + |w| + 1..] == tail;
    QuotedThrough(s, q, 1, units);
    assert Quoted(s, q, 1 + |w|) == Some(("", 1 + |w|));
    assert Meaning(units) + "" == Meaning(units);
  }

  /** A value between quotes stands for its text, if nothing but blanks or a comment follows; with any
      other text behind it, it is malformed. */
  lemma QuotedMeans(lead: string, q: char, units: seq<Unit>, tail: string)
    requires Blanks(lead) && IsQuote(q) && Fits(units, q)
    ensures UnquoteValue(lead + ([q] + (Written(units) + ([q] + tail)))) ==
            if TrimSpace(tail) == "" || TrimSpace(tail)[0] == '#' || TrimSpace(tail)[0] == ';'
            then Ok(Meaning(units)) else Err(TextAfterQuote)
  {
    hide Quoted;
    hide TrimLeft;
    hide TrimRight;
    hide Written;
    hide Meaning;
    hide Fits;
    QuotedCloses(q, units, tail);
    StartsWithQuote(lead, q, Written(units) + ([q] + tail));
  }

  /** A value whose quote is not closed is malformed. */
  lemma OpenQuoteMeans(lead: string, q: char, units: seq<Unit>, last: string)
    requires Blanks(lead) && IsQuote(q) && Fits(units, q) && (last == "" || last == "\\")
    ensures UnquoteValue(lead + ([q] + (Written(units) + last))) == Err(UnterminatedQuote)
  {
    var w := Written(units);
    var s := [q] + (w + last);
    StartsWithQuote(lead, q, w + last);
    assert s[1..1 + |w|] == w && s[1 + |w|..] == last;
    QuotedThrough(s, q, 1, units);
    assert Quoted(s, q, 1 + |w|) == None by {
      if last == "\\" {
        assert s[1 + |w|] == '\\' && |s| == 2 + |w|;
        assert Quoted(s, q, 2 + |w|) == None;
      }
    }
    hide Quoted;
    hide TrimLeft;
    hide Written;
  }

  // ----- values without quotes --------------------------------------------------------------------------

  lemma {:induction false} UnescapedThrough(units: seq<Unit>, last: string)
    requires Fits(units, UNQUOTED) && (last == "" || last == "\\")
    ensures Unescaped(Written(units) + last) == Meaning(units) + last
    decreases |units|
  {
    if units == [] {
      assert Written(units) + last == last && Meaning(units) + last == last;
      assert last == "\\" ==> last[1..] == "";
    } else {
      var u, more := units[0], units[1..];
      UnescapedThrough(more, last);
      var rest := Written(more) + last;
      assert Meaning(units) + last == [u.c] + (Meaning(more) + last);
      if u.Plain? {
        assert Written(units) + last == [u.c] + rest;
        assert ([u.c] + rest)[1..] == rest;
      } else {
        assert Written(units) + last == ['\\', u.c] + rest;
        assert (['\\', u.c] + rest)[2..] == rest;
      }
    }
  }

  /** A value without quotes stands for its text, less the blanks around it; one last backslash stands
      for itself. */
  lemma UnquotedMeans(lead: string, units: seq<Unit>, last: string, tail: string)
    requires Blanks(lead) && Blanks(tail) && Fits(units, UNQUOTED) && (last == "" || last == "\\")
    requires var w := Written(units) + last;
             w != "" && w[0] !in BLANK && !IsQuote(w[0]) && w[|w| - 1] !in BLANK
    ensures UnquoteValue(lead + ((Written(units) + last) + tail)) == Ok(Meaning(units) + last)
  {
    var w := Written(units) + last;
    TrimLeftPad(lead, w + tail, BLANK);
    TrimRightPad(w, tail, BLANK);
    UnescapedThrough(units, last);
    hide Written;
    hide Unescaped;
    hide TrimLeft;
    hide TrimRight;
  }

  /** Nothing at all, or blanks, stand for the empty text. */
  lemma EmptyMeans(lead: string)
    requires Blanks(lead)
    ensures UnquoteValue(lead) == Ok("")
  {
    TrimLeftPad(lead, "", BLANK);
    assert lead + "" == lead;
  }

  // ----- lines --------------------------------------------------------------------------------------------

  /** A name: letters, digits and underscores, the first no digit. */
  predicate IsName(name: string) {
    name != "" && !('0' <= name[0] <= '9')
    && forall i :: 0 <= i < |name| ==>
         name[i] == '_' || 'A' <= name[i] <= 'Z' || 'a' <= name[i] <= 'z' || '0' <= name[i] <= '9'
  }

  lemma NamesAre(name: string)
    ensures ValidName(name) <==> IsName(name)
  {
  }

  /** Blank lines and lines that start with '#' or ';' say nothing. */
  lemma SkippedLine(lead: string, text: string)
    requires Blanks(lead) && (text == "" || text[0] == '#' || text[0] == ';')
    ensures ReadLine(lead + text) == Nothing
  {
    TrimLeftPad(lead, text, BLANK);
  }

  /** Any other line without '=' is no assignment. */
  lemma LineWithoutEquals(lead: string, text: string)
    requires Blanks(lead) && text != "" && text[0] !in BLANK && text[0] != '#' && text[0] != ';' && '=' !in text
    ensures ReadLine(lead + text) == NotAssignment
  {
    TrimLeftPad(lead, text, BLANK);
    CutUnique(text, '=', "");
  }

  /** And one with '=' assigns the value to the name before the first, blanks around the name aside, if it
      is a name and the value well-formed and without a NUL. */
  lemma LineWithEquals(lead: string, name: string, pad: string, value: string)
    requires Blanks(lead) && Blanks(pad) && '=' !in name
    requires name != "" && Trimmed(name, SPACE) && name[0] != '#' && name[0] != ';'
    ensures ReadLine(lead + (name + pad + "=" + value)) ==
            if !IsName(name) then NotAssignment
            else match UnquoteValue(value)
              case Err(e) => BadValue(name, e)
              case Ok(t) => if exists i :: 0 <= i < |t| && t[i] == '\0' then HasNul(name) else Assigned((name, t))
  {
    hide TrimLeft;
    hide TrimRight;
    hide UnquoteValue;
    hide ValidName;
    hide IsName;
    hide Cut;
    NamesAre(name);
    LineParts(lead, name, pad, value);
  }

  lemma LineParts(lead: string, name: string, pad: string, value: string)
    requires Blanks(lead) && Blanks(pad) && '=' !in name && name != "" && Trimmed(name, SPACE)
    ensures var line := name + pad + "=" + value;
            TrimLeft(lead + line, BLANK) == line && line[0] == name[0]
            && Cut(line, '=') == Some((name + pad, value)) && TrimSpace(name + pad) == name
  {
    hide TrimLeft;
    hide TrimRight;
    hide Cut;
    TrimLeftPad(lead, name + pad + "=" + value, BLANK);
    CutUnique(name + pad, '=', value);
    TrimPad("", name, pad, SPACE);
    assert "" + name + pad == name + pad;
  }

  /** A line joins the next exactly when it ends in a backslash, less carriage returns, that is not behind
      another; the backslash is gone. */
  lemma JoinsNext(line: string, rest: seq<string>, cur: string)
    ensures Joined([line] + rest, cur) ==
            var s := WithoutCR(line);
            if |s| >= 1 && s[|s| - 1] == '\\' && (|s| == 1 || s[|s| - 2] != '\\')
            then Joined(rest, cur + s[..|s| - 1]) else [cur + s] + Joined(rest, "")
    ensures Joined([], cur) == if cur == "" then [] else [cur]
  {
    assert ([line] + rest)[1..] == rest;
  }

  // ----- a whole file -------------------------------------------------------------------------------------

  /** One line of a file: a name, and a value between quotes. */
  datatype Setting = Setting(name: string, quote: char, units: seq<Unit>)

  predicate WellFormed(s: Setting) {
    IsName(s.name) && IsQuote(s.quote) && Fits(s.units, s.quote)
    && '\n' !in Written(s.units) && '\0' !in Meaning(s.units)
  }

  function LineOf(s: Setting): string {
    s.name + "=" + ([s.quote] + (Written(s.units) + [s.quote]))
  }

  lemma LineOfIsOne(s: Setting)
    requires WellFormed(s)
    ensures '\n' !in LineOf(s) && !Continues(WithoutCR(LineOf(s))) && WithoutCR(LineOf(s)) == LineOf(s)
  {
    var line := LineOf(s);
    assert line[|line| - 1] == s.quote;
    TrimRightPad(line, "", {'\r'});
    assert line + "" == line;
    NameHasNoNewline(s.name);
  }

  lemma SettingIsRead(s: Setting)
    requires WellFormed(s)
    ensures ReadLine(LineOf(s)) == Assigned((s.name, Meaning(s.units)))
  {
    hide UnquoteValue;
    hide ReadLine;
    hide Written;
    hide TrimLeft;
    hide TrimRight;
    var value := [s.quote] + (Written(s.units) + [s.quote]);
    assert [s.quote] + "" == [s.quote];
    QuotedMeans("", s.quote, s.units, "");
    assert "" + value == value && TrimSpace("") == "" by {
      TrimmedFixed("", SPACE);
    }
    NameHasNoNewline(s.name);
    LineWithEquals("", s.name, "", value);
    assert s.name + "" == s.name && "" + (s.name + "=" + value) == LineOf(s);
  }

  lemma NameHasNoNewline(name: string)
    requires IsName(name)
    ensures '\n' !in name && '=' !in name && Trimmed(name, SPACE) && name[0] != '#' && name[0] != ';'
  {
  }

  function LinesOf(settings: seq<Setting>): seq<string> {
    seq(|settings|, i requires 0 <= i < |settings| => LineOf(settings[i]))
  }

  function Pairs(settings: seq<Setting>): seq<Binding> {
    seq(|settings|, i requires 0 <= i < |settings| => (settings[i].name, Meaning(settings[i].units)))
  }

  lemma {:induction false} LinesAssign(settings: seq<Setting>)
    requires forall i :: 0 <= i < |settings| ==> WellFormed(settings[i])
    ensures Assignments(LinesOf(settings)) == Pairs(settings)
  {
    hide LineOf;
    hide WellFormed;
    hide ReadLine;
    hide Meaning;
    if settings != [] {
      SettingIsRead(settings[0]);
      LinesAssign(settings[1..]);
      assert LinesOf(settings)[1..] == LinesOf(settings[1..]);
      assert Pairs(settings) == [(settings[0].name, Meaning(settings[0].units))] + Pairs(settings[1..]);
    }
  }

  /** A file of such lines gives every name its text, in order: the bytes as they were meant, whatever
      quotes, backslashes, blanks and comment marks they hold. */
  lemma FileMeans(settings: seq<Setting>)
    requires settings != [] && forall i :: 0 <= i < |settings| ==> WellFormed(settings[i])
    ensures EnvPairs(Join(LinesOf(settings), "\n")) == Pairs(settings)
  {
    var lines := LinesOf(settings);
    forall i | 0 <= i < |lines|
      ensures '\n' !in lines[i] && !Continues(WithoutCR(lines[i])) && WithoutCR(lines[i]) == lines[i]
    {
      LineOfIsOne(settings[i]);
    }
    hide LineOf;
    hide Continues;
    hide WithoutCR;
    assert "\n" == ['\n'];
    SplitJoin(lines, '\n');
    NothingToJoin(lines);
    assert Stripped(lines) == lines;
    LinesAssign(settings);
  }

  /** The lines that are warned about: those that say something and assign nothing. */
  ghost function Warned(lines: seq<string>): set<nat> {
    set i: nat | i < |lines| && !ReadLine(lines[i]).Nothing? && !ReadLine(lines[i]).Assigned?
  }

  /** One warning each. */
  lemma {:induction false} WarnsOnce(lines: seq<string>)
    ensures Warnings(lines) == |Warned(lines)|
  {
    hide ReadLine;
    if lines != [] {
      var n := |lines| - 1;
      var front, last := lines[..n], lines[n];
      WarnsOnce(front);
      assert lines == front + [last];
      AssignmentsConcat(front, [last]);
      assert [last][1..] == [];
      var r := ReadLine(last);
      assert Warned(lines) == Warned(front) + if r.Nothing? || r.Assigned? then {} else {n};
    }
  }

  // ----- the names of an environment ------------------------------------------------------------------------

  /** An entry has the name before its first '=', and without one it is its own. */
  predicate HasName(entry: string, name: string) {
    '=' !in name && (entry == name || (|name| < |entry| && entry[..|name|] == name && entry[|name|] == '='))
  }

  lemma EntryNameIs(entry: string, name: string)
    ensures NameOf(entry) == name <==> HasName(entry, name)
  {
    CutParts(entry, '=');
    if HasName(entry, name) && entry != name {
      CutUnique(name, '=', entry[|name| + 1..]);
      assert entry == name + ['='] + entry[|name| + 1..];
    }
  }
}
