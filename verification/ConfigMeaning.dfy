/** The small print of the configuration editor (internal/config/edit.go): keys, lines, places, refusals. */
module ConfigMeaning {
  import opened Text
  import opened ConfigLines
  import opened ConfigPaths
  import opened ConfigEdit
  import opened ConfigLaws

  // ----- keys -----------------------------------------------------------------------------------------

  predicate BreaksName(c: char) {
    c == ' ' || c == '\t' || c == ':' || c == '#' || c == '"' || c == '\''
  }

  predicate HasBreak(part: string) {
    exists i :: 0 <= i < |part| && BreaksName(part[i])
  }

  predicate Faulty(part: string) {
    part == "" || HasBreak(part)
  }

  lemma FaultsAre(part: string)
    ensures LegalName(part) <==> !Faulty(part)
  {
    assert forall c :: BreaksName(c) <==> c in NAME_BREAKERS;
  }

  /** A key is one to three names with dots between them; a name is not empty, and has no blank, colon,
      comment mark or quote. */
  lemma KeyIs(key: string)
    ensures var k := TrimSpace(key);
            var parts := Split(k, '.');
            KeyParts(key) == Ok(parts)
            <==> k != "" && |parts| <= 3 && forall i :: 0 <= i < |parts| ==> !Faulty(parts[i])
  {
    KeyPartsLegal(key);
    var parts := Split(TrimSpace(key), '.');
    forall i | 0 <= i < |parts| ensures LegalName(parts[i]) <==> !Faulty(parts[i]) {
      FaultsAre(parts[i]);
    }
  }

  /** Its first fault decides the error. */
  lemma KeyErrorIs(key: string)
    ensures var k := TrimSpace(key);
            var parts := Split(k, '.');
            (k == "" ==> KeyParts(key) == Err(NoSetting))
            && (k != "" && |parts| > 3 ==> KeyParts(key) == Err(TooDeep(|parts|)))
            && (k != "" && |parts| <= 3 ==>
                  forall i :: 0 <= i < |parts| && Faulty(parts[i])
                              && (forall j :: 0 <= j < i ==> !Faulty(parts[j])) ==>
                    KeyParts(key) == Err(if parts[i] == "" then EmptyComponent else BadName))
  {
    var parts := Split(TrimSpace(key), '.');
    forall i | 0 <= i < |parts| && Faulty(parts[i]) && (forall j :: 0 <= j < i ==> !Faulty(parts[j]))
      ensures FirstFault(parts) == Some(if parts[i] == "" then EmptyComponent else BadName)
    {
      FaultIs(parts, i);
    }
  }

  lemma {:induction false} FaultIs(parts: Path, i: nat)
    requires i < |parts| && Faulty(parts[i]) && forall j :: 0 <= j < i ==> !Faulty(parts[j])
    ensures FirstFault(parts) == Some(if parts[i] == "" then EmptyComponent else BadName)
    decreases i
  {
    FaultsAre(parts[0]);
    hide Faulty;
    if i > 0 {
      FaultIs(parts[1..], i - 1);
    }
  }

  // ----- lines ------------------------------------------------------------------------------------------

  /** A name behind n blanks and before a colon is an entry at half that depth; an odd number of blanks is
      refused. What follows the colon makes no difference. */
  lemma NameIsEntry(n: nat, name: string, after: string)
    requires LegalName(name) && PlainName(name)
    ensures Classify(Spaces(n) + name + ":" + after) == if n % 2 == 1 then Odd(n) else Entry(n / 2, name)
  {
    SpacedName(n, name);
    HeadDecides(Spaces(n) + name, after);
  }

  /** White space only, and white space before a comment, is a blank line. */
  lemma CommentIsBlank(lead: string, rest: string)
    requires forall i :: 0 <= i < |lead| ==> lead[i] == ' ' || lead[i] == '\t'
    ensures Classify(lead) == Blank && Classify(lead + "#" + rest) == Blank
  {
    var s := lead + "#" + rest;
    NoQuotesIn(lead);
    assert s[..|lead|] == lead && s[|lead|] == '#';
    assert |lead| > 0 ==> s[|lead| - 1] == lead[|lead| - 1];
    assert forall j :: 0 <= j < |lead| ==> s[j] == lead[j] != '#';
    assert OpensComment(s, |lead|);
    CommentAtLeast(s, |lead|);
    CommentAtLeast(lead, |lead|);
    TrimPad(lead, "", "", SPACE);
    assert lead + "" + "" == lead;
    assert TrimSpace(lead) == "";
    assert lead[..|lead|] == lead;
    assert StripComment(lead) == lead;
    assert StripComment(s) == lead;
  }

  lemma {:induction false} NoQuotesIn(s: string)
    requires forall i :: 0 <= i < |s| ==> s[i] != '\'' && s[i] != '"'
    ensures QuoteFrom(NO_QUOTE, s) == NO_QUOTE
  {
    if s != "" {
      NoQuotesIn(s[..|s| - 1]);
    }
  }

  /** A line UnsetValue takes along: a '#' behind nothing but white space. */
  lemma HashLineIs(line: string)
    ensures HashLine(line) <==>
            exists i :: 0 <= i < |line| && line[i] == '#'
                        && forall j :: 0 <= j < i ==> line[j] in {' ', '\t', '\n', '\r', 11 as char, 12 as char}
  {
    var l, r := TrimParts(line, SPACE);
    var t := TrimSpace(line);
    assert forall j :: 0 <= j < |l| ==> line[j] == l[j];
    hide TrimLeft;
    hide TrimRight;
    if t != "" {
      assert line[|l|] == t[0];
    } else {
      assert line == l + r;
      assert forall j :: |l| <= j < |line| ==> line[j] == r[j - |l|];
    }
  }

  // ----- the lines that are written ---------------------------------------------------------------------

  /** The line of a new key: two blanks for each section above it, its name, a colon, a blank, the value. */
  lemma NewLineIs(a: string, b: string, c: string, v: string)
    ensures NewLine([a], v) == a + ": " + v
    ensures NewLine([a, b], v) == "  " + b + ": " + v
    ensures NewLine([a, b, c], v) == "    " + c + ": " + v
  {
    assert Spaces(0) == "" && Spaces(2) == "  " && Spaces(4) == "    ";
    assert "" + a == a;
  }

  /** A replaced value: everything before the colon, a colon, a blank, the value; and two blanks and the
      comment, if there was one. */
  lemma ReplacedLineIs(before: string, after: string, v: string)
    requires ':' !in before
    ensures StripComment(after) == after ==> ReplaceValue(before + ":" + after, v) == before + ": " + v
    ensures StripComment(after) != after ==>
              ReplaceValue(before + ":" + after, v) == before + ": " + v + "  " + after[|StripComment(after)|..]
  {
    CutUnique(before, ':', after);
    hide CommentAt;
    hide Cut;
  }

  // ----- where a new line goes --------------------------------------------------------------------------

  /** Line i opens a section on the way to the key: its path is a beginning of the key's. */
  predicate OnTheWay(ks: seq<Kind>, p: Path, i: nat)
    requires i < |ks|
  {
    PathAt(ks, i).Some? && 0 < |PathAt(ks, i).value| < |p|
    && PathAt(ks, i).value == p[..|PathAt(ks, i).value|]
  }

  /** An absent key is added right below the last section on the way to it, and a top-level one behind the
      last line that is not blank. */
  lemma AddedWhere(lines: seq<string>, p: Path, v: string)
    requires |p| > 0 && Locate(Kinds(lines), p).Absent? && SetLines(lines, p, v).Ok?
    ensures exists at: nat ::
              at <= |lines| && SetLines(lines, p, v).value == lines[..at] + [NewLine(p, v)] + lines[at..]
              && (|p| == 1 ==> (forall j :: at <= j < |lines| ==> TrimSpace(lines[j]) == "")
                               && (at > 0 ==> TrimSpace(lines[at - 1]) != ""))
              && (|p| > 1 ==> at > 0 && OnTheWay(Kinds(lines), p, at - 1)
                              && forall j :: at <= j < |lines| ==> !OnTheWay(Kinds(lines), p, j))
  {
    hide NewLine;
    var ks := Kinds(lines);
    AddedText(lines, p, v);
    var at := AddAt(lines, p);
    forall j | at <= j < |lines| && |p| > 1 ensures !OnTheWay(ks, p, j) {
      NoAncestorAfterLast(ks, p, |ks|, j);
    }
  }

  /** Setting is refused exactly when the key is malformed, an odd indentation comes before the key is
      found, or the key is absent and no section on the way to it is there. */
  lemma RefusedIff(body: string, key: string, v: string)
    ensures var ks := Kinds(LinesOf(body));
            Set(body, key, v).Err? <==>
            KeyParts(key).Err? || Locate(ks, KeyParts(key).value).Refused?
            || (Locate(ks, KeyParts(key).value).Absent? && |KeyParts(key).value| > 1
                && forall i :: 0 <= i < |ks| ==> !OnTheWay(ks, KeyParts(key).value, i))
  {
    if KeyParts(key).Ok? {
      var p, ks := KeyParts(key).value, Kinds(LinesOf(body));
      hide KeyParts;
      hide Kinds;
      var parent := LastAncestor(ks, p, |ks|);
      forall i | 0 <= i < |ks| ensures OnTheWay(ks, p, i) ==> parent >= 0 {
        if OnTheWay(ks, p, i) && parent < 0 {
          NoAncestorAfterLast(ks, p, |ks|, i);
        }
      }
      assert parent >= 0 ==> |p| > 1 ==> OnTheWay(ks, p, parent);
      assert Locate(ks, p).Absent? ==> Locate(ks, p).parent == parent;
    }
  }
}
