/** What the configuration editor promises, and the exact condition under which it keeps that. */
module ConfigLaws {
  import opened Text
  import opened ConfigLines
  import opened ConfigPaths
  import opened ConfigEdit

  // ----- lines and their kinds ------------------------------------------------------------------

  lemma KindsInsert(lines: seq<string>, at: nat, line: string)
    requires at <= |lines|
    ensures Kinds(InsertLine(lines, at, line)) == Inserted(Kinds(lines), at, Classify(line))
  {
    var a, b := Kinds(InsertLine(lines, at, line)), Inserted(Kinds(lines), at, Classify(line));
    forall j | 0 <= j < |a| ensures a[j] == b[j] {
    }
  }

  lemma KindsWithout(lines: seq<string>, a: nat, b: nat)
    requires a <= b <= |lines|
    ensures Kinds(WithoutLines(lines, a, b)) == Removed(Kinds(lines), a, b)
  {
    var x, y := Kinds(WithoutLines(lines, a, b)), Removed(Kinds(lines), a, b);
    forall j | 0 <= j < |x| ensures x[j] == y[j] {
    }
  }

  lemma LinesAreFree(body: string)
    ensures Free(LinesOf(body), '\n')
  {
    SplitPieces(body, '\n');
  }

  lemma LinesOfBody(lines: seq<string>)
    requires |lines| >= 1 && Free(lines, '\n')
    ensures LinesOf(BodyOf(lines)) == lines
  {
    SplitJoin(lines, '\n');
  }

  lemma TrimSubset(s: string, c: char)
    requires c !in s
    ensures c !in TrimSpace(s)
  {
    var l, r := TrimParts(s, SPACE);
  }

  /** A name that a line can have: what the file can hold after trimming. */
  predicate PlainName(s: string) {
    '\n' !in s && Trimmed(s, SPACE)
  }

  lemma EntryNameIsPlain(line: string)
    requires '\n' !in line && Classify(line).Entry?
    ensures PlainName(Classify(line).name)
  {
    var x := TrimSpace(StripComment(line));
    TrimSubset(StripComment(line), '\n');
    CutParts(x, ':');
    var n := Cut(x, ':').value.0;
    TrimSubset(n, '\n');
    var l, r := TrimParts(n, SPACE);
  }

  lemma ValueHasNoNewline(line: string)
    requires '\n' !in line
    ensures '\n' !in ValueOf(line)
  {
    CutParts(line, ':');
    TrimSubset(StripComment(AfterColon(line)), '\n');
  }

  function Last(p: Path): string
    requires |p| > 0
  {
    p[|p| - 1]
  }

  lemma FoundLine(lines: seq<string>, p: Path)
    requires |p| > 0 && Locate(Kinds(lines), p).Found?
    ensures var i := Locate(Kinds(lines), p).idx;
            i < |lines| && Classify(lines[i]).Entry? && Classify(lines[i]).name == Last(p)
  {
  }

  /** Whatever the file says, only plain names and newline-free values are ever read from it. */
  lemma OnlyPlainIsRead(body: string, key: string)
    requires Get(body, key).Ok? && Get(body, key).value.Some?
    ensures '\n' !in Get(body, key).value.value
    ensures PlainName(Last(KeyParts(key).value))
  {
    var parts, lines := KeyParts(key).value, LinesOf(body);
    LinesAreFree(body);
    FoundLine(lines, parts);
    var i := Locate(Kinds(lines), parts).idx;
    assert '\n' !in lines[i];
    ValueHasNoNewline(lines[i]);
    EntryNameIsPlain(lines[i]);
  }

  // ----- replacing a value ------------------------------------------------------------------------

  predicate HasComment(line: string) {
    CommentAt(AfterColon(line)) < |AfterColon(line)|
  }

  function CommentText(line: string): string {
    AfterColon(line)[CommentAt(AfterColon(line))..]
  }

  lemma LegalIsClean(s: string)
    requires LegalName(s)
    ensures Clean(s)
  {
  }

  lemma CommentStartsWithHash(s: string)
    requires CommentAt(s) < |s|
    ensures s[CommentAt(s)..][0] == '#'
  {
    CommentAtLeast(s, CommentAt(s));
  }

  /** A colon and a space, told apart. */
  lemma Colon(before: string, v: string, tail: string)
    ensures before + ": " + v + tail == before + [':'] + (" " + v + tail)
    ensures before + ": " + v == before + [':'] + (" " + v)
  {
    var head := before + [':'];
    Assoc(before, [':'], " ");
    assert ": " == [':'] + " ";
    Assoc(head, " ", v);
    Assoc(head, " " + v, tail);
  }

  /** The rewritten line: same head, so same kind; and what its value part has become. */
  lemma ReplacedLine(line: string, v: string)
    requires Classify(line).Entry? && LegalName(Classify(line).name)
    ensures Classify(ReplaceValue(line, v)) == Classify(line)
    ensures AfterColon(ReplaceValue(line, v)) == " " + v + TrailingComment(AfterColon(line))
    ensures Cut(ReplaceValue(line, v), ':').Some? && Cut(line, ':').Some?
    ensures Cut(ReplaceValue(line, v), ':').value.0 == Cut(line, ':').value.0
  {
    LegalIsClean(Classify(line).name);
    var before, after := EntryHead(line);
    var tail := " " + v + TrailingComment(after);
    Colon(before, v, TrailingComment(after));
    HeadDecides(before, tail);
    CutUnique(before, ':', tail);
  }

  lemma ReplacedValue(line: string, v: string)
    requires Classify(line).Entry? && LegalName(Classify(line).name) && '\n' !in v
    ensures ValueOf(ReplaceValue(line, v)) == v <==> Readable(v, HasComment(line))
  {
    ReplacedLine(line, v);
    var after := AfterColon(line);
    if HasComment(line) {
      CommentStartsWithHash(after);
      ReadBack(v, CommentText(line));
    } else {
      ReadBack(v, "");
    }
  }

  lemma ReplacedIsFree(line: string, v: string)
    requires '\n' !in line && '\n' !in v
    ensures '\n' !in ReplaceValue(line, v)
  {
    CutParts(line, ':');
  }

  lemma CommentSurvives(line: string, v: string)
    requires Classify(line).Entry? && LegalName(Classify(line).name)
    requires CommentSafe(v) && Closed(v)
    ensures HasComment(ReplaceValue(line, v)) == HasComment(line)
    ensures CommentText(ReplaceValue(line, v)) == CommentText(line)
  {
    ReplacedLine(line, v);
    CommentBehindValue(v, AfterColon(line));
  }

  lemma CommentBehindValue(v: string, after: string)
    requires CommentSafe(v) && Closed(v)
    ensures var s := " " + v + TrailingComment(after);
            (CommentAt(s) < |s| <==> CommentAt(after) < |after|)
            && s[CommentAt(s)..] == after[CommentAt(after)..]
  {
    var c := after[CommentAt(after)..];
    if CommentAt(after) < |after| {
      CommentStartsWithHash(after);
      CommentBehind(v, c);
      assert (" " + v + ("  " + c))[|v| + 3..] == c;
    } else {
      assert " " + v + "" == " " + v;
    }
  }

  lemma PartsAreLegal(key: string)
    requires KeyParts(key).Ok?
    ensures |KeyParts(key).value| > 0
    ensures forall i :: 0 <= i < |KeyParts(key).value| ==> LegalName(KeyParts(key).value[i])
  {
    KeyPartsLegal(key);
  }

  // ----- adding a line ------------------------------------------------------------------------------

  lemma SpacesTrim(n: nat, s: string)
    requires s != "" ==> s[0] != ' '
    ensures TrimLeft(Spaces(n) + s, {' '}) == s
    ensures AllIn(Spaces(n), SPACE) && '\n' !in Spaces(n)
  {
    TrimLeftPad(Spaces(n), s, {' '});
  }

  lemma SpacedName(n: nat, name: string)
    requires LegalName(name) && PlainName(name)
    ensures Clean(Spaces(n) + name) && TrimSpace(Spaces(n) + name) == name
    ensures Indent(Spaces(n) + name) == n
  {
    LegalIsClean(name);
    SpacesTrim(n, name);
    TrimPad(Spaces(n), name, "", SPACE);
    assert Spaces(n) + name + "" == Spaces(n) + name;
    forall k | 0 <= k < n + |name| ensures (Spaces(n) + name)[k] !in {'\'', '"', '#', ':'} {
      assert k >= n ==> (Spaces(n) + name)[k] == name[k - n];
    }
  }

  /** The line SetValue writes for an absent key is an entry of that name, one level below the
      parent, holding the value. */
  lemma NewLineKind(parts: Path, v: string)
    requires |parts| > 0 && LegalName(Last(parts)) && PlainName(Last(parts))
    ensures Classify(NewLine(parts, v)) == Entry(|parts| - 1, Last(parts))
    ensures AfterColon(NewLine(parts, v)) == " " + v
  {
    SpacedNameDecides((|parts| - 1) * INDENT_WIDTH, Last(parts), v);
  }

  lemma SpacedNameDecides(n: nat, name: string, v: string)
    requires LegalName(name) && PlainName(name) && n % INDENT_WIDTH == 0
    ensures Classify(Spaces(n) + name + ": " + v) == Entry(n / INDENT_WIDTH, name)
    ensures AfterColon(Spaces(n) + name + ": " + v) == " " + v
  {
    SpacedName(n, name);
    Colon(Spaces(n) + name, v, "");
    HeadDecides(Spaces(n) + name, " " + v);
    CutUnique(Spaces(n) + name, ':', " " + v);
  }

  lemma NewLineValue(parts: Path, v: string)
    requires |parts| > 0 && LegalName(Last(parts)) && PlainName(Last(parts)) && '\n' !in v
    ensures ValueOf(NewLine(parts, v)) == v <==> Readable(v, false)
    ensures '\n' !in NewLine(parts, v)
  {
    NewLineKind(parts, v);
    SpacesTrim((|parts| - 1) * INDENT_WIDTH, Last(parts));
    ReadBack(v, "");
    assert " " + v + "" == " " + v;
  }

  lemma BlankIsBlank(line: string)
    requires TrimSpace(line) == ""
    ensures Classify(line).Blank?
  {
    var l, r := TrimParts(line, SPACE);
    CommentAtLeast(line, CommentAt(line));
    assert CommentAt(line) == |line|;
    assert StripComment(line) == line;
  }

  /** The section right above the key stands at line i, and no section on the way to the key starts
      after it. */
  predicate SectionAt(ks: seq<Kind>, p: Path, i: nat)
    requires |p| > 0 && i < |ks|
  {
    PathAt(ks, i) == Some(p[..|p| - 1]) && forall j :: i < j < |ks| ==> !Ancestor(ks, p, j)
  }

  /** The section right above the key is there, and is the last one on the way to the key. */
  predicate SectionIsLast(ks: seq<Kind>, p: Path)
    requires |p| > 0
  {
    |p| == 1 || exists i :: 0 <= i < |ks| && SectionAt(ks, p, i)
  }

  /** That is what findKey looks at: the parent it reports for an absent key. */
  lemma ParentIsSection(ks: seq<Kind>, p: Path)
    requires |p| > 1
    ensures var parent := LastAncestor(ks, p, |ks|);
            SectionIsLast(ks, p) <==> parent >= 0 && PathAt(ks, parent) == Some(p[..|p| - 1])
  {
    var parent := LastAncestor(ks, p, |ks|);
    forall j | parent < j < |ks| ensures !Ancestor(ks, p, j) {
      NoAncestorAfterLast(ks, p, |ks|, j);
    }
    if parent >= 0 && PathAt(ks, parent) == Some(p[..|p| - 1]) {
      assert SectionAt(ks, p, parent);
    }
    if i :| 0 <= i < |ks| && SectionAt(ks, p, i) {
      assert Ancestor(ks, p, i);
      assert parent <= i;
    }
  }

  /** No section on the way to the key is opened twice. */
  predicate SectionsOnce(ks: seq<Kind>, p: Path) {
    forall i, j :: 0 <= i < j < |ks| && Ancestor(ks, p, i) && Ancestor(ks, p, j) ==> PathAt(ks, i) != PathAt(ks, j)
  }

  /** What is open was opened by an earlier line. */
  lemma {:induction false} OpenedBefore(ks: seq<Kind>, n: nat, d: nat) returns (i: nat)
    requires n <= |ks| && 0 < d <= |Open(ks, n)|
    ensures i < n && PathAt(ks, i) == Some(Open(ks, n)[..d])
  {
    var open, k := Open(ks, n - 1), ks[n - 1];
    if PathAt(ks, n - 1).Some? && d == k.level + 1 {
      i := n - 1;
      assert Open(ks, n)[..d] == Open(ks, n);
    } else {
      assert open[..d] == Open(ks, n)[..d];
      i := OpenedBefore(ks, n - 1, d);
    }
  }

  /** An ancestor of the key that comes after the section right above it opens a section again. */
  lemma OpenedAgain(ks: seq<Kind>, p: Path, i: nat, j: nat) returns (h: nat)
    requires |p| > 1 && i < j < |ks| && PathAt(ks, i) == Some(p[..|p| - 1]) && Ancestor(ks, p, j)
    ensures h < j && Ancestor(ks, p, h) && PathAt(ks, h) == PathAt(ks, j)
  {
    var q := PathAt(ks, j).value;
    assert Open(ks, i + 1) == p[..|p| - 1];
    h := OpenedBefore(ks, i + 1, |q|);
    assert p[..|p| - 1][..|q|] == q;
  }

  /** Where no section is opened twice, the section right above the key only has to be there. */
  lemma SectionsOnceSuffice(ks: seq<Kind>, p: Path)
    requires |p| > 1 && SectionsOnce(ks, p)
    ensures SectionIsLast(ks, p) <==> exists i :: 0 <= i < |ks| && PathAt(ks, i) == Some(p[..|p| - 1])
  {
    if i :| 0 <= i < |ks| && PathAt(ks, i) == Some(p[..|p| - 1]) {
      forall j | i < j < |ks| ensures !Ancestor(ks, p, j) {
        if Ancestor(ks, p, j) {
          var h := OpenedAgain(ks, p, i, j);
        }
      }
      assert SectionAt(ks, p, i);
    }
  }

  /** A section that is there, and then an outer one opened again: it is not the last. */
  lemma RepeatedSectionIsNotLast()
    ensures var ks := [Entry(0, "a"), Entry(1, "b"), Entry(0, "a")];
            PathAt(ks, 1) == Some(["a", "b"]) && !SectionIsLast(ks, ["a", "b", "c"])
  {
    var ks, p := [Entry(0, "a"), Entry(1, "b"), Entry(0, "a")], ["a", "b", "c"];
    assert Open(ks, 1) == ["a"] && Open(ks, 2) == ["a", "b"];
    assert PathAt(ks, 2) == Some(["a"]) && p[..1] == ["a"];
    assert Ancestor(ks, p, 2);
    assert |p[..2]| == 2;
  }

  /** Where SetValue adds an absent key. */
  function AddAt(lines: seq<string>, p: Path): (at: nat)
    requires |p| > 0
    ensures at <= |lines|
  {
    if |p| == 1 then EndOfText(lines) else LastAncestor(Kinds(lines), p, |lines|) + 1
  }

  lemma AbsentHasNoOdd(ks: seq<Kind>, p: Path)
    requires Locate(ks, p).Absent?
    ensures NoOdd(ks)
  {
    forall j | 0 <= j < |ks| ensures !ks[j].Odd? {
      assert !Stop(ks, p, j);
    }
  }

  lemma AddedText(lines: seq<string>, p: Path, v: string)
    requires |p| > 0 && Locate(Kinds(lines), p).Absent? && SetLines(lines, p, v).Ok?
    ensures SetLines(lines, p, v).value == InsertLine(lines, AddAt(lines, p), NewLine(p, v))
    ensures AddsAt(Kinds(lines), p, AddAt(lines, p))
  {
  }

  /** Adding a key that is absent: the file gains exactly that line. */
  lemma AddedLines(lines: seq<string>, p: Path, v: string, at: nat)
    requires |p| > 0 && LegalName(Last(p)) && PlainName(Last(p)) && '\n' !in v && Free(lines, '\n')
    requires at <= |lines|
    ensures Kinds(InsertLine(lines, at, NewLine(p, v))) == Inserted(Kinds(lines), at, Addition(p))
    ensures LinesOf(BodyOf(InsertLine(lines, at, NewLine(p, v)))) == InsertLine(lines, at, NewLine(p, v))
  {
    NewLineKind(p, v);
    NewLineValue(p, v);
    KindsInsert(lines, at, NewLine(p, v));
    LinesOfBody(InsertLine(lines, at, NewLine(p, v)));
  }

  /** The kind of the line added for `p`. */
  function Addition(p: Path): Kind
    requires |p| > 0
  {
    Entry(|p| - 1, Last(p))
  }

  /** `at` is where SetValue adds `p`; any place will do for a top-level key. */
  predicate AddsAt(ks: seq<Kind>, p: Path, at: nat)
    requires |p| > 0
  {
    at <= |ks| && (|p| == 1 || at == LastAncestor(ks, p, |ks|) + 1 > 0)
  }

  lemma AddedIsFound(ks: seq<Kind>, p: Path, at: nat)
    requires |p| > 0 && Locate(ks, p).Absent? && AddsAt(ks, p, at) && SectionIsLast(ks, p)
    ensures |p| - 1 <= |Open(ks, at)| && Open(ks, at)[..|p| - 1] == p[..|p| - 1]
    ensures Locate(Inserted(ks, at, Addition(p)), p).Found?
    ensures Locate(Inserted(ks, at, Addition(p)), p).idx == at
  {
    if |p| > 1 {
      ParentIsSection(ks, p);
    }
    assert Open(ks, at)[..|p| - 1] == p[..|p| - 1];
    InsertedIsFound(ks, p, at);
  }

  /** With a section missing in between, the added line belongs to nothing. */
  lemma AddedIsLost(ks: seq<Kind>, p: Path, at: nat)
    requires |p| > 0 && Locate(ks, p).Absent? && AddsAt(ks, p, at) && !SectionIsLast(ks, p)
    requires at > 0
    ensures var ks' := Inserted(ks, at, Addition(p));
            Gap(ks', ks, at, at + 1) && PathAt(ks', at) == None
  {
    AbsentHasNoOdd(ks, p);
    ParentIsSection(ks, p);
    TooDeepGap(ks, at, Addition(p));
    TooDeepPath(ks, at, Addition(p));
  }

  // ----- what is set can be read back ---------------------------------------------------------------

  /** The line a key that is present is read from. */
  function LineOf(body: string, key: string): (i: nat)
    requires Get(body, key).Ok? && Get(body, key).value.Some?
    ensures i < |LinesOf(body)|
  {
    Locate(Kinds(LinesOf(body)), KeyParts(key).value).idx
  }

  lemma SetPresentText(body: string, key: string, v: string)
    requires Get(body, key).Ok? && Get(body, key).value.Some?
    ensures var lines, i := LinesOf(body), LineOf(body, key);
            Set(body, key, v) == Ok(BodyOf(lines[i := ReplaceValue(lines[i], v)]))
            && Classify(lines[i]).Entry? && LegalName(Classify(lines[i]).name)
  {
    FoundLine(LinesOf(body), KeyParts(key).value);
    PartsAreLegal(key);
  }

  /** The lines after setting a key that is present, and their kinds. */
  lemma SetPresentLines(body: string, key: string, v: string)
    requires Get(body, key).Ok? && Get(body, key).value.Some? && '\n' !in v
    ensures Set(body, key, v).Ok?
    ensures var lines, i := LinesOf(body), LineOf(body, key);
            LinesOf(Set(body, key, v).value) == lines[i := ReplaceValue(lines[i], v)]
            && Kinds(LinesOf(Set(body, key, v).value)) == Kinds(lines)
  {
    var lines, i := LinesOf(body), LineOf(body, key);
    SetPresentText(body, key, v);
    LinesAreFree(body);
    ReplacedIsFree(lines[i], v);
    LinesOfBody(lines[i := ReplaceValue(lines[i], v)]);
    ReplacedLine(lines[i], v);
  }

  /** Setting a key that is present: it reads back exactly when the value is readable there. */
  lemma SetThenGetPresent(body: string, key: string, v: string)
    requires Get(body, key).Ok? && Get(body, key).value.Some?
    ensures Set(body, key, v).Ok?
    ensures Get(Set(body, key, v).value, key) == Ok(Some(v)) <==>
            Readable(v, HasComment(LinesOf(body)[LineOf(body, key)]))
  {
    SetPresentText(body, key, v);
    if '\n' in v {
      if Get(Set(body, key, v).value, key) == Ok(Some(v)) {
        OnlyPlainIsRead(Set(body, key, v).value, key);
      }
    } else {
      SetPresentLines(body, key, v);
      ReplacedValue(LinesOf(body)[LineOf(body, key)], v);
    }
  }

  /** Replacing a value keeps the line count, every other line and the head of its own line; and the
      text of its trailing comment too, if the value opens no comment and leaves no quote open. */
  lemma ReplaceKeepsTheRest(body: string, key: string, v: string)
    requires Get(body, key).Ok? && Get(body, key).value.Some?
    requires '\n' !in v
    ensures Set(body, key, v).Ok?
    ensures var lines, lines', i := LinesOf(body), LinesOf(Set(body, key, v).value), LineOf(body, key);
            |lines'| == |lines|
            && (forall j :: 0 <= j < |lines| && j != i ==> lines'[j] == lines[j])
            && Cut(lines[i], ':').Some? && Cut(lines'[i], ':').Some?
            && Cut(lines'[i], ':').value.0 == Cut(lines[i], ':').value.0
            && (CommentSafe(v) && Closed(v) ==>
                  HasComment(lines'[i]) == HasComment(lines[i]) && CommentText(lines'[i]) == CommentText(lines[i]))
  {
    var line := LinesOf(body)[LineOf(body, key)];
    SetPresentText(body, key, v);
    SetPresentLines(body, key, v);
    ReplacedLine(line, v);
    if CommentSafe(v) && Closed(v) {
      CommentSurvives(line, v);
    }
  }

  /** Setting a key that is absent: it reads back exactly when the value is readable, the name
      is one a line can hold, and the section right above it is there and is the last section on the
      way to it. */
  lemma SetThenGetAbsent(body: string, key: string, v: string)
    requires Get(body, key) == Ok(None) && Set(body, key, v).Ok?
    ensures Get(Set(body, key, v).value, key) == Ok(Some(v)) <==>
            Readable(v, false) && PlainName(Last(KeyParts(key).value))
            && SectionIsLast(Kinds(LinesOf(body)), KeyParts(key).value)
  {
    var parts, lines := KeyParts(key).value, LinesOf(body);
    var out := Set(body, key, v).value;
    if '\n' in v || !PlainName(Last(parts)) {
      if Get(out, key) == Ok(Some(v)) {
        OnlyPlainIsRead(out, key);
      }
    } else {
      AddedReads(body, key, v);
      NewLineValue(parts, v);
    }
  }

  /** What the key reads as once its line is added. */
  lemma AddedReads(body: string, key: string, v: string)
    requires Get(body, key) == Ok(None) && Set(body, key, v).Ok?
    requires '\n' !in v && PlainName(Last(KeyParts(key).value))
    ensures LegalName(Last(KeyParts(key).value))
    ensures Get(Set(body, key, v).value, key) ==
            if SectionIsLast(Kinds(LinesOf(body)), KeyParts(key).value)
            then Ok(Some(ValueOf(NewLine(KeyParts(key).value, v)))) else Ok(None)
  {
    var parts, lines := KeyParts(key).value, LinesOf(body);
    var at, ks := AddAt(lines, parts), Kinds(lines);
    PartsAreLegal(key);
    LinesAreFree(body);
    AddedText(lines, parts, v);
    AddedLines(lines, parts, v, at);
    if SectionIsLast(ks, parts) {
      AddedIsFound(ks, parts, at);
    } else {
      AddedIsLost(ks, parts, at);
      LostIsAbsent(ks, parts, at);
    }
  }

  lemma LostIsAbsent(ks: seq<Kind>, p: Path, at: nat)
    requires |p| > 0 && Locate(ks, p).Absent? && at <= |ks|
    requires Gap(Inserted(ks, at, Addition(p)), ks, at, at + 1)
    requires |Inserted(ks, at, Addition(p))| == |ks| + 1 && PathAt(Inserted(ks, at, Addition(p)), at) == None
    ensures Locate(Inserted(ks, at, Addition(p)), p).Absent?
  {
    var ks' := Inserted(ks, at, Addition(p));
    assert ks'[at] == Addition(p);
    assert !Stop(ks', p, at);
    GapLocate(ks', ks, at, at + 1, p);
  }

  // ----- two files that lose a key --------------------------------------------------------------------

  /** The line of a section. */
  lemma SectionLine(n: nat, name: string)
    requires LegalName(name) && PlainName(name) && n % INDENT_WIDTH == 0
    ensures Classify(Spaces(n) + name + ":") == Entry(n / INDENT_WIDTH, name)
  {
    SpacedName(n, name);
    HeadDecides(Spaces(n) + name, "");
    assert Spaces(n) + name + [':'] + "" == Spaces(n) + name + ":";
  }

  const NESTED_KEY := "a.b.c"
  const NESTED_PATH: Path := ["a", "b", "c"]

  lemma NestedSplit()
    ensures Split(NESTED_KEY, '.') == NESTED_PATH
  {
    hide Split;
    SplitCons("a", '.', "b.c");
    SplitCons("b", '.', "c");
    SplitCons("c", '.', "");
    assert "a" + ['.'] + "b.c" == NESTED_KEY && "b" + ['.'] + "c" == "b.c";
  }

  lemma NestedKey()
    ensures KeyParts(NESTED_KEY) == Ok(NESTED_PATH)
  {
    hide Split;
    hide FirstFault;
    hide TrimLeft;
    hide TrimRight;
    TrimmedFixed(NESTED_KEY, SPACE);
    NestedSplit();
    FaultlessIsLegal(NESTED_PATH);
  }

  /** A key at the end of a path whose section is not the last is lost, whatever it is set to. */
  lemma NestedKeyIsLost(body: string, ks: seq<Kind>, parent: nat, v: string)
    requires Kinds(LinesOf(body)) == ks && '\n' !in v
    requires Locate(ks, NESTED_PATH) == Absent(parent) && !SectionIsLast(ks, NESTED_PATH)
    ensures Get(body, NESTED_KEY) == Ok(None) && Set(body, NESTED_KEY, v).Ok?
    ensures Get(Set(body, NESTED_KEY, v).value, NESTED_KEY) == Ok(None)
  {
    hide Locate;
    hide Kinds;
    hide LinesOf;
    hide BodyOf;
    hide SectionIsLast;
    NestedKey();
    hide KeyParts;
    assert Last(NESTED_PATH) == "c";
    AddedReads(body, NESTED_KEY, v);
  }

  /** The middle section is missing: findKey returns the outermost one as the parent, and the key that
      is set below it is lost. */
  lemma MissingSectionLoses(v: string)
    requires '\n' !in v
    ensures Locate(Kinds(LinesOf("a:")), NESTED_PATH) == Absent(0)
    ensures Get("a:", NESTED_KEY) == Ok(None) && Set("a:", NESTED_KEY, v).Ok?
    ensures Get(Set("a:", NESTED_KEY, v).value, NESTED_KEY) == Ok(None)
  {
    var ks := [Entry(0, "a")];
    SplitCons("a:", '\n', "");
    SectionLine(0, "a");
    assert Spaces(0) + "a" + ":" == "a:";
    assert Kinds(LinesOf("a:")) == ks;
    AbsentParentMayBeRemote();
    assert !SectionIsLast(ks, NESTED_PATH);
    NestedKeyIsLost("a:", ks, 0, v);
  }

  lemma RepeatedLines()
    ensures Split("a:\n  b:\na:", '\n') == ["a:", "  b:", "a:"]
  {
    hide Split;
    SplitCons("a:", '\n', "  b:\na:");
    SplitCons("  b:", '\n', "a:");
    SplitCons("a:", '\n', "");
    assert "a:" + ['\n'] + "  b:\na:" == "a:\n  b:\na:" && "  b:" + ['\n'] + "a:" == "  b:\na:";
  }

  lemma RepeatedKinds()
    ensures Kinds(LinesOf("a:\n  b:\na:")) == [Entry(0, "a"), Entry(1, "b"), Entry(0, "a")]
  {
    hide Split;
    hide Classify;
    RepeatedLines();
    SectionLine(0, "a");
    SectionLine(2, "b");
    assert Spaces(0) + "a" + ":" == "a:" && Spaces(2) + "b" + ":" == "  b:";
  }

  /** The section right above the key is there, but an outer one is opened again after it: the key that
      is set is lost. */
  lemma RepeatedSectionLoses(v: string)
    requires '\n' !in v
    ensures var body := "a:\n  b:\na:";
            PathAt(Kinds(LinesOf(body)), 1) == Some(["a", "b"])
            && Get(body, NESTED_KEY) == Ok(None) && Set(body, NESTED_KEY, v).Ok?
            && Get(Set(body, NESTED_KEY, v).value, NESTED_KEY) == Ok(None)
  {
    var body, ks := "a:\n  b:\na:", [Entry(0, "a"), Entry(1, "b"), Entry(0, "a")];
    hide *;
    RepeatedKinds();
    RepeatedSectionIsNotLast();
    RepeatedSectionIsParent();
    NestedKeyIsLost(body, ks, 2, v);
  }

  lemma RepeatedSectionIsParent()
    ensures Locate([Entry(0, "a"), Entry(1, "b"), Entry(0, "a")], NESTED_PATH) == Absent(2)
  {
    var ks, p := [Entry(0, "a"), Entry(1, "b"), Entry(0, "a")], NESTED_PATH;
    assert Open(ks, 1) == ["a"] && Open(ks, 2) == ["a", "b"];
    assert PathAt(ks, 0) == Some(["a"]) && PathAt(ks, 1) == Some(["a", "b"]) && PathAt(ks, 2) == Some(["a"]);
    assert p[..1] == ["a"];
    assert Ancestor(ks, p, 2);
    assert forall i :: 0 <= i < 3 ==> !Stop(ks, p, i);
  }

  // ----- nothing else changes -----------------------------------------------------------------------

  /** Setting a key that is present changes what no other key reads as, on any file. */
  lemma SetPresentKeepsOthers(body: string, key: string, v: string, other: string)
    requires Get(body, key).Ok? && Get(body, key).value.Some? && '\n' !in v
    requires KeyParts(other) != KeyParts(key)
    ensures Set(body, key, v).Ok? && Get(Set(body, key, v).value, other) == Get(body, other)
  {
    SetPresentLines(body, key, v);
    if KeyParts(other).Ok? {
      var lines, i := LinesOf(body), LineOf(body, key);
      UpdateKeepsOthers(lines, i, ReplaceValue(lines[i], v), KeyParts(key).value, KeyParts(other).value);
    }
  }

  lemma UpdateKeepsOthers(lines: seq<string>, i: nat, line: string, p: Path, q: Path)
    requires i < |lines| && Kinds(lines[i := line]) == Kinds(lines)
    requires PathAt(Kinds(lines), i) == Some(p) && p != q
    ensures GetLines(lines[i := line], q) == GetLines(lines, q)
  {
  }

  predicate SameLines(long: seq<string>, short: seq<string>, a: nat, b: nat) {
    a <= b <= |long| && short == long[..a] + long[b..]
  }

  /** Across a gap of lines, a path that no left-out line has reads the same. */
  lemma GapReads(long: seq<string>, short: seq<string>, a: nat, b: nat, q: Path)
    requires SameLines(long, short, a, b)
    requires Gap(Kinds(long), Kinds(short), a, b) && Clear(Kinds(long), q, a, b)
    ensures GetLines(long, q) == GetLines(short, q)
  {
    hide Gap;
    hide Clear;
    hide Locate;
    hide Kinds;
    hide ValueOf;
    var l, s := Kinds(long), Kinds(short);
    GapLocate(l, s, a, b, q);
    GapHasNoOdd(l, s, a, b, q);
  }

  lemma GapHasNoOdd(long: seq<Kind>, short: seq<Kind>, a: nat, b: nat, q: Path)
    requires Gap(long, short, a, b)
    ensures !Locate(long, q).Refused? && !Locate(short, q).Refused?
  {
    NoOddLocate(long, q);
    NoOddLocate(short, q);
  }

  lemma NoOddLocate(ks: seq<Kind>, q: Path)
    requires NoOdd(ks)
    ensures !Locate(ks, q).Refused?
  {
  }

  lemma InsertIsGap(lines: seq<string>, at: nat, line: string)
    requires at <= |lines|
    ensures SameLines(InsertLine(lines, at, line), lines, at, at + 1)
  {
    var l := InsertLine(lines, at, line);
    assert l[..at] == lines[..at] && l[at + 1..] == lines[at..];
    assert lines == lines[..at] + lines[at..];
  }

  lemma EndIsSlot(lines: seq<string>)
    ensures Slot(Kinds(lines), EndOfText(lines), 0)
  {
    forall j | EndOfText(lines) <= j < |lines| ensures Kinds(lines)[j].Blank? {
      BlankIsBlank(lines[j]);
    }
  }

  /** The line added for a key leaves a gap where it stands, in a well-formed file. */
  lemma AdditionGap(ks: seq<Kind>, p: Path, at: nat)
    requires |p| > 0 && Locate(ks, p).Absent? && AddsAt(ks, p, at) && WellFormed(ks)
    requires |p| == 1 ==> Slot(ks, at, 0)
    ensures Gap(Inserted(ks, at, Addition(p)), ks, at, at + 1)
  {
    if !SectionIsLast(ks, p) {
      AddedIsLost(ks, p, at);
    } else {
      if |p| > 1 {
        ParentIsSection(ks, p);
      }
      InsertGap(ks, at, Addition(p));
    }
  }

  /** And no other path is at that line. */
  lemma AdditionPath(ks: seq<Kind>, p: Path, at: nat, q: Path)
    requires |p| > 0 && Locate(ks, p).Absent? && AddsAt(ks, p, at) && q != p
    ensures |Inserted(ks, at, Addition(p))| == |ks| + 1
    ensures Clear(Inserted(ks, at, Addition(p)), q, at, at + 1)
  {
    var ks' := Inserted(ks, at, Addition(p));
    assert ks'[at] == Addition(p);
    if !SectionIsLast(ks, p) {
      AddedIsLost(ks, p, at);
    } else {
      AddedIsFound(ks, p, at);
      InsertedPath(ks, p, at);
    }
    assert !Stop(ks', q, at);
  }

  /** Setting a key that is absent changes what no other key reads as, on a well-formed file. */
  lemma SetAbsentKeepsOthers(body: string, key: string, v: string, other: string)
    requires Get(body, key) == Ok(None) && Set(body, key, v).Ok? && '\n' !in v
    requires PlainName(Last(KeyParts(key).value)) && WellFormed(Kinds(LinesOf(body)))
    requires KeyParts(other).Ok? && KeyParts(other) != KeyParts(key)
    ensures Get(Set(body, key, v).value, other) == Get(body, other)
  {
    var p, q, lines := KeyParts(key).value, KeyParts(other).value, LinesOf(body);
    var at := AddAt(lines, p);
    PartsAreLegal(key);
    LinesAreFree(body);
    AddedText(lines, p, v);
    AddedLines(lines, p, v, at);
    EndIsSlot(lines);
    AdditionKeepsOthers(lines, p, at, NewLine(p, v), q);
  }

  lemma AdditionKeepsOthers(lines: seq<string>, p: Path, at: nat, line: string, q: Path)
    requires |p| > 0 && Locate(Kinds(lines), p).Absent? && AddsAt(Kinds(lines), p, at)
    requires WellFormed(Kinds(lines)) && (|p| == 1 ==> Slot(Kinds(lines), at, 0)) && q != p
    requires Kinds(InsertLine(lines, at, line)) == Inserted(Kinds(lines), at, Addition(p))
    ensures GetLines(InsertLine(lines, at, line), q) == GetLines(lines, q)
  {
    var ks, lines' := Kinds(lines), InsertLine(lines, at, line);
    AdditionGap(ks, p, at);
    AdditionPath(ks, p, at, q);
    InsertIsGap(lines, at, line);
    hide Gap;
    hide Clear;
    hide InsertLine;
    hide Inserted;
    hide GetLines;
    hide Locate;
    GapReads(lines', lines, at, at + 1, q);
  }
}
