/** Unsetting a key: it undoes the setting that added the key, byte for byte, and it takes away
    no other key. */
module ConfigUnset {
  import opened Text
  import opened ConfigLines
  import opened ConfigPaths
  import opened ConfigEdit
  import opened ConfigLaws

  // ----- unset after set ----------------------------------------------------------------------------

  /** A line that is an entry of a legal name is not taken for a comment. */
  lemma EntryIsNoHashLine(line: string)
    requires Classify(line).Entry? && LegalName(Classify(line).name)
    ensures !HashLine(line)
  {
    LegalIsClean(Classify(line).name);
    var before, after := EntryHead(line);
    TrimAcross(before, ':', after, SPACE);
    var l := TrimLeftParts(before, SPACE);
    var head := TrimLeft(before, SPACE);
    assert head != "" ==> head[0] == before[|l|];
  }

  lemma {:induction false} CommentsAbovePrefix(lines: seq<string>, lines': seq<string>, i: nat)
    requires i <= |lines| && i <= |lines'| && lines[..i] == lines'[..i]
    ensures CommentsAbove(lines, i) == CommentsAbove(lines', i)
  {
    if i > 0 {
      assert lines[i - 1] == lines[..i][i - 1] == lines'[i - 1];
      assert lines[..i - 1] == lines[..i][..i - 1] == lines'[..i - 1];
      CommentsAbovePrefix(lines, lines', i - 1);
    }
  }

  /** Losing lines that are not blank always changes the body. */
  lemma ShorterDiffers(lines: seq<string>, a: nat, at: nat)
    requires a < at <= |lines| && Free(lines, '\n') && lines[a] != ""
    ensures BodyOf(WithoutLines(lines, a, at)) != BodyOf(lines)
  {
    var short := WithoutLines(lines, a, at);
    LinesOfBody(lines);
    if |short| > 0 {
      assert Free(short, '\n');
      LinesOfBody(short);
    } else {
      assert LinesOf("") == [""];
    }
  }

  lemma WithoutAbove(lines: seq<string>, a: nat, at: nat, line: string)
    requires a <= at <= |lines|
    ensures WithoutLines(InsertLine(lines, at, line), a, at + 1) == WithoutLines(lines, a, at)
  {
  }

  /** What unsetting a freshly added key leaves: the old lines, less the comments above it. */
  lemma UnsetAdded(body: string, key: string, v: string)
    requires Get(body, key) == Ok(None) && Set(body, key, v).Ok? && '\n' !in v
    requires PlainName(Last(KeyParts(key).value))
    requires SectionIsLast(Kinds(LinesOf(body)), KeyParts(key).value)
    ensures var lines, at := LinesOf(body), AddAt(LinesOf(body), KeyParts(key).value);
            Unset(Set(body, key, v).value, key)
            == Ok((BodyOf(WithoutLines(lines, CommentsAbove(lines, at), at)), true))
  {
    hide LegalName;
    hide PlainName;
    hide SectionIsLast;
    hide NewLine;
    hide AddAt;
    hide HashLine;
    var p, lines := KeyParts(key).value, LinesOf(body);
    var at, ks, line := AddAt(lines, p), Kinds(lines), NewLine(p, v);
    PartsAreLegal(key);
    LinesAreFree(body);
    AddedText(lines, p, v);
    AddedLines(lines, p, v, at);
    AddedIsFound(ks, p, at);
    var lines' := InsertLine(lines, at, line);
    assert lines'[..at] == lines[..at];
    CommentsAbovePrefix(lines, lines', at);
    WithoutAbove(lines, CommentsAbove(lines, at), at, line);
  }

  /** Leaving out the comments above a line changes the body, unless there are none. */
  lemma CommentsMatter(lines: seq<string>, at: nat)
    requires at <= |lines| && Free(lines, '\n')
    ensures BodyOf(WithoutLines(lines, CommentsAbove(lines, at), at)) == BodyOf(lines) <==>
            at == 0 || !HashLine(lines[at - 1])
  {
    var a := CommentsAbove(lines, at);
    CommentsAboveBlock(lines, at);
    if a == at {
      assert WithoutLines(lines, at, at) == lines;
    } else {
      assert HashLine(lines[a]);
      assert TrimSpace("") == "";
      ShorterDiffers(lines, a, at);
    }
  }

  /** Unset after set gives back the body byte for byte, for every nested key; for a top-level
      key exactly when the line above it is not a comment. */
  lemma UnsetUndoesSet(body: string, key: string, v: string)
    requires Get(body, key) == Ok(None) && Set(body, key, v).Ok? && '\n' !in v
    requires PlainName(Last(KeyParts(key).value))
    requires SectionIsLast(Kinds(LinesOf(body)), KeyParts(key).value)
    ensures Unset(Set(body, key, v).value, key) == Ok((body, true)) <==>
            |KeyParts(key).value| > 1
            || EndOfText(LinesOf(body)) == 0 || !HashLine(LinesOf(body)[EndOfText(LinesOf(body)) - 1])
  {
    hide GetLines;
    hide Set;
    hide Unset;
    hide HashLine;
    hide SectionIsLast;
    hide PlainName;
    hide CommentsAbove;
    hide WithoutLines;
    hide LastAncestor;
    var lines := LinesOf(body);
    UnsetAdded(body, key, v);
    JoinSplit(body, '\n');
    LinesAreFree(body);
    CommentsMatter(lines, AddAt(lines, KeyParts(key).value));
    if |KeyParts(key).value| > 1 {
      ParentIsNoComment(body, key);
    }
  }

  lemma ParentIsNoComment(body: string, key: string)
    requires Get(body, key) == Ok(None) && |KeyParts(key).value| > 1
    requires SectionIsLast(Kinds(LinesOf(body)), KeyParts(key).value)
    ensures AddAt(LinesOf(body), KeyParts(key).value) > 0
    ensures !HashLine(LinesOf(body)[AddAt(LinesOf(body), KeyParts(key).value) - 1])
  {
    hide HashLine;
    hide Classify;
    hide Locate;
    hide PathAt;
    hide SectionIsLast;
    hide LegalName;
    var p, lines := KeyParts(key).value, LinesOf(body);
    ParentIsSection(Kinds(lines), p);
    var parent := LastAncestor(Kinds(lines), p, |lines|);
    var q := PathAt(Kinds(lines), parent).value;
    assert q == p[..|p| - 1];
    LastIsName(Kinds(lines), parent, q);
    assert Classify(lines[parent]).name == q[|q| - 1] == p[|p| - 2];
    PartsAreLegal(key);
    EntryIsNoHashLine(lines[parent]);
  }

  /** With a section missing in between, what set added cannot even be unset. */
  lemma LostCannotBeUnset(body: string, key: string, v: string)
    requires Get(body, key) == Ok(None) && Set(body, key, v).Ok? && '\n' !in v
    requires PlainName(Last(KeyParts(key).value))
    requires !SectionIsLast(Kinds(LinesOf(body)), KeyParts(key).value)
    ensures Unset(Set(body, key, v).value, key) == Ok((Set(body, key, v).value, false))
  {
    AddedReads(body, key, v);
  }

  // ----- unsetting a key that is there --------------------------------------------------------------

  /** An entry that UnsetValue takes for a comment - a control byte hides its '#' from cutComment -
      has a name that starts with the '#'. */
  lemma HashEntryName(line: string)
    requires HashLine(line) && Classify(line).Entry?
    ensures '#' in Classify(line).name
  {
    var kept := StripComment(line);
    var l, r := TrimParts(line, SPACE);
    var l', r' := TrimParts(kept, SPACE);
    var t := TrimSpace(kept);
    assert line[|l|] == '#';
    assert t[0] !in SPACE && t[0] == kept[|l'|] == line[|l'|];
    assert forall i :: 0 <= i < |l| ==> line[i] == l[i];
    assert forall i :: 0 <= i < |l'| ==> line[i] == l'[i];
    assert |l| == |l'|;
    CutParts(t, ':');
    var name := Cut(t, ':').value.0;
    assert name != "" && name[0] == '#';
    var a, b := TrimParts(name, SPACE);
    assert name[0] !in SPACE;
  }

  /** No name on the path holds a comment mark. */
  predicate NoHash(p: Path) {
    forall i :: 0 <= i < |p| ==> '#' !in p[i]
  }

  /** A line above which the key's sections are open, and which opens none with a legal name, is
      deep. */
  lemma OneIsDeep(ks: seq<Kind>, p: Path, j: nat, level: nat)
    requires j < |ks| && Hangs(ks, j) && NoHash(p) && level <= |p|
    requires |Open(ks, j + 1)| >= level && Open(ks, j + 1)[..level] == p[..level]
    requires ks[j].Entry? ==> '#' in ks[j].name
    ensures Deep(ks[j], level)
  {
    if ks[j].Entry? && ks[j].level < level {
      assert Open(ks, j + 1)[..level][ks[j].level] == p[ks[j].level];
    }
  }

  /** The lines above the key that are deep leave the line before them deep too, unless it is an
      entry without a '#'. */
  lemma OneMoreIsDeep(ks: seq<Kind>, idx: nat, p: Path, j: nat)
    requires j < idx < |ks| && WellFormed(ks) && PathAt(ks, idx) == Some(p) && |p| > 0 && NoHash(p)
    requires AllDeep(ks, j + 1, idx, |p| - 1)
    requires ks[j].Entry? ==> '#' in ks[j].name
    ensures Deep(ks[j], |p| - 1)
  {
    var m := |p| - 1;
    assert |Open(ks, idx)| >= m && p[..m] == Open(ks, idx)[..m];
    DeepKeepsOpen(ks, j + 1, idx, m);
    assert Hangs(ks, j);
    hide Open;
    hide WellFormed;
    OneIsDeep(ks, p, j, m);
  }

  /** The lines UnsetValue removes with a key close no section the key is in. */
  lemma {:induction false} HashLinesAreDeep(lines: seq<string>, idx: nat, p: Path, j: nat)
    requires j <= idx < |lines| && forall i :: j <= i < idx ==> HashLine(lines[i])
    requires WellFormed(Kinds(lines)) && PathAt(Kinds(lines), idx) == Some(p) && |p| > 0 && NoHash(p)
    ensures AllDeep(Kinds(lines), j, idx, |p| - 1)
    decreases idx - j
  {
    if j < idx {
      HashLinesAreDeep(lines, idx, p, j + 1);
      if Classify(lines[j]).Entry? {
        HashEntryName(lines[j]);
      }
      assert Kinds(lines)[j] == Classify(lines[j]);
      hide Classify;
      hide HashLine;
      hide WellFormed;
      hide NoHash;
      OneMoreIsDeep(Kinds(lines), idx, p, j);
    }
  }

  lemma LastIsName(ks: seq<Kind>, j: nat, q: Path)
    requires j < |ks| && PathAt(ks, j) == Some(q)
    ensures ks[j].Entry? && |q| > 0 && ks[j].name == q[|q| - 1]
  {
  }

  /** The key's line is the only one at its path, and has nothing below it. */
  predicate UniqueLeaf(ks: seq<Kind>, p: Path, idx: nat)
    requires idx < |ks|
  {
    Leaf(ks, p) && Clear(ks, p, 0, idx) && Clear(ks, p, idx + 1, |ks|)
  }

  lemma KeysHaveNoHash(key: string)
    requires KeyParts(key).Ok?
    ensures NoHash(KeyParts(key).value)
  {
    PartsAreLegal(key);
    var p := KeyParts(key).value;
    forall i | 0 <= i < |p| ensures '#' !in p[i] {
      LegalIsClean(p[i]);
    }
  }

  /** The lines that unsetting the key takes away, as a gap. */
  lemma UnsetGap(lines: seq<string>, p: Path, idx: nat)
    requires idx < |lines| && WellFormed(Kinds(lines)) && NoHash(p)
    requires PathAt(Kinds(lines), idx) == Some(p) && Leaf(Kinds(lines), p)
    ensures var a := CommentsAbove(lines, idx);
            Gap(Kinds(lines), Kinds(WithoutLines(lines, a, idx + 1)), a, idx + 1)
  {
    var a := CommentsAbove(lines, idx);
    CommentsAboveBlock(lines, idx);
    HashLinesAreDeep(lines, idx, p, a);
    KindsWithout(lines, a, idx + 1);
    RemoveGap(Kinds(lines), a, idx, p);
  }

  /** And no other key is on them. */
  lemma ClearBlock(lines: seq<string>, idx: nat, p: Path, q: Path)
    requires idx < |lines| && WellFormed(Kinds(lines)) && PathAt(Kinds(lines), idx) == Some(p)
    requires NoHash(q) && q != p
    ensures Clear(Kinds(lines), q, CommentsAbove(lines, idx), idx + 1)
  {
    var a, ks := CommentsAbove(lines, idx), Kinds(lines);
    CommentsAboveBlock(lines, idx);
    forall j | a <= j < idx + 1 ensures !Stop(ks, q, j) {
      assert Hangs(ks, j);
      if j < idx && PathAt(ks, j) == Some(q) {
        LastIsName(ks, j, q);
        HashEntryName(lines[j]);
      }
    }
  }

  /** Reading what is left gives what reading the lines gave, even if none is left. */
  lemma BodyReads(lines: seq<string>, q: Path)
    requires Free(lines, '\n')
    ensures GetLines(LinesOf(BodyOf(lines)), q) == GetLines(lines, q)
  {
    if |lines| > 0 {
      LinesOfBody(lines);
    } else {
      assert LinesOf("") == [""];
      assert TrimSpace("") == "";
      BlankIsBlank("");
      assert Kinds([""]) == [Blank];
      assert Kinds(lines) == [];
      assert PathAt([Blank], 0) == None;
      assert !Stop([Blank], q, 0);
      assert FirstStop([Blank], q, 0) == 1;
    }
  }

  /** The lines that are left read the same, for every other key. */
  lemma LeftReads(lines: seq<string>, i: nat, p: Path, q: Path)
    requires i < |lines| && WellFormed(Kinds(lines)) && PathAt(Kinds(lines), i) == Some(p) && Leaf(Kinds(lines), p)
    requires NoHash(p) && NoHash(q) && p != q && Free(lines, '\n')
    ensures var left := WithoutLines(lines, CommentsAbove(lines, i), i + 1);
            GetLines(LinesOf(BodyOf(left)), q) == GetLines(lines, q)
  {
    hide Gap;
    hide Clear;
    hide Leaf;
    hide WellFormed;
    hide NoHash;
    hide Kinds;
    hide GetLines;
    hide BodyOf;
    hide LinesOf;
    var a := CommentsAbove(lines, i);
    var left := WithoutLines(lines, a, i + 1);
    assert Free(left, '\n');
    UnsetGap(lines, p, i);
    ClearBlock(lines, i, p, q);
    GapReads(lines, left, a, i + 1, q);
    BodyReads(left, q);
  }

  /** Unsetting a key keeps what every other key reads as, on a well-formed file. */
  lemma UnsetKeepsOthers(body: string, key: string, other: string)
    requires Get(body, key).Ok? && Get(body, key).value.Some?
    requires WellFormed(Kinds(LinesOf(body)))
    requires Leaf(Kinds(LinesOf(body)), KeyParts(key).value)
    requires KeyParts(other).Ok? && KeyParts(other) != KeyParts(key)
    ensures Unset(body, key).Ok? && Get(Unset(body, key).value.0, other) == Get(body, other)
  {
    hide WellFormed;
    hide Leaf;
    hide NoHash;
    hide Kinds;
    hide KeyParts;
    hide BodyOf;
    hide PathAt;
    hide Stop;
    hide FirstStop;
    hide CommentsAbove;
    hide WithoutLines;
    KeysHaveNoHash(key);
    KeysHaveNoHash(other);
    LinesAreFree(body);
    LeftReads(LinesOf(body), LineOf(body, key), KeyParts(key).value, KeyParts(other).value);
  }

  /** And a key that stood on one line only is gone. */
  lemma UnsetRemoves(body: string, key: string)
    requires Get(body, key).Ok? && Get(body, key).value.Some?
    requires WellFormed(Kinds(LinesOf(body)))
    requires UniqueLeaf(Kinds(LinesOf(body)), KeyParts(key).value, LineOf(body, key))
    ensures Unset(body, key).Ok? && Get(Unset(body, key).value.0, key) == Ok(None)
  {
    var p, lines, i := KeyParts(key).value, LinesOf(body), LineOf(body, key);
    var a := CommentsAbove(lines, i);
    KeysHaveNoHash(key);
    UnsetGap(lines, p, i);
    RemovedIsGone(Kinds(lines), Kinds(WithoutLines(lines, a, i + 1)), a, i, p);
    LinesAreFree(body);
    BodyReads(WithoutLines(lines, a, i + 1), p);
  }

  lemma RemovedIsGone(long: seq<Kind>, short: seq<Kind>, a: nat, idx: nat, p: Path)
    requires a <= idx < |long| && Gap(long, short, a, idx + 1) && UniqueLeaf(long, p, idx)
    ensures Locate(short, p).Absent?
  {
    forall j | 0 <= j < |short| ensures !Stop(short, p, j) {
      if j < a {
        assert SamePath(long, j, short, j);
        assert !Stop(long, p, j);
      } else {
        var j' := j + (idx + 1 - a);
        assert ShiftedPath(long, j', short, a, idx + 1);
        assert !Stop(long, p, j');
      }
    }
    assert FirstStop(short, p, 0) == |short|;
  }
}
