/** Listing the settings a file has (KnownKeys, with a stack of section names) and asking whether one
    is there (KeyExists, through findKey's counter). The shipped defaults are a parameter here. */
module ConfigKnown {
  import opened Text
  import opened ConfigLines
  import opened ConfigPaths
  import opened ConfigEdit
  import opened ConfigLaws

  /** Nothing behind the colon: the line opens a section. */
  predicate IsHeader(raw: string) {
    var cut := Cut(TrimSpace(StripComment(raw)), ':');
    cut.Some? && TrimSpace(cut.value.1) == ""
  }

  // ----- the listing ------------------------------------------------------------------------------

  /** The section names KnownKeys keeps: headers only. */
  function SectionStep(section: Path, k: Kind, header: bool): Path {
    if k.Entry? && k.level <= |section| then
      section[..k.level] + (if header then [k.name] else [])
    else section
  }

  function Headers(lines: seq<string>): (hs: seq<bool>)
    ensures |hs| == |lines|
  {
    seq(|lines|, i requires 0 <= i < |lines| => IsHeader(lines[i]))
  }

  function Section(ks: seq<Kind>, hs: seq<bool>, n: nat): Path
    requires n <= |ks| == |hs|
  {
    if n == 0 then [] else SectionStep(Section(ks, hs, n - 1), ks[n - 1], hs[n - 1])
  }

  function Dotted(p: Path): string {
    Join(p, ".")
  }

  /** What one line adds to the listing. */
  function Listed(section: Path, k: Kind, header: bool): seq<string> {
    if k.Entry? && k.level <= |section| && !header then [Dotted(section[..k.level] + [k.name])] else []
  }

  function Listing(ks: seq<Kind>, hs: seq<bool>, n: nat): seq<string>
    requires n <= |ks| == |hs|
  {
    if n == 0 then []
    else Listing(ks, hs, n - 1) + Listed(Section(ks, hs, n - 1), ks[n - 1], hs[n - 1])
  }

  function Known(lines: seq<string>): seq<string> {
    Listing(Kinds(lines), Headers(lines), |lines|)
  }

  method ReadSetting(raw: string) returns (k: Kind, header: bool)
    ensures k == Classify(raw) && header == IsHeader(raw)
  {
    var line, _, _ := CutComment(raw);
    var cut := Cut(TrimSpace(line), ':');
    header := cut.Some? && TrimSpace(cut.value.1) == "";
    var indent := |line| - |TrimLeft(line, {' '})|;
    if TrimSpace(line) == "" {
      k := Blank;
    } else if indent % INDENT_WIDTH != 0 {
      k := Odd(indent);
    } else {
      k := if cut.None? then Bare(indent / INDENT_WIDTH)
           else Entry(indent / INDENT_WIDTH, TrimSpace(cut.value.0));
    }
  }

  /** One turn of KnownKeys' loop. */
  method ListLine(section: Path, out: seq<string>, k: Kind, header: bool)
    returns (section': Path, out': seq<string>)
    ensures section' == SectionStep(section, k, header)
    ensures out' == out + Listed(section, k, header)
  {
    section', out' := section, out;
    if !k.Entry? || k.level > |section| {
      return;
    }
    section' := section[..k.level];
    if header {
      section' := section' + [k.name];
      return;
    }
    out' := out + [Join(section' + [k.name], ".")];
  }

  predicate ListedSoFar(ks: seq<Kind>, hs: seq<bool>, i: nat, section: Path, out: seq<string>)
    requires i <= |ks| == |hs|
  {
    section == Section(ks, hs, i) && out == Listing(ks, hs, i)
  }

  /** KnownKeys, on the lines of the shipped file. */
  method KnownKeys(lines: seq<string>) returns (out: seq<string>)
    ensures out == Known(lines)
  {
    ghost var ks, hs := Kinds(lines), Headers(lines);
    var section: Path := [];
    out := [];
    hide Classify;
    hide IsHeader;
    for i := 0 to |lines|
      invariant ListedSoFar(ks, hs, i, section, out)
    {
      var k, header := ReadSetting(lines[i]);
      section, out := ListLine(section, out, k, header);
    }
  }

  // ----- the listing is the leaves ----------------------------------------------------------------

  /** The innermost open entry is a leaf. */
  predicate LeafOnTop(ks: seq<Kind>, hs: seq<bool>, n: nat)
    requires n <= |ks| == |hs|
  {
    n > 0 &&
    var k, open := ks[n - 1], Open(ks, n - 1);
    if k.Entry? && k.level <= |open| then !hs[n - 1]
    else LeafOnTop(ks, hs, n - 1) && !(k.Bare? && k.level < |open|)
  }

  /** The entry hangs from an open section, not from a leaf. */
  predicate HangsFromHeader(ks: seq<Kind>, hs: seq<bool>, i: nat)
    requires i < |ks| == |hs|
  {
    Hangs(ks, i) && (ks[i].Entry? && LeafOnTop(ks, hs, i) ==> ks[i].level < |Open(ks, i)|)
  }

  predicate Nested(ks: seq<Kind>, hs: seq<bool>)
    requires |ks| == |hs|
  {
    forall i :: 0 <= i < |ks| ==> HangsFromHeader(ks, hs, i)
  }

  function Trunk(open: Path, leaf: bool): Path {
    if leaf && |open| > 0 then open[..|open| - 1] else open
  }

  /** One line keeps the open headers at the bottom of the listing's own stack. */
  lemma TrunkStep(open: Path, leaf: bool, section: Path, k: Kind, header: bool)
    requires Trunk(open, leaf) <= section
    requires k.Entry? ==> k.level <= |open| && (leaf ==> k.level < |open|)
    ensures var leaf' := if k.Entry? then !header else leaf && !(k.Bare? && k.level < |open|);
            Trunk(Step(open, k), leaf') <= SectionStep(section, k, header)
    ensures k.Entry? ==> k.level <= |section| && section[..k.level] == open[..k.level]
  {
    if k.Entry? {
      assert section[..k.level] == Trunk(open, leaf)[..k.level] == open[..k.level];
    }
  }

  lemma {:induction false} TrunkIsKept(ks: seq<Kind>, hs: seq<bool>, n: nat)
    requires n <= |ks| == |hs| && Nested(ks, hs)
    ensures Trunk(Open(ks, n), LeafOnTop(ks, hs, n)) <= Section(ks, hs, n)
    decreases n
  {
    if n > 0 {
      TrunkIsKept(ks, hs, n - 1);
      assert HangsFromHeader(ks, hs, n - 1);
      TrunkStep(Open(ks, n - 1), LeafOnTop(ks, hs, n - 1), Section(ks, hs, n - 1), ks[n - 1], hs[n - 1]);
    }
  }

  /** The keys of the leaf lines, by the paths they stand at. */
  function LeafKeys(ks: seq<Kind>, hs: seq<bool>, n: nat): seq<string>
    requires n <= |ks| == |hs|
  {
    if n == 0 then []
    else
      var p := PathAt(ks, n - 1);
      LeafKeys(ks, hs, n - 1) + (if p.Some? && !hs[n - 1] then [Dotted(p.value)] else [])
  }

  /** KnownKeys lists exactly the paths of the leaf lines, in the order of the file. */
  lemma {:induction false} ListingIsLeafKeys(ks: seq<Kind>, hs: seq<bool>, n: nat)
    requires n <= |ks| == |hs| && Nested(ks, hs)
    ensures Listing(ks, hs, n) == LeafKeys(ks, hs, n)
    decreases n
  {
    if n > 0 {
      ListingIsLeafKeys(ks, hs, n - 1);
      TrunkIsKept(ks, hs, n - 1);
      assert HangsFromHeader(ks, hs, n - 1);
      TrunkStep(Open(ks, n - 1), LeafOnTop(ks, hs, n - 1), Section(ks, hs, n - 1), ks[n - 1], hs[n - 1]);
    }
  }

  predicate LeafAt(ks: seq<Kind>, hs: seq<bool>, i: nat, key: string)
    requires i < |ks| == |hs|
  {
    PathAt(ks, i).Some? && !hs[i] && Dotted(PathAt(ks, i).value) == key
  }

  lemma {:induction false} LeafKeysMember(ks: seq<Kind>, hs: seq<bool>, n: nat, key: string)
    requires n <= |ks| == |hs|
    ensures key in LeafKeys(ks, hs, n) <==> exists i :: 0 <= i < n && LeafAt(ks, hs, i, key)
    decreases n
  {
    if n > 0 {
      LeafKeysMember(ks, hs, n - 1, key);
      var last := if PathAt(ks, n - 1).Some? && !hs[n - 1] then [Dotted(PathAt(ks, n - 1).value)] else [];
      assert LeafKeys(ks, hs, n) == LeafKeys(ks, hs, n - 1) + last;
      assert key in last <==> LeafAt(ks, hs, n - 1, key);
    }
  }

  // ----- the question -----------------------------------------------------------------------------

  predicate Exists(body: string, key: string) {
    Get(body, key).Ok? && Get(body, key).value.Some?
  }

  lemma DottedPartsAgain(key: string)
    requires KeyParts(key).Ok?
    ensures KeyParts(Dotted(KeyParts(key).value)) == KeyParts(key)
  {
    var k := TrimSpace(key);
    JoinSplit(k, '.');
    var l, r := TrimParts(key, SPACE);
    TrimmedFixed(k, SPACE);
  }

  method KeyExists(body: string, key: string) returns (found: bool)
    ensures found <==> Exists(body, key)
  {
    var split := SplitKey(key);
    if split.Err? {
      return false;
    }
    DottedPartsAgain(key);
    var value := GetValue(body, Join(split.value, "."));
    return value.Ok? && value.value.Some?;
  }

  /** A path whose dotted form names it again. */
  predicate Nameable(p: Path) {
    1 <= |p| <= MAX_KEY_DEPTH
    && (forall i :: 0 <= i < |p| ==> LegalName(p[i]) && '.' !in p[i])
  }

  lemma {:induction false} DottedEnds(p: Path)
    requires |p| > 0 && forall i :: 0 <= i < |p| ==> p[i] != "" && Trimmed(p[i], SPACE)
    ensures Dotted(p) != "" && Dotted(p)[0] == p[0][0]
    ensures Dotted(p)[|Dotted(p)| - 1] == p[|p| - 1][|p[|p| - 1]| - 1]
  {
    if |p| > 1 {
      DottedEnds(p[1..]);
      var tail := Dotted(p[1..]);
      assert Dotted(p) == p[0] + "." + tail;
      assert Dotted(p)[|Dotted(p)| - 1] == tail[|tail| - 1];
    }
  }

  lemma DottedNames(p: Path)
    requires Nameable(p) && forall i :: 0 <= i < |p| ==> Trimmed(p[i], SPACE)
    ensures KeyParts(Dotted(p)) == Ok(p)
  {
    DottedEnds(p);
    TrimmedFixed(Dotted(p), SPACE);
    SplitJoin(p, '.');
    KeyPartsLegal(Dotted(p));
    assert Split(TrimSpace(Dotted(p)), '.') == p;
  }

  /** Every entry's name is trimmed, as findKey leaves it. */
  predicate TrimmedNames(ks: seq<Kind>) {
    forall i :: 0 <= i < |ks| ==> (ks[i].Entry? ==> Trimmed(ks[i].name, SPACE))
  }

  lemma KindsHaveTrimmedNames(lines: seq<string>)
    requires Free(lines, '\n')
    ensures TrimmedNames(Kinds(lines))
  {
    forall i | 0 <= i < |lines| ensures Kinds(lines)[i].Entry? ==> Trimmed(Kinds(lines)[i].name, SPACE) {
      if Classify(lines[i]).Entry? {
        EntryNameIsPlain(lines[i]);
      }
    }
  }

  lemma {:induction false} OpenIsTrimmed(ks: seq<Kind>, n: nat)
    requires n <= |ks| && TrimmedNames(ks)
    ensures forall j :: 0 <= j < |Open(ks, n)| ==> Trimmed(Open(ks, n)[j], SPACE)
    decreases n
  {
    if n > 0 {
      OpenIsTrimmed(ks, n - 1);
      assert ks[n - 1].Entry? ==> Trimmed(ks[n - 1].name, SPACE);
    }
  }

  /** On a file that can be read, a key exists exactly when some line stands at its path. */
  lemma ExistsIffAtSomeLine(body: string, key: string)
    requires NoOdd(Kinds(LinesOf(body))) && KeyParts(key).Ok?
    ensures Exists(body, key) <==>
            !Clear(Kinds(LinesOf(body)), KeyParts(key).value, 0, |LinesOf(body)|)
  {
    var ks, p := Kinds(LinesOf(body)), KeyParts(key).value;
    NoOddLocate(ks, p);
    if Locate(ks, p).Found? {
      assert Stop(ks, p, Locate(ks, p).idx);
    }
  }

  /** A line's own path, dotted, is a key that KeyExists accepts. */
  lemma LineExists(body: string, i: nat)
    requires i < |LinesOf(body)| && NoOdd(Kinds(LinesOf(body)))
    requires PathAt(Kinds(LinesOf(body)), i).Some? && Nameable(PathAt(Kinds(LinesOf(body)), i).value)
    ensures Exists(body, Dotted(PathAt(Kinds(LinesOf(body)), i).value))
  {
    var ks := Kinds(LinesOf(body));
    var p := PathAt(ks, i).value;
    LinesAreFree(body);
    KindsHaveTrimmedNames(LinesOf(body));
    OpenIsTrimmed(ks, i + 1);
    OpenAfterEntry(ks, i);
    DottedNames(p);
    assert Stop(ks, p, i);
    ExistsIffAtSomeLine(body, Dotted(p));
  }

  /** Every entry can be named by a dotted key. */
  predicate AllNameable(ks: seq<Kind>) {
    forall i :: 0 <= i < |ks| ==> NameableAt(ks, i)
  }

  predicate NameableAt(ks: seq<Kind>, i: nat)
    requires i < |ks|
  {
    PathAt(ks, i).Some? ==> Nameable(PathAt(ks, i).value)
  }

  lemma NestedNoOdd(ks: seq<Kind>, hs: seq<bool>)
    requires |ks| == |hs| && Nested(ks, hs)
    ensures NoOdd(ks)
  {
    forall j | 0 <= j < |ks| ensures !ks[j].Odd? {
      assert HangsFromHeader(ks, hs, j);
    }
  }

  /** A file whose sections nest and whose names a dotted key can spell. */
  predicate Regular(lines: seq<string>) {
    Nested(Kinds(lines), Headers(lines)) && AllNameable(Kinds(lines))
  }

  /** The stack and the counter agree: what KnownKeys lists is the key of a leaf line, every leaf
      line's key is listed, and KeyExists accepts all of them. */
  lemma KnownKeysExist(body: string, key: string)
    requires Regular(LinesOf(body))
    ensures var lines := LinesOf(body);
            key in Known(lines) <==>
            exists i :: 0 <= i < |lines| && LeafAt(Kinds(lines), Headers(lines), i, key)
    ensures key in Known(LinesOf(body)) ==> Exists(body, key)
  {
    var lines := LinesOf(body);
    var ks, hs := Kinds(lines), Headers(lines);
    ListingIsLeafKeys(ks, hs, |ks|);
    LeafKeysMember(ks, hs, |ks|, key);
    if key in Known(lines) {
      var i :| 0 <= i < |ks| && LeafAt(ks, hs, i, key);
      assert NameableAt(ks, i);
      NestedNoOdd(ks, hs);
      LineExists(body, i);
    }
  }

  /** KeyExists accepts more than KnownKeys lists: a section's own name is found too, though no
      leaf stands at it. */
  lemma SectionsExistUnlisted(body: string, i: nat)
    requires Regular(LinesOf(body)) && i < |LinesOf(body)|
    requires PathAt(Kinds(LinesOf(body)), i).Some?
    requires forall j :: 0 <= j < |LinesOf(body)| && Kinds(LinesOf(body))[j].Entry? && !Headers(LinesOf(body))[j]
               ==> PathAt(Kinds(LinesOf(body)), j) != PathAt(Kinds(LinesOf(body)), i)
    ensures Exists(body, Dotted(PathAt(Kinds(LinesOf(body)), i).value))
    ensures Dotted(PathAt(Kinds(LinesOf(body)), i).value) !in Known(LinesOf(body))
  {
    var lines := LinesOf(body);
    var ks, hs := Kinds(lines), Headers(lines);
    var key := Dotted(PathAt(ks, i).value);
    assert NameableAt(ks, i);
    NestedNoOdd(ks, hs);
    LineExists(body, i);
    KnownKeysExist(body, key);
    forall j | 0 <= j < |ks| ensures !LeafAt(ks, hs, j, key) {
      if PathAt(ks, j).Some? && Dotted(PathAt(ks, j).value) == key {
        SameDottedSamePath(ks, i, j);
      }
    }
  }

  /** Nameable paths are told apart by their dotted keys. */
  lemma SameDottedSamePath(ks: seq<Kind>, i: nat, j: nat)
    requires AllNameable(ks) && i < |ks| && j < |ks|
    requires PathAt(ks, i).Some? && PathAt(ks, j).Some?
    requires Dotted(PathAt(ks, i).value) == Dotted(PathAt(ks, j).value)
    ensures PathAt(ks, i) == PathAt(ks, j)
  {
    assert NameableAt(ks, i) && NameableAt(ks, j);
    SplitJoin(PathAt(ks, i).value, '.');
    SplitJoin(PathAt(ks, j).value, '.');
  }
}
