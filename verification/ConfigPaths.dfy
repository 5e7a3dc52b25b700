/** Every line of an indented file stands at a path of open sections; findKey finds what a path names. */
module ConfigPaths {
  import opened Text
  import opened ConfigLines

  type Path = seq<string>

  // ----- indentation as a stack -----------------------------------------------------------

  /** The open sections after a line. An entry indented deeper than the open sections reach
      belongs to nothing and opens nothing. */
  function Step(open: Path, k: Kind): Path {
    match k
    case Blank => open
    case Odd(_) => open
    case Bare(l) => if l < |open| then open[..l] else open
    case Entry(l, n) => if l <= |open| then open[..l] + [n] else open
  }

  function Open(ks: seq<Kind>, n: nat): Path
    requires n <= |ks|
  {
    if n == 0 then [] else Step(Open(ks, n - 1), ks[n - 1])
  }

  function PathIn(open: Path, k: Kind): Option<Path> {
    if k.Entry? && k.level <= |open| then Some(open[..k.level] + [k.name]) else None
  }

  function PathAt(ks: seq<Kind>, i: nat): Option<Path>
    requires i < |ks|
  {
    PathIn(Open(ks, i), ks[i])
  }

  function Kinds(lines: seq<string>): (ks: seq<Kind>)
    ensures |ks| == |lines|
  {
    seq(|lines|, i requires 0 <= i < |lines| => Classify(lines[i]))
  }

  // ----- where a path is --------------------------------------------------------------------

  /** A search stops at the line it wants, or at one whose indentation it cannot read. */
  predicate Stop(ks: seq<Kind>, p: Path, i: nat)
    requires i < |ks|
  {
    ks[i].Odd? || PathAt(ks, i) == Some(p)
  }

  /** The line opens a section on the way to `p`, strictly above it. */
  predicate Ancestor(ks: seq<Kind>, p: Path, i: nat)
    requires i < |ks|
  {
    var q := PathAt(ks, i);
    q.Some? && |q.value| < |p| && q.value == p[..|q.value|]
  }

  function FirstStop(ks: seq<Kind>, p: Path, i: nat): (r: nat)
    requires i <= |ks|
    ensures i <= r <= |ks|
    ensures r < |ks| ==> Stop(ks, p, r)
    ensures forall j :: i <= j < r ==> !Stop(ks, p, j)
    decreases |ks| - i
  {
    if i == |ks| || Stop(ks, p, i) then i else FirstStop(ks, p, i + 1)
  }

  /** The last ancestor among the first `n` lines, or -1. */
  function LastAncestor(ks: seq<Kind>, p: Path, n: nat): (r: int)
    requires n <= |ks|
    ensures -1 <= r < n
    ensures r >= 0 ==> Ancestor(ks, p, r)
  {
    if n == 0 then -1 else if Ancestor(ks, p, n - 1) then n - 1 else LastAncestor(ks, p, n - 1)
  }

  lemma {:induction false} NoAncestorAfterLast(ks: seq<Kind>, p: Path, n: nat, j: nat)
    requires j < n <= |ks| && LastAncestor(ks, p, n) < j
    ensures !Ancestor(ks, p, j)
    decreases n
  {
    if j < n - 1 {
      NoAncestorAfterLast(ks, p, n - 1, j);
    }
  }

  lemma OpenAfterEntry(ks: seq<Kind>, i: nat)
    requires i < |ks| && PathAt(ks, i).Some?
    ensures Open(ks, i + 1) == PathAt(ks, i).value
  {
  }

  datatype Find =
    | Found(idx: nat, parent: int)
    | Absent(parent: int)
    | Refused(line: nat, indent: nat)

  /** The least line standing at `p`, unless an unreadable line comes first. */
  function Locate(ks: seq<Kind>, p: Path): (r: Find)
    ensures r.Found? ==> r.idx < |ks| && PathAt(ks, r.idx) == Some(p)
    ensures r.Found? ==> forall i :: 0 <= i < r.idx ==> !Stop(ks, p, i)
    ensures r.Absent? ==> forall i :: 0 <= i < |ks| ==> !Stop(ks, p, i)
  {
    var i := FirstStop(ks, p, 0);
    if i == |ks| then
      Absent(LastAncestor(ks, p, i))
    else if ks[i].Odd? then Refused(i, ks[i].indent)
    else Found(i, LastAncestor(ks, p, i))
  }

  /** Being the least stop determines the outcome. */
  lemma LocateAt(ks: seq<Kind>, p: Path, i: nat)
    requires i < |ks| && PathAt(ks, i) == Some(p)
    requires forall j :: 0 <= j < i ==> !Stop(ks, p, j)
    ensures Locate(ks, p) == Found(i, LastAncestor(ks, p, i))
  {
    assert !ks[i].Odd? && Stop(ks, p, i);
    var r := FirstStop(ks, p, 0);
    assert r == i;
  }

  // ----- the depth counter ------------------------------------------------------------------

  /** `d` is the length of the longest common prefix. */
  predicate Common(open: Path, p: Path, d: nat) {
    d <= |open| && d <= |p| && open[..d] == p[..d]
    && (d < |open| && d < |p| ==> open[d] != p[d])
  }

  function Lower(l: nat, d: nat): nat {
    if l < d then l else d
  }

  /** One line moves the counter as findKey moves it. */
  lemma CommonStep(open: Path, p: Path, d: nat, k: Kind)
    requires Common(open, p, d) && d < |p|
    ensures k.Bare? ==> Common(Step(open, k), p, Lower(k.level, d))
    ensures k.Entry? && k.level > d ==> Common(Step(open, k), p, d)
    ensures k.Entry? && k.level <= d ==>
              Common(Step(open, k), p, if k.name == p[k.level] then k.level + 1 else k.level)
    ensures k.Entry? ==>
              forall m :: 0 < m <= |p| ==>
                (PathIn(open, k) == Some(p[..m]) <==> m == k.level + 1 && k.level <= d && k.name == p[k.level])
  {
    match k
    case Entry(l, n) =>
      if l <= d {
        assert open[..l] == open[..d][..l] == p[..d][..l] == p[..l];
        assert p[..l + 1] == p[..l] + [p[l]];
      } else if l <= |open| {
        assert (open[..l] + [n])[..d] == open[..d];
      }
      forall m | 0 < m <= |p|
        ensures PathIn(open, k) == Some(p[..m]) <==> m == l + 1 && l <= d && n == p[l]
      {
        if PathIn(open, k) == Some(p[..m]) {
          assert |open[..l] + [n]| == m;
          assert forall j :: 0 <= j < l ==> open[j] == (open[..l] + [n])[j] == p[..m][j] == p[j];
          assert (open[..l] + [n])[l] == p[..m][l];
        }
      }
    case Bare(l) =>
      var e := Lower(l, d);
      assert open[..e] == open[..d][..e] == p[..d][..e] == p[..e];
      if l < |open| {
        assert open[..l][..e] == open[..e];
      }
    case _ =>
  }

  /** The line names the next part of the path at the depth already reached, or above it. */
  predicate Names(k: Kind, p: Path, d: nat) {
    k.Entry? && k.level <= d && k.level < |p| && k.name == p[k.level]
  }

  /** What findKey does with `depth` at a line it can read. */
  function NextDepth(k: Kind, p: Path, d: nat): nat {
    match k
    case Bare(l) => Lower(l, d)
    case Entry(l, _) => if Names(k, p, d) then l + 1 else Lower(l, d)
    case _ => d
  }

  /** The counter sees every match, and every step down, that the stack sees. */
  lemma DepthFollows(ks: seq<Kind>, p: Path, i: nat, d: nat)
    requires i < |ks| && Common(Open(ks, i), p, d) && d < |p| && !ks[i].Odd?
    ensures Stop(ks, p, i) <==> Names(ks[i], p, d) && ks[i].level == |p| - 1
    ensures Ancestor(ks, p, i) <==> Names(ks[i], p, d) && ks[i].level < |p| - 1
    ensures Common(Open(ks, i + 1), p, NextDepth(ks[i], p, d))
  {
    CommonStep(Open(ks, i), p, d, ks[i]);
    assert p[..|p|] == p;
  }

  /** What findKey knows before line `i`. */
  predicate Searching(ks: seq<Kind>, p: Path, i: nat, depth: nat, parent: int) {
    i <= |ks| && Common(Open(ks, i), p, depth) && depth < |p|
    && (forall j :: 0 <= j < i ==> !Stop(ks, p, j))
    && parent == LastAncestor(ks, p, i)
  }

  lemma SearchingStep(ks: seq<Kind>, p: Path, i: nat, d: nat, parent: int)
    requires i < |ks| && Searching(ks, p, i, d, parent)
    ensures ks[i].Odd? ==> Locate(ks, p) == Refused(i, ks[i].indent)
    ensures Names(ks[i], p, d) && ks[i].level == |p| - 1 ==> Locate(ks, p) == Found(i, parent)
    ensures Names(ks[i], p, d) && ks[i].level < |p| - 1 ==> Searching(ks, p, i + 1, ks[i].level + 1, i)
    ensures !ks[i].Odd? && !Names(ks[i], p, d) ==> Searching(ks, p, i + 1, NextDepth(ks[i], p, d), parent)
  {
    if ks[i].Odd? {
      assert Stop(ks, p, i);
      assert FirstStop(ks, p, 0) == i;
    } else {
      DepthFollows(ks, p, i, d);
      if Stop(ks, p, i) {
        LocateAt(ks, p, i);
      }
    }
  }

  /** The reading of one line that findKey starts each turn of its loop with. */
  method ReadLine(raw: string) returns (k: Kind)
    ensures k == Classify(raw)
  {
    var line, _, _ := CutComment(raw);
    if TrimSpace(line) == "" {
      return Blank;
    }
    var indent := |line| - |TrimLeft(line, {' '})|;
    if indent % INDENT_WIDTH != 0 {
      return Odd(indent);
    }
    var level := indent / INDENT_WIDTH;
    match Cut(TrimSpace(line), ':') {
      case None => return Bare(level);
      case Some((name, _)) => return Entry(level, TrimSpace(name));
    }
  }

  /** findKey: on every file, the least line at the wanted path, with the last ancestor before
      it. `depth` is the longest common prefix of the open sections and the path. */
  method FindKey(lines: seq<string>, parts: Path) returns (r: Find)
    requires |parts| >= 1
    ensures r == Locate(Kinds(lines), parts)
  {
    ghost var ks := Kinds(lines);
    var depth: nat := 0;
    var parentIdx := -1;
    for i := 0 to |lines|
      invariant Searching(ks, parts, i, depth, parentIdx)
    {
      SearchingStep(ks, parts, i, depth, parentIdx);
      var k := ReadLine(lines[i]);
      assert k == ks[i];
      ghost var next := NextDepth(k, parts, depth);
      match k {
        case Blank =>
        case Odd(indent) => return Refused(i, indent);
        case Bare(level) =>
          if level < depth {
            depth := level;
          }
        case Entry(level, name) =>
          if level < depth {
            depth := level;
          }
          if level == depth && name == parts[depth] {
            if depth == |parts| - 1 {
              return Found(i, parentIdx);
            }
            parentIdx := i;
            depth := depth + 1;
          }
      }
      assert depth == next;
    }
    return Absent(parentIdx);
  }

  // ----- the parent of a line that is found -------------------------------------------------

  /** What is open agrees with the path no further than its last ancestor goes. */
  lemma {:induction false} OpenReachesAncestor(ks: seq<Kind>, p: Path, i: nat, d: nat)
    requires i <= |ks| && forall j :: 0 <= j < i ==> !Stop(ks, p, j)
    requires 0 < d < |p| && d <= |Open(ks, i)| && Open(ks, i)[..d] == p[..d]
    ensures LastAncestor(ks, p, i) >= 0
    ensures |PathAt(ks, LastAncestor(ks, p, i)).value| >= d
  {
    var open, k := Open(ks, i - 1), ks[i - 1];
    if PathAt(ks, i - 1).Some? {
      var q := PathAt(ks, i - 1).value;
      assert Open(ks, i) == q;
      assert !Stop(ks, p, i - 1);
      assert |q| == d ==> q == q[..d];
      if !Ancestor(ks, p, i - 1) {
        assert open[..d] == q[..d];
        OpenReachesAncestor(ks, p, i - 1, d);
      }
    } else {
      assert open[..d] == Open(ks, i)[..d];
      OpenReachesAncestor(ks, p, i - 1, d);
    }
  }

  /** The comment on findKey holds when the key is found: its parent is the immediate one. */
  lemma FoundParentIsImmediate(ks: seq<Kind>, p: Path)
    requires Locate(ks, p).Found?
    ensures var f := Locate(ks, p);
            if |p| == 1 then f.parent == -1
            else 0 <= f.parent < f.idx && PathAt(ks, f.parent) == Some(p[..|p| - 1])
  {
    var f := Locate(ks, p);
    var d := |p| - 1;
    if d > 0 {
      assert PathAt(ks, f.idx).value[..d] == Open(ks, f.idx)[..d];
      OpenReachesAncestor(ks, p, f.idx, d);
    }
  }

  /** But when the key is absent the parent may be any ancestor: with the middle section
      missing, findKey returns the outermost one, two levels above the key. */
  lemma AbsentParentMayBeRemote()
    ensures Locate([Entry(0, "a")], ["a", "b", "c"]) == Absent(0)
    ensures PathAt([Entry(0, "a")], 0) == Some(["a"])
  {
    var ks, p := [Entry(0, "a")], ["a", "b", "c"];
    assert Open(ks, 0) == [];
    assert PathAt(ks, 0) == Some([][..0] + ["a"]);
    assert p[..1] == ["a"];
    assert ks[0].Entry?;
    assert Ancestor(ks, p, 0);
    assert LastAncestor(ks, p, 1) == 0;
  }

  // ----- inserting a line -------------------------------------------------------------------

  function Inserted(ks: seq<Kind>, at: nat, k: Kind): seq<Kind>
    requires at <= |ks|
  {
    ks[..at] + [k] + ks[at..]
  }

  lemma InsertedAt(ks: seq<Kind>, at: nat, k: Kind)
    requires at <= |ks|
    ensures |Inserted(ks, at, k)| == |ks| + 1 && Inserted(ks, at, k)[at] == k
    ensures forall j :: 0 <= j < at ==> Inserted(ks, at, k)[j] == ks[j]
    ensures forall j :: at <= j < |ks| ==> Inserted(ks, at, k)[j + 1] == ks[j]
  {
  }

  /** The indentation can be read, and an entry hangs from an open section. */
  predicate Hangs(ks: seq<Kind>, i: nat)
    requires i < |ks|
  {
    !ks[i].Odd? && (ks[i].Entry? ==> ks[i].level <= |Open(ks, i)|)
  }

  predicate WellFormed(ks: seq<Kind>) {
    forall i :: 0 <= i < |ks| ==> Hangs(ks, i)
  }

  lemma {:induction false} OpenPrefix(ks: seq<Kind>, ks': seq<Kind>, n: nat)
    requires n <= |ks| && n <= |ks'| && forall j :: 0 <= j < n ==> ks[j] == ks'[j]
    ensures Open(ks, n) == Open(ks', n)
  {
    if n > 0 {
      OpenPrefix(ks, ks', n - 1);
    }
  }

  /** The same sections are open, or the new entry is still on top of them. */
  predicate Above(open: Path, open': Path, name: string) {
    open' == open || open' == open + [name]
  }

  lemma AboveInserted(ks: seq<Kind>, ks': seq<Kind>, at: nat, name: string)
    requires at <= |ks| && ks' == Inserted(ks, at, Entry(|Open(ks, at)|, name))
    ensures Open(ks', at + 1) == Open(ks, at) + [name]
  {
    InsertedAt(ks, at, Entry(|Open(ks, at)|, name));
    OpenPrefix(ks, ks', at);
    assert Open(ks, at)[..|Open(ks, at)|] == Open(ks, at);
  }

  lemma AboveNext(ks: seq<Kind>, ks': seq<Kind>, i: nat, name: string)
    requires i < |ks| && i + 1 < |ks'| && ks'[i + 1] == ks[i]
    requires Hangs(ks, i)
    requires Above(Open(ks, i), Open(ks', i + 1), name)
    ensures Above(Open(ks, i + 1), Open(ks', i + 2), name)
    ensures PathAt(ks', i + 1) == PathAt(ks, i)
  {
  }

  /** Below a line inserted on top of the open sections the same sections stay open. */
  lemma {:induction false} InsertKeepsOpen(ks: seq<Kind>, ks': seq<Kind>, at: nat, name: string, i: nat)
    requires at <= i <= |ks| && WellFormed(ks) && ks' == Inserted(ks, at, Entry(|Open(ks, at)|, name))
    ensures |ks'| == |ks| + 1 && Above(Open(ks, i), Open(ks', i + 1), name)
    decreases i
  {
    InsertedAt(ks, at, Entry(|Open(ks, at)|, name));
    if i == at {
      AboveInserted(ks, ks', at, name);
    } else {
      InsertKeepsOpen(ks, ks', at, name, i - 1);
      assert Hangs(ks, i - 1);
      AboveNext(ks, ks', i - 1, name);
    }
  }

  /** So every entry keeps its path. */
  lemma InsertKeepsPath(ks: seq<Kind>, at: nat, name: string, i: nat)
    requires at <= i < |ks| && WellFormed(ks)
    ensures PathAt(Inserted(ks, at, Entry(|Open(ks, at)|, name)), i + 1) == PathAt(ks, i)
  {
    var ks' := Inserted(ks, at, Entry(|Open(ks, at)|, name));
    InsertedAt(ks, at, Entry(|Open(ks, at)|, name));
    InsertKeepsOpen(ks, ks', at, name, i);
    assert Hangs(ks, i);
    AboveNext(ks, ks', i, name);
  }

  // ----- removing lines ---------------------------------------------------------------------

  function Removed(ks: seq<Kind>, a: nat, b: nat): seq<Kind>
    requires a <= b <= |ks|
  {
    ks[..a] + ks[b..]
  }

  /** The entry at `p` has nothing below it: no line stands at a longer path through `p`. */
  predicate Leaf(ks: seq<Kind>, p: Path) {
    forall j :: 0 <= j < |ks| ==> !Under(ks, p, j)
  }

  predicate Under(ks: seq<Kind>, p: Path, j: nat)
    requires j < |ks|
  {
    var q := PathAt(ks, j);
    q.Some? && |q.value| > |p| && q.value[..|p|] == p
  }

  /** The same sections are open, or the removed entry still hides those it closed. */
  predicate Hides(open: Path, open': Path, p: Path)
    requires |p| > 0
  {
    open' == open || (open == p && |open'| >= |p| - 1 && open'[..|p| - 1] == p[..|p| - 1])
  }

  lemma HidesNext(ks: seq<Kind>, ks': seq<Kind>, i: nat, i': nat, p: Path)
    requires |p| > 0 && i < |ks| && i' < |ks'| && ks'[i'] == ks[i]
    requires Hangs(ks, i) && !Under(ks, p, i)
    requires Hides(Open(ks, i), Open(ks', i'), p)
    ensures Hides(Open(ks, i + 1), Open(ks', i' + 1), p)
    ensures PathAt(ks', i') == PathAt(ks, i)
  {
    var open := Open(ks, i);
    assert PathAt(ks, i).Some? && open == p ==> PathAt(ks, i).value[..ks[i].level] == p[..ks[i].level];
    assert p[..|p|] == p;
  }

  /** A line that closes no section above the given level. */
  predicate Deep(k: Kind, level: nat) {
    k.Blank? || ((k.Entry? || k.Bare?) && k.level >= level)
  }

  predicate AllDeep(ks: seq<Kind>, a: nat, b: nat, level: nat)
    requires b <= |ks|
  {
    forall j :: a <= j < b ==> Deep(ks[j], level)
  }

  lemma {:induction false} DeepKeepsOpen(ks: seq<Kind>, a: nat, i: nat, level: nat)
    requires a <= i <= |ks| && AllDeep(ks, a, i, level) && |Open(ks, i)| >= level
    ensures |Open(ks, a)| >= level && Open(ks, a)[..level] == Open(ks, i)[..level]
    decreases i
  {
    if i > a {
      assert Deep(ks[i - 1], level);
      assert Open(ks, i)[..level] == Open(ks, i - 1)[..level];
      DeepKeepsOpen(ks, a, i - 1, level);
    }
  }

  lemma HidesRemoved(ks: seq<Kind>, ks': seq<Kind>, a: nat, idx: nat, p: Path)
    requires a <= idx < |ks| && ks' == Removed(ks, a, idx + 1)
    requires PathAt(ks, idx) == Some(p)
    requires |p| > 0 && AllDeep(ks, a, idx, |p| - 1)
    ensures Hides(Open(ks, idx + 1), Open(ks', a), p)
  {
    OpenPrefix(ks, ks', a);
    var open := Open(ks, idx);
    assert p[..|p| - 1] == open[..|p| - 1];
    DeepKeepsOpen(ks, a, idx, |p| - 1);
  }

  /** After a leaf and deep lines above it are removed, what was open stays open, but
      for the leaf itself. */
  lemma {:induction false} RemoveKeepsOpen(ks: seq<Kind>, ks': seq<Kind>, a: nat, idx: nat, p: Path, i: nat)
    requires a <= idx < i <= |ks| && ks' == Removed(ks, a, idx + 1)
    requires WellFormed(ks) && PathAt(ks, idx) == Some(p) && Leaf(ks, p)
    requires |p| > 0 && AllDeep(ks, a, idx, |p| - 1)
    ensures |ks'| == |ks| - (idx + 1 - a)
    ensures Hides(Open(ks, i), Open(ks', i - (idx + 1 - a)), p)
    decreases i
  {
    if i == idx + 1 {
      HidesRemoved(ks, ks', a, idx, p);
    } else {
      var i' := i - 1 - (idx + 1 - a);
      RemoveKeepsOpen(ks, ks', a, idx, p, i - 1);
      assert Hangs(ks, i - 1) && !Under(ks, p, i - 1);
      assert ks'[i'] == ks[i - 1];
      HidesNext(ks, ks', i - 1, i', p);
      assert i - (idx + 1 - a) == i' + 1;
    }
  }

  /** So every entry below keeps its path. */
  lemma RemoveKeepsPath(ks: seq<Kind>, ks': seq<Kind>, a: nat, idx: nat, p: Path, i: nat)
    requires a <= idx < i < |ks| && ks' == Removed(ks, a, idx + 1)
    requires WellFormed(ks) && PathAt(ks, idx) == Some(p) && Leaf(ks, p)
    requires |p| > 0 && AllDeep(ks, a, idx, |p| - 1)
    ensures |ks'| == |ks| - (idx + 1 - a)
    ensures PathAt(ks', i - (idx + 1 - a)) == PathAt(ks, i)
  {
    RemoveKeepsOpen(ks, ks', a, idx, p, i);
    assert Hangs(ks, i) && !Under(ks, p, i);
    HidesNext(ks, ks', i, i - (idx + 1 - a), p);
  }

  // ----- searching a file and the same file with some lines left out --------------------------

  /** Every indentation can be read. */
  predicate NoOdd(ks: seq<Kind>) {
    forall j :: 0 <= j < |ks| ==> !ks[j].Odd?
  }

  lemma WellFormedNoOdd(ks: seq<Kind>)
    requires WellFormed(ks)
    ensures NoOdd(ks)
  {
    forall j | 0 <= j < |ks| ensures !ks[j].Odd? {
      assert Hangs(ks, j);
    }
  }

  /** `short` is `long` without the lines `a..b`: the others stand where they stood. */
  predicate Gap(long: seq<Kind>, short: seq<Kind>, a: nat, b: nat) {
    a <= b <= |long| && |short| == |long| - (b - a)
    && NoOdd(long) && NoOdd(short)
    && (forall j :: 0 <= j < a ==> SamePath(long, j, short, j))
    && (forall j :: b <= j < |long| ==> ShiftedPath(long, j, short, a, b))
  }

  predicate SamePath(ks: seq<Kind>, i: nat, ks': seq<Kind>, i': nat) {
    i < |ks| && i' < |ks'| && PathAt(ks, i) == PathAt(ks', i')
  }

  predicate ShiftedPath(ks: seq<Kind>, i: nat, ks': seq<Kind>, a: nat, b: nat) {
    a <= b <= i && SamePath(ks, i, ks', i - (b - a))
  }

  /** No line from `a` to before `b` has the path. */
  predicate Clear(ks: seq<Kind>, q: Path, a: nat, b: nat)
    requires b <= |ks|
  {
    forall j :: a <= j < b ==> !Stop(ks, q, j)
  }

  /** A path that no left-out line has is found in both files, at the same line, or in neither. */
  lemma GapLocate(long: seq<Kind>, short: seq<Kind>, a: nat, b: nat, q: Path)
    requires Gap(long, short, a, b) && Clear(long, q, a, b)
    ensures Locate(long, q).Found? <==> Locate(short, q).Found?
    ensures Locate(long, q).Absent? <==> Locate(short, q).Absent?
    ensures Locate(short, q).Found? ==>
              var i := Locate(short, q).idx;
              Locate(long, q).idx == if i < a then i else i + (b - a)
  {
    var i := FirstStop(short, q, 0);
    var i' := if i < a then i else i + (b - a);
    forall j | 0 <= j < i' ensures !Stop(long, q, j) {
      if j < a {
        assert SamePath(long, j, short, j);
        assert !Stop(short, q, j);
      } else if b <= j {
        assert ShiftedPath(long, j, short, a, b);
        assert !Stop(short, q, j - (b - a));
      }
    }
    if i < |short| {
      assert if i < a then SamePath(long, i', short, i) else ShiftedPath(long, i', short, a, b);
      assert Stop(short, q, i);
      assert Stop(long, q, i');
    }
    assert FirstStop(long, q, 0) == i';
  }

  lemma PathsBefore(ks: seq<Kind>, ks': seq<Kind>, n: nat)
    requires n <= |ks| && n <= |ks'| && forall j :: 0 <= j < n ==> ks[j] == ks'[j]
    ensures forall j :: 0 <= j < n ==> SamePath(ks, j, ks', j)
  {
    forall j | 0 <= j < n ensures SamePath(ks, j, ks', j) {
      OpenPrefix(ks, ks', j);
    }
  }

  /** Where the editor may put a key: on top of the open sections, or at the top level with
      nothing but blank lines after it. */
  predicate Slot(ks: seq<Kind>, at: nat, level: nat) {
    at <= |ks| &&
    (level == |Open(ks, at)| || (level == 0 && forall j :: at <= j < |ks| ==> ks[j].Blank?))
  }

  /** Adding an entry leaves a gap where it stands, in a well-formed file. */
  lemma InsertGap(ks: seq<Kind>, at: nat, k: Kind)
    requires WellFormed(ks) && k.Entry? && Slot(ks, at, k.level)
    ensures Gap(Inserted(ks, at, k), ks, at, at + 1)
    ensures PathAt(Inserted(ks, at, k), at) == Some(Open(ks, at)[..k.level] + [k.name])
  {
    var ks' := Inserted(ks, at, k);
    InsertedAt(ks, at, k);
    PathsBefore(ks', ks, at);
    OpenPrefix(ks, ks', at);
    var b := at + 1;
    forall j | b <= j < |ks'| ensures ShiftedPath(ks', j, ks, at, b) {
      assert ks'[j] == ks[j - 1];
      if k.level == |Open(ks, at)| {
        InsertKeepsPath(ks, at, k.name, j - 1);
      }
    }
    WellFormedNoOdd(ks);
  }

  /** Removing a leaf and its comments leaves a gap where it stood. */
  lemma RemoveGap(ks: seq<Kind>, a: nat, idx: nat, p: Path)
    requires a <= idx < |ks| && WellFormed(ks) && PathAt(ks, idx) == Some(p) && Leaf(ks, p)
    requires |p| > 0 && AllDeep(ks, a, idx, |p| - 1)
    ensures Gap(ks, Removed(ks, a, idx + 1), a, idx + 1)
  {
    var ks', b := Removed(ks, a, idx + 1), idx + 1;
    PathsBefore(ks, ks', a);
    forall j | b <= j < |ks| ensures ShiftedPath(ks, j, ks', a, b) {
      RemoveKeepsPath(ks, ks', a, idx, p, j);
    }
    WellFormedNoOdd(ks);
    assert forall j :: a <= j < |ks'| ==> ks'[j] == ks[j + (b - a)];
  }

  lemma InsertedPath(ks: seq<Kind>, p: Path, at: nat)
    requires |p| > 0 && at <= |ks|
    requires |p| - 1 <= |Open(ks, at)| && Open(ks, at)[..|p| - 1] == p[..|p| - 1]
    ensures var ks' := Inserted(ks, at, Entry(|p| - 1, p[|p| - 1]));
            at < |ks'| && PathAt(ks', at) == Some(p)
            && forall j :: 0 <= j < at ==> SamePath(ks, j, ks', j) && ks'[j] == ks[j]
  {
    var k := Entry(|p| - 1, p[|p| - 1]);
    var ks' := Inserted(ks, at, k);
    InsertedAt(ks, at, k);
    OpenPrefix(ks, ks', at);
    PathsBefore(ks, ks', at);
    assert p == p[..|p| - 1] + [p[|p| - 1]];
  }

  /** A key put below its immediate parent, or at the end of the top level, is found there. */
  lemma InsertedIsFound(ks: seq<Kind>, p: Path, at: nat)
    requires |p| > 0 && at <= |ks| && Locate(ks, p).Absent?
    requires |p| - 1 <= |Open(ks, at)| && Open(ks, at)[..|p| - 1] == p[..|p| - 1]
    ensures var ks' := Inserted(ks, at, Entry(|p| - 1, p[|p| - 1]));
            at < |ks'| && Locate(ks', p) == Found(at, LastAncestor(ks', p, at))
  {
    var ks' := Inserted(ks, at, Entry(|p| - 1, p[|p| - 1]));
    InsertedPath(ks, p, at);
    forall j | 0 <= j < at ensures !Stop(ks', p, j) {
      assert SamePath(ks, j, ks', j);
      assert !Stop(ks, p, j);
    }
    LocateAt(ks', p, at);
  }

  /** A key put deeper than anything that is open belongs to nothing: it is not found, and no
      other line notices it. */
  lemma TooDeepIsLost(ks: seq<Kind>, at: nat, k: Kind, i: nat)
    requires at <= i <= |ks| && k.Entry? && k.level > |Open(ks, at)|
    ensures |Inserted(ks, at, k)| == |ks| + 1
    ensures Open(Inserted(ks, at, k), i + 1) == Open(ks, i)
    decreases i
  {
    var ks' := Inserted(ks, at, k);
    InsertedAt(ks, at, k);
    if i == at {
      OpenPrefix(ks, ks', at);
    } else {
      TooDeepIsLost(ks, at, k, i - 1);
    }
  }

  lemma TooDeepKeepsPath(ks: seq<Kind>, at: nat, k: Kind, j: nat)
    requires at <= j < |ks| && k.Entry? && k.level > |Open(ks, at)|
    ensures |Inserted(ks, at, k)| == |ks| + 1
    ensures PathAt(Inserted(ks, at, k), j + 1) == PathAt(ks, j)
  {
    InsertedAt(ks, at, k);
    TooDeepIsLost(ks, at, k, j);
  }

  lemma TooDeepPath(ks: seq<Kind>, at: nat, k: Kind)
    requires at <= |ks| && k.Entry? && k.level > |Open(ks, at)|
    ensures |Inserted(ks, at, k)| == |ks| + 1 && PathAt(Inserted(ks, at, k), at) == None
  {
    InsertedAt(ks, at, k);
    OpenPrefix(ks, Inserted(ks, at, k), at);
  }

  lemma TooDeepGap(ks: seq<Kind>, at: nat, k: Kind)
    requires at <= |ks| && k.Entry? && k.level > |Open(ks, at)| && NoOdd(ks)
    ensures Gap(Inserted(ks, at, k), ks, at, at + 1)
  {
    var ks' := Inserted(ks, at, k);
    InsertedAt(ks, at, k);
    PathsBefore(ks', ks, at);
    var b := at + 1;
    forall j | b <= j < |ks'| ensures ShiftedPath(ks', j, ks, at, b) {
      TooDeepKeepsPath(ks, at, k, j - 1);
    }
  }
}
