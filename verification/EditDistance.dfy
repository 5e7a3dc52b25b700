/** The spelling correction of internal/cli/cmd_config.go. Levenshtein distance, computed with two rows
    of its table, is proved to be the least cost of any edit script; and the nearest setting name is
    the first hit of the first pass that hits anything. */
module EditDistance {
  import opened Text

  // ----- edit scripts: what the distance means ----------------------------------------------------

  datatype Op = Keep(c: char) | Change(from: char, to: char) | Delete(d: char) | Insert(i: char)

  type Script = seq<Op>

  function Consumes(op: Op): string {
    match op
    case Keep(c) => [c]
    case Change(a, _) => [a]
    case Delete(d) => [d]
    case Insert(_) => ""
  }

  function Produces(op: Op): string {
    match op
    case Keep(c) => [c]
    case Change(_, b) => [b]
    case Delete(_) => ""
    case Insert(i) => [i]
  }

  function Before(s: Script): string {
    if s == [] then "" else Before(s[..|s| - 1]) + Consumes(s[|s| - 1])
  }

  function After(s: Script): string {
    if s == [] then "" else After(s[..|s| - 1]) + Produces(s[|s| - 1])
  }

  /** How many bytes the script inserts, deletes or substitutes. */
  function Cost(s: Script): nat {
    if s == [] then 0 else Cost(s[..|s| - 1]) + if s[|s| - 1].Keep? then 0 else 1
  }

  predicate Turns(s: Script, a: string, b: string) {
    Before(s) == a && After(s) == b
  }

  // ----- the recursive distance -------------------------------------------------------------------

  function Init(s: string): string
    requires s != ""
  {
    s[..|s| - 1]
  }

  function Last(s: string): char
    requires s != ""
  {
    s[|s| - 1]
  }

  function Min3(x: nat, y: nat, z: nat): nat {
    if x <= y && x <= z then x else if y <= z then y else z
  }

  function Differs(x: char, y: char): nat {
    if x == y then 0 else 1
  }

  function Distance(a: string, b: string): nat
    decreases |a| + |b|
  {
    if a == "" then |b|
    else if b == "" then |a|
    else Min3(Distance(a, Init(b)) + 1, Distance(Init(a), b) + 1,
              Distance(Init(a), Init(b)) + Differs(Last(a), Last(b)))
  }

  /** Dropping or adding one byte at the end costs at most one. */
  lemma DistanceSteps(a: string, b: string)
    ensures a != "" ==> Distance(a, b) <= Distance(Init(a), b) + 1
    ensures b != "" ==> Distance(a, b) <= Distance(a, Init(b)) + 1
    ensures a != "" && b != "" ==>
              Distance(a, b) <= Distance(Init(a), Init(b)) + Differs(Last(a), Last(b))
  {
  }

  /** One more operation moves the distance by no more than it costs. */
  lemma OneOperation(a: string, b: string, op: Op)
    ensures Distance(a + Consumes(op), b + Produces(op)) <= Distance(a, b) + if op.Keep? then 0 else 1
  {
    var a', b' := a + Consumes(op), b + Produces(op);
    DistanceSteps(a', b');
    assert Consumes(op) != "" ==> Init(a') == a;
    assert Produces(op) != "" ==> Init(b') == b;
    assert a + "" == a && b + "" == b;
  }

  lemma {:induction false} ScriptCostsAtLeast(s: Script)
    ensures Distance(Before(s), After(s)) <= Cost(s)
  {
    if s != [] {
      var t := s[..|s| - 1];
      ScriptCostsAtLeast(t);
      OneOperation(Before(t), After(t), s[|s| - 1]);
    }
  }

  lemma Extend(s: Script, op: Op, a: string, b: string)
    requires Turns(s, a, b)
    ensures Turns(s + [op], a + Consumes(op), b + Produces(op))
    ensures Cost(s + [op]) == Cost(s) + if op.Keep? then 0 else 1
  {
    assert (s + [op])[..|s + [op]| - 1] == s;
  }

  /** A script that turns `a` into `b` at the cost of the distance. */
  function Best(a: string, b: string): Script
    decreases |a| + |b|
  {
    if a == "" && b == "" then []
    else if a == "" then Best(a, Init(b)) + [Insert(Last(b))]
    else if b == "" then Best(Init(a), b) + [Delete(Last(a))]
    else if Distance(a, b) == Distance(a, Init(b)) + 1 then Best(a, Init(b)) + [Insert(Last(b))]
    else if Distance(a, b) == Distance(Init(a), b) + 1 then Best(Init(a), b) + [Delete(Last(a))]
    else Best(Init(a), Init(b)) + [if Last(a) == Last(b) then Keep(Last(a)) else Change(Last(a), Last(b))]
  }

  lemma InitLast(s: string)
    requires s != ""
    ensures Init(s) + [Last(s)] == s && s + "" == s
  {
  }

  lemma {:induction false} BestIsOptimal(a: string, b: string)
    ensures Turns(Best(a, b), a, b) && Cost(Best(a, b)) == Distance(a, b)
    decreases |a| + |b|
  {
    if a == "" && b == "" {
    } else if a == "" || (b != "" && Distance(a, b) == Distance(a, Init(b)) + 1) {
      BestIsOptimal(a, Init(b));
      InitLast(b);
      assert a + "" == a;
      Extend(Best(a, Init(b)), Insert(Last(b)), a, Init(b));
    } else if b == "" || Distance(a, b) == Distance(Init(a), b) + 1 {
      BestIsOptimal(Init(a), b);
      InitLast(a);
      assert b + "" == b;
      Extend(Best(Init(a), b), Delete(Last(a)), Init(a), b);
    } else {
      BestIsOptimal(Init(a), Init(b));
      InitLast(a);
      InitLast(b);
      var op := if Last(a) == Last(b) then Keep(Last(a)) else Change(Last(a), Last(b));
      Extend(Best(Init(a), Init(b)), op, Init(a), Init(b));
    }
  }

  /** The distance is the least cost of any script. */
  lemma DistanceIsLeastCost(a: string, b: string, s: Script)
    requires Turns(s, a, b)
    ensures Distance(a, b) <= Cost(s)
    ensures Turns(Best(a, b), a, b) && Cost(Best(a, b)) == Distance(a, b)
  {
    ScriptCostsAtLeast(s);
    BestIsOptimal(a, b);
  }

  // ----- the distance is a metric -------------------------------------------------------------------

  lemma {:induction false} ZeroIffEqual(a: string, b: string)
    ensures Distance(a, b) == 0 <==> a == b
    decreases |a| + |b|
  {
    if a != "" && b != "" {
      ZeroIffEqual(Init(a), Init(b));
      assert a == Init(a) + [Last(a)] && b == Init(b) + [Last(b)];
    }
  }

  lemma {:induction false} Symmetric(a: string, b: string)
    ensures Distance(a, b) == Distance(b, a)
    decreases |a| + |b|
  {
    if a != "" && b != "" {
      Symmetric(Init(a), b);
      Symmetric(a, Init(b));
      Symmetric(Init(a), Init(b));
    }
  }

  lemma {:induction false} LengthBound(a: string, b: string)
    ensures |a| <= Distance(a, b) + |b| && |b| <= Distance(a, b) + |a|
    decreases |a| + |b|
  {
    if a != "" && b != "" {
      LengthBound(Init(a), b);
      LengthBound(a, Init(b));
      LengthBound(Init(a), Init(b));
    }
  }

  lemma {:induction false} Triangle(a: string, b: string, c: string)
    ensures Distance(a, c) <= Distance(a, b) + Distance(b, c)
    decreases |a| + |b| + |c|
  {
    if a == "" {
      LengthBound(b, c);
    } else if c == "" {
      LengthBound(a, b);
    } else if b == "" {
      TriangleThroughEmpty(a, c);
    } else if Distance(a, b) == Distance(Init(a), b) + 1 {
      Triangle(Init(a), b, c);
      DistanceSteps(a, c);
    } else if Distance(b, c) == Distance(b, Init(c)) + 1 {
      Triangle(a, b, Init(c));
      DistanceSteps(a, c);
    } else if Distance(a, b) == Distance(a, Init(b)) + 1 && Distance(b, c) == Distance(Init(b), c) + 1 {
      Triangle(a, Init(b), c);
    } else if Distance(a, b) == Distance(a, Init(b)) + 1 {
      Triangle(a, Init(b), Init(c));
      DistanceSteps(a, c);
    } else if Distance(b, c) == Distance(Init(b), c) + 1 {
      Triangle(Init(a), Init(b), c);
      DistanceSteps(a, c);
    } else {
      Triangle(Init(a), Init(b), Init(c));
      DistanceSteps(a, c);
    }
  }

  /** No script is dearer than deleting everything and inserting everything. */
  lemma {:induction false} TriangleThroughEmpty(a: string, c: string)
    ensures Distance(a, c) <= |a| + |c|
    decreases |a| + |c|
  {
    if a != "" && c != "" {
      TriangleThroughEmpty(Init(a), c);
      DistanceSteps(a, c);
    }
  }

  // ----- two rows -----------------------------------------------------------------------------------

  method MinOf(vs: seq<int>) returns (m: int)
    requires |vs| > 0
    ensures m in vs && forall k :: 0 <= k < |vs| ==> m <= vs[k]
  {
    m := vs[0];
    for i := 1 to |vs|
      invariant m in vs && forall k :: 0 <= k < i ==> m <= vs[k]
    {
      if vs[i] < m {
        m := vs[i];
      }
    }
  }

  /** One cell of the table: the distance between the first `i` bytes of `a` and `j` of `b`. */
  function Cell(a: string, i: nat, b: string, j: nat): nat
    requires i <= |a| && j <= |b|
  {
    Distance(a[..i], b[..j])
  }

  lemma CellFromNeighbours(a: string, i: nat, b: string, j: nat)
    requires 1 <= i <= |a| && 1 <= j <= |b|
    ensures Cell(a, i, b, j) == Min3(Cell(a, i, b, j - 1) + 1, Cell(a, i - 1, b, j) + 1,
                                     Cell(a, i - 1, b, j - 1) + Differs(a[i - 1], b[j - 1]))
  {
    var x, y := a[..i], b[..j];
    assert Init(x) == a[..i - 1] && Init(y) == b[..j - 1];
    assert Last(x) == a[i - 1] && Last(y) == b[j - 1];
  }

  lemma CellEdges(a: string, i: nat, b: string, j: nat)
    requires i <= |a| && j <= |b|
    ensures Cell(a, 0, b, j) == j && Cell(a, i, b, 0) == i
    ensures Cell(a, |a|, b, |b|) == Distance(a, b)
  {
    assert a[..|a|] == a && b[..|b|] == b;
  }

  /** Row `i` of the table, up to column `n`. */
  ghost predicate IsRow(row: seq<int>, a: string, i: nat, b: string, n: nat)
    requires i <= |a| && n <= |row| == |b| + 1
  {
    forall j :: 0 <= j < n ==> row[j] == Cell(a, i, b, j)
  }

  /** The inner loop: the next row from the one above it. */
  method FillRow(a: string, i: nat, b: string, prev: array<int>, cur: array<int>)
    requires 1 <= i <= |a| && prev.Length == cur.Length == |b| + 1 && prev != cur
    requires IsRow(prev[..], a, i - 1, b, |b| + 1)
    modifies cur
    ensures IsRow(cur[..], a, i, b, |b| + 1)
  {
    hide Distance;
    hide Cell;
    CellEdges(a, i, b, 0);
    cur[0] := i;
    for j := 1 to |b| + 1
      invariant IsRow(cur[..], a, i, b, j)
    {
      var cost := 1;
      if a[i - 1] == b[j - 1] {
        cost := 0;
      }
      CellFromNeighbours(a, i, b, j);
      assert prev[..][j] == Cell(a, i - 1, b, j) && prev[..][j - 1] == Cell(a, i - 1, b, j - 1);
      assert cur[..][j - 1] == Cell(a, i, b, j - 1);
      var vs := [cur[j - 1] + 1, prev[j] + 1, prev[j - 1] + cost];
      var m := MinOf(vs);
      assert m <= vs[0] && m <= vs[1] && m <= vs[2];
      cur[j] := m;
    }
  }

  method ComputeEditDistance(a: string, b: string) returns (d: int)
    ensures d == Distance(a, b)
  {
    if a == b {
      ZeroIffEqual(a, b);
      return 0;
    }
    hide Distance;
    hide Cell;
    var prev, cur := new int[|b| + 1], new int[|b| + 1];
    for j := 0 to |b| + 1
      invariant IsRow(prev[..], a, 0, b, j)
    {
      CellEdges(a, 0, b, j);
      prev[j] := j;
    }
    for i := 1 to |a| + 1
      invariant prev.Length == cur.Length == |b| + 1 && prev != cur
      invariant fresh(prev) && fresh(cur)
      invariant IsRow(prev[..], a, i - 1, b, |b| + 1)
    {
      FillRow(a, i, b, prev, cur);
      prev, cur := cur, prev;
    }
    CellEdges(a, |a|, b, |b|);
    assert prev[..][|b|] == Cell(a, |a|, b, |b|);
    return prev[|b|];
  }

  // ----- the nearest setting ------------------------------------------------------------------------

  const SEPARATORS: set<char> := {'_', '-', '.'}

  function Squash(s: string): string {
    if s == "" then ""
    else Squash(Init(s)) + if LowerByte(Last(s)) in SEPARATORS then "" else [LowerByte(Last(s))]
  }

  method ComputeSquash(s: string) returns (r: string)
    ensures r == Squash(s)
  {
    r := "";
    for i := 0 to |s|
      invariant r == Squash(s[..i])
    {
      assert Init(s[..i + 1]) == s[..i] && Last(s[..i + 1]) == s[i];
      var c := LowerByte(s[i]);
      if c != '_' && c != '-' && c != '.' {
        r := r + [c];
      }
    }
    assert s[..|s|] == s;
  }

  function LastDot(s: string): int
  {
    if s == "" then -1 else if Last(s) == '.' then |s| - 1 else LastDot(Init(s))
  }

  lemma {:induction false} LastDotBound(s: string)
    ensures -1 <= LastDot(s) < |s|
  {
    if s != "" && Last(s) != '.' {
      LastDotBound(Init(s));
    }
  }

  /** The name behind the last dot. */
  function LeafName(k: string): string {
    LastDotBound(k);
    k[LastDot(k) + 1..]
  }

  predicate ContainsAt(s: string, t: string, i: nat) {
    i + |t| <= |s| && s[i..i + |t|] == t
  }

  predicate Contains(s: string, t: string) {
    exists i :: 0 <= i <= |s| && ContainsAt(s, t, i)
  }

  /** The passes of nearestSetting, in the order they are tried; `key` is lower-cased already. */
  datatype Pass = SameKey | SameLeaf | Part | SameSquashed | SameSquashedLeaf

  predicate Hit(pass: Pass, k: string, key: string) {
    match pass
    case SameKey => ToLower(k) == ToLower(key)
    case SameLeaf => ToLower(LeafName(k)) == ToLower(key)
    case Part => Contains(ToLower(k), key)
    case SameSquashed => Squash(k) == Squash(key)
    case SameSquashedLeaf => Squash(LeafName(k)) == Squash(key)
  }

  const PASSES: seq<Pass> := [SameKey, SameLeaf, Part, SameSquashed, SameSquashedLeaf]

  predicate Misses(keys: seq<string>, pass: Pass, key: string) {
    forall i :: 0 <= i < |keys| ==> !Hit(pass, keys[i], key)
  }

  /** The first key that a pass hits. */
  method FirstHit(keys: seq<string>, pass: Pass, key: string) returns (r: Option<string>)
    ensures r.None? <==> Misses(keys, pass, key)
    ensures r.Some? ==> exists i :: 0 <= i < |keys| && keys[i] == r.value && Hit(pass, keys[i], key)
                                    && Misses(keys[..i], pass, key)
  {
    for i := 0 to |keys|
      invariant Misses(keys[..i], pass, key)
    {
      if Hit(pass, keys[i], key) {
        return Some(keys[i]);
      }
      assert keys[..i + 1] == keys[..i] + [keys[i]];
    }
    assert keys[..|keys|] == keys;
    return None;
  }

  function Away(k: string, key: string): nat {
    Distance(Squash(k), Squash(key))
  }

  /** `i` is the first key of least squashed distance, and that is at most two. */
  predicate FirstNearest(keys: seq<string>, key: string, i: nat) {
    i < |keys| && Away(keys[i], key) <= 2
    && (forall j :: 0 <= j < |keys| ==> Away(keys[i], key) <= Away(keys[j], key))
    && (forall j :: 0 <= j < i ==> Away(keys[i], key) < Away(keys[j], key))
  }

  /** What the last pass knows after `n` keys. */
  predicate NearestSoFar(keys: seq<string>, key: string, n: nat, best: string, dist: int, at: nat) {
    n <= |keys| && dist <= 3
    && (dist < 3 ==> at < n && best == keys[at] && dist == Away(keys[at], key)
                     && forall j :: 0 <= j < at ==> dist < Away(keys[j], key))
    && (dist == 3 ==> best == "")
    && (forall j :: 0 <= j < n ==> dist <= Away(keys[j], key))
  }

  lemma NearestSoFarStep(keys: seq<string>, key: string, n: nat, best: string, dist: int, at: nat)
    requires n < |keys| && NearestSoFar(keys, key, n, best, dist, at)
    ensures Away(keys[n], key) >= dist ==> NearestSoFar(keys, key, n + 1, best, dist, at)
    ensures Away(keys[n], key) < dist ==> NearestSoFar(keys, key, n + 1, keys[n], Away(keys[n], key), n)
  {
    hide Away;
  }

  /** The last pass: the first key of least squashed distance if that is at most two, else none. */
  method WithinTwoEdits(keys: seq<string>, key: string) returns (best: string)
    ensures (exists i: nat :: FirstNearest(keys, key, i) && best == keys[i])
            || (best == "" && forall j :: 0 <= j < |keys| ==> Away(keys[j], key) > 2)
  {
    hide Squash;
    hide Distance;
    var squashed := ComputeSquash(key);
    var bestDist := 3;
    best := "";
    ghost var at: nat := 0;
    for n := 0 to |keys|
      invariant NearestSoFar(keys, key, n, best, bestDist, at)
    {
      NearestSoFarStep(keys, key, n, best, bestDist, at);
      var s := ComputeSquash(keys[n]);
      var d := ComputeEditDistance(s, squashed);
      assert d == Away(keys[n], key);
      if d < bestDist {
        best, bestDist, at := keys[n], d, n;
      }
    }
    hide Away;
    if bestDist < 3 {
      assert FirstNearest(keys, key, at);
    }
  }

  /** nearestSetting: the first hit of the first pass that hits anything, and failing all passes
      the nearest key within two edits. */
  method NearestSetting(keys: seq<string>, typed: string) returns (r: string)
    ensures var key := ToLower(typed);
            (exists p, i :: 0 <= p < |PASSES| && 0 <= i < |keys| && keys[i] == r
                            && Hit(PASSES[p], keys[i], key) && Misses(keys[..i], PASSES[p], key)
                            && forall q :: 0 <= q < p ==> Misses(keys, PASSES[q], key))
            || ((forall q :: 0 <= q < |PASSES| ==> Misses(keys, PASSES[q], key))
                && ((exists i: nat :: FirstNearest(keys, key, i) && r == keys[i])
                    || (r == "" && forall j :: 0 <= j < |keys| ==> Away(keys[j], key) > 2)))
  {
    var key := ToLower(typed);
    hide Hit;
    hide Away;
    for p := 0 to |PASSES|
      invariant forall q :: 0 <= q < p ==> Misses(keys, PASSES[q], key)
    {
      var hit := FirstHit(keys, PASSES[p], key);
      if hit.Some? {
        return hit.value;
      }
    }
    r := WithinTwoEdits(keys, key);
  }

  // ----- what the passes look for ---------------------------------------------------------------------

  /** Squashing drops the three separators and lowers the rest, byte by byte. */
  lemma {:induction false} SquashMeans(a: string, b: string, c: char)
    ensures Squash(a + b) == Squash(a) + Squash(b)
    ensures Squash([c]) == if c == '_' || c == '-' || c == '.' then "" else ToLower([c])
    ensures Squash("") == ""
    decreases |b|
  {
    assert Init([c]) == "" && Last([c]) == c && "" + Squash([c]) == Squash([c]);
    if b == "" {
      assert a + b == a;
    } else {
      assert Init(a + b) == a + Init(b) && Last(a + b) == Last(b);
      SquashMeans(a, Init(b), c);
    }
  }

  /** The name behind the last dot: it has no dot, and either is the whole name or follows one. */
  predicate IsLeaf(k: string, leaf: string) {
    '.' !in leaf && (k == leaf || (|leaf| < |k| && k[|k| - |leaf| - 1] == '.' && k[|k| - |leaf|..] == leaf))
  }

  lemma {:induction false} LastDotIsLast(s: string)
    ensures -1 <= LastDot(s) < |s| && '.' !in s[LastDot(s) + 1..]
    ensures LastDot(s) >= 0 ==> s[LastDot(s)] == '.'
  {
    if s != "" && Last(s) != '.' {
      LastDotIsLast(Init(s));
      var i := LastDot(s);
      assert s[i + 1..] == Init(s)[i + 1..] + [Last(s)];
    }
  }

  lemma DotBehind(k: string, i: int, j: int)
    requires -1 <= i < j < |k| && k[j] == '.'
    ensures '.' in k[i + 1..]
  {
    assert k[i + 1..][j - i - 1] == '.';
  }

  lemma LeafIs(k: string, leaf: string)
    ensures LeafName(k) == leaf <==> IsLeaf(k, leaf)
  {
    LastDotIsLast(k);
    var d := LastDot(k);
    if IsLeaf(k, leaf) {
      var e := |k| - |leaf| - 1;
      assert leaf == k[e + 1..];
      if d > e {
        DotBehind(k, e, d);
      } else if d < e {
        DotBehind(k, d, e);
      }
    } else if d == -1 {
      assert k[0..] == k;
    }
  }

  /** What each pass compares, and their order: the whole name, the name behind the last dot, a part of
      the name; and without separators the whole name and the name behind the last dot. */
  lemma PassesMean(k: string, key: string)
    ensures PASSES == [SameKey, SameLeaf, Part, SameSquashed, SameSquashedLeaf]
    ensures Hit(SameKey, k, key) <==> ToLower(k) == ToLower(key)
    ensures Hit(SameLeaf, k, key) <==> exists leaf :: IsLeaf(k, leaf) && ToLower(leaf) == ToLower(key)
    ensures Hit(Part, k, key) <==> exists a, b :: ToLower(k) == a + key + b
    ensures Hit(SameSquashed, k, key) <==> Squash(k) == Squash(key)
    ensures Hit(SameSquashedLeaf, k, key) <==> exists leaf :: IsLeaf(k, leaf) && Squash(leaf) == Squash(key)
  {
    LeafIs(k, LeafName(k));
    forall leaf | IsLeaf(k, leaf) ensures leaf == LeafName(k) {
      LeafIs(k, leaf);
    }
    hide LeafName;
    hide IsLeaf;
    hide Squash;
    ContainsIff(ToLower(k), key);
    hide ToLower;
    hide Contains;
  }

  lemma ContainsIff(s: string, t: string)
    ensures Contains(s, t) <==> exists a, b :: s == a + t + b
  {
    if i :| 0 <= i <= |s| && ContainsAt(s, t, i) {
      assert s == s[..i] + t + s[i + |t|..];
    }
    if a, b :| s == a + t + b {
      assert ContainsAt(s, t, |a|);
    }
  }

  /** What the last resort is: the first key of least distance without separators, if that is at most
      two. */
  lemma NearestMeans(keys: seq<string>, key: string, i: nat)
    ensures FirstNearest(keys, key, i) <==>
            i < |keys| && Distance(Squash(keys[i]), Squash(key)) <= 2
            && (forall j :: 0 <= j < |keys| ==>
                  Distance(Squash(keys[i]), Squash(key)) <= Distance(Squash(keys[j]), Squash(key)))
            && forall j :: 0 <= j < i ==>
                 Distance(Squash(keys[i]), Squash(key)) < Distance(Squash(keys[j]), Squash(key))
  {
  }
}
