/** Byte strings and the few library functions on them that the repository's editors and
    readers are written with.

    A `char` stands for one byte. Trimming takes a cut set, as `strings.Trim` does; cutting and
    splitting go by a single byte, as every call the model needs does. Each function comes with
    the lemmas that say what it means: what a trim leaves and what it took off, that a cut is the
    only one of its kind, and that splitting and joining undo each other. */
module Text {

  datatype Option<+T> = None | Some(value: T)

  datatype Result<+T, +E> = Ok(value: T) | Err(error: E)

  /** The white space `strings.TrimSpace` removes, over ASCII. */
  const SPACE: set<char> := {' ', '\t', '\n', '\r', 11 as char, 12 as char}

  /** The cut set " \t". */
  const BLANK: set<char> := {' ', '\t'}

  lemma Assoc(a: string, b: string, c: string)
    ensures a + (b + c) == (a + b) + c
  {
  }

  // ----- letters ------------------------------------------------------------------------

  function LowerByte(c: char): char {
    if 'A' <= c <= 'Z' then c - 'A' + 'a' else c
  }

  /** `strings.ToLower`, over ASCII. */
  function ToLower(s: string): string {
    seq(|s|, i requires 0 <= i < |s| => LowerByte(s[i]))
  }

  /** Capital letters become small ones, and everything else stays. */
  lemma LowersLetters(s: string)
    ensures |ToLower(s)| == |s|
    ensures forall k :: 0 <= k < |s| ==>
              if 'A' <= s[k] <= 'Z' then ToLower(s)[k] as int == s[k] as int + 32 else ToLower(s)[k] == s[k]
  {
  }

  // ----- trimming -----------------------------------------------------------------------

  function TrimLeft(s: string, cut: set<char>): (r: string)
    ensures |r| <= |s|
  {
    if s != "" && s[0] in cut then TrimLeft(s[1..], cut) else s
  }

  function TrimRight(s: string, cut: set<char>): (r: string)
    ensures |r| <= |s|
  {
    if s != "" && s[|s| - 1] in cut then TrimRight(s[..|s| - 1], cut) else s
  }

  function Trim(s: string, cut: set<char>): string {
    TrimRight(TrimLeft(s, cut), cut)
  }

  function TrimSpace(s: string): string {
    Trim(s, SPACE)
  }

  predicate AllIn(s: string, cut: set<char>) {
    forall k :: 0 <= k < |s| ==> s[k] in cut
  }

  predicate NoneIn(s: string, cut: set<char>) {
    forall k :: 0 <= k < |s| ==> s[k] !in cut
  }

  /** Nothing to trim at either end. */
  predicate Trimmed(s: string, cut: set<char>) {
    s == "" || (s[0] !in cut && s[|s| - 1] !in cut)
  }

  /** What is trimmed on the left is a prefix of cut bytes. */
  lemma {:induction false} TrimLeftParts(s: string, cut: set<char>) returns (l: string)
    ensures s == l + TrimLeft(s, cut) && AllIn(l, cut)
    ensures TrimLeft(s, cut) != "" ==> TrimLeft(s, cut)[0] !in cut
  {
    if s != "" && s[0] in cut {
      var l' := TrimLeftParts(s[1..], cut);
      l := [s[0]] + l';
      assert s == [s[0]] + s[1..];
    } else {
      l := "";
    }
  }

  lemma {:induction false} TrimRightParts(s: string, cut: set<char>) returns (r: string)
    ensures s == TrimRight(s, cut) + r && AllIn(r, cut)
    ensures TrimRight(s, cut) != "" ==> TrimRight(s, cut)[|TrimRight(s, cut)| - 1] !in cut
  {
    if s != "" && s[|s| - 1] in cut {
      var r' := TrimRightParts(s[..|s| - 1], cut);
      r := r' + [s[|s| - 1]];
      assert s == s[..|s| - 1] + [s[|s| - 1]];
    } else {
      r := "";
    }
  }

  /** Trimming left is determined by where the first kept byte is. */
  lemma {:induction false} TrimLeftPad(l: string, m: string, cut: set<char>)
    requires AllIn(l, cut)
    requires m == "" || m[0] !in cut
    ensures TrimLeft(l + m, cut) == m
  {
    if l == "" {
      assert l + m == m;
    } else {
      assert (l + m)[1..] == l[1..] + m;
      TrimLeftPad(l[1..], m, cut);
    }
  }

  lemma {:induction false} TrimRightPad(m: string, r: string, cut: set<char>)
    requires AllIn(r, cut)
    requires m == "" || m[|m| - 1] !in cut
    ensures TrimRight(m + r, cut) == m
  {
    if r == "" {
      assert m + r == m;
    } else {
      assert (m + r)[..|m + r| - 1] == m + r[..|r| - 1];
      TrimRightPad(m, r[..|r| - 1], cut);
    }
  }

  /** Trimming recovers the middle of any padded trimmed string. */
  lemma TrimPad(l: string, m: string, r: string, cut: set<char>)
    requires AllIn(l, cut) && AllIn(r, cut) && Trimmed(m, cut)
    ensures Trim(l + m + r, cut) == m
  {
    if m == "" {
      assert l + m + r == (l + r) + "";
      TrimLeftPad(l + r, "", cut);
    } else {
      Assoc(l, m, r);
      TrimLeftPad(l, m + r, cut);
      TrimRightPad(m, r, cut);
    }
  }

  /** What trimming leaves is trimmed, and padding is all it removed. */
  lemma TrimParts(s: string, cut: set<char>) returns (l: string, r: string)
    ensures s == l + Trim(s, cut) + r
    ensures AllIn(l, cut) && AllIn(r, cut) && Trimmed(Trim(s, cut), cut)
  {
    l := TrimLeftParts(s, cut);
    r := TrimRightParts(TrimLeft(s, cut), cut);
    Assoc(l, Trim(s, cut), r);
    if Trim(s, cut) != "" {
      assert Trim(s, cut)[0] == TrimLeft(s, cut)[0];
    }
  }

  lemma TrimmedFixed(s: string, cut: set<char>)
    ensures Trim(s, cut) == s <==> Trimmed(s, cut)
  {
    if Trimmed(s, cut) {
      TrimPad("", s, "", cut);
      assert "" + s + "" == s;
    } else {
      var l, r := TrimParts(s, cut);
    }
  }

  /** Padding never changes what trimming leaves. */
  lemma TrimAround(l: string, s: string, r: string, cut: set<char>)
    requires AllIn(l, cut) && AllIn(r, cut)
    ensures Trim(l + s + r, cut) == Trim(s, cut)
  {
    var a, b := TrimParts(s, cut);
    var m := Trim(s, cut);
    assert l + s + r == (l + a) + m + (b + r);
    TrimPad(l + a, m, b + r, cut);
  }

  /** Trimming around a byte that stays trims either side on its own. */
  lemma TrimAcross(a: string, c: char, b: string, cut: set<char>)
    requires c !in cut
    ensures Trim(a + [c] + b, cut) == TrimLeft(a, cut) + [c] + TrimRight(b, cut)
  {
    var a', b' := TrimLeft(a, cut), TrimRight(b, cut);
    var l := TrimLeftParts(a, cut);
    var r := TrimRightParts(b, cut);
    TrimPad(l, a' + [c] + b', r, cut);
    Assoc(l, a', [c]);
    Assoc(l + (a' + [c]), b', r);
    Assoc(l, a' + [c], b');
  }

  lemma TrimLeftTwice(s: string, cut: set<char>)
    ensures Trim(TrimLeft(s, cut), cut) == Trim(s, cut)
  {
    var l := TrimLeftParts(s, cut);
  }

  lemma {:induction false} TrimLeftKeepsTail(a: string, b: string, cut: set<char>)
    requires TrimLeft(a, cut) != ""
    ensures TrimLeft(a + b, cut) == TrimLeft(a, cut) + b
  {
    if a[0] in cut {
      assert (a + b)[1..] == a[1..] + b;
      TrimLeftKeepsTail(a[1..], b, cut);
    }
  }

  /** A smaller cut set leaves something wherever a larger one does. */
  lemma TrimLeftLess(s: string, small: set<char>, cut: set<char>)
    requires small <= cut && Trim(s, cut) != ""
    ensures TrimLeft(s, small) != ""
  {
    var l := TrimLeftParts(s, small);
    var l', r' := TrimParts(s, cut);
    var i := |l'|;
    assert s[i] == Trim(s, cut)[0];
  }

  // ----- cutting ------------------------------------------------------------------------

  /** The least index of `c`, or the length when it does not occur. */
  function IndexOf(s: string, c: char): (i: nat)
    ensures i <= |s|
  {
    if s == "" || s[0] == c then 0 else 1 + IndexOf(s[1..], c)
  }

  lemma {:induction false} IndexOfLeast(s: string, c: char)
    ensures IndexOf(s, c) < |s| ==> s[IndexOf(s, c)] == c
    ensures c !in s[..IndexOf(s, c)]
  {
    if s != "" && s[0] != c {
      IndexOfLeast(s[1..], c);
      var i := IndexOf(s[1..], c);
      assert s[..i + 1] == [s[0]] + s[1..][..i];
    }
  }

  lemma {:induction false} IndexOfAfter(a: string, c: char, b: string)
    requires c !in a
    ensures IndexOf(a + [c] + b, c) == |a|
    ensures IndexOf(a, c) == |a|
  {
    if a != "" {
      assert (a + [c] + b)[1..] == a[1..] + [c] + b;
      IndexOfAfter(a[1..], c, b);
    }
  }

  /** `strings.Cut` at one byte: the text either side of its first occurrence. */
  function Cut(s: string, c: char): Option<(string, string)> {
    var i := IndexOf(s, c);
    if i == |s| then None else Some((s[..i], s[i + 1..]))
  }

  lemma CutParts(s: string, c: char)
    ensures Cut(s, c).Some? <==> c in s
    ensures Cut(s, c).Some? ==>
              s == Cut(s, c).value.0 + [c] + Cut(s, c).value.1 && c !in Cut(s, c).value.0
  {
    IndexOfLeast(s, c);
    var i := IndexOf(s, c);
    if i == |s| {
      assert s[..i] == s;
    } else {
      assert s == s[..i] + [s[i]] + s[i + 1..];
    }
  }

  /** The cut is the only decomposition whose left part is free of `c`. */
  lemma CutUnique(a: string, c: char, b: string)
    requires c !in a
    ensures Cut(a + [c] + b, c) == Some((a, b))
    ensures Cut(a, c) == None
  {
    IndexOfAfter(a, c, b);
    var s := a + [c] + b;
    assert s[..|a|] == a && s[|a| + 1..] == b;
  }

  // ----- splitting and joining ------------------------------------------------------------

  function Split(s: string, c: char): (parts: seq<string>)
    ensures |parts| >= 1
    decreases |s|
  {
    var i := IndexOf(s, c);
    if i == |s| then [s] else [s[..i]] + Split(s[i + 1..], c)
  }

  function Join(parts: seq<string>, sep: string): (s: string) {
    if |parts| == 0 then ""
    else if |parts| == 1 then parts[0]
    else parts[0] + sep + Join(parts[1..], sep)
  }

  predicate Free(parts: seq<string>, c: char) {
    forall k :: 0 <= k < |parts| ==> c !in parts[k]
  }

  /** No piece of a split contains the separator, and every piece is part of the whole. */
  lemma {:induction false} SplitPieces(s: string, c: char)
    ensures Free(Split(s, c), c)
    decreases |s|
  {
    var i := IndexOf(s, c);
    IndexOfLeast(s, c);
    if i < |s| {
      SplitPieces(s[i + 1..], c);
    } else {
      assert s[..i] == s;
    }
  }

  lemma {:induction false} JoinSplit(s: string, c: char)
    ensures Join(Split(s, c), [c]) == s
    decreases |s|
  {
    var i := IndexOf(s, c);
    if i < |s| {
      IndexOfLeast(s, c);
      JoinSplit(s[i + 1..], c);
      assert Split(s, c)[1..] == Split(s[i + 1..], c);
      assert s == s[..i] + [c] + s[i + 1..];
    }
  }

  lemma SplitCons(a: string, c: char, b: string)
    requires c !in a
    ensures Split(a + [c] + b, c) == [a] + Split(b, c)
    ensures Split(a, c) == [a]
  {
    IndexOfAfter(a, c, b);
    var s := a + [c] + b;
    assert s[..|a|] == a && s[|a| + 1..] == b;
  }

  lemma {:induction false} SplitJoin(parts: seq<string>, c: char)
    requires |parts| >= 1 && Free(parts, c)
    ensures Split(Join(parts, [c]), c) == parts
  {
    if |parts| == 1 {
      SplitCons(parts[0], c, "");
    } else {
      SplitJoin(parts[1..], c);
      SplitCons(parts[0], c, Join(parts[1..], [c]));
      assert parts == [parts[0]] + parts[1..];
    }
  }

  lemma {:induction false} SplitAppend(a: string, c: char, b: string)
    ensures Split(a + [c] + b, c) == Split(a, c) + Split(b, c)
    decreases |a|
  {
    var i := IndexOf(a, c);
    IndexOfLeast(a, c);
    if i == |a| {
      assert a[..i] == a;
      SplitCons(a, c, b);
    } else {
      var x, y := a[..i], a[i + 1..];
      SplitAppend(y, c, b);
      assert a == x + [c] + y;
      Assoc(x + [c], y, [c]);
      Assoc(x + [c], y + [c], b);
      SplitCons(x, c, y + [c] + b);
    }
  }

  /** Text without the separator extends the last piece. */
  lemma {:induction false} SplitExtend(a: string, b: string, c: char)
    requires c !in b
    ensures var ps := Split(a, c);
            Split(a + b, c) == ps[..|ps| - 1] + [ps[|ps| - 1] + b]
    decreases |a|
  {
    var i := IndexOf(a, c);
    IndexOfLeast(a, c);
    if i == |a| {
      assert a[..i] == a;
      SplitCons(a + b, c, "");
      SplitCons(a, c, "");
    } else {
      var x, y := a[..i], a[i + 1..];
      SplitExtend(y, b, c);
      assert a == x + [c] + y;
      Assoc(x + [c], y, b);
      SplitCons(x, c, y);
      SplitCons(x, c, y + b);
      var ps := Split(y, c);
      assert ([x] + ps)[..|ps|] == [x] + ps[..|ps| - 1];
    }
  }
}
