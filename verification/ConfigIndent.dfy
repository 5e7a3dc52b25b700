/** What indentation means to the configuration editor, without its stack of open sections: which earlier
    lines a line of an indented file stands under. */
module ConfigIndent {
  import opened Text
  import opened ConfigLines
  import opened ConfigPaths
  import opened ConfigEdit

  /** A line that closes every section at level m and deeper. */
  predicate Closes(k: Kind, m: nat) {
    (k.Entry? || k.Bare?) && k.level <= m
  }

  /** Line j is an entry at level m, and no line from there to line n closes it. */
  predicate StillOpen(ks: seq<Kind>, n: nat, m: nat, j: nat)
    requires n <= |ks|
  {
    j < n && ks[j].Entry? && ks[j].level == m && forall k :: j < k < n ==> !Closes(ks[k], m)
  }

  lemma {:induction false} OpenHas(ks: seq<Kind>, n: nat, m: nat, j: nat)
    requires n <= |ks| && StillOpen(ks, n, m, j) && m <= |Open(ks, j)|
    ensures m < |Open(ks, n)| && Open(ks, n)[m] == ks[j].name
    decreases n
  {
    if j < n - 1 {
      OpenHas(ks, n - 1, m, j);
      assert !Closes(ks[n - 1], m);
    }
  }

  lemma {:induction false} OpenFrom(ks: seq<Kind>, n: nat, m: nat) returns (j: nat)
    requires n <= |ks| && m < |Open(ks, n)|
    ensures StillOpen(ks, n, m, j) && Open(ks, n)[m] == ks[j].name
    decreases n
  {
    var k := ks[n - 1];
    if k.Entry? && k.level == m && m <= |Open(ks, n - 1)| {
      j := n - 1;
    } else {
      assert !Closes(k, m);
      j := OpenFrom(ks, n - 1, m);
    }
  }

  /** Line n stands under an entry of this name at level m. */
  ghost predicate UnderEntry(ks: seq<Kind>, n: nat, m: nat, name: string)
    requires n <= |ks|
  {
    exists j: nat :: StillOpen(ks, n, m, j) && ks[j].name == name
  }

  lemma {:induction false} OpenReaches(ks: seq<Kind>, n: nat, q: Path)
    requires n <= |ks| && forall m :: 0 <= m < |q| ==> UnderEntry(ks, n, m, q[m])
    ensures |q| <= |Open(ks, n)| && Open(ks, n)[..|q|] == q
    decreases |q|
  {
    if q != [] {
      var d := |q| - 1;
      assert UnderEntry(ks, n, d, q[d]);
      var j: nat :| StillOpen(ks, n, d, j) && ks[j].name == q[d];
      forall m | 0 <= m < d ensures UnderEntry(ks, j, m, q[..d][m]) {
        assert UnderEntry(ks, n, m, q[m]);
        var i: nat :| StillOpen(ks, n, m, i) && ks[i].name == q[m];
        assert i > j ==> Closes(ks[i], d);
        assert StillOpen(ks, j, m, i);
      }
      OpenReaches(ks, j, q[..d]);
      OpenHas(ks, n, d, j);
      forall m | 0 <= m < d ensures Open(ks, n)[m] == q[m] {
        assert UnderEntry(ks, n, m, q[m]);
        var i: nat :| StillOpen(ks, n, m, i) && ks[i].name == q[m];
        var i' := OpenFrom(ks, n, m);
        assert i == i';
      }
    }
  }

  /** A line stands at a path exactly when it is an entry of the last name, at the level of that, and above
      it each name before is that of an entry at its own level, which nothing in between closes. */
  lemma PathIs(ks: seq<Kind>, i: nat, q: Path)
    requires i < |ks|
    ensures PathAt(ks, i) == Some(q) <==>
            ks[i].Entry? && |q| == ks[i].level + 1 && q[ks[i].level] == ks[i].name
            && forall m :: 0 <= m < ks[i].level ==> UnderEntry(ks, i, m, q[m])
  {
    var open := Open(ks, i);
    if PathAt(ks, i) == Some(q) {
      forall m | 0 <= m < ks[i].level ensures UnderEntry(ks, i, m, q[m]) {
        var j := OpenFrom(ks, i, m);
        assert q[m] == open[m];
      }
    }
    if ks[i].Entry? && |q| == ks[i].level + 1 && q[ks[i].level] == ks[i].name
       && forall m :: 0 <= m < ks[i].level ==> UnderEntry(ks, i, m, q[m]) {
      var l := ks[i].level;
      OpenReaches(ks, i, q[..l]);
      assert q == q[..l] + [q[l]];
    }
  }

  /** A line of text behind n blanks, without a colon or a comment mark, is bare at half that depth. */
  lemma NoColonIsBare(n: nat, text: string)
    requires text != "" && text[0] !in SPACE && forall i :: 0 <= i < |text| ==> text[i] != ':' && text[i] != '#'
    ensures Classify(Spaces(n) + text) == if n % 2 == 1 then Odd(n) else Bare(n / 2)
  {
    var line := Spaces(n) + text;
    assert forall i :: 0 <= i < |line| ==> line[i] != '#' && line[i] != ':';
    CommentAtLeast(line, |line|);
    assert line[..|line|] == line;
    TrimLeftPad(Spaces(n), text, {' '});
    var l, r := TrimParts(line, SPACE);
    var t := TrimSpace(line);
    forall i | 0 <= i < |t| ensures t[i] != ':' {
      assert t[i] == line[|l| + i];
    }
    CutParts(t, ':');
    assert line[n] == text[0];
    assert t == "" ==> line == l + r;
  }
}
