/** KnownKeys (internal/config/edit.go) on any file: what opens a section for it, against what reads as nothing
    for GetValue, and which keys it lists. */
module ConfigHeaders {
  import opened Text
  import opened ConfigLines
  import opened ConfigKnown
  import opened ConfigPaths
  import opened ConfigIndent

  lemma {:induction false} CleanIsClosed(s: string)
    requires Clean(s)
    ensures QuoteFrom(NO_QUOTE, s + ":") == NO_QUOTE
    decreases |s|
  {
    var t := s + ":";
    assert t[..|t| - 1] == s;
    if s != "" {
      var front := s[..|s| - 1];
      CleanIsClosed(front);
      assert (front + ":")[..|front + ":"| - 1] == front;
    }
  }

  /** Behind the colon comments open where they open in the rest alone, but not right behind it. */
  lemma OpensBehindColon(before: string, after: string, j: nat)
    requires Clean(before) && j < |after|
    ensures OpensComment(before + ":" + after, |before| + 1 + j) <==> OpensComment(after, j) && j > 0
  {
    var head := before + ":";
    var raw := head + after;
    CleanIsClosed(before);
    QuoteConcat(NO_QUOTE, head, after[..j]);
    assert raw[..|head| + j] == head + after[..j];
    assert raw[|head| + j] == after[j];
    assert raw[|head| - 1] == ':';
    assert j > 0 ==> raw[|head| + j - 1] == after[j - 1];
  }

  lemma NoneInHead(before: string, after: string, j: nat)
    requires Clean(before) && j <= |before|
    ensures !OpensComment(before + ":" + after, j)
  {
    assert (before + ":" + after)[j] == (before + ":")[j];
  }

  lemma CommentBehindColon(before: string, after: string)
    requires Clean(before) && (after == "" || after[0] != '#')
    ensures StripComment(before + ":" + after) == before + ":" + StripComment(after)
  {
    var raw, c := before + ":" + after, CommentAt(after);
    CommentAtLeast(after, c);
    var at := |before| + 1 + c;
    forall j | 0 <= j < at ensures !OpensComment(raw, j) {
      if j <= |before| {
        NoneInHead(before, after, j);
      } else {
        OpensBehindColon(before, after, j - |before| - 1);
      }
    }
    if at < |raw| {
      OpensBehindColon(before, after, c);
      assert c > 0;
    }
    CommentAtLeast(raw, at);
    assert raw[..at] == before + ":" + after[..c];
  }

  /** Right behind the colon a '#' is kept. */
  lemma MarkBehindColon(before: string, after: string) returns (w: string)
    requires Clean(before) && after != "" && after[0] == '#'
    ensures StripComment(before + ":" + after) == before + ":" + w && TrimSpace(w) != ""
  {
    var raw := before + ":" + after;
    w := HeadIsKept(before, after);
    CommentAtLeast(raw, CommentAt(raw));
    OpensBehindColon(before, after, 0);
    assert w != "" && w[0] == raw[|before| + 1] == '#';
    var l, r := TrimParts(w, SPACE);
    assert TrimSpace(w) == "" ==> w == l + r;
  }

  lemma HeaderOfStripped(raw: string, before: string, w: string)
    requires ':' !in before && StripComment(raw) == before + ":" + w
    ensures IsHeader(raw) <==> TrimSpace(w) == ""
  {
    TrimAcross(before, ':', w, SPACE);
    var l := TrimLeftParts(before, SPACE);
    var r := TrimRightParts(w, SPACE);
    var v := TrimRight(w, SPACE);
    CutUnique(TrimLeft(before, SPACE), ':', v);
    TrimAround("", v, r, SPACE);
    assert "" + v + r == w;
  }

  /** A line opens a section exactly when it reads as nothing, unless a '#' is right behind its colon: then
      it reads as nothing too, and opens none. */
  lemma HeaderIffEmpty(before: string, after: string)
    requires Clean(before)
    ensures IsHeader(before + ":" + after) <==>
            ValueOf(before + ":" + after) == "" && (after == "" || after[0] != '#')
    ensures after != "" && after[0] == '#' ==> ValueOf(before + ":" + after) == ""
  {
    var raw := before + ":" + after;
    CutUnique(before, ':', after);
    if after != "" && after[0] == '#' {
      var w := MarkBehindColon(before, after);
      HeaderOfStripped(raw, before, w);
      CommentAtLeast(after, 0);
    } else {
      CommentBehindColon(before, after);
      HeaderOfStripped(raw, before, StripComment(after));
    }
  }

  // ----- the listing, on any file ---------------------------------------------------------------------

  /** To KnownKeys a leaf only ends sections, and a line without a colon does nothing. */
  function AsHeaders(ks: seq<Kind>, hs: seq<bool>): (out: seq<Kind>)
    requires |ks| == |hs|
    ensures |out| == |ks|
  {
    seq(|ks|, i requires 0 <= i < |ks| =>
      if !ks[i].Entry? then Blank else if hs[i] then ks[i] else Bare(ks[i].level))
  }

  lemma {:induction false} SectionIsOpen(ks: seq<Kind>, hs: seq<bool>, n: nat)
    requires n <= |ks| == |hs|
    ensures Section(ks, hs, n) == Open(AsHeaders(ks, hs), n)
  {
    if n > 0 {
      SectionIsOpen(ks, hs, n - 1);
      var k, section := ks[n - 1], Section(ks, hs, n - 1);
      assert k.Entry? && k.level == |section| ==> section[..k.level] + [] == section;
    }
  }

  /** Line j opens a section at level m, and no entry from there to line n stands at that level or a lesser
      one. */
  predicate HeaderOpen(ks: seq<Kind>, hs: seq<bool>, n: nat, m: nat, j: nat)
    requires n <= |ks| == |hs|
  {
    j < n && ks[j].Entry? && hs[j] && ks[j].level == m
    && forall k :: j < k < n && ks[k].Entry? ==> ks[k].level > m
  }

  ghost predicate UnderHeader(ks: seq<Kind>, hs: seq<bool>, n: nat, m: nat, name: string)
    requires n <= |ks| == |hs|
  {
    exists j: nat :: HeaderOpen(ks, hs, n, m, j) && ks[j].name == name
  }

  /** Line i is a leaf of this path: its own name behind those of the open sections above it. */
  ghost predicate LeafOf(ks: seq<Kind>, hs: seq<bool>, i: nat, q: Path)
    requires i < |ks| == |hs|
  {
    ks[i].Entry? && !hs[i] && |q| == ks[i].level + 1 && q[ks[i].level] == ks[i].name
    && forall m :: 0 <= m < ks[i].level ==> UnderHeader(ks, hs, i, m, q[m])
  }

  lemma UnderIsUnderHeader(ks: seq<Kind>, hs: seq<bool>, n: nat, m: nat, name: string)
    requires n <= |ks| == |hs|
    ensures UnderEntry(AsHeaders(ks, hs), n, m, name) <==> UnderHeader(ks, hs, n, m, name)
  {
    var out := AsHeaders(ks, hs);
    forall j: nat ensures StillOpen(out, n, m, j) <==> HeaderOpen(ks, hs, n, m, j) {
      assert forall k :: 0 <= k < n ==> (Closes(out[k], m) <==> ks[k].Entry? && ks[k].level <= m);
    }
    hide StillOpen;
    hide HeaderOpen;
  }

  /** Each line is listed under its path if it is a leaf of one, and otherwise not. */
  lemma ListedIs(ks: seq<Kind>, hs: seq<bool>, i: nat, q: Path)
    requires i < |ks| == |hs|
    ensures LeafOf(ks, hs, i, q) <==>
            ks[i].Entry? && !hs[i] && ks[i].level <= |Section(ks, hs, i)|
            && q == Section(ks, hs, i)[..ks[i].level] + [ks[i].name]
  {
    SectionIsOpen(ks, hs, i);
    var out, open := AsHeaders(ks, hs), Section(ks, hs, i);
    forall m, name ensures UnderEntry(out, i, m, name) <==> UnderHeader(ks, hs, i, m, name) {
      UnderIsUnderHeader(ks, hs, i, m, name);
    }
    if LeafOf(ks, hs, i, q) {
      var l := ks[i].level;
      OpenReaches(out, i, q[..l]);
      assert q == q[..l] + [q[l]];
    }
    if ks[i].Entry? && !hs[i] && ks[i].level <= |open| && q == open[..ks[i].level] + [ks[i].name] {
      forall m | 0 <= m < ks[i].level ensures UnderHeader(ks, hs, i, m, q[m]) {
        var j := OpenFrom(out, i, m);
        assert q[m] == open[m];
        assert UnderEntry(out, i, m, q[m]);
      }
    }
  }

  /** On every file, nested or not, what is listed are the dotted paths of the leaves. */
  lemma {:induction false} ListingIs(ks: seq<Kind>, hs: seq<bool>, n: nat, key: string)
    requires n <= |ks| == |hs|
    ensures key in Listing(ks, hs, n) <==> exists i, q :: 0 <= i < n && LeafOf(ks, hs, i, q) && key == Dotted(q)
    decreases n
  {
    hide LeafOf;
    hide Dotted;
    hide Section;
    if n > 0 {
      ListingIs(ks, hs, n - 1, key);
      var section, k := Section(ks, hs, n - 1), ks[n - 1];
      var own := Listed(section, k, hs[n - 1]);
      assert Listing(ks, hs, n) == Listing(ks, hs, n - 1) + own;
      forall q | LeafOf(ks, hs, n - 1, q) ensures own == [Dotted(q)] {
        ListedIs(ks, hs, n - 1, q);
      }
      if own != [] {
        ListedIs(ks, hs, n - 1, section[..k.level] + [k.name]);
      }
      assert key in own <==> exists q :: LeafOf(ks, hs, n - 1, q) && key == Dotted(q);
    }
  }
}
