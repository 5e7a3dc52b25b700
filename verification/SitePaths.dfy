/** Confinement of rsync and scp arguments to a site (escapingPath in cmd/ratline-shell/main.go). */
module SitePaths {
  import opened Text

  /** A clean absolute path. */
  type Components = seq<string>

  /** What filepath.EvalSymlinks answers, at one moment: an abstract partial function from clean paths
      to clean paths. */
  type Symlinks = Components -> Option<Components>

  // ----- filepath: Clean, Join, Dir and Base on absolute paths ----------------------------------------

  /** A component that cleaning leaves alone. */
  predicate Component(c: string) {
    c != "" && c != "." && c != ".." && '/' !in c
  }

  predicate CleanPath(p: Components) {
    forall i :: 0 <= i < |p| ==> Component(p[i])
  }

  /** Walk the elements of a path from `base`: nothing stays, ".." goes up and stops at the root. */
  function Walk(base: Components, parts: seq<string>): Components
    decreases |parts|
  {
    if parts == [] then base
    else if parts[0] == "" || parts[0] == "." then Walk(base, parts[1..])
    else if parts[0] == ".." then Walk(if base == [] then [] else base[..|base| - 1], parts[1..])
    else Walk(base + [parts[0]], parts[1..])
  }

  /** The components filepath.Clean leaves of an absolute path. */
  function Clean(path: string): Components {
    Walk([], Split(path, '/'))
  }

  function Render(p: Components): string {
    "/" + Join(p, "/")
  }

  predicate IsAbs(path: string) {
    path != "" && path[0] == '/'
  }

  lemma {:induction false} WalkIsClean(base: Components, parts: seq<string>)
    requires CleanPath(base) && Free(parts, '/')
    ensures CleanPath(Walk(base, parts))
    decreases |parts|
  {
    if parts != [] {
      var rest := parts[1..];
      assert Free(rest, '/');
      if parts[0] == "" || parts[0] == "." {
        WalkIsClean(base, rest);
      } else if parts[0] == ".." {
        WalkIsClean(if base == [] then [] else base[..|base| - 1], rest);
      } else {
        WalkIsClean(base + [parts[0]], rest);
      }
    }
  }

  lemma CleanIsClean(path: string)
    ensures CleanPath(Clean(path))
  {
    SplitPieces(path, '/');
    WalkIsClean([], Split(path, '/'));
  }

  lemma {:induction false} WalkClean(base: Components, p: Components)
    requires CleanPath(p)
    ensures Walk(base, p) == base + p
    decreases |p|
  {
    if p != [] {
      WalkClean(base + [p[0]], p[1..]);
      assert base + p == (base + [p[0]]) + p[1..];
    }
  }

  lemma {:induction false} WalkConcat(base: Components, a: seq<string>, b: seq<string>)
    ensures Walk(base, a + b) == Walk(Walk(base, a), b)
    decreases |a|
  {
    if a == [] {
      assert a + b == b;
    } else {
      assert (a + b)[1..] == a[1..] + b;
      if a[0] == "" || a[0] == "." {
        WalkConcat(base, a[1..], b);
      } else if a[0] == ".." {
        WalkConcat(if base == [] then [] else base[..|base| - 1], a[1..], b);
      } else {
        WalkConcat(base + [a[0]], a[1..], b);
      }
    }
  }

  lemma SplitRendered(p: Components)
    requires CleanPath(p)
    ensures Split(Render(p), '/') == [""] + (if p == [] then [""] else p)
  {
    assert Render(p) == "" + ['/'] + Join(p, "/");
    SplitCons("", '/', Join(p, "/"));
    if p != [] {
      SplitJoin(p, '/');
    } else {
      SplitCons("", '/', "");
    }
  }

  /** Cleaning a rendered path changes nothing. */
  lemma CleanRendered(p: Components)
    requires CleanPath(p)
    ensures Clean(Render(p)) == p
  {
    SplitRendered(p);
    WalkConcat([], [""], if p == [] then [""] else p);
    assert Walk([], [""]) == [] by {
      assert [""][1..] == [];
    }
    WalkClean([], p);
    assert [] + p == p;
  }

  /** filepath.Join(Render(p), rel): walk on from `p`. */
  function JoinPath(p: Components, rel: string): string {
    Render(Clean(Render(p) + "/" + rel))
  }

  lemma JoinWalks(p: Components, rel: string)
    requires CleanPath(p)
    ensures Clean(Render(p) + "/" + rel) == Walk(p, Split(rel, '/'))
    ensures CleanPath(Walk(p, Split(rel, '/')))
    ensures Clean(JoinPath(p, rel)) == Walk(p, Split(rel, '/'))
  {
    assert "/" == ['/'];
    SplitAppend(Render(p), '/', rel);
    WalkConcat([], Split(Render(p), '/'), Split(rel, '/'));
    CleanRendered(p);
    SplitPieces(rel, '/');
    WalkIsClean(p, Split(rel, '/'));
    CleanRendered(Walk(p, Split(rel, '/')));
  }

  /** What cleaning means, element by element: "" and "." stay, ".." goes up, and anything else down. */
  lemma CleanStep(path: string, c: string)
    requires '/' !in c
    ensures Clean("/") == [] && Clean("") == []
    ensures Clean(path + "/" + c) ==
            if c == "" || c == "." then Clean(path)
            else if c == ".." then (if Clean(path) == [] then [] else Clean(path)[..|Clean(path)| - 1])
            else Clean(path) + [c]
  {
    SplitAppend(path, '/', c);
    SplitCons(c, '/', "");
    SplitCons("", '/', "");
    assert "" + ['/'] + "" == "/";
    assert path + ['/'] + c == path + "/" + c;
    WalkConcat([], Split(path, '/'), [c]);
    assert [c][1..] == [] && ["", ""][1..] == [""] && [""][1..] == [];
  }

  /** And how a path is written. */
  lemma RenderStep(p: Components, c: string)
    ensures Render([]) == "/" && Render([c]) == "/" + c
    ensures p != [] ==> Render(p + [c]) == Render(p) + "/" + c
  {
    assert [c][1..] == [];
    if p != [] {
      JoinAppend(p, [c]);
      assert Render(p + [c]) == "/" + (Join(p, "/") + "/" + c);
    }
  }

  // ----- resolveDeepest ---------------------------------------------------------------------------------

  /** Whatever the file system answers is a clean path. */
  ghost predicate AnswersClean(links: Symlinks) {
    forall p :: links(p).Some? ==> CleanPath(links(p).value)
  }

  /** No longer prefix of `p` than its first `k` components resolves. */
  predicate LongestResolvable(links: Symlinks, p: Components, k: int) {
    -1 <= k <= |p|
    && (k >= 0 ==> links(p[..k]).Some?)
    && (forall j :: k < j <= |p| ==> links(p[..j]).None?)
  }

  function Deepest(links: Symlinks, p: Components, k: nat): int
    requires k <= |p|
  {
    if links(p[..k]).Some? then k else if k == 0 then -1 else Deepest(links, p, k - 1)
  }

  lemma {:induction false} DeepestIsLongest(links: Symlinks, p: Components, k: nat)
    requires k <= |p| && forall j :: k < j <= |p| ==> links(p[..j]).None?
    ensures LongestResolvable(links, p, Deepest(links, p, k))
  {
    if links(p[..k]).None? && k > 0 {
      DeepestIsLongest(links, p, k - 1);
    }
  }

  /** The longest resolvable prefix resolved, and then the remaining components as they are. */
  function Resolved(links: Symlinks, p: Components): Components {
    var k := Deepest(links, p, |p|);
    DeepestIsLongest(links, p, |p|);
    if k < 0 then p else links(p[..k]).value + p[k..]
  }

  method ResolveDeepest(links: Symlinks, path: string) returns (dest: Components)
    ensures dest == Resolved(links, Clean(path))
    ensures exists k :: LongestResolvable(links, Clean(path), k)
                        && dest == if k < 0 then Clean(path)
                                   else links(Clean(path)[..k]).value + Clean(path)[k..]
  {
    var p := Clean(path);
    DeepestIsLongest(links, p, |p|);
    var cur, rest := p, [];
    assert p == p[..|p|];
    while true
      invariant p == cur + rest && cur == p[..|cur|] && rest == p[|cur|..]
      invariant Deepest(links, p, |p|) == Deepest(links, p, |cur|)
      decreases |cur|
    {
      var answer := links(cur);
      if answer.Some? {
        dest := if rest == [] then answer.value else answer.value + rest;
        return;
      }
      if cur == [] {
        return p;
      }
      rest := [cur[|cur| - 1]] + rest;
      cur := cur[..|cur| - 1];
    }
  }

  lemma ResolvedIsClean(links: Symlinks, p: Components)
    requires AnswersClean(links) && CleanPath(p)
    ensures CleanPath(Resolved(links, p))
  {
    DeepestIsLongest(links, p, |p|);
  }

  // ----- pathEscapes --------------------------------------------------------------------------------------

  predicate HasPrefix(s: string, t: string) {
    |t| <= |s| && s[..|t|] == t
  }

  function Candidate(root: Components, path: string): string {
    if IsAbs(path) then path else JoinPath(root, path)
  }

  /** The verdict on a resolved path, as the source takes it: on strings. */
  predicate Outside(root: Components, dest: Components) {
    Render(dest) != Render(root) && !HasPrefix(Render(dest), Render(root) + "/")
  }

  predicate Escapes(links: Symlinks, root: Components, path: string) {
    path != "" && Outside(root, Resolved(links, Clean(Candidate(root, path))))
  }

  method PathEscapes(links: Symlinks, root: Components, path: string) returns (escapes: bool)
    ensures escapes == Escapes(links, root, path)
  {
    if path == "" {
      return false;
    }
    var candidate := path;
    if !IsAbs(candidate) {
      candidate := JoinPath(root, candidate);
    }
    var resolved := ResolveDeepest(links, candidate);
    return Render(resolved) != Render(root) && !HasPrefix(Render(resolved), Render(root) + "/");
  }

  lemma {:induction false} JoinAppend(p: Components, q: Components)
    requires p != [] && q != []
    ensures Join(p + q, "/") == Join(p, "/") + "/" + Join(q, "/")
    decreases |p|
  {
    if |p| == 1 {
      assert (p + q)[1..] == q;
    } else {
      JoinAppend(p[1..], q);
      assert (p + q)[1..] == p[1..] + q;
      Assoc(p[0] + "/", Join(p[1..], "/") + "/", Join(q, "/"));
      Assoc(p[0] + "/", Join(p[1..], "/"), "/");
    }
  }

  /** As strings, one clean path is another followed by a slash and more exactly when its
      components properly extend the other's. */
  lemma PrefixIsDescent(root: Components, dest: Components)
    requires CleanPath(root) && CleanPath(dest) && root != []
    ensures HasPrefix(Render(dest), Render(root) + "/") <==> root < dest
  {
    var r, s := Join(root, "/"), Join(dest, "/");
    var head := Render(root) + "/";
    if root < dest {
      var t := dest[|root|..];
      assert dest == root + t;
      JoinAppend(root, t);
      assert Render(dest) == head + Join(t, "/");
    }
    if HasPrefix(Render(dest), head) {
      var x := Render(dest)[|head|..];
      assert Render(dest) == head + x;
      assert s == r + ['/'] + x by {
        assert "/" + s == "/" + (r + "/" + x);
        assert ("/" + s)[1..] == s;
      }
      SplitAppend(r, '/', x);
      SplitJoin(root, '/');
      assert dest != [] by {
        assert dest == [] ==> s == "";
      }
      SplitJoin(dest, '/');
      assert dest == root + Split(x, '/');
    }
  }

  lemma RenderInjective(p: Components, q: Components)
    requires CleanPath(p) && CleanPath(q)
    ensures Render(p) == Render(q) <==> p == q
  {
    CleanRendered(p);
    CleanRendered(q);
  }

  /** The site directory or below it; of "/" only itself, as the prefix test has it. */
  predicate Within(root: Components, p: Components) {
    p == root || (root != [] && root <= p)
  }

  /** A path is let through exactly when it resolves to the site directory or, component by
      component, below it; when the site directory is "/", only to "/" itself. */
  lemma EscapesIffNotBelow(links: Symlinks, root: Components, path: string)
    requires AnswersClean(links) && CleanPath(root) && path != ""
    ensures var dest := Resolved(links, Clean(Candidate(root, path)));
            Escapes(links, root, path) <==> !Within(root, dest)
  {
    var p := Clean(Candidate(root, path));
    var dest := Resolved(links, p);
    CleanIsClean(Candidate(root, path));
    ResolvedIsClean(links, p);
    RenderInjective(dest, root);
    if root != [] {
      PrefixIsDescent(root, dest);
    } else if HasPrefix(Render(dest), "//") {
      DoubleSlash(dest);
    }
    assert Render([]) + "/" == "//";
  }

  lemma DoubleSlash(p: Components)
    requires CleanPath(p)
    ensures !HasPrefix(Render(p), "//")
  {
    if p != [] {
      assert |p| == 1 ==> Join(p, "/")[0] == p[0][0];
      assert |p| > 1 ==> Join(p, "/")[0] == p[0][0];
      assert Render(p)[1] == p[0][0];
    }
  }

  // ----- rsync and scp arguments ------------------------------------------------------------------------

  /** What an argument is checked for: the value behind '=' of an option, a bare path, or nothing. */
  function Checked(a: string): Option<string> {
    if a == "" then None
    else if a[0] == '-' then
      match Cut(a, '=') case None => None case Some((_, value)) => Some(value)
    else if a == "." || a == "./" then None
    else Some(a)
  }

  predicate Flagged(links: Symlinks, root: Components, a: string) {
    Checked(a).Some? && Escapes(links, root, Checked(a).value)
  }

  /** The path an argument of a session in `root` stands for. */
  function Meant(root: Components, p: string): Components
    requires p != ""
  {
    Clean(if p[0] == '/' then p else Render(root) + "/" + p)
  }

  /** The argument names this path: behind the first '=' of an option, or by itself, but not as the
      transfer root. */
  ghost predicate NamesPath(a: string, p: string) {
    p != ""
    && ((a == p && a[0] != '-' && a != "." && a != "./")
        || exists n :: a == "-" + n + "=" + p && '=' !in n)
  }

  /** It names a path that, with links followed, is neither the site directory nor below it. */
  ghost predicate NamesOutside(links: Symlinks, root: Components, a: string) {
    exists p :: NamesPath(a, p) && !Within(root, Resolved(links, Meant(root, p)))
  }

  lemma MeantIsCandidate(root: Components, p: string)
    requires CleanPath(root) && p != ""
    ensures Clean(Candidate(root, p)) == Meant(root, p)
  {
    if p[0] != '/' {
      JoinWalks(root, p);
    }
  }

  /** What is checked of an argument is the path it names. */
  lemma CheckedIsNamed(a: string, p: string)
    ensures NamesPath(a, p) <==> Checked(a) == Some(p) && p != ""
  {
    forall n | a == "-" + n + "=" + p ensures a != "" && a[0] == '-' {
    }
    if a != "" && a[0] == '-' {
      CutParts(a, '=');
      if Cut(a, '=').Some? {
        var (k, v) := Cut(a, '=').value;
        assert k != "" && k[0] == '-';
        assert k == "-" + k[1..];
        assert a == "-" + k[1..] + "=" + v;
      }
      if n :| a == "-" + n + "=" + p && '=' !in n {
        CutUnique("-" + n, '=', p);
      }
    }
  }

  /** An argument is flagged exactly when it names a path outside the site. */
  lemma FlaggedIff(links: Symlinks, root: Components, a: string)
    requires AnswersClean(links) && CleanPath(root)
    ensures Flagged(links, root, a) <==> NamesOutside(links, root, a)
  {
    hide Resolved;
    hide Clean;
    hide Within;
    hide NamesPath;
    hide Checked;
    hide Escapes;
    if Checked(a).Some? {
      var p := Checked(a).value;
      CheckedIsNamed(a, p);
      if p != "" {
        EscapesIffNotBelow(links, root, p);
        MeantIsCandidate(root, p);
      } else {
        EmptyIsInside(links, root);
      }
    }
    forall p | NamesPath(a, p) ensures Checked(a) == Some(p) {
      CheckedIsNamed(a, p);
    }
  }

  lemma EmptyIsInside(links: Symlinks, root: Components)
    ensures !Escapes(links, root, "")
  {
  }

  /** The first argument that names a path outside the site, or "". */
  method EscapingPath(links: Symlinks, root: Components, argv: seq<string>) returns (bad: string)
    requires |argv| > 0
    ensures bad == "" <==> forall i :: 1 <= i < |argv| ==> !Flagged(links, root, argv[i])
    ensures bad != "" ==> exists i :: 1 <= i < |argv| && argv[i] == bad && Flagged(links, root, bad)
                                      && forall j :: 1 <= j < i ==> !Flagged(links, root, argv[j])
    ensures AnswersClean(links) && CleanPath(root) ==>
              (bad == "" <==> forall i :: 1 <= i < |argv| ==> !NamesOutside(links, root, argv[i]))
              && (bad != "" ==> exists i :: 1 <= i < |argv| && argv[i] == bad && NamesOutside(links, root, bad)
                                            && forall j :: 1 <= j < i ==> !NamesOutside(links, root, argv[j]))
  {
    hide Escapes;
    hide NamesOutside;
    if AnswersClean(links) && CleanPath(root) {
      forall a ensures Flagged(links, root, a) <==> NamesOutside(links, root, a) {
        FlaggedIff(links, root, a);
      }
    }
    for i := 1 to |argv|
      invariant forall j :: 1 <= j < i ==> !Flagged(links, root, argv[j])
    {
      var a := argv[i];
      if a == "" {
        continue;
      }
      if a[0] == '-' {
        var cut := Cut(a, '=');
        if cut.Some? {
          var escapes := PathEscapes(links, root, cut.value.1);
          if escapes {
            return a;
          }
        }
        continue;
      }
      if a == "." || a == "./" {
        continue;
      }
      var escapes := PathEscapes(links, root, a);
      if escapes {
        return a;
      }
    }
    return "";
  }
}
