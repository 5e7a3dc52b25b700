/** The paths an SFTP session is given (siteFS, cmd/ratline-shell/sftp.go), and how they compare with
    those an rsync argument is let through with (cmd/ratline-shell/main.go). */
module SftpPaths {
  import opened Text
  import opened SitePaths

  // ----- SFTP ---------------------------------------------------------------------------------------------

  /** The path siteFS.resolve makes of a client's path: below the root, whatever it says. */
  function Inside(root: Components, virtual: string): Components {
    root + Clean("/" + virtual)
  }

  /** None is a permission error. */
  function Resolve(links: Symlinks, root: Components, virtual: string): Option<Components> {
    if Escapes(links, root, Render(Inside(root, virtual))) then None else Some(Inside(root, virtual))
  }

  function ResolveNoFollow(links: Symlinks, root: Components, virtual: string): Option<Components> {
    var clean := Clean("/" + virtual);
    if clean == [] then Some(root)
    else match Resolve(links, root, Render(clean[..|clean| - 1]))
      case None => None
      case Some(parent) => Some(parent + [clean[|clean| - 1]])
  }

  /** filepath.Join(root, TrimPrefix(Clean("/" + virtual), "/")) is the root and the clean path. */
  lemma InsideIsJoin(root: Components, virtual: string)
    requires CleanPath(root)
    ensures Clean(JoinPath(root, Join(Clean("/" + virtual), "/"))) == Inside(root, virtual)
    ensures CleanPath(Inside(root, virtual))
  {
    var c := Clean("/" + virtual);
    CleanIsClean("/" + virtual);
    JoinWalks(root, Join(c, "/"));
    if c == [] {
      SplitCons("", '/', "");
      assert [""][1..] == [];
    } else {
      SplitJoin(c, '/');
      WalkClean(root, c);
    }
  }

  /** SFTP never hands out a path that resolves outside the site. */
  lemma ResolveStaysInside(links: Symlinks, root: Components, virtual: string)
    requires AnswersClean(links) && CleanPath(root)
    ensures Resolve(links, root, virtual).Some? <==> Within(root, Resolved(links, Inside(root, virtual)))
    ensures Resolve(links, root, virtual).Some? ==> Resolve(links, root, virtual).value == Inside(root, virtual)
  {
    InsideIsJoin(root, virtual);
    CleanRendered(Inside(root, virtual));
    EscapesIffNotBelow(links, root, Render(Inside(root, virtual)));
  }

  lemma RenderedIsClean(parent: Components)
    requires CleanPath(parent)
    ensures Clean("/" + Render(parent)) == parent
  {
    var v := Render(parent);
    CleanRendered(parent);
    hide Split;
    assert "/" + v == "" + ['/'] + v;
    SplitCons("", '/', v);
    WalkConcat([], [""], Split(v, '/'));
    assert [""][1..] == [];
  }

  /** The no-follow form hands out the root, or an entry whose directory resolves inside the site. */
  lemma NoFollowParentInside(links: Symlinks, root: Components, virtual: string)
    requires AnswersClean(links) && CleanPath(root)
    ensures var r := ResolveNoFollow(links, root, virtual);
            var p := Inside(root, virtual);
            (r.Some? ==> r.value == p)
            && (r.Some? <==> p == root || (|p| > |root| && Within(root, Resolved(links, p[..|p| - 1]))))
  {
    hide Resolve;
    hide Resolved;
    hide Walk;
    hide Split;
    hide Render;
    hide Within;
    var c := Clean("/" + virtual);
    CleanIsClean("/" + virtual);
    if c != [] {
      var parent, p := c[..|c| - 1], Inside(root, virtual);
      RenderedIsClean(parent);
      ResolveStaysInside(links, root, Render(parent));
      assert p == root + parent + [c[|c| - 1]];
      assert p[..|p| - 1] == root + parent;
    }
  }

  // ----- the two kinds of session agree -------------------------------------------------------------------

  /** Somewhere on the way the path climbs above where it started. */
  predicate Climbs(depth: nat, parts: seq<string>)
    decreases |parts|
  {
    parts != [] &&
    if parts[0] == "" || parts[0] == "." then Climbs(depth, parts[1..])
    else if parts[0] == ".." then depth == 0 || Climbs(depth - 1, parts[1..])
    else Climbs(depth + 1, parts[1..])
  }

  lemma {:induction false} WalkBelow(root: Components, base: Components, parts: seq<string>)
    requires !Climbs(|base|, parts)
    ensures Walk(root + base, parts) == root + Walk(base, parts)
    decreases |parts|
  {
    if parts != [] {
      if parts[0] == "" || parts[0] == "." {
        WalkBelow(root, base, parts[1..]);
      } else if parts[0] == ".." {
        assert (root + base)[..|root + base| - 1] == root + base[..|base| - 1];
        WalkBelow(root, base[..|base| - 1], parts[1..]);
      } else {
        assert (root + base) + [parts[0]] == root + (base + [parts[0]]);
        WalkBelow(root, base + [parts[0]], parts[1..]);
      }
    }
  }

  /** Walking from a site directory reaches no deeper than walking from nowhere does below it, and less
      deep when the path climbs. */
  lemma {:induction false} WalkIsShorter(root: Components, base: Components, parts: seq<string>)
    ensures |Walk(root + base, parts)| <= |root| + |Walk(base, parts)|
    ensures root != [] && Climbs(|base|, parts) ==> |Walk(root + base, parts)| < |root| + |Walk(base, parts)|
    decreases |parts|
  {
    if parts != [] {
      if parts[0] == "" || parts[0] == "." {
        WalkIsShorter(root, base, parts[1..]);
      } else if parts[0] != ".." {
        assert (root + base) + [parts[0]] == root + (base + [parts[0]]);
        WalkIsShorter(root, base + [parts[0]], parts[1..]);
      } else if base != [] {
        assert (root + base)[..|root + base| - 1] == root + base[..|base| - 1];
        WalkIsShorter(root, base[..|base| - 1], parts[1..]);
      } else if root != [] {
        assert (root + base)[..|root + base| - 1] == root[..|root| - 1] + [];
        WalkIsShorter(root[..|root| - 1], [], parts[1..]);
      } else {
        WalkIsShorter([], [], parts[1..]);
      }
    }
  }

  /** The path rsync's check resolves, and the one SFTP does. */
  lemma Candidates(root: Components, arg: string)
    requires CleanPath(root) && arg != "" && !IsAbs(arg)
    ensures Clean(Candidate(root, arg)) == Walk(root, Split(arg, '/'))
    ensures Clean(Render(Inside(root, arg))) == Inside(root, arg) == root + Walk([], Split(arg, '/'))
    ensures CleanPath(Walk(root, Split(arg, '/'))) && CleanPath(Inside(root, arg))
  {
    JoinWalks(root, arg);
    InsideIsJoin(root, arg);
    CleanRendered(Inside(root, arg));
    assert "/" + arg == "" + ['/'] + arg;
    SplitCons("", '/', arg);
    WalkConcat([], [""], Split(arg, '/'));
    assert Walk([], [""]) == [] by {
      assert [""][1..] == [];
    }
  }

  /** A file system in which one path leads to the top and another to a third. */
  function TwoLinks(up: Components, down: Components, dest: Components): Symlinks {
    p => if p == up then Some([]) else if p == down then Some(dest) else None
  }

  /** Where the two paths differ, a file system tells them apart: rsync's check refuses what SFTP
      hands out. */
  lemma PathsTellApart(root: Components, arg: string)
    requires CleanPath(root) && root != [] && arg != "" && !IsAbs(arg)
    requires Walk(root, Split(arg, '/')) != Inside(root, arg)
    ensures var links := TwoLinks(Walk(root, Split(arg, '/')), Inside(root, arg), root);
            AnswersClean(links) && Escapes(links, root, arg) && Resolve(links, root, arg) == Some(Inside(root, arg))
  {
    Candidates(root, arg);
    var up, down := Walk(root, Split(arg, '/')), Inside(root, arg);
    var links := TwoLinks(up, down, root);
    assert up[..|up|] == up && down[..|down|] == down;
    assert Resolved(links, up) == [] && Resolved(links, down) == root;
    EscapesIffNotBelow(links, root, arg);
    ResolveStaysInside(links, root, arg);
  }

  /** For a relative argument, rsync's check and SFTP's give the same verdict on every file system
      exactly when the argument never climbs above its start (or the site directory is "/"). */
  lemma SessionsAgree(root: Components, arg: string)
    requires CleanPath(root) && arg != "" && !IsAbs(arg)
    ensures (forall links: Symlinks :: AnswersClean(links) ==>
               (Escapes(links, root, arg) <==> Resolve(links, root, arg).None?))
            <==> root == [] || !Climbs(0, Split(arg, '/'))
    ensures root == [] || !Climbs(0, Split(arg, '/')) ==>
              forall links: Symlinks :: Escapes(links, root, arg) <==> Resolve(links, root, arg).None?
  {
    var parts := Split(arg, '/');
    Candidates(root, arg);
    assert root + [] == root;
    if root == [] {
      assert [] + Walk([], parts) == Walk([], parts);
    } else if Climbs(0, parts) {
      WalkIsShorter(root, [], parts);
      PathsTellApart(root, arg);
      var links := TwoLinks(Walk(root, parts), Inside(root, arg), root);
      assert AnswersClean(links);
    } else {
      WalkBelow(root, [], parts);
    }
  }

  /** A file system with nothing in it. */
  function Bare(): Symlinks {
    p => if p == [] then Some([]) else None
  }

  lemma BareResolves(p: Components)
    ensures AnswersClean(Bare()) && Resolved(Bare(), p) == p
  {
    var k := Deepest(Bare(), p, |p|);
    DeepestIsLongest(Bare(), p, |p|);
    assert k >= 0 ==> p[..k] == [];
  }

  lemma UpAndDown(x: string)
    requires Component(x)
    ensures Split("../" + x, '/') == ["..", x]
  {
    SplitCons("..", '/', x);
    SplitCons(x, '/', "");
    assert "../" + x == ".." + ['/'] + x;
  }

  lemma WalkUpAndDown(base: Components, x: string)
    requires Component(x)
    ensures Walk(base, ["..", x]) == (if base == [] then [] else base[..|base| - 1]) + [x]
  {
    var up := if base == [] then [] else base[..|base| - 1];
    assert ["..", x][1..] == [x] && [x][1..] == [];
    assert Walk(base, ["..", x]) == Walk(up, [x]);
    assert x != "" && x != "." && x != "..";
    assert Walk(up, [x]) == Walk(up + [x], [x][1..]);
    assert Walk(up + [x], []) == up + [x];
  }

  /** Without that condition they need not: "../x" is refused as an rsync argument, and for SFTP it is
      the site's own file x. */
  lemma ClimbingDisagrees(root: Components, x: string)
    requires CleanPath(root) && root != [] && Component(x) && x != root[|root| - 1]
    ensures Escapes(Bare(), root, "../" + x)
    ensures Resolve(Bare(), root, "../" + x) == Some(root + [x])
  {
    var arg, beside := "../" + x, root[..|root| - 1] + [x];
    UpAndDown(x);
    WalkUpAndDown(root, x);
    WalkUpAndDown([], x);
    JoinWalks(root, arg);
    BareResolves(beside);
    BareResolves(root + [x]);
    assert Inside(root, arg) == root + [x] by {
      assert "/" + arg == "" + ['/'] + arg;
      SplitCons("", '/', arg);
      assert Walk([], [""] + ["..", x]) == Walk([], ["..", x]) by {
        assert ([""] + ["..", x])[1..] == ["..", x];
      }
    }
    hide Walk;
    hide Split;
    EscapesIffNotBelow(Bare(), root, arg);
    ResolveStaysInside(Bare(), root, arg);
    assert !(root <= beside);
  }
}
