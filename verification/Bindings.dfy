/** Lists of named values in which a later value replaces an earlier one of the same name.

    Two parts of the repository read such lists: the editor of a site's environment file, and the
    wrapper that starts the site's service. Both keep the last value of each name, in the order
    in which the names first appear. */
module Bindings {
  import opened Text

  type Binding = (string, string)

  /** The value the list gives a name in the end. */
  function LastOf(bs: seq<Binding>, name: string): Option<string> {
    if bs == [] then None
    else if bs[|bs| - 1].0 == name then Some(bs[|bs| - 1].1)
    else LastOf(bs[..|bs| - 1], name)
  }

  /** Each name once, in the order of first appearance. */
  function Names(bs: seq<Binding>): seq<string> {
    if bs == [] then []
    else
      var ns, n := Names(bs[..|bs| - 1]), bs[|bs| - 1].0;
      if n in ns then ns else ns + [n]
  }

  predicate Distinct(ns: seq<string>) {
    forall i, j :: 0 <= i < j < |ns| ==> ns[i] != ns[j]
  }

  lemma {:induction false} NamesAreBound(bs: seq<Binding>, name: string)
    ensures name in Names(bs) <==> LastOf(bs, name).Some?
  {
    if bs != [] {
      NamesAreBound(bs[..|bs| - 1], name);
    }
  }

  lemma {:induction false} NamesAreDistinct(bs: seq<Binding>)
    ensures Distinct(Names(bs))
  {
    if bs != [] {
      NamesAreDistinct(bs[..|bs| - 1]);
    }
  }

  /** What LastOf and Names mean: the value of the last entry of that name, and one position for
      each name that occurs. */
  lemma {:induction false} LastOfIsLast(bs: seq<Binding>, name: string)
    ensures LastOf(bs, name).None? <==> forall i :: 0 <= i < |bs| ==> bs[i].0 != name
    ensures LastOf(bs, name).Some? ==>
              exists i :: 0 <= i < |bs| && bs[i] == (name, LastOf(bs, name).value)
                          && forall j :: i < j < |bs| ==> bs[j].0 != name
  {
    if bs != [] {
      var front := bs[..|bs| - 1];
      LastOfIsLast(front, name);
      if bs[|bs| - 1].0 == name {
        assert bs[|bs| - 1] == (name, LastOf(bs, name).value);
      } else if LastOf(front, name).Some? {
        var i :| 0 <= i < |front| && front[i] == (name, LastOf(bs, name).value)
                 && forall j :: i < j < |front| ==> front[j].0 != name;
        assert bs[i] == front[i];
        assert forall j :: i < j < |bs| ==> bs[j].0 != name;
      } else {
        assert forall i :: 0 <= i < |front| ==> bs[i] == front[i];
      }
    }
  }

  lemma {:induction false} LastOfConcat(a: seq<Binding>, b: seq<Binding>, name: string)
    ensures LastOf(a + b, name) == if LastOf(b, name).Some? then LastOf(b, name) else LastOf(a, name)
  {
    if b == [] {
      assert a + b == a;
    } else {
      assert (a + b)[..|a + b| - 1] == a + b[..|b| - 1];
      LastOfConcat(a, b[..|b| - 1], name);
    }
  }

  /** Names that are already distinct are their own order of first appearance. */
  lemma {:induction false} DistinctNames(bs: seq<Binding>, ns: seq<string>)
    requires |bs| == |ns| && Distinct(ns) && forall i :: 0 <= i < |bs| ==> bs[i].0 == ns[i]
    ensures Names(bs) == ns
    ensures forall i :: 0 <= i < |bs| ==> LastOf(bs, ns[i]) == Some(bs[i].1)
  {
    if bs != [] {
      var m := |bs| - 1;
      DistinctNames(bs[..m], ns[..m]);
      assert ns == ns[..m] + [ns[m]];
      forall i | 0 <= i < |bs| ensures LastOf(bs, ns[i]) == Some(bs[i].1) {
        if i < m {
          assert bs[..m][i] == bs[i] && ns[..m][i] == ns[i];
        }
      }
    }
  }
}
