/** `sort.Slice` by a string field.

    The library function leaves the order of ties open. What is used of it is therefore a relation
    and not a function: some ordering of the elements in which no key is less than an earlier
    one. */
module Sorting {

  /** The order of Go's `<` on strings. */
  predicate Less(a: string, b: string) {
    b != "" && (a == "" || a[0] < b[0] || (a[0] == b[0] && Less(a[1..], b[1..])))
  }

  lemma {:induction false} LessIsTotal(a: string, b: string)
    ensures Less(a, b) || Less(b, a) || a == b
    ensures !(Less(a, b) && Less(b, a)) && !Less(a, a)
    decreases |a|
  {
    if a != "" {
      LessIsTotal(a[1..], a[1..]);
      if b != "" && a[0] == b[0] {
        LessIsTotal(a[1..], b[1..]);
        assert a == [a[0]] + a[1..] && b == [b[0]] + b[1..];
      }
    }
  }

  lemma {:induction false} LessIsTransitive(a: string, b: string, c: string)
    requires !Less(b, a) && !Less(c, b)
    ensures !Less(c, a)
    decreases |c|
  {
    if Less(c, a) && c != "" && b != "" && a[0] == b[0] == c[0] {
      LessIsTransitive(a[1..], b[1..], c[1..]);
    }
  }

  /** One string is less than another that it begins, and otherwise where they first differ. */
  lemma {:induction false} LessIs(a: string, b: string)
    ensures Less(a, b) <==>
            a < b || exists i :: 0 <= i < |a| && i < |b| && a[..i] == b[..i] && a[i] < b[i]
    decreases |a|
  {
    if a != "" && b != "" {
      if a[0] == b[0] {
        LessIs(a[1..], b[1..]);
        if i :| 0 <= i < |a| - 1 && i < |b| - 1 && a[1..][..i] == b[1..][..i] && a[1..][i] < b[1..][i] {
          assert a[..i + 1] == [a[0]] + a[1..][..i] && b[..i + 1] == [b[0]] + b[1..][..i];
        }
        if i :| 0 <= i < |a| && i < |b| && a[..i] == b[..i] && a[i] < b[i] {
          assert i > 0;
          assert a[1..][..i - 1] == a[..i][1..] && b[1..][..i - 1] == b[..i][1..];
        }
        if a[1..] < b[1..] {
          assert b == [b[0]] + b[1..] && a == [a[0]] + a[1..];
        }
        if a < b {
          assert b[..|a|] == a;
          assert b[1..][..|a| - 1] == a[1..];
        }
      } else if a[0] < b[0] {
        assert a[..0] == b[..0];
      }
    }
  }

  ghost predicate Ordered<T>(xs: seq<T>, key: T -> string) {
    forall i, j :: 0 <= i < j < |xs| ==> !Less(key(xs[j]), key(xs[i]))
  }

  ghost predicate SortOf<T>(ys: seq<T>, xs: seq<T>, key: T -> string) {
    multiset(ys) == multiset(xs) && Ordered(ys, key)
  }

  lemma SameElements<T>(ys: seq<T>, xs: seq<T>, key: T -> string)
    requires SortOf(ys, xs, key)
    ensures forall x :: x in ys <==> x in xs
  {
    forall x ensures x in ys <==> x in xs {
      assert x in multiset(ys) <==> x in multiset(xs);
    }
  }

  method Insert<T>(sorted: seq<T>, x: T, key: T -> string) returns (ys: seq<T>)
    requires Ordered(sorted, key)
    ensures multiset(ys) == multiset(sorted) + multiset{x} && Ordered(ys, key)
  {
    var i := |sorted|;
    while i > 0 && Less(key(x), key(sorted[i - 1]))
      invariant 0 <= i <= |sorted|
      invariant forall j :: i <= j < |sorted| ==> Less(key(x), key(sorted[j]))
    {
      i := i - 1;
    }
    InsertedElements(sorted, x, i);
    InsertedInOrder(sorted, x, i, key);
    ys := sorted[..i] + [x] + sorted[i..];
  }

  lemma InsertedElements<T>(sorted: seq<T>, x: T, i: nat)
    requires i <= |sorted|
    ensures multiset(sorted[..i] + [x] + sorted[i..]) == multiset(sorted) + multiset{x}
  {
    assert sorted == sorted[..i] + sorted[i..];
  }

  lemma InsertedInOrder<T>(sorted: seq<T>, x: T, i: nat, key: T -> string)
    requires i <= |sorted| && Ordered(sorted, key)
    requires forall j :: i <= j < |sorted| ==> Less(key(x), key(sorted[j]))
    requires i > 0 ==> !Less(key(x), key(sorted[i - 1]))
    ensures Ordered(sorted[..i] + [x] + sorted[i..], key)
  {
    var ys := sorted[..i] + [x] + sorted[i..];
    forall j, k | 0 <= j < k < |ys| ensures !Less(key(ys[k]), key(ys[j])) {
      if k == i {
        if j < i - 1 {
          LessIsTransitive(key(sorted[j]), key(sorted[i - 1]), key(x));
        }
      } else if j == i {
        LessIsTotal(key(x), key(sorted[k - 1]));
      }
    }
  }

  method SortBy<T>(xs: seq<T>, key: T -> string) returns (ys: seq<T>)
    ensures SortOf(ys, xs, key)
  {
    ys := [];
    for i := 0 to |xs|
      invariant SortOf(ys, xs[..i], key)
    {
      assert xs[..i + 1] == xs[..i] + [xs[i]];
      ys := Insert(ys, xs[i], key);
    }
    assert xs[..|xs|] == xs;
  }
}
