/** Byte-wise order on text, and sorting by a text key (the service sorts route lists, plist keys
    and encoded XML nodes with the same order). */
module Sorting {
  import opened Sequences

  /** a comes before b, or equals it, in lexicographic order. */
  predicate AtMost(a: string, b: string)
    decreases |a|
  {
    a == [] || (b != [] && (a[0] < b[0] || (a[0] == b[0] && AtMost(a[1..], b[1..]))))
  }

  /** The texts agree up to the place, and a is smaller there. */
  predicate SmallerAt(a: string, b: string, k: nat) {
    k < |a| && k < |b| && a[..k] == b[..k] && a[k] < b[k]
  }

  /** That is: a is a prefix of b, or smaller at the first place where they differ. */
  lemma {:induction false} AtMostExactly(a: string, b: string)
    ensures AtMost(a, b) <==> a <= b || exists k: nat :: SmallerAt(a, b, k)
    decreases |a|
  {
    if a != [] && b != [] {
      SmallerNext(a, b);
      if a[0] == b[0] {
        AtMostExactly(a[1..], b[1..]);
        assert a == [a[0]] + a[1..] && b == [b[0]] + b[1..];
      }
    }
  }

  lemma SmallerNext(a: string, b: string)
    requires a != [] && b != []
    ensures (exists k: nat :: SmallerAt(a, b, k))
            <==> a[0] < b[0] || (a[0] == b[0] && exists k: nat :: SmallerAt(a[1..], b[1..], k))
  {
    if k: nat :| SmallerAt(a, b, k) {
      if k == 0 {
        assert a[0] < b[0];
      } else {
        assert a[..k][0] == b[..k][0] && a[..k][1..] == a[1..][..k - 1] && b[..k][1..] == b[1..][..k - 1];
        assert SmallerAt(a[1..], b[1..], k - 1);
      }
    }
    if a[0] < b[0] {
      assert SmallerAt(a, b, 0);
    }
    if k: nat :| a[0] == b[0] && SmallerAt(a[1..], b[1..], k) {
      assert a[..k + 1] == [a[0]] + a[1..][..k] && b[..k + 1] == [b[0]] + b[1..][..k];
      assert SmallerAt(a, b, k + 1);
    }
  }

  lemma {:induction false} AtMostTotal(a: string, b: string)
    ensures AtMost(a, b) || AtMost(b, a)
    decreases |a|
  {
    if a != [] && b != [] && a[0] == b[0] {
      AtMostTotal(a[1..], b[1..]);
    }
  }

  lemma {:induction false} AtMostAntisymmetric(a: string, b: string)
    requires AtMost(a, b) && AtMost(b, a)
    ensures a == b
    decreases |a|
  {
    if a != [] {
      AtMostAntisymmetric(a[1..], b[1..]);
      assert a == [a[0]] + a[1..] && b == [b[0]] + b[1..];
    }
  }

  lemma {:induction false} AtMostTransitive(a: string, b: string, c: string)
    requires AtMost(a, b) && AtMost(b, c)
    ensures AtMost(a, c)
    decreases |a|
  {
    if a != [] && a[0] == b[0] && b[0] == c[0] {
      AtMostTransitive(a[1..], b[1..], c[1..]);
    }
  }

  ghost predicate Injective<T(!new)>(key: T -> string) {
    forall x, y :: key(x) == key(y) ==> x == y
  }

  ghost predicate SortedBy<T>(key: T -> string, xs: seq<T>) {
    forall i, j :: 0 <= i < j < |xs| ==> AtMost(key(xs[i]), key(xs[j]))
  }

  function Insert<T>(key: T -> string, x: T, xs: seq<T>): (r: seq<T>)
    ensures multiset(r) == multiset(xs) + multiset{x}
    ensures |r| == |xs| + 1
  {
    if xs == [] || AtMost(key(x), key(xs[0])) then
      assert multiset([x] + xs) == multiset([x]) + multiset(xs);
      [x] + xs
    else
      assert xs == [xs[0]] + xs[1..];
      [xs[0]] + Insert(key, x, xs[1..])
  }

  /** The sorted arrangement of xs. */
  function Sort<T>(key: T -> string, xs: seq<T>): (r: seq<T>)
    ensures multiset(r) == multiset(xs)
    ensures |r| == |xs|
  {
    if xs == [] then []
    else
      assert xs == [xs[0]] + xs[1..];
      Insert(key, xs[0], Sort(key, xs[1..]))
  }

  lemma {:induction false} InsertSorted<T>(key: T -> string, x: T, xs: seq<T>)
    requires SortedBy(key, xs)
    ensures SortedBy(key, Insert(key, x, xs))
  {
    var r := Insert(key, x, xs);
    if xs == [] {
    } else if AtMost(key(x), key(xs[0])) {
      forall j | 0 < j < |r|
        ensures AtMost(key(r[0]), key(r[j]))
      {
        AtMostTransitive(key(x), key(xs[0]), key(xs[j - 1])) by {
          AtMostTotal(key(xs[0]), key(xs[0]));
        }
      }
    } else {
      AtMostTotal(key(x), key(xs[0]));
      InsertSorted(key, x, xs[1..]);
      var tail := Insert(key, x, xs[1..]);
      forall j | 0 <= j < |tail|
        ensures AtMost(key(xs[0]), key(tail[j]))
      {
        assert tail[j] in multiset(tail);
        if tail[j] != x {
          assert tail[j] in xs[1..];
        }
      }
      assert r == [xs[0]] + tail;
    }
  }

  lemma {:induction false} SortSorted<T>(key: T -> string, xs: seq<T>)
    ensures SortedBy(key, Sort(key, xs))
  {
    if xs != [] {
      SortSorted(key, xs[1..]);
      InsertSorted(key, xs[0], Sort(key, xs[1..]));
    }
  }

  lemma SmallestFirst<T(!new)>(key: T -> string, xs: seq<T>, y: T)
    requires SortedBy(key, xs) && y in multiset(xs)
    ensures |xs| > 0 && AtMost(key(xs[0]), key(y))
  {
    var i :| 0 <= i < |xs| && xs[i] == y;
    AtMostTotal(key(y), key(y));
  }

  lemma WithoutFirst<T>(xs: seq<T>)
    requires xs != []
    ensures multiset(xs[1..]) == multiset(xs) - multiset{xs[0]}
  {
    assert xs == [xs[0]] + xs[1..];
  }

  /** Two sorted arrangements of the same elements are the same list. */
  lemma {:induction false} SortedUnique<T(!new)>(key: T -> string, xs: seq<T>, ys: seq<T>)
    requires Injective(key)
    requires SortedBy(key, xs) && SortedBy(key, ys)
    requires multiset(xs) == multiset(ys)
    ensures xs == ys
  {
    SameLength(xs, ys);
    if xs != [] {
      SameFirst(key, xs, ys);
      WithoutFirst(xs);
      WithoutFirst(ys);
      SortedUnique(key, xs[1..], ys[1..]);
      assert xs == [xs[0]] + xs[1..] && ys == [ys[0]] + ys[1..];
    }
  }

  lemma SameFirst<T(!new)>(key: T -> string, xs: seq<T>, ys: seq<T>)
    requires Injective(key)
    requires SortedBy(key, xs) && SortedBy(key, ys)
    requires multiset(xs) == multiset(ys) && xs != [] && ys != []
    ensures xs[0] == ys[0]
  {
    assert xs[0] in multiset(xs) && ys[0] in multiset(ys);
    SmallestFirst(key, ys, xs[0]);
    SmallestFirst(key, xs, ys[0]);
    AtMostAntisymmetric(key(xs[0]), key(ys[0]));
  }

  /** Sorting forgets the order and nothing else. */
  lemma SortIgnoresOrder<T(!new)>(key: T -> string, xs: seq<T>, ys: seq<T>)
    requires Injective(key)
    ensures Sort(key, xs) == Sort(key, ys) <==> multiset(xs) == multiset(ys)
  {
    SortSorted(key, xs);
    SortSorted(key, ys);
    if multiset(xs) == multiset(ys) {
      SortedUnique(key, Sort(key, xs), Sort(key, ys));
    }
  }
}
