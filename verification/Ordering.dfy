/** Sorting under a strict total order, and what sortedness determines. */
module Ordering {
  import opened Finite

  /** `less` orders any two distinct values, consistently. */
  ghost predicate StrictOrder<T(!new)>(less: (T, T) -> bool) {
    && (forall a :: !less(a, a))
    && (forall a, b :: a != b ==> less(a, b) || less(b, a))
    && (forall a, b, c :: less(a, b) && less(b, c) ==> less(a, c))
  }

  ghost predicate Ascending<T>(xs: seq<T>, less: (T, T) -> bool) {
    forall i, j :: 0 <= i < j < |xs| ==> less(xs[i], xs[j])
  }

  lemma AscendingDistinct<T(!new)>(xs: seq<T>, less: (T, T) -> bool)
    requires StrictOrder(less) && Ascending(xs, less)
    ensures Distinct(xs) && |Elements(xs)| == |xs|
  {
    DistinctSize(xs);
  }

  /** `xs` is the arrangement of `s` in ascending order; there is at most one. */
  ghost predicate Arranges<T(!new)>(xs: seq<T>, s: set<T>, less: (T, T) -> bool) {
    Ascending(xs, less) && forall z :: z in xs <==> z in s
  }

  lemma {:induction false} SortedUnique<T(!new)>(xs: seq<T>, ys: seq<T>, s: set<T>, less: (T, T) -> bool)
    requires StrictOrder(less) && Arranges(xs, s, less) && Arranges(ys, s, less)
    ensures xs == ys
  {
    assert xs != [] ==> xs[0] in xs && xs[0] in ys;
    assert ys != [] ==> ys[0] in ys && ys[0] in xs;
    if xs != [] {
      assert xs[0] == ys[0];
      forall z ensures z in xs[1..] <==> z in s - {xs[0]} {
        TailElements(xs, less, z);
      }
      forall z ensures z in ys[1..] <==> z in s - {xs[0]} {
        TailElements(ys, less, z);
      }
      SortedUnique(xs[1..], ys[1..], s - {xs[0]}, less);
    }
  }

  lemma TailElements<T(!new)>(xs: seq<T>, less: (T, T) -> bool, z: T)
    requires StrictOrder(less) && Ascending(xs, less) && xs != []
    ensures z in xs[1..] <==> z in xs && z != xs[0]
  {
    assert xs == [xs[0]] + xs[1..];
  }

  ghost function Lesser<T(!new)>(xs: seq<T>, less: (T, T) -> bool, x: T): set<T> {
    set y | y in xs && less(y, x)
  }

  /** The position of a value in the sorted arrangement is the number of values before it. */
  lemma RankIsIndex<T(!new)>(xs: seq<T>, less: (T, T) -> bool, i: nat)
    requires StrictOrder(less) && Ascending(xs, less) && i < |xs|
    ensures |Lesser(xs, less, xs[i])| == i
  {
    var before := xs[..i];
    AscendingDistinct(before, less);
    assert Lesser(xs, less, xs[i]) == Elements(before) by {
      forall y | y in xs && less(y, xs[i]) ensures y in before {
        var j :| 0 <= j < |xs| && xs[j] == y;
        assert j < i;
        assert before[j] == y;
      }
      forall y | y in before ensures y in xs && less(y, xs[i]) {
      }
    }
  }

  /** Places one value among the smaller and larger ones of an ascending sequence. */
  method Insert<T(!new)>(xs: seq<T>, x: T, less: (T, T) -> bool) returns (ys: seq<T>)
    requires StrictOrder(less) && Ascending(xs, less) && x !in xs
    ensures Ascending(ys, less) && |ys| == |xs| + 1
    ensures forall z :: z in ys <==> z == x || z in xs
  {
    var i := 0;
    while i < |xs| && less(xs[i], x)
      invariant 0 <= i <= |xs|
      invariant forall j :: 0 <= j < i ==> less(xs[j], x)
    {
      i := i + 1;
    }
    assert forall j :: i <= j < |xs| ==> less(x, xs[j]);
    ys := xs[..i] + [x] + xs[i..];
  }

  method Sort<T(!new)>(xs: seq<T>, less: (T, T) -> bool) returns (ys: seq<T>)
    requires StrictOrder(less) && Distinct(xs)
    ensures Arranges(ys, Elements(xs), less) && |ys| == |xs|
  {
    ys := [];
    for i := 0 to |xs|
      invariant Ascending(ys, less) && |ys| == i
      invariant forall z :: z in ys <==> z in xs[..i]
    {
      assert xs[..i + 1] == xs[..i] + [xs[i]];
      ys := Insert(ys, xs[i], less);
    }
    assert xs[..|xs|] == xs;
  }

  /** The members of a set, in no particular order. */
  method Listing<T(==,!new)>(s: set<T>) returns (xs: seq<T>)
    ensures Distinct(xs) && forall z :: z in xs <==> z in s
  {
    xs := [];
    var todo := s;
    while todo != {}
      invariant todo <= s && Distinct(xs)
      invariant forall z :: z in xs <==> z in s && z !in todo
    {
      var z :| z in todo;
      assert z !in xs;
      xs, todo := xs + [z], todo - {z};
    }
  }

  /** `groups` sorts the values `done` by the key `f` gives them. */
  ghost predicate Grouped<K(!new), V(!new)>(groups: map<K, seq<V>>, done: set<V>, f: V -> K) {
    && (forall k :: k in groups ==> groups[k] != [] && Distinct(groups[k]))
    && (forall k, v :: k in groups && v in groups[k] ==> v in done && f(v) == k)
    && forall v :: v in done ==> f(v) in groups && v in groups[f(v)]
  }

  lemma GroupedStep<K(!new), V(!new)>(groups: map<K, seq<V>>, done: set<V>, f: V -> K, v: V)
    requires Grouped(groups, done, f) && v !in done
    ensures Grouped(groups[f(v) := (if f(v) in groups then groups[f(v)] else []) + [v]], done + {v}, f)
  {
    var group := (if f(v) in groups then groups[f(v)] else []) + [v];
    var groups' := groups[f(v) := group];
    forall k, x | k in groups' && x in groups'[k] ensures x in done + {v} && f(x) == k {
      if k == f(v) && x != v {
        assert f(v) in groups && x in groups[f(v)];
      } else if k != f(v) {
        assert k in groups && x in groups[k];
      }
    }
  }

  method GroupBy<K(!new,==), V(!new,==)>(s: set<V>, f: V -> K) returns (groups: map<K, seq<V>>)
    ensures Grouped(groups, s, f)
  {
    groups := map[];
    var todo := s;
    ghost var done: set<V> := {};
    while todo != {}
      invariant todo + done == s && todo !! done && Grouped(groups, done, f)
    {
      var v :| v in todo;
      GroupedStep(groups, done, f, v);
      groups := groups[f(v) := (if f(v) in groups then groups[f(v)] else []) + [v]];
      todo, done := todo - {v}, done + {v};
    }
    assert done == s;
  }

  // --- Text order -------------------------------------------------------------

  predicate TextLess(a: string, b: string) {
    if b == "" then false
    else if a == "" then true
    else if a[0] != b[0] then a[0] < b[0]
    else TextLess(a[1..], b[1..])
  }

  lemma {:induction false} TextConnected(a: string, b: string)
    ensures !(TextLess(a, b) && TextLess(b, a))
    ensures a != b ==> TextLess(a, b) || TextLess(b, a)
    ensures !TextLess(a, a)
  {
    if a != "" {
      TextConnected(a[1..], a[1..]);
      if b != "" && a[0] == b[0] {
        TextConnected(a[1..], b[1..]);
        assert a == [a[0]] + a[1..] && b == [b[0]] + b[1..];
      }
    }
  }

  lemma {:induction false} TextTransitive(a: string, b: string, c: string)
    requires TextLess(a, b) && TextLess(b, c)
    ensures TextLess(a, c)
  {
    if a != "" && a[0] == b[0] == c[0] {
      TextTransitive(a[1..], b[1..], c[1..]);
    }
  }

  lemma TextOrder()
    ensures StrictOrder(TextLess)
  {
    forall a: string, b: string ensures !TextLess(a, a) && (a != b ==> TextLess(a, b) || TextLess(b, a)) {
      TextConnected(a, b);
    }
    forall a: string, b: string, c: string | TextLess(a, b) && TextLess(b, c) ensures TextLess(a, c) {
      TextTransitive(a, b, c);
    }
  }

  lemma Arrangement(s: set<string>) returns (xs: seq<string>)
    ensures Arranges(xs, s, TextLess)
  {
    TextOrder();
    xs := Arranged(s, TextLess);
  }

  lemma {:induction false} Arranged<T(!new)>(s: set<T>, less: (T, T) -> bool) returns (xs: seq<T>)
    requires StrictOrder(less)
    ensures Arranges(xs, s, less)
    decreases |s|
  {
    if s == {} {
      xs := [];
    } else {
      var z :| z in s;
      var ys := Arranged(s - {z}, less);
      xs := Merge(ys, z, |ys|, less);
    }
  }

  /** Where `z` belongs among the first `n` values. */
  lemma {:induction false} Merge<T(!new)>(ys: seq<T>, z: T, n: nat, less: (T, T) -> bool) returns (xs: seq<T>)
    requires StrictOrder(less) && Ascending(ys, less) && z !in ys && n <= |ys|
    requires forall j :: n <= j < |ys| ==> less(z, ys[j])
    ensures Ascending(xs, less) && forall x :: x in xs <==> x == z || x in ys
  {
    if n == 0 || less(ys[n - 1], z) {
      xs := ys[..n] + [z] + ys[n..];
    } else {
      xs := Merge(ys, z, n - 1, less);
    }
  }

  /** One text comes before another when it is a beginning of it, or has the smaller character where they part. */
  lemma {:induction false} TextLessIff(a: string, b: string)
    ensures TextLess(a, b) <==> exists k: nat :: k <= |a| && k < |b| && a[..k] == b[..k] && (k == |a| || a[k] < b[k])
  {
    if a != "" && b != "" && a[0] == b[0] {
      TextLessIff(a[1..], b[1..]);
      if k: nat :| k <= |a| && k < |b| && a[..k] == b[..k] && (k == |a| || a[k] < b[k]) {
        assert 0 < k;
        assert a[1..][..k - 1] == a[..k][1..] && b[1..][..k - 1] == b[..k][1..];
      }
      if k: nat :| k <= |a| - 1 && k < |b| - 1 && a[1..][..k] == b[1..][..k] && (k == |a| - 1 || a[1..][k] < b[1..][k]) {
        assert a[..k + 1] == [a[0]] + a[1..][..k] && b[..k + 1] == [b[0]] + b[1..][..k];
      }
    } else if a != "" && b != "" {
      assert TextLess(a, b) <==> a[0] < b[0];
      if a[0] < b[0] {
        assert a[..0] == b[..0];
      }
      forall k: nat | 0 < k <= |a| && k < |b| ensures a[..k] != b[..k] {
        assert a[..k][0] == a[0] && b[..k][0] == b[0];
      }
    } else if b != "" {
      assert a[..0] == b[..0];
    }
  }
}
