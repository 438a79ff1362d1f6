/** Library sorting, as the Go code uses it: a stable insertion sort over a comparator,
    and the fact every caller relies on: under a linear comparator the sorted sequence
    is determined by the elements alone, so the order in which they were collected
    (a Go map iteration, for instance) cannot show. */
module Sorting {

  /** `less` orders the elements of `xs` linearly. */
  ghost predicate LinearOn<T(!new)>(less: (T, T) -> bool, xs: seq<T>)
  {
    && (forall a | a in xs :: !less(a, a))
    && (forall a, b | a in xs && b in xs :: a == b || less(a, b) || less(b, a))
    && (forall a, b, c | a in xs && b in xs && c in xs && less(a, b) && less(b, c) :: less(a, c))
  }

  ghost predicate Sorted<T(!new)>(less: (T, T) -> bool, xs: seq<T>)
  {
    forall i, j | 0 <= i < j < |xs| :: !less(xs[j], xs[i])
  }

  ghost predicate NoDuplicates<T(!new)>(xs: seq<T>)
  {
    forall i, j | 0 <= i < j < |xs| :: xs[i] != xs[j]
  }

  function Insert<T>(less: (T, T) -> bool, x: T, ys: seq<T>): seq<T>
  {
    if ys == [] || !less(ys[0], x) then [x] + ys else [ys[0]] + Insert(less, x, ys[1..])
  }

  function SortBy<T>(less: (T, T) -> bool, xs: seq<T>): seq<T>
  {
    if xs == [] then [] else Insert(less, xs[0], SortBy(less, xs[1..]))
  }

  lemma {:induction false} InsertPermutes<T>(less: (T, T) -> bool, x: T, ys: seq<T>)
    ensures multiset(Insert(less, x, ys)) == multiset{x} + multiset(ys)
  {
    if ys == [] || !less(ys[0], x) {
    } else {
      InsertPermutes(less, x, ys[1..]);
      assert ys == [ys[0]] + ys[1..];
    }
  }

  /** Whatever the comparator, sorting only rearranges. */
  lemma {:induction false} SortPermutes<T>(less: (T, T) -> bool, xs: seq<T>)
    ensures multiset(SortBy(less, xs)) == multiset(xs)
    ensures |SortBy(less, xs)| == |xs|
    ensures forall x :: x in SortBy(less, xs) <==> x in xs
  {
    if xs != [] {
      SortPermutes(less, xs[1..]);
      InsertPermutes(less, xs[0], SortBy(less, xs[1..]));
      assert xs == [xs[0]] + xs[1..];
    }
    SameMultiset(SortBy(less, xs), xs);
  }

  lemma SameMultiset<T>(a: seq<T>, b: seq<T>)
    requires multiset(a) == multiset(b)
    ensures |a| == |b| && forall x :: x in a <==> x in b
  {
    assert |a| == |multiset(a)| == |multiset(b)| == |b|;
    forall x ensures x in a <==> x in b {
      assert x in a <==> x in multiset(a);
      assert x in b <==> x in multiset(b);
    }
  }

  /** Enough for sortedness: asymmetric, and incomparability is transitive. */
  ghost predicate WeakOn<T(!new)>(less: (T, T) -> bool, xs: seq<T>)
  {
    && (forall a, b | a in xs && b in xs && less(a, b) :: !less(b, a))
    && (forall a, b, c | a in xs && b in xs && c in xs && !less(a, b) && !less(b, c) :: !less(a, c))
  }

  lemma LinearIsWeak<T(!new)>(less: (T, T) -> bool, xs: seq<T>)
    requires LinearOn(less, xs)
    ensures WeakOn(less, xs)
  {
  }

  lemma {:induction false} InsertSorted<T(!new)>(less: (T, T) -> bool, x: T, ys: seq<T>)
    requires WeakOn(less, [x] + ys) && Sorted(less, ys)
    ensures Sorted(less, Insert(less, x, ys))
  {
    var all := [x] + ys;
    if ys == [] {
    } else if !less(ys[0], x) {
      forall j | 0 <= j < |ys| ensures !less(ys[j], x) {
        assert ys[j] in all && x in all && ys[0] in all;
        assert j > 0 ==> !less(ys[j], ys[0]);
      }
    } else {
      assert forall y | y in ys[1..] :: y in all;
      InsertSorted(less, x, ys[1..]);
      InsertPermutes(less, x, ys[1..]);
      var rest := Insert(less, x, ys[1..]);
      forall k | 0 <= k < |rest| ensures !less(rest[k], ys[0]) {
        assert rest[k] in multiset(rest);
        assert rest[k] == x || rest[k] in ys[1..];
        assert ys[0] in all && x in all;
      }
    }
  }

  lemma {:induction false} SortSorts<T(!new)>(less: (T, T) -> bool, xs: seq<T>)
    requires WeakOn(less, xs)
    ensures Sorted(less, SortBy(less, xs))
  {
    if xs != [] {
      assert forall y | y in xs[1..] :: y in xs;
      SortSorts(less, xs[1..]);
      SortPermutes(less, xs[1..]);
      InsertSorted(less, xs[0], SortBy(less, xs[1..]));
    }
  }

  lemma SortedHead<T(!new)>(less: (T, T) -> bool, a: seq<T>, b: seq<T>)
    requires a != [] && b != [] && a[0] in b && b[0] in a
    requires LinearOn(less, a)
    requires Sorted(less, a) && Sorted(less, b)
    ensures a[0] == b[0]
  {
    var k :| 0 <= k < |a| && a[k] == b[0];
    var m :| 0 <= m < |b| && b[m] == a[0];
    assert k > 0 ==> !less(a[k], a[0]);
    assert m > 0 ==> !less(b[m], b[0]);
  }

  lemma TailMultiset<T>(a: seq<T>)
    requires a != []
    ensures multiset(a[1..]) == multiset(a) - multiset{a[0]}
  {
    assert a == [a[0]] + a[1..];
  }

  lemma LinearTail<T(!new)>(less: (T, T) -> bool, a: seq<T>)
    requires a != [] && LinearOn(less, a)
    ensures LinearOn(less, a[1..])
  {
    assert forall y | y in a[1..] :: y in a;
  }

  /** Under a linear comparator there is only one sorted arrangement. */
  lemma {:induction false} SortedUnique<T(!new)>(less: (T, T) -> bool, a: seq<T>, b: seq<T>)
    requires multiset(a) == multiset(b)
    requires LinearOn(less, a)
    requires Sorted(less, a) && Sorted(less, b)
    ensures a == b
  {
    SameMultiset(a, b);
    if a != [] {
      assert a[0] in a && b[0] in b;
      SortedHead(less, a, b);
      TailMultiset(a);
      TailMultiset(b);
      LinearTail(less, a);
      SortedUnique(less, a[1..], b[1..]);
    }
  }

  /** Sorting erases the order of the input. */
  lemma SortCanonical<T(!new)>(less: (T, T) -> bool, xs: seq<T>, ys: seq<T>)
    requires multiset(xs) == multiset(ys)
    requires LinearOn(less, xs)
    ensures SortBy(less, xs) == SortBy(less, ys)
  {
    SameMultiset(xs, ys);
    LinearIsWeak(less, xs);
    SortPermutes(less, xs);
    SortPermutes(less, ys);
    SortSorts(less, xs);
    SortSorts(less, ys);
    SortedUnique(less, SortBy(less, xs), SortBy(less, ys));
  }

  /** A sorted sequence is a fixed point of sorting. */
  lemma SortFixed<T(!new)>(less: (T, T) -> bool, xs: seq<T>)
    requires LinearOn(less, xs) && Sorted(less, xs)
    ensures SortBy(less, xs) == xs
  {
    SortPermutes(less, xs);
    LinearIsWeak(less, xs);
    SortSorts(less, xs);
    SortedUnique(less, xs, SortBy(less, xs));
  }

  /** Duplicate-freedom is a property of the multiset. */
  lemma {:induction false} NoDuplicatesMultiset<T(!new)>(xs: seq<T>)
    ensures NoDuplicates(xs) <==> forall x :: multiset(xs)[x] <= 1
  {
    if xs != [] {
      var n := |xs| - 1;
      var init := xs[..n];
      assert xs == init + [xs[n]];
      NoDuplicatesMultiset(init);
      assert forall x :: multiset(xs)[x] == multiset(init)[x] + (if x == xs[n] then 1 else 0);
      if NoDuplicates(xs) {
        assert xs[n] !in init;
        assert multiset(init)[xs[n]] == 0;
      } else if NoDuplicates(init) {
        var i, j :| 0 <= i < j < |xs| && xs[i] == xs[j];
        assert j == n;
        assert xs[n] in init by { assert init[i] == xs[n]; }
        assert multiset(xs)[xs[n]] >= 2;
      } else {
        var x :| multiset(init)[x] > 1;
        assert multiset(xs)[x] > 1;
      }
    }
  }

  lemma SortNoDuplicates<T(!new)>(less: (T, T) -> bool, xs: seq<T>)
    requires NoDuplicates(xs)
    ensures NoDuplicates(SortBy(less, xs))
  {
    SortPermutes(less, xs);
    NoDuplicatesMultiset(xs);
    NoDuplicatesMultiset(SortBy(less, xs));
  }

  /** Two duplicate-free sequences with the same elements are permutations of each other. */
  lemma SameElementsPermute<T(!new)>(xs: seq<T>, ys: seq<T>)
    requires NoDuplicates(xs) && NoDuplicates(ys)
    requires forall x :: x in xs <==> x in ys
    ensures multiset(xs) == multiset(ys)
  {
    NoDuplicatesMultiset(xs);
    NoDuplicatesMultiset(ys);
    forall x ensures multiset(xs)[x] == multiset(ys)[x] {
      assert x in xs <==> multiset(xs)[x] > 0;
      assert x in ys <==> multiset(ys)[x] > 0;
    }
  }

  function MapSeq<S, T>(f: S -> T, xs: seq<S>): (r: seq<T>)
    ensures |r| == |xs| && forall i | 0 <= i < |xs| :: r[i] == f(xs[i])
  {
    if xs == [] then [] else [f(xs[0])] + MapSeq(f, xs[1..])
  }

  function Filter<T>(p: T -> bool, xs: seq<T>): seq<T>
  {
    if xs == [] then [] else (if p(xs[0]) then [xs[0]] else []) + Filter(p, xs[1..])
  }

  /** The elements of `xs` stand in `ys` at the increasing places `at`. */
  ghost predicate Embeds<T(!new)>(xs: seq<T>, ys: seq<T>, at: seq<nat>)
  {
    && |at| == |xs|
    && (forall i | 0 <= i < |at| :: at[i] < |ys| && ys[at[i]] == xs[i])
    && (forall i, j | 0 <= i < j < |at| :: at[i] < at[j])
  }

  ghost predicate SubsequenceOf<T(!new)>(xs: seq<T>, ys: seq<T>)
  {
    exists at: seq<nat> :: Embeds(xs, ys, at)
  }

  /** A subsequence may be followed by any beginning of what follows the whole. */
  lemma SubsequenceJoin<T(!new)>(xs: seq<T>, ys: seq<T>, begun: seq<T>, more: seq<T>)
    requires SubsequenceOf(xs, ys) && begun <= more
    ensures SubsequenceOf(xs + begun, ys + more)
  {
    var at: seq<nat> :| Embeds(xs, ys, at);
    var next := seq(|begun|, i requires 0 <= i < |begun| => |ys| + i);
    var all := at + next;
    forall i | 0 <= i < |all| ensures all[i] < |ys + more| && (ys + more)[all[i]] == (xs + begun)[i] {
      if i >= |at| { assert all[i] == |ys| + (i - |at|); }
    }
    assert Embeds(xs + begun, ys + more, all);
  }

  /** Some enumeration of a finite set: the order a Go map iteration happened to take. */
  ghost function Listing<T(!new)>(s: set<T>): (xs: seq<T>)
    ensures NoDuplicates(xs) && forall x :: x in xs <==> x in s
  {
    if s == {} then [] else
    var x :| x in s;
    [x] + Listing(s - {x})
  }

  lemma Associative<T>(x: seq<T>, y: seq<T>, z: seq<T>)
    ensures (x + y) + z == x + (y + z)
  {
  }

  lemma {:induction false} FilterConcat<T>(p: T -> bool, a: seq<T>, b: seq<T>)
    ensures Filter(p, a + b) == Filter(p, a) + Filter(p, b)
  {
    if a == [] {
      assert a + b == b;
    } else {
      assert (a + b)[1..] == a[1..] + b && (a + b)[0] == a[0];
      var head := if p(a[0]) then [a[0]] else [];
      assert Filter(p, a) == head + Filter(p, a[1..]);
      assert Filter(p, a + b) == head + Filter(p, a[1..] + b);
      hide Filter;
      FilterConcat(p, a[1..], b);
      Associative(head, Filter(p, a[1..]), Filter(p, b));
    }
  }

  lemma {:induction false} FilterMembers<T>(p: T -> bool, xs: seq<T>)
    ensures forall x :: x in Filter(p, xs) <==> x in xs && p(x)
  {
    if xs != [] {
      FilterMembers(p, xs[1..]);
      assert xs == [xs[0]] + xs[1..];
    }
  }

  /** Drop the element at one place. */
  function Without<T>(xs: seq<T>, k: nat): seq<T>
    requires k < |xs|
  {
    xs[..k] + xs[k + 1..]
  }

  lemma WithoutMultiset<T>(xs: seq<T>, k: nat)
    requires k < |xs|
    ensures multiset(Without(xs, k)) == multiset(xs) - multiset{xs[k]}
  {
    assert xs == xs[..k] + [xs[k]] + xs[k + 1..];
  }

  lemma FindHead<T>(xs: seq<T>, ys: seq<T>) returns (k: nat)
    requires xs != [] && multiset(xs) == multiset(ys)
    ensures k < |ys| && ys[k] == xs[0] && multiset(xs[1..]) == multiset(Without(ys, k))
  {
    SameMultiset(xs, ys);
    assert xs[0] in xs;
    k :| 0 <= k < |ys| && ys[k] == xs[0];
    WithoutMultiset(ys, k);
    TailMultiset(xs);
  }

  lemma MapWithout<S, T>(f: S -> T, ys: seq<S>, k: nat)
    requires k < |ys|
    ensures MapSeq(f, Without(ys, k)) == Without(MapSeq(f, ys), k)
  {
    hide MapSeq;
    var left, right := MapSeq(f, Without(ys, k)), Without(MapSeq(f, ys), k);
    forall i | 0 <= i < |left| ensures left[i] == right[i] {
      assert left[i] == f(Without(ys, k)[i]);
    }
  }

  /** Mapping respects permutation. */
  lemma {:induction false} MapPermutes<S, T>(f: S -> T, xs: seq<S>, ys: seq<S>)
    requires multiset(xs) == multiset(ys)
    ensures multiset(MapSeq(f, xs)) == multiset(MapSeq(f, ys))
    decreases |xs|
  {
    if xs == [] {
      SameMultiset(xs, ys);
    } else {
      var k := FindHead(xs, ys);
      MapPermutes(f, xs[1..], Without(ys, k));
      MapWithout(f, ys, k);
      WithoutMultiset(MapSeq(f, ys), k);
      MultisetBack(MapSeq(f, xs), MapSeq(f, ys), k);
    }
  }

  lemma MultisetBack<T>(a: seq<T>, b: seq<T>, k: nat)
    requires a != [] && k < |b| && b[k] == a[0] && multiset(a[1..]) == multiset(Without(b, k))
    ensures multiset(a) == multiset(b)
  {
    TailMultiset(a);
    WithoutMultiset(b, k);
    assert a[0] in a && b[k] in b;
    assert multiset(a) == (multiset(a) - multiset{a[0]}) + multiset{a[0]};
    assert multiset(b) == (multiset(b) - multiset{b[k]}) + multiset{b[k]};
  }

  lemma FilterAt<T>(p: T -> bool, ys: seq<T>, k: nat)
    requires k < |ys|
    ensures multiset(Filter(p, ys)) == multiset(Filter(p, Without(ys, k))) + multiset(Filter(p, [ys[k]]))
  {
    var l, x, r := ys[..k], [ys[k]], ys[k + 1..];
    assert ys == l + (x + r);
    assert Without(ys, k) == l + r;
    hide *;
    FilterConcat(p, l, r);
    FilterConcat(p, l, x + r);
    FilterConcat(p, x, r);
    MiddleMultiset(Filter(p, l), Filter(p, x), Filter(p, r));
  }

  lemma MiddleMultiset<T>(a: seq<T>, b: seq<T>, c: seq<T>)
    ensures multiset(a + (b + c)) == multiset(a + c) + multiset(b)
  {
  }

  /** Filtering respects permutation. */
  lemma {:induction false} FilterPermutes<T>(p: T -> bool, xs: seq<T>, ys: seq<T>)
    requires multiset(xs) == multiset(ys)
    ensures multiset(Filter(p, xs)) == multiset(Filter(p, ys))
    decreases |xs|
  {
    if xs == [] {
      SameMultiset(xs, ys);
    } else {
      var k := FindHead(xs, ys);
      assert Without(xs, 0) == xs[1..];
      FilterPermutes(p, xs[1..], Without(ys, k));
      FilterAt(p, xs, 0);
      FilterAt(p, ys, k);
      assert [xs[0]] == [ys[k]];
    }
  }
}
