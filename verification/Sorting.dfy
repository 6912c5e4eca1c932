/** The stable sort of the host language, on values, for a total preorder. */
module Sorting {
  import opened Sequences

  ghost predicate TotalPreorder<T(!new)>(leq: (T, T) -> bool) {
    && (forall a, b :: leq(a, b) || leq(b, a))
    && (forall a, b, c :: leq(a, b) && leq(b, c) ==> leq(a, c))
  }

  ghost predicate Sorted<T>(s: seq<T>, leq: (T, T) -> bool) {
    forall i, j :: 0 <= i < j < |s| ==> leq(s[i], s[j])
  }

  /** Puts x in front of the first element that it may precede. */
  function Insert<T>(x: T, s: seq<T>, leq: (T, T) -> bool): seq<T> {
    if s == [] || leq(x, s[0]) then [x] + s else [s[0]] + Insert(x, s[1..], leq)
  }

  function Sort<T>(s: seq<T>, leq: (T, T) -> bool): seq<T> {
    if s == [] then [] else Insert(s[0], Sort(s[1..], leq), leq)
  }

  lemma {:induction false} InsertSorts<T(!new)>(x: T, s: seq<T>, leq: (T, T) -> bool)
    requires TotalPreorder(leq) && Sorted(s, leq)
    ensures Sorted(Insert(x, s, leq), leq) && multiset(Insert(x, s, leq)) == multiset{x} + multiset(s)
  {
    if s == [] || leq(x, s[0]) {
      assert multiset([x] + s) == multiset{x} + multiset(s);
    } else {
      InsertSorts(x, s[1..], leq);
      SmallestFirst(x, s, Insert(x, s[1..], leq), leq);
    }
  }

  lemma SmallestFirst<T(!new)>(x: T, s: seq<T>, rest: seq<T>, leq: (T, T) -> bool)
    requires TotalPreorder(leq) && s != [] && Sorted(s, leq) && !leq(x, s[0])
    requires Sorted(rest, leq) && multiset(rest) == multiset{x} + multiset(s[1..])
    ensures Sorted([s[0]] + rest, leq) && multiset([s[0]] + rest) == multiset{x} + multiset(s)
  {
    assert s == [s[0]] + s[1..];
    forall k | 0 <= k < |rest| ensures leq(s[0], rest[k]) {
      assert rest[k] in multiset(rest);
      if rest[k] != x {
        assert rest[k] in s[1..];
      }
    }
  }

  /** Sorting orders the elements and keeps each as often as it occurred. */
  lemma {:induction false} SortSorts<T(!new)>(s: seq<T>, leq: (T, T) -> bool)
    requires TotalPreorder(leq)
    ensures Sorted(Sort(s, leq), leq) && multiset(Sort(s, leq)) == multiset(s) && |Sort(s, leq)| == |s|
  {
    if s != [] {
      SortSorts(s[1..], leq);
      InsertSorts(s[0], Sort(s[1..], leq), leq);
      assert s == [s[0]] + s[1..];
    }
    assert |Sort(s, leq)| == |multiset(Sort(s, leq))| == |multiset(s)| == |s|;
  }

  function Filter<T>(s: seq<T>, p: T -> bool): seq<T> {
    if s == [] then [] else if p(s[0]) then [s[0]] + Filter(s[1..], p) else Filter(s[1..], p)
  }

  lemma {:induction false} FilterMember<T>(s: seq<T>, p: T -> bool, x: T)
    ensures x in Filter(s, p) <==> x in s && p(x)
  {
    if s != [] {
      FilterMember(s[1..], p, x);
      assert s == [s[0]] + s[1..];
    }
  }

  ghost function Itself<T(!new)>(): (T, T) -> bool {
    (a: T, b: T) => a == b
  }

  lemma {:induction false} FilterImages<T(!new)>(s: seq<T>, p: T -> bool)
    ensures Images(s, p, Itself(), Filter(s, p))
  {
    if s == [] {
      NoImages<T, T>(p, Itself());
    } else {
      FilterImages(s[1..], p);
      var head := if p(s[0]) then [s[0]] else [];
      ImagesFromTail(s, p, Itself(), head, Filter(s[1..], p));
      assert Filter(s, p) == head + Filter(s[1..], p);
    }
  }

  /** Filtering keeps the wanted elements, all of them and in order. */
  lemma FilterIs<T(!new)>(s: seq<T>, p: T -> bool) returns (at: seq<nat>)
    ensures Places(at, s, p) && |Filter(s, p)| == |at| && forall k :: 0 <= k < |at| ==> Filter(s, p)[k] == s[at[k]]
  {
    FilterImages(s, p);
    at := ImagePlaces(s, p, Itself(), Filter(s, p));
    assert forall k :: 0 <= k < |at| ==> Itself<T>()(s[at[k]], Filter(s, p)[k]);
  }

  lemma {:induction false} FilterSame<T>(s: seq<T>, p: T -> bool, q: T -> bool)
    requires forall x <- s :: p(x) == q(x)
    ensures Filter(s, p) == Filter(s, q)
  {
    if s != [] {
      FilterSame(s[1..], p, q);
    }
  }

  lemma {:induction false} InsertKeepsTies<T(!new)>(x: T, s: seq<T>, leq: (T, T) -> bool, p: T -> bool)
    requires forall a, b :: p(a) && p(b) ==> leq(a, b)
    ensures Filter(Insert(x, s, leq), p) == (if p(x) then [x] else []) + Filter(s, p)
  {
    if s == [] || leq(x, s[0]) {
      assert ([x] + s)[1..] == s;
    } else {
      InsertKeepsTies(x, s[1..], leq, p);
      var rest := Insert(x, s[1..], leq);
      assert ([s[0]] + rest)[0] == s[0] && ([s[0]] + rest)[1..] == rest;
      assert p(x) ==> !p(s[0]);
    }
  }

  /** Elements that tie keep their order. */
  lemma {:induction false} SortIsStable<T(!new)>(s: seq<T>, leq: (T, T) -> bool, p: T -> bool)
    requires forall a, b :: p(a) && p(b) ==> leq(a, b)
    ensures Filter(Sort(s, leq), p) == Filter(s, p)
  {
    if s != [] {
      SortIsStable(s[1..], leq, p);
      InsertKeepsTies(s[0], Sort(s[1..], leq), leq, p);
    }
  }

  /** Two sorted lists of the same elements are equal when no two different elements tie. */
  lemma {:induction false} SortedIsUnique<T(!new)>(s: seq<T>, t: seq<T>, leq: (T, T) -> bool)
    requires Sorted(s, leq) && Sorted(t, leq) && multiset(s) == multiset(t)
    requires forall a, b :: a in s && b in s && leq(a, b) && leq(b, a) ==> a == b
    requires forall a :: leq(a, a)
    ensures s == t
    decreases |s|
  {
    assert |s| == |multiset(s)| == |multiset(t)| == |t|;
    if s != [] {
      assert s == [s[0]] + s[1..] && t == [t[0]] + t[1..];
      assert t[0] in multiset(s) && s[0] in multiset(t);
      assert leq(s[0], t[0]) && leq(t[0], s[0]);
      BagCancel(s[1..], t[1..], s[0]);
      SortedIsUnique(s[1..], t[1..], leq);
    }
  }

  function Map<T, U>(s: seq<T>, f: T -> U): (r: seq<U>)
    ensures |r| == |s| && forall i :: 0 <= i < |s| ==> r[i] == f(s[i])
  {
    if s == [] then [] else [f(s[0])] + Map(s[1..], f)
  }

  /** The list without its j-th element. */
  function Drop<T>(b: seq<T>, j: nat): (r: seq<T>)
    requires j < |b|
    ensures |r| == |b| - 1 && forall k :: 0 <= k < |r| ==> r[k] == if k < j then b[k] else b[k + 1]
  {
    b[..j] + b[j + 1..]
  }

  lemma DropBag<T>(b: seq<T>, j: nat)
    requires j < |b|
    ensures multiset(b) == multiset{b[j]} + multiset(Drop(b, j))
  {
    assert b == b[..j] + ([b[j]] + b[j + 1..]);
  }

  lemma MapDrop<T, U>(b: seq<T>, j: nat, f: T -> U)
    requires j < |b|
    ensures Map(Drop(b, j), f) == Drop(Map(b, f), j)
  {
    var r, s := Map(Drop(b, j), f), Drop(Map(b, f), j);
    assert |r| == |s|;
    forall k | 0 <= k < |r| ensures r[k] == s[k] {
    }
  }

  lemma IndexOf<T>(b: seq<T>, x: T) returns (j: nat)
    requires x in multiset(b)
    ensures j < |b| && b[j] == x
  {
    j :| 0 <= j < |b| && b[j] == x;
  }

  /** Applying a function to reordered elements reorders the results. */
  lemma {:induction false} MapBag<T, U>(a: seq<T>, b: seq<T>, f: T -> U)
    requires multiset(a) == multiset(b)
    ensures multiset(Map(a, f)) == multiset(Map(b, f))
    decreases |a|
  {
    assert |a| == |multiset(a)| == |multiset(b)| == |b|;
    if a != [] {
      assert a[0] in multiset(a);
      var j := IndexOf(b, a[0]);
      DropBag(a, 0);
      DropBag(b, j);
      BagCancel(Drop(a, 0), Drop(b, j), a[0]);
      MapBag(Drop(a, 0), Drop(b, j), f);
      MapDrop(a, 0, f);
      MapDrop(b, j, f);
      DropBag(Map(a, f), 0);
      DropBag(Map(b, f), j);
    }
  }

  lemma FlattenDrop<T>(b: seq<seq<T>>, j: nat)
    requires j < |b|
    ensures multiset(Flatten(b)) == multiset(b[j]) + multiset(Flatten(Drop(b, j)))
  {
    var a, x, c := b[..j], b[j], b[j + 1..];
    assert b == a + ([x] + c);
    FlattenMiddle(a, x, c);
  }

  lemma FlattenMiddle<T>(a: seq<seq<T>>, x: seq<T>, c: seq<seq<T>>)
    ensures multiset(Flatten(a + ([x] + c))) == multiset(x) + multiset(Flatten(a + c))
  {
    FlattenAppend(a, [x] + c);
    FlattenAppend(a, c);
    assert ([x] + c)[1..] == c;
    BagMiddle(Flatten(a), x, Flatten(c));
  }

  lemma BagMiddle<T>(a: seq<T>, b: seq<T>, c: seq<T>)
    ensures multiset(a + (b + c)) == multiset(b) + multiset(a + c)
  {
  }

  /** Reordering lists reorders their concatenation. */
  lemma {:induction false} FlattenBag<T>(a: seq<seq<T>>, b: seq<seq<T>>)
    requires multiset(a) == multiset(b)
    ensures multiset(Flatten(a)) == multiset(Flatten(b))
    decreases |a|
  {
    assert |a| == |multiset(a)| == |multiset(b)| == |b|;
    if a != [] {
      assert a[0] in multiset(a);
      var j := IndexOf(b, a[0]);
      DropBag(a, 0);
      DropBag(b, j);
      BagCancel(Drop(a, 0), Drop(b, j), a[0]);
      FlattenBag(Drop(a, 0), Drop(b, j));
      FlattenDrop(a, 0);
      FlattenDrop(b, j);
    }
  }

  lemma BagCancel<T>(a: seq<T>, b: seq<T>, x: T)
    requires multiset{x} + multiset(a) == multiset{x} + multiset(b)
    ensures multiset(a) == multiset(b)
  {
    assert multiset(a) == multiset{x} + multiset(a) - multiset{x};
    assert multiset(b) == multiset{x} + multiset(b) - multiset{x};
  }

  lemma TwiceInBag<T>(s: seq<T>, i: nat, j: nat)
    requires i < j < |s| && s[i] == s[j]
    ensures multiset(s)[s[i]] >= 2
  {
    assert s == s[..i] + [s[i]] + s[i + 1..j] + [s[j]] + s[j + 1..];
  }

  lemma {:induction false} OnceInBag<T(!new)>(s: seq<T>, x: T)
    requires Distinct(s)
    ensures multiset(s)[x] <= 1
  {
    if s != [] {
      assert s == [s[0]] + s[1..];
      forall k | 0 <= k < |s| - 1 ensures s[1..][k] != s[0] {
        assert s[k + 1] != s[0];
      }
      OnceInBag(s[1..], x);
    }
  }

  /** Reordering keeps different elements different. */
  lemma ReorderedStayDistinct<T(!new)>(s: seq<T>, t: seq<T>)
    requires Distinct(s) && multiset(s) == multiset(t)
    ensures Distinct(t)
  {
    forall i, j | 0 <= i < j < |t| ensures t[i] != t[j] {
      OnceInBag(s, t[i]);
      if t[i] == t[j] {
        TwiceInBag(t, i, j);
      }
    }
  }

  /** The order of texts, character by character. */
  predicate TextLeq(a: string, b: string) {
    a == "" || (b != "" && (a[0] < b[0] || (a[0] == b[0] && TextLeq(a[1..], b[1..]))))
  }

  lemma {:induction false} TextLeqTotal(a: string, b: string)
    ensures TextLeq(a, b) || TextLeq(b, a)
    ensures TextLeq(a, b) && TextLeq(b, a) ==> a == b
  {
    if a != "" && b != "" && a[0] == b[0] {
      TextLeqTotal(a[1..], b[1..]);
      assert a == [a[0]] + a[1..] && b == [b[0]] + b[1..];
    }
  }

  lemma {:induction false} TextLeqTransitive(a: string, b: string, c: string)
    requires TextLeq(a, b) && TextLeq(b, c)
    ensures TextLeq(a, c)
  {
    if a != "" && b != "" && c != "" && a[0] == b[0] == c[0] {
      TextLeqTransitive(a[1..], b[1..], c[1..]);
    }
  }

  /** Up to the i-th characters the texts are the same, and there the first has the smaller one. */
  ghost predicate SmallerAt(a: string, b: string, i: nat) {
    i < |a| && i < |b| && a[i] < b[i] && forall k :: 0 <= k < i ==> a[k] == b[k]
  }

  lemma SmallerBehind(c: char, a: string, b: string, i: nat)
    ensures SmallerAt([c] + a, [c] + b, i + 1) <==> SmallerAt(a, b, i)
  {
    var x, y := [c] + a, [c] + b;
    if SmallerAt(x, y, i + 1) {
      forall k | 0 <= k < i ensures a[k] == b[k] {
        assert x[k + 1] == y[k + 1];
      }
    }
  }

  /** One text comes before another when it is a beginning of it or has the smaller character at the
      first place where they differ. */
  lemma {:induction false} TextLeqIs(a: string, b: string)
    ensures TextLeq(a, b) <==> a <= b || exists i: nat :: SmallerAt(a, b, i)
    decreases |a|
  {
    if a != "" && b != "" {
      if a[0] == b[0] {
        TextLeqIs(a[1..], b[1..]);
        SameHead(a, b);
      } else {
        assert a[0] < b[0] ==> SmallerAt(a, b, 0);
      }
    }
  }

  lemma SameHead(a: string, b: string)
    requires a != "" && b != "" && a[0] == b[0]
    ensures a <= b <==> a[1..] <= b[1..]
    ensures (exists i: nat :: SmallerAt(a, b, i)) <==> exists i: nat :: SmallerAt(a[1..], b[1..], i)
  {
    assert a == [a[0]] + a[1..] && b == [a[0]] + b[1..];
    if i: nat :| SmallerAt(a, b, i) {
      SmallerBehind(a[0], a[1..], b[1..], i - 1);
    }
    if i: nat :| SmallerAt(a[1..], b[1..], i) {
      SmallerBehind(a[0], a[1..], b[1..], i);
    }
  }
}
