/** Small facts about sequences and sets that more than one component needs. */
module Sequences {

  ghost predicate Distinct<T(!new)>(s: seq<T>) {
    forall i, j :: 0 <= i < j < |s| ==> s[i] != s[j]
  }

  lemma DistinctAppend<T(!new)>(a: seq<T>, b: seq<T>)
    requires Distinct(a) && Distinct(b) && forall x <- a :: x !in b
    ensures Distinct(a + b)
  {
    forall i | 0 <= i < |a| ensures a[i] !in b {
      assert a[i] in a;
    }
  }

  /** A concatenation has different elements exactly when its parts do and share none. */
  lemma DistinctParts<T(!new)>(a: seq<T>, b: seq<T>)
    ensures Distinct(a + b) <==> Distinct(a) && Distinct(b) && forall x <- a :: x !in b
  {
    var all := a + b;
    if Distinct(all) {
      forall i, j | 0 <= i < j < |a| ensures a[i] != a[j] {
        assert all[i] != all[j];
      }
      forall i, j | 0 <= i < j < |b| ensures b[i] != b[j] {
        assert all[|a| + i] != all[|a| + j];
      }
      forall i, j | 0 <= i < |a| && 0 <= j < |b| ensures a[i] != b[j] {
        assert all[i] != all[|a| + j];
      }
    }
    if Distinct(a) && Distinct(b) && forall x <- a :: x !in b {
      DistinctAppend(a, b);
    }
  }

  lemma DistinctSnoc<T(!new)>(s: seq<T>, x: T)
    ensures Distinct(s + [x]) <==> Distinct(s) && x !in s
  {
    DistinctParts(s, [x]);
  }

  function Flatten<T>(ss: seq<seq<T>>): seq<T> {
    if ss == [] then [] else ss[0] + Flatten(ss[1..])
  }

  lemma SubsetSize<T>(a: set<T>, b: set<T>)
    requires a <= b
    ensures |a| <= |b|
  {
    assert b == a + (b - a);
  }

  lemma OneMore<T>(s: seq<T>, i: nat)
    requires i < |s|
    ensures s[..i + 1] == s[..i] + [s[i]]
  {
  }

  lemma NoneAndAll<T>(s: seq<T>)
    ensures s[..0] == [] && s[..|s|] == s
  {
  }

  lemma Assoc<T>(a: seq<T>, b: seq<T>, c: seq<T>)
    ensures a + b + c == a + (b + c)
  {
  }

  lemma {:induction false} FlattenAppend<T>(a: seq<seq<T>>, b: seq<seq<T>>)
    ensures Flatten(a + b) == Flatten(a) + Flatten(b)
  {
    if a == [] {
      assert a + b == b;
    } else {
      FlattenAppend(a[1..], b);
      assert (a + b)[1..] == a[1..] + b;
      Assoc(a[0], Flatten(a[1..]), Flatten(b));
    }
  }

  lemma {:induction false} FlattenMember<T>(ss: seq<seq<T>>, x: T)
    ensures x in Flatten(ss) <==> exists i :: 0 <= i < |ss| && x in ss[i]
  {
    if ss == [] {
    } else {
      FlattenMember(ss[1..], x);
      if x in Flatten(ss[1..]) {
        var i :| 0 <= i < |ss[1..]| && x in ss[1..][i];
        assert x in ss[i + 1];
      }
      if i :| 0 < i < |ss| && x in ss[i] {
        assert x in ss[1..][i - 1];
      }
    }
  }

  /** The elements by first occurrence, each once. */
  function FirstSeen<T(==)>(s: seq<T>): seq<T> {
    if s == [] then []
    else
      var before, last := FirstSeen(s[..|s| - 1]), s[|s| - 1];
      if last in before then before else before + [last]
  }

  lemma FirstSeenSnoc<T>(s: seq<T>, x: T)
    ensures FirstSeen(s + [x]) == if x in FirstSeen(s) then FirstSeen(s) else FirstSeen(s) + [x]
  {
    assert (s + [x])[..|s|] == s;
  }

  ghost predicate FirstAt<T(!new)>(s: seq<T>, i: nat) {
    i < |s| && forall j :: 0 <= j < i ==> s[j] != s[i]
  }

  lemma {:induction false} FirstSeenMember<T(!new)>(s: seq<T>, x: T)
    ensures x in FirstSeen(s) <==> x in s
  {
    if s != [] {
      FirstSeenMember(s[..|s| - 1], x);
      assert s == s[..|s| - 1] + [s[|s| - 1]];
    }
  }

  /** The places at which an element occurs for the first time, in order. */
  lemma {:induction false} FirstSeenIs<T(!new)>(s: seq<T>) returns (at: seq<nat>)
    ensures |at| == |FirstSeen(s)| && forall k :: 0 <= k < |at| ==> at[k] < |s| && FirstSeen(s)[k] == s[at[k]]
    ensures forall j, k :: 0 <= j < k < |at| ==> at[j] < at[k]
    ensures forall i: nat :: i in at <==> FirstAt(s, i)
  {
    if s == [] {
      at := [];
    } else {
      var n := |s| - 1;
      at := FirstSeenIs(s[..n]);
      FirstSeenMember(s[..n], s[n]);
      forall i: nat | i < n ensures FirstAt(s[..n], i) <==> FirstAt(s, i) {
      }
      assert FirstAt(s, n) <==> s[n] !in s[..n];
      if s[n] !in s[..n] {
        at := at + [n];
      }
    }
  }

  lemma {:induction false} DistinctSize<T(!new)>(s: seq<T>, all: set<T>)
    requires Distinct(s) && forall x :: x in s <==> x in all
    ensures |s| == |all|
    decreases |s|
  {
    if s != [] {
      var rest := s[1..];
      assert s == [s[0]] + rest;
      forall i | 0 <= i < |rest| ensures rest[i] != s[0] {
        assert s[0] != s[i + 1];
      }
      DistinctSize(rest, all - {s[0]});
    }
  }

  // ---------- Choosing some of the elements, in order ----------

  /** `at` lists, in order, exactly the places of the wanted elements. */
  ghost predicate Places<T(!new)>(at: seq<nat>, s: seq<T>, wanted: T -> bool) {
    && (forall k :: 0 <= k < |at| ==> at[k] < |s| && wanted(s[at[k]]))
    && (forall j, k :: 0 <= j < k < |at| ==> at[j] < at[k])
    && (forall i: nat :: i < |s| && wanted(s[i]) ==> i in at)
  }

  lemma PlacesSize<T(!new)>(at: seq<nat>, s: seq<T>, wanted: T -> bool, all: set<nat>)
    requires Places(at, s, wanted) && forall i: nat :: i in all <==> i < |s| && wanted(s[i])
    ensures |at| == |all|
  {
    forall i: nat ensures i in at <==> i in all {
      if i in at {
        var k :| 0 <= k < |at| && at[k] == i;
      }
    }
    DistinctSize(at, all);
  }

  function Shifted(at: seq<nat>): (r: seq<nat>)
    ensures |r| == |at| && forall k :: 0 <= k < |at| ==> r[k] == at[k] + 1
  {
    seq(|at|, k requires 0 <= k < |at| => at[k] + 1)
  }

  lemma NoPlaces<T(!new)>(wanted: T -> bool)
    ensures Places([], [], wanted)
  {
  }

  /** The places in a list, from those in its tail. */
  lemma PlacesFromTail<T(!new)>(s: seq<T>, rest: seq<nat>, wanted: T -> bool) returns (at: seq<nat>)
    requires s != [] && Places(rest, s[1..], wanted)
    ensures at == (if wanted(s[0]) then [0] + Shifted(rest) else Shifted(rest)) && Places(at, s, wanted)
  {
    ShiftedPlaces(s, rest, wanted);
    at := Shifted(rest);
    if wanted(s[0]) {
      PlacesAfterHead(s, at, wanted);
      at := [0] + at;
    }
  }

  lemma PlacesAfterHead<T(!new)>(s: seq<T>, at: seq<nat>, wanted: T -> bool)
    requires s != [] && wanted(s[0])
    requires forall k :: 0 <= k < |at| ==> 0 < at[k] < |s| && wanted(s[at[k]])
    requires forall j, k :: 0 <= j < k < |at| ==> at[j] < at[k]
    requires forall i: nat :: 0 < i < |s| && wanted(s[i]) ==> i in at
    ensures Places([0] + at, s, wanted)
  {
    var all := [0] + at;
    forall k | 0 <= k < |all| ensures all[k] < |s| && wanted(s[all[k]]) {
      assert k > 0 ==> all[k] == at[k - 1];
    }
    forall j, k | 0 <= j < k < |all| ensures all[j] < all[k] {
      assert all[k] == at[k - 1] && (j > 0 ==> all[j] == at[j - 1]);
    }
    forall i: nat | i < |s| && wanted(s[i]) ensures i in all {
      assert i == 0 || i in at;
    }
  }

  lemma ShiftedPlaces<T(!new)>(s: seq<T>, rest: seq<nat>, wanted: T -> bool)
    requires s != [] && Places(rest, s[1..], wanted)
    ensures forall k :: 0 <= k < |rest| ==> 0 < Shifted(rest)[k] < |s| && wanted(s[Shifted(rest)[k]])
    ensures forall i: nat :: 0 < i < |s| && wanted(s[i]) ==> i in Shifted(rest)
  {
    forall k | 0 <= k < |rest| ensures 0 < Shifted(rest)[k] < |s| && wanted(s[Shifted(rest)[k]]) {
      assert s[1..][rest[k]] == s[rest[k] + 1];
    }
    forall i: nat | 0 < i < |s| && wanted(s[i]) ensures i in Shifted(rest) {
      assert s[1..][i - 1] == s[i];
      var k :| 0 <= k < |rest| && rest[k] == i - 1;
      assert Shifted(rest)[k] == i;
    }
  }

  /** `found` has one element for each wanted one of `s`, in order, and each fits its origin. */
  ghost predicate Images<T(!new), U(!new)>(s: seq<T>, wanted: T -> bool, fits: (T, U) -> bool, found: seq<U>) {
    exists at: seq<nat> ::
      Places(at, s, wanted) && |found| == |at| && forall k :: 0 <= k < |at| ==> fits(s[at[k]], found[k])
  }

  lemma NoImages<T(!new), U(!new)>(wanted: T -> bool, fits: (T, U) -> bool)
    ensures Images([], wanted, fits, [])
  {
    NoPlaces(wanted);
    var at: seq<nat> := [];
    assert Places(at, [], wanted);
  }

  /** The images of a list, from those of its tail. */
  lemma ImagesFromTail<T(!new), U(!new)>(s: seq<T>, wanted: T -> bool, fits: (T, U) -> bool, head: seq<U>, tail: seq<U>)
    requires s != [] && Images(s[1..], wanted, fits, tail)
    requires if wanted(s[0]) then |head| == 1 && fits(s[0], head[0]) else head == []
    ensures Images(s, wanted, fits, head + tail)
  {
    AtMostOne(head, tail);
    if wanted(s[0]) {
      ImagesTakeHead(s, wanted, fits, head[0], tail);
    } else {
      ImagesSkipHead(s, wanted, fits, tail);
    }
  }

  lemma AtMostOne<T>(head: seq<T>, tail: seq<T>)
    ensures head == [] ==> head + tail == tail
    ensures |head| == 1 ==> head + tail == [head[0]] + tail
  {
    assert |head| == 1 ==> head == [head[0]];
  }

  lemma ImagePlaces<T(!new), U(!new)>(s: seq<T>, wanted: T -> bool, fits: (T, U) -> bool, found: seq<U>)
    returns (at: seq<nat>)
    requires Images(s, wanted, fits, found)
    ensures Places(at, s, wanted) && |found| == |at| && forall k :: 0 <= k < |at| ==> fits(s[at[k]], found[k])
  {
    at :| Places(at, s, wanted) && |found| == |at| && forall k :: 0 <= k < |at| ==> fits(s[at[k]], found[k]);
  }

  lemma ImagesSkipHead<T(!new), U(!new)>(s: seq<T>, wanted: T -> bool, fits: (T, U) -> bool, tail: seq<U>)
    requires s != [] && Images(s[1..], wanted, fits, tail) && !wanted(s[0])
    ensures Images(s, wanted, fits, tail)
  {
    var rest := ImagePlaces(s[1..], wanted, fits, tail);
    ShiftedFits(s, fits, rest, tail);
    var at := PlacesFromTail(s, rest, wanted);
    ImagesAt(s, wanted, fits, at, tail);
  }

  lemma ImagesTakeHead<T(!new), U(!new)>(s: seq<T>, wanted: T -> bool, fits: (T, U) -> bool, x: U, tail: seq<U>)
    requires s != [] && Images(s[1..], wanted, fits, tail) && wanted(s[0]) && fits(s[0], x)
    ensures Images(s, wanted, fits, [x] + tail)
  {
    var rest := ImagePlaces(s[1..], wanted, fits, tail);
    ShiftedFits(s, fits, rest, tail);
    var at := PlacesFromTail(s, rest, wanted);
    FitsAfterHead(s, fits, Shifted(rest), tail, x);
    ImagesAt(s, wanted, fits, at, [x] + tail);
  }

  lemma ImagesAt<T(!new), U(!new)>(s: seq<T>, wanted: T -> bool, fits: (T, U) -> bool, at: seq<nat>, found: seq<U>)
    requires Places(at, s, wanted) && |found| == |at| && forall k :: 0 <= k < |at| ==> fits(s[at[k]], found[k])
    ensures Images(s, wanted, fits, found)
  {
  }

  lemma ShiftedFits<T, U>(s: seq<T>, fits: (T, U) -> bool, rest: seq<nat>, tail: seq<U>)
    requires s != [] && |tail| == |rest|
    requires forall k :: 0 <= k < |rest| ==> rest[k] < |s| - 1 && fits(s[1..][rest[k]], tail[k])
    ensures forall k :: 0 <= k < |rest| ==> Shifted(rest)[k] < |s| && fits(s[Shifted(rest)[k]], tail[k])
  {
    forall k | 0 <= k < |rest| ensures fits(s[Shifted(rest)[k]], tail[k]) {
      assert s[1..][rest[k]] == s[rest[k] + 1];
    }
  }

  lemma FitsAfterHead<T, U>(s: seq<T>, fits: (T, U) -> bool, at: seq<nat>, tail: seq<U>, x: U)
    requires s != [] && fits(s[0], x) && |at| == |tail|
    requires forall k :: 0 <= k < |at| ==> at[k] < |s| && fits(s[at[k]], tail[k])
    ensures forall k :: 0 <= k < |at| + 1 ==> ([0] + at)[k] < |s| && fits(s[([0] + at)[k]], ([x] + tail)[k])
  {
  }

  /** The same places fit other images. */
  lemma OtherImages<T(!new), U(!new), V(!new)>(s: seq<T>, wanted: T -> bool, fits: (T, U) -> bool, found: seq<U>,
                                               suits: (T, V) -> bool, others: seq<V>)
    requires Images(s, wanted, fits, found) && |others| == |found|
    requires forall k, x :: 0 <= k < |found| && fits(x, found[k]) ==> suits(x, others[k])
    ensures Images(s, wanted, suits, others)
  {
    var at := ImagePlaces(s, wanted, fits, found);
  }

  lemma ImageOrigin<T(!new), U(!new)>(s: seq<T>, wanted: T -> bool, fits: (T, U) -> bool, found: seq<U>, c: U)
    returns (i: nat)
    requires Images(s, wanted, fits, found) && c in found
    ensures i < |s| && wanted(s[i]) && fits(s[i], c)
  {
    var at := ImagePlaces(s, wanted, fits, found);
    var k :| 0 <= k < |found| && found[k] == c;
    i := at[k];
  }

  lemma ImageOf<T(!new), U(!new)>(s: seq<T>, wanted: T -> bool, fits: (T, U) -> bool, found: seq<U>, i: nat)
    returns (c: U)
    requires Images(s, wanted, fits, found) && i < |s| && wanted(s[i])
    ensures c in found && fits(s[i], c)
  {
    var at := ImagePlaces(s, wanted, fits, found);
    var k :| 0 <= k < |at| && at[k] == i;
    c := found[k];
  }
}
