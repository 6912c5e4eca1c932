/** Walks over a graph given by the children of each numbered node, where children may repeat and
    loops may occur: when a recursive walk ends, and what it visits. */
module GraphWalk {
  import opened Sequences

  function AddEdge(kids: seq<seq<nat>>, p: nat, c: nat): seq<seq<nat>>
    requires p < |kids|
  {
    kids[p := kids[p] + [c]]
  }

  lemma AddEdgeIs(kids: seq<seq<nat>>, p: nat, c: nat, linked: seq<seq<nat>>)
    requires p < |kids| == |linked| && linked[p] == kids[p] + [c]
    requires forall k :: 0 <= k < |kids| && k != p ==> linked[k] == kids[k]
    ensures AddEdge(kids, p, c) == linked
  {
  }

  /** The recursive walk from `k` ends within `n` levels. */
  predicate Deep(kids: seq<seq<nat>>, k: nat, n: nat)
    decreases n, 0
  {
    n > 0 && k < |kids| && DeepAll(kids, kids[k], n - 1)
  }

  predicate DeepAll(kids: seq<seq<nat>>, cs: seq<nat>, n: nat)
    decreases n, 1
  {
    forall i :: 0 <= i < |cs| ==> Deep(kids, cs[i], n)
  }

  /** The nodes that the recursive walk visits from `k`, in its order. */
  function Walk(kids: seq<seq<nat>>, k: nat, n: nat): seq<nat>
    requires Deep(kids, k, n)
    decreases n, 0
  {
    [k] + WalkAll(kids, kids[k], n - 1)
  }

  function WalkAll(kids: seq<seq<nat>>, cs: seq<nat>, n: nat): seq<nat>
    requires DeepAll(kids, cs, n)
    decreases n, 1 + |cs|
  {
    if cs == [] then [] else Walk(kids, cs[0], n) + WalkAll(kids, cs[1..], n)
  }

  /** The recursive walk from `k` ends. */
  ghost predicate Ends(kids: seq<seq<nat>>, k: nat) {
    exists n: nat :: Deep(kids, k, n)
  }

  /** More levels than needed change nothing. */
  lemma {:induction false} DeepMore(kids: seq<seq<nat>>, k: nat, n: nat, m: nat)
    requires Deep(kids, k, n) && n <= m
    ensures Deep(kids, k, m) && Walk(kids, k, m) == Walk(kids, k, n)
    decreases n, 0
  {
    DeepMoreAll(kids, kids[k], n - 1, m - 1);
  }

  lemma {:induction false} DeepMoreAll(kids: seq<seq<nat>>, cs: seq<nat>, n: nat, m: nat)
    requires DeepAll(kids, cs, n) && n <= m
    ensures DeepAll(kids, cs, m) && WalkAll(kids, cs, m) == WalkAll(kids, cs, n)
    decreases n, 1 + |cs|
  {
    if cs != [] {
      DeepMore(kids, cs[0], n, m);
      DeepMoreAll(kids, cs[1..], n, m);
    }
  }

  lemma {:induction false} WalkAllAppend(kids: seq<seq<nat>>, a: seq<nat>, b: seq<nat>, n: nat)
    requires DeepAll(kids, a, n) && DeepAll(kids, b, n)
    ensures DeepAll(kids, a + b, n) && WalkAll(kids, a + b, n) == WalkAll(kids, a, n) + WalkAll(kids, b, n)
    decreases |a|
  {
    if a == [] {
      assert a + b == b;
    } else {
      WalkAllAppend(kids, a[1..], b, n);
      assert (a + b)[0] == a[0] && (a + b)[1..] == a[1..] + b;
      Assoc(Walk(kids, a[0], n), WalkAll(kids, a[1..], n), WalkAll(kids, b, n));
    }
  }

  // ---------- A walk that ends needs no more levels than there are nodes ----------

  /** A node that needs exactly `n` levels has a chain below it that needs each number of levels. */
  lemma {:induction false} LevelsHaveNodes(kids: seq<seq<nat>>, k: nat, n: nat) returns (nodes: set<nat>)
    requires Deep(kids, k, n) && !Deep(kids, k, n - 1)
    ensures |nodes| == n && forall x <- nodes :: x < |kids| && Deep(kids, x, n)
    decreases n
  {
    if n == 1 {
      nodes := {k};
    } else {
      var i :| 0 <= i < |kids[k]| && !Deep(kids, kids[k][i], n - 2);
      var below := LevelsHaveNodes(kids, kids[k][i], n - 1);
      forall x | x in below ensures Deep(kids, x, n) {
        DeepMore(kids, x, n - 1, n);
      }
      nodes := below + {k};
    }
  }

  lemma BoundedSetSize(s: set<nat>, n: nat)
    requires forall x <- s :: x < n
    ensures |s| <= n
  {
    SubsetSize(s, Below(n));
  }

  /** A walk either ends within as many levels as there are nodes, or never. */
  lemma {:induction false} EndsWithinNodes(kids: seq<seq<nat>>, k: nat, n: nat)
    requires Deep(kids, k, n)
    ensures Deep(kids, k, |kids|)
    decreases n
  {
    if n <= |kids| {
      DeepMore(kids, k, n, |kids|);
    } else if Deep(kids, k, n - 1) {
      EndsWithinNodes(kids, k, n - 1);
    } else {
      var nodes := LevelsHaveNodes(kids, k, n);
      BoundedSetSize(nodes, |kids|);
    }
  }

  // ---------- How often a walk visits a node ----------

  function Occurs(s: seq<nat>, x: nat): nat {
    if s == [] then 0 else (if s[0] == x then 1 else 0) + Occurs(s[1..], x)
  }

  lemma {:induction false} OccursAppend(s: seq<nat>, t: seq<nat>, x: nat)
    ensures Occurs(s + t, x) == Occurs(s, x) + Occurs(t, x)
  {
    if s == [] {
      assert s + t == t;
    } else {
      OccursAppend(s[1..], t, x);
      assert (s + t)[1..] == s[1..] + t;
    }
  }

  /** Attaching a leaf below `p` adds it to a walk once for each visit of `p`, and changes nothing else. */
  lemma {:induction false} LinkAddsLeaf(kids: seq<seq<nat>>, p: nat, c: nat, k: nat, n: nat, x: nat)
    requires Deep(kids, k, n) && p < |kids| && c < |kids| && c != p && kids[c] == []
    ensures Deep(AddEdge(kids, p, c), k, n + 1)
    ensures Occurs(Walk(AddEdge(kids, p, c), k, n + 1), x)
            == Occurs(Walk(kids, k, n), x) + if x == c then Occurs(Walk(kids, k, n), p) else 0
    decreases n, 0
  {
    var linked := AddEdge(kids, p, c);
    LinkAddsLeafAll(kids, p, c, kids[k], n - 1, x);
    OccursAppend([k], WalkAll(kids, kids[k], n - 1), x);
    OccursAppend([k], WalkAll(kids, kids[k], n - 1), p);
    if k == p {
      LeafWalk(linked, c, n);
      WalkAllAppend(linked, kids[k], [c], n);
      OccursAppend(WalkAll(linked, kids[k], n), [c], x);
    }
    OccursAppend([k], WalkAll(linked, linked[k], n), x);
  }

  lemma {:induction false} LinkAddsLeafAll(kids: seq<seq<nat>>, p: nat, c: nat, cs: seq<nat>, n: nat, x: nat)
    requires DeepAll(kids, cs, n) && p < |kids| && c < |kids| && c != p && kids[c] == []
    ensures DeepAll(AddEdge(kids, p, c), cs, n + 1)
    ensures Occurs(WalkAll(AddEdge(kids, p, c), cs, n + 1), x)
            == Occurs(WalkAll(kids, cs, n), x) + if x == c then Occurs(WalkAll(kids, cs, n), p) else 0
    decreases n, 1 + |cs|
  {
    var linked := AddEdge(kids, p, c);
    if cs != [] {
      LinkAddsLeaf(kids, p, c, cs[0], n, x);
      LinkAddsLeafAll(kids, p, c, cs[1..], n, x);
      forall i | 0 <= i < |cs| ensures Deep(linked, cs[i], n + 1) {
        if i > 0 {
          assert cs[i] == cs[1..][i - 1];
        }
      }
      OccursAppend(Walk(kids, cs[0], n), WalkAll(kids, cs[1..], n), x);
      OccursAppend(Walk(kids, cs[0], n), WalkAll(kids, cs[1..], n), p);
      OccursAppend(Walk(linked, cs[0], n + 1), WalkAll(linked, cs[1..], n + 1), x);
    }
  }

  lemma LeafWalk(kids: seq<seq<nat>>, c: nat, n: nat)
    requires c < |kids| && kids[c] == [] && n >= 1
    ensures DeepAll(kids, [c], n) && WalkAll(kids, [c], n) == [c]
  {
    assert Deep(kids, c, n);
    assert Walk(kids, c, n) == [c] + [];
    assert [c][1..] == [];
  }

  /** Nodes that nothing leads to change no walk. */
  lemma {:induction false} LooseNodes(kids: seq<seq<nat>>, more: seq<seq<nat>>, k: nat, n: nat)
    requires Deep(kids, k, n)
    ensures Deep(kids + more, k, n) && Walk(kids + more, k, n) == Walk(kids, k, n)
    decreases n, 0
  {
    assert (kids + more)[k] == kids[k];
    LooseNodesAll(kids, more, kids[k], n - 1);
  }

  lemma {:induction false} LooseNodesAll(kids: seq<seq<nat>>, more: seq<seq<nat>>, cs: seq<nat>, n: nat)
    requires DeepAll(kids, cs, n)
    ensures DeepAll(kids + more, cs, n) && WalkAll(kids + more, cs, n) == WalkAll(kids, cs, n)
    decreases n, 1 + |cs|
  {
    if cs != [] {
      LooseNodes(kids, more, cs[0], n);
      LooseNodesAll(kids, more, cs[1..], n);
      forall i | 0 <= i < |cs| ensures Deep(kids + more, cs[i], n) {
        if i > 0 {
          assert cs[i] == cs[1..][i - 1];
        }
      }
    }
  }

  // ---------- The size of a walk ----------

  function Edges(kids: seq<seq<nat>>): nat {
    if kids == [] then 0 else |kids[0]| + Edges(kids[1..])
  }

  /** The number of children of the listed nodes, counting each listing. */
  function Degrees(kids: seq<seq<nat>>, s: seq<nat>): nat {
    if s == [] then 0 else (if s[0] < |kids| then |kids[s[0]]| else 0) + Degrees(kids, s[1..])
  }

  lemma {:induction false} DegreesAppend(kids: seq<seq<nat>>, s: seq<nat>, t: seq<nat>)
    ensures Degrees(kids, s + t) == Degrees(kids, s) + Degrees(kids, t)
  {
    if s == [] {
      assert s + t == t;
    } else {
      DegreesAppend(kids, s[1..], t);
      assert (s + t)[1..] == s[1..] + t;
    }
  }

  /** A walk visits its start and, for each visit of a node, each of its children. */
  lemma {:induction false} WalkSize(kids: seq<seq<nat>>, k: nat, n: nat)
    requires Deep(kids, k, n)
    ensures |Walk(kids, k, n)| == 1 + Degrees(kids, Walk(kids, k, n))
    decreases n, 0
  {
    WalkAllSize(kids, kids[k], n - 1);
    assert ([k] + WalkAll(kids, kids[k], n - 1))[1..] == WalkAll(kids, kids[k], n - 1);
  }

  lemma {:induction false} WalkAllSize(kids: seq<seq<nat>>, cs: seq<nat>, n: nat)
    requires DeepAll(kids, cs, n)
    ensures |WalkAll(kids, cs, n)| == |cs| + Degrees(kids, WalkAll(kids, cs, n))
    decreases n, 1 + |cs|
  {
    if cs != [] {
      WalkSize(kids, cs[0], n);
      WalkAllSize(kids, cs[1..], n);
      DegreesAppend(kids, Walk(kids, cs[0], n), WalkAll(kids, cs[1..], n));
    }
  }

  /** A walk visits the children of every node that it visits. */
  lemma {:induction false} WalkIsClosed(kids: seq<seq<nat>>, k: nat, n: nat, p: nat, c: nat)
    requires Deep(kids, k, n) && p < |kids| && p in Walk(kids, k, n) && c in kids[p]
    ensures c in Walk(kids, k, n)
    decreases n, 0
  {
    if k == p {
      ListIsVisited(kids, kids[k], n - 1, c);
    } else {
      WalkAllIsClosed(kids, kids[k], n - 1, p, c);
    }
  }

  lemma {:induction false} WalkAllIsClosed(kids: seq<seq<nat>>, cs: seq<nat>, n: nat, p: nat, c: nat)
    requires DeepAll(kids, cs, n) && p < |kids| && p in WalkAll(kids, cs, n) && c in kids[p]
    ensures c in WalkAll(kids, cs, n)
    decreases n, 1 + |cs|
  {
    if p in Walk(kids, cs[0], n) {
      WalkIsClosed(kids, cs[0], n, p, c);
    } else {
      WalkAllIsClosed(kids, cs[1..], n, p, c);
    }
  }

  lemma {:induction false} ListIsVisited(kids: seq<seq<nat>>, cs: seq<nat>, n: nat, c: nat)
    requires DeepAll(kids, cs, n) && c in cs
    ensures c in WalkAll(kids, cs, n)
    decreases |cs|
  {
    if cs[0] != c {
      ListIsVisited(kids, cs[1..], n, c);
    } else {
      assert Walk(kids, c, n)[0] == c;
    }
  }

  function Without(s: seq<nat>, x: nat): seq<nat> {
    if s == [] then [] else (if s[0] == x then [] else [s[0]]) + Without(s[1..], x)
  }

  lemma {:induction false} DegreesWithout(kids: seq<seq<nat>>, s: seq<nat>, x: nat)
    requires x < |kids|
    ensures Degrees(kids, s) >= Degrees(kids, Without(s, x)) + if x in s then |kids[x]| else 0
    ensures forall y: nat | y != x :: y in s ==> y in Without(s, x)
  {
    if s != [] {
      DegreesWithout(kids, s[1..], x);
      if s[0] != x {
        assert Without(s, x)[0] == s[0] && Without(s, x)[1..] == Without(s[1..], x);
      } else {
        assert Without(s, x) == Without(s[1..], x);
      }
    }
  }

  /** A list that holds every node with children counts every edge. */
  lemma {:induction false} DegreesCoverEdges(kids: seq<seq<nat>>, s: seq<nat>, n: nat)
    requires n <= |kids| && forall k: nat | k < n && kids[k] != [] :: k in s
    ensures Degrees(kids, s) >= Edges(kids[..n])
    decreases n
  {
    if n > 0 {
      DegreesWithout(kids, s, n - 1);
      DegreesCoverEdges(kids, Without(s, n - 1), n - 1);
      EdgesAppend(kids[..n - 1], kids[n - 1]);
      assert kids[..n] == kids[..n - 1] + [kids[n - 1]];
    }
  }

  lemma {:induction false} EdgesAppend(kids: seq<seq<nat>>, last: seq<nat>)
    ensures Edges(kids + [last]) == Edges(kids) + |last|
  {
    if kids == [] {
      assert kids + [last] == [last] && [last][1..] == [];
    } else {
      EdgesAppend(kids[1..], last);
      assert (kids + [last])[1..] == kids[1..] + [last];
    }
  }

  lemma {:induction false} LinkAddsEdge(kids: seq<seq<nat>>, p: nat, c: nat)
    requires p < |kids|
    ensures Edges(AddEdge(kids, p, c)) == Edges(kids) + 1
  {
    if p == 0 {
      assert AddEdge(kids, p, c)[1..] == kids[1..];
    } else {
      LinkAddsEdge(kids[1..], p - 1, c);
      assert AddEdge(kids, p, c)[1..] == AddEdge(kids[1..], p - 1, c);
    }
  }

  /** A list that holds each element of a set once, and nothing else, is as long as the set. */
  lemma {:induction false} SizeByMembership(s: seq<nat>, v: set<nat>)
    requires forall x: nat :: Occurs(s, x) == if x in v then 1 else 0
    ensures |s| == |v|
    decreases v
  {
    HeadOccurs(s);
    if v != {} {
      var y :| y in v;
      var rest := Without(s, y);
      WithoutOnce(s, y);
      forall x: nat ensures Occurs(rest, x) == if x in v - {y} then 1 else 0 {
        OccursWithout(s, y, x);
      }
      SizeByMembership(rest, v - {y});
    }
  }

  lemma {:induction false} SizeByOccurrences(s: seq<nat>, n: nat)
    requires forall x: nat :: Occurs(s, x) == if x < n then 1 else 0
    ensures |s| == n
  {
    SizeByMembership(s, Below(n));
  }

  function Below(n: nat): (r: set<nat>)
    ensures |r| == n && forall x: nat :: x in r <==> x < n
  {
    if n == 0 then {} else Below(n - 1) + {n - 1}
  }

  lemma {:induction false} OccursIfIn(s: seq<nat>, x: nat)
    ensures x in s <==> Occurs(s, x) > 0
  {
    if s != [] {
      OccursIfIn(s[1..], x);
    }
  }

  lemma HeadOccurs(s: seq<nat>)
    ensures s == [] || Occurs(s, s[0]) >= 1
  {
  }

  lemma {:induction false} WithoutOnce(s: seq<nat>, x: nat)
    ensures |s| == |Without(s, x)| + Occurs(s, x)
  {
    if s != [] {
      WithoutOnce(s[1..], x);
    }
  }

  lemma {:induction false} OccursWithout(s: seq<nat>, x: nat, y: nat)
    ensures Occurs(Without(s, x), y) == if x == y then 0 else Occurs(s, y)
  {
    if s != [] {
      OccursWithout(s[1..], x, y);
      if s[0] != x {
        assert Without(s, x)[0] == s[0] && Without(s, x)[1..] == Without(s[1..], x);
      } else {
        assert Without(s, x) == Without(s[1..], x);
      }
    }
  }

  // ---------- Walks that never end ----------

  /** A node among its own children keeps the walk going for ever. */
  lemma {:induction false} LoopNeverEnds(kids: seq<seq<nat>>, k: nat)
    requires k < |kids| && k in kids[k]
    ensures !Ends(kids, k)
  {
    forall n: nat ensures !Deep(kids, k, n) {
      LoopIsNotDeep(kids, k, n);
    }
  }

  lemma {:induction false} LoopIsNotDeep(kids: seq<seq<nat>>, k: nat, n: nat)
    requires k < |kids| && k in kids[k]
    ensures !Deep(kids, k, n)
  {
    if n > 0 {
      LoopIsNotDeep(kids, k, n - 1);
    }
  }

  lemma EndsBelow(kids: seq<seq<nat>>, k: nat, c: nat)
    requires k < |kids| && c in kids[k] && Ends(kids, k)
    ensures Ends(kids, c)
  {
    var n: nat :| Deep(kids, k, n);
    assert DeepAll(kids, kids[k], n - 1);
    var i :| 0 <= i < |kids[k]| && kids[k][i] == c;
    assert Deep(kids, kids[k][i], n - 1);
  }
}
