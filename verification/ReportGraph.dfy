/** The shape of the validation report: one node for each yielded object, numbered in the
    order of the yields, and the edges that attaching each node to its parent creates. */
module ReportGraph {
  import opened Wrappers
  import opened Sequences
  import opened StacObjects
  import opened StacCollector
  import opened StacTraversal
  import opened GraphWalk

  /** `owner` maps each URL to the node that answers for it, the latest one; `order` lists the
      URLs by first yield; `kids` lists the children attached to each node, in order. */
  datatype Graph = Graph(owner: map<Url, nat>, order: seq<Url>, kids: seq<seq<nat>>)

  /** A new node is stored under the object's URL, where it replaces an earlier one. */
  function StoreOne(g: Graph, o: CollectedObject): Graph {
    Graph(g.owner[o.url := |g.kids|], if o.url in g.owner then g.order else g.order + [o.url], g.kids + [[]])
  }

  function Store(g: Graph, batch: seq<CollectedObject>): Graph
    decreases |batch|
  {
    if batch == [] then g else Store(StoreOne(g, batch[0]), batch[1..])
  }

  /** Attaches to each object's parent, where the parent is known, the node stored under the object's URL. */
  function Attach(owner: map<Url, nat>, kids: seq<seq<nat>>, batch: seq<CollectedObject>): (r: seq<seq<nat>>)
    ensures |r| == |kids|
    decreases |batch|
  {
    if batch == [] then kids
    else
      var o := batch[0];
      if o.parentUrl.Some? && o.parentUrl.value in owner && owner[o.parentUrl.value] < |kids| && o.url in owner then
        Attach(owner, AddEdge(kids, owner[o.parentUrl.value], owner[o.url]), batch[1..])
      else Attach(owner, kids, batch[1..])
  }

  function AddBatch(g: Graph, batch: seq<CollectedObject>): Graph {
    var stored := Store(g, batch);
    stored.(kids := Attach(stored.owner, stored.kids, batch))
  }

  const EmptyGraph := Graph(map[], [], [])

  function Build(batches: seq<seq<CollectedObject>>): Graph {
    if batches == [] then EmptyGraph else AddBatch(Build(batches[..|batches| - 1]), batches[|batches| - 1])
  }

  /** The graph of a run whose first batch is the root alone. */
  function GraphAfter(root: CollectedObject, later: seq<seq<CollectedObject>>): Graph {
    if later == [] then AddBatch(EmptyGraph, [root])
    else AddBatch(GraphAfter(root, later[..|later| - 1]), later[|later| - 1])
  }

  lemma BuildLast(batches: seq<seq<CollectedObject>>)
    requires batches != []
    ensures Build(batches) == AddBatch(Build(batches[..|batches| - 1]), batches[|batches| - 1])
  {
  }

  lemma {:induction false} BuildIsGraphAfter(root: CollectedObject, later: seq<seq<CollectedObject>>)
    ensures Build([[root]] + later) == GraphAfter(root, later)
    decreases |later|
  {
    var all := [[root]] + later;
    BuildLast(all);
    if later == [] {
      assert all[..0] == [] && all[0] == [root];
    } else {
      var n := |later| - 1;
      assert all[..|all| - 1] == [[root]] + later[..n] && all[|all| - 1] == later[n];
      BuildIsGraphAfter(root, later[..n]);
    }
  }

  /** All objects of such a run, in order. */
  function ObjectsAfter(root: CollectedObject, later: seq<seq<CollectedObject>>): seq<CollectedObject> {
    [root] + Flatten(later)
  }

  lemma ObjectsAfterSnoc(root: CollectedObject, later: seq<seq<CollectedObject>>)
    requires later != []
    ensures ObjectsAfter(root, later) == ObjectsAfter(root, later[..|later| - 1]) + later[|later| - 1]
  {
    FlattenLast(later);
    Assoc([root], Flatten(later[..|later| - 1]), later[|later| - 1]);
  }

  // ---------- Distinct URLs give a tree that holds every node once ----------

  /** Every URL stands for the object that first and only carried it. */
  ghost predicate Faithful(owner: map<Url, nat>, order: seq<Url>, objs: seq<CollectedObject>) {
    && |order| == |objs|
    && (forall k :: 0 <= k < |objs| ==> order[k] == objs[k].url && objs[k].url in owner && owner[objs[k].url] == k)
    && (forall u <- owner :: exists k :: 0 <= k < |objs| && objs[k].url == u)
  }

  /** A walk from the root visits the nodes below `reached` exactly once and no others, and
      the nodes from `start` on have no children. */
  ghost predicate Spanning(kids: seq<seq<nat>>, start: nat, reached: nat) {
    && 1 <= start <= reached <= |kids| && Deep(kids, 0, reached)
    && (forall k :: start <= k < |kids| ==> kids[k] == [])
    && (forall x: nat :: Occurs(Walk(kids, 0, reached), x) == if x < reached then 1 else 0)
  }

  lemma FaithfulSnoc(g: Graph, objs: seq<CollectedObject>, o: CollectedObject)
    requires Faithful(g.owner, g.order, objs) && |g.kids| == |objs|
    requires forall k :: 0 <= k < |objs| ==> objs[k].url != o.url
    ensures Faithful(StoreOne(g, o).owner, StoreOne(g, o).order, objs + [o])
  {
    var all := objs + [o];
    assert all[|objs|] == o;
    forall u | u in StoreOne(g, o).owner ensures exists k :: 0 <= k < |all| && all[k].url == u {
      if u != o.url {
        var k :| 0 <= k < |objs| && objs[k].url == u;
        assert all[k].url == u;
      }
    }
  }

  lemma {:induction false} StoreDistinct(g: Graph, objs: seq<CollectedObject>, batch: seq<CollectedObject>)
    requires Faithful(g.owner, g.order, objs) && |g.kids| == |objs| && DistinctObjects(objs + batch)
    ensures var r := Store(g, batch);
            && Faithful(r.owner, r.order, objs + batch)
            && r.kids == g.kids + seq(|batch|, i => [])
    decreases |batch|
  {
    if batch == [] {
      assert objs + batch == objs;
    } else {
      var o := batch[0];
      assert objs + batch == objs + [o] + batch[1..];
      forall k | 0 <= k < |objs| ensures objs[k].url != o.url {
        assert (objs + batch)[k] == objs[k] && (objs + batch)[|objs|] == o;
      }
      var next := StoreOne(g, o);
      FaithfulSnoc(g, objs, o);
      StoreDistinct(next, objs + [o], batch[1..]);
      assert next.kids + seq(|batch| - 1, i => []) == g.kids + seq(|batch|, i => []);
    }
  }

  /** Each object of the batch hangs below an object before the batch. */
  ghost predicate ParentsBefore(owner: map<Url, nat>, start: nat, batch: seq<CollectedObject>) {
    forall o <- batch :: o.parentUrl.Some? && o.parentUrl.value in owner && owner[o.parentUrl.value] < start
  }

  lemma {:induction false} AttachSpans(owner: map<Url, nat>, kids: seq<seq<nat>>, start: nat, reached: nat,
                                       batch: seq<CollectedObject>)
    requires Spanning(kids, start, reached) && |kids| == reached + |batch|
    requires ParentsBefore(owner, start, batch)
    requires forall i :: 0 <= i < |batch| ==> batch[i].url in owner && owner[batch[i].url] == reached + i
    ensures Spanning(Attach(owner, kids, batch), start, |kids|)
    decreases |batch|
  {
    if batch != [] {
      var o := batch[0];
      assert o in batch;
      var p, c := owner[o.parentUrl.value], owner[o.url];
      var linked := AddEdge(kids, p, c);
      LinkAddsLeaf(kids, p, c, 0, reached, c);
      var walk := Walk(linked, 0, reached + 1);
      forall x: nat ensures Occurs(walk, x) == if x <= reached then 1 else 0 {
        LinkAddsLeaf(kids, p, c, 0, reached, x);
      }
      AttachSpans(owner, linked, start, reached + 1, batch[1..]);
    }
  }

  /** Objects anchored before the batch have their parents among the stored nodes before it. */
  lemma AnchoredParentsBefore(owner: map<Url, nat>, order: seq<Url>, objs: seq<CollectedObject>,
                              batch: seq<CollectedObject>)
    requires Faithful(owner, order, objs + batch)
    requires forall o <- batch :: Anchored(objs, o.depth, o.parentUrl)
    ensures ParentsBefore(owner, |objs|, batch)
  {
    forall o | o in batch
      ensures o.parentUrl.Some? && o.parentUrl.value in owner && owner[o.parentUrl.value] < |objs|
    {
      var p :| p in objs && o.parentUrl == Some(p.url) && p.depth + 1 == o.depth;
      var k :| 0 <= k < |objs| && objs[k] == p;
      assert (objs + batch)[k] == p;
    }
  }

  lemma AddBatchSpans(g: Graph, objs: seq<CollectedObject>, batch: seq<CollectedObject>)
    requires Faithful(g.owner, g.order, objs) && |g.kids| == |objs| && Spanning(g.kids, |objs|, |objs|)
    requires DistinctObjects(objs + batch) && forall o <- batch :: Anchored(objs, o.depth, o.parentUrl)
    ensures var r := AddBatch(g, batch);
            && Faithful(r.owner, r.order, objs + batch) && |r.kids| == |objs + batch|
            && Spanning(r.kids, |r.kids|, |r.kids|)
  {
    var stored := Store(g, batch);
    StoreDistinct(g, objs, batch);
    AnchoredParentsBefore(stored.owner, stored.order, objs, batch);
    LooseNodes(g.kids, seq(|batch|, i => []), 0, |objs|);
    forall i | 0 <= i < |batch| ensures batch[i].url in stored.owner && stored.owner[batch[i].url] == |objs| + i {
      assert (objs + batch)[|objs| + i] == batch[i];
    }
    AttachSpans(stored.owner, stored.kids, |objs|, |objs|, batch);
  }

  lemma RootBatchSpans(root: CollectedObject)
    requires root.parentUrl.None?
    ensures var g := AddBatch(EmptyGraph, [root]);
            Faithful(g.owner, g.order, [root]) && g.kids == [[]] && Spanning(g.kids, 1, 1)
  {
    var g := AddBatch(EmptyGraph, [root]);
    var next := StoreOne(EmptyGraph, root);
    assert [root][1..] == [];
    assert Store(EmptyGraph, [root]) == Store(next, []) == next;
    assert g.kids == Attach(next.owner, next.kids, []) == next.kids == [[]];
    assert Deep(g.kids, 0, 1) && Walk(g.kids, 0, 1) == [0] + [];
    assert [0][1..] == [];
  }

  /** With one root object, anchored batches and pairwise different URLs, every object has
      its own stored node and a walk from the root visits each stored node exactly once. */
  lemma {:induction false} DistinctUrlsGiveATree(root: CollectedObject, maxDepth: nat, later: seq<seq<CollectedObject>>)
    requires root.parentUrl.None? && WellFounded([root], maxDepth, later)
    requires DistinctObjects(ObjectsAfter(root, later))
    ensures var g := GraphAfter(root, later);
            && Faithful(g.owner, g.order, ObjectsAfter(root, later)) && |g.kids| == |ObjectsAfter(root, later)|
            && Spanning(g.kids, |g.kids|, |g.kids|)
    decreases |later|
  {
    if later == [] {
      assert [root] + [] == [root];
      RootBatchSpans(root);
    } else {
      var n := |later| - 1;
      var init, last := later[..n], later[n];
      ObjectsAfterSnoc(root, later);
      WellFoundedPrefix([root], maxDepth, later);
      DistinctPrefix(ObjectsAfter(root, init), last);
      DistinctUrlsGiveATree(root, maxDepth, init);
      AddBatchSpans(GraphAfter(root, init), ObjectsAfter(root, init), last);
    }
  }

  lemma FlattenLast<T>(ss: seq<seq<T>>)
    requires ss != []
    ensures Flatten(ss) == Flatten(ss[..|ss| - 1]) + ss[|ss| - 1]
  {
    var last := ss[|ss| - 1];
    assert ss == ss[..|ss| - 1] + [last];
    FlattenAppend(ss[..|ss| - 1], [last]);
    assert Flatten([last]) == last + Flatten<T>([]) == last;
  }

  lemma WellFoundedPrefix(first: seq<CollectedObject>, maxDepth: nat, later: seq<seq<CollectedObject>>)
    requires later != [] && WellFounded(first, maxDepth, later)
    ensures WellFounded(first, maxDepth, later[..|later| - 1])
    ensures forall o <- later[|later| - 1] :: Anchored(first + Flatten(later[..|later| - 1]), o.depth, o.parentUrl)
  {
    var init := later[..|later| - 1];
    forall i: int, o: CollectedObject | 0 <= i < |init| && o in init[i]
      ensures 1 <= o.depth <= maxDepth && Anchored(first + Flatten(init[..i]), o.depth, o.parentUrl)
    {
      assert init[..i] == later[..i] && o in later[i];
    }
  }

  lemma DistinctPrefix(a: seq<CollectedObject>, b: seq<CollectedObject>)
    requires DistinctObjects(a + b)
    ensures DistinctObjects(a)
  {
    forall i, j | 0 <= i < j < |a| ensures a[i].url != a[j].url {
      assert (a + b)[i] == a[i] && (a + b)[j] == a[j];
    }
  }

  // ---------- The converse: a shared URL makes the walk and the stored nodes disagree ----------

  /** What attaching a batch does: one edge for each object, under its parent's stored node. */
  lemma {:induction false} AttachEffect(owner: map<Url, nat>, kids: seq<seq<nat>>, batch: seq<CollectedObject>)
    requires forall u <- owner :: owner[u] < |kids|
    requires forall o <- batch :: o.parentUrl.Some? && o.parentUrl.value in owner && o.url in owner
    ensures var r := Attach(owner, kids, batch);
            && Edges(r) == Edges(kids) + |batch|
            && (forall k :: 0 <= k < |kids| ==> kids[k] <= r[k])
            && (forall o <- batch :: owner[o.url] in r[owner[o.parentUrl.value]])
            && (forall k :: 0 <= k < |kids| && r[k] != [] ==> kids[k] != [] || k in owner.Values)
    decreases |batch|
  {
    if batch != [] {
      var o := batch[0];
      assert o in batch;
      var p, c := owner[o.parentUrl.value], owner[o.url];
      LinkAddsEdge(kids, p, c);
      var linked := AddEdge(kids, p, c);
      AttachEffect(owner, linked, batch[1..]);
      var r := Attach(owner, kids, batch);
      assert linked[p][|kids[p]|] == c && linked[p] <= r[p];
      assert r[p][|kids[p]|] == c;
    }
  }

  function UrlSet(objs: seq<CollectedObject>): set<Url> {
    if objs == [] then {} else {objs[0].url} + UrlSet(objs[1..])
  }

  lemma {:induction false} StoreKeys(g: Graph, batch: seq<CollectedObject>)
    ensures Store(g, batch).owner.Keys == g.owner.Keys + UrlSet(batch)
    decreases |batch|
  {
    if batch != [] {
      var o := batch[0];
      var next := StoreOne(g, o);
      assert next.owner.Keys == g.owner.Keys + {o.url};
      StoreKeys(next, batch[1..]);
    }
  }

  /** Storing keeps one order entry for each known URL. */
  lemma {:induction false} StoreOrder(g: Graph, batch: seq<CollectedObject>)
    requires |g.order| == |g.owner|
    ensures |Store(g, batch).order| == |Store(g, batch).owner|
    decreases |batch|
  {
    if batch != [] {
      var o := batch[0];
      assert |StoreOne(g, o).owner| == if o.url in g.owner then |g.owner| else |g.owner| + 1;
      StoreOrder(StoreOne(g, o), batch[1..]);
    }
  }

  /** Every stored node carries the object whose URL it is stored under. */
  ghost predicate Named(owner: map<Url, nat>, objs: seq<CollectedObject>) {
    forall u <- owner :: owner[u] < |objs| && objs[owner[u]].url == u
  }

  /** Storing adds one node without children for each object; a URL keeps its node or gets a new one. */
  lemma StoreNodes(g: Graph, objs: seq<CollectedObject>, batch: seq<CollectedObject>)
    requires Named(g.owner, objs) && |g.kids| == |objs|
    ensures var r := Store(g, batch);
            && Named(r.owner, objs + batch)
            && r.kids == g.kids + seq(|batch|, i => [])
            && KeptOrNew(g.owner, r.owner, |g.kids|)
  {
    StoreKids(g, batch);
    StoreOwners(g, batch);
    StoreNames(g, objs, batch);
  }

  /** A URL keeps its node, or gets one numbered from `start` on. */
  ghost predicate KeptOrNew(before: map<Url, nat>, after: map<Url, nat>, start: nat) {
    && (forall u <- after :: after[u] >= start || (u in before && after[u] == before[u]))
    && (forall u <- before :: u in after)
  }

  lemma {:induction false} StoreKids(g: Graph, batch: seq<CollectedObject>)
    ensures Store(g, batch).kids == g.kids + seq(|batch|, i => [])
    decreases |batch|
  {
    if batch != [] {
      StoreKids(StoreOne(g, batch[0]), batch[1..]);
      assert g.kids + [[]] + seq(|batch| - 1, i => []) == g.kids + seq(|batch|, i => []);
    }
  }

  lemma {:induction false} StoreOwners(g: Graph, batch: seq<CollectedObject>)
    ensures KeptOrNew(g.owner, Store(g, batch).owner, |g.kids|)
    decreases |batch|
  {
    if batch != [] {
      StoreOwners(StoreOne(g, batch[0]), batch[1..]);
    }
  }

  lemma {:induction false} StoreNames(g: Graph, objs: seq<CollectedObject>, batch: seq<CollectedObject>)
    requires Named(g.owner, objs) && |g.kids| == |objs|
    ensures Named(Store(g, batch).owner, objs + batch)
    decreases |batch|
  {
    if batch == [] {
      assert objs + batch == objs;
    } else {
      NamedSnoc(g, objs, batch[0]);
      StoreNames(StoreOne(g, batch[0]), objs + [batch[0]], batch[1..]);
      assert objs + [batch[0]] + batch[1..] == objs + batch;
    }
  }

  lemma NamedSnoc(g: Graph, objs: seq<CollectedObject>, o: CollectedObject)
    requires Named(g.owner, objs) && |g.kids| == |objs|
    ensures Named(StoreOne(g, o).owner, objs + [o])
  {
    assert (objs + [o])[|objs|] == o;
  }

  lemma {:induction false} UrlSetMember(objs: seq<CollectedObject>, u: Url)
    ensures u in UrlSet(objs) <==> exists o <- objs :: o.url == u
  {
    if objs != [] {
      UrlSetMember(objs[1..], u);
      if o :| o in objs && o.url == u {
        assert o == objs[0] || o in objs[1..];
      }
    }
  }

  lemma {:induction false} UrlSetAppend(a: seq<CollectedObject>, b: seq<CollectedObject>)
    ensures UrlSet(a + b) == UrlSet(a) + UrlSet(b)
  {
    if a == [] {
      assert a + b == b;
    } else {
      UrlSetAppend(a[1..], b);
      assert (a + b)[1..] == a[1..] + b;
    }
  }

  /** As many different URLs as objects means that no two objects share one. */
  lemma {:induction false} UrlSetSize(objs: seq<CollectedObject>)
    ensures |UrlSet(objs)| <= |objs|
    ensures |UrlSet(objs)| == |objs| ==> DistinctObjects(objs)
  {
    if objs != [] {
      UrlSetSize(objs[1..]);
      UrlSetMember(objs[1..], objs[0].url);
    }
  }

  /** What every graph built from anchored batches keeps, whether or not URLs repeat. */
  ghost predicate Grown(g: Graph, objs: seq<CollectedObject>) {
    && |g.kids| == |objs| && Edges(g.kids) + 1 == |objs|
    && g.owner.Keys == UrlSet(objs) && |g.order| == |g.owner|
    && Named(g.owner, objs)
  }

  lemma {:induction false} EdgesOfLoose(kids: seq<seq<nat>>, n: nat)
    ensures Edges(kids + seq(n, i => [])) == Edges(kids)
    decreases n
  {
    if n == 0 {
      assert kids + seq(0, i => []) == kids;
    } else {
      EdgesOfLoose(kids, n - 1);
      EdgesAppend(kids + seq(n - 1, i => []), []);
      assert kids + seq(n, i => []) == kids + seq(n - 1, i => []) + [[]];
    }
  }

  /** The parents of anchored objects are known after the batch is stored. */
  lemma ParentsAreKnown(g: Graph, objs: seq<CollectedObject>, batch: seq<CollectedObject>)
    requires Grown(g, objs) && forall o <- batch :: Anchored(objs, o.depth, o.parentUrl)
    ensures var owner := Store(g, batch).owner;
            forall o <- batch ::
                o.parentUrl.Some? && o.parentUrl.value in g.owner && o.parentUrl.value in owner && o.url in owner
  {
    StoreKeys(g, batch);
    forall o | o in batch ensures o.parentUrl.Some? && o.parentUrl.value in g.owner && o.url in Store(g, batch).owner {
      UrlSetMember(batch, o.url);
      var p :| p in objs && o.parentUrl == Some(p.url) && p.depth + 1 == o.depth;
      UrlSetMember(objs, p.url);
    }
  }

  lemma AddBatchGrows(g: Graph, objs: seq<CollectedObject>, batch: seq<CollectedObject>)
    requires Grown(g, objs) && forall o <- batch :: Anchored(objs, o.depth, o.parentUrl)
    ensures Grown(AddBatch(g, batch), objs + batch)
  {
    var stored := Store(g, batch);
    StoreKeys(g, batch);
    StoreOrder(g, batch);
    StoreNodes(g, objs, batch);
    UrlSetAppend(objs, batch);
    EdgesOfLoose(g.kids, |batch|);
    ParentsAreKnown(g, objs, batch);
    AttachEffect(stored.owner, stored.kids, batch);
  }

  lemma {:induction false} BuildGrows(root: CollectedObject, maxDepth: nat, later: seq<seq<CollectedObject>>)
    requires root.parentUrl.None? && WellFounded([root], maxDepth, later)
    ensures Grown(GraphAfter(root, later), ObjectsAfter(root, later))
    decreases |later|
  {
    if later == [] {
      assert [root] + [] == [root];
      RootBatchSpans(root);
      StoreKeys(EmptyGraph, [root]);
      StoreOrder(EmptyGraph, [root]);
      assert [root][1..] == [];
      assert UrlSet([root]) == {root.url} + UrlSet([]) == {root.url};
      assert Edges([[]]) == 0 + Edges([]);
    } else {
      var n := |later| - 1;
      ObjectsAfterSnoc(root, later);
      WellFoundedPrefix([root], maxDepth, later);
      BuildGrows(root, maxDepth, later[..n]);
      AddBatchGrows(GraphAfter(root, later[..n]), ObjectsAfter(root, later[..n]), later[n]);
    }
  }

  /** `after` goes on from `before`: children are only appended, and an old node that still stands
      for a URL stood for it before. */
  ghost predicate Extends(before: Graph, after: Graph) {
    && |before.kids| <= |after.kids| && (forall k :: 0 <= k < |before.kids| ==> before.kids[k] <= after.kids[k])
    && forall u <- after.owner ::
        after.owner[u] < |before.kids| ==> u in before.owner && before.owner[u] == after.owner[u]
  }

  lemma AddBatchExtends(g: Graph, objs: seq<CollectedObject>, batch: seq<CollectedObject>)
    requires Grown(g, objs) && forall o <- batch :: Anchored(objs, o.depth, o.parentUrl)
    ensures Extends(g, AddBatch(g, batch))
  {
    var stored := Store(g, batch);
    StoreNodes(g, objs, batch);
    ParentsAreKnown(g, objs, batch);
    AttachEffect(stored.owner, stored.kids, batch);
    forall k | 0 <= k < |g.kids| ensures g.kids[k] <= AddBatch(g, batch).kids[k] {
      assert stored.kids[k] == g.kids[k];
    }
  }

  lemma ExtendsIsTransitive(a: Graph, b: Graph, c: Graph)
    requires Extends(a, b) && Extends(b, c)
    ensures Extends(a, c)
  {
  }

  /** The final graph extends the graph after any number of batches. */
  lemma {:induction false} GraphExtends(root: CollectedObject, maxDepth: nat, later: seq<seq<CollectedObject>>, i: nat)
    requires root.parentUrl.None? && WellFounded([root], maxDepth, later) && i <= |later|
    ensures Extends(GraphAfter(root, later[..i]), GraphAfter(root, later))
    decreases |later|
  {
    if i == |later| {
      assert later[..i] == later;
    } else {
      var n := |later| - 1;
      assert later[..n][..i] == later[..i];
      WellFoundedPrefix([root], maxDepth, later);
      GraphExtends(root, maxDepth, later[..n], i);
      BuildGrows(root, maxDepth, later[..n]);
      AddBatchExtends(GraphAfter(root, later[..n]), ObjectsAfter(root, later[..n]), later[n]);
      ExtendsIsTransitive(GraphAfter(root, later[..i]), GraphAfter(root, later[..n]), GraphAfter(root, later));
    }
  }

  /** All stored nodes and all nodes with children are visited. */
  ghost predicate Visited(g: Graph, walk: seq<nat>) {
    && (forall u <- g.owner :: g.owner[u] in walk)
    && (forall k: nat | k < |g.kids| && g.kids[k] != [] :: k in walk)
  }

  ghost predicate Closed(kids: seq<seq<nat>>, walk: seq<nat>) {
    forall p: nat, c: nat | p < |kids| && p in walk && c in kids[p] :: c in walk
  }

  /** If the final walk visits stored nodes only, then no batch replaced a visited node. */
  lemma VisitedStays(g: Graph, objs: seq<CollectedObject>, batch: seq<CollectedObject>, final: Graph, walk: seq<nat>)
    requires Grown(g, objs) && forall o <- batch :: Anchored(objs, o.depth, o.parentUrl)
    requires Extends(AddBatch(g, batch), final)
    requires Visited(g, walk) && forall x <- walk :: x in final.owner.Values
    ensures forall u <- g.owner :: u in Store(g, batch).owner && Store(g, batch).owner[u] == g.owner[u]
  {
    var stored := Store(g, batch);
    StoreNodes(g, objs, batch);
    forall u | u in g.owner ensures stored.owner[u] == g.owner[u] {
      var v :| v in final.owner && final.owner[v] == g.owner[u];
      assert v in stored.owner && stored.owner[v] == g.owner[u];
      assert v in g.owner && g.owner[v] == g.owner[u];
      assert objs[g.owner[v]].url == v && objs[g.owner[u]].url == u;
    }
  }

  /** All URLs of the batch stand for visited nodes then. */
  lemma OwnersAreVisited(g: Graph, objs: seq<CollectedObject>, batch: seq<CollectedObject>, final: Graph,
                         walk: seq<nat>)
    requires Grown(g, objs) && forall o <- batch :: Anchored(objs, o.depth, o.parentUrl)
    requires Extends(AddBatch(g, batch), final) && Closed(final.kids, walk)
    requires Visited(g, walk) && forall x <- walk :: x in final.owner.Values
    ensures forall u <- Store(g, batch).owner :: Store(g, batch).owner[u] in walk
  {
    var owner, r := Store(g, batch).owner, AddBatch(g, batch);
    VisitedStays(g, objs, batch, final, walk);
    StoreNodes(g, objs, batch);
    StoreKeys(g, batch);
    ParentsAreKnown(g, objs, batch);
    AttachEffect(owner, Store(g, batch).kids, batch);
    forall u | u in owner && u !in g.owner ensures owner[u] in walk {
      UrlSetMember(batch, u);
      var o :| o in batch && o.url == u;
      NewIsVisited(r, final, walk, owner[o.parentUrl.value], owner[u]);
    }
  }

  /** All that the batch adds is visited then. */
  lemma BatchIsVisited(g: Graph, objs: seq<CollectedObject>, batch: seq<CollectedObject>, final: Graph, walk: seq<nat>)
    requires Grown(g, objs) && forall o <- batch :: Anchored(objs, o.depth, o.parentUrl)
    requires Extends(AddBatch(g, batch), final) && Closed(final.kids, walk)
    requires Visited(g, walk) && forall x <- walk :: x in final.owner.Values
    ensures Visited(AddBatch(g, batch), walk)
  {
    OwnersAreVisited(g, objs, batch, final, walk);
    ParentsAreVisited(g, objs, batch, walk);
  }

  lemma NewIsVisited(r: Graph, final: Graph, walk: seq<nat>, p: nat, c: nat)
    requires Extends(r, final) && Closed(final.kids, walk) && p < |r.kids| && p in walk && c in r.kids[p]
    ensures c in walk
  {
    PrefixMember(r.kids[p], final.kids[p], c);
  }

  lemma ParentsAreVisited(g: Graph, objs: seq<CollectedObject>, batch: seq<CollectedObject>, walk: seq<nat>)
    requires Grown(g, objs) && forall o <- batch :: Anchored(objs, o.depth, o.parentUrl)
    requires Visited(g, walk) && forall u <- Store(g, batch).owner :: Store(g, batch).owner[u] in walk
    ensures Visited(AddBatch(g, batch), walk)
  {
    var stored, r := Store(g, batch), AddBatch(g, batch);
    StoreNodes(g, objs, batch);
    ParentsAreKnown(g, objs, batch);
    AttachEffect(stored.owner, stored.kids, batch);
    forall k: nat | k < |r.kids| && r.kids[k] != [] ensures k in walk {
      if k < |g.kids| && stored.kids[k] != [] {
        assert g.kids[k] == stored.kids[k];
      } else {
        assert k in stored.owner.Values;
      }
    }
  }

  lemma PrefixMember(a: seq<nat>, b: seq<nat>, x: nat)
    requires a <= b && x in a
    ensures x in b
  {
    var i :| 0 <= i < |a| && a[i] == x;
    assert b[i] == x;
  }

  lemma {:induction false} AllIsVisited(root: CollectedObject, maxDepth: nat, later: seq<seq<CollectedObject>>,
                                        i: nat, walk: seq<nat>)
    requires root.parentUrl.None? && WellFounded([root], maxDepth, later) && i <= |later|
    requires Closed(GraphAfter(root, later).kids, walk) && 0 in walk
    requires forall x <- walk :: x in GraphAfter(root, later).owner.Values
    ensures Visited(GraphAfter(root, later[..i]), walk)
    decreases i
  {
    if i == 0 {
      RootBatchSpans(root);
    } else {
      AllIsVisited(root, maxDepth, later, i - 1, walk);
      NextIsVisited(root, maxDepth, later, i - 1, walk);
    }
  }

  lemma NextIsVisited(root: CollectedObject, maxDepth: nat, later: seq<seq<CollectedObject>>, i: nat, walk: seq<nat>)
    requires root.parentUrl.None? && WellFounded([root], maxDepth, later) && i < |later|
    requires Closed(GraphAfter(root, later).kids, walk)
    requires forall x <- walk :: x in GraphAfter(root, later).owner.Values
    requires Visited(GraphAfter(root, later[..i]), walk)
    ensures Visited(GraphAfter(root, later[..i + 1]), walk)
  {
    var before, next := later[..i], later[..i + 1];
    assert next[..|next| - 1] == before && next[|next| - 1] == later[i];
    WellFoundedBeginning([root], maxDepth, next, later);
    WellFoundedPrefix([root], maxDepth, next);
    BuildGrows(root, maxDepth, before);
    GraphExtends(root, maxDepth, later, i + 1);
    BatchIsVisited(GraphAfter(root, before), ObjectsAfter(root, before), later[i], GraphAfter(root, later), walk);
  }

  /** The walk from the root ends and visits exactly the stored nodes, each once. */
  ghost predicate WalksStoredNodes(g: Graph, n: nat) {
    Deep(g.kids, 0, n) && forall x: nat :: Occurs(Walk(g.kids, 0, n), x) == if x in g.owner.Values then 1 else 0
  }

  lemma {:induction false} ValuesSize(m: map<Url, nat>)
    ensures |m.Values| <= |m.Keys|
    decreases |m|
  {
    if m == map[] {
      assert m.Values == {};
    } else {
      var k :| k in m;
      var rest := m - {k};
      ValuesSize(rest);
      assert rest.Keys == m.Keys - {k};
      assert m.Values <= rest.Values + {m[k]} by {
        forall x | x in m.Values ensures x in rest.Values + {m[k]} {
          var j :| j in m && m[j] == x;
          assert j != k ==> j in rest && rest[j] == x;
        }
      }
      SubsetSize(m.Values, rest.Values + {m[k]});
    }
  }

  /** The recursive walk from the root ends and visits exactly the stored nodes, each once, if and
      only if no two objects share a URL. */
  lemma WalkIsExactIffUrlsDiffer(root: CollectedObject, maxDepth: nat, later: seq<seq<CollectedObject>>)
    requires root.parentUrl.None? && WellFounded([root], maxDepth, later)
    ensures DistinctObjects([root] + Flatten(later)) <==> exists n: nat :: WalksStoredNodes(Build([[root]] + later), n)
  {
    BuildIsGraphAfter(root, later);
    var g, objs := GraphAfter(root, later), ObjectsAfter(root, later);
    if DistinctObjects(objs) {
      DistinctUrlsGiveATree(root, maxDepth, later);
      FaithfulOwnsAll(g, objs);
      assert WalksStoredNodes(g, |g.kids|);
    }
    if n: nat :| WalksStoredNodes(g, n) {
      ExactWalkMeansDistinct(root, maxDepth, later, n);
    }
  }

  lemma FaithfulOwnsAll(g: Graph, objs: seq<CollectedObject>)
    requires Faithful(g.owner, g.order, objs)
    ensures forall x: nat :: x in g.owner.Values <==> x < |objs|
  {
    forall x: nat ensures x in g.owner.Values <==> x < |objs| {
      if x < |objs| {
        assert g.owner[objs[x].url] == x;
      }
    }
  }

  lemma ExactWalkMeansDistinct(root: CollectedObject, maxDepth: nat, later: seq<seq<CollectedObject>>, n: nat)
    requires root.parentUrl.None? && WellFounded([root], maxDepth, later)
            && WalksStoredNodes(GraphAfter(root, later), n)
    ensures DistinctObjects(ObjectsAfter(root, later))
  {
    var g, objs := GraphAfter(root, later), ObjectsAfter(root, later);
    var walk := Walk(g.kids, 0, n);
    forall x: nat ensures x in walk <==> x in g.owner.Values {
      OccursIfIn(walk, x);
    }
    forall p: nat, c: nat | p < |g.kids| && p in walk && c in g.kids[p] ensures c in walk {
      WalkIsClosed(g.kids, 0, n, p, c);
    }
    BuildGrows(root, maxDepth, later);
    assert walk[0] == 0;
    AllIsVisited(root, maxDepth, later, |later|, walk);
    assert later[..|later|] == later;
    DegreesCoverEdges(g.kids, walk, |g.kids|);
    assert g.kids[..|g.kids|] == g.kids;
    WalkSize(g.kids, 0, n);
    SizeByMembership(walk, g.owner.Values);
    ValuesSize(g.owner);
    UrlSetSize(objs);
  }

  // ---------- The recursion goes no deeper than the tree ----------

  /** Children lie one level below their parents. */
  ghost predicate LevelEdges(kids: seq<seq<nat>>, objs: seq<CollectedObject>) {
    && |kids| == |objs|
    && forall p, i ::
        0 <= p < |kids| && 0 <= i < |kids[p]| ==> kids[p][i] < |objs| && objs[kids[p][i]].depth == objs[p].depth + 1
  }

  lemma {:induction false} LevelsBoundTheWalk(kids: seq<seq<nat>>, objs: seq<CollectedObject>, maxDepth: nat, k: nat,
                                              n: nat)
    requires LevelEdges(kids, objs) && (forall o <- objs :: o.depth <= maxDepth)
    requires k < |objs| && objs[k].depth + n == maxDepth + 1
    ensures Deep(kids, k, n)
    decreases n
  {
    assert objs[k] in objs;
    forall i | 0 <= i < |kids[k]| ensures Deep(kids, kids[k][i], n - 1) {
      assert objs[kids[k][i]] in objs;
      LevelsBoundTheWalk(kids, objs, maxDepth, kids[k][i], n - 1);
    }
  }

  lemma {:induction false} AttachKeepsLevels(owner: map<Url, nat>, kids: seq<seq<nat>>, objs: seq<CollectedObject>,
                                             batch: seq<CollectedObject>)
    requires LevelEdges(kids, objs)
    requires forall o <- batch :: o.parentUrl.Some? && o.parentUrl.value in owner && o.url in owner
    requires forall o <- batch :: owner[o.url] < |objs| && owner[o.parentUrl.value] < |objs|
    requires forall o <- batch :: objs[owner[o.url]].depth == objs[owner[o.parentUrl.value]].depth + 1
    ensures LevelEdges(Attach(owner, kids, batch), objs)
    decreases |batch|
  {
    if batch != [] {
      assert batch[0] in batch;
      AttachKeepsLevels(owner, AddEdge(kids, owner[batch[0].parentUrl.value], owner[batch[0].url]), objs, batch[1..]);
    }
  }

  lemma {:induction false} DistinctUrlsGiveLevels(root: CollectedObject, maxDepth: nat,
                                                  later: seq<seq<CollectedObject>>)
    requires root.parentUrl.None? && WellFounded([root], maxDepth, later)
    requires DistinctObjects(ObjectsAfter(root, later))
    ensures LevelEdges(GraphAfter(root, later).kids, ObjectsAfter(root, later))
    decreases |later|
  {
    if later == [] {
      assert [root] + [] == [root];
      RootBatchSpans(root);
    } else {
      var n := |later| - 1;
      var init, last := later[..n], later[n];
      ObjectsAfterSnoc(root, later);
      WellFoundedPrefix([root], maxDepth, later);
      DistinctPrefix(ObjectsAfter(root, init), last);
      DistinctUrlsGiveLevels(root, maxDepth, init);
      DistinctUrlsGiveATree(root, maxDepth, init);
      AddBatchKeepsLevels(GraphAfter(root, init), ObjectsAfter(root, init), last);
    }
  }

  lemma AddBatchKeepsLevels(g: Graph, objs: seq<CollectedObject>, batch: seq<CollectedObject>)
    requires Faithful(g.owner, g.order, objs) && LevelEdges(g.kids, objs)
    requires DistinctObjects(objs + batch) && forall o <- batch :: Anchored(objs, o.depth, o.parentUrl)
    ensures LevelEdges(AddBatch(g, batch).kids, objs + batch)
  {
    var stored, all := Store(g, batch), objs + batch;
    StoreDistinct(g, objs, batch);
    forall o | o in batch
      ensures o.parentUrl.Some? && o.parentUrl.value in stored.owner && o.url in stored.owner
      ensures stored.owner[o.url] < |all| && stored.owner[o.parentUrl.value] < |all|
      ensures all[stored.owner[o.url]].depth == all[stored.owner[o.parentUrl.value]].depth + 1
    {
      AnchorLevel(stored.owner, stored.order, objs, batch, o);
    }
    LooseKeepsLevels(g.kids, objs, batch);
    AttachKeepsLevels(stored.owner, stored.kids, all, batch);
  }

  lemma AnchorLevel(owner: map<Url, nat>, order: seq<Url>, objs: seq<CollectedObject>, batch: seq<CollectedObject>,
                    o: CollectedObject)
    requires Faithful(owner, order, objs + batch) && o in batch && Anchored(objs, o.depth, o.parentUrl)
    ensures o.parentUrl.Some? && o.parentUrl.value in owner && o.url in owner
    ensures owner[o.url] < |objs + batch| && owner[o.parentUrl.value] < |objs + batch|
    ensures (objs + batch)[owner[o.url]].depth == (objs + batch)[owner[o.parentUrl.value]].depth + 1
  {
    var p :| p in objs && o.parentUrl == Some(p.url) && p.depth + 1 == o.depth;
    var k :| 0 <= k < |objs| && objs[k] == p;
    var i :| 0 <= i < |batch| && batch[i] == o;
    assert (objs + batch)[k] == p && (objs + batch)[|objs| + i] == o;
  }

  lemma LooseKeepsLevels(kids: seq<seq<nat>>, objs: seq<CollectedObject>, batch: seq<CollectedObject>)
    requires LevelEdges(kids, objs)
    ensures LevelEdges(kids + seq(|batch|, i => []), objs + batch)
  {
    var more := kids + seq(|batch|, i => []);
    forall p, i | 0 <= p < |more| && 0 <= i < |more[p]|
      ensures more[p][i] < |objs + batch| && (objs + batch)[more[p][i]].depth == (objs + batch)[p].depth + 1
    {
      assert p < |kids| && more[p] == kids[p];
    }
  }

  function Plain(url: Url, depth: nat, parentUrl: Option<Url>): CollectedObject {
    CollectedObject(None, url, Unknown, None, parentUrl, depth, false)
  }

  lemma SingleBatch(g: Graph, o: CollectedObject)
    ensures var s := StoreOne(g, o);
            AddBatch(g, [o]) == s.(kids :=
              if o.parentUrl.Some? && o.parentUrl.value in s.owner && s.owner[o.parentUrl.value] < |s.kids|
              then AddEdge(s.kids, s.owner[o.parentUrl.value], |g.kids|) else s.kids)
  {
    var s := StoreOne(g, o);
    assert [o][1..] == [];
    assert Store(g, [o]) == Store(s, []) == s;
    if o.parentUrl.Some? && o.parentUrl.value in s.owner && s.owner[o.parentUrl.value] < |s.kids| {
      assert Attach(s.owner, s.kids, [o]) == Attach(s.owner, AddEdge(s.kids, s.owner[o.parentUrl.value], |g.kids|), []);
    } else {
      assert Attach(s.owner, s.kids, [o]) == Attach(s.owner, s.kids, []);
    }
  }

  lemma DoubleBatch(g: Graph, a: CollectedObject, b: CollectedObject)
    requires a.parentUrl.Some? && b.parentUrl.Some?
    requires var s := StoreOne(StoreOne(g, a), b);
             && a.parentUrl.value in s.owner && s.owner[a.parentUrl.value] < |s.kids|
             && b.parentUrl.value in s.owner && s.owner[b.parentUrl.value] < |s.kids|
    ensures var s := StoreOne(StoreOne(g, a), b);
            AddBatch(g, [a, b]) == s.(kids := AddEdge(AddEdge(s.kids, s.owner[a.parentUrl.value], s.owner[a.url]),
                                                      s.owner[b.parentUrl.value], s.owner[b.url]))
  {
    var s := StoreOne(StoreOne(g, a), b);
    assert [a, b][1..] == [b] && [b][1..] == [];
    assert Store(StoreOne(g, a), [b]) == Store(s, []) == s;
    assert Store(g, [a, b]) == Store(StoreOne(g, a), [b]);
    var kids := AddEdge(s.kids, s.owner[a.parentUrl.value], s.owner[a.url]);
    assert Attach(s.owner, kids, [b]) == Attach(s.owner, AddEdge(kids, s.owner[b.parentUrl.value], s.owner[b.url]), []);
    assert Attach(s.owner, s.kids, [a, b]) == Attach(s.owner, kids, [b]);
  }

  lemma BuildOfThree(a: seq<CollectedObject>, b: seq<CollectedObject>, c: seq<CollectedObject>)
    ensures Build([a, b, c]) == AddBatch(AddBatch(AddBatch(EmptyGraph, a), b), c)
  {
    assert [a, b, c][..2] == [a, b] && [a, b][..1] == [a] && [a][..0] == [];
    assert Build([a]) == AddBatch(Build([a][..0]), a) == AddBatch(EmptyGraph, a);
    assert Build([a, b]) == AddBatch(Build([a, b][..1]), b);
  }

  lemma RootGraph(root: CollectedObject)
    requires root.parentUrl.None?
    ensures AddBatch(EmptyGraph, [root]) == Graph(map[root.url := 0], [root.url], [[]])
  {
    SingleBatch(EmptyGraph, root);
    assert EmptyGraph.owner[root.url := 0] == map[root.url := 0];
  }

  /** A feature under the URL of its own collection becomes its own child, out of reach of the walk:
      the counts agree although two objects share a URL, and the walk visits a node that no longer
      stands for any URL. */
  lemma SharedUrlWithEqualCounts(root: Url, collection: Url)
    requires root != collection
    ensures var objs := [Plain(root, 0, None), Plain(collection, 1, Some(root)),
                         Plain(collection, 2, Some(collection))];
            var g := Build([[objs[0]], [objs[1]], [objs[2]]]);
            && !DistinctObjects(objs) && g == Graph(map[root := 0, collection := 2], [root, collection], [[1], [], [2]])
            && Deep(g.kids, 0, 2) && Walk(g.kids, 0, 2) == [0, 1] && 1 !in g.owner.Values
  {
    SelfNamedGraph(root, collection);
    var objs := [Plain(root, 0, None), Plain(collection, 1, Some(root)), Plain(collection, 2, Some(collection))];
    assert objs[1].url == objs[2].url;
    LeafWalk([[1], [], [2]], 1, 1);
    assert [0] + [1] == [0, 1];
  }

  lemma SelfNamedGraph(root: Url, collection: Url)
    requires root != collection
    ensures Build([[Plain(root, 0, None)], [Plain(collection, 1, Some(root))],
                   [Plain(collection, 2, Some(collection))]])
            == Graph(map[root := 0, collection := 2], [root, collection], [[1], [], [2]])
  {
    var r, c, f := Plain(root, 0, None), Plain(collection, 1, Some(root)), Plain(collection, 2, Some(collection));
    var g1, g2 := Graph(map[root := 0], [root], [[]]), Graph(map[root := 0, collection := 1], [root, collection],
                                                             [[1], []]);
    BuildOfThree([r], [c], [f]);
    RootGraph(r);
    SingleBatch(g1, c);
    AddEdgeIs(g1.kids + [[]], 0, 1, [[1], []]);
    assert g1.owner[collection := 1] == g2.owner && g1.order + [collection] == g2.order;
    SingleBatch(g2, f);
    AddEdgeIs(g2.kids + [[]], 2, 2, [[1], [], [2]]);
    assert g2.owner[collection := 2] == map[root := 0, collection := 2];
  }
}
