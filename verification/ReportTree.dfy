/** Which nodes hang below which in a report whose objects have URLs of their own. */
module ReportTree {
  import opened Wrappers
  import opened StacObjects
  import opened StacTraversal
  import opened StacCollector
  import opened GraphWalk
  import opened ReportGraph

  /** The children of a node are, in order, those among the first n objects that name it as their parent. */
  ghost predicate ChildrenAmong(kids: seq<seq<nat>>, objs: seq<CollectedObject>, n: nat) {
    && |kids| == |objs| >= n
    && forall p :: 0 <= p < |kids| ==>
         && (forall j, k :: 0 <= j < k < |kids[p]| ==> kids[p][j] < kids[p][k])
         && (forall i: nat :: i in kids[p] <==> i < n && objs[i].parentUrl == Some(objs[p].url))
  }

  /** The places of the objects are those under which their URLs are stored. */
  ghost predicate OwnPlaces(owner: map<Url, nat>, objs: seq<CollectedObject>) {
    && (forall k :: 0 <= k < |objs| ==> objs[k].url in owner && owner[objs[k].url] == k)
    && (forall u <- owner :: owner[u] < |objs| && objs[owner[u]].url == u)
  }

  lemma LinkNext(kids: seq<seq<nat>>, objs: seq<CollectedObject>, n: nat, p: nat)
    requires ChildrenAmong(kids, objs, n) && n < |objs| && p < |objs|
    requires forall q :: 0 <= q < |objs| ==> (objs[n].parentUrl == Some(objs[q].url) <==> q == p)
    ensures ChildrenAmong(AddEdge(kids, p, n), objs, n + 1)
  {
    var linked := AddEdge(kids, p, n);
    forall k | 0 <= k < |kids[p]| ensures kids[p][k] < n {
      assert kids[p][k] in kids[p];
    }
    forall q | 0 <= q < |kids|
      ensures forall i: nat :: i in linked[q] <==> i < n + 1 && objs[i].parentUrl == Some(objs[q].url)
    {
      assert q == p ==> linked[q] == kids[p] + [n];
    }
  }

  lemma {:induction false} AttachedChildren(owner: map<Url, nat>, kids: seq<seq<nat>>, objs: seq<CollectedObject>,
                                            n: nat)
    requires OwnPlaces(owner, objs) && ChildrenAmong(kids, objs, n)
    requires forall k :: n <= k < |objs| ==> objs[k].parentUrl.Some? && objs[k].parentUrl.value in owner
    ensures ChildrenAmong(Attach(owner, kids, objs[n..]), objs, |objs|)
    decreases |objs| - n
  {
    if n < |objs| {
      var o := objs[n];
      var p := owner[o.parentUrl.value];
      assert objs[n..][0] == o && objs[n..][1..] == objs[n + 1..];
      LinkNext(kids, objs, n, p);
      AttachedChildren(owner, AddEdge(kids, p, n), objs, n + 1);
    }
  }

  lemma FaithfulPlaces(owner: map<Url, nat>, order: seq<Url>, objs: seq<CollectedObject>)
    requires Faithful(owner, order, objs)
    ensures OwnPlaces(owner, objs)
  {
  }

  lemma LooseChildren(kids: seq<seq<nat>>, objs: seq<CollectedObject>, batch: seq<CollectedObject>)
    requires ChildrenAmong(kids, objs, |objs|) && DistinctObjects(objs + batch)
    ensures ChildrenAmong(kids + seq(|batch|, i => []), objs + batch, |objs|) || exists b <- batch :: LeadsBack(objs, b)
  {
    var all, more := objs + batch, kids + seq(|batch|, i => []);
    if !exists b <- batch :: LeadsBack(objs, b) {
      forall p | 0 <= p < |more|
        ensures forall j, k :: 0 <= j < k < |more[p]| ==> more[p][j] < more[p][k]
        ensures forall i: nat :: i in more[p] <==> i < |objs| && all[i].parentUrl == Some(all[p].url)
      {
        if p >= |objs| {
          assert all[p] in batch && more[p] == [];
          assert !LeadsBack(objs, all[p]);
        } else {
          assert more[p] == kids[p] && all[p] == objs[p];
        }
      }
    }
  }

  /** An earlier object names this one as its parent. */
  ghost predicate LeadsBack(objs: seq<CollectedObject>, b: CollectedObject) {
    exists o <- objs :: o.parentUrl == Some(b.url)
  }

  /** With one root, anchored batches and different URLs, no object names a later one as its parent. */
  ghost predicate ParentsCameBefore(objs: seq<CollectedObject>) {
    forall i: nat :: i < |objs| && objs[i].parentUrl.Some? ==>
      exists k: nat :: k < i && objs[i].parentUrl == Some(objs[k].url)
  }

  lemma ParentsCame(objs: seq<CollectedObject>, batch: seq<CollectedObject>)
    requires ParentsCameBefore(objs) && forall o <- batch :: Anchored(objs, o.depth, o.parentUrl)
    ensures ParentsCameBefore(objs + batch)
  {
    var all := objs + batch;
    forall i: nat | i < |all| && all[i].parentUrl.Some?
      ensures exists k: nat :: k < i && all[i].parentUrl == Some(all[k].url) {
      if i < |objs| {
        var k: nat :| k < i && objs[i].parentUrl == Some(objs[k].url);
        assert all[k] == objs[k];
      } else {
        assert all[i] in batch;
        var p :| p in objs && all[i].parentUrl == Some(p.url) && p.depth + 1 == all[i].depth;
        var k: nat :| k < |objs| && objs[k] == p;
        assert all[k] == p;
      }
    }
  }

  lemma UrlsApart(objs: seq<CollectedObject>, batch: seq<CollectedObject>, k: nat, m: nat)
    requires DistinctObjects(objs + batch) && k < |objs| && m < |batch|
    ensures objs[k].url != batch[m].url
  {
    assert (objs + batch)[k] == objs[k] && (objs + batch)[|objs| + m] == batch[m];
  }

  lemma NothingLeadsBack(objs: seq<CollectedObject>, batch: seq<CollectedObject>)
    requires ParentsCameBefore(objs) && DistinctObjects(objs + batch)
    ensures forall b <- batch :: !LeadsBack(objs, b)
  {
    forall b | b in batch ensures !LeadsBack(objs, b) {
      if o :| o in objs && o.parentUrl == Some(b.url) {
        var i: nat :| i < |objs| && objs[i] == o;
        var k: nat :| k < i && objs[i].parentUrl == Some(objs[k].url);
        var m: nat :| m < |batch| && batch[m] == b;
        UrlsApart(objs, batch, k, m);
      }
    }
  }

  lemma AddBatchChildren(g: Graph, objs: seq<CollectedObject>, batch: seq<CollectedObject>)
    requires Faithful(g.owner, g.order, objs) && ChildrenAmong(g.kids, objs, |objs|) && ParentsCameBefore(objs)
    requires DistinctObjects(objs + batch) && forall o <- batch :: Anchored(objs, o.depth, o.parentUrl)
    ensures ChildrenAmong(AddBatch(g, batch).kids, objs + batch, |objs + batch|)
  {
    var stored, all := Store(g, batch), objs + batch;
    StoreDistinct(g, objs, batch);
    FaithfulPlaces(stored.owner, stored.order, all);
    NothingLeadsBack(objs, batch);
    LooseChildren(g.kids, objs, batch);
    AnchoredParentsBefore(stored.owner, stored.order, objs, batch);
    assert all[|objs|..] == batch;
    forall k | |objs| <= k < |all| ensures all[k].parentUrl.Some? && all[k].parentUrl.value in stored.owner {
      assert all[k] in batch;
    }
    AttachedChildren(stored.owner, stored.kids, all, |objs|);
  }

  lemma LoneRoot(root: CollectedObject, kids: seq<seq<nat>>)
    requires root.parentUrl.None? && |kids| == 1 && kids[0] == []
    ensures ChildrenAmong(kids, [root], 1) && ParentsCameBefore([root])
  {
    forall i: nat ensures i in kids[0] <==> i < 1 && [root][i].parentUrl == Some(root.url) {
      assert i < 1 ==> [root][i] == root;
    }
  }

  /** Each node has below it, in order, exactly the nodes of the objects that name its URL as their parent's. */
  lemma {:induction false} ChildrenAreExact(root: CollectedObject, maxDepth: nat, later: seq<seq<CollectedObject>>)
    requires root.parentUrl.None? && WellFounded([root], maxDepth, later)
    requires DistinctObjects(ObjectsAfter(root, later))
    ensures var objs := ObjectsAfter(root, later);
            ChildrenAmong(GraphAfter(root, later).kids, objs, |objs|) && ParentsCameBefore(objs)
    decreases |later|
  {
    if later == [] {
      assert [root] + [] == [root];
      RootBatchSpans(root);
      LoneRoot(root, GraphAfter(root, []).kids);
    } else {
      var n := |later| - 1;
      var init, last := later[..n], later[n];
      ObjectsAfterSnoc(root, later);
      WellFoundedPrefix([root], maxDepth, later);
      DistinctPrefix(ObjectsAfter(root, init), last);
      ChildrenAreExact(root, maxDepth, init);
      DistinctUrlsGiveATree(root, maxDepth, init);
      AddBatchChildren(GraphAfter(root, init), ObjectsAfter(root, init), last);
      ParentsCame(ObjectsAfter(root, init), last);
    }
  }
}
