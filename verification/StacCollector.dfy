/** Collecting a whole tree: fetch the root, decide between static links and API endpoints, search. */
module StacCollector {
  import opened Wrappers
  import opened Sequences
  import opened StacObjects
  import opened BreadthFirst
  import opened StacTraversal

  function RootEntry(rootUrl: Url): QueueEntry {
    QueueEntry(rootUrl, 0, None, None)
  }

  predicate HasRel(links: seq<Link>, rel: string) {
    exists i :: 0 <= i < |links| && links[i].Link? && links[i].rel == rel
  }

  /** Whether the root advertises an API; None where reading its links raises. */
  function IsApiCatalog(data: Doc): Option<bool> {
    if data.conformsTo then Some(true)
    else if data.links.None? then None
    else Some(HasRel(data.links.value, "data"))
  }

  /** The collections endpoints of an API root; None where reading or resolving the links raises. */
  function CollectionsEndpoints(net: Net, root: Url, raw: Option<Doc>): Option<seq<Url>> {
    if raw.Some? && raw.value.links.None? then None
    else
      match (if raw.None? then Some([]) else Hrefs(net, root, raw.value.links.value, {"data"}))
      case None => None
      case Some(urls) => Some(if urls == [] then [Url(RStripSlash(root.text) + "/collections")] else urls)
  }

  /** What the collector does once the root has been fetched: nothing more, fail, or search. */
  datatype Plan = Stop | Raise | Explore(s: Search, seeds: seq<QueueEntry>, visited: set<Url>)

  function ApiPlan(net: Net, pin: Option<Url>, maxDepth: nat, collectChildren: bool, maxObjects: int,
                   root: CollectedObject, raw: Option<Doc>): Plan {
    match CollectionsEndpoints(net, root.url, raw)
    case None => Raise
    case Some(endpoints) =>
      var s := ApiSearch(net, pin, maxDepth, collectChildren, maxObjects);
      var seeds := EntriesAt(endpoints, 1, Some(Catalog), Some(root.url));
      if !collectChildren || root.data.None? then Explore(s, seeds, {root.url})
      else match StaticChildren(net, root.data.value, root.url, root.depth, root.objType)
        case None => Raise
        case Some(children) => Explore(s, seeds + Unseen(children, {root.url}, {}), {root.url})
  }

  function TreePlan(net: Net, rootUrl: Url, maxDepth: nat, collectChildren: bool, maxObjects: int, got: Fetched): Plan {
    if got.raised then Raise
    else if !collectChildren || got.objs == [] || got.objs[0].data.None? then Stop
    else
      var root := got.objs[0];
      match IsApiCatalog(root.data.value)
      case None => Raise
      case Some(true) => ApiPlan(net, Some(rootUrl), maxDepth, collectChildren, maxObjects, root, got.raw)
      case Some(false) =>
        match StaticChildren(net, root.data.value, root.url, 0, root.objType)
        case None => Raise
        case Some(children) => Explore(StaticSearch(net, rootUrl, maxDepth, maxObjects),
                                       Unseen(children, {rootUrl}, {}), {rootUrl})
  }

  /** The collector raises: at the root, or in the fetch of an entry of the search. */
  ghost predicate Aborts(plan: Plan) {
    plan.Raise? || (plan.Explore? && AnyRaises(plan.s, Fifo(plan.s, plan.seeds, plan.visited)))
  }

  /** The objects that the one-at-a-time search of a plan yields. */
  function Outcome(plan: Plan): seq<CollectedObject> {
    if plan.Explore? then Objects(plan.s, Fifo(plan.s, plan.seeds, plan.visited)) else []
  }

  /** The search of a plan starts from entries one level below the root and stays layered. */
  ghost predicate Sound(plan: Plan, root: CollectedObject, maxDepth: nat) {
    plan.Explore? ==> Layered(plan.s, maxDepth) && Ready([root], maxDepth, plan.seeds)
  }

  lemma ApiPlanIsSound(net: Net, pin: Option<Url>, maxDepth: nat, collectChildren: bool, maxObjects: int,
                       root: CollectedObject, raw: Option<Doc>)
    requires maxDepth >= 1 && root.depth == 0
    ensures Sound(ApiPlan(net, pin, maxDepth, collectChildren, maxObjects, root, raw), root, maxDepth)
  {
    ApiSearchIsLayered(net, pin, maxDepth, collectChildren, maxObjects);
    var plan := ApiPlan(net, pin, maxDepth, collectChildren, maxObjects, root, raw);
    if root.data.Some? && StaticChildren(net, root.data.value, root.url, root.depth, root.objType).Some? {
      UnseenKeeps(StaticChildren(net, root.data.value, root.url, root.depth, root.objType).value, {root.url}, {});
    }
    if plan.Explore? {
      forall e | e in plan.seeds ensures 1 <= e.depth <= maxDepth && Anchored([root], e.depth, e.parentUrl) {
        assert root in [root] && e.parentUrl == Some(root.url);
      }
    }
  }

  lemma TreePlanIsSound(net: Net, rootUrl: Url, maxDepth: nat, collectChildren: bool, maxObjects: int, got: Fetched)
    requires maxDepth >= 1 && got == FetchObjects(net, RootEntry(rootUrl))
    ensures got.objs != []
            ==> Sound(TreePlan(net, rootUrl, maxDepth, collectChildren, maxObjects, got), got.objs[0], maxDepth)
  {
    FetchedSitWithEntry(net, RootEntry(rootUrl));
    if got.objs != [] && got.objs[0].data.Some? {
      var root := got.objs[0];
      assert root.depth == 0;
      ApiPlanIsSound(net, Some(rootUrl), maxDepth, collectChildren, maxObjects, root, got.raw);
      StaticSearchIsLayered(net, rootUrl, maxDepth, maxObjects);
      var children := StaticChildren(net, root.data.value, root.url, 0, root.objType);
      if children.Some? {
        UnseenKeeps(children.value, {rootUrl}, {});
        forall e | e in Unseen(children.value, {rootUrl}, {})
          ensures 1 <= e.depth <= maxDepth && Anchored([root], e.depth, e.parentUrl) {
          assert root in [root] && e.parentUrl == Some(root.url);
        }
      }
    }
  }

  /** The batches of a plan when `room` entries are fetched at a time. */
  function Batches(plan: Plan, room: int): seq<seq<CollectedObject>> {
    if plan.Explore? then Yielded(plan.s, Completed(plan.s, Rounds(plan.s, room, plan.seeds, plan.visited, {}))) else []
  }

  /** The batches are those of the plan: all of them, or the beginning up to a fetch that raises. */
  ghost predicate Follows(batches: seq<seq<CollectedObject>>, raised: bool, plan: Plan, room: int) {
    && batches == Batches(plan, room)
    && (raised <==> Aborts(plan))
    && (if raised then Flatten(batches) <= Outcome(plan) else Flatten(batches) == Outcome(plan))
  }

  method RunSearch(s: Search, room: int, queue: seq<QueueEntry>,
                   visited: set<Url>, ghost root: CollectedObject, ghost maxDepth: nat)
    returns (batches: seq<seq<CollectedObject>>, raised: bool)
    requires room >= 1 && Layered(s, maxDepth) && Ready([root], maxDepth, queue)
    ensures Follows(batches, raised, Explore(s, queue, visited), room) && WellFounded([root], maxDepth, batches)
  {
    BatchesAreWellFounded(Explore(s, queue, visited), room, root, maxDepth);
    var seen;
    batches, seen, raised := BfsBatches(s, room, queue, visited);
  }

  lemma BatchesAreWellFounded(plan: Plan, room: int, root: CollectedObject, maxDepth: nat)
    requires Sound(plan, root, maxDepth)
    ensures WellFounded([root], maxDepth, Batches(plan, room))
  {
    if plan.Explore? {
      var s := plan.s;
      RoundsAreWellFounded(s, maxDepth, room, plan.seeds, plan.visited, {}, [root]);
      var rounds := Rounds(s, room, plan.seeds, plan.visited, {});
      CompletedIffNoneRaises(s, rounds);
      YieldedPrefix(s, Completed(s, rounds), rounds);
      WellFoundedBeginning([root], maxDepth, Yielded(s, Completed(s, rounds)), Yielded(s, rounds));
    }
  }

  lemma WellFoundedBeginning(first: seq<CollectedObject>, maxDepth: nat, a: seq<seq<CollectedObject>>,
                             b: seq<seq<CollectedObject>>)
    requires a <= b && WellFounded(first, maxDepth, b)
    ensures WellFounded(first, maxDepth, a)
  {
    forall i: int, o: CollectedObject | 0 <= i < |a| && o in a[i]
      ensures 1 <= o.depth <= maxDepth && Anchored(first + Flatten(a[..i]), o.depth, o.parentUrl)
    {
      assert a[..i] == b[..i] && a[i] == b[i];
    }
  }

  /** Walks an API root that the caller already fetched and yielded. */
  method ReadStacApi(net: Net, pin: Option<Url>, maxDepth: nat, collectChildren: bool, maxObjects: int, room: int,
                     root: CollectedObject, raw: Option<Doc>)
    returns (batches: seq<seq<CollectedObject>>, raised: bool)
    requires room >= 1 && maxDepth >= 1 && root.depth == 0
    ensures Follows(batches, raised, ApiPlan(net, pin, maxDepth, collectChildren, maxObjects, root, raw), room)
    ensures WellFounded([root], maxDepth, batches)
  {
    batches, raised := [], false;
    ghost var plan := ApiPlan(net, pin, maxDepth, collectChildren, maxObjects, root, raw);
    var endpoints := CollectionsEndpoints(net, root.url, raw);
    if endpoints.None? {
      raised := true;
      return;
    }
    var visited := {root.url};
    var queue := EntriesAt(endpoints.value, 1, Some(Catalog), Some(root.url));
    if collectChildren && root.data.Some? {
      var children := StaticChildren(net, root.data.value, root.url, root.depth, root.objType);
      if children.None? {
        raised := true;
        return;
      }
      queue := QueueUnseen(children.value, queue, visited, {});
    }
    var s := ApiSearch(net, pin, maxDepth, collectChildren, maxObjects);
    assert plan == Explore(s, queue, visited);
    ApiPlanIsSound(net, pin, maxDepth, collectChildren, maxObjects, root, raw);
    batches, raised := RunSearch(s, room, queue, visited, root, maxDepth);
  }

  /** Walks an API whose root is fetched and yielded here, as the first batch. */
  method ReadStacApiFrom(net: Net, url: Url, pin: Option<Url>, maxDepth: nat, collectChildren: bool, maxObjects: int,
                         room: int)
    returns (batches: seq<seq<CollectedObject>>, raised: bool)
    requires room >= 1 && maxDepth >= 1
    ensures var got := FetchObjects(net, RootEntry(url));
            if got.raised then raised && batches == []
            else
              && |batches| >= 1 && batches[0] == got.objs
              && WellFounded(batches[0], maxDepth, batches[1..])
              && if got.objs == [] || got.objs[0].data.None? then !raised && |batches| == 1
                 else Follows(batches[1..], raised,
                              ApiPlan(net, pin, maxDepth, collectChildren, maxObjects, got.objs[0], got.raw), room)
  {
    var got := FetchObjects(net, RootEntry(url));
    if got.raised {
      return [], true;
    }
    FetchedSitWithEntry(net, RootEntry(url));
    batches, raised := [got.objs], false;
    if got.objs == [] || got.objs[0].data.None? {
      return;
    }
    var more;
    more, raised := ReadStacApi(net, pin, maxDepth, collectChildren, maxObjects, room, got.objs[0], got.raw);
    RootStandsForItsBatch(got.objs[0], got.objs, maxDepth, more);
    batches := batches + more;
    assert batches[1..] == more;
  }

  /** The first batch holds the objects of the root, the later ones follow the plan; nothing where the
      root's page raises. */
  ghost predicate Collected(batches: seq<seq<CollectedObject>>, raised: bool, net: Net, rootUrl: Url, maxDepth: nat,
                            collectChildren: bool, maxObjects: int, room: int) {
    var got := FetchObjects(net, RootEntry(rootUrl));
    if got.raised then raised && batches == []
    else
      && |batches| >= 1 && batches[0] == got.objs
      && WellFounded(batches[0], maxDepth, batches[1..])
      && Follows(batches[1..], raised, TreePlan(net, rootUrl, maxDepth, collectChildren, maxObjects, got), room)
  }

  /** The tree below `rootUrl`: the root's own batch first, then the batches of the search. `raised`
      is set where the source raises, after it has yielded the batches given here. */
  method CollectStacTree(net: Net, rootUrl: Url, maxDepth: nat, collectChildren: bool, maxObjects: int, room: int)
    returns (batches: seq<seq<CollectedObject>>, raised: bool)
    requires room >= 1 && maxDepth >= 1
    ensures Collected(batches, raised, net, rootUrl, maxDepth, collectChildren, maxObjects, room)
  {
    var got := FetchObjects(net, RootEntry(rootUrl));
    if got.raised {
      return [], true;
    }
    FetchedSitWithEntry(net, RootEntry(rootUrl));
    batches, raised := [got.objs], false;
    if !collectChildren || got.objs == [] {
      return;
    }
    var root := got.objs[0];
    if root.data.None? {
      return;
    }
    TreePlanIsSound(net, rootUrl, maxDepth, collectChildren, maxObjects, got);
    var api := IsApiCatalog(root.data.value);
    if api.None? {
      raised := true;
      return;
    }
    var more: seq<seq<CollectedObject>>;
    if api.value {
      more, raised := ReadStacApi(net, Some(rootUrl), maxDepth, collectChildren, maxObjects, room, root, got.raw);
    } else {
      var children := StaticChildren(net, root.data.value, root.url, 0, root.objType);
      if children.None? {
        raised := true;
        return;
      }
      var visited := {rootUrl};
      var queue := QueueUnseen(children.value, [], visited, {});
      assert queue == Unseen(children.value, {rootUrl}, {});
      more, raised := RunSearch(StaticSearch(net, rootUrl, maxDepth, maxObjects), room, queue, visited, root, maxDepth);
    }
    RootStandsForItsBatch(root, got.objs, maxDepth, more);
    batches := batches + more;
    assert batches[1..] == more;
  }

  // ---------- Which documents make the collector raise ----------

  /** The links of the root object, or for an API those of its page, cannot be read or resolved. */
  ghost predicate RootRaises(net: Net, root: CollectedObject, raw: Doc)
    requires root.data.Some?
  {
    var links := root.data.value.links;
    || links.None?
    || Unresolvable(net, root.url, links.value, {"child", "item"})
    || (IsApiCatalog(root.data.value) == Some(true)
        && (raw.links.None? || Unresolvable(net, root.url, raw.links.value, {"data"})))
  }

  /** The collector raises exactly when the root's page raises, when children are collected and the
      root's links raise, or when the search fetches an items page with a feature whose links raise. */
  lemma CollectorRaisesIff(net: Net, rootUrl: Url, maxDepth: nat, collectChildren: bool, maxObjects: int)
    ensures var got := FetchObjects(net, RootEntry(rootUrl));
            var plan := TreePlan(net, rootUrl, maxDepth, collectChildren, maxObjects, got);
            Aborts(plan) <==>
              || PageRaises(net, rootUrl)
              || (collectChildren && got.objs != [] && got.objs[0].data.Some? && got.raw.Some?
                  && RootRaises(net, got.objs[0], got.raw.value))
              || (plan.Explore? && exists e <- Fifo(plan.s, plan.seeds, plan.visited) :: PageRaises(net, e.url))
  {
    var got := FetchObjects(net, RootEntry(rootUrl));
    var plan := TreePlan(net, rootUrl, maxDepth, collectChildren, maxObjects, got);
    FetchRaisesIff(net, RootEntry(rootUrl));
    DataComesWithPage(net, RootEntry(rootUrl));
    if got.objs != [] && got.objs[0].data.Some? {
      var root, raw := got.objs[0], got.raw.value;
      if root.data.value.links.Some? {
        HrefsRaiseIff(net, root.url, root.data.value.links.value, {"child", "item"});
      }
      if raw.links.Some? {
        HrefsRaiseIff(net, root.url, raw.links.value, {"data"});
      }
    }
    if plan.Explore? {
      WalkFetches(net, rootUrl, maxDepth, collectChildren, maxObjects, got);
      SearchRaisesIff(net, plan.s, Fifo(plan.s, plan.seeds, plan.visited));
    }
  }

  // ---------- Which roots answer with no object ----------

  /** The root answers with a listing of collections, or with an items page without features. */
  predicate HoldsNothing(net: Net, url: Url) {
    match net.read(url)
    case Parsed(data) =>
      data.collections.Some? || (data.kind == "FeatureCollection" && (data.features.None? || data.features.value == []))
    case _ => false
  }

  lemma RootIsEmptyIff(net: Net, rootUrl: Url)
    ensures var got := FetchObjects(net, RootEntry(rootUrl));
            got.objs == [] && !got.raised <==> HoldsNothing(net, rootUrl)
  {
    match net.read(rootUrl)
    case Parsed(data) =>
      FeaturesAreKept(net, RootEntry(rootUrl), if data.features.Some? then data.features.value else [], 0);
    case _ =>
  }

  /** A page that can be read gives one object for each of its features. */
  lemma {:induction false} FeaturesAreKept(net: Net, e: QueueEntry, features: seq<Option<Doc>>, index: nat)
    ensures var objs := FeatureObjects(net, e, features, index); objs.Some? ==> |objs.value| == |features|
    decreases |features|
  {
    if features != [] {
      FeaturesAreKept(net, e, features[1..], index + 1);
    }
  }

  lemma DataComesWithPage(net: Net, e: QueueEntry)
    ensures var got := FetchObjects(net, e);
            (got.raised ==> got.objs == []) && (got.objs != [] && got.objs[0].data.Some? ==> got.raw.Some?)
  {
  }

  lemma WalkFetches(net: Net, rootUrl: Url, maxDepth: nat, collectChildren: bool, maxObjects: int, got: Fetched)
    requires TreePlan(net, rootUrl, maxDepth, collectChildren, maxObjects, got).Explore?
    ensures forall e ::
            TreePlan(net, rootUrl, maxDepth, collectChildren, maxObjects, got).s.fetch(e) == FetchObjects(net, e)
  {
  }

  lemma {:induction false} SearchRaisesIff(net: Net, s: Search, entries: seq<QueueEntry>)
    requires forall e <- entries :: s.fetch(e) == FetchObjects(net, e)
    ensures AnyRaises(s, entries) <==> exists e <- entries :: PageRaises(net, e.url)
  {
    forall i | 0 <= i < |entries| ensures s.fetch(entries[i]).raised <==> PageRaises(net, entries[i].url) {
      assert entries[i] in entries;
      FetchRaisesIff(net, entries[i]);
    }
    if e :| e in entries && PageRaises(net, e.url) {
      var i :| 0 <= i < |entries| && entries[i] == e;
      assert s.fetch(entries[i]).raised;
    }
  }

  /** One feature with `links: null` on a linked items page is enough. */
  lemma NullLinksOfAFeatureAbort(net: Net, rootUrl: Url, root: Doc, href: string, page: Url, paged: Doc,
                                 feature: Doc, maxDepth: nat, maxObjects: int)
    requires net.read(rootUrl) == Parsed(root) && root.kind == "Catalog" && root.collections.None? && !root.conformsTo
    requires root.links == Some([Link("item", href)]) && href != "" && net.join(rootUrl, href) == Some(page)
    requires page != rootUrl && net.sameHost(rootUrl, page) && maxObjects >= 2
    requires net.read(page) == Parsed(paged) && paged.kind == "FeatureCollection" && paged.collections.None?
    requires paged.features == Some([Some(feature)]) && feature.links.None?
    ensures Aborts(TreePlan(net, rootUrl, maxDepth, true, maxObjects, FetchObjects(net, RootEntry(rootUrl))))
  {
    var got := FetchObjects(net, RootEntry(rootUrl));
    assert [Link("item", href)][1..] == [];
    assert Hrefs(net, rootUrl, [], {"child", "item"}) == Some([]);
    var links := root.links.value;
    assert Selected(links[0], {"child", "item"}) && links[1..] == [] && [page] + [] == [page];
    assert Hrefs(net, rootUrl, links, {"child", "item"}) == Some([page]);
    var e := QueueEntry(page, 1, Some(Catalog), Some(rootUrl));
    var found := EntriesAt([page], 1, Some(Catalog), Some(rootUrl));
    assert [page][1..] == [] && EntriesAt([], 1, Some(Catalog), Some(rootUrl)) == [];
    assert found == [e] + EntriesAt([page][1..], 1, Some(Catalog), Some(rootUrl));
    assert Unseen([e], {rootUrl}, {}) == [e] by {
      assert [e][1..] == [];
    }
    var plan := TreePlan(net, rootUrl, maxDepth, true, maxObjects, got);
    assert plan == Explore(StaticSearch(net, rootUrl, maxDepth, maxObjects), [e], {rootUrl});
    assert RaisesAt(net, page, paged.features.value, 0);
    FetchRaisesIff(net, e);
    FifoLive(plan.s, e, [], {rootUrl});
    assert [e] + [] == [e];
    assert Fifo(plan.s, [e], {rootUrl})[0] == e;
  }

  lemma RootStandsForItsBatch(root: CollectedObject, first: seq<CollectedObject>, maxDepth: nat,
                              more: seq<seq<CollectedObject>>)
    requires root in first && WellFounded([root], maxDepth, more)
    ensures WellFounded(first, maxDepth, more)
  {
    forall i: int, o: CollectedObject | 0 <= i < |more| && o in more[i]
      ensures 1 <= o.depth <= maxDepth && Anchored(first + Flatten(more[..i]), o.depth, o.parentUrl)
    {
      assert Anchored([root] + Flatten(more[..i]), o.depth, o.parentUrl);
      var p :| p in [root] + Flatten(more[..i]) && o.parentUrl == Some(p.url) && p.depth + 1 == o.depth;
      assert p in first + Flatten(more[..i]);
    }
  }

  // ---------- Following parents always reaches the root ----------

  /** Each object of the chain is the parent of the one before it, one level up. */
  ghost predicate ParentChain(chain: seq<CollectedObject>) {
    forall k :: 0 <= k < |chain| - 1 ==>
      chain[k].parentUrl == Some(chain[k + 1].url) && chain[k].depth == chain[k + 1].depth + 1
  }

  lemma {:induction false} ParentsReachTheRoot(first: seq<CollectedObject>, maxDepth: nat,
                                               later: seq<seq<CollectedObject>>, i: nat, o: CollectedObject)
    returns (chain: seq<CollectedObject>)
    requires WellFounded(first, maxDepth, later) && forall r <- first :: r.depth == 0
    requires i < |later| && o in later[i]
    ensures |chain| == o.depth + 1 && chain[0] == o && chain[o.depth] in first
    ensures ParentChain(chain)
    ensures forall c <- chain :: c in first || c in Flatten(later[..i + 1])
    decreases o.depth
  {
    var p := Parent(first, maxDepth, later, i, o);
    YieldedBy(later, i, i + 1, o);
    if p in first {
      chain := [o, p];
    } else {
      var j := YieldedIn(later, i, p);
      var up := ParentsReachTheRoot(first, maxDepth, later, j, p);
      chain := [o] + up;
      YieldedStays(later, j + 1, i + 1);
    }
  }

  lemma Parent(first: seq<CollectedObject>, maxDepth: nat, later: seq<seq<CollectedObject>>, i: nat, o: CollectedObject)
    returns (p: CollectedObject)
    requires WellFounded(first, maxDepth, later) && i < |later| && o in later[i]
    ensures o.parentUrl == Some(p.url) && p.depth + 1 == o.depth && (p in first || p in Flatten(later[..i]))
  {
    assert Anchored(first + Flatten(later[..i]), o.depth, o.parentUrl);
    p :| p in first + Flatten(later[..i]) && o.parentUrl == Some(p.url) && p.depth + 1 == o.depth;
  }

  lemma YieldedStays(batches: seq<seq<CollectedObject>>, m: nat, n: nat)
    requires m <= n <= |batches|
    ensures forall o :: o in Flatten(batches[..m]) ==> o in Flatten(batches[..n])
  {
    assert batches[..n] == batches[..m] + batches[m..n];
    FlattenAppend(batches[..m], batches[m..n]);
  }

  lemma YieldedIn(batches: seq<seq<CollectedObject>>, n: nat, o: CollectedObject) returns (i: nat)
    requires n <= |batches| && o in Flatten(batches[..n])
    ensures i < n && o in batches[i]
  {
    FlattenMember(batches[..n], o);
    i :| 0 <= i < n && o in batches[..n][i];
  }

  lemma YieldedBy(batches: seq<seq<CollectedObject>>, i: nat, n: nat, o: CollectedObject)
    requires i < n <= |batches| && o in batches[i]
    ensures o in Flatten(batches[..n])
  {
    FlattenMember(batches[..n], o);
    assert o in batches[..n][i];
  }

  // ---------- Without item pages every object has its own URL ----------

  ghost predicate DistinctObjects(objs: seq<CollectedObject>) {
    forall i, j :: 0 <= i < j < |objs| ==> objs[i].url != objs[j].url
  }

  /** The URL does not answer with a page of features. */
  predicate NotAPage(net: Net, u: Url) {
    match net.read(u)
    case Parsed(data) => data.collections.Some? || data.kind != "FeatureCollection"
    case _ => true
  }

  lemma {:induction false} PagelessObjectsKeepEntryUrls(net: Net, s: Search, entries: seq<QueueEntry>)
    requires forall e <- entries :: s.fetch(e) == FetchObjects(net, e) && NotAPage(net, e.url)
    requires DistinctUrls(entries)
    ensures forall o <- Objects(s, entries) :: exists e <- entries :: o.url == e.url
    ensures DistinctObjects(Objects(s, entries))
    decreases |entries|
  {
    if entries != [] {
      var rest := Objects(s, entries[1..]);
      PagelessObjectsKeepEntryUrls(net, s, entries[1..]);
      assert |s.fetch(entries[0]).objs| <= 1;
      forall o | o in rest ensures o.url != entries[0].url && exists e <- entries :: o.url == e.url {
        var e :| e in entries[1..] && o.url == e.url;
        assert e in entries;
      }
    }
  }

  lemma PagelessWalkIsDistinct(net: Net, s: Search, seeds: seq<QueueEntry>, visited: set<Url>)
    requires forall e <- Fifo(s, seeds, visited) :: s.fetch(e) == FetchObjects(net, e) && NotAPage(net, e.url)
    ensures var objs := Objects(s, Fifo(s, seeds, visited)); DistinctObjects(objs) && forall o <- objs ::
            o.url !in visited
  {
    var fetched := Fifo(s, seeds, visited);
    FifoIsBounded(s, seeds, visited);
    PagelessObjectsKeepEntryUrls(net, s, fetched);
    forall o | o in Objects(s, fetched) ensures o.url !in visited {
      var e :| e in fetched && o.url == e.url;
    }
  }

  /** A catalog whose root and fetched URLs are no item pages yields pairwise different URLs. */
  lemma PagelessTreesHaveDistinctUrls(net: Net, rootUrl: Url, maxDepth: nat, collectChildren: bool, maxObjects: int)
    requires NotAPage(net, rootUrl)
    requires var plan := TreePlan(net, rootUrl, maxDepth, collectChildren, maxObjects,
                                  FetchObjects(net, RootEntry(rootUrl)));
             plan.Explore? ==> forall e <- Fifo(plan.s, plan.seeds, plan.visited) :: NotAPage(net, e.url)
    ensures var got := FetchObjects(net, RootEntry(rootUrl));
            DistinctObjects(got.objs + Outcome(TreePlan(net, rootUrl, maxDepth, collectChildren, maxObjects, got)))
  {
    var got := FetchObjects(net, RootEntry(rootUrl));
    var plan := TreePlan(net, rootUrl, maxDepth, collectChildren, maxObjects, got);
    if plan.Explore? {
      assert rootUrl in plan.visited;
      PagelessWalkIsDistinct(net, plan.s, plan.seeds, plan.visited);
    }
    RootIsAlone(net, rootUrl);
    RootAndRest(got.objs, Outcome(plan), rootUrl);
  }

  lemma RootAndRest(first: seq<CollectedObject>, rest: seq<CollectedObject>, rootUrl: Url)
    requires |first| <= 1 && forall o <- first :: o.url == rootUrl
    requires DistinctObjects(rest) && (first != [] ==> forall o <- rest :: o.url != rootUrl)
    ensures DistinctObjects(first + rest)
  {
  }

  lemma RootIsAlone(net: Net, rootUrl: Url)
    requires NotAPage(net, rootUrl)
    ensures var objs := FetchObjects(net, RootEntry(rootUrl)).objs; |objs| <= 1 && forall o <- objs :: o.url == rootUrl
  {
  }
}
