/** How the collector starts, in terms of the root document, and an API tree that it collects to the end. */
module StacPlans {
  import opened Wrappers
  import opened Sequences
  import opened StacObjects
  import opened BreadthFirst
  import opened StacTraversal
  import opened StacDiscovery
  import opened StacCollector

  // ---------- The start of a search ----------

  /** The root advertises an API. */
  ghost predicate Advertises(data: Doc)
    requires data.links.Some?
  {
    || data.conformsTo
    || exists i :: 0 <= i < |data.links.value| && data.links.value[i].Link? && data.links.value[i].rel == "data"
  }

  /** The entries that do not lead back to the root, in order. */
  ghost predicate Seeds(rootUrl: Url, found: seq<QueueEntry>, seeds: seq<QueueEntry>) {
    Images(found, (e: QueueEntry) => e.url != rootUrl, (e: QueueEntry, c: QueueEntry) => e == c, seeds)
  }

  lemma UnseenAreSeeds(rootUrl: Url, found: seq<QueueEntry>)
    ensures Seeds(rootUrl, found, Unseen(found, {rootUrl}, {}))
  {
    UnseenAre(found, {rootUrl}, {}, (e: QueueEntry) => e.url != rootUrl, (e: QueueEntry, c: QueueEntry) => e == c);
  }

  /** The collections endpoints: the targets of the page's data links, else the one below the root. */
  ghost predicate EndpointsAre(net: Net, root: Url, raw: Doc, endpoints: seq<QueueEntry>)
    requires raw.links.Some?
  {
    exists linked ::
      && LinksLeadTo(net, root, raw.links.value, {"data"}, 1, Some(Catalog), Some(root), linked)
      && if linked != [] then endpoints == linked
         else exists trimmed :: WithoutSlashes(root.text, trimmed)
                && endpoints == [QueueEntry(Url(trimmed + "/collections"), 1, Some(Catalog), Some(root))]
  }

  /** The plan raises, or it explores the root's children from there. */
  ghost predicate StartsStatic(net: Net, rootUrl: Url, maxDepth: nat, maxObjects: int, root: CollectedObject,
                               plan: Plan)
    requires root.data.Some?
  {
    if ChildrenRaise(net, root) then plan.Raise?
    else exists children, seeds ::
      && ChildrenOf(net, root, children) && Seeds(rootUrl, children, seeds)
      && plan == Explore(StaticSearch(net, rootUrl, maxDepth, maxObjects), seeds, {rootUrl})
  }

  /** The plan raises, or it explores the endpoints of the root's page and then, when children are
      collected, those of the root. */
  ghost predicate StartsApi(net: Net, pin: Option<Url>, maxDepth: nat, collectChildren: bool, maxObjects: int,
                            root: CollectedObject, raw: Doc, plan: Plan)
    requires root.data.Some?
  {
    if raw.links.None? || LinkRaises(net, root.url, raw.links.value, {"data"})
      || (collectChildren && ChildrenRaise(net, root))
    then plan.Raise?
    else exists endpoints, seeds ::
      && EndpointsAre(net, root.url, raw, endpoints)
      && (if collectChildren then SeedsBelow(net, root, seeds) else seeds == [])
      && plan == Explore(ApiSearch(net, pin, maxDepth, collectChildren, maxObjects), endpoints + seeds, {root.url})
  }

  ghost predicate SeedsBelow(net: Net, root: CollectedObject, seeds: seq<QueueEntry>)
    requires root.data.Some? && root.data.value.links.Some?
  {
    exists children :: ChildrenOf(net, root, children) && Seeds(root.url, children, seeds)
  }

  lemma EndpointsFollowLinks(net: Net, root: Url, raw: Doc)
    requires raw.links.Some?
    ensures var urls := CollectionsEndpoints(net, root, Some(raw));
            && (urls.None? <==> LinkRaises(net, root, raw.links.value, {"data"}))
            && (urls.Some? ==> EndpointsAre(net, root, raw, EntriesAt(urls.value, 1, Some(Catalog), Some(root))))
  {
    HrefsRaise(net, root, raw.links.value, {"data"});
    var found := Hrefs(net, root, raw.links.value, {"data"});
    if found.Some? {
      EntriesFollowLinks(net, root, raw.links.value, {"data"}, 1, Some(Catalog), Some(root));
      RStripSlashIs(root.text);
      if found.value == [] {
        DefaultEndpoint(net, root, raw);
      }
    }
  }

  lemma DefaultEndpoint(net: Net, root: Url, raw: Doc)
    requires raw.links.Some? && Hrefs(net, root, raw.links.value, {"data"}) == Some([])
    ensures var urls := CollectionsEndpoints(net, root, Some(raw));
            urls.Some? && EndpointsAre(net, root, raw, EntriesAt(urls.value, 1, Some(Catalog), Some(root)))
  {
    var none: seq<QueueEntry> := [];
    EntriesFollowLinks(net, root, raw.links.value, {"data"}, 1, Some(Catalog), Some(root));
    assert EntriesAt([], 1, Some(Catalog), Some(root)) == none;
    RStripSlashIs(root.text);
    var u := Url(RStripSlash(root.text) + "/collections");
    assert [u][1..] == [];
    assert EntriesAt([u], 1, Some(Catalog), Some(root)) == [QueueEntry(u, 1, Some(Catalog), Some(root))] + none;
  }

  lemma ApiStart(net: Net, pin: Option<Url>, maxDepth: nat, collectChildren: bool, maxObjects: int,
                 root: CollectedObject, raw: Doc)
    requires root.data.Some?
    ensures StartsApi(net, pin, maxDepth, collectChildren, maxObjects, root, raw,
                      ApiPlan(net, pin, maxDepth, collectChildren, maxObjects, root, Some(raw)))
  {
    StaticChildrenAre(net, root);
    if raw.links.Some? {
      EndpointsFollowLinks(net, root.url, raw);
      var plan := ApiPlan(net, pin, maxDepth, collectChildren, maxObjects, root, Some(raw));
      if plan.Explore? {
        var endpoints := EntriesAt(CollectionsEndpoints(net, root.url, Some(raw)).value, 1, Some(Catalog),
                                   Some(root.url));
        var seeds: seq<QueueEntry> := [];
        if collectChildren {
          var children := StaticChildren(net, root.data.value, root.url, root.depth, root.objType);
          UnseenAreSeeds(root.url, children.value);
          seeds := Unseen(children.value, {root.url}, {});
          assert SeedsBelow(net, root, seeds);
        }
        assert plan.seeds == endpoints + seeds;
      }
    }
  }

  lemma StaticStart(net: Net, rootUrl: Url, maxDepth: nat, maxObjects: int, root: CollectedObject, got: Fetched)
    requires root.data.Some? && root.data.value.links.Some? && !Advertises(root.data.value) && root.depth == 0
    requires !got.raised && got.objs != [] && got.objs[0] == root
    ensures StartsStatic(net, rootUrl, maxDepth, maxObjects, root,
                         TreePlan(net, rootUrl, maxDepth, true, maxObjects, got))
  {
    StaticChildrenAre(net, root);
    var children := StaticChildren(net, root.data.value, root.url, 0, root.objType);
    if children.Some? {
      UnseenAreSeeds(rootUrl, children.value);
    }
  }

  /** The collector stops at the root when it does not collect children or the root gives no document;
      else it walks the API that the root advertises, or the root's links. */
  lemma PlanIs(net: Net, rootUrl: Url, maxDepth: nat, collectChildren: bool, maxObjects: int)
    ensures var got := FetchObjects(net, RootEntry(rootUrl));
            var plan := TreePlan(net, rootUrl, maxDepth, collectChildren, maxObjects, got);
            if got.raised then plan.Raise?
            else if !collectChildren || got.objs == [] || got.objs[0].data.None? then plan.Stop?
            else
              var root := got.objs[0];
              && got.raw.Some?
              && if root.data.value.links.None? then plan.Raise?
                 else if Advertises(root.data.value) then
                   StartsApi(net, Some(rootUrl), maxDepth, true, maxObjects, root, got.raw.value, plan)
                 else StartsStatic(net, rootUrl, maxDepth, maxObjects, root, plan)
  {
    var got := FetchObjects(net, RootEntry(rootUrl));
    DataComesWithPage(net, RootEntry(rootUrl));
    FetchedSitWithEntry(net, RootEntry(rootUrl));
    if !got.raised && collectChildren && got.objs != [] && got.objs[0].data.Some? {
      var root := got.objs[0];
      if root.data.value.links.Some? {
        if Advertises(root.data.value) {
          ApiStart(net, Some(rootUrl), maxDepth, true, maxObjects, root, got.raw.value);
        } else {
          StaticStart(net, rootUrl, maxDepth, maxObjects, root, got);
        }
      } else {
        StaticChildrenAre(net, root);
      }
    }
  }

  // ---------- A link to another host ----------

  /** The one child link of a catalog leads to another host: nothing but the root is yielded. */
  lemma ChildOnAnotherHostIsSkipped(net: Net, rootUrl: Url, root: Doc, href: string, other: Url, maxDepth: nat,
                                    maxObjects: int)
    requires net.read(rootUrl) == Parsed(root) && root.kind == "Catalog" && root.collections.None? && !root.conformsTo
    requires root.links == Some([Link("child", href)]) && href != "" && net.join(rootUrl, href) == Some(other)
    requires !net.sameHost(rootUrl, other)
    ensures Outcome(TreePlan(net, rootUrl, maxDepth, true, maxObjects, FetchObjects(net, RootEntry(rootUrl)))) == []
  {
    var got := FetchObjects(net, RootEntry(rootUrl));
    var s := StaticSearch(net, rootUrl, maxDepth, maxObjects);
    OneChild(net, rootUrl, href, other);
    var e := QueueEntry(other, 1, Some(Catalog), Some(rootUrl));
    OtherHostIsSkipped(s, e, {rootUrl});
    assert [e][1..] == [] && Unseen([], {rootUrl}, {}) == [];
    assert Unseen([e], {rootUrl}, {}) == if other == rootUrl then [] else [e] + [];
    assert Fifo(s, [], {rootUrl}) == [];
    assert StaticChildren(net, root, rootUrl, 0, Catalog) == Some([e]);
  }

  lemma OneChild(net: Net, base: Url, href: string, u: Url)
    requires href != "" && net.join(base, href) == Some(u)
    ensures Hrefs(net, base, [Link("child", href)], {"child", "item"}) == Some([u])
    ensures forall depth, t, p :: EntriesAt([u], depth, t, p) == [QueueEntry(u, depth, t, p)]
  {
    var l := Link("child", href);
    assert [l][1..] == [] && [u][1..] == [];
    assert Hrefs(net, base, [], {"child", "item"}) == Some([]) && [u] + [] == [u];
    forall depth, t, p ensures EntriesAt([u], depth, t, p) == [QueueEntry(u, depth, t, p)] {
      assert EntriesAt([], depth, t, p) == [];
    }
  }

  // ---------- An API tree collected to the end ----------

  const TOP := Url("r")
  const LISTING := Url("l")
  const COLLECTION := Url("c")
  const ITEMS := Url("c/items")

  function Page(kind: string, links: seq<Link>, collections: Option<seq<Option<Doc>>>,
                features: Option<seq<Option<Doc>>>): Doc {
    Doc(kind, None, None, false, kind == "Catalog", Some(links), collections, features)
  }

  function ApiRoot(): Doc { Page("Catalog", [Link("data", "l")], None, None) }

  function ApiCollection(): Doc { Page("Collection", [Link("self", "c")], None, None) }

  function ApiListing(): Doc { Page("", [], Some([Some(ApiCollection())]), None) }

  function ApiFeature(): Doc { Page("Feature", [Link("self", "f")], None, None) }

  function ApiItems(): Doc { Page("FeatureCollection", [], None, Some([Some(ApiFeature())])) }

  function ReadApi(u: Url): Answer {
    if u == TOP then Parsed(ApiRoot())
    else if u == LISTING then Parsed(ApiListing())
    else if u == COLLECTION then Parsed(ApiCollection())
    else if u == ITEMS then Parsed(ApiItems())
    else Unreadable
  }

  function ApiNet(): Net {
    Net(u => ReadApi(u), (base, href) => if href == "" then None else Some(Url(href)), (a, b) => true, s => s)
  }

  function AtLevel(u: Url, depth: nat, parentType: ObjType, parent: Url): QueueEntry {
    QueueEntry(u, depth, Some(parentType), Some(parent))
  }

  function RootObject(): CollectedObject {
    CollectedObject(Some(ApiRoot()), TOP, Catalog, None, None, 0, false)
  }

  function CollectionObject(): CollectedObject {
    CollectedObject(Some(ApiCollection()), COLLECTION, Collection, Some(Catalog), Some(TOP), 1, false)
  }

  function FeatureObject(): CollectedObject {
    CollectedObject(Some(ApiFeature()), Url("f"), Item, Some(Collection), Some(COLLECTION), 2, false)
  }

  lemma OneLink(net: Net, base: Url, l: Link, rels: set<string>)
    requires Selected(l, rels) ==> net.join(base, l.href).Some?
    ensures Hrefs(net, base, [l], rels) == Some(if Selected(l, rels) then [net.join(base, l.href).value] else [])
    ensures Hrefs(net, base, [], rels) == Some([])
  {
    assert [l][1..] == [];
    if Selected(l, rels) {
      var u := net.join(base, l.href).value;
      assert [u] + [] == [u];
    }
  }

  /** The listing leads to the collection, beside it. */
  lemma ListingLeadsOn(maxDepth: nat, maxObjects: int)
    requires maxDepth >= 2
    ensures var s := ApiSearch(ApiNet(), Some(TOP), maxDepth, true, maxObjects);
            var e := AtLevel(LISTING, 1, Catalog, TOP);
            && s.fetch(e) == Fetched([], Some(ApiListing()), false)
            && Children(s, e) == [AtLevel(COLLECTION, 1, Catalog, TOP)]
  {
    var net, e := ApiNet(), AtLevel(LISTING, 1, Catalog, TOP);
    var none: seq<QueueEntry> := [];
    var l := Link("self", "c");
    assert TOP != LISTING && LISTING.text[0] == 'l' && TOP.text[0] == 'r';
    OneLink(net, LISTING, l, {"next"});
    assert NextPages(net, e, ApiListing()) == Some(none);
    assert [l][1..] == [] && FirstHref([l], "self") == Some("c");
    assert CollectionUrl(net, ApiCollection(), LISTING) == Some(Some(COLLECTION));
    var docs := [Some(ApiCollection())];
    assert docs[1..] == [] && ListedCollections(net, e, []) == Some(none);
    assert ListedCollections(net, e, docs) == Some([AtLevel(COLLECTION, 1, Catalog, TOP)] + none);
    assert ApiBelow(net, e, [], []) == Some(none);
    assert none + [AtLevel(COLLECTION, 1, Catalog, TOP)] + none == [AtLevel(COLLECTION, 1, Catalog, TOP)];
  }

  /** The collection leads to its items, below it. */
  lemma CollectionLeadsOn(maxDepth: nat, maxObjects: int)
    requires maxDepth >= 2
    ensures var s := ApiSearch(ApiNet(), Some(TOP), maxDepth, true, maxObjects);
            var e := AtLevel(COLLECTION, 1, Catalog, TOP);
            && s.fetch(e) == Fetched([CollectionObject()], Some(ApiCollection()), false)
            && Children(s, e) == [AtLevel(ITEMS, 2, Collection, COLLECTION)]
  {
    var net, e, o := ApiNet(), AtLevel(COLLECTION, 1, Catalog, TOP), CollectionObject();
    var none: seq<QueueEntry> := [];
    var l := Link("self", "c");
    assert COLLECTION.text[0] == 'c' && TOP.text[0] == 'r' && LISTING.text[0] == 'l';
    OneLink(net, COLLECTION, l, {"next"});
    OneLink(net, COLLECTION, l, {"child", "item"});
    assert [l][1..] == [] && FirstHref([], "items").None? && FirstHref([l], "items").None?;
    assert EntriesAt([], 2, Some(Collection), Some(COLLECTION)) == none;
    assert StaticChildren(net, ApiCollection(), COLLECTION, 1, Collection) == Some(none);
    assert RStripSlash("c") == "c" && "c" + "/items" == "c/items";
    assert LinkedItemsUrl(net, COLLECTION, [l]) == Some(None);
    assert ItemsUrl(net, COLLECTION, [l]) == Some(ITEMS);
    assert [o][1..] == [] && ApiBelow(net, e, [l], []) == Some(none);
    assert ApiBelow(net, e, [l], [o]) == Some([AtLevel(ITEMS, 2, Collection, COLLECTION)] + none + none);
    assert ListedCollections(net, e, []) == Some(none);
    var items := AtLevel(ITEMS, 2, Collection, COLLECTION);
    assert none + none + ([items] + none + none) == [items];
  }

  /** The items page yields the feature and leads nowhere. */
  lemma ItemsYieldTheFeature(maxDepth: nat, maxObjects: int)
    ensures var s := ApiSearch(ApiNet(), Some(TOP), maxDepth, true, maxObjects);
            var e := AtLevel(ITEMS, 2, Collection, COLLECTION);
            && s.fetch(e) == Fetched([FeatureObject()], Some(ApiItems()), false)
            && Children(s, e) == []
  {
    var net, e, o := ApiNet(), AtLevel(ITEMS, 2, Collection, COLLECTION), FeatureObject();
    var none: seq<QueueEntry> := [];
    var l := Link("self", "f");
    assert |ITEMS.text| == 7;
    var features := [Some(ApiFeature())];
    assert [l][1..] == [] && FirstHref([l], "self") == Some("f");
    assert FeatureUrl(net, ITEMS, ApiFeature(), 0) == Some(Url("f"));
    assert features[1..] == [] && FeatureObjects(net, e, [], 1) == Some([]);
    assert FeatureObjects(net, e, features, 0) == Some([o] + []);
    OneLink(net, ITEMS, l, {"next"});
    OneLink(net, Url("f"), l, {"child", "item"});
    assert NextPages(net, e, ApiItems()) == Some(none);
    assert EntriesAt([], 3, Some(Item), Some(Url("f"))) == none;
    assert StaticChildren(net, ApiFeature(), Url("f"), 2, Item) == Some(none);
    assert [o][1..] == [] && ApiBelow(net, e, [], []) == Some(none);
    assert ApiBelow(net, e, [], [o]) == Some(none + none);
    assert ListedCollections(net, e, []) == Some(none);
    assert none + none + (none + none) == none;
  }

  lemma RootStartsAtTheListing(maxDepth: nat, maxObjects: int)
    ensures var net := ApiNet();
            var got := FetchObjects(net, RootEntry(TOP));
            && got == Fetched([RootObject()], Some(ApiRoot()), false)
            && TreePlan(net, TOP, maxDepth, true, maxObjects, got)
               == Explore(ApiSearch(net, Some(TOP), maxDepth, true, maxObjects), [AtLevel(LISTING, 1, Catalog, TOP)],
                          {TOP})
  {
    var net, l := ApiNet(), Link("data", "l");
    var none: seq<QueueEntry> := [];
    OneLink(net, TOP, l, {"data"});
    OneLink(net, TOP, l, {"child", "item"});
    assert [LISTING][1..] == [] && EntriesAt([], 1, Some(Catalog), Some(TOP)) == none;
    assert EntriesAt([LISTING], 1, Some(Catalog), Some(TOP)) == [AtLevel(LISTING, 1, Catalog, TOP)] + none;
    assert StaticChildren(net, ApiRoot(), TOP, 0, Catalog) == Some(none);
    assert Unseen(none, {TOP}, {}) == none;
    assert [AtLevel(LISTING, 1, Catalog, TOP)] + none == [AtLevel(LISTING, 1, Catalog, TOP)];
  }

  /** The whole tree is collected: the listed collection and the feature on its items page. */
  lemma ApiTreeIsCollected(maxDepth: nat, maxObjects: int)
    requires maxDepth >= 2 && maxObjects >= 4
    ensures Outcome(TreePlan(ApiNet(), TOP, maxDepth, true, maxObjects, FetchObjects(ApiNet(), RootEntry(TOP))))
            == [CollectionObject(), FeatureObject()]
  {
    var s := ApiSearch(ApiNet(), Some(TOP), maxDepth, true, maxObjects);
    var l, c := AtLevel(LISTING, 1, Catalog, TOP), AtLevel(COLLECTION, 1, Catalog, TOP);
    var i := AtLevel(ITEMS, 2, Collection, COLLECTION);
    RootStartsAtTheListing(maxDepth, maxObjects);
    ListingLeadsOn(maxDepth, maxObjects);
    CollectionLeadsOn(maxDepth, maxObjects);
    ItemsYieldTheFeature(maxDepth, maxObjects);
    assert TOP.text[0] == 'r' && LISTING.text[0] == 'l' && COLLECTION.text[0] == 'c' && |ITEMS.text| == 7;
    ChainOfThree(s, TOP, l, c, i);
    ObjectsOfThree(s, l, c, i, CollectionObject(), FeatureObject());
  }

  lemma ChainOfThree(s: Search, top: Url, a: QueueEntry, b: QueueEntry, c: QueueEntry)
    requires Children(s, a) == [b] && Children(s, b) == [c] && Children(s, c) == [] && s.maxObjects >= 4
    requires forall u :: OnHost(s, u)
    requires top != a.url && top != b.url && top != c.url && a.url != b.url && a.url != c.url && b.url != c.url
    ensures Fifo(s, [a], {top}) == [a, b, c]
  {
    var none: seq<QueueEntry> := [];
    var v1 := {top} + {a.url};
    var v2 := v1 + {b.url};
    assert |v1| == 2 && |v2| == 3;
    assert [a] + none == [a] && [b] + none == [b] && [c] + none == [c] && none + [b] == [b] && none + [c] == [c]
        && none + none == none;
    FifoLive(s, a, none, {top});
    FifoLive(s, b, none, v1);
    FifoLive(s, c, none, v2);
    assert Fifo(s, none, v2 + {c.url}) == none;
    assert [a] + ([b] + ([c] + none)) == [a, b, c];
  }

  lemma ObjectsOfThree(s: Search, a: QueueEntry, b: QueueEntry, c: QueueEntry, x: CollectedObject, y: CollectedObject)
    requires s.fetch(a).objs == [] && s.fetch(b).objs == [x] && s.fetch(c).objs == [y]
    ensures Objects(s, [a, b, c]) == [x, y]
  {
    assert [a, b, c][1..] == [b, c] && [b, c][1..] == [c] && [c][1..] == [];
    assert Objects(s, [c]) == [y] + [] && Objects(s, [b, c]) == [x] + [y];
  }
}
