/** Two collections with one items page each, whose features name one address as their own: the number
    of parallel fetches decides what the report says. */
module SharedUrls {
  import opened Wrappers
  import opened Sequences
  import opened StacObjects
  import opened BreadthFirst
  import opened StacTraversal
  import opened StacCollector
  import opened GraphWalk
  import opened ReportGraph
  import opened ValidationReport
  import opened ReportAgreement
  import opened StacValidation

  // ---------- The documents ----------

  const TOP := Url("r")
  const FIRST := Url("c")
  const SECOND := Url("d")
  const FIRST_PAGE := Url("p")
  const SECOND_PAGE := Url("q")

  function Page(kind: string, id: Option<string>, links: seq<Link>, features: Option<seq<Option<Doc>>>): Doc {
    Doc(kind, id, None, false, false, Some(links), None, features)
  }

  function Feature(id: string, self: string): Doc {
    Page("Feature", Some(id), [Link("self", self)], None)
  }

  function CatalogDoc(): Doc {
    Page("Catalog", None, [Link("child", "c"), Link("child", "d")], None)
  }

  function CollectionDoc(page: string): Doc {
    Page("Collection", None, [Link("item", page)], None)
  }

  function ItemsPage(id: string, self: string): Doc {
    Page("FeatureCollection", None, [], Some([Some(Feature(id, self))]))
  }

  function Read(self: string, u: Url): Answer {
    if u == TOP then Parsed(CatalogDoc())
    else if u == FIRST then Parsed(CollectionDoc("p"))
    else if u == SECOND then Parsed(CollectionDoc("q"))
    else if u == FIRST_PAGE then Parsed(ItemsPage("1", self))
    else if u == SECOND_PAGE then Parsed(ItemsPage("2", self))
    else Unreadable
  }

  /** Both features carry `self` as the href of their self link. */
  function SmallNet(self: NonEmptyString): Net {
    Net(u => Read(self, u), (base, href) => if href == "" then None else Some(Url(href)), (a, b) => true, s => s)
  }

  function Top(): CollectedObject {
    CollectedObject(Some(CatalogDoc()), TOP, Catalog, None, None, 0, false)
  }

  function Child(at: Url, page: string): CollectedObject {
    CollectedObject(Some(CollectionDoc(page)), at, Collection, Some(Catalog), Some(TOP), 1, false)
  }

  function Leaf(id: string, self: NonEmptyString, parent: Url): CollectedObject {
    CollectedObject(Some(Feature(id, self)), Url(self), Item, Some(Collection), Some(parent), 2, false)
  }

  function ChildEntry(at: Url): QueueEntry {
    QueueEntry(at, 1, Some(Catalog), Some(TOP))
  }

  function PageEntry(at: Url, parent: Url): QueueEntry {
    QueueEntry(at, 2, Some(Collection), Some(parent))
  }

  /** The objects of one search: two collections and two features. */
  function Found(self: NonEmptyString): seq<CollectedObject> {
    [Child(FIRST, "p"), Child(SECOND, "q"), Leaf("1", self, FIRST), Leaf("2", self, SECOND)]
  }

  // ---------- What the search fetches ----------

  lemma OneHref(net: Net, base: Url, l: Link, rels: set<string>)
    requires Selected(l, rels) ==> net.join(base, l.href).Some?
    ensures Hrefs(net, base, [l], rels) == Some(if Selected(l, rels) then [net.join(base, l.href).value] else [])
  {
    assert [l][1..] == [];
    assert Hrefs(net, base, [], rels) == Some([]);
    if Selected(l, rels) {
      var u := net.join(base, l.href).value;
      assert [u] + [] == [u];
    }
  }

  lemma CollectionFetched(self: NonEmptyString, at: Url, page: NonEmptyString)
    requires Read(self, at) == Parsed(CollectionDoc(page))
    ensures FetchObjects(SmallNet(self), ChildEntry(at)) == Fetched([Child(at, page)], Some(CollectionDoc(page)), false)
  {
  }

  lemma PageFetched(self: NonEmptyString, at: Url, parent: Url, id: string)
    requires Read(self, at) == Parsed(ItemsPage(id, self))
    ensures FetchObjects(SmallNet(self), PageEntry(at, parent)) == Fetched([Leaf(id, self, parent)],
            Some(ItemsPage(id, self)), false)
  {
    var net, e, features := SmallNet(self), PageEntry(at, parent), [Some(Feature(id, self))];
    assert features[1..] == [] && FeatureObjects(net, e, [], 1) == Some([]);
    assert FirstHref([Link("self", self)], "self") == Some(self);
    assert FeatureUrl(net, at, Feature(id, self), 0) == Some(Url(self));
    assert FeatureObjects(net, e, features, 0) == Some([Leaf(id, self, parent)] + []);
  }

  lemma CollectionLeadsOn(self: NonEmptyString, maxDepth: nat, maxObjects: int, at: Url, page: NonEmptyString)
    requires Read(self, at) == Parsed(CollectionDoc(page)) && maxDepth >= 2
    ensures Children(StaticSearch(SmallNet(self), TOP, maxDepth, maxObjects),
                     ChildEntry(at)) == [PageEntry(Url(page), at)]
  {
    var net, e, raw, o, l := SmallNet(self), ChildEntry(at), CollectionDoc(page), Child(at, page), Link("item", page);
    CollectionFetched(self, at, page);
    OneHref(net, at, l, {"next"});
    OneHref(net, at, l, {"child", "item"});
    assert [Url(page)][1..] == [];
    assert StaticChildren(net, raw, at, 1, Collection) == Some([PageEntry(Url(page), at)] + []);
    assert [l][1..] == [] && FirstHref([], "items").None? && FirstHref([l], "items").None?;
    assert [o][1..] == [];
    assert LinkedItemsUrl(net, at, [l]) == Some(None) && StaticBelow(net, e, raw, []) == [];
    assert StaticBelow(net, e, raw, [o]) == [PageEntry(Url(page), at)] + [];
    var none: seq<QueueEntry> := [];
    assert NextPages(net, e, raw) == Some(none);
    assert none + [PageEntry(Url(page), at)] == [PageEntry(Url(page), at)];
  }

  lemma PageLeadsNowhere(self: NonEmptyString, maxDepth: nat, maxObjects: int, at: Url, parent: Url, id: string)
    requires Read(self, at) == Parsed(ItemsPage(id, self))
    ensures Children(StaticSearch(SmallNet(self), TOP, maxDepth, maxObjects), PageEntry(at, parent)) == []
  {
    var net, e, o := SmallNet(self), PageEntry(at, parent), Leaf(id, self, parent);
    PageFetched(self, at, parent, id);
    OneHref(net, o.url, Link("self", self), {"child", "item"});
    assert StaticChildren(net, Feature(id, self), o.url, 2, Item) == Some([]);
    assert [o][1..] == [];
    assert StaticBelow(net, e, ItemsPage(id, self), [o]) == [] + [];
    assert Hrefs(net, at, [], {"next"}) == Some([]);
  }

  lemma PlanOfTwo(self: NonEmptyString, maxDepth: nat, maxObjects: int)
    ensures var net := SmallNet(self);
            var got := FetchObjects(net, RootEntry(TOP));
            && got == Fetched([Top()], Some(CatalogDoc()), false)
            && TreePlan(net, TOP, maxDepth, true, maxObjects, got)
               == Explore(StaticSearch(net, TOP, maxDepth, maxObjects), [ChildEntry(FIRST), ChildEntry(SECOND)], {TOP})
  {
    var net, l, m := SmallNet(self), Link("child", "c"), Link("child", "d");
    var rels := {"child", "item"};
    assert [l, m][1..] == [m];
    OneHref(net, TOP, m, rels);
    assert Hrefs(net, TOP, [l, m], rels) == Some([FIRST] + [SECOND]);
    var urls := [FIRST, SECOND];
    assert urls[1..] == [SECOND] && urls[1..][1..] == [];
    var entries := [ChildEntry(FIRST), ChildEntry(SECOND)];
    assert EntriesAt([SECOND], 1, Some(Catalog), Some(TOP)) == [ChildEntry(SECOND)] + [];
    assert EntriesAt(urls, 1, Some(Catalog), Some(TOP)) == entries;
    assert [FIRST] + [SECOND] == urls;
    assert StaticChildren(net, CatalogDoc(), TOP, 0, Catalog) == Some(entries);
    assert entries[1..] == [ChildEntry(SECOND)] && entries[1..][1..] == [];
    assert Unseen(entries[1..], {TOP}, {}) == [ChildEntry(SECOND)] + [];
    assert Unseen(entries, {TOP}, {}) == entries;
  }

  // ---------- The rounds ----------

  predicate Fresh(s: Search, e: QueueEntry, visited: set<Url>) {
    |visited| < s.maxObjects && e.url !in visited && OnHost(s, e.url)
  }

  lemma DrainOne(s: Search, e: QueueEntry, rest: seq<QueueEntry>, visited: set<Url>)
    requires Fresh(s, e, visited)
    ensures Drain(s, 1, [e] + rest, visited, {}) == Drained([e], rest, visited + {e.url}, {})
  {
    assert ([e] + rest)[1..] == rest;
    assert Drain(s, 0, rest, visited + {e.url}, {}) == Drained([], rest, visited + {e.url}, {});
  }

  lemma DrainTwo(s: Search, room: int, a: QueueEntry, b: QueueEntry, visited: set<Url>)
    requires Fresh(s, a, visited) && Fresh(s, b, visited + {a.url}) && room >= 2
    ensures Drain(s, room, [a, b], visited, {}) == Drained([a, b], [], visited + {a.url} + {b.url}, {})
  {
    var after := visited + {a.url} + {b.url};
    assert [a, b][1..] == [b] && [b][1..] == [];
    assert Drain(s, room - 2, [], after, {}) == Drained([], [], after, {});
    assert Drain(s, room - 1, [b], visited + {a.url}, {}) == Drained([b] + [], [], after, {});
  }

  lemma NextRound(s: Search, room: int, queue: seq<QueueEntry>, visited: set<Url>, d: Drained, next: seq<QueueEntry>)
    requires queue != [] && |visited| < s.maxObjects && d == Drain(s, room, queue, visited, {}) && d.batch != []
    requires d.skipped == {} && next == d.queue + Unseen(AllChildren(s, d.batch), d.visited, {})
    ensures Rounds(s, room, queue, visited, {}) == [d.batch] + Rounds(s, room, next, d.visited, {})
  {
  }

  lemma UnseenOne(e: QueueEntry, visited: set<Url>)
    requires e.url !in visited
    ensures Unseen([e], visited, {}) == [e]
  {
    assert [e][1..] == [];
  }

  lemma ChildrenOfOne(s: Search, e: QueueEntry)
    ensures AllChildren(s, [e]) == Children(s, e)
  {
    assert [e][1..] == [];
    assert Children(s, e) + [] == Children(s, e);
  }

  /** Two entries with one child each, all at different places on the host. */
  ghost predicate TwoChains(s: Search, top: Url, a: QueueEntry, b: QueueEntry, c: QueueEntry, d: QueueEntry) {
    && Children(s, a) == [c] && Children(s, b) == [d] && Children(s, c) == [] && Children(s, d) == []
    && Distinct([top, a.url, b.url, c.url, d.url])
    && (forall u :: OnHost(s, u)) && s.maxObjects >= 5
  }

  lemma Places(top: Url, a: Url, b: Url, c: Url, d: Url)
    requires Distinct([top, a, b, c, d])
    ensures top != a && top != b && top != c && top != d && a != b && a != c && a != d && b != c && b != d && c != d
  {
    var urls := [top, a, b, c, d];
    assert urls[0] != urls[1] && urls[0] != urls[2] && urls[0] != urls[3] && urls[0] != urls[4];
    assert urls[1] != urls[2] && urls[1] != urls[3] && urls[1] != urls[4];
    assert urls[2] != urls[3] && urls[2] != urls[4] && urls[3] != urls[4];
  }

  lemma RoundsByOne(s: Search, top: Url, a: QueueEntry, b: QueueEntry, c: QueueEntry, d: QueueEntry)
    requires TwoChains(s, top, a, b, c, d)
    ensures Rounds(s, 1, [a, b], {top}, {}) == [[a], [b], [c], [d]]
  {
    Places(top, a.url, b.url, c.url, d.url);
    var visited := {top} + {a.url} + {b.url};
    assert |visited| == 3 && |visited + {c.url}| == 4;
    FirstTwo(s, a, b, c, d, {top});
    LastTwo(s, c, d, visited);
    assert [[a], [b]] + [[c], [d]] == [[a], [b], [c], [d]];
  }

  lemma FirstTwo(s: Search, a: QueueEntry, b: QueueEntry, c: QueueEntry, d: QueueEntry, visited: set<Url>)
    requires Fresh(s, a, visited) && Fresh(s, b, visited + {a.url}) && Children(s, a) == [c] && Children(s, b) == [d]
    requires c.url !in visited + {a.url} && d.url !in visited + {a.url} + {b.url}
    ensures Rounds(s, 1, [a, b], visited, {}) == [[a], [b]] + Rounds(s, 1, [c, d], visited + {a.url} + {b.url}, {})
  {
    assert [a] + [b] == [a, b] && [b] + [c] == [b, c] && [c] + [d] == [c, d];
    StepOne(s, b, [c], visited + {a.url}, visited + {a.url} + {b.url}, [c, d]);
    StepOne(s, a, [b], visited, visited + {a.url}, [b, c]);
    TwoInFront([a], [b], Rounds(s, 1, [c, d], visited + {a.url} + {b.url}, {}));
  }

  lemma TwoInFront<T>(x: T, y: T, rest: seq<T>)
    ensures [x] + ([y] + rest) == [x, y] + rest
  {
  }

  lemma LastTwo(s: Search, c: QueueEntry, d: QueueEntry, visited: set<Url>)
    requires Fresh(s, c, visited) && Fresh(s, d, visited + {c.url}) && Children(s, c) == [] && Children(s, d) == []
    ensures Rounds(s, 1, [c, d], visited, {}) == [[c], [d]]
  {
    assert [c] + [d] == [c, d] && [d] + [] == [d];
    StepOne(s, d, [], visited + {c.url}, visited + {c.url} + {d.url}, []);
    StepOne(s, c, [d], visited, visited + {c.url}, [d]);
    assert Rounds(s, 1, [c, d], visited, {}) == [[c]] + ([[d]] + []);
  }

  /** One round of width one: the entry is fetched and its child, where it has one, queued. */
  lemma StepOne(s: Search, e: QueueEntry, rest: seq<QueueEntry>,
                visited: set<Url>, after: set<Url>, next: seq<QueueEntry>)
    requires Fresh(s, e, visited) && after == visited + {e.url}
    requires if Children(s, e) == [] then next == rest
            else |Children(s, e)| == 1 && Children(s, e)[0].url !in after && next == rest + Children(s, e)
    ensures Rounds(s, 1, [e] + rest, visited, {}) == [[e]] + Rounds(s, 1, next, after, {})
  {
    DrainOne(s, e, rest, visited);
    ChildrenOfOne(s, e);
    if Children(s, e) != [] {
      var c := Children(s, e)[0];
      assert Children(s, e) == [c];
      UnseenOne(c, after);
    } else {
      assert rest + [] == rest;
    }
    NextRound(s, 1, [e] + rest, visited, Drained([e], rest, after, {}), next);
  }

  lemma RoundsByTwo(s: Search, room: int, top: Url, a: QueueEntry, b: QueueEntry, c: QueueEntry, d: QueueEntry)
    requires TwoChains(s, top, a, b, c, d)
    requires room >= 2
    ensures Rounds(s, room, [a, b], {top}, {}) == [[a, b], [c, d]]
  {
    Places(top, a.url, b.url, c.url, d.url);
    var v := {top} + {a.url} + {b.url};
    assert |v| == 3;
    PairOfChildren(s, a, b);
    PairOfChildren(s, c, d);
    assert [c] + [d] == [c, d];
    UnseenPair(c, d, v);
    StepTwo(s, room, a, b, {top}, [c, d]);
    StepTwo(s, room, c, d, v, []);
  }

  lemma PairOfChildren(s: Search, a: QueueEntry, b: QueueEntry)
    ensures AllChildren(s, [a, b]) == Children(s, a) + Children(s, b)
  {
    assert [a, b][1..] == [b];
    ChildrenOfOne(s, b);
  }

  lemma UnseenPair(a: QueueEntry, b: QueueEntry, visited: set<Url>)
    requires a.url !in visited && b.url !in visited
    ensures Unseen([a, b], visited, {}) == [a, b]
  {
    assert [a, b][1..] == [b];
    UnseenOne(b, visited);
    assert [a] + [b] == [a, b];
  }

  lemma StepTwo(s: Search, room: int, a: QueueEntry, b: QueueEntry, visited: set<Url>, next: seq<QueueEntry>)
    requires Fresh(s, a, visited) && Fresh(s, b, visited + {a.url}) && room >= 2
    requires next == Unseen(AllChildren(s, [a, b]), visited + {a.url} + {b.url}, {})
    ensures Rounds(s, room, [a, b], visited, {})
            == [[a, b]] + Rounds(s, room, next, visited + {a.url} + {b.url}, {})
  {
    DrainTwo(s, room, a, b, visited);
    assert [] + next == next;
    NextRound(s, room, [a, b], visited, Drained([a, b], [], visited + {a.url} + {b.url}, {}), next);
  }

  // ---------- The batches ----------

  function PlanFor(self: NonEmptyString, maxDepth: nat, maxObjects: int): Plan {
    TreePlan(SmallNet(self), TOP, maxDepth, true, maxObjects, FetchObjects(SmallNet(self), RootEntry(TOP)))
  }

  function Singles(self: NonEmptyString): seq<seq<CollectedObject>> {
    [[Child(FIRST, "p")], [Child(SECOND, "q")], [Leaf("1", self, FIRST)], [Leaf("2", self, SECOND)]]
  }

  function Pairs(self: NonEmptyString): seq<seq<CollectedObject>> {
    [[Child(FIRST, "p"), Child(SECOND, "q")], [Leaf("1", self, FIRST), Leaf("2", self, SECOND)]]
  }

  lemma TheSearchIsTwoChains(self: NonEmptyString, maxDepth: nat, maxObjects: int)
    requires maxDepth >= 2 && maxObjects >= 5
    ensures var s := StaticSearch(SmallNet(self), TOP, maxDepth, maxObjects);
            TwoChains(s, TOP, ChildEntry(FIRST), ChildEntry(SECOND), PageEntry(FIRST_PAGE, FIRST),
                      PageEntry(SECOND_PAGE, SECOND))
  {
    CollectionLeadsOn(self, maxDepth, maxObjects, FIRST, "p");
    CollectionLeadsOn(self, maxDepth, maxObjects, SECOND, "q");
    PageLeadsNowhere(self, maxDepth, maxObjects, FIRST_PAGE, FIRST, "1");
    PageLeadsNowhere(self, maxDepth, maxObjects, SECOND_PAGE, SECOND, "2");
    PlacesDiffer();
  }

  lemma PlacesDiffer()
    ensures Distinct([TOP, FIRST, SECOND, FIRST_PAGE, SECOND_PAGE])
  {
    assert TOP.text[0] == 'r' && FIRST.text[0] == 'c' && SECOND.text[0] == 'd' && FIRST_PAGE.text[0] == 'p'
        && SECOND_PAGE.text[0] == 'q';
  }

  ghost predicate Fetches(s: Search, e: QueueEntry, o: CollectedObject) {
    s.fetch(e).objs == [o] && !s.fetch(e).raised
  }

  lemma YieldedNext(s: Search, batch: seq<QueueEntry>, rounds: seq<seq<QueueEntry>>)
    requires !AnyRaises(s, batch)
    ensures Yielded(s, Completed(s, [batch] + rounds)) == [Objects(s, batch)] + Yielded(s, Completed(s, rounds))
  {
    assert ([batch] + rounds)[0] == batch && ([batch] + rounds)[1..] == rounds;
    var done := Completed(s, rounds);
    assert ([batch] + done)[0] == batch && ([batch] + done)[1..] == done;
  }

  lemma ObjectsOfOne(s: Search, e: QueueEntry, o: CollectedObject)
    requires Fetches(s, e, o)
    ensures Objects(s, [e]) == [o]
  {
    assert [e][1..] == [];
  }

  lemma ObjectsOfTwo(s: Search, a: QueueEntry, x: CollectedObject, b: QueueEntry, y: CollectedObject)
    requires Fetches(s, a, x) && Fetches(s, b, y)
    ensures Objects(s, [a, b]) == [x, y]
  {
    assert [a, b][1..] == [b];
    ObjectsOfOne(s, b, y);
    assert [x] + [y] == [x, y];
  }

  lemma YieldedByOne(s: Search, a: QueueEntry, b: QueueEntry, c: QueueEntry, d: QueueEntry, objs: seq<CollectedObject>)
    requires |objs| == 4 && Fetches(s, a, objs[0]) && Fetches(s, b, objs[1]) && Fetches(s, c, objs[2])
            && Fetches(s, d, objs[3])
    ensures Yielded(s, Completed(s, [[a], [b], [c], [d]])) == [[objs[0]], [objs[1]], [objs[2]], [objs[3]]]
  {
    ObjectsOfOne(s, a, objs[0]);
    ObjectsOfOne(s, b, objs[1]);
    ObjectsOfOne(s, c, objs[2]);
    ObjectsOfOne(s, d, objs[3]);
    assert [[a], [b], [c], [d]] == [[a]] + [[b], [c], [d]] && [[b], [c], [d]] == [[b]] + [[c], [d]];
    assert [[c], [d]] == [[c]] + [[d]] && [[d]] == [[d]] + [];
    YieldedNext(s, [d], []);
    YieldedNext(s, [c], [[d]]);
    YieldedNext(s, [b], [[c], [d]]);
    YieldedNext(s, [a], [[b], [c], [d]]);
  }

  lemma YieldedByTwo(s: Search, a: QueueEntry, b: QueueEntry, c: QueueEntry, d: QueueEntry, objs: seq<CollectedObject>)
    requires |objs| == 4 && Fetches(s, a, objs[0]) && Fetches(s, b, objs[1]) && Fetches(s, c, objs[2])
            && Fetches(s, d, objs[3])
    ensures Yielded(s, Completed(s, [[a, b], [c, d]])) == [[objs[0], objs[1]], [objs[2], objs[3]]]
  {
    ObjectsOfTwo(s, a, objs[0], b, objs[1]);
    ObjectsOfTwo(s, c, objs[2], d, objs[3]);
    assert [[a, b], [c, d]] == [[a, b]] + [[c, d]] && [[c, d]] == [[c, d]] + [];
    YieldedNext(s, [c, d], []);
    YieldedNext(s, [a, b], [[c, d]]);
  }

  lemma AllFetch(self: NonEmptyString, maxDepth: nat, maxObjects: int)
    ensures var s := StaticSearch(SmallNet(self), TOP, maxDepth, maxObjects);
            && Fetches(s, ChildEntry(FIRST), Child(FIRST, "p")) && Fetches(s, ChildEntry(SECOND), Child(SECOND, "q"))
            && Fetches(s, PageEntry(FIRST_PAGE, FIRST), Leaf("1", self, FIRST))
                && Fetches(s, PageEntry(SECOND_PAGE, SECOND), Leaf("2", self, SECOND))
  {
    CollectionFetched(self, FIRST, "p");
    CollectionFetched(self, SECOND, "q");
    PageFetched(self, FIRST_PAGE, FIRST, "1");
    PageFetched(self, SECOND_PAGE, SECOND, "2");
  }

  lemma BatchesOfSingles(self: NonEmptyString, maxDepth: nat, maxObjects: int)
    requires maxDepth >= 2 && maxObjects >= 5
    ensures Batches(PlanFor(self, maxDepth, maxObjects), 1) == Singles(self)
  {
    var s := StaticSearch(SmallNet(self), TOP, maxDepth, maxObjects);
    var a, b, c, d := ChildEntry(FIRST), ChildEntry(SECOND),
        PageEntry(FIRST_PAGE, FIRST), PageEntry(SECOND_PAGE, SECOND);
    PlanOfTwo(self, maxDepth, maxObjects);
    TheSearchIsTwoChains(self, maxDepth, maxObjects);
    AllFetch(self, maxDepth, maxObjects);
    RoundsByOne(s, TOP, a, b, c, d);
    YieldedByOne(s, a, b, c, d, Found(self));
  }

  lemma BatchesOfPairs(self: NonEmptyString, maxDepth: nat, maxObjects: int, room: int)
    requires maxDepth >= 2 && maxObjects >= 5 && room >= 2
    ensures Batches(PlanFor(self, maxDepth, maxObjects), room) == Pairs(self)
  {
    var s := StaticSearch(SmallNet(self), TOP, maxDepth, maxObjects);
    var a, b, c, d := ChildEntry(FIRST), ChildEntry(SECOND),
        PageEntry(FIRST_PAGE, FIRST), PageEntry(SECOND_PAGE, SECOND);
    PlanOfTwo(self, maxDepth, maxObjects);
    TheSearchIsTwoChains(self, maxDepth, maxObjects);
    AllFetch(self, maxDepth, maxObjects);
    RoundsByTwo(s, room, TOP, a, b, c, d);
    YieldedByTwo(s, a, b, c, d, Found(self));
  }

  // ---------- The graphs ----------

  lemma GraphSnoc(root: CollectedObject, later: seq<seq<CollectedObject>>, batch: seq<CollectedObject>)
    ensures GraphAfter(root, later + [batch]) == AddBatch(GraphAfter(root, later), batch)
  {
    assert (later + [batch])[..|later|] == later;
  }

  /** The root with its two collections. */
  function Collections(): Graph {
    Graph(map[TOP := 0, FIRST := 1, SECOND := 2], [TOP, FIRST, SECOND], [[1, 2], [], []])
  }

  lemma CollectionsByOne()
    ensures GraphAfter(Top(), [[Child(FIRST, "p")], [Child(SECOND, "q")]]) == Collections()
  {
    var c, d := Child(FIRST, "p"), Child(SECOND, "q");
    var g1 := Graph(map[TOP := 0], [TOP], [[]]);
    var g2 := Graph(map[TOP := 0, FIRST := 1], [TOP, FIRST], [[1], []]);
    PlacesDiffer();
    Places(TOP, FIRST, SECOND, FIRST_PAGE, SECOND_PAGE);
    RootGraph(Top());
    GraphSnoc(Top(), [], [c]);
    GraphSnoc(Top(), [[c]], [d]);
    assert [] + [[c]] == [[c]] && [[c]] + [[d]] == [[c], [d]];
    SingleBatch(g1, c);
    AddEdgeIs(g1.kids + [[]], 0, 1, g2.kids);
    assert g1.owner[FIRST := 1] == g2.owner && AddBatch(g1, [c]) == g2;
    SingleBatch(g2, d);
    AddEdgeIs(g2.kids + [[]], 0, 2, Collections().kids);
    assert g2.owner[SECOND := 2] == Collections().owner && g2.order + [SECOND] == Collections().order;
  }

  lemma CollectionsByTwo()
    ensures GraphAfter(Top(), [[Child(FIRST, "p"), Child(SECOND, "q")]]) == Collections()
  {
    var c, d := Child(FIRST, "p"), Child(SECOND, "q");
    RootGraph(Top());
    GraphSnoc(Top(), [], [c, d]);
    assert [] + [[c, d]] == [[c, d]];
    PlacesDiffer();
    Places(TOP, FIRST, SECOND, FIRST_PAGE, SECOND_PAGE);
    PairBelowRoot(TOP, c, d);
  }

  lemma PairBelowRoot(root: Url, c: CollectedObject, d: CollectedObject)
    requires root != c.url && root != d.url && c.url != d.url && c.parentUrl == d.parentUrl == Some(root)
    ensures AddBatch(Graph(map[root := 0], [root], [[]]), [c, d])
            == Graph(map[root := 0, c.url := 1, d.url := 2], [root, c.url, d.url], [[1, 2], [], []])
  {
    var g := Graph(map[root := 0], [root], [[]]);
    var s := StoreOne(StoreOne(g, c), d);
    assert s.kids == [[], [], []] && s.order == [root, c.url, d.url];
    assert s.owner == map[root := 0, c.url := 1, d.url := 2];
    DoubleBatch(g, c, d);
    AddEdgeIs(s.kids, 0, 1, [[1], [], []]);
    AddEdgeIs([[1], [], []], 0, 2, [[1, 2], [], []]);
  }

  /** Adding the two features one after the other. */
  lemma FeaturesByOne(self: NonEmptyString, g3: Graph, g4: Graph)
    requires AddBatch(Collections(), [Leaf("1", self, FIRST)]) == g3 && AddBatch(g3, [Leaf("2", self, SECOND)]) == g4
    ensures GraphAfter(Top(), Singles(self)) == g4
  {
    var c, d, e, f := Child(FIRST, "p"), Child(SECOND, "q"), Leaf("1", self, FIRST), Leaf("2", self, SECOND);
    CollectionsByOne();
    GraphSnoc(Top(), [[c], [d]], [e]);
    GraphSnoc(Top(), [[c], [d], [e]], [f]);
    assert [[c], [d]] + [[e]] == [[c], [d], [e]] && [[c], [d], [e]] + [[f]] == Singles(self);
  }

  lemma FeaturesByTwo(self: NonEmptyString, g4: Graph)
    requires AddBatch(Collections(), [Leaf("1", self, FIRST), Leaf("2", self, SECOND)]) == g4
    ensures GraphAfter(Top(), Pairs(self)) == g4
  {
    var c, d, e, f := Child(FIRST, "p"), Child(SECOND, "q"), Leaf("1", self, FIRST), Leaf("2", self, SECOND);
    CollectionsByTwo();
    GraphSnoc(Top(), [[c, d]], [e, f]);
    assert [[c, d]] + [[e, f]] == Pairs(self);
  }

  // ---------- What the report says ----------

  /** The batches hold the objects of the search, and this is their graph. */
  ghost predicate Yields(self: NonEmptyString, maxDepth: nat, later: seq<seq<CollectedObject>>, g: Graph) {
    WellFounded([Top()], maxDepth, later) && Flatten(later) == Found(self) && GraphAfter(Top(), later) == g
  }

  lemma {:induction false} NoVersionNoRejection(latest: string, objs: seq<CollectedObject>)
    requires forall o <- objs :: o.data.Some? && o.data.value.stacVersion.None?
    ensures Outdated(latest, objs).None?
  {
    if objs != [] {
      NoVersionNoRejection(latest, objs[1..]);
    }
  }

  lemma Answered(judge: CollectedObject -> seq<Issue>, latest: string, self: NonEmptyString, maxDepth: nat,
                 later: seq<seq<CollectedObject>>, g: Graph,
                 maxObjects: int, limit: nat, r: Result<Response, Rejection>)
    requires Yields(self, maxDepth, later, g) && |g.order| < maxObjects
    requires Answers(r, judge, latest, [[Top()]] + later, maxObjects, limit)
    ensures if Deep(g.kids, 0, limit)
            then r.Success? && Reports(r.value, g, Findings(judge, [Top()] + Found(self)), 0, limit)
            else r == Failure(TooDeep)
  {
    NotRejected(latest, self, later);
    AnswerBelowCap(judge, latest, Top(), maxDepth, later, maxObjects, limit, r);
  }

  lemma NotRejected(latest: string, self: NonEmptyString, later: seq<seq<CollectedObject>>)
    requires Flatten(later) == Found(self)
    ensures Rejected(latest, [[Top()]] + later).None?
  {
    RejectionIgnoresBatching(latest, [Top()], later);
    NoVersionNoRejection(latest, [Top()] + Found(self));
  }

  /** The batches of any width: single objects with one fetch at a time, else two pairs. */
  lemma SearchYields(self: NonEmptyString, maxDepth: nat, maxObjects: int, room: int)
    requires maxDepth >= 2 && maxObjects >= 5 && room >= 1
    ensures Yields(self, maxDepth, Batches(PlanFor(self, maxDepth, maxObjects), room),
                   GraphAfter(Top(), if room == 1 then Singles(self) else Pairs(self)))
  {
    PlanOfTwo(self, maxDepth, maxObjects);
    TreePlanIsSound(SmallNet(self), TOP, maxDepth, true, maxObjects, FetchObjects(SmallNet(self), RootEntry(TOP)));
    BatchesAreWellFounded(PlanFor(self, maxDepth, maxObjects), room, Top(), maxDepth);
    if room == 1 {
      BatchesOfSingles(self, maxDepth, maxObjects);
    } else {
      BatchesOfPairs(self, maxDepth, maxObjects, room);
    }
    FlatSingles(self);
    FlatPairs(self);
  }

  lemma FlatSingles(self: NonEmptyString)
    ensures Flatten(Singles(self)) == Found(self)
  {
    var s := Singles(self);
    assert s[1..][1..] == s[2..] && s[2..][1..] == s[3..] && s[3..][1..] == [];
    assert Flatten(s[3..]) == s[3] + [] && Flatten(s[2..]) == s[2] + s[3];
    assert Flatten(s[1..]) == s[1] + (s[2] + s[3]);
  }

  lemma FlatPairs(self: NonEmptyString)
    ensures Flatten(Pairs(self)) == Found(self)
  {
    var s := Pairs(self);
    assert s[1..][1..] == [] && Flatten(s[1..]) == s[1] + [];
  }

  // ---------- Walks over these graphs ----------

  lemma ShortWalk(kids: seq<seq<nat>>, k: nat, x: nat)
    requires k < |kids| && x < |kids| && kids[x] == [] && kids[k] == [x]
    ensures Deep(kids, k, 2) && Walk(kids, k, 2) == [k, x]
  {
    LeafWalk(kids, x, 1);
    assert [k] + [x] == [k, x];
  }

  lemma FullWalk(kids: seq<seq<nat>>, a: seq<nat>, b: seq<nat>, limit: nat)
    requires |kids| > 2 && kids[0] == [1, 2] && limit >= 3
    requires Deep(kids, 1, 2) && Walk(kids, 1, 2) == a && Deep(kids, 2, 2) && Walk(kids, 2, 2) == b
    ensures Deep(kids, 0, limit) && Walk(kids, 0, limit) == [0] + (a + b)
  {
    assert [1, 2][1..] == [2] && [2][1..] == [];
    assert WalkAll(kids, [2], 2) == b + [];
    assert WalkAll(kids, [1, 2], 2) == a + b;
    DeepMore(kids, 0, 3, limit);
  }

  // ---------- The width decides whether the tree is valid ----------

  /** Only the feature of the first page has an error. */
  function FirstFails(o: CollectedObject): seq<Issue> {
    if o.data == Some(Feature("1", "s")) then [Issue(Error, Item, o.url, "broken")] else []
  }

  function SharedOwner(k: nat): map<Url, nat> {
    map[TOP := 0, FIRST := 1, SECOND := 2, Url("s") := k]
  }

  lemma SharedIsNew()
    ensures Url("s") !in [TOP, FIRST, SECOND]
  {
    assert Url("s").text[0] == 's' && TOP.text[0] == 'r' && FIRST.text[0] == 'c' && SECOND.text[0] == 'd';
  }

  lemma SharedByOne()
    ensures GraphAfter(Top(), Singles("s")) == SharedGraph(3)
  {
    var e, f := Leaf("1", "s", FIRST), Leaf("2", "s", SECOND);
    var order := [TOP, FIRST, SECOND, Url("s")];
    var g3, g4 := Graph(SharedOwner(3), order, [[1, 2], [3], [], []]),
        Graph(SharedOwner(4), order, [[1, 2], [3], [4], [], []]);
    PlacesDiffer();
    Places(TOP, FIRST, SECOND, FIRST_PAGE, SECOND_PAGE);
    SharedIsNew();
    SingleBatch(Collections(), e);
    AddEdgeIs(Collections().kids + [[]], 1, 3, g3.kids);
    assert Collections().owner[Url("s") := 3] == g3.owner && Collections().order + [Url("s")] == order;
    assert AddBatch(Collections(), [e]) == g3;
    SingleBatch(g3, f);
    AddEdgeIs(g3.kids + [[]], 2, 4, g4.kids);
    assert g3.owner[Url("s") := 4] == g4.owner;
    assert AddBatch(g3, [f]) == g4;
    FeaturesByOne("s", g3, g4);
  }

  lemma SharedByTwo()
    ensures GraphAfter(Top(), Pairs("s")) == SharedGraph(4)
  {
    var e, f := Leaf("1", "s", FIRST), Leaf("2", "s", SECOND);
    var g4 := Graph(SharedOwner(4), [TOP, FIRST, SECOND, Url("s")], [[1, 2], [4], [4], [], []]);
    PlacesDiffer();
    Places(TOP, FIRST, SECOND, FIRST_PAGE, SECOND_PAGE);
    SharedIsNew();
    var s := StoreOne(StoreOne(Collections(), e), f);
    assert s.kids == [[1, 2], [], [], [], []] && s.owner == g4.owner && s.order == g4.order;
    DoubleBatch(Collections(), e, f);
    AddEdgeIs(s.kids, 1, 4, [[1, 2], [4], [], [], []]);
    AddEdgeIs([[1, 2], [4], [], [], []], 2, 4, g4.kids);
    FeaturesByTwo("s", g4);
  }

  lemma GatherNext<T>(lists: seq<seq<T>>, k: nat, rest: seq<nat>)
    requires k < |lists|
    ensures Gather(lists, [k] + rest) == lists[k] + Gather(lists, rest)
  {
    assert ([k] + rest)[1..] == rest;
  }

  lemma GatherFive<T>(lists: seq<seq<T>>, a: nat, b: nat, c: nat, d: nat, e: nat)
    requires a < |lists| && b < |lists| && c < |lists| && d < |lists| && e < |lists|
    ensures Gather(lists, [a, b, c, d, e]) == lists[a] + (lists[b] + (lists[c] + (lists[d] + lists[e])))
  {
    FiveIsSum(a, b, c, d, e);
    GatherNext(lists, a, [b] + ([c] + ([d] + ([e] + []))));
    GatherNext(lists, b, [c] + ([d] + ([e] + [])));
    GatherNext(lists, c, [d] + ([e] + []));
    GatherNext(lists, d, [e] + []);
    GatherNext(lists, e, []);
    var none: seq<T> := [];
    assert Gather(lists, []) == none && lists[e] + none == lists[e];
  }

  lemma FiveIsSum(a: nat, b: nat, c: nat, d: nat, e: nat)
    ensures [a, b, c, d, e] == [a] + ([b] + ([c] + ([d] + ([e] + []))))
  {
  }

  /** The findings of the five objects, and their errors. */
  lemma ErrorsOfFive()
    ensures var fs := Findings(FirstFails, [Top()] + Found("s"));
            && |fs| == 5 && Lists(fs, Error) == [[], [], [], [Issue(Error, Item, Url("s"), "broken")], []]
  {
    var objs := [Top()] + Found("s");
    var fs := Findings(FirstFails, objs);
    assert "Catalog"[0] == 'C' && "Collection"[0] == 'C' && "Feature"[0] == 'F' && "1"[0] == '1' && "2"[0] == '2';
    forall k | 0 <= k < 5 && k != 3 ensures FirstFails(objs[k]) == [] {
      assert objs[k].data != Some(Feature("1", "s"));
    }
    var issue := Issue(Error, Item, Url("s"), "broken");
    assert FirstFails(objs[3]) == [issue] && [issue][1..] == [];
    assert IssuesAt([issue], Error) == [issue] + [];
    forall k | 0 <= k < 5 ensures Lists(fs, Error)[k] == if k == 3 then [issue] else [] {
      assert fs[k] == Judged(FirstFails, objs[k]);
    }
  }

  lemma {:induction false} NoErrors(fs: seq<Finding>)
    requires forall k :: 0 <= k < |fs| ==> IssuesAt(fs[k].issues, Error) == []
    ensures AllAt(fs, Error) == []
  {
    if fs != [] {
      NoErrors(fs[1..]);
      assert Lists(fs, Error) == [IssuesAt(fs[0].issues, Error)] + Lists(fs[1..], Error);
    }
  }

  /** The answers to this catalog when `room` entries are fetched at a time. */
  ghost predicate AnswersFor(r: Result<Response, Rejection>, judge: CollectedObject -> seq<Issue>, latest: string,
                             self: NonEmptyString, maxDepth: nat, maxObjects: int, room: int, limit: nat) {
    Answers(r, judge, latest, [[Top()]] + Batches(PlanFor(self, maxDepth, maxObjects), room), maxObjects, limit)
  }

  /** One catalog, validated with any number of parallel fetches: with one at a time it is invalid, with
      more it is valid, and the flat summary counts four objects without errors either way. */
  lemma WidthDecidesValidity(latest: string, maxDepth: nat, maxObjects: int, room: int, limit: nat,
                             r: Result<Response, Rejection>)
    requires maxDepth >= 2 && maxObjects >= 5 && room >= 1 && limit >= 3
    requires AnswersFor(r, FirstFails, latest, "s", maxDepth, maxObjects, room, limit)
    ensures r.Success? && r.value.total == 5 && (r.value.valid <==> room >= 2)
    ensures r.value.summary.total == 4 && r.value.summary.errorCount == 0
  {
    SearchYields("s", maxDepth, maxObjects, room);
    SharedByOne();
    SharedByTwo();
    var later := Batches(PlanFor("s", maxDepth, maxObjects), room);
    ReportOfWalk(latest, maxDepth, maxObjects, limit, later, if room == 1 then 3 else 4, r);
  }

  /** The report's graph, with `x` as the node below the first collection. */
  function SharedGraph(x: nat): Graph {
    Graph(SharedOwner(4), [TOP, FIRST, SECOND, Url("s")], [[1, 2], [x], [4], [], []])
  }

  lemma ReportOfWalk(latest: string, maxDepth: nat, maxObjects: int, limit: nat, later: seq<seq<CollectedObject>>,
                     x: nat, r: Result<Response, Rejection>)
    requires maxObjects >= 5 && limit >= 3 && (x == 3 || x == 4)
    requires Yields("s", maxDepth, later, SharedGraph(x))
    requires Answers(r, FirstFails, latest, [[Top()]] + later, maxObjects, limit)
    ensures r.Success? && r.value.total == 5 && (r.value.valid <==> x == 4)
    ensures r.value.summary.total == 4 && r.value.summary.errorCount == 0
  {
    WalkOfShared(x, limit);
    Answered(FirstFails, latest, "s", maxDepth, later, SharedGraph(x), maxObjects, limit, r);
    FiguresOfShared(x, limit, Findings(FirstFails, [Top()] + Found("s")), r.value);
  }

  lemma WalkOfShared(x: nat, limit: nat)
    requires limit >= 3 && (x == 3 || x == 4)
    ensures Deep(SharedGraph(x).kids, 0, limit) && Walk(SharedGraph(x).kids, 0, limit) == [0, 1, x, 2, 4]
  {
    var kids := SharedGraph(x).kids;
    ShortWalk(kids, 1, x);
    ShortWalk(kids, 2, 4);
    FullWalk(kids, [1, x], [2, 4], limit);
    assert [0] + ([1, x] + [2, 4]) == [0, 1, x, 2, 4];
  }

  lemma FiguresOfShared(x: nat, limit: nat, fs: seq<Finding>, response: Response)
    requires limit >= 3 && (x == 3 || x == 4) && fs == Findings(FirstFails, [Top()] + Found("s"))
    requires Reports(response, SharedGraph(x), fs, 0, limit)
    ensures response.total == 5 && (response.valid <==> x == 4)
    ensures response.summary.total == 4 && response.summary.errorCount == 0
  {
    WalkOfShared(x, limit);
    ErrorsOfFive();
    GatherFive(Lists(fs, Error), 0, 1, x, 2, 4);
    StoredHasNoError(SharedGraph(x), fs);
  }

  lemma StoredHasNoError(g: Graph, fs: seq<Finding>)
    requires g.owner == SharedOwner(4) && g.order == [TOP, FIRST, SECOND, Url("s")]
    requires |fs| == 5 && Lists(fs, Error) == [[], [], [], Lists(fs, Error)[3], []]
    ensures |Stored(g, fs)| == 4 && AllAt(Stored(g, fs), Error) == []
  {
    PlacesDiffer();
    Places(TOP, FIRST, SECOND, FIRST_PAGE, SECOND_PAGE);
    SharedIsNew();
    var stored := Stored(g, fs);
    assert stored == [fs[0], fs[1], fs[2], fs[4]];
    forall k | 0 <= k < 4 ensures IssuesAt(stored[k].issues, Error) == [] {
      assert IssuesAt(stored[k].issues, Error) == Lists(fs, Error)[if k < 3 then k else 4];
    }
    NoErrors(stored);
  }

  lemma NothingRaises(s: Search, a: QueueEntry, b: QueueEntry, c: QueueEntry, d: QueueEntry, objs: seq<CollectedObject>)
    requires |objs| == 4 && Fetches(s, a, objs[0]) && Fetches(s, b, objs[1]) && Fetches(s, c, objs[2])
            && Fetches(s, d, objs[3])
    ensures !AnyRaises(s, [a, b, c, d]) && Objects(s, [a, b, c, d]) == objs
  {
    ObjectsOfTwo(s, a, objs[0], b, objs[1]);
    ObjectsOfTwo(s, c, objs[2], d, objs[3]);
    assert [a, b, c, d] == [a, b] + [c, d];
    ObjectsAppend(s, [a, b], [c, d]);
    assert [objs[0], objs[1]] + [objs[2], objs[3]] == objs;
  }

  /** The search raises nowhere, and no version is outdated. */
  lemma RunIsUndisturbed(self: NonEmptyString, latest: string, maxDepth: nat, maxObjects: int)
    requires maxDepth >= 2 && maxObjects >= 5
    ensures var plan := PlanFor(self, maxDepth, maxObjects);
            !Aborts(plan) && Verdict(latest, [Top()], Outcome(plan)).None?
  {
    var s := StaticSearch(SmallNet(self), TOP, maxDepth, maxObjects);
    var a, b, c, d := ChildEntry(FIRST), ChildEntry(SECOND),
        PageEntry(FIRST_PAGE, FIRST), PageEntry(SECOND_PAGE, SECOND);
    PlanOfTwo(self, maxDepth, maxObjects);
    TheSearchIsTwoChains(self, maxDepth, maxObjects);
    OneAtATime(s, TOP, a, b, c, d);
    AllFetch(self, maxDepth, maxObjects);
    NothingRaises(s, a, b, c, d, Found(self));
    NothingOutdated(latest, self);
  }

  lemma OneAtATime(s: Search, top: Url, a: QueueEntry, b: QueueEntry, c: QueueEntry, d: QueueEntry)
    requires TwoChains(s, top, a, b, c, d)
    ensures Fifo(s, [a, b], {top}) == [a, b, c, d]
  {
    RoundsByTwo(s, 2, top, a, b, c, d);
    RoundsFollowFifo(s, 2, [a, b], {top}, {});
    assert [[a, b], [c, d]][1..] == [[c, d]] && [[c, d]][1..] == [];
    assert Flatten([[c, d]]) == [c, d] + [] && Flatten([[a, b], [c, d]]) == [a, b] + [c, d];
  }

  lemma NothingOutdated(latest: string, self: NonEmptyString)
    ensures Verdict(latest, [Top()], Found(self)).None?
  {
    NoVersionNoRejection(latest, [Top()] + Found(self));
  }

  /** Runs the whole feature on the catalog whose features share the address "s". */
  method ValidateShared(latest: string, maxDepth: nat, maxObjects: int, room: int, limit: nat)
    returns (r: Option<Result<Response, Rejection>>)
    requires maxDepth >= 2 && maxObjects >= 5 && room >= 1 && limit >= 3
    ensures r.Some? && r.value.Success? && (r.value.value.valid <==> room >= 2)
  {
    ghost var batches, nodes;
    r, batches, nodes := ValidateStac(SmallNet("s"), FirstFails, latest, TOP, maxDepth, true, maxObjects, room, limit);
    SharedIsAnswered(latest, maxDepth, maxObjects, room, limit, r, batches);
    WidthDecidesValidity(latest, maxDepth, maxObjects, room, limit, r.value);
  }

  lemma SharedIsAnswered(latest: string, maxDepth: nat, maxObjects: int, room: int, limit: nat,
                         r: Option<Result<Response, Rejection>>, batches: seq<seq<CollectedObject>>)
    requires maxDepth >= 2 && maxObjects >= 5
    requires Validated(r, batches, SmallNet("s"), FirstFails, latest, TOP, maxDepth, true, maxObjects, room, limit)
    ensures r.Some? && AnswersFor(r.value, FirstFails, latest, "s", maxDepth, maxObjects, room, limit)
  {
    PlanOfTwo("s", maxDepth, maxObjects);
    RunIsUndisturbed("s", latest, maxDepth, maxObjects);
    UndisturbedAnswer(r, batches, SmallNet("s"), FirstFails, latest, TOP, maxDepth, true, maxObjects, room, limit);
  }

  // ---------- The width decides whether the summary ends ----------

  function LoopOwner(k: nat): map<Url, nat> {
    map[TOP := 0, FIRST := k, SECOND := 2]
  }

  lemma LoopByOne()
    ensures GraphAfter(Top(), Singles("c")) == Graph(LoopOwner(4), [TOP, FIRST, SECOND], [[1, 2], [], [4], [3], []])
  {
    var e, f := Leaf("1", "c", FIRST), Leaf("2", "c", SECOND);
    var order := [TOP, FIRST, SECOND];
    var g3, g4 := Graph(LoopOwner(3), order, [[1, 2], [], [], [3]]),
        Graph(LoopOwner(4), order, [[1, 2], [], [4], [3], []]);
    PlacesDiffer();
    Places(TOP, FIRST, SECOND, FIRST_PAGE, SECOND_PAGE);
    SingleBatch(Collections(), e);
    AddEdgeIs(Collections().kids + [[]], 3, 3, g3.kids);
    assert Collections().owner[FIRST := 3] == g3.owner;
    assert AddBatch(Collections(), [e]) == g3;
    SingleBatch(g3, f);
    AddEdgeIs(g3.kids + [[]], 2, 4, g4.kids);
    assert g3.owner[FIRST := 4] == g4.owner;
    assert AddBatch(g3, [f]) == g4;
    FeaturesByOne("c", g3, g4);
  }

  lemma LoopByTwo()
    ensures GraphAfter(Top(), Pairs("c")) == Graph(LoopOwner(4), [TOP, FIRST, SECOND], [[1, 2], [], [4], [], [4]])
  {
    var e, f := Leaf("1", "c", FIRST), Leaf("2", "c", SECOND);
    var g4 := Graph(LoopOwner(4), [TOP, FIRST, SECOND], [[1, 2], [], [4], [], [4]]);
    PlacesDiffer();
    Places(TOP, FIRST, SECOND, FIRST_PAGE, SECOND_PAGE);
    var s := StoreOne(StoreOne(Collections(), e), f);
    assert s.kids == [[1, 2], [], [], [], []] && s.owner == g4.owner && s.order == g4.order;
    DoubleBatch(Collections(), e, f);
    AddEdgeIs(s.kids, 4, 4, [[1, 2], [], [], [], [4]]);
    AddEdgeIs([[1, 2], [], [], [], [4]], 2, 4, g4.kids);
    FeaturesByTwo("c", g4);
  }

  lemma WalkOfLoop(limit: nat)
    requires limit >= 3
    ensures var kids := GraphAfter(Top(), Singles("c")).kids;
            Deep(kids, 0, limit) && Walk(kids, 0, limit) == [0, 1, 2, 4]
  {
    LoopByOne();
    var kids := [[1, 2], [], [4], [3], []];
    LeafWalk(kids, 1, 2);
    assert Deep(kids, 1, 2) && Walk(kids, 1, 2) == [1] + [];
    ShortWalk(kids, 2, 4);
    FullWalk(kids, [1], [2, 4], limit);
    assert [0] + ([1] + [2, 4]) == [0, 1, 2, 4];
  }

  /** Features under the address of the first collection: with one fetch at a time the recursion ends,
      with more the walk from the root runs into a loop, whatever the recursion limit. */
  lemma WidthDecidesTheEnd(judge: CollectedObject -> seq<Issue>, latest: string, maxDepth: nat, maxObjects: int,
                           room: int, limit: nat, r: Result<Response, Rejection>)
    requires maxDepth >= 2 && maxObjects >= 5 && room >= 1 && limit >= 3
    requires AnswersFor(r, judge, latest, "c", maxDepth, maxObjects, room, limit)
    ensures Ends(Build([[Top()]] + Batches(PlanFor("c", maxDepth, maxObjects), room)).kids, 0) <==> room == 1
    ensures if room == 1 then r.Success? && r.value.total == 4 else r == Failure(TooDeep)
  {
    var later := Batches(PlanFor("c", maxDepth, maxObjects), room);
    var g := GraphAfter(Top(), if room == 1 then Singles("c") else Pairs("c"));
    SearchYields("c", maxDepth, maxObjects, room);
    BuildIsGraphAfter(Top(), later);
    LoopByOne();
    LoopByTwo();
    WalkOfLoop(limit);
    WalkRunsIntoLoop(GraphAfter(Top(), Pairs("c")).kids);
    Answered(judge, latest, "c", maxDepth, later, g, maxObjects, limit, r);
  }

  lemma WalkRunsIntoLoop(kids: seq<seq<nat>>)
    requires kids == [[1, 2], [], [4], [], [4]]
    ensures !Ends(kids, 0)
  {
    assert kids[4][0] == 4 && kids[2][0] == 4 && kids[0][1] == 2;
    LoopNeverEnds(kids, 4);
    if Ends(kids, 0) {
      EndsBelow(kids, 0, 2);
      EndsBelow(kids, 2, 4);
    }
  }
}
