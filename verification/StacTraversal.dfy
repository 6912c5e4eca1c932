/** Page expansion and the two discovery policies that drive the search. */
module StacTraversal {
  import opened Wrappers
  import opened Sequences
  import opened StacObjects
  import opened BreadthFirst
  import opened Names

  datatype Answer = Unreadable | NotAnObject | Parsed(doc: Doc)

  /** The network and the URL library: reading a URL, resolving an href, comparing hosts, quoting.
      Resolving gives None where the library raises: for a malformed address or an href that is no text. */
  datatype Net = Net(
    read: Url -> Answer,
    join: (Url, string) -> Option<Url>,
    sameHost: (Url, Url) -> bool,
    quote: string -> string)

  // ---------- Links ----------

  function FirstHref(links: seq<Link>, rel: string): Option<string> {
    if links == [] then None
    else if links[0].Link? && links[0].rel == rel && links[0].href != "" then Some(links[0].href)
    else FirstHref(links[1..], rel)
  }

  /** A link that the relations select and whose href has to be resolved. */
  predicate Selected(l: Link, rels: set<string>) {
    l.Link? && l.rel in rels && l.href != ""
  }

  /** The hrefs of the links with one of the given relations, resolved, in order; None where resolving raises. */
  function Hrefs(net: Net, base: Url, links: seq<Link>, rels: set<string>): Option<seq<Url>> {
    if links == [] then Some([])
    else if !Selected(links[0], rels) then Hrefs(net, base, links[1..], rels)
    else
      match net.join(base, links[0].href)
      case None => None
      case Some(url) =>
        match Hrefs(net, base, links[1..], rels)
        case None => None
        case Some(rest) => Some([url] + rest)
  }

  /** Some selected link cannot be resolved. */
  ghost predicate Unresolvable(net: Net, base: Url, links: seq<Link>, rels: set<string>) {
    exists i :: 0 <= i < |links| && Selected(links[i], rels) && net.join(base, links[i].href).None?
  }

  lemma {:induction false} HrefsRaiseIff(net: Net, base: Url, links: seq<Link>, rels: set<string>)
    ensures Hrefs(net, base, links, rels).None? <==> Unresolvable(net, base, links, rels)
  {
    if links != [] {
      HrefsRaiseIff(net, base, links[1..], rels);
      if i :| 0 < i < |links| && Selected(links[i], rels) && net.join(base, links[i].href).None? {
        assert links[1..][i - 1] == links[i];
      }
      if i :| 0 <= i < |links[1..]| && Selected(links[1..][i], rels) && net.join(base, links[1..][i].href).None? {
        assert links[i + 1] == links[1..][i];
      }
    }
  }

  function EntriesAt(urls: seq<Url>, depth: nat, parentType: Option<ObjType>,
                     parentUrl: Option<Url>): (es: seq<QueueEntry>)
    ensures |es| == |urls| && forall e <- es :: e.depth == depth && e.parentUrl == parentUrl
  {
    if urls == [] then []
      else [QueueEntry(urls[0], depth, parentType, parentUrl)] + EntriesAt(urls[1..], depth, parentType, parentUrl)
  }

  /** None where reading the links or resolving one of them raises. */
  function StaticChildren(net: Net, data: Doc, url: Url, depth: nat, objType: ObjType): Option<seq<QueueEntry>> {
    if data.links.None? then None
    else
      match Hrefs(net, url, data.links.value, {"child", "item"})
      case None => None
      case Some(urls) => Some(EntriesAt(urls, depth + 1, Some(objType), Some(url)))
  }

  function NextPages(net: Net, e: QueueEntry, raw: Doc): Option<seq<QueueEntry>> {
    if raw.links.None? then None
    else
      match Hrefs(net, e.url, raw.links.value, {"next"})
      case None => None
      case Some(urls) => Some(EntriesAt(urls, e.depth, e.parentType, e.parentUrl))
  }

  /** The outer None where resolving the link raises, the inner one where there is none. */
  function LinkedItemsUrl(net: Net, base: Url, links: seq<Link>): Option<Option<Url>> {
    match FirstHref(links, "items")
    case None => Some(None)
    case Some(href) =>
      match net.join(base, href)
      case None => None
      case Some(url) => Some(Some(url))
  }

  function RStripSlash(s: string): string {
    if s != "" && s[|s| - 1] == '/' then RStripSlash(s[..|s| - 1]) else s
  }

  function BeforeQuery(s: string): string {
    if s == "" || s[0] == '?' then "" else [s[0]] + BeforeQuery(s[1..])
  }

  function WithoutSuffix(s: string, suffix: string): string {
    if |suffix| <= |s| && s[|s| - |suffix|..] == suffix then s[..|s| - |suffix|] else s
  }

  function ItemsUrl(net: Net, url: Url, links: seq<Link>): Option<Url> {
    match LinkedItemsUrl(net, url, links)
    case None => None
    case Some(Some(u)) => Some(u)
    case Some(None) => Some(Url(RStripSlash(url.text) + "/items"))
  }

  /** The canonical URL of one collection of a listing page; the outer None where reading or
      resolving its links raises. */
  function CollectionUrl(net: Net, entry: Doc, page: Url): Option<Option<Url>> {
    if entry.links.None? then None
    else match FirstHref(entry.links.value, "self")
      case Some(href) =>
        (match net.join(page, href)
         case None => None
         case Some(url) => Some(Some(url)))
      case None =>
        if entry.id.None? || entry.id.value == "" then Some(None)
        else Some(Some(Url(WithoutSuffix(RStripSlash(BeforeQuery(page.text)), "/collections")
            + "/collections/" + net.quote(entry.id.value))))
  }

  // ---------- Fetching one queue entry ----------

  function ErrorObject(e: QueueEntry): CollectedObject {
    CollectedObject(None, e.url, Unknown, e.parentType, e.parentUrl, e.depth, true)
  }

  /** The URL of a feature: its self link, or a fragment of the page; None where its links raise. */
  function FeatureUrl(net: Net, page: Url, feature: Doc, index: nat): Option<Url> {
    if feature.links.None? then None
    else
      match FirstHref(feature.links.value, "self")
      case Some(href) => net.join(page, href)
      case None => Some(Url(page.text + "#items/" + (if feature.id.Some? then feature.id.value else Decimal(index))))
  }

  /** The objects of an items page: one for each feature, under the feature's own URL; None where
      the links of a feature raise. */
  function FeatureObjects(net: Net, e: QueueEntry, features: seq<Option<Doc>>,
                          index: nat): Option<seq<CollectedObject>> {
    if features == [] then Some([])
    else
      match FeatureObjects(net, e, features[1..], index + 1)
      case None => None
      case Some(rest) =>
        if features[0].None? then Some([ErrorObject(e)] + rest)
        else
          var feature := features[0].value;
          match FeatureUrl(net, e.url, feature, index)
          case None => None
          case Some(url) =>
            Some([CollectedObject(Some(feature), url, TypeOf(feature), e.parentType, e.parentUrl, e.depth,
                                  false)] + rest)
  }

  function FetchObjects(net: Net, e: QueueEntry): Fetched {
    match net.read(e.url)
    case Unreadable => Fetched([ErrorObject(e)], None, false)
    case NotAnObject => Fetched([ErrorObject(e)], None, false)
    case Parsed(data) =>
      if data.collections.Some? then Fetched([], Some(data), false)
      else if data.kind == "FeatureCollection" then
        match FeatureObjects(net, e, if data.features.Some? then data.features.value else [], 0)
        case None => Fetched([], None, true)
        case Some(objs) => Fetched(objs, Some(data), false)
      else
        Fetched([CollectedObject(Some(data), e.url, TypeOf(data), e.parentType, e.parentUrl, e.depth, false)],
                Some(data), false)
  }

  // ---------- Which documents make a fetch raise ----------

  /** The links of the feature cannot be iterated over, or its self link cannot be resolved. */
  predicate FeatureRaises(net: Net, page: Url, feature: Doc) {
    feature.links.None?
    || (var self := FirstHref(feature.links.value, "self"); self.Some? && net.join(page, self.value).None?)
  }

  /** The URL answers with an items page that holds such a feature. */
  ghost predicate PageRaises(net: Net, url: Url) {
    match net.read(url)
    case Parsed(data) =>
      && data.collections.None? && data.kind == "FeatureCollection" && data.features.Some?
      && exists i :: 0 <= i < |data.features.value| && RaisesAt(net, url, data.features.value, i)
    case _ => false
  }

  predicate RaisesAt(net: Net, url: Url, features: seq<Option<Doc>>, i: nat)
    requires i < |features|
  {
    features[i].Some? && FeatureRaises(net, url, features[i].value)
  }

  lemma {:induction false} FeaturesRaiseIff(net: Net, e: QueueEntry, features: seq<Option<Doc>>, index: nat)
    ensures FeatureObjects(net, e, features, index).None?
            <==> exists i :: 0 <= i < |features| && RaisesAt(net, e.url, features, i)
    decreases |features|
  {
    if features != [] {
      FeaturesRaiseIff(net, e, features[1..], index + 1);
      if i :| 0 < i < |features| && RaisesAt(net, e.url, features, i) {
        assert features[1..][i - 1] == features[i] && RaisesAt(net, e.url, features[1..], i - 1);
      }
      if i :| 0 <= i < |features[1..]| && RaisesAt(net, e.url, features[1..], i) {
        assert features[i + 1] == features[1..][i] && RaisesAt(net, e.url, features, i + 1);
      }
      assert RaisesAt(net, e.url, features, 0)
          <==> features[0].Some? && FeatureUrl(net, e.url, features[0].value, index).None?;
    }
  }

  /** Fetching raises exactly on an items page with a feature whose links raise. */
  lemma FetchRaisesIff(net: Net, e: QueueEntry)
    ensures FetchObjects(net, e).raised <==> PageRaises(net, e.url)
  {
    match net.read(e.url)
    case Parsed(data) =>
      FeaturesRaiseIff(net, e, if data.features.Some? then data.features.value else [], 0);
    case _ =>
  }

  // ---------- Discovery in a static catalog ----------

  /** The children of the fetched objects; an object whose links raise is skipped. */
  function StaticBelow(net: Net, e: QueueEntry, raw: Doc, objs: seq<CollectedObject>): seq<QueueEntry> {
    if objs == [] then []
    else
      var o, rest := objs[0], StaticBelow(net, e, raw, objs[1..]);
      if o.fetchError || o.data.None? then rest
      else match StaticChildren(net, o.data.value, o.url, o.depth, o.objType)
        case None => rest
        case Some(children) =>
          if o.objType != Collection || raw.links.None? then children + rest
          else
            match LinkedItemsUrl(net, o.url, raw.links.value)
            case Some(Some(url)) => children + [QueueEntry(url, e.depth + 1, Some(o.objType), Some(o.url))] + rest
            case _ => children + rest
  }

  function DiscoverStatic(net: Net, maxDepth: nat, e: QueueEntry, raw: Doc,
                          objs: seq<CollectedObject>): Option<seq<QueueEntry>> {
    match NextPages(net, e, raw)
    case None => None
    case Some(pages) => Some(if e.depth >= maxDepth then pages else pages + StaticBelow(net, e, raw, objs))
  }

  // ---------- Discovery through the API endpoints ----------

  function ListedCollections(net: Net, e: QueueEntry, listed: seq<Option<Doc>>): Option<seq<QueueEntry>> {
    if listed == [] then Some([])
    else match ListedCollections(net, e, listed[1..])
      case None => None
      case Some(rest) =>
        if listed[0].None? then Some(rest)
        else match CollectionUrl(net, listed[0].value, e.url)
          case None => None
          case Some(None) => Some(rest)
          case Some(Some(u)) => Some([QueueEntry(u, e.depth, e.parentType, e.parentUrl)] + rest)
  }

  function ApiBelow(net: Net, e: QueueEntry, links: seq<Link>, objs: seq<CollectedObject>): Option<seq<QueueEntry>> {
    if objs == [] then Some([])
    else match ApiBelow(net, e, links, objs[1..])
      case None => None
      case Some(rest) =>
        var o := objs[0];
        if o.data.None? then Some(rest)
        else match StaticChildren(net, o.data.value, o.url, o.depth, o.objType)
          case None => None
          case Some(children) =>
            if o.objType != Collection then Some(children + rest)
            else
              match ItemsUrl(net, o.url, links)
              case None => None
              case Some(url) => Some([QueueEntry(url, e.depth + 1, Some(Collection), Some(o.url))] + children + rest)
  }

  /** None where discovery raises, which loses the next pages as well. */
  function DiscoverApi(net: Net, maxDepth: nat, collectChildren: bool, e: QueueEntry, raw: Doc,
                       objs: seq<CollectedObject>): Option<seq<QueueEntry>> {
    match NextPages(net, e, raw)
    case None => None
    case Some(pages) =>
      if !collectChildren || e.depth >= maxDepth then Some(pages)
      else
        match ListedCollections(net, e, if raw.collections.Some? then raw.collections.value else [])
        case None => None
        case Some(listed) =>
          match ApiBelow(net, e, raw.links.value, objs)
          case None => None
          case Some(below) => Some(pages + listed + below)
  }

  // ---------- Every discovered entry hangs one level below an object or beside its page ----------

  ghost predicate Beside(e: QueueEntry, c: QueueEntry) {
    c.depth == e.depth && c.parentUrl == e.parentUrl
  }

  ghost predicate Below(objs: seq<CollectedObject>, e: QueueEntry, c: QueueEntry) {
    c.depth == e.depth + 1 && exists o <- objs :: c.parentUrl == Some(o.url)
  }

  /** Fetched objects sit at their entry's place, and discovery goes at most one level down and never
      below `maxDepth`. */
  ghost predicate Layered(s: Search, maxDepth: nat) {
    forall e: QueueEntry ::
      && (forall o <- s.fetch(e).objs :: o.depth == e.depth && o.parentUrl == e.parentUrl)
      && (forall c <- Children(s, e) :: Beside(e, c) || (e.depth < maxDepth && Below(s.fetch(e).objs, e, c)))
  }

  lemma {:induction false} FeaturesSitWithPage(net: Net, e: QueueEntry, features: seq<Option<Doc>>, index: nat)
    requires FeatureObjects(net, e, features, index).Some?
    ensures forall o <- FeatureObjects(net, e, features, index).value ::
            o.depth == e.depth && o.parentUrl == e.parentUrl
    decreases |features|
  {
    if features != [] {
      FeaturesSitWithPage(net, e, features[1..], index + 1);
    }
  }

  lemma FetchedSitWithEntry(net: Net, e: QueueEntry)
    ensures forall o <- FetchObjects(net, e).objs :: o.depth == e.depth && o.parentUrl == e.parentUrl
  {
    match net.read(e.url)
    case Parsed(data) =>
      var features := if data.features.Some? then data.features.value else [];
      if FeatureObjects(net, e, features, 0).Some? {
        FeaturesSitWithPage(net, e, features, 0);
      }
    case _ =>
  }

  lemma {:induction false} StaticBelowIsBelow(net: Net, e: QueueEntry, raw: Doc, objs: seq<CollectedObject>)
    requires forall o <- objs :: o.depth == e.depth
    ensures forall c <- StaticBelow(net, e, raw, objs) :: Below(objs, e, c)
    decreases |objs|
  {
    if objs != [] {
      StaticBelowIsBelow(net, e, raw, objs[1..]);
      forall c | c in StaticBelow(net, e, raw, objs) ensures Below(objs, e, c) {
        if c in StaticBelow(net, e, raw, objs[1..]) {
          var o :| o in objs[1..] && c.parentUrl == Some(o.url);
          assert o in objs;
        } else {
          assert c.parentUrl == Some(objs[0].url);
        }
      }
    }
  }

  lemma {:induction false} ApiBelowIsBelow(net: Net, e: QueueEntry, links: seq<Link>, objs: seq<CollectedObject>)
    requires forall o <- objs :: o.depth == e.depth
    requires ApiBelow(net, e, links, objs).Some?
    ensures forall c <- ApiBelow(net, e, links, objs).value :: Below(objs, e, c)
    decreases |objs|
  {
    if objs != [] {
      ApiBelowIsBelow(net, e, links, objs[1..]);
      forall c | c in ApiBelow(net, e, links, objs).value ensures Below(objs, e, c) {
        if c in ApiBelow(net, e, links, objs[1..]).value {
          var o :| o in objs[1..] && c.parentUrl == Some(o.url);
          assert o in objs;
        } else {
          assert c.parentUrl == Some(objs[0].url);
        }
      }
    }
  }

  lemma {:induction false} ListedAreBeside(net: Net, e: QueueEntry, listed: seq<Option<Doc>>)
    requires ListedCollections(net, e, listed).Some?
    ensures forall c <- ListedCollections(net, e, listed).value :: Beside(e, c)
    decreases |listed|
  {
    if listed != [] {
      ListedAreBeside(net, e, listed[1..]);
    }
  }

  function StaticSearch(net: Net, rootUrl: Url, maxDepth: nat, maxObjects: int): Search {
    Search(e => FetchObjects(net, e), (e, raw, objs) => DiscoverStatic(net, maxDepth, e, raw, objs), Some(rootUrl),
           net.sameHost, maxObjects)
  }

  function ApiSearch(net: Net, pin: Option<Url>, maxDepth: nat, collectChildren: bool, maxObjects: int): Search {
    Search(e => FetchObjects(net, e), (e, raw, objs) => DiscoverApi(net, maxDepth, collectChildren, e, raw, objs),
           pin, net.sameHost, maxObjects)
  }

  lemma StaticSearchIsLayered(net: Net, rootUrl: Url, maxDepth: nat, maxObjects: int)
    ensures Layered(StaticSearch(net, rootUrl, maxDepth, maxObjects), maxDepth)
  {
    var s := StaticSearch(net, rootUrl, maxDepth, maxObjects);
    forall e: QueueEntry
      ensures forall o <- s.fetch(e).objs :: o.depth == e.depth && o.parentUrl == e.parentUrl
      ensures forall c <- Children(s, e) :: Beside(e, c) || (e.depth < maxDepth && Below(s.fetch(e).objs, e, c))
    {
      FetchedSitWithEntry(net, e);
      var got := FetchObjects(net, e);
      if got.raw.Some? {
        StaticBelowIsBelow(net, e, got.raw.value, got.objs);
      }
    }
  }

  lemma ApiSearchIsLayered(net: Net, pin: Option<Url>, maxDepth: nat, collectChildren: bool, maxObjects: int)
    ensures Layered(ApiSearch(net, pin, maxDepth, collectChildren, maxObjects), maxDepth)
  {
    var s := ApiSearch(net, pin, maxDepth, collectChildren, maxObjects);
    forall e: QueueEntry
      ensures forall o <- s.fetch(e).objs :: o.depth == e.depth && o.parentUrl == e.parentUrl
      ensures forall c <- Children(s, e) :: Beside(e, c) || (e.depth < maxDepth && Below(s.fetch(e).objs, e, c))
    {
      FetchedSitWithEntry(net, e);
      var got := FetchObjects(net, e);
      if got.raw.Some? && DiscoverApi(net, maxDepth, collectChildren, e, got.raw.value, got.objs).Some? {
        var raw := got.raw.value;
        var listed := if raw.collections.Some? then raw.collections.value else [];
        if collectChildren && e.depth < maxDepth {
          ListedAreBeside(net, e, listed);
          ApiBelowIsBelow(net, e, raw.links.value, got.objs);
        }
      }
    }
  }

  // ---------- Tree edges are well founded ----------

  /** Some object yielded before lies exactly one level above, under the parent URL. */
  ghost predicate Anchored(before: seq<CollectedObject>, depth: nat, parentUrl: Option<Url>) {
    exists p <- before :: parentUrl == Some(p.url) && p.depth + 1 == depth
  }

  ghost predicate Ready(before: seq<CollectedObject>, maxDepth: nat, queue: seq<QueueEntry>) {
    forall e <- queue :: 1 <= e.depth <= maxDepth && Anchored(before, e.depth, e.parentUrl)
  }

  /** Every object is anchored in the batches before its own. */
  ghost predicate WellFounded(before: seq<CollectedObject>, maxDepth: nat, batches: seq<seq<CollectedObject>>) {
    forall i: int, o: CollectedObject | 0 <= i < |batches| && o in batches[i] ::
      1 <= o.depth <= maxDepth && Anchored(before + Flatten(batches[..i]), o.depth, o.parentUrl)
  }

  lemma AnchoredLater(before: seq<CollectedObject>, more: seq<CollectedObject>, depth: nat, parentUrl: Option<Url>)
    requires Anchored(before, depth, parentUrl)
    ensures Anchored(before + more, depth, parentUrl)
  {
    var p :| p in before && parentUrl == Some(p.url) && p.depth + 1 == depth;
    assert p in before + more;
  }

  lemma {:induction false} BatchIsAnchored(s: Search, maxDepth: nat, batch: seq<QueueEntry>,
                                           before: seq<CollectedObject>)
    requires Layered(s, maxDepth) && Ready(before, maxDepth, batch)
    ensures forall o <- Objects(s, batch) :: 1 <= o.depth <= maxDepth && Anchored(before, o.depth, o.parentUrl)
    ensures Ready(before + Objects(s, batch), maxDepth, AllChildren(s, batch))
    decreases |batch|
  {
    if batch != [] {
      var e, rest := batch[0], batch[1..];
      BatchIsAnchored(s, maxDepth, rest, before);
      var objs := s.fetch(e).objs;
      forall c | c in Children(s, e)
        ensures 1 <= c.depth <= maxDepth && Anchored(before + Objects(s, batch), c.depth, c.parentUrl)
      {
        if Beside(e, c) {
          AnchoredLater(before, Objects(s, batch), c.depth, c.parentUrl);
        } else {
          var o :| o in objs && c.parentUrl == Some(o.url);
          assert o in before + Objects(s, batch);
        }
      }
      forall c | c in AllChildren(s, rest)
        ensures 1 <= c.depth <= maxDepth && Anchored(before + Objects(s, batch), c.depth, c.parentUrl)
      {
        var p :| p in before + Objects(s, rest) && c.parentUrl == Some(p.url) && p.depth + 1 == c.depth;
        assert p in before + Objects(s, batch);
      }
    }
  }

  lemma {:induction false} DrainSplits(s: Search, room: int, queue: seq<QueueEntry>,
                                       visited: set<Url>, skipped: set<Url>)
    ensures var d := Drain(s, room, queue, visited, skipped);
            forall e :: e in d.batch || e in d.queue ==> e in queue
    decreases |queue|
  {
    assert queue != [] ==> queue == [queue[0]] + queue[1..];
    if queue == [] || room <= 0 || |visited| >= s.maxObjects {
    } else if queue[0].url in visited {
      DrainSplits(s, room, queue[1..], visited, skipped);
    } else if !OnHost(s, queue[0].url) {
      DrainSplits(s, room, queue[1..], visited, skipped + {queue[0].url});
    } else {
      DrainSplits(s, room - 1, queue[1..], visited + {queue[0].url}, skipped);
    }
  }

  lemma {:induction false} UnseenKeeps(found: seq<QueueEntry>, visited: set<Url>, skipped: set<Url>)
    ensures forall e <- Unseen(found, visited, skipped) :: e in found
  {
    if found != [] {
      UnseenKeeps(found[1..], visited, skipped);
    }
  }

  lemma {:induction false} RoundsAreWellFounded(s: Search, maxDepth: nat, room: int, queue: seq<QueueEntry>,
                                                visited: set<Url>, skipped: set<Url>, before: seq<CollectedObject>)
    requires Layered(s, maxDepth) && Ready(before, maxDepth, queue)
    ensures WellFounded(before, maxDepth, Yielded(s, Rounds(s, room, queue, visited, skipped)))
    decreases s.maxObjects - |visited|
  {
    if queue != [] && |visited| < s.maxObjects {
      var d := Drain(s, room, queue, visited, skipped);
      if d.batch != [] {
        DrainSplits(s, room, queue, visited, skipped);
        BatchIsAnchored(s, maxDepth, d.batch, before);
        var objs := Objects(s, d.batch);
        var found := AllChildren(s, d.batch);
        var next := d.queue + Unseen(found, d.visited, d.skipped);
        UnseenKeeps(found, d.visited, d.skipped);
        forall e | e in next ensures 1 <= e.depth <= maxDepth && Anchored(before + objs, e.depth, e.parentUrl) {
          if e in d.queue {
            AnchoredLater(before, objs, e.depth, e.parentUrl);
          }
        }
        RoundsAreWellFounded(s, maxDepth, room, next, d.visited, d.skipped, before + objs);
        WellFoundedCons(before, maxDepth, objs, Yielded(s, Rounds(s, room, next, d.visited, d.skipped)));
      }
    }
  }

  lemma WellFoundedCons(before: seq<CollectedObject>, maxDepth: nat, objs: seq<CollectedObject>,
                        later: seq<seq<CollectedObject>>)
    requires forall o <- objs :: 1 <= o.depth <= maxDepth && Anchored(before, o.depth, o.parentUrl)
    requires WellFounded(before + objs, maxDepth, later)
    ensures WellFounded(before, maxDepth, [objs] + later)
  {
    var batches := [objs] + later;
    forall i: int, o: CollectedObject | 0 <= i < |batches| && o in batches[i]
      ensures 1 <= o.depth <= maxDepth && Anchored(before + Flatten(batches[..i]), o.depth, o.parentUrl)
    {
      if i == 0 {
        assert before + Flatten(batches[..0]) == before;
      } else {
        assert o in later[i - 1];
        assert batches[..i] == [objs] + later[..i - 1];
        assert before + Flatten(batches[..i]) == before + objs + Flatten(later[..i - 1]);
      }
    }
  }
}
