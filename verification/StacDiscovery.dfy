/** What fetching and discovery find, in terms of the documents and their links. */
module StacDiscovery {
  import opened Wrappers
  import opened Sequences
  import opened StacObjects
  import opened BreadthFirst
  import opened StacTraversal
  import opened Names

  // ---------- Links ----------

  /** The first link with the relation and an href has this one. */
  ghost predicate FirstLink(links: seq<Link>, rel: string, href: string) {
    href != "" && exists i ::
      0 <= i < |links| && links[i] == Link(rel, href)
      && forall j :: 0 <= j < i ==> !(links[j].Link? && links[j].rel == rel && links[j].href != "")
  }

  lemma {:induction false} FirstHrefIs(links: seq<Link>, rel: string, href: string)
    ensures FirstHref(links, rel) == Some(href) <==> FirstLink(links, rel, href)
  {
    if links != [] {
      var rest := links[1..];
      FirstHrefIs(rest, rel, href);
      var head := links[0].Link? && links[0].rel == rel && links[0].href != "";
      if !head && FirstLink(rest, rel, href) {
        var i :| 0 <= i < |rest| && rest[i] == Link(rel, href)
          && forall j :: 0 <= j < i ==> !(rest[j].Link? && rest[j].rel == rel && rest[j].href != "");
        assert links[i + 1] == Link(rel, href);
        forall j | 0 <= j < i + 1 ensures !(links[j].Link? && links[j].rel == rel && links[j].href != "") {
          assert j > 0 ==> links[j] == rest[j - 1];
        }
      }
      if !head && FirstLink(links, rel, href) {
        var i :| 0 <= i < |links| && links[i] == Link(rel, href)
          && forall j :: 0 <= j < i ==> !(links[j].Link? && links[j].rel == rel && links[j].href != "");
        assert rest[i - 1] == Link(rel, href);
        forall j | 0 <= j < i - 1 ensures !(rest[j].Link? && rest[j].rel == rel && rest[j].href != "") {
          assert rest[j] == links[j + 1];
        }
      }
    }
  }

  /** Some link with one of the relations and an href cannot be resolved. */
  ghost predicate LinkRaises(net: Net, base: Url, links: seq<Link>, rels: set<string>) {
    exists i ::
      0 <= i < |links| && links[i].Link? && links[i].rel in rels && links[i].href != ""
      && net.join(base, links[i].href).None?
  }

  lemma HrefsRaise(net: Net, base: Url, links: seq<Link>, rels: set<string>)
    ensures Hrefs(net, base, links, rels).None? <==> LinkRaises(net, base, links, rels)
  {
    HrefsRaiseIff(net, base, links, rels);
  }

  /** `found` has one entry for each link with one of the relations and an href, in order: at the
      place where the href leads from `base`. */
  ghost predicate LinksLeadTo(net: Net, base: Url, links: seq<Link>, rels: set<string>,
                              depth: nat, parentType: Option<ObjType>, parentUrl: Option<Url>, found: seq<QueueEntry>) {
    Images(links, (l: Link) => l.Link? && l.rel in rels && l.href != "",
           (l: Link, c: QueueEntry) => l.Link? && net.join(base, l.href) == Some(c.url)
                                       && c == QueueEntry(c.url, depth, parentType, parentUrl),
           found)
  }

  lemma {:induction false} HrefsAre(net: Net, base: Url, links: seq<Link>,
                                    rels: set<string>, wanted: Link -> bool, fits: (Link, Url) -> bool)
    requires Hrefs(net, base, links, rels).Some?
    requires forall l :: wanted(l) <==> l.Link? && l.rel in rels && l.href != ""
    requires forall l, u :: fits(l, u) <==> l.Link? && net.join(base, l.href) == Some(u)
    ensures Images(links, wanted, fits, Hrefs(net, base, links, rels).value)
  {
    if links == [] {
      NoImages(wanted, fits);
    } else {
      HrefsAre(net, base, links[1..], rels, wanted, fits);
      var urls, tail := Hrefs(net, base, links, rels).value, Hrefs(net, base, links[1..], rels).value;
      var head := urls[..|urls| - |tail|];
      assert urls == head + tail && head == if wanted(links[0]) then [urls[0]] else [];
      ImagesFromTail(links, wanted, fits, head, tail);
    }
  }

  lemma {:induction false} EntriesAre(urls: seq<Url>, depth: nat, parentType: Option<ObjType>, parentUrl: Option<Url>)
    ensures forall k :: 0 <= k < |urls| ==>
              EntriesAt(urls, depth, parentType, parentUrl)[k] == QueueEntry(urls[k], depth, parentType, parentUrl)
  {
    if urls != [] {
      EntriesAre(urls[1..], depth, parentType, parentUrl);
    }
  }

  lemma EntriesFollowLinks(net: Net, base: Url, links: seq<Link>, rels: set<string>,
                           depth: nat, parentType: Option<ObjType>, parentUrl: Option<Url>)
    requires Hrefs(net, base, links, rels).Some?
    ensures LinksLeadTo(net, base, links, rels, depth, parentType, parentUrl,
                        EntriesAt(Hrefs(net, base, links, rels).value, depth, parentType, parentUrl))
  {
    var wanted := (l: Link) => l.Link? && l.rel in rels && l.href != "";
    var fits := (l: Link, u: Url) => l.Link? && net.join(base, l.href) == Some(u);
    var suits := (l: Link, c: QueueEntry) => l.Link? && net.join(base, l.href) == Some(c.url)
                                             && c == QueueEntry(c.url, depth, parentType, parentUrl);
    var urls := Hrefs(net, base, links, rels).value;
    HrefsAre(net, base, links, rels, wanted, fits);
    EntriesAre(urls, depth, parentType, parentUrl);
    OtherImages(links, wanted, fits, urls, suits, EntriesAt(urls, depth, parentType, parentUrl));
  }

  /** The entries are at the places of some link each, and every such link has its entry. */
  lemma LinkEntries(net: Net, base: Url, links: seq<Link>, rels: set<string>,
                    depth: nat, parentType: Option<ObjType>, parentUrl: Option<Url>,
                    found: seq<QueueEntry>, c: QueueEntry)
    requires LinksLeadTo(net, base, links, rels, depth, parentType, parentUrl, found)
    ensures c in found <==> LinkGives(net, base, links, rels, depth, parentType, parentUrl, c)
  {
    var wanted := (l: Link) => l.Link? && l.rel in rels && l.href != "";
    var fits := (l: Link, c: QueueEntry) => l.Link? && net.join(base, l.href) == Some(c.url)
                                            && c == QueueEntry(c.url, depth, parentType, parentUrl);
    if c in found {
      var i := ImageOrigin(links, wanted, fits, found, c);
      assert wanted(links[i]);
    }
    if LinkGives(net, base, links, rels, depth, parentType, parentUrl, c) {
      var i: nat :| i < |links| && links[i].Link? && links[i].rel in rels && links[i].href != ""
        && net.join(base, links[i].href) == Some(c.url);
      var d := ImageOf(links, wanted, fits, found, i);
      assert d == c;
    }
  }

  /** Some link with one of the relations leads to this entry. */
  ghost predicate LinkGives(net: Net, base: Url, links: seq<Link>, rels: set<string>,
                            depth: nat, parentType: Option<ObjType>, parentUrl: Option<Url>, c: QueueEntry) {
    && c == QueueEntry(c.url, depth, parentType, parentUrl)
    && exists i: nat ::
         i < |links| && links[i].Link? && links[i].rel in rels && links[i].href != ""
         && net.join(base, links[i].href) == Some(c.url)
  }

  // ---------- Objects of a page ----------

  /** The type that the members of a document give it. */
  ghost predicate HasType(data: Doc, t: ObjType) {
    match t
    case Item =>
      data.kind == "Feature" || (data.kind !in {"FeatureCollection", "Collection", "Catalog"} && data.assetsIsObject)
    case ItemCollection => data.kind == "FeatureCollection"
    case Collection => data.kind == "Collection"
    case Catalog => data.kind == "Catalog"
    case Unknown => data.kind !in {"Feature", "FeatureCollection", "Collection", "Catalog"} && !data.assetsIsObject
  }

  lemma TypeOfIs(data: Doc, t: ObjType)
    ensures TypeOf(data) == t <==> HasType(data, t)
  {
    assert "Feature" != "FeatureCollection" && "Feature"[0] != "Collection"[0] && "Feature"[0] != "Catalog"[0];
    assert "FeatureCollection"[0] != "Collection"[0] && "FeatureCollection"[0] != "Catalog"[0];
    assert "Collection"[1] != "Catalog"[1];
    assert |"Feature"| != |"FeatureCollection"|;
  }

  /** The object stands for the feature at this place of a page. */
  ghost predicate StandsForFeature(net: Net, e: QueueEntry, feature: Option<Doc>, index: nat, o: CollectedObject) {
    match feature
    case None => o == CollectedObject(None, e.url, Unknown, e.parentType, e.parentUrl, e.depth, true)
    case Some(data) =>
      && o == CollectedObject(Some(data), o.url, o.objType, e.parentType, e.parentUrl, e.depth, false)
      && HasType(data, o.objType) && data.links.Some?
      && (forall href :: FirstLink(data.links.value, "self", href) ==> net.join(e.url, href) == Some(o.url))
      && ((forall href :: !FirstLink(data.links.value, "self", href)) ==>
            o.url.text == e.url.text + "#items/" + (if data.id.Some? then data.id.value else Decimal(index)))
  }

  lemma {:induction false} FeaturesAreObjects(net: Net, e: QueueEntry, features: seq<Option<Doc>>, index: nat)
    requires FeatureObjects(net, e, features, index).Some?
    ensures var objs := FeatureObjects(net, e, features, index).value;
            && |objs| == |features|
            && forall i :: 0 <= i < |features| ==> StandsForFeature(net, e, features[i], index + i, objs[i])
    decreases |features|
  {
    if features != [] {
      FeaturesAreObjects(net, e, features[1..], index + 1);
      var objs := FeatureObjects(net, e, features, index).value;
      if features[0].Some? {
        OneFeature(net, e, features[0].value, index, objs[0]);
      }
      forall i | 0 <= i < |features| ensures StandsForFeature(net, e, features[i], index + i, objs[i]) {
        if i > 0 {
          assert features[1..][i - 1] == features[i];
          assert StandsForFeature(net, e, features[1..][i - 1], index + 1 + (i - 1), objs[1..][i - 1]);
        }
      }
    }
  }

  lemma OneFeature(net: Net, e: QueueEntry, data: Doc, index: nat, o: CollectedObject)
    requires FeatureUrl(net, e.url, data, index).Some?
    requires o == CollectedObject(Some(data), FeatureUrl(net, e.url, data, index).value, TypeOf(data), e.parentType,
                                  e.parentUrl, e.depth, false)
    ensures StandsForFeature(net, e, Some(data), index, o)
  {
    TypeOfIs(data, o.objType);
    forall href ensures FirstHref(data.links.value, "self") == Some(href)
        <==> FirstLink(data.links.value, "self", href) {
      FirstHrefIs(data.links.value, "self", href);
    }
    if FirstHref(data.links.value, "self").Some? {
      assert FirstLink(data.links.value, "self", FirstHref(data.links.value, "self").value);
    }
  }

  /** What fetching an entry gives: one error object where the URL cannot be read, none for a listing of
      collections, one for each feature of an items page, else the object at the URL. */
  ghost predicate FetchGives(net: Net, e: QueueEntry, got: Fetched) {
    match net.read(e.url)
    case Parsed(data) =>
      && got.raw == Some(data)
      && if data.collections.Some? then got.objs == []
         else if data.kind == "FeatureCollection" then
           var features := GetOr(data.features, []);
           && |got.objs| == |features|
           && forall i :: 0 <= i < |features| ==> StandsForFeature(net, e, features[i], i, got.objs[i])
         else
           && |got.objs| == 1
           && got.objs[0] == CollectedObject(Some(data), e.url, got.objs[0].objType, e.parentType, e.parentUrl,
                                             e.depth, false)
           && HasType(data, got.objs[0].objType)
    case _ =>
      got.raw == None && got.objs == [CollectedObject(None, e.url, Unknown, e.parentType, e.parentUrl, e.depth, true)]
  }

  lemma FetchIs(net: Net, e: QueueEntry)
    requires !PageRaises(net, e.url)
    ensures FetchGives(net, e, FetchObjects(net, e)) && !FetchObjects(net, e).raised
  {
    FetchRaisesIff(net, e);
    match net.read(e.url)
    case Parsed(data) =>
      TypeOfIs(data, TypeOf(data));
      if data.collections.None? && data.kind == "FeatureCollection" {
        FeaturesAreObjects(net, e, GetOr(data.features, []), 0);
      }
    case _ =>
  }

  // ---------- Endpoints of an API ----------

  /** `r` is `s` without the slashes at its end. */
  ghost predicate WithoutSlashes(s: string, r: string) {
    r <= s && (forall i :: |r| <= i < |s| ==> s[i] == '/') && (r == "" || r[|r| - 1] != '/')
  }

  lemma {:induction false} RStripSlashIs(s: string)
    ensures WithoutSlashes(s, RStripSlash(s))
    decreases |s|
  {
    if s != "" && s[|s| - 1] == '/' {
      RStripSlashIs(s[..|s| - 1]);
    }
  }

  lemma {:induction false} BeforeQueryIs(s: string)
    ensures var r := BeforeQuery(s); r <= s && '?' !in r && (|r| < |s| ==> s[|r|] == '?')
  {
    if s != "" && s[0] != '?' {
      BeforeQueryIs(s[1..]);
    }
  }

  /** The address below which an API lists its collections: that of the page without its query, without
      slashes at the end and without a last `/collections`. */
  ghost predicate ApiBase(page: string, base: string) {
    exists path, trimmed ::
      && path <= page && '?' !in path && (|path| < |page| ==> page[|path|] == '?')
      && WithoutSlashes(path, trimmed)
      && (trimmed == base + "/collections" || (trimmed == base && !EndsIn(trimmed, "/collections")))
  }

  ghost predicate EndsIn(s: string, suffix: string) {
    |suffix| <= |s| && s[|s| - |suffix|..] == suffix
  }

  lemma ApiBaseIs(page: string)
    ensures ApiBase(page, WithoutSuffix(RStripSlash(BeforeQuery(page)), "/collections"))
  {
    var path := BeforeQuery(page);
    BeforeQueryIs(page);
    RStripSlashIs(path);
    WithoutSuffixIs(RStripSlash(path), "/collections");
  }

  lemma WithoutSuffixIs(s: string, suffix: string)
    ensures s == WithoutSuffix(s, suffix) + suffix || (s == WithoutSuffix(s, suffix) && !EndsIn(s, suffix))
  {
    if EndsIn(s, suffix) {
      assert s == s[..|s| - |suffix|] + s[|s| - |suffix|..];
    }
  }

  /** The listing page names this URL for the collection: its self link, else the canonical one. */
  ghost predicate ListedAt(net: Net, page: Url, entry: Doc, u: Url) {
    && entry.links.Some?
    && (forall href :: FirstLink(entry.links.value, "self", href) ==> net.join(page, href) == Some(u))
    && ((forall href :: !FirstLink(entry.links.value, "self", href)) ==>
          && entry.id.Some? && entry.id.value != ""
          && exists base :: ApiBase(page.text, base) && u.text == base + "/collections/" + net.quote(entry.id.value))
  }

  /** Reading the links of the listed collection raises, or resolving its self link does. */
  ghost predicate ListingRaises(net: Net, page: Url, entry: Doc) {
    entry.links.None? || exists href :: FirstLink(entry.links.value, "self", href) && net.join(page, href).None?
  }

  /** A collection without a self link and without an id has no URL. */
  ghost predicate Unlisted(entry: Doc) {
    && entry.links.Some? && (entry.id.None? || entry.id.value == "")
    && forall href :: !FirstLink(entry.links.value, "self", href)
  }

  lemma CollectionUrlIs(net: Net, entry: Doc, page: Url)
    ensures match CollectionUrl(net, entry, page)
            case None => ListingRaises(net, page, entry)
            case Some(None) => Unlisted(entry)
            case Some(Some(u)) => ListedAt(net, page, entry, u)
    ensures ListingRaises(net, page, entry) ==> CollectionUrl(net, entry, page).None?
    ensures Unlisted(entry) ==> CollectionUrl(net, entry, page) == Some(None)
  {
    if entry.links.Some? {
      forall href ensures FirstHref(entry.links.value, "self") == Some(href)
          <==> FirstLink(entry.links.value, "self", href) {
        FirstHrefIs(entry.links.value, "self", href);
      }
      if FirstHref(entry.links.value, "self").Some? {
        assert FirstLink(entry.links.value, "self", FirstHref(entry.links.value, "self").value);
      } else {
        ApiBaseIs(page.text);
      }
    }
  }

  /** `found` has one entry for each listed collection that has a URL, in order, beside the page. */
  ghost predicate ListingLeadsTo(net: Net, e: QueueEntry, listed: seq<Option<Doc>>, found: seq<QueueEntry>) {
    Images(listed, (d: Option<Doc>) => d.Some? && !Unlisted(d.value),
           (d: Option<Doc>, c: QueueEntry) => d.Some? && ListedAt(net, e.url, d.value, c.url)
                                              && c == QueueEntry(c.url, e.depth, e.parentType, e.parentUrl),
           found)
  }

  lemma {:induction false} ListingIs(net: Net, e: QueueEntry, listed: seq<Option<Doc>>,
                                     wanted: Option<Doc> -> bool, fits: (Option<Doc>, QueueEntry) -> bool)
    requires ListedCollections(net, e, listed).Some?
    requires forall d :: wanted(d) <==> d.Some? && !Unlisted(d.value)
    requires forall d, c :: fits(d, c) <==> d.Some? && ListedAt(net, e.url, d.value, c.url)
                                            && c == QueueEntry(c.url, e.depth, e.parentType, e.parentUrl)
    ensures Images(listed, wanted, fits, ListedCollections(net, e, listed).value)
  {
    if listed == [] {
      NoImages(wanted, fits);
    } else {
      ListingIs(net, e, listed[1..], wanted, fits);
      var found, tail := ListedCollections(net, e, listed).value, ListedCollections(net, e, listed[1..]).value;
      if listed[0].Some? {
        CollectionUrlIs(net, listed[0].value, e.url);
      }
      var head := if wanted(listed[0]) then [found[0]] else [];
      assert found == head + tail;
      ImagesFromTail(listed, wanted, fits, head, tail);
    }
  }

  lemma {:induction false} ListingRaisesIff(net: Net, e: QueueEntry, listed: seq<Option<Doc>>)
    ensures ListedCollections(net, e, listed).None?
            <==> exists i :: 0 <= i < |listed| && listed[i].Some? && ListingRaises(net, e.url, listed[i].value)
  {
    if listed != [] {
      ListingRaisesIff(net, e, listed[1..]);
      if listed[0].Some? {
        CollectionUrlIs(net, listed[0].value, e.url);
      }
      if i :| 0 < i < |listed| && listed[i].Some? && ListingRaises(net, e.url, listed[i].value) {
        assert listed[1..][i - 1] == listed[i];
      }
      if i :| 0 <= i < |listed[1..]| && listed[1..][i].Some? && ListingRaises(net, e.url, listed[1..][i].value) {
        assert listed[i + 1] == listed[1..][i];
      }
    }
  }

  // ---------- Discovery in a static catalog ----------

  /** The child and item links of the object cannot be read or resolved. */
  ghost predicate ChildrenRaise(net: Net, o: CollectedObject)
    requires o.data.Some?
  {
    o.data.value.links.None? || LinkRaises(net, o.url, o.data.value.links.value, {"child", "item"})
  }

  /** The child and item links of the object, one level down. */
  ghost predicate ChildrenOf(net: Net, o: CollectedObject, found: seq<QueueEntry>)
    requires o.data.Some? && o.data.value.links.Some?
  {
    LinksLeadTo(net, o.url, o.data.value.links.value, {"child", "item"}, o.depth + 1, Some(o.objType), Some(o.url),
                found)
  }

  lemma StaticChildrenAre(net: Net, o: CollectedObject)
    requires o.data.Some?
    ensures var found := StaticChildren(net, o.data.value, o.url, o.depth, o.objType);
            && (found.None? <==> ChildrenRaise(net, o))
            && (found.Some? ==> ChildrenOf(net, o, found.value))
  {
    if o.data.value.links.Some? {
      HrefsRaise(net, o.url, o.data.value.links.value, {"child", "item"});
      if !ChildrenRaise(net, o) {
        EntriesFollowLinks(net, o.url, o.data.value.links.value, {"child", "item"}, o.depth + 1, Some(o.objType),
                           Some(o.url));
      }
    }
  }

  /** The page's first items link leads to `u`. */
  ghost predicate ItemsLinkTo(net: Net, base: Url, links: seq<Link>, u: Url) {
    exists href :: FirstLink(links, "items", href) && net.join(base, href) == Some(u)
  }

  lemma LinkedItemsUrlIs(net: Net, base: Url, links: seq<Link>)
    ensures match LinkedItemsUrl(net, base, links)
            case None => exists href :: FirstLink(links, "items", href) && net.join(base, href).None?
            case Some(None) => forall href :: !FirstLink(links, "items", href)
            case Some(Some(u)) => ItemsLinkTo(net, base, links, u)
    ensures forall u :: ItemsLinkTo(net, base, links, u) ==> LinkedItemsUrl(net, base, links) == Some(Some(u))
    ensures (exists href :: FirstLink(links, "items", href) && net.join(base, href).None?)
            ==> LinkedItemsUrl(net, base, links).None?
    ensures (forall href :: !FirstLink(links, "items", href)) ==> LinkedItemsUrl(net, base, links) == Some(None)
  {
    forall href ensures FirstHref(links, "items") == Some(href) <==> FirstLink(links, "items", href) {
      FirstHrefIs(links, "items", href);
    }
    if FirstHref(links, "items").Some? {
      assert FirstLink(links, "items", FirstHref(links, "items").value);
    }
  }

  function ItemsEntry(e: QueueEntry, o: CollectedObject, u: Url): QueueEntry {
    QueueEntry(u, e.depth + 1, Some(Collection), Some(o.url))
  }

  /** The entry for the items of a collection whose page links them. */
  ghost predicate LinkedItems(net: Net, e: QueueEntry, raw: Doc, o: CollectedObject, items: seq<QueueEntry>) {
    if o.objType == Collection && raw.links.Some? && (exists u :: ItemsLinkTo(net, o.url, raw.links.value, u))
    then exists u :: ItemsLinkTo(net, o.url, raw.links.value, u) && items == [ItemsEntry(e, o, u)]
    else items == []
  }

  /** What a static catalog gives below one object: its children, then for a collection the target of
      the page's items link, where that can be resolved; nothing where its links raise. */
  ghost predicate StaticBlock(net: Net, e: QueueEntry, raw: Doc, o: CollectedObject, block: seq<QueueEntry>) {
    if o.fetchError || o.data.None? || ChildrenRaise(net, o) then block == []
    else exists children, items ::
      block == children + items && ChildrenOf(net, o, children) && LinkedItems(net, e, raw, o, items)
  }

  function OneStatic(net: Net, e: QueueEntry, raw: Doc, o: CollectedObject): seq<QueueEntry> {
    StaticBelow(net, e, raw, [o])
  }

  lemma OneStaticIs(net: Net, e: QueueEntry, raw: Doc, o: CollectedObject)
    ensures StaticBlock(net, e, raw, o, OneStatic(net, e, raw, o))
  {
    var none: seq<QueueEntry> := [];
    assert [o][1..] == [] && StaticBelow(net, e, raw, []) == none;
    if !o.fetchError && o.data.Some? && !ChildrenRaise(net, o) {
      StaticChildrenAre(net, o);
      var found := StaticChildren(net, o.data.value, o.url, o.depth, o.objType);
      var items := StaticItems(net, e, raw, o);
      assert OneStatic(net, e, raw, o) == found.value + items;
    } else if o.data.Some? {
      StaticChildrenAre(net, o);
    }
  }

  lemma StaticItems(net: Net, e: QueueEntry, raw: Doc, o: CollectedObject) returns (items: seq<QueueEntry>)
    ensures LinkedItems(net, e, raw, o, items)
    ensures items == if o.objType != Collection || raw.links.None? then []
                     else match LinkedItemsUrl(net, o.url, raw.links.value)
                       case Some(Some(u)) => [ItemsEntry(e, o, u)]
                       case _ => []
  {
    items := [];
    if o.objType == Collection && raw.links.Some? {
      LinkedItemsUrlIs(net, o.url, raw.links.value);
      match LinkedItemsUrl(net, o.url, raw.links.value)
      case Some(Some(u)) => items := [ItemsEntry(e, o, u)];
      case _ =>
    }
  }

  lemma {:induction false} StaticBelowIs(net: Net, e: QueueEntry, raw: Doc, objs: seq<CollectedObject>)
    returns (blocks: seq<seq<QueueEntry>>)
    ensures StaticBelow(net, e, raw, objs) == Flatten(blocks) && |blocks| == |objs|
    ensures forall k :: 0 <= k < |objs| ==> StaticBlock(net, e, raw, objs[k], blocks[k])
    decreases |objs|
  {
    blocks := [];
    if objs != [] {
      var rest := StaticBelowIs(net, e, raw, objs[1..]);
      OneStaticIs(net, e, raw, objs[0]);
      blocks := [OneStatic(net, e, raw, objs[0])] + rest;
      StaticCons(net, e, raw, objs[0], objs[1..]);
      assert objs == [objs[0]] + objs[1..];
    }
  }

  lemma StaticCons(net: Net, e: QueueEntry, raw: Doc, o: CollectedObject, rest: seq<CollectedObject>)
    ensures StaticBelow(net, e, raw, [o] + rest) == OneStatic(net, e, raw, o) + StaticBelow(net, e, raw, rest)
  {
    var none: seq<QueueEntry> := [];
    assert [o][1..] == [] && ([o] + rest)[1..] == rest;
    assert StaticBelow(net, e, raw, []) == none;
  }

  /** The next links of the page cannot be read or resolved. */
  ghost predicate PagesRaise(net: Net, e: QueueEntry, raw: Doc) {
    raw.links.None? || LinkRaises(net, e.url, raw.links.value, {"next"})
  }

  /** The next pages, beside this one. */
  ghost predicate PagesAfter(net: Net, e: QueueEntry, raw: Doc, pages: seq<QueueEntry>)
    requires raw.links.Some?
  {
    LinksLeadTo(net, e.url, raw.links.value, {"next"}, e.depth, e.parentType, e.parentUrl, pages)
  }

  lemma NextPagesAre(net: Net, e: QueueEntry, raw: Doc)
    ensures var pages := NextPages(net, e, raw);
            (pages.None? <==> PagesRaise(net, e, raw)) && (pages.Some? ==> PagesAfter(net, e, raw, pages.value))
  {
    if raw.links.Some? {
      HrefsRaise(net, e.url, raw.links.value, {"next"});
      if !PagesRaise(net, e, raw) {
        EntriesFollowLinks(net, e.url, raw.links.value, {"next"}, e.depth, e.parentType, e.parentUrl);
      }
    }
  }

  /** The next pages, then above the depth limit what lies below each object of the page, in order. */
  ghost predicate StaticFinds(net: Net, deeper: bool, e: QueueEntry, raw: Doc, objs: seq<CollectedObject>,
                              found: seq<QueueEntry>, pages: seq<QueueEntry>, blocks: seq<seq<QueueEntry>>)
    requires raw.links.Some?
  {
    && PagesAfter(net, e, raw, pages)
    && if !deeper then found == pages
       else
         && found == pages + Flatten(blocks)
         && |blocks| == |objs|
         && forall k :: 0 <= k < |objs| ==> StaticBlock(net, e, raw, objs[k], blocks[k])
  }

  lemma DiscoverStaticIs(net: Net, maxDepth: nat, e: QueueEntry, raw: Doc, objs: seq<CollectedObject>)
    returns (pages: seq<QueueEntry>, blocks: seq<seq<QueueEntry>>)
    ensures var found := DiscoverStatic(net, maxDepth, e, raw, objs);
            && (found.None? <==> PagesRaise(net, e, raw))
            && (found.Some? ==>
                  raw.links.Some? && StaticFinds(net, e.depth < maxDepth, e, raw, objs, found.value, pages, blocks))
  {
    pages, blocks := [], [];
    NextPagesAre(net, e, raw);
    if !PagesRaise(net, e, raw) {
      pages := NextPages(net, e, raw).value;
      blocks := StaticBelowIs(net, e, raw, objs);
    }
  }

  /** Static discovery finds these entries, or nothing where the page's next links raise. */
  lemma StaticDiscoveryIs(net: Net, rootUrl: Url, maxDepth: nat, maxObjects: int, e: QueueEntry)
    returns (pages: seq<QueueEntry>, blocks: seq<seq<QueueEntry>>)
    ensures var got, found := FetchObjects(net, e), Children(StaticSearch(net, rootUrl, maxDepth, maxObjects), e);
            if got.raw.None? || PagesRaise(net, e, got.raw.value) then found == []
            else
              && got.raw.value.links.Some?
              && StaticFinds(net, e.depth < maxDepth, e, got.raw.value, got.objs, found, pages, blocks)
  {
    var got := FetchObjects(net, e);
    pages, blocks := [], [];
    if got.raw.Some? {
      pages, blocks := DiscoverStaticIs(net, maxDepth, e, got.raw.value, got.objs);
    }
  }

  // ---------- Discovery through the API endpoints ----------

  /** The items of a collection lie where the page's items link leads, else below the collection. */
  ghost predicate ItemsLieAt(net: Net, o: CollectedObject, links: seq<Link>, u: Url) {
    || ItemsLinkTo(net, o.url, links, u)
    || ((forall href :: !FirstLink(links, "items", href))
        && exists trimmed :: WithoutSlashes(o.url.text, trimmed) && u.text == trimmed + "/items")
  }

  /** The links of the object raise, or for a collection the page's items link does. */
  ghost predicate BlockRaises(net: Net, links: seq<Link>, o: CollectedObject) {
    && o.data.Some?
    && (ChildrenRaise(net, o)
        || (o.objType == Collection && exists href :: FirstLink(links, "items", href) && net.join(o.url, href).None?))
  }

  ghost predicate ItemsEndpoint(net: Net, e: QueueEntry, links: seq<Link>, o: CollectedObject, items: seq<QueueEntry>) {
    if o.objType == Collection then exists u :: ItemsLieAt(net, o, links, u) && items == [ItemsEntry(e, o, u)]
    else items == []
  }

  /** What an API gives below one object: for a collection its items, then its child and item links. */
  ghost predicate ApiBlock(net: Net, e: QueueEntry, links: seq<Link>, o: CollectedObject, block: seq<QueueEntry>) {
    if o.data.None? then block == []
    else
      && o.data.value.links.Some?
      && exists items, children ::
           block == items + children && ItemsEndpoint(net, e, links, o, items) && ChildrenOf(net, o, children)
  }

  lemma ItemsUrlIs(net: Net, o: CollectedObject, links: seq<Link>)
    ensures match ItemsUrl(net, o.url, links)
            case None => exists href :: FirstLink(links, "items", href) && net.join(o.url, href).None?
            case Some(u) =>
              && ItemsLieAt(net, o, links, u)
              && !exists href :: FirstLink(links, "items", href) && net.join(o.url, href).None?
  {
    LinkedItemsUrlIs(net, o.url, links);
    RStripSlashIs(o.url.text);
  }

  lemma OneApiIs(net: Net, e: QueueEntry, links: seq<Link>, o: CollectedObject)
    ensures var found := ApiBelow(net, e, links, [o]);
            (found.None? <==> BlockRaises(net, links, o)) && (found.Some? ==> ApiBlock(net, e, links, o, found.value))
  {
    var none: seq<QueueEntry> := [];
    assert [o][1..] == [] && ApiBelow(net, e, links, []) == Some(none);
    if o.data.Some? {
      StaticChildrenAre(net, o);
      ItemsUrlIs(net, o, links);
      var children := StaticChildren(net, o.data.value, o.url, o.depth, o.objType);
      if children.Some? && !BlockRaises(net, links, o) {
        var items := if o.objType == Collection then [ItemsEntry(e, o, ItemsUrl(net, o.url, links).value)] else [];
        var block := ApiBelow(net, e, links, [o]).value;
        assert block == items + children.value;
        assert ItemsEndpoint(net, e, links, o, items) && ChildrenOf(net, o, children.value);
        assert ApiBlock(net, e, links, o, block);
      }
    }
  }

  lemma ApiCons(net: Net, e: QueueEntry, links: seq<Link>, o: CollectedObject, rest: seq<CollectedObject>)
    ensures var one, more := ApiBelow(net, e, links, [o]), ApiBelow(net, e, links, rest);
            var all := ApiBelow(net, e, links, [o] + rest);
            if one.None? || more.None? then all.None? else all == Some(one.value + more.value)
  {
    var none: seq<QueueEntry> := [];
    assert [o][1..] == [] && ([o] + rest)[1..] == rest;
    assert ApiBelow(net, e, links, []) == Some(none);
    var one, more := ApiBelow(net, e, links, [o]), ApiBelow(net, e, links, rest);
    assert more.Some? ==> none + more.value == more.value;
    if one.Some? && more.Some? && o.data.Some? {
      var children := StaticChildren(net, o.data.value, o.url, o.depth, o.objType).value;
      if o.objType == Collection {
        var items := [ItemsEntry(e, o, ItemsUrl(net, o.url, links).value)];
        assert items + children + none == items + children;
      } else {
        assert children + none == children;
      }
    }
  }

  lemma {:induction false} ApiBelowIs(net: Net, e: QueueEntry, links: seq<Link>, objs: seq<CollectedObject>)
    returns (blocks: seq<seq<QueueEntry>>)
    ensures ApiBelow(net, e, links, objs).None? <==> exists k :: 0 <= k < |objs| && BlockRaises(net, links, objs[k])
    ensures ApiBelow(net, e, links, objs).Some?
            ==> ApiBelow(net, e, links, objs).value == Flatten(blocks) && |blocks| == |objs|
    ensures ApiBelow(net, e, links, objs).Some?
            ==> forall k :: 0 <= k < |objs| ==> ApiBlock(net, e, links, objs[k], blocks[k])
    decreases |objs|
  {
    blocks := [];
    if objs != [] {
      var o, rest := objs[0], objs[1..];
      var more := ApiBelowIs(net, e, links, rest);
      OneApiIs(net, e, links, o);
      ApiCons(net, e, links, o, rest);
      assert objs == [o] + rest;
      if k :| 0 < k < |objs| && BlockRaises(net, links, objs[k]) {
        assert rest[k - 1] == objs[k];
      }
      if ApiBelow(net, e, links, [o]).Some? {
        var head := ApiBelow(net, e, links, [o]).value;
        blocks := [head] + more;
        assert blocks[0] == head && blocks[1..] == more;
      }
    }
  }

  /** Discovery on this page raises, and then finds nothing. */
  ghost predicate ApiRaises(net: Net, maxDepth: nat, collectChildren: bool, e: QueueEntry, raw: Doc,
                            objs: seq<CollectedObject>) {
    || PagesRaise(net, e, raw)
    || (collectChildren && e.depth < maxDepth
        && (|| (exists i :: 0 <= i < |GetOr(raw.collections, [])|
                  && raw.collections.value[i].Some? && ListingRaises(net, e.url, raw.collections.value[i].value))
            || exists k :: 0 <= k < |objs| && BlockRaises(net, raw.links.value, objs[k])))
  }

  /** The next pages, then above the depth limit when children are collected the listed collections and
      what lies below each object of the page, in order. */
  ghost predicate ApiFinds(net: Net, deeper: bool, e: QueueEntry, raw: Doc, objs: seq<CollectedObject>,
                           found: seq<QueueEntry>, pages: seq<QueueEntry>, listed: seq<QueueEntry>,
                           blocks: seq<seq<QueueEntry>>)
    requires raw.links.Some?
  {
    && PagesAfter(net, e, raw, pages)
    && if !deeper then found == pages
       else
         && found == pages + listed + Flatten(blocks)
         && ListingLeadsTo(net, e, GetOr(raw.collections, []), listed)
         && |blocks| == |objs|
         && forall k :: 0 <= k < |objs| ==> ApiBlock(net, e, raw.links.value, objs[k], blocks[k])
  }

  lemma ListedAre(net: Net, e: QueueEntry, docs: seq<Option<Doc>>)
    ensures var listed := ListedCollections(net, e, docs);
            && (listed.None?
                <==> exists i :: 0 <= i < |docs| && docs[i].Some? && ListingRaises(net, e.url, docs[i].value))
            && (listed.Some? ==> ListingLeadsTo(net, e, docs, listed.value))
  {
    ListingRaisesIff(net, e, docs);
    if ListedCollections(net, e, docs).Some? {
      ListingIs(net, e, docs, (d: Option<Doc>) => d.Some? && !Unlisted(d.value),
                (d: Option<Doc>, c: QueueEntry) => d.Some? && ListedAt(net, e.url, d.value, c.url)
                                                   && c == QueueEntry(c.url, e.depth, e.parentType, e.parentUrl));
    }
  }

  lemma DiscoverApiIs(net: Net, maxDepth: nat, collectChildren: bool, e: QueueEntry, raw: Doc,
                      objs: seq<CollectedObject>)
    returns (pages: seq<QueueEntry>, listed: seq<QueueEntry>, blocks: seq<seq<QueueEntry>>)
    ensures var found := DiscoverApi(net, maxDepth, collectChildren, e, raw, objs);
            && (found.None? <==> ApiRaises(net, maxDepth, collectChildren, e, raw, objs))
            && (found.Some? ==>
                  && raw.links.Some?
                  && ApiFinds(net, collectChildren && e.depth < maxDepth, e, raw, objs, found.value, pages, listed,
                              blocks))
  {
    pages, listed, blocks := [], [], [];
    NextPagesAre(net, e, raw);
    if !PagesRaise(net, e, raw) {
      pages := NextPages(net, e, raw).value;
      ListedAre(net, e, GetOr(raw.collections, []));
      blocks := ApiBelowIs(net, e, raw.links.value, objs);
      listed := GetOr(ListedCollections(net, e, GetOr(raw.collections, [])), []);
    }
  }

  /** API discovery finds these entries, or nothing where it raises. */
  lemma ApiDiscoveryIs(net: Net, pin: Option<Url>, maxDepth: nat, collectChildren: bool, maxObjects: int, e: QueueEntry)
    returns (pages: seq<QueueEntry>, listed: seq<QueueEntry>, blocks: seq<seq<QueueEntry>>)
    ensures var got := FetchObjects(net, e);
            var found := Children(ApiSearch(net, pin, maxDepth, collectChildren, maxObjects), e);
            if got.raw.None? || ApiRaises(net, maxDepth, collectChildren, e, got.raw.value, got.objs) then found == []
            else
              && got.raw.value.links.Some?
              && ApiFinds(net, collectChildren && e.depth < maxDepth, e, got.raw.value, got.objs, found, pages,
                          listed, blocks)
  {
    var got := FetchObjects(net, e);
    pages, listed, blocks := [], [], [];
    if got.raw.Some? {
      pages, listed, blocks := DiscoverApiIs(net, maxDepth, collectChildren, e, got.raw.value, got.objs);
    }
  }

  // ---------- Which entries API discovery finds ----------

  /** Some listed collection is at this entry's place, beside the page. */
  ghost predicate ListingGives(net: Net, e: QueueEntry, docs: seq<Option<Doc>>, c: QueueEntry) {
    && c == QueueEntry(c.url, e.depth, e.parentType, e.parentUrl)
    && exists i: nat ::
         i < |docs| && docs[i].Some? && !Unlisted(docs[i].value) && ListedAt(net, e.url, docs[i].value, c.url)
  }

  lemma ListedOnce(net: Net, page: Url, entry: Doc, u: Url, v: Url)
    requires ListedAt(net, page, entry, u) && ListedAt(net, page, entry, v)
    ensures u == v
  {
    if forall href :: !FirstLink(entry.links.value, "self", href) {
      var base :| ApiBase(page.text, base) && u.text == base + "/collections/" + net.quote(entry.id.value);
      var other :| ApiBase(page.text, other) && v.text == other + "/collections/" + net.quote(entry.id.value);
      OneBase(page.text, base, other);
    }
  }

  lemma OnePrefix(s: string, a: string, b: string)
    requires a <= s && '?' !in a && (|a| < |s| ==> s[|a|] == '?')
    requires b <= s && '?' !in b && (|b| < |s| ==> s[|b|] == '?')
    ensures a == b
  {
  }

  lemma OneTrim(s: string, a: string, b: string)
    requires WithoutSlashes(s, a) && WithoutSlashes(s, b)
    ensures a == b
  {
  }

  lemma OneBase(page: string, a: string, b: string)
    requires ApiBase(page, a) && ApiBase(page, b)
    ensures a == b
  {
    var suffix := "/collections";
    var p, x :| p <= page && '?' !in p && (|p| < |page| ==> page[|p|] == '?') && WithoutSlashes(p, x)
      && (x == a + suffix || (x == a && !EndsIn(x, suffix)));
    var q, y :| q <= page && '?' !in q && (|q| < |page| ==> page[|q|] == '?') && WithoutSlashes(q, y)
      && (y == b + suffix || (y == b && !EndsIn(y, suffix)));
    OnePrefix(page, p, q);
    OneTrim(p, x, y);
    assert x == a + suffix ==> x[|x| - |suffix|..] == suffix && x[..|x| - |suffix|] == a;
    assert y == b + suffix ==> y[|y| - |suffix|..] == suffix && y[..|y| - |suffix|] == b;
  }

  lemma ListingEntries(net: Net, e: QueueEntry, docs: seq<Option<Doc>>, found: seq<QueueEntry>, c: QueueEntry)
    requires ListingLeadsTo(net, e, docs, found)
    ensures c in found <==> ListingGives(net, e, docs, c)
  {
    var wanted := (d: Option<Doc>) => d.Some? && !Unlisted(d.value);
    var fits := (d: Option<Doc>, c: QueueEntry) => d.Some? && ListedAt(net, e.url, d.value, c.url)
                                                   && c == QueueEntry(c.url, e.depth, e.parentType, e.parentUrl);
    if c in found {
      var i := ImageOrigin(docs, wanted, fits, found, c);
      assert wanted(docs[i]);
    }
    if ListingGives(net, e, docs, c) {
      var i: nat :| i < |docs| && docs[i].Some? && !Unlisted(docs[i].value)
        && ListedAt(net, e.url, docs[i].value, c.url);
      var d := ImageOf(docs, wanted, fits, found, i);
      ListedOnce(net, e.url, docs[i].value, d.url, c.url);
    }
  }

  ghost predicate OneGives(net: Net, e: QueueEntry, links: seq<Link>, o: CollectedObject, c: QueueEntry) {
    && o.data.Some? && o.data.value.links.Some?
    && (|| (o.objType == Collection && ItemsLieAt(net, o, links, c.url) && c == ItemsEntry(e, o, c.url))
        || LinkGives(net, o.url, o.data.value.links.value, {"child", "item"}, o.depth + 1, Some(o.objType),
                     Some(o.url), c))
  }

  lemma ItemsLieOnce(net: Net, o: CollectedObject, links: seq<Link>, u: Url, v: Url)
    requires ItemsLieAt(net, o, links, u) && ItemsLieAt(net, o, links, v)
    ensures u == v
  {
    if forall href :: !FirstLink(links, "items", href) {
      var x :| WithoutSlashes(o.url.text, x) && u.text == x + "/items";
      var y :| WithoutSlashes(o.url.text, y) && v.text == y + "/items";
      OneTrim(o.url.text, x, y);
    } else {
      LinkedItemsUrlIs(net, o.url, links);
    }
  }

  lemma BlockEntries(net: Net, e: QueueEntry, links: seq<Link>, o: CollectedObject, block: seq<QueueEntry>,
                     c: QueueEntry)
    requires ApiBlock(net, e, links, o, block)
    ensures c in block <==> OneGives(net, e, links, o, c)
  {
    if o.data.Some? {
      var items, children := BlockParts(net, e, links, o, block);
      InEither(items, children, c);
      LinkEntries(net, o.url, o.data.value.links.value, {"child", "item"}, o.depth + 1, Some(o.objType), Some(o.url),
                  children, c);
      ItemsEntries(net, e, links, o, items, c);
    }
  }

  lemma InEither<T>(a: seq<T>, b: seq<T>, x: T)
    ensures x in a + b <==> x in a || x in b
  {
  }

  lemma BlockParts(net: Net, e: QueueEntry, links: seq<Link>, o: CollectedObject, block: seq<QueueEntry>)
    returns (items: seq<QueueEntry>, children: seq<QueueEntry>)
    requires ApiBlock(net, e, links, o, block) && o.data.Some?
    ensures o.data.value.links.Some? && block == items + children
    ensures ItemsEndpoint(net, e, links, o, items) && ChildrenOf(net, o, children)
  {
    items, children :|
      block == items + children && ItemsEndpoint(net, e, links, o, items) && ChildrenOf(net, o, children);
  }

  lemma ItemsEntries(net: Net, e: QueueEntry, links: seq<Link>, o: CollectedObject, items: seq<QueueEntry>,
                     c: QueueEntry)
    requires ItemsEndpoint(net, e, links, o, items)
    ensures c in items <==> o.objType == Collection && ItemsLieAt(net, o, links, c.url) && c == ItemsEntry(e, o, c.url)
  {
    if o.objType == Collection {
      var u :| ItemsLieAt(net, o, links, u) && items == [ItemsEntry(e, o, u)];
      if ItemsLieAt(net, o, links, c.url) {
        ItemsLieOnce(net, o, links, u, c.url);
      }
    }
  }

  lemma BlocksEntries(net: Net, e: QueueEntry, links: seq<Link>, objs: seq<CollectedObject>,
                      blocks: seq<seq<QueueEntry>>, c: QueueEntry)
    requires |blocks| == |objs| && forall k :: 0 <= k < |objs| ==> ApiBlock(net, e, links, objs[k], blocks[k])
    ensures c in Flatten(blocks) <==> exists k: nat :: k < |objs| && OneGives(net, e, links, objs[k], c)
  {
    FlattenMember(blocks, c);
    forall k: nat | k < |objs| ensures c in blocks[k] <==> OneGives(net, e, links, objs[k], c) {
      BlockEntries(net, e, links, objs[k], blocks[k], c);
    }
  }

  /** An entry is found exactly when it is one of these: the target of a next link, beside the page; and
      above the depth limit when children are collected, the place of a listed collection, beside the page,
      the items of a fetched collection, one level below the page, or the target of a child or item link
      of a fetched object, one level below that. */
  lemma ApiDiscovers(net: Net, pin: Option<Url>, maxDepth: nat, collectChildren: bool, maxObjects: int,
                     e: QueueEntry, c: QueueEntry)
    requires var got := FetchObjects(net, e);
             got.raw.Some? && !ApiRaises(net, maxDepth, collectChildren, e, got.raw.value, got.objs)
    ensures var got := FetchObjects(net, e);
            var raw := got.raw.value;
            && raw.links.Some?
            && (c in Children(ApiSearch(net, pin, maxDepth, collectChildren, maxObjects), e) <==>
                  || LinkGives(net, e.url, raw.links.value, {"next"}, e.depth, e.parentType, e.parentUrl, c)
                  || (collectChildren && e.depth < maxDepth
                      && (|| ListingGives(net, e, GetOr(raw.collections, []), c)
                          || exists k: nat :: k < |got.objs| && OneGives(net, e, raw.links.value, got.objs[k], c))))
  {
    var got := FetchObjects(net, e);
    var raw := got.raw.value;
    var pages, listed, blocks := ApiDiscoveryIs(net, pin, maxDepth, collectChildren, maxObjects, e);
    LinkEntries(net, e.url, raw.links.value, {"next"}, e.depth, e.parentType, e.parentUrl, pages, c);
    if collectChildren && e.depth < maxDepth {
      ListingEntries(net, e, GetOr(raw.collections, []), listed, c);
      BlocksEntries(net, e, raw.links.value, got.objs, blocks, c);
    }
  }

  // ---------- Which entries static discovery finds ----------

  /** The object has a child or item link to the entry, or is a collection whose page links it as the items. */
  ghost predicate StaticGives(net: Net, e: QueueEntry, raw: Doc, o: CollectedObject, c: QueueEntry) {
    && !o.fetchError && o.data.Some? && o.data.value.links.Some? && !ChildrenRaise(net, o)
    && (|| LinkGives(net, o.url, o.data.value.links.value, {"child", "item"}, o.depth + 1, Some(o.objType),
                     Some(o.url), c)
        || (o.objType == Collection && raw.links.Some? && ItemsLinkTo(net, o.url, raw.links.value, c.url)
            && c == ItemsEntry(e, o, c.url)))
  }

  lemma StaticParts(net: Net, e: QueueEntry, raw: Doc, o: CollectedObject, block: seq<QueueEntry>)
    returns (children: seq<QueueEntry>, items: seq<QueueEntry>)
    requires StaticBlock(net, e, raw, o, block) && !o.fetchError && o.data.Some? && !ChildrenRaise(net, o)
    ensures block == children + items && ChildrenOf(net, o, children) && LinkedItems(net, e, raw, o, items)
  {
    children, items :| block == children + items && ChildrenOf(net, o, children) && LinkedItems(net, e, raw, o, items);
  }

  lemma LinkedItemsEntries(net: Net, e: QueueEntry, raw: Doc, o: CollectedObject, items: seq<QueueEntry>, c: QueueEntry)
    requires LinkedItems(net, e, raw, o, items)
    ensures c in items <==>
              o.objType == Collection && raw.links.Some? && ItemsLinkTo(net, o.url, raw.links.value, c.url)
                  && c == ItemsEntry(e, o, c.url)
  {
    if raw.links.Some? {
      LinkedItemsUrlIs(net, o.url, raw.links.value);
    }
  }

  lemma StaticEntries(net: Net, e: QueueEntry, raw: Doc, o: CollectedObject, block: seq<QueueEntry>, c: QueueEntry)
    requires StaticBlock(net, e, raw, o, block)
    ensures c in block <==> StaticGives(net, e, raw, o, c)
  {
    if !o.fetchError && o.data.Some? && !ChildrenRaise(net, o) {
      var children, items := StaticParts(net, e, raw, o, block);
      InEither(children, items, c);
      LinkEntries(net, o.url, o.data.value.links.value, {"child", "item"}, o.depth + 1, Some(o.objType), Some(o.url),
                  children, c);
      LinkedItemsEntries(net, e, raw, o, items, c);
    }
  }

  /** An entry is found exactly when it is the target of a next link, beside the page, or above the depth
      limit when some object of the page gives it. */
  lemma StaticDiscovers(net: Net, rootUrl: Url, maxDepth: nat, maxObjects: int, e: QueueEntry, c: QueueEntry)
    requires var got := FetchObjects(net, e); got.raw.Some? && !PagesRaise(net, e, got.raw.value)
    ensures var got := FetchObjects(net, e);
            var raw := got.raw.value;
            && raw.links.Some?
            && (c in Children(StaticSearch(net, rootUrl, maxDepth, maxObjects), e) <==>
                  || LinkGives(net, e.url, raw.links.value, {"next"}, e.depth, e.parentType, e.parentUrl, c)
                  || (e.depth < maxDepth
                      && exists k: nat :: k < |got.objs| && StaticGives(net, e, raw, got.objs[k], c)))
  {
    var got := FetchObjects(net, e);
    var raw := got.raw.value;
    var pages, blocks := StaticDiscoveryIs(net, rootUrl, maxDepth, maxObjects, e);
    LinkEntries(net, e.url, raw.links.value, {"next"}, e.depth, e.parentType, e.parentUrl, pages, c);
    if e.depth < maxDepth {
      StaticBlocksEntries(net, e, raw, got.objs, blocks, c);
    }
  }

  lemma StaticBlocksEntries(net: Net, e: QueueEntry, raw: Doc, objs: seq<CollectedObject>,
                            blocks: seq<seq<QueueEntry>>, c: QueueEntry)
    requires |blocks| == |objs| && forall k :: 0 <= k < |objs| ==> StaticBlock(net, e, raw, objs[k], blocks[k])
    ensures c in Flatten(blocks) <==> exists k: nat :: k < |objs| && StaticGives(net, e, raw, objs[k], c)
  {
    FlattenMember(blocks, c);
    forall k: nat | k < |objs| ensures c in blocks[k] <==> StaticGives(net, e, raw, objs[k], c) {
      StaticEntries(net, e, raw, objs[k], blocks[k], c);
    }
  }
}
