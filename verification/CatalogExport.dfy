/** Laying out a catalog tree as files and rewriting every topological link with relative paths. */
module CatalogExport {
  import opened Wrappers
  import opened Sequences
  import opened Names
  import opened Paths

  datatype Rel = Root | Parent | Child | Item | Collection | Self | Other(name: string)

  /** One link object; the href is split at its slashes and everything else is carried along. */
  datatype Link = Link(rel: Rel, href: Path, extra: string)

  /** A document as it was read, with the text of its id, None when the member is missing; an element
      of its links that is not an object is None. */
  datatype Doc = Doc(id: Option<string>, links: seq<Option<Link>>, body: string)

  /** The text of the id where a missing one counts as empty. */
  function IdOf(doc: Doc): string {
    GetOr(doc.id, "")
  }

  /** A collection with its items and their paths relative to the collection. */
  datatype Scope = Scope(collection: Doc, items: seq<(Path, Doc)>)

  /** A scope whose folder and item paths have been made safe. */
  datatype LaidOut = LaidOut(collection: Doc, folder: string, items: seq<(Path, Doc)>)

  datatype Kind = CatalogDoc | CollectionDoc | ItemDoc

  datatype OutDoc = OutDoc(kind: Kind, id: string, collection: Option<string>, links: seq<Link>, body: string)

  datatype Payload = Payload(path: Path, doc: OutDoc)

  const CATALOG_FILENAME := "catalog.json"
  const COLLECTION_FILENAME := "collection.json"

  predicate CollectionDrops(rel: Rel) {
    rel == Root || rel == Parent || rel == Item || rel == Self || rel == Child
  }

  predicate ItemDrops(rel: Rel) {
    rel == Root || rel == Parent || rel == Collection || rel == Self
  }

  /** The links that are not rewritten, in order. */
  function KeptLinks(links: seq<Option<Link>>, drops: Rel -> bool): (kept: seq<Link>)
    ensures forall l <- kept :: !drops(l.rel)
  {
    if links == [] then []
    else if links[0].Some? && !drops(links[0].value.rel) then [links[0].value] + KeptLinks(links[1..], drops)
    else KeptLinks(links[1..], drops)
  }

  function Plain(rel: Rel, href: Path): Link {
    Link(rel, href, "")
  }

  function LinksTo(rel: Rel, hrefs: seq<Path>): (ls: seq<Link>)
    ensures |ls| == |hrefs| && forall i :: 0 <= i < |hrefs| ==> ls[i] == Plain(rel, hrefs[i])
  {
    if hrefs == [] then [] else [Plain(rel, hrefs[0])] + LinksTo(rel, hrefs[1..])
  }

  // ---------- The layout ----------

  function Folder(id: string): string {
    SafeExportName(id, "collection")
  }

  function SafeItemPath(rel: Path): (p: Path)
    ensures |p| == |rel|
    ensures forall i :: 0 <= i < |rel| ==> p[i] == SafeExportName(rel[i], "item")
  {
    if rel == [] then [] else [SafeExportName(rel[0], "item")] + SafeItemPath(rel[1..])
  }

  function SafeItems(items: seq<(Path, Doc)>): (safe: seq<(Path, Doc)>)
    ensures |safe| == |items|
    ensures forall i :: 0 <= i < |items| ==> safe[i] == (SafeItemPath(items[i].0), items[i].1)
  {
    if items == [] then [] else [(SafeItemPath(items[0].0), items[0].1)] + SafeItems(items[1..])
  }

  function Layout(scope: Scope): LaidOut {
    LaidOut(scope.collection, Folder(IdOf(scope.collection)), SafeItems(scope.items))
  }

  function LayoutAll(scopes: seq<Scope>): (laid: seq<LaidOut>)
    ensures |laid| == |scopes| && forall i :: 0 <= i < |scopes| ==> laid[i] == Layout(scopes[i])
  {
    if scopes == [] then [] else [Layout(scopes[0])] + LayoutAll(scopes[1..])
  }

  // ---------- The files ----------

  function CatalogPath(): Path {
    [CATALOG_FILENAME]
  }

  function CollectionPath(l: LaidOut): Path {
    [l.folder, COLLECTION_FILENAME]
  }

  function ItemPath(l: LaidOut, k: nat): Path
    requires k < |l.items|
  {
    [l.folder] + l.items[k].0
  }

  function FirstPaths(items: seq<(Path, Doc)>): (ps: seq<Path>)
    ensures |ps| == |items| && forall i :: 0 <= i < |items| ==> ps[i] == items[i].0
  {
    if items == [] then [] else [items[0].0] + FirstPaths(items[1..])
  }

  function CollectionLinks(l: LaidOut, up: Path): seq<Link> {
    KeptLinks(l.collection.links, CollectionDrops)
        + ([Plain(Root, up), Plain(Parent, up)] + LinksTo(Item, FirstPaths(l.items)))
  }

  function CollectionPayload(l: LaidOut): Payload {
    Payload(CollectionPath(l),
            OutDoc(CollectionDoc, IdOf(l.collection), None, CollectionLinks(l, Relpath(CatalogPath(), [l.folder])),
                   l.collection.body))
  }

  function ItemLinks(item: Doc, catalogHref: Path, collectionHref: Path): seq<Link> {
    KeptLinks(item.links, ItemDrops) + [Plain(Root, catalogHref), Plain(Parent, collectionHref),
                                        Plain(Collection, collectionHref)]
  }

  function ItemPayload(l: LaidOut, k: nat): Payload
    requires k < |l.items|
  {
    var dir := Dirname(ItemPath(l, k));
    var item := l.items[k].1;
    Payload(ItemPath(l, k),
            OutDoc(ItemDoc, IdOf(item), Some(IdOf(l.collection)),
                   ItemLinks(item, Relpath(CatalogPath(), dir), Relpath(CollectionPath(l), dir)), item.body))
  }

  function ItemPayloads(l: LaidOut): (ps: seq<Payload>)
    ensures |ps| == |l.items| && forall k :: 0 <= k < |ps| ==> ps[k] == ItemPayload(l, k)
  {
    seq(|l.items|, k requires 0 <= k < |l.items| => ItemPayload(l, k))
  }

  function ScopePayloads(l: LaidOut): seq<Payload> {
    [CollectionPayload(l)] + ItemPayloads(l)
  }

  function AllScopePayloads(laid: seq<LaidOut>): seq<Payload> {
    if laid == [] then [] else ScopePayloads(laid[0]) + AllScopePayloads(laid[1..])
  }

  function CollectionPaths(laid: seq<LaidOut>): (ps: seq<Path>)
    ensures |ps| == |laid| && forall i :: 0 <= i < |laid| ==> ps[i] == CollectionPath(laid[i])
  {
    if laid == [] then [] else [CollectionPath(laid[0])] + CollectionPaths(laid[1..])
  }

  function CatalogLinks(laid: seq<LaidOut>): seq<Link> {
    [Plain(Root, CatalogPath())] + LinksTo(Child, CollectionPaths(laid))
  }

  function CatalogPayload(catalog: Doc, laid: seq<LaidOut>): Payload {
    Payload(CatalogPath(),
            OutDoc(CatalogDoc, IdOf(catalog), None, CatalogLinks(laid), catalog.body))
  }

  /** All files of the tree: the catalog first, then each collection followed by its items. */
  function TreePayloads(catalog: Doc, laid: seq<LaidOut>): seq<Payload> {
    [CatalogPayload(catalog, laid)] + AllScopePayloads(laid)
  }

  // ---------- Every rewritten link leads to an emitted file of the right kind ----------

  function Target(p: Payload, l: Link): Path {
    Normpath(Join(Dirname(p.path), l.href))
  }

  ghost predicate LeadsTo(payloads: seq<Payload>, target: Path, kind: Kind) {
    exists t <- payloads :: t.path == target && t.doc.kind == kind
  }

  ghost predicate LeadsToCollection(payloads: seq<Payload>, target: Path, id: string) {
    exists t <- payloads :: t.path == target && t.doc.kind == CollectionDoc && t.doc.id == id
  }

  ghost predicate LeadsToItemOf(payloads: seq<Payload>, target: Path, collectionId: string) {
    exists t <- payloads :: t.path == target && t.doc.kind == ItemDoc && t.doc.collection == Some(collectionId)
  }

  /** The link leads, from the directory of its file, to an emitted file of the kind that its relation names. */
  ghost predicate GoodLink(payloads: seq<Payload>, p: Payload, l: Link) {
    match l.rel
    case Root => LeadsTo(payloads, Target(p, l), CatalogDoc)
    case Child => p.doc.kind == CatalogDoc && LeadsTo(payloads, Target(p, l), CollectionDoc)
    case Item => p.doc.kind == CollectionDoc && LeadsToItemOf(payloads, Target(p, l), p.doc.id)
    case Collection => p.doc.kind == ItemDoc && p.doc.collection.Some?
        && LeadsToCollection(payloads, Target(p, l), p.doc.collection.value)
    case Parent =>
      || (p.doc.kind == CollectionDoc && LeadsTo(payloads, Target(p, l), CatalogDoc))
      || (p.doc.kind == ItemDoc && p.doc.collection.Some?
          && LeadsToCollection(payloads, Target(p, l), p.doc.collection.value))
    case _ => false
  }

  /** The relations that the export rewrites in a file of the kind. */
  predicate Rewritten(kind: Kind, rel: Rel) {
    match kind
    case CatalogDoc => true
    case CollectionDoc => CollectionDrops(rel)
    case ItemDoc => ItemDrops(rel)
  }

  ghost predicate WellLinked(payloads: seq<Payload>, p: Payload) {
    forall l <- p.doc.links :: Rewritten(p.doc.kind, l.rel) ==> GoodLink(payloads, p, l)
  }

  /** Folders are names, and item paths are non-empty lists of names. */
  ghost predicate SafeLayout(l: LaidOut) {
    IsName(l.folder) && forall k :: 0 <= k < |l.items| ==> l.items[k].0 != [] && Clean(l.items[k].0)
  }

  lemma FileNamesAreNames()
    ensures IsName(CATALOG_FILENAME) && IsName(COLLECTION_FILENAME)
  {
    assert forall i :: 0 <= i < |CATALOG_FILENAME| ==> CATALOG_FILENAME[i] != '/';
    assert forall i :: 0 <= i < |COLLECTION_FILENAME| ==> COLLECTION_FILENAME[i] != '/';
  }

  function PerScope(laid: seq<LaidOut>): (lists: seq<seq<Payload>>)
    ensures |lists| == |laid| && forall i :: 0 <= i < |laid| ==> lists[i] == ScopePayloads(laid[i])
  {
    seq(|laid|, i requires 0 <= i < |laid| => ScopePayloads(laid[i]))
  }

  lemma {:induction false} ScopesAreFlat(laid: seq<LaidOut>)
    ensures AllScopePayloads(laid) == Flatten(PerScope(laid))
  {
    if laid != [] {
      ScopesAreFlat(laid[1..]);
      assert PerScope(laid)[1..] == PerScope(laid[1..]);
    }
  }

  lemma ScopeEmitted(laid: seq<LaidOut>, i: nat, p: Payload)
    requires i < |laid| && p in ScopePayloads(laid[i])
    ensures p in AllScopePayloads(laid)
  {
    ScopesAreFlat(laid);
    assert p in PerScope(laid)[i];
    FlattenMember(PerScope(laid), p);
  }

  lemma EmittedByScope(laid: seq<LaidOut>, p: Payload) returns (i: nat)
    requires p in AllScopePayloads(laid)
    ensures i < |laid| && p in ScopePayloads(laid[i])
  {
    ScopesAreFlat(laid);
    FlattenMember(PerScope(laid), p);
    i :| 0 <= i < |laid| && p in PerScope(laid)[i];
  }

  lemma CollectionEmitted(catalog: Doc, laid: seq<LaidOut>, i: nat)
    requires i < |laid|
    ensures CollectionPayload(laid[i]) in TreePayloads(catalog, laid)
  {
    var p := CollectionPayload(laid[i]);
    assert p == ScopePayloads(laid[i])[0];
    ScopeEmitted(laid, i, p);
  }

  lemma ItemEmitted(catalog: Doc, laid: seq<LaidOut>, i: nat, k: nat)
    requires i < |laid| && k < |laid[i].items|
    ensures ItemPayload(laid[i], k) in TreePayloads(catalog, laid)
  {
    var p := ItemPayloads(laid[i])[k];
    assert p in ItemPayloads(laid[i]);
    ScopeEmitted(laid, i, p);
  }

  lemma CatalogEmitted(catalog: Doc, laid: seq<LaidOut>)
    ensures LeadsTo(TreePayloads(catalog, laid), CatalogPath(), CatalogDoc)
  {
    assert TreePayloads(catalog, laid)[0] == CatalogPayload(catalog, laid);
  }

  /** A link written as the relative path from the file's directory leads to the path it was written for. */
  lemma WrittenLinkLeads(p: Path, target: Path)
    requires Clean(p) && |p| > 1 && Clean(target) && target != []
    ensures Normpath(Join(Dirname(p), Relpath(target, Dirname(p)))) == target
  {
    DirnameClean(p);
    RelpathLeadsBack(target, p[..|p| - 1]);
  }

  /** A path written from a file's directory leads to the file at that path in the directory. */
  lemma SiblingLinkLeads(folder: string, file: string, rel: Path)
    requires IsName(folder) && IsName(file) && Clean(rel) && rel != []
    ensures Normpath(Join(Dirname([folder, file]), rel)) == [folder] + rel
    ensures Dirname([folder, file]) == [folder]
  {
    DirnameClean([folder, file]);
    CleanNormal([folder] + rel);
  }

  lemma CollectionLinkCases(l: LaidOut, up: Path, link: Link)
    requires link in CollectionLinks(l, up) && CollectionDrops(link.rel)
    ensures || link == Plain(Root, up) || link == Plain(Parent, up)
            || exists k :: 0 <= k < |l.items| && link == Plain(Item, l.items[k].0)
  {
    var items := LinksTo(Item, FirstPaths(l.items));
    assert link !in KeptLinks(l.collection.links, CollectionDrops);
    assert link in [Plain(Root, up), Plain(Parent, up)] + items;
    if link in items {
      var k :| 0 <= k < |items| && items[k] == link;
      assert link == Plain(Item, l.items[k].0);
    }
  }

  lemma CollectionUpLeads(l: LaidOut)
    requires IsName(l.folder)
    ensures Target(CollectionPayload(l), Plain(Root, Relpath(CatalogPath(), [l.folder]))) == CatalogPath()
    ensures Target(CollectionPayload(l), Plain(Parent, Relpath(CatalogPath(), [l.folder]))) == CatalogPath()
  {
    FileNamesAreNames();
    WrittenLinkLeads(CollectionPath(l), CatalogPath());
    DirnameClean(CollectionPath(l));
    assert CollectionPath(l)[..1] == [l.folder];
  }

  lemma CollectionIsWellLinked(catalog: Doc, laid: seq<LaidOut>, i: nat)
    requires i < |laid| && SafeLayout(laid[i])
    ensures WellLinked(TreePayloads(catalog, laid), CollectionPayload(laid[i]))
  {
    var all, p := TreePayloads(catalog, laid), CollectionPayload(laid[i]);
    var up := Relpath(CatalogPath(), [laid[i].folder]);
    CollectionUpLeads(laid[i]);
    CatalogEmitted(catalog, laid);
    forall l | l in p.doc.links && CollectionDrops(l.rel) ensures GoodLink(all, p, l) {
      CollectionLinkCases(laid[i], up, l);
      if l != Plain(Root, up) && l != Plain(Parent, up) {
        var k :| 0 <= k < |laid[i].items| && l == Plain(Item, laid[i].items[k].0);
        ItemLinkLeads(catalog, laid, i, k);
      }
    }
  }

  /** The item link of a collection, followed from the collection's file, leads to the item's file. */
  lemma ItemLinkLeads(catalog: Doc, laid: seq<LaidOut>, i: nat, k: nat)
    requires i < |laid| && k < |laid[i].items| && SafeLayout(laid[i])
    ensures Target(CollectionPayload(laid[i]), Plain(Item, laid[i].items[k].0)) == ItemPath(laid[i], k)
    ensures LeadsToItemOf(TreePayloads(catalog, laid), ItemPath(laid[i], k), IdOf(laid[i].collection))
  {
    FileNamesAreNames();
    SiblingLinkLeads(laid[i].folder, COLLECTION_FILENAME, laid[i].items[k].0);
    ItemEmitted(catalog, laid, i, k);
    assert ItemPayload(laid[i], k).path == ItemPath(laid[i], k);
  }

  lemma ItemUpLeads(l: LaidOut, k: nat, rel: Rel)
    requires k < |l.items| && SafeLayout(l)
    ensures var dir := Dirname(ItemPath(l, k));
            && Target(ItemPayload(l, k), Plain(rel, Relpath(CatalogPath(), dir))) == CatalogPath()
            && Target(ItemPayload(l, k), Plain(rel, Relpath(CollectionPath(l), dir))) == CollectionPath(l)
  {
    FileNamesAreNames();
    WrittenLinkLeads(ItemPath(l, k), CatalogPath());
    WrittenLinkLeads(ItemPath(l, k), CollectionPath(l));
  }

  lemma ItemLinkCases(item: Doc, catalogHref: Path, collectionHref: Path, link: Link)
    requires link in ItemLinks(item, catalogHref, collectionHref) && ItemDrops(link.rel)
    ensures link == Plain(Root, catalogHref) || link == Plain(Parent, collectionHref)
            || link == Plain(Collection, collectionHref)
  {
    assert link !in KeptLinks(item.links, ItemDrops);
  }

  lemma CollectionReached(catalog: Doc, laid: seq<LaidOut>, i: nat)
    requires i < |laid|
    ensures LeadsToCollection(TreePayloads(catalog, laid), CollectionPath(laid[i]), IdOf(laid[i].collection))
  {
    CollectionEmitted(catalog, laid, i);
    assert CollectionPayload(laid[i]).path == CollectionPath(laid[i]);
  }

  lemma ItemIsWellLinked(catalog: Doc, laid: seq<LaidOut>, i: nat, k: nat)
    requires i < |laid| && k < |laid[i].items| && SafeLayout(laid[i])
    ensures WellLinked(TreePayloads(catalog, laid), ItemPayload(laid[i], k))
  {
    var all, p := TreePayloads(catalog, laid), ItemPayload(laid[i], k);
    var dir := Dirname(ItemPath(laid[i], k));
    CollectionReached(catalog, laid, i);
    CatalogEmitted(catalog, laid);
    forall l | l in p.doc.links && ItemDrops(l.rel) ensures GoodLink(all, p, l) {
      ItemLinkCases(laid[i].items[k].1, Relpath(CatalogPath(), dir), Relpath(CollectionPath(laid[i]), dir), l);
      ItemUpLeads(laid[i], k, l.rel);
    }
  }

  lemma CatalogLinkCases(laid: seq<LaidOut>, link: Link)
    requires link in CatalogLinks(laid)
    ensures link == Plain(Root, CatalogPath())
            || exists k :: 0 <= k < |laid| && link == Plain(Child, CollectionPath(laid[k]))
  {
    var children := LinksTo(Child, CollectionPaths(laid));
    if link in children {
      var k :| 0 <= k < |children| && children[k] == link;
      assert link == Plain(Child, CollectionPath(laid[k]));
    }
  }

  lemma CatalogIsWellLinked(catalog: Doc, laid: seq<LaidOut>)
    requires forall i :: 0 <= i < |laid| ==> SafeLayout(laid[i])
    ensures WellLinked(TreePayloads(catalog, laid), CatalogPayload(catalog, laid))
  {
    var all, p := TreePayloads(catalog, laid), CatalogPayload(catalog, laid);
    FileNamesAreNames();
    OriginLeadsBack(CatalogPath());
    CatalogEmitted(catalog, laid);
    forall l | l in p.doc.links ensures GoodLink(all, p, l) {
      CatalogLinkCases(laid, l);
      if l != Plain(Root, CatalogPath()) {
        var k :| 0 <= k < |laid| && l == Plain(Child, CollectionPath(laid[k]));
        ChildLinkLeads(catalog, laid, k);
      }
    }
  }

  /** The child link of a collection, followed from the catalog's file, leads to the collection's file. */
  lemma ChildLinkLeads(catalog: Doc, laid: seq<LaidOut>, k: nat)
    requires k < |laid| && SafeLayout(laid[k])
    ensures Target(CatalogPayload(catalog, laid), Plain(Child, CollectionPath(laid[k]))) == CollectionPath(laid[k])
    ensures LeadsTo(TreePayloads(catalog, laid), CollectionPath(laid[k]), CollectionDoc)
  {
    FileNamesAreNames();
    OriginLeadsBack(CollectionPath(laid[k]));
    CollectionEmitted(catalog, laid, k);
    assert CollectionPayload(laid[k]).path == CollectionPath(laid[k]);
  }

  lemma {:induction false} TreeIsLinkClosed(catalog: Doc, laid: seq<LaidOut>)
    requires forall i :: 0 <= i < |laid| ==> SafeLayout(laid[i])
    ensures forall p <- TreePayloads(catalog, laid) :: WellLinked(TreePayloads(catalog, laid), p)
  {
    var all := TreePayloads(catalog, laid);
    forall p | p in all ensures WellLinked(all, p) {
      if p == CatalogPayload(catalog, laid) {
        CatalogIsWellLinked(catalog, laid);
      } else {
        var i := EmittedByScope(laid, p);
        if p == CollectionPayload(laid[i]) {
          CollectionIsWellLinked(catalog, laid, i);
        } else {
          var k :| 0 <= k < |laid[i].items| && p == ItemPayload(laid[i], k);
          ItemIsWellLinked(catalog, laid, i, k);
        }
      }
    }
  }

  // ---------- Every collection and item is reached, and other links survive ----------

  /** Some link of the file with the relation leads to the path. */
  ghost predicate Links(p: Payload, rel: Rel, path: Path) {
    exists l <- p.doc.links :: l.rel == rel && Target(p, l) == path
  }

  lemma EveryFileIsReached(catalog: Doc, laid: seq<LaidOut>)
    requires forall i :: 0 <= i < |laid| ==> SafeLayout(laid[i])
    ensures forall i :: 0 <= i < |laid| ==> Links(CatalogPayload(catalog, laid), Child, CollectionPath(laid[i]))
    ensures forall i, k ::
              0 <= i < |laid| && 0 <= k < |laid[i].items| ==>
                Links(CollectionPayload(laid[i]), Item, ItemPath(laid[i], k))
  {
    forall i | 0 <= i < |laid| ensures Links(CatalogPayload(catalog, laid), Child, CollectionPath(laid[i])) {
      ChildLinkLeads(catalog, laid, i);
      assert LinksTo(Child, CollectionPaths(laid))[i] in CatalogLinks(laid);
    }
    forall i, k | 0 <= i < |laid| && 0 <= k < |laid[i].items|
      ensures Links(CollectionPayload(laid[i]), Item, ItemPath(laid[i], k)) {
      ItemLinkLeads(catalog, laid, i, k);
      assert LinksTo(Item, FirstPaths(laid[i].items))[k] in CollectionPayload(laid[i]).doc.links;
    }
  }

  /** The links of a written file that the export did not write. */
  function Untouched(links: seq<Link>, drops: Rel -> bool): seq<Link> {
    if links == [] then []
    else if drops(links[0].rel) then Untouched(links[1..], drops)
    else [links[0]] + Untouched(links[1..], drops)
  }

  lemma {:induction false} UntouchedAppend(a: seq<Link>, b: seq<Link>, drops: Rel -> bool)
    requires (forall l <- a :: !drops(l.rel)) && (forall l <- b :: drops(l.rel))
    ensures Untouched(a + b, drops) == a
    decreases |a|, |b|
  {
    if a != [] {
      UntouchedAppend(a[1..], b, drops);
      assert (a + b)[1..] == a[1..] + b;
    } else if b != [] {
      UntouchedAppend([], b[1..], drops);
      assert a + b == b && [] + b[1..] == b[1..];
    }
  }

  lemma CollectionKeepsLinks(l: LaidOut)
    ensures Untouched(CollectionPayload(l).doc.links, CollectionDrops) == KeptLinks(l.collection.links, CollectionDrops)
  {
    var up := Relpath(CatalogPath(), [l.folder]);
    UntouchedAppend(KeptLinks(l.collection.links, CollectionDrops),
                    [Plain(Root, up), Plain(Parent, up)] + LinksTo(Item, FirstPaths(l.items)), CollectionDrops);
  }

  lemma ItemKeepsLinks(item: Doc, catalogHref: Path, collectionHref: Path)
    ensures Untouched(ItemLinks(item, catalogHref, collectionHref), ItemDrops) == KeptLinks(item.links, ItemDrops)
  {
    UntouchedAppend(KeptLinks(item.links, ItemDrops),
                    [Plain(Root, catalogHref), Plain(Parent, collectionHref),
                     Plain(Collection, collectionHref)], ItemDrops);
  }

  // ---------- The links that are copied ----------

  /** `kept` has, in order, exactly the link objects of the document without a dropped relation. */
  ghost predicate Carried(links: seq<Option<Link>>, dropped: set<Rel>, kept: seq<Link>) {
    exists at: seq<nat> ::
      && |at| == |kept|
      && (forall j, k :: 0 <= j < k < |at| ==> at[j] < at[k])
      && (forall i: nat :: i in at <==> i < |links| && links[i].Some? && links[i].value.rel !in dropped)
      && (forall k :: 0 <= k < |at| ==> at[k] < |links| && links[at[k]] == Some(kept[k]))
  }

  function Copied(drops: Rel -> bool): Option<Link> -> bool {
    (l: Option<Link>) => l.Some? && !drops(l.value.rel)
  }

  function Same(): (Option<Link>, Link) -> bool {
    (l: Option<Link>, k: Link) => l == Some(k)
  }

  lemma {:induction false} KeptAreImages(links: seq<Option<Link>>, drops: Rel -> bool)
    ensures Images(links, Copied(drops), Same(), KeptLinks(links, drops))
  {
    if links == [] {
      NoImages(Copied(drops), Same());
    } else {
      KeptAreImages(links[1..], drops);
      var head := if Copied(drops)(links[0]) then [links[0].value] else [];
      ImagesFromTail(links, Copied(drops), Same(), head, KeptLinks(links[1..], drops));
      assert KeptLinks(links, drops) == head + KeptLinks(links[1..], drops);
    }
  }

  lemma KeptAreCarried(links: seq<Option<Link>>, drops: Rel -> bool, dropped: set<Rel>)
    requires forall rel :: drops(rel) <==> rel in dropped
    ensures Carried(links, dropped, KeptLinks(links, drops))
  {
    KeptAreImages(links, drops);
    var kept := KeptLinks(links, drops);
    var at := ImagePlaces(links, Copied(drops), Same(), kept);
    forall i: nat ensures i in at <==> i < |links| && links[i].Some? && links[i].value.rel !in dropped {
      if i in at {
        assert Copied(drops)(links[i]);
      }
    }
    forall k | 0 <= k < |at| ensures at[k] < |links| && links[at[k]] == Some(kept[k]) {
      assert Same()(links[at[k]], kept[k]);
    }
  }


  lemma CollectionCarries(links: seq<Option<Link>>)
    ensures Carried(links, {Root, Parent, Item, Self, Child}, KeptLinks(links, CollectionDrops))
  {
    KeptAreCarried(links, CollectionDrops, {Root, Parent, Item, Self, Child});
  }

  lemma ItemCarries(links: seq<Option<Link>>)
    ensures Carried(links, {Root, Parent, Collection, Self}, KeptLinks(links, ItemDrops))
  {
    KeptAreCarried(links, ItemDrops, {Root, Parent, Collection, Self});
  }

  /** Non-topological links survive unchanged and in order; no stale topological link does. */
  lemma OtherLinksSurvive(l: LaidOut, k: nat)
    requires k < |l.items|
    ensures Carried(l.collection.links, {Root, Parent, Item, Self, Child},
                    Untouched(CollectionPayload(l).doc.links, CollectionDrops))
    ensures Carried(l.items[k].1.links, {Root, Parent, Collection, Self},
                    Untouched(ItemPayload(l, k).doc.links, ItemDrops))
  {
    CollectionCarries(l.collection.links);
    ItemCarries(l.items[k].1.links);
    var dir := Dirname(ItemPath(l, k));
    CollectionKeepsLinks(l);
    ItemKeepsLinks(l.items[k].1, Relpath(CatalogPath(), dir), Relpath(CollectionPath(l), dir));
  }

  /** No item path is empty: a path is the split of a text. */
  ghost predicate ItemsHavePaths(scopes: seq<Scope>) {
    forall i, k :: 0 <= i < |scopes| && 0 <= k < |scopes[i].items| ==> scopes[i].items[k].0 != []
  }

  lemma FallbacksAreSafe()
    ensures IsSafeName("collection") && IsSafeName("item") && IsSafeName("object")
  {
  }

  lemma LayoutIsSafe(scopes: seq<Scope>, i: nat)
    requires ItemsHavePaths(scopes) && i < |scopes|
    ensures SafeLayout(Layout(scopes[i]))
  {
    FallbacksAreSafe();
    ExportNameIsSafe(IdOf(scopes[i].collection), "collection");
    var l := Layout(scopes[i]);
    forall k | 0 <= k < |l.items| ensures l.items[k].0 != [] && Clean(l.items[k].0) {
      forall j | 0 <= j < |l.items[k].0| ensures IsName(l.items[k].0[j]) {
        ExportNameIsSafe(scopes[i].items[k].0[j], "item");
      }
    }
  }

  /** The exported tree is closed under its topological links, and each collection and item is linked. */
  lemma ExportIsLinkClosed(catalog: Doc, scopes: seq<Scope>)
    requires ItemsHavePaths(scopes)
    ensures var laid := LayoutAll(scopes);
            && (forall p <- TreePayloads(catalog, laid) :: WellLinked(TreePayloads(catalog, laid), p))
            && (forall i :: 0 <= i < |laid| ==> Links(CatalogPayload(catalog, laid), Child, CollectionPath(laid[i])))
            && (forall i, k :: 0 <= i < |laid| && 0 <= k < |laid[i].items| ==>
                Links(CollectionPayload(laid[i]), Item, ItemPath(laid[i], k)))
  {
    var laid := LayoutAll(scopes);
    forall i | 0 <= i < |laid| ensures SafeLayout(laid[i]) {
      LayoutIsSafe(scopes, i);
    }
    TreeIsLinkClosed(catalog, laid);
    EveryFileIsReached(catalog, laid);
  }

  // ---------- Unique ids and unique folders ----------

  function FolderOf(id: string): string {
    SafeExportName(id, "object")
  }

  /** No non-empty id occurs twice. */
  ghost predicate UniqueIds(ids: seq<string>) {
    forall i, j :: 0 <= i < j < |ids| && ids[i] != "" ==> ids[i] != ids[j]
  }

  function Folders(ids: seq<string>): (fs: seq<string>)
    ensures |fs| == |ids| && forall i :: 0 <= i < |ids| ==> fs[i] == FolderOf(ids[i])
  {
    if ids == [] then [] else [FolderOf(ids[0])] + Folders(ids[1..])
  }

  method RequireUnique(ids: seq<string>) returns (ok: bool)
    ensures ok <==> UniqueIds(ids)
  {
    var seen: set<string> := {};
    for i := 0 to |ids|
      invariant seen == (set k | 0 <= k < i :: ids[k])
      invariant forall a, b :: 0 <= a < b < i && ids[a] != "" ==> ids[a] != ids[b]
    {
      if ids[i] != "" && ids[i] in seen {
        return false;
      }
      seen := seen + {ids[i]};
    }
    ok := true;
  }

  datatype ExportError = DuplicateIds | MissingId | SharedFolder | InvalidDocument

  function CollectionIds(scopes: seq<Scope>): (ids: seq<string>)
    ensures |ids| == |scopes| && forall i :: 0 <= i < |scopes| ==> ids[i] == IdOf(scopes[i].collection)
  {
    if scopes == [] then [] else [IdOf(scopes[0].collection)] + CollectionIds(scopes[1..])
  }

  ghost predicate AllNamed(scopes: seq<Scope>) {
    forall i :: 0 <= i < |scopes| ==> scopes[i].collection.id.Some?
  }

  function CheckedFolders(scopes: seq<Scope>): seq<string> {
    Folders(CollectionIds(scopes))
  }

  /** All collections have ids, and these have folders of their own. */
  ghost predicate OwnFolders(scopes: seq<Scope>) {
    AllNamed(scopes) && Distinct(CheckedFolders(scopes))
  }

  /** The collection at n is the first that stands in the way of own folders, for this reason. */
  ghost predicate FirstInTheWay(scopes: seq<Scope>, n: nat, why: ExportError) {
    && n < |scopes| && OwnFolders(scopes[..n]) && !OwnFolders(scopes[..n + 1])
    && why == if scopes[n].collection.id.None? then MissingId else SharedFolder
  }

  ghost predicate InTheWay(scopes: seq<Scope>, why: ExportError) {
    exists n: nat :: FirstInTheWay(scopes, n, why)
  }

  lemma NextFolder(scopes: seq<Scope>, i: nat)
    requires i < |scopes|
    ensures CheckedFolders(scopes[..i + 1]) == CheckedFolders(scopes[..i]) + [FolderOf(IdOf(scopes[i].collection))]
    ensures OwnFolders(scopes[..i + 1]) <==>
            OwnFolders(scopes[..i]) && scopes[i].collection.id.Some?
                && FolderOf(IdOf(scopes[i].collection)) !in CheckedFolders(scopes[..i])
  {
    var names, name := CheckedFolders(scopes[..i]), FolderOf(IdOf(scopes[i].collection));
    OneMore(scopes, i);
    assert CheckedFolders(scopes[..i + 1]) == names + [name];
    DistinctSnoc(names, name);
  }

  lemma {:induction false} OwnFoldersPrefix(scopes: seq<Scope>, n: nat)
    requires n <= |scopes| && OwnFolders(scopes)
    ensures OwnFolders(scopes[..n])
    decreases |scopes| - n
  {
    if n < |scopes| {
      OwnFoldersPrefix(scopes, n + 1);
      NextFolder(scopes, n);
    } else {
      assert scopes[..n] == scopes;
    }
  }

  lemma StopsAt(scopes: seq<Scope>, n: nat, why: ExportError)
    requires FirstInTheWay(scopes, n, why)
    ensures !OwnFolders(scopes) && InTheWay(scopes, why)
  {
    if OwnFolders(scopes) {
      OwnFoldersPrefix(scopes, n + 1);
    }
  }

  /** Assigns a folder to each collection; stops at one without an id or with the folder of another. */
  method Dirnames(scopes: seq<Scope>) returns (why: Option<ExportError>)
    ensures why.None? <==> OwnFolders(scopes)
    ensures why.Some? ==> InTheWay(scopes, why.value)
  {
    var taken: set<string> := {};
    for i := 0 to |scopes|
      invariant forall name :: name in taken <==> name in CheckedFolders(scopes[..i])
      invariant OwnFolders(scopes[..i])
    {
      var id := scopes[i].collection.id;
      NextFolder(scopes, i);
      if id.None? {
        StopsAt(scopes, i, MissingId);
        return Some(MissingId);
      }
      var name := FolderOf(id.value);
      if name in taken {
        StopsAt(scopes, i, SharedFolder);
        return Some(SharedFolder);
      }
      taken := taken + {name};
    }
    assert scopes[..|scopes|] == scopes;
    why := None;
  }

  lemma SharedName(names: seq<string>, i: nat)
    requires i < |names| && names[i] in names[..i]
    ensures !Distinct(names)
  {
    var k :| 0 <= k < i && names[k] == names[i];
  }

  /** Some id has no letter or digit while another is exported under the fallback of such ids. */
  ghost predicate FallbackClash(ids: seq<string>) {
    exists i, j :: 0 <= i < |ids| && 0 <= j < |ids| &&
        !HasAlnum(ids[i]) && HasAlnum(ids[j]) && Folder(ids[j]) == "collection"
  }

  function WrittenFolders(ids: seq<string>): (fs: seq<string>)
    ensures |fs| == |ids| && forall i :: 0 <= i < |ids| ==> fs[i] == Folder(ids[i])
  {
    if ids == [] then [] else [Folder(ids[0])] + WrittenFolders(ids[1..])
  }

  /** Two lists of names that differ only where the fallbacks differ. */
  lemma TwoFallbacks(named: seq<bool>, checked: seq<string>, written: seq<string>, one: string, other: string)
    requires |named| == |checked| == |written| && Distinct(checked)
    requires forall i ::
            0 <= i < |named| ==> if named[i] then written[i] == checked[i] else checked[i] == one && written[i] == other
    ensures Distinct(written)
            <==> !exists i, j :: 0 <= i < |named| && 0 <= j < |named| && !named[i] && named[j] && written[j] == other
  {
    if i, j :| 0 <= i < j < |written| && written[i] == written[j] {
      assert checked[i] != checked[j];
    }
    if i, j :| 0 <= i < |named| && 0 <= j < |named| && !named[i] && named[j] && written[j] == other {
      assert written[i] == written[j];
    }
  }

  /** Once the folder check accepts the ids, the folders that are really written differ exactly
      when no fallback clash occurs: the check and the layout use different fallbacks. */
  lemma FoldersDifferIffNoFallbackClash(ids: seq<string>)
    requires Distinct(Folders(ids))
    ensures Distinct(WrittenFolders(ids)) <==> !FallbackClash(ids)
  {
    var named := seq(|ids|, i requires 0 <= i < |ids| => HasAlnum(ids[i]));
    forall i | 0 <= i < |ids|
      ensures if named[i] then WrittenFolders(ids)[i] == Folders(ids)[i]
              else Folders(ids)[i] == "object" && WrittenFolders(ids)[i] == "collection"
    {
      FallbackIffNoAlnum(ids[i], "collection", "object");
      FallbackIffNoAlnum(ids[i], "object", "collection");
    }
    TwoFallbacks(named, Folders(ids), WrittenFolders(ids), "object", "collection");
    ClashByIndex(ids, named);
  }

  lemma ClashByIndex(ids: seq<string>, named: seq<bool>)
    requires |named| == |ids| && forall i :: 0 <= i < |ids| ==> named[i] == HasAlnum(ids[i])
    ensures FallbackClash(ids) <==>
            exists i, j :: 0 <= i < |named| && 0 <= j < |named| &&
                !named[i] && named[j] && WrittenFolders(ids)[j] == "collection"
  {
    if i, j :|
      0 <= i < |ids| && 0 <= j < |ids| &&
      !HasAlnum(ids[i]) && HasAlnum(ids[j]) && Folder(ids[j]) == "collection" {
      assert !named[i] && named[j] && WrittenFolders(ids)[j] == "collection";
    }
  }

  /** The id "!" beside the id "collection" passes the check, yet both are written to one folder. */
  lemma FallbackClashExample()
    ensures Distinct(Folders(["!", "collection"])) && Folder("!") == Folder("collection")
  {
    var ids := ["!", "collection"];
    FallbackIffNoAlnum("!", "object", "collection");
    FallbackIffNoAlnum("!", "collection", "object");
    assert !HasAlnum("!");
    assert IsSafeName("collection") && Strip("collection") == "collection";
    assert Folders(ids)[0] == "object" && Folders(ids)[1] == "collection";
    assert "object"[0] != "collection"[0];
  }

  // ---------- Building the files ----------

  ghost predicate AllValid(payloads: seq<Payload>, valid: OutDoc -> bool) {
    forall i :: 0 <= i < |payloads| ==> valid(payloads[i].doc)
  }

  lemma AllValidAppend(a: seq<Payload>, b: seq<Payload>, valid: OutDoc -> bool)
    ensures AllValid(a + b, valid) <==> AllValid(a, valid) && AllValid(b, valid)
  {
    if AllValid(a + b, valid) {
      forall i | 0 <= i < |a| ensures valid(a[i].doc) {
        assert (a + b)[i] == a[i];
      }
      forall i | 0 <= i < |b| ensures valid(b[i].doc) {
        assert (a + b)[|a| + i] == b[i];
      }
    }
  }

  /** The files of one collection and its items; None when one of them does not validate. */
  method CollectionScope(scope: Scope, valid: OutDoc -> bool) returns (r: Option<seq<Payload>>)
    ensures r == if AllValid(ScopePayloads(Layout(scope)), valid) then Some(ScopePayloads(Layout(scope))) else None
  {
    var l := Layout(scope);
    var collection := CollectionPayload(l);
    var items := ValidItems(l, valid);
    AllValidAppend([collection], ItemPayloads(l), valid);
    assert [collection][0] == collection;
    if !valid(collection.doc) || items.None? {
      return None;
    }
    r := Some([collection] + items.value);
  }

  method ValidItems(l: LaidOut, valid: OutDoc -> bool) returns (r: Option<seq<Payload>>)
    ensures r == if AllValid(ItemPayloads(l), valid) then Some(ItemPayloads(l)) else None
  {
    var payloads: seq<Payload> := [];
    for k := 0 to |l.items|
      invariant payloads == ItemPayloads(l)[..k] && AllValid(payloads, valid)
    {
      var item := ItemPayload(l, k);
      NextItem(l, k, valid);
      if !valid(item.doc) {
        return None;
      }
      payloads := payloads + [item];
    }
    assert ItemPayloads(l)[..|l.items|] == ItemPayloads(l);
    r := Some(payloads);
  }

  lemma NextItem(l: LaidOut, k: nat, valid: OutDoc -> bool)
    requires k < |l.items|
    ensures ItemPayloads(l)[..k + 1] == ItemPayloads(l)[..k] + [ItemPayload(l, k)]
    ensures AllValid(ItemPayloads(l)[..k + 1], valid)
            <==> AllValid(ItemPayloads(l)[..k], valid) && valid(ItemPayload(l, k).doc)
    ensures !valid(ItemPayload(l, k).doc) ==> !AllValid(ItemPayloads(l), valid)
  {
    NextPayload(ItemPayloads(l), k, valid);
  }

  lemma NextPayload(all: seq<Payload>, k: nat, valid: OutDoc -> bool)
    requires k < |all|
    ensures all[..k + 1] == all[..k] + [all[k]]
    ensures AllValid(all[..k + 1], valid) <==> AllValid(all[..k], valid) && valid(all[k].doc)
    ensures !valid(all[k].doc) ==> !AllValid(all, valid)
  {
    var one := [all[k]];
    assert all[..k + 1] == all[..k] + one;
    AllValidAppend(all[..k], one, valid);
    assert one[0] == all[k] && (AllValid(one, valid) <==> valid(one[0].doc));
  }

  /** The files of the first i collections are done and valid; `all` are the files of all. */
  ghost predicate Progress(done: seq<Payload>, laid: seq<LaidOut>, i: nat, all: seq<Payload>, valid: OutDoc -> bool) {
    i <= |laid| && done + AllScopePayloads(laid[i..]) == all && AllValid(done, valid)
  }

  lemma NextScope(done: seq<Payload>, laid: seq<LaidOut>, i: nat, all: seq<Payload>, valid: OutDoc -> bool)
    requires Progress(done, laid, i, all, valid) && i < |laid|
    ensures AllValid(ScopePayloads(laid[i]), valid) ==> Progress(done + ScopePayloads(laid[i]), laid, i + 1, all, valid)
    ensures !AllValid(ScopePayloads(laid[i]), valid) ==> !AllValid(all, valid)
  {
    assert laid[i..][1..] == laid[i + 1..];
    NextPart(done, ScopePayloads(laid[i]), AllScopePayloads(laid[i + 1..]), valid);
  }

  lemma LastScope(done: seq<Payload>, laid: seq<LaidOut>, all: seq<Payload>, valid: OutDoc -> bool)
    requires Progress(done, laid, |laid|, all, valid)
    ensures done == all && AllValid(all, valid)
  {
    assert done + [] == done;
  }

  lemma NextPart(before: seq<Payload>, first: seq<Payload>, rest: seq<Payload>, valid: OutDoc -> bool)
    ensures before + (first + rest) == before + first + rest
    ensures AllValid(before + (first + rest), valid) ==> AllValid(first, valid)
    ensures AllValid(before, valid) && AllValid(first, valid) ==> AllValid(before + first, valid)
  {
    Assoc(before, first, rest);
    AllValidAppend(before + first, rest, valid);
    AllValidAppend(before, first, valid);
  }

  /** The files of all collections in order; None when one of them does not validate. */
  method AllScopes(scopes: seq<Scope>, valid: OutDoc -> bool) returns (r: Option<seq<Payload>>)
    ensures var all := AllScopePayloads(LayoutAll(scopes)); r == if AllValid(all, valid) then Some(all) else None
  {
    var payloads: seq<Payload> := [];
    ghost var laid := LayoutAll(scopes);
    ghost var all := AllScopePayloads(laid);
    assert laid[0..] == laid && [] + all == all;
    for i := 0 to |scopes|
      invariant Progress(payloads, laid, i, all, valid)
    {
      NextScope(payloads, laid, i, all, valid);
      var scope := CollectionScope(scopes[i], valid);
      if scope.None? {
        return None;
      }
      payloads := payloads + scope.value;
    }
    LastScope(payloads, laid, all, valid);
    r := Some(payloads);
  }

  /** The whole tree as files, or the reason why there is none: repeated ids first, then the first
      collection without an id or a folder of its own, then a document that does not validate. */
  method CatalogTreePayloads(catalog: Doc, scopes: seq<Scope>, valid: OutDoc -> bool)
    returns (r: Result<seq<Payload>, ExportError>)
    ensures var tree := TreePayloads(catalog, LayoutAll(scopes));
            if !UniqueIds(CollectionIds(scopes)) then r == Failure(DuplicateIds)
            else if !OwnFolders(scopes) then r.Failure? && InTheWay(scopes, r.error)
            else r == if AllValid(tree, valid) then Success(tree) else Failure(InvalidDocument)
  {
    var ok := RequireUnique(CollectionIds(scopes));
    if !ok {
      return Failure(DuplicateIds);
    }
    var why := Dirnames(scopes);
    if why.Some? {
      return Failure(why.value);
    }
    var payloads := AllScopes(scopes, valid);
    var root := CatalogPayload(catalog, LayoutAll(scopes));
    AllValidAppend([root], AllScopePayloads(LayoutAll(scopes)), valid);
    assert [root][0] == root;
    if payloads.None? || !valid(root.doc) {
      return Failure(InvalidDocument);
    }
    r := Success([root] + payloads.value);
  }
}
