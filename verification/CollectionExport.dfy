/** Writing one collection with its items: as a self-contained tree, or into the prefix that the
    items were read from, where the item documents are re-linked in place. */
module CollectionExport {
  import opened Wrappers
  import opened Sequences
  import opened Names
  import opened Paths
  import opened CatalogExport
  import opened TreeFiles

  // ---------- The files ----------

  function HomePath(): Path {
    [COLLECTION_FILENAME]
  }

  function CollectionFile(id: string, kept: seq<Link>, paths: seq<Path>, body: string): Payload {
    Payload(HomePath(),
            OutDoc(CollectionDoc, id, None, kept + ([Plain(Root, HomePath())] + LinksTo(Item, paths)), body))
  }

  function UpLinks(up: Path): seq<Link> {
    [Plain(Root, up), Plain(Parent, up), Plain(Collection, up)]
  }

  function ItemFile(collectionId: string, id: string, kept: seq<Link>, path: Path, up: Path, body: string): Payload {
    Payload(path, OutDoc(ItemDoc, id, Some(collectionId), kept + UpLinks(up), body))
  }

  // ---------- The self-contained tree ----------

  function ExportName(item: Doc): string {
    SafeExportName(IdOf(item), "item")
  }

  function ExportNames(items: seq<Doc>): (names: seq<string>)
    ensures |names| == |items| && forall k :: 0 <= k < |items| ==> names[k] == ExportName(items[k])
  {
    seq(|items|, k requires 0 <= k < |items| => ExportName(items[k]))
  }

  function TreePath(name: string): Path {
    [name, name + ".json"]
  }

  function TreePaths(items: seq<Doc>): (paths: seq<Path>)
    ensures |paths| == |items| && forall k :: 0 <= k < |items| ==> paths[k] == TreePath(ExportName(items[k]))
  {
    seq(|items|, k requires 0 <= k < |items| => TreePath(ExportName(items[k])))
  }

  function TreeItem(collectionId: string, item: Doc): Payload {
    ItemFile(collectionId, IdOf(item), KeptLinks(item.links, ItemDrops), TreePath(ExportName(item)),
             ["..", COLLECTION_FILENAME], item.body)
  }

  function TreeItems(collectionId: string, items: seq<Doc>): (ps: seq<Payload>)
    ensures |ps| == |items| && forall k :: 0 <= k < |items| ==> ps[k] == TreeItem(collectionId, items[k])
  {
    seq(|items|, k requires 0 <= k < |items| => TreeItem(collectionId, items[k]))
  }

  function TreeHome(collection: Doc, items: seq<Doc>): Payload {
    CollectionFile(IdOf(collection), KeptLinks(collection.links, CollectionDrops), TreePaths(items), collection.body)
  }

  function CollectionTree(collection: Doc, items: seq<Doc>): seq<Payload> {
    [TreeHome(collection, items)] + TreeItems(IdOf(collection), items)
  }

  /** The paths of the item files; None when two item ids give one name. */
  method ItemPaths(items: seq<Doc>) returns (r: Option<seq<Path>>)
    ensures r == if Distinct(ExportNames(items)) then Some(TreePaths(items)) else None
  {
    var taken: set<string> := {};
    var paths: seq<Path> := [];
    ghost var names := ExportNames(items);
    for k := 0 to |items|
      invariant forall name :: name in taken <==> name in names[..k]
      invariant Distinct(names[..k]) && paths == TreePaths(items)[..k]
    {
      var name := ExportName(items[k]);
      assert names[..k + 1] == names[..k] + [names[k]];
      if name in taken {
        SharedName(names, k);
        return None;
      }
      taken := taken + {name};
      paths := paths + [TreePath(name)];
    }
    assert names[..|items|] == names && paths == TreePaths(items);
    r := Some(paths);
  }

  /** The item files; None when one of them does not validate. */
  method ItemFiles(collectionId: string, items: seq<Doc>, valid: OutDoc -> bool) returns (r: Option<seq<Payload>>)
    ensures r == if AllValid(TreeItems(collectionId, items), valid) then Some(TreeItems(collectionId, items)) else None
  {
    ghost var all := TreeItems(collectionId, items);
    var payloads: seq<Payload> := [];
    for k := 0 to |items|
      invariant payloads == all[..k] && AllValid(payloads, valid)
    {
      var item := TreeItem(collectionId, items[k]);
      NextPayload(all, k, valid);
      if !valid(item.doc) {
        return None;
      }
      payloads := payloads + [item];
    }
    assert all[..|items|] == all;
    r := Some(payloads);
  }

  /** The files of the tree; fails when two item ids give one name or a document does not validate. */
  method CollectionTreePayloads(collection: Doc, items: seq<Doc>, valid: OutDoc -> bool)
    returns (r: Result<seq<Payload>, ExportError>)
    ensures var tree := CollectionTree(collection, items);
            r == if collection.id.None? then Failure(MissingId)
                 else if !Distinct(ExportNames(items)) then Failure(SharedFolder)
                 else if AllValid(tree, valid) then Success(tree) else Failure(InvalidDocument)
  {
    if collection.id.None? {
      return Failure(MissingId);
    }
    var paths := ItemPaths(items);
    if paths.None? {
      return Failure(SharedFolder);
    }
    var home := CollectionFile(IdOf(collection), KeptLinks(collection.links, CollectionDrops), paths.value,
                               collection.body);
    AllValidAppend([home], TreeItems(IdOf(collection), items), valid);
    assert [home][0] == home;
    if !valid(home.doc) {
      return Failure(InvalidDocument);
    }
    var files := ItemFiles(IdOf(collection), items, valid);
    if files.None? {
      return Failure(InvalidDocument);
    }
    r := Success([home] + files.value);
  }

  // ---------- Links of a collection beside its items ----------

  /** Root, parent and collection lead to the collection's file, item links to an item of the collection. */
  ghost predicate HomeLink(payloads: seq<Payload>, p: Payload, l: Link, id: string) {
    match l.rel
    case Root => LeadsToCollection(payloads, Target(p, l), id)
    case Parent => p.doc.kind == ItemDoc && LeadsToCollection(payloads, Target(p, l), id)
    case Collection => p.doc.kind == ItemDoc && LeadsToCollection(payloads, Target(p, l), id)
    case Item => p.doc.kind == CollectionDoc && LeadsToItemOf(payloads, Target(p, l), id)
    case _ => false
  }

  ghost predicate HomeLinked(payloads: seq<Payload>, p: Payload, id: string) {
    forall l <- p.doc.links :: Rewritten(p.doc.kind, l.rel) ==> HomeLink(payloads, p, l, id)
  }

  /** From the directory of any clean path, as many steps up as it has directories lead to the collection. */
  lemma UpLeadsHome(path: Path)
    requires Clean(path) && path != []
    ensures Normpath(Join(Dirname(path), Ups(|path| - 1) + HomePath())) == HomePath()
  {
    FileNamesAreNames();
    DirnameClean(path);
    var up := Ups(|path| - 1) + HomePath();
    if |path| == 1 {
      assert up == HomePath();
      OriginLeadsBack(HomePath());
    } else {
      var dir := path[..|path| - 1];
      assert up[0] == ".." && IsName(dir[0]) && IsName(dir[|dir| - 1]);
      assert Join(dir, up) == dir + up;
      ClimbAndDescend(dir, 0, HomePath());
      assert dir[..0] + HomePath() == HomePath();
    }
  }

  lemma ItemLeadsHome(payloads: seq<Payload>, home: Payload, p: Payload, kept: seq<Link>, id: string)
    requires home in payloads && home.path == HomePath() && home.doc.kind == CollectionDoc && home.doc.id == id
    requires Clean(p.path) && p.path != [] && p.doc.kind == ItemDoc
    requires p.doc.links == kept + UpLinks(Ups(|p.path| - 1) + HomePath()) && forall l <- kept :: !ItemDrops(l.rel)
    ensures HomeLinked(payloads, p, id)
  {
    UpLeadsHome(p.path);
    forall l | l in p.doc.links && ItemDrops(l.rel) ensures HomeLink(payloads, p, l, id) {
      assert l !in kept && l in UpLinks(Ups(|p.path| - 1) + HomePath());
      assert Target(p, l) == HomePath();
    }
  }

  /** `file` is the file of an item of the collection at a clean path, with links up to the collection. */
  ghost predicate ItemAt(file: Payload, path: Path, kept: seq<Link>, id: string) {
    && Clean(path) && path != [] && file.path == path
    && file.doc.kind == ItemDoc && file.doc.collection == Some(id)
    && file.doc.links == kept + UpLinks(Ups(|path| - 1) + HomePath()) && forall l <- kept :: !ItemDrops(l.rel)
  }

  ghost predicate ItemsAt(files: seq<Payload>, paths: seq<Path>, kept: seq<seq<Link>>, id: string) {
    |files| == |paths| == |kept| && forall k :: 0 <= k < |paths| ==> ItemAt(files[k], paths[k], kept[k], id)
  }

  lemma HomeLinkCases(kept: seq<Link>, paths: seq<Path>, l: Link)
    requires l in kept + ([Plain(Root, HomePath())] + LinksTo(Item, paths))
    requires CollectionDrops(l.rel) && forall l <- kept :: !CollectionDrops(l.rel)
    ensures l == Plain(Root, HomePath()) || exists k :: 0 <= k < |paths| && l == Plain(Item, paths[k])
  {
    var items := LinksTo(Item, paths);
    assert l !in kept && l in [Plain(Root, HomePath())] + items;
    if l in items {
      var k :| 0 <= k < |items| && items[k] == l;
      assert l == Plain(Item, paths[k]);
    }
  }

  lemma HomeTarget(home: Payload, rel: Rel, path: Path)
    requires home.path == HomePath() && Clean(path) && path != []
    ensures Target(home, Plain(rel, path)) == path
  {
    FileNamesAreNames();
    DirnameClean(HomePath());
    OriginLeadsBack(path);
  }

  lemma HomeIsLinked(home: Payload, files: seq<Payload>, paths: seq<Path>, keptHome: seq<Link>, kept: seq<seq<Link>>,
                     id: string)
    requires home == CollectionFile(id, keptHome, paths, home.doc.body)
    requires forall l <- keptHome :: !CollectionDrops(l.rel)
    requires ItemsAt(files, paths, kept, id)
    ensures HomeLinked([home] + files, home, id)
  {
    var all := [home] + files;
    FileNamesAreNames();
    HomeTarget(home, Root, HomePath());
    assert all[0] == home;
    forall l | l in home.doc.links && CollectionDrops(l.rel) ensures HomeLink(all, home, l, id) {
      HomeLinkCases(keptHome, paths, l);
      if l != Plain(Root, HomePath()) {
        var k :| 0 <= k < |paths| && l == Plain(Item, paths[k]);
        assert ItemAt(files[k], paths[k], kept[k], id);
        HomeLinksItem(home, files, files[k], paths[k], kept[k], id);
      }
    }
  }

  lemma HomeLinksItem(home: Payload, files: seq<Payload>, file: Payload, path: Path, kept: seq<Link>, id: string)
    requires home.path == HomePath() && home.doc.kind == CollectionDoc
    requires file in files && ItemAt(file, path, kept, id)
    ensures HomeLink([home] + files, home, Plain(Item, path), id)
  {
    HomeTarget(home, Item, path);
    assert file in [home] + files;
  }

  lemma HomeReachesItem(home: Payload, paths: seq<Path>, keptHome: seq<Link>, id: string, k: nat)
    requires home == CollectionFile(id, keptHome, paths, home.doc.body)
    requires k < |paths| && Clean(paths[k]) && paths[k] != []
    ensures Links(home, Item, paths[k])
  {
    HomeTarget(home, Item, paths[k]);
    var items := LinksTo(Item, paths);
    assert items[k] in items && items[k] in home.doc.links;
  }

  /** A collection file beside item files that link up to it is a tree closed under its links. */
  lemma HomeTreeIsClosed(home: Payload, files: seq<Payload>, paths: seq<Path>, keptHome: seq<Link>,
                         kept: seq<seq<Link>>, id: string)
    requires home == CollectionFile(id, keptHome, paths, home.doc.body)
    requires forall l <- keptHome :: !CollectionDrops(l.rel)
    requires ItemsAt(files, paths, kept, id)
    ensures forall p <- [home] + files :: HomeLinked([home] + files, p, id)
    ensures forall k :: 0 <= k < |paths| ==> Links(home, Item, paths[k])
  {
    var all := [home] + files;
    HomeIsLinked(home, files, paths, keptHome, kept, id);
    forall k | 0 <= k < |paths| ensures Links(home, Item, paths[k]) {
      assert ItemAt(files[k], paths[k], kept[k], id);
      HomeReachesItem(home, paths, keptHome, id, k);
    }
    assert all[0] == home;
    forall k | 0 <= k < |files| ensures HomeLinked(all, files[k], id) {
      assert ItemAt(files[k], paths[k], kept[k], id);
      ItemLeadsHome(all, home, files[k], kept[k], id);
    }
  }

  lemma TreePathIsClean(item: Doc)
    ensures Clean(TreePath(ExportName(item)))
  {
    FallbacksAreSafe();
    ExportNameIsSafe(IdOf(item), "item");
    var name := ExportName(item);
    assert IsName(name + ".json");
  }

  function KeptOfItems(items: seq<Doc>): (kept: seq<seq<Link>>)
    ensures |kept| == |items| && forall k :: 0 <= k < |items| ==> kept[k] == KeptLinks(items[k].links, ItemDrops)
  {
    seq(|items|, k requires 0 <= k < |items| => KeptLinks(items[k].links, ItemDrops))
  }

  lemma TreeItemIsAt(id: string, item: Doc)
    ensures ItemAt(TreeItem(id, item), TreePath(ExportName(item)), KeptLinks(item.links, ItemDrops), id)
  {
    TreePathIsClean(item);
    assert Ups(1) + HomePath() == ["..", COLLECTION_FILENAME];
  }

  lemma NamedPathsDiffer(names: seq<string>, paths: seq<Path>)
    requires |names| == |paths| && Distinct(names) && forall k :: 0 <= k < |names| ==> paths[k] == TreePath(names[k])
    ensures Distinct([HomePath()] + paths)
  {
    forall i, j | 0 <= i < j < |paths| ensures paths[i] != paths[j] {
      assert paths[i][0] == names[i] && paths[j][0] == names[j];
    }
    forall j | 0 <= j < |paths| ensures paths[j] != HomePath() {
      assert |paths[j]| == 2;
    }
    DistinctParts([HomePath()], paths);
  }

  /** The tree is closed under its topological links and the collection reaches every item. */
  lemma CollectionTreeIsLinkClosed(collection: Doc, items: seq<Doc>)
    ensures forall p <- CollectionTree(collection, items) ::
            HomeLinked(CollectionTree(collection, items), p, IdOf(collection))
    ensures forall k :: 0 <= k < |items| ==> Links(TreeHome(collection, items), Item, TreePaths(items)[k])
  {
    TreeItemsAreAt(IdOf(collection), items);
    HomeTreeIsClosed(TreeHome(collection, items), TreeItems(IdOf(collection), items), TreePaths(items),
                     KeptLinks(collection.links, CollectionDrops), KeptOfItems(items), IdOf(collection));
  }

  lemma TreePathsAre(collection: Doc, items: seq<Doc>)
    ensures PathsOf(CollectionTree(collection, items)) == [HomePath()] + TreePaths(items)
  {
    ItemPathsAre(IdOf(collection), items);
    PathsAppend([TreeHome(collection, items)], TreeItems(IdOf(collection), items));
    assert PathsOf([TreeHome(collection, items)]) == [HomePath()];
  }

  lemma ItemPathsAre(id: string, items: seq<Doc>)
    ensures PathsOf(TreeItems(id, items)) == TreePaths(items)
  {
    assert forall k :: 0 <= k < |items| ==> TreeItems(id, items)[k].path == TreePaths(items)[k];
  }

  /** Once the names differ, no two files of the tree share a path. */
  lemma CollectionTreePathsDiffer(collection: Doc, items: seq<Doc>)
    requires Distinct(ExportNames(items))
    ensures Distinct(PathsOf(CollectionTree(collection, items)))
  {
    TreePathsAre(collection, items);
    NamedPathsDiffer(ExportNames(items), TreePaths(items));
  }

  lemma TreeItemsAreAt(id: string, items: seq<Doc>)
    ensures ItemsAt(TreeItems(id, items), TreePaths(items), KeptOfItems(items), id)
  {
    forall k | 0 <= k < |items|
      ensures ItemAt(TreeItems(id, items)[k], TreePaths(items)[k], KeptOfItems(items)[k], id) {
      TreeItemIsAt(id, items[k]);
    }
  }

  lemma HomeKeepsLinks(collection: Doc, items: seq<Doc>)
    ensures Untouched(TreeHome(collection, items).doc.links, CollectionDrops)
            == KeptLinks(collection.links, CollectionDrops)
  {
    UntouchedAppend(KeptLinks(collection.links, CollectionDrops),
                    [Plain(Root, HomePath())] + LinksTo(Item, TreePaths(items)), CollectionDrops);
  }

  lemma TreeItemKeepsLinks(id: string, item: Doc)
    ensures Untouched(TreeItem(id, item).doc.links, ItemDrops) == KeptLinks(item.links, ItemDrops)
  {
    UntouchedAppend(KeptLinks(item.links, ItemDrops), UpLinks(["..", COLLECTION_FILENAME]), ItemDrops);
  }

  /** Non-topological links survive unchanged and in order; no stale topological link does. */
  lemma CollectionTreeKeepsLinks(collection: Doc, items: seq<Doc>, k: nat)
    requires k < |items|
    ensures Carried(collection.links, {Root, Parent, Rel.Item, Self, Child},
                    Untouched(TreeHome(collection, items).doc.links, CollectionDrops))
    ensures Carried(items[k].links, {Root, Parent, Rel.Collection, Self},
                    Untouched(TreeItem(IdOf(collection), items[k]).doc.links, ItemDrops))
  {
    HomeKeepsLinks(collection, items);
    CollectionCarries(collection.links);
    TreeItemKeepsLinks(IdOf(collection), items[k]);
    ItemCarries(items[k].links);
  }

  // ---------- Re-linking inside the source prefix ----------

  /** A document whose links and collection id are overwritten in place. */
  class Document {
    const id: string
    const body: string
    var collection: Option<string>
    var links: seq<Link>

    constructor (id: string, body: string, collection: Option<string>, links: seq<Link>)
      ensures this.id == id && this.body == body && this.collection == collection && this.links == links
    {
      this.id, this.body, this.collection, this.links := id, body, collection, links;
    }

    method Relink(collectionId: string, up: Path)
      modifies this
      ensures collection == Some(collectionId) && links == UpLinks(up)
    {
      collection := Some(collectionId);
      links := [Plain(Root, up), Plain(Parent, up), Plain(Collection, up)];
    }

    function Out(kind: Kind): OutDoc
      reads this
    {
      OutDoc(kind, id, collection, links, body)
    }
  }

  /** The collection's file as seen from the directory of an item. */
  function RelativeCollectionHref(rel: Path): Path {
    if rel == [] then HomePath() else Ups(|rel| - 1) + HomePath()
  }

  function RelinkedItem(collectionId: string, item: Document, rel: Path): Payload {
    ItemFile(collectionId, item.id, [], rel, RelativeCollectionHref(rel), item.body)
  }

  function RelinkedItems(collectionId: string, items: seq<Document>, rels: seq<Path>): (ps: seq<Payload>)
    requires |rels| == |items|
    ensures |ps| == |items| && forall k :: 0 <= k < |items| ==> ps[k] == RelinkedItem(collectionId, items[k], rels[k])
  {
    seq(|items|, k requires 0 <= k < |items| => RelinkedItem(collectionId, items[k], rels[k]))
  }

  function RelinkedHome(collection: Document, rels: seq<Path>): Payload {
    CollectionFile(collection.id, [], rels, collection.body)
  }

  function RelinkedTree(collection: Document, items: seq<Document>, rels: seq<Path>): seq<Payload>
    requires |rels| == |items|
  {
    [RelinkedHome(collection, rels)] + RelinkedItems(collection.id, items, rels)
  }

  lemma RelinkedOut(collectionId: string, item: Document, rel: Path)
    requires item.collection == Some(collectionId) && item.links == UpLinks(RelativeCollectionHref(rel))
    ensures item.Out(ItemDoc) == RelinkedItem(collectionId, item, rel).doc
  {
    assert [] + UpLinks(RelativeCollectionHref(rel)) == UpLinks(RelativeCollectionHref(rel));
  }

  method RelinkItem(collectionId: string, item: Document, rel: Path) returns (doc: OutDoc)
    modifies item
    ensures doc == item.Out(ItemDoc) == RelinkedItem(collectionId, item, rel).doc
  {
    item.Relink(collectionId, RelativeCollectionHref(rel));
    RelinkedOut(collectionId, item, rel);
    doc := item.Out(ItemDoc);
  }

  method RelinkItems(collectionId: string, items: seq<Document>, rels: seq<Path>, valid: OutDoc -> bool)
    returns (ok: bool)
    requires |rels| == |items| && forall i, j :: 0 <= i < j < |items| ==> items[i] != items[j]
    modifies items
    ensures ok <==> AllValid(RelinkedItems(collectionId, items, rels), valid)
    ensures ok ==> forall k ::
            0 <= k < |items| ==> items[k].Out(ItemDoc) == RelinkedItem(collectionId, items[k], rels[k]).doc
  {
    ghost var files := RelinkedItems(collectionId, items, rels);
    for k := 0 to |items|
      invariant forall i :: 0 <= i < k ==> items[i].Out(ItemDoc) == files[i].doc
      invariant AllValid(files[..k], valid)
    {
      NextPayload(files, k, valid);
      var doc := RelinkItem(collectionId, items[k], rels[k]);
      assert doc == files[k].doc;
      if !valid(doc) {
        return false;
      }
    }
    NoneAndAll(files);
    ok := true;
  }

  lemma HeadValid(head: Payload, rest: seq<Payload>, valid: OutDoc -> bool)
    ensures AllValid([head] + rest, valid) <==> valid(head.doc) && AllValid(rest, valid)
  {
    AllValidAppend([head], rest, valid);
    assert [head][0] == head && (AllValid([head], valid) <==> valid([head][0].doc));
  }

  lemma RelinkedHomeOut(collection: Document, rels: seq<Path>)
    requires collection.collection == None && collection.links == [Plain(Root, HomePath())] + LinksTo(Item, rels)
    ensures collection.Out(CollectionDoc) == RelinkedHome(collection, rels).doc
  {
    var links := [Plain(Root, HomePath())] + LinksTo(Item, rels);
    assert [] + links == links;
  }

  /** Overwrites the links of every item and of the collection and gives their files; None when a
      document does not validate. */
  method ExportIntoSourcePrefix(collection: Document, items: seq<Document>, rels: seq<Path>, valid: OutDoc -> bool)
    returns (r: Option<seq<Payload>>)
    requires |rels| == |items| && (forall i, j :: 0 <= i < j < |items| ==> items[i] != items[j])
    requires collection !in items && collection.collection == None
    modifies collection`links, items
    ensures var tree := RelinkedTree(collection, items, rels); r == if AllValid(tree, valid) then Some(tree) else None
    ensures r.Some? ==> collection.Out(CollectionDoc) == r.value[0].doc
    ensures r.Some? ==> forall k :: 0 <= k < |items| ==> items[k].Out(ItemDoc) == r.value[k + 1].doc
  {
    ghost var files := RelinkedItems(collection.id, items, rels);
    ghost var home := RelinkedHome(collection, rels);
    HeadValid(home, files, valid);
    var ok := RelinkItems(collection.id, items, rels, valid);
    if !ok {
      return None;
    }
    collection.links := [Plain(Root, HomePath())] + LinksTo(Item, rels);
    RelinkedHomeOut(collection, rels);
    if !valid(collection.Out(CollectionDoc)) {
      return None;
    }
    var payloads := OutAll(items, rels);
    assert payloads == files;
    r := Some([Payload(HomePath(), collection.Out(CollectionDoc))] + payloads);
  }

  function OutAll(items: seq<Document>, rels: seq<Path>): (ps: seq<Payload>)
    requires |rels| == |items|
    reads items
    ensures |ps| == |items| && forall k :: 0 <= k < |items| ==> ps[k] == Payload(rels[k], items[k].Out(ItemDoc))
  {
    seq(|items|, k requires 0 <= k < |items| reads items => Payload(rels[k], items[k].Out(ItemDoc)))
  }

  function NoLinks(n: nat): (kept: seq<seq<Link>>)
    ensures |kept| == n && forall k :: 0 <= k < n ==> kept[k] == []
  {
    seq(n, k => [])
  }

  lemma RelinkedItemIsAt(id: string, item: Document, rel: Path)
    requires Clean(rel) && rel != []
    ensures ItemAt(RelinkedItem(id, item, rel), rel, [], id)
  {
  }

  /** The links written in place lead back to the collection from any depth, and on to every item. */
  lemma RelinkedTreeIsLinkClosed(collection: Document, items: seq<Document>, rels: seq<Path>)
    requires |rels| == |items| && forall k :: 0 <= k < |rels| ==> Clean(rels[k]) && rels[k] != []
    ensures forall p <- RelinkedTree(collection, items, rels) ::
            HomeLinked(RelinkedTree(collection, items, rels), p, collection.id)
    ensures forall k :: 0 <= k < |rels| ==> Links(RelinkedHome(collection, rels), Item, rels[k])
  {
    var files := RelinkedItems(collection.id, items, rels);
    forall k | 0 <= k < |rels| ensures ItemAt(files[k], rels[k], NoLinks(|rels|)[k], collection.id) {
      RelinkedItemIsAt(collection.id, items[k], rels[k]);
    }
    HomeTreeIsClosed(RelinkedHome(collection, rels), files, rels, [], NoLinks(|rels|), collection.id);
  }

  // ---------- Writing the files ----------

  lemma RelinkedPaths(collection: Document, items: seq<Document>, rels: seq<Path>)
    requires |rels| == |items|
    ensures var tree := RelinkedTree(collection, items, rels);
            && |tree| == |rels| + 1 && tree[0].path == HomePath() && tree[0].doc.kind == CollectionDoc
            && (forall k :: 0 <= k < |rels| ==> tree[k + 1].path == rels[k])
            && (forall k :: 0 < k < |tree| ==> tree[k].path == rels[k - 1] && tree[k].doc.kind == ItemDoc)
  {
    var tree, files := RelinkedTree(collection, items, rels), RelinkedItems(collection.id, items, rels);
    forall k | 0 <= k < |rels| ensures tree[k + 1].path == rels[k] && tree[k + 1].doc.kind == ItemDoc {
      assert tree[k + 1] == files[k] == RelinkedItem(collection.id, items[k], rels[k]);
    }
    assert forall k :: 0 < k < |tree| ==> tree[k] == tree[(k - 1) + 1];
  }

  /** Writing into the prefix leaves a collection at its place exactly when none of the items was
      itself read from that file: an item found there is written over the new collection. */
  lemma CollectionSurvivesIff(collection: Document, items: seq<Document>, rels: seq<Path>)
    requires |rels| == |items|
    ensures var folder := Folded(RelinkedTree(collection, items, rels));
            HomePath() in folder && (folder[HomePath()].kind == CollectionDoc <==> HomePath() !in rels)
  {
    RelinkedPaths(collection, items, rels);
    var tree := RelinkedTree(collection, items, rels);
    if HomePath() in rels {
      var k :| 0 <= k < |rels| && rels[k] == HomePath();
      assert tree[k + 1].path == rels[k];
      LaterWriteReplaces(tree, HomePath(), ItemDoc);
    } else {
      LastWriteStays(tree, 0);
    }
  }

  /** The self-contained tree loses no file: each payload is found at its path. */
  lemma CollectionTreeKeepsFiles(home: Doc, docs: seq<Doc>, i: nat)
    requires Distinct(ExportNames(docs)) && i < |CollectionTree(home, docs)|
    ensures var tree := CollectionTree(home, docs);
            tree[i].path in Folded(tree) && Folded(tree)[tree[i].path] == tree[i].doc
  {
    CollectionTreePathsDiffer(home, docs);
    var tree := CollectionTree(home, docs);
    var paths := PathsOf(tree);
    assert forall j :: i < j < |tree| ==> tree[j].path == paths[j] && paths[j] != paths[i];
    LastWriteStays(tree, i);
  }
}
