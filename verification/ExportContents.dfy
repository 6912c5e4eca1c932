/** What each exported file holds, in terms of the documents that were given. */
module ExportContents {
  import opened Wrappers
  import opened Sequences
  import opened NameShapes
  import opened Paths
  import opened CatalogExport
  import opened CollectionExport

  // ---------- The files of a catalog tree ----------

  /** The name under which a text is exported. */
  ghost predicate ExportedAs(value: string, fallback: string, name: string) {
    exists v :: Trimmed(value, v) && Named(v, fallback, name)
  }

  /** From the directory of the file at `from`, `href` leads to `target`. */
  ghost predicate Reaches(from: Path, href: Path, target: Path) {
    Normpath(Join(Dirname(from), href)) == target
  }

  /** The links of a collection file: those copied, then one to the root, one to the parent, and one to
      each item in order. */
  ghost predicate CollectionLinksAre(out: seq<Link>, kept: seq<Link>, up: Path, items: seq<Path>) {
    && |out| == |kept| + 2 + |items| && out[..|kept|] == kept
    && out[|kept|] == Link(Root, up, "") && out[|kept| + 1] == Link(Parent, up, "")
    && forall k :: 0 <= k < |items| ==> out[|kept| + 2 + k] == Link(Rel.Item, items[k], "")
  }

  ghost predicate CollectionFileLinks(out: seq<Link>, given: seq<Option<Link>>, path: Path, items: seq<Path>,
                                      root: Path) {
    exists kept, up ::
      && Carried(given, {Root, Parent, Rel.Item, Self, Child}, kept)
      && CollectionLinksAre(out, kept, up, items) && Reaches(path, up, root)
  }

  /** The links of an item file: those copied, then one each to the root, the parent and the collection. */
  ghost predicate ItemLinksAre(out: seq<Link>, kept: seq<Link>, up: Path, beside: Path) {
    out == kept + [Link(Root, up, ""), Link(Parent, beside, ""), Link(Rel.Collection, beside, "")]
  }

  ghost predicate ItemFileLinks(out: seq<Link>, given: seq<Option<Link>>, path: Path, root: Path, collection: Path) {
    exists kept, up, beside ::
      && Carried(given, {Root, Parent, Rel.Collection, Self}, kept)
      && ItemLinksAre(out, kept, up, beside) && Reaches(path, up, root) && Reaches(path, beside, collection)
  }

  /** The path of an item inside its folder, segment by segment. */
  ghost predicate ItemPathIs(given: Path, safe: Path) {
    |safe| == |given| && forall k :: 0 <= k < |given| ==> ExportedAs(given[k], "item", safe[k])
  }

  ghost predicate ItemFileIs(p: Payload, folder: string, collectionId: string, given: (Path, Doc), safe: Path) {
    && ItemPathIs(given.0, safe) && p.path == [folder] + safe
    && p.doc.kind == ItemDoc && p.doc.id == GetOr(given.1.id, "") && p.doc.collection == Some(collectionId)
    && p.doc.body == given.1.body
    && ItemFileLinks(p.doc.links, given.1.links, p.path, ["catalog.json"], [folder, "collection.json"])
  }

  /** The files of one collection: its own, then one for each item in order. */
  ghost predicate ScopeFilesAre(files: seq<Payload>, scope: Scope, folder: string, safe: seq<Path>) {
    var id := GetOr(scope.collection.id, "");
    && |safe| == |scope.items| && |files| == |scope.items| + 1 && ExportedAs(id, "collection", folder)
    && files[0].path == [folder, "collection.json"]
    && files[0].doc.kind == CollectionDoc && files[0].doc.id == id && files[0].doc.collection == None
    && files[0].doc.body == scope.collection.body
    && CollectionFileLinks(files[0].doc.links, scope.collection.links, files[0].path, safe, ["catalog.json"])
    && forall k :: 0 <= k < |scope.items| ==> ItemFileIs(files[k + 1], folder, id, scope.items[k], safe[k])
  }

  lemma SafePathIs(given: Path)
    ensures ItemPathIs(given, SafeItemPath(given))
  {
    forall j | 0 <= j < |given| ensures ExportedAs(given[j], "item", SafeItemPath(given)[j]) {
      ExportNameIs(given[j], "item");
    }
  }

  lemma ItemLinksHold(out: seq<Link>, given: seq<Option<Link>>, path: Path, up: Path, beside: Path, root: Path,
                      collection: Path)
    requires ItemLinksAre(out, KeptLinks(given, ItemDrops), up, beside)
    requires Reaches(path, up, root) && Reaches(path, beside, collection)
    ensures ItemFileLinks(out, given, path, root, collection)
  {
    ItemCarries(given);
  }

  lemma ItemFileHolds(l: LaidOut, given: (Path, Doc), k: nat)
    requires SafeLayout(l) && k < |l.items| && l.items[k] == (SafeItemPath(given.0), given.1)
    ensures ItemFileIs(ItemPayload(l, k), l.folder, IdOf(l.collection), given, l.items[k].0)
  {
    var p, dir := ItemPayload(l, k), Dirname(ItemPath(l, k));
    SafePathIs(given.0);
    ItemUpLeads(l, k, Root);
    ItemLinksHold(p.doc.links, given.1.links, p.path, Relpath(CatalogPath(), dir), Relpath(CollectionPath(l), dir),
                  CatalogPath(), CollectionPath(l));
  }

  lemma CollectionLinksHold(out: seq<Link>, given: seq<Option<Link>>, path: Path, up: Path, items: seq<Path>,
                            root: Path)
    requires CollectionLinksAre(out, KeptLinks(given, CollectionDrops), up, items) && Reaches(path, up, root)
    ensures CollectionFileLinks(out, given, path, items, root)
  {
    CollectionCarries(given);
  }

  lemma CollectionFileHolds(l: LaidOut)
    requires IsName(l.folder)
    ensures var p := CollectionPayload(l);
            CollectionFileLinks(p.doc.links, l.collection.links, p.path, FirstPaths(l.items), CatalogPath())
  {
    var p, up := CollectionPayload(l), Relpath(CatalogPath(), [l.folder]);
    CollectionUpLeads(l);
    LinkLayout(KeptLinks(l.collection.links, CollectionDrops), up, FirstPaths(l.items));
    CollectionLinksHold(p.doc.links, l.collection.links, p.path, up, FirstPaths(l.items), CatalogPath());
  }

  lemma LinkLayout(kept: seq<Link>, up: Path, items: seq<Path>)
    ensures CollectionLinksAre(kept + ([Plain(Root, up), Plain(Parent, up)] + LinksTo(Rel.Item, items)), kept, up,
                               items)
  {
    var rest := LinksTo(Rel.Item, items);
    var out := kept + ([Plain(Root, up), Plain(Parent, up)] + rest);
    assert forall k :: 0 <= k < |items| ==> out[|kept| + 2 + k] == rest[k];
  }

  lemma ItemFilesHold(scopes: seq<Scope>, i: nat, k: nat)
    requires ItemsHavePaths(scopes) && i < |scopes| && k < |scopes[i].items|
    ensures var l := Layout(scopes[i]);
            ItemFileIs(ScopePayloads(l)[k + 1], l.folder, IdOf(scopes[i].collection), scopes[i].items[k],
                       FirstPaths(l.items)[k])
  {
    var l := Layout(scopes[i]);
    LayoutIsSafe(scopes, i);
    ItemFileHolds(l, scopes[i].items[k], k);
    assert ScopePayloads(l)[k + 1] == ItemPayload(l, k);
  }

  /** The files that a collection with its items becomes. */
  lemma ScopeFilesHold(scopes: seq<Scope>, i: nat)
    requires ItemsHavePaths(scopes) && i < |scopes|
    ensures var l := Layout(scopes[i]);
            ScopeFilesAre(ScopePayloads(l), scopes[i], l.folder, FirstPaths(l.items))
  {
    var l := Layout(scopes[i]);
    LayoutIsSafe(scopes, i);
    ExportNameIs(IdOf(scopes[i].collection), "collection");
    CollectionFileHolds(l);
    assert ScopePayloads(l)[0] == CollectionPayload(l);
    forall k | 0 <= k < |scopes[i].items|
      ensures ItemFileIs(ScopePayloads(l)[k + 1], l.folder, IdOf(scopes[i].collection), scopes[i].items[k],
                         FirstPaths(l.items)[k])
    {
      ItemFilesHold(scopes, i, k);
    }
  }

  /** The catalog's own file links itself as the root and then each collection, in order, and keeps no
      other link. */
  ghost predicate CatalogFileIs(p: Payload, catalog: Doc, folders: seq<string>) {
    && p.path == ["catalog.json"] && p.doc.kind == CatalogDoc && p.doc.id == GetOr(catalog.id, "")
    && p.doc.collection == None && p.doc.body == catalog.body
    && |p.doc.links| == |folders| + 1 && p.doc.links[0] == Link(Root, ["catalog.json"], "")
    && forall i :: 0 <= i < |folders| ==> p.doc.links[i + 1] == Link(Child, [folders[i], "collection.json"], "")
  }

  function FoldersOf(laid: seq<LaidOut>): (fs: seq<string>)
    ensures |fs| == |laid| && forall i :: 0 <= i < |laid| ==> fs[i] == laid[i].folder
  {
    seq(|laid|, i requires 0 <= i < |laid| => laid[i].folder)
  }

  /** A catalog's file and then the files of each collection in order. */
  ghost predicate TreeFilesAre(tree: seq<Payload>, catalog: Doc, scopes: seq<Scope>, parts: seq<seq<Payload>>,
                               folders: seq<string>, safe: seq<seq<Path>>) {
    && |parts| == |folders| == |safe| == |scopes|
    && tree != [] && tree[1..] == Flatten(parts) && CatalogFileIs(tree[0], catalog, folders)
    && forall i :: 0 <= i < |scopes| ==> ScopeFilesAre(parts[i], scopes[i], folders[i], safe[i])
  }

  function PathsIn(laid: seq<LaidOut>): (paths: seq<seq<Path>>)
    ensures |paths| == |laid| && forall i :: 0 <= i < |laid| ==> paths[i] == FirstPaths(laid[i].items)
  {
    seq(|laid|, i requires 0 <= i < |laid| => FirstPaths(laid[i].items))
  }

  lemma CatalogFileHolds(catalog: Doc, laid: seq<LaidOut>)
    ensures CatalogFileIs(CatalogPayload(catalog, laid), catalog, FoldersOf(laid))
  {
    var links := CatalogLinks(laid);
    forall i | 0 <= i < |laid| ensures links[i + 1] == Link(Child, [laid[i].folder, "collection.json"], "") {
      assert links[i + 1] == LinksTo(Child, CollectionPaths(laid))[i] == Plain(Child, CollectionPath(laid[i]));
    }
  }

  /** Every file of the tree holds the text, the id and the other links of its document, and nothing else
      is written. */
  lemma TreeFilesHold(catalog: Doc, scopes: seq<Scope>)
    returns (parts: seq<seq<Payload>>, folders: seq<string>, safe: seq<seq<Path>>)
    requires ItemsHavePaths(scopes)
    ensures TreeFilesAre(TreePayloads(catalog, LayoutAll(scopes)), catalog, scopes, parts, folders, safe)
  {
    var laid := LayoutAll(scopes);
    parts, folders, safe := PerScope(laid), FoldersOf(laid), PathsIn(laid);
    ScopesAreFlat(laid);
    CatalogFileHolds(catalog, laid);
    forall i | 0 <= i < |scopes| ensures ScopeFilesAre(parts[i], scopes[i], folders[i], safe[i]) {
      ScopeFilesHold(scopes, i);
    }
  }

  // ---------- The files of a collection tree ----------

  /** The files of a collection of its own: links as in a catalog tree, with the collection as the root. */
  ghost predicate CollectionTreeIs(tree: seq<Payload>, collection: Doc, items: seq<Doc>, names: seq<string>) {
    var id := GetOr(collection.id, "");
    && |names| == |items| && |tree| == |items| + 1
    && tree[0].path == ["collection.json"]
    && tree[0].doc.kind == CollectionDoc && tree[0].doc.id == id && tree[0].doc.collection == None
    && tree[0].doc.body == collection.body
    && HomeFileLinks(tree[0].doc.links, collection.links, names)
    && forall k :: 0 <= k < |items| ==> TreeItemIs(tree[k + 1], id, items[k], names[k])
  }

  ghost predicate HomeFileLinks(out: seq<Link>, given: seq<Option<Link>>, names: seq<string>) {
    exists kept ::
      && Carried(given, {Root, Parent, Rel.Item, Self, Child}, kept)
      && |out| == |kept| + 1 + |names| && out[..|kept|] == kept
      && out[|kept|] == Link(Root, ["collection.json"], "")
      && forall k :: 0 <= k < |names| ==> out[|kept| + 1 + k] == Link(Rel.Item, [names[k], names[k] + ".json"], "")
  }

  ghost predicate TreeItemIs(p: Payload, id: string, item: Doc, name: string) {
    && ExportedAs(GetOr(item.id, ""), "item", name) && p.path == [name, name + ".json"]
    && p.doc.kind == ItemDoc && p.doc.id == GetOr(item.id, "") && p.doc.collection == Some(id)
    && p.doc.body == item.body
    && ItemFileLinks(p.doc.links, item.links, p.path, ["collection.json"], ["collection.json"])
  }

  lemma TreeItemHolds(id: string, item: Doc)
    ensures TreeItemIs(TreeItem(id, item), id, item, ExportName(item))
  {
    var p, up := TreeItem(id, item), ["..", COLLECTION_FILENAME];
    ExportNameIs(IdOf(item), "item");
    TreePathIsClean(item);
    UpLeadsHome(p.path);
    assert Ups(1) + HomePath() == up;
    ItemLinksHold(p.doc.links, item.links, p.path, up, up, HomePath(), HomePath());
  }

  ghost predicate HomeLinksAre(out: seq<Link>, kept: seq<Link>, paths: seq<Path>) {
    && |out| == |kept| + 1 + |paths| && out[..|kept|] == kept && out[|kept|] == Plain(Root, HomePath())
    && forall k :: 0 <= k < |paths| ==> out[|kept| + 1 + k] == Plain(Rel.Item, paths[k])
  }

  lemma HomeLayout(kept: seq<Link>, paths: seq<Path>)
    ensures HomeLinksAre(kept + ([Plain(Root, HomePath())] + LinksTo(Rel.Item, paths)), kept, paths)
  {
    var rest := LinksTo(Rel.Item, paths);
    var out := kept + ([Plain(Root, HomePath())] + rest);
    assert forall k :: 0 <= k < |paths| ==> out[|kept| + 1 + k] == rest[k];
  }

  lemma HomeLinksHold(out: seq<Link>, given: seq<Option<Link>>, kept: seq<Link>, paths: seq<Path>, names: seq<string>)
    requires HomeLinksAre(out, kept, paths) && Carried(given, {Root, Parent, Rel.Item, Self, Child}, kept)
    requires |names| == |paths| && forall k :: 0 <= k < |paths| ==> paths[k] == [names[k], names[k] + ".json"]
    ensures HomeFileLinks(out, given, names)
  {
  }

  lemma HomeFileHolds(collection: Doc, items: seq<Doc>)
    ensures HomeFileLinks(TreeHome(collection, items).doc.links, collection.links, ExportNames(items))
  {
    var kept := KeptLinks(collection.links, CollectionDrops);
    CollectionCarries(collection.links);
    HomeLayout(kept, TreePaths(items));
    HomeLinksHold(TreeHome(collection, items).doc.links, collection.links, kept, TreePaths(items), ExportNames(items));
  }

  /** Every file of a collection tree holds the text, the id and the other links of its document. */
  lemma CollectionTreeHolds(collection: Doc, items: seq<Doc>)
    ensures CollectionTreeIs(CollectionTree(collection, items), collection, items, ExportNames(items))
  {
    var tree, id := CollectionTree(collection, items), IdOf(collection);
    HomeFileHolds(collection, items);
    assert tree[0] == TreeHome(collection, items);
    forall k | 0 <= k < |items| ensures TreeItemIs(tree[k + 1], id, items[k], ExportNames(items)[k]) {
      TreeItemAt(collection, items, k);
    }
  }

  lemma TreeItemAt(collection: Doc, items: seq<Doc>, k: nat)
    requires k < |items|
    ensures TreeItemIs(CollectionTree(collection, items)[k + 1], IdOf(collection), items[k], ExportNames(items)[k])
  {
    TreeItemHolds(IdOf(collection), items[k]);
    assert CollectionTree(collection, items)[k + 1] == TreeItems(IdOf(collection), items)[k];
  }
}
