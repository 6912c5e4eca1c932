/** Reading exported trees back: resolving item links against local collection files, and
    combining the collections of several sources. */
module CatalogImport {
  import opened Wrappers
  import opened Sequences
  import opened Names
  import opened Paths
  import opened CatalogExport

  // ---------- Resolving links on local paths ----------

  function ResolveHref(base: Path, href: Path): Path {
    Normpath(Join(Dirname(base), href))
  }

  /** The item path relative to the directory of the collection, or the bare file name where that does not apply. */
  function HrefRelativePath(collection: Path, href: Path): Path {
    var path := Normpath(ResolveHref(collection, href));
    var dir := Dirname(collection);
    if dir != [""] && dir <= path && |dir| < |path| then path[|dir|..] else [Basename(path)]
  }

  /** A normalised local path: names only, after a leading slash if it is absolute. */
  function LocalPath(absolute: bool, names: Path): Path {
    if absolute then [""] + names else names
  }

  lemma DirnameLocal(absolute: bool, dir: Path, file: string)
    requires Clean(dir) && IsName(file)
    ensures Dirname(LocalPath(absolute, dir + [file])) ==
            if dir == [] then (if absolute then ["", ""] else [""]) else LocalPath(absolute, dir)
  {
    var p := LocalPath(absolute, dir + [file]);
    if dir == [] {
      assert absolute ==> p == ["", file] && p[..1] == [""];
    } else {
      assert p[..|p| - 1] == LocalPath(absolute, dir);
      assert IsName(dir[|dir| - 1]);
      assert LocalPath(absolute, dir)[|LocalPath(absolute, dir)| - 1] == dir[|dir| - 1];
    }
  }

  lemma NormalLocal(absolute: bool, names: Path)
    requires Clean(names) && names != []
    ensures Normpath(LocalPath(absolute, names)) == LocalPath(absolute, names)
  {
    assert IsName(names[0]);
    if absolute {
      var p := [""] + names;
      assert p[1..] == names && LeadingSlashes(p) == 1;
      assert Reduce([], p, true) == Reduce([], names, true);
      ReduceClean([], names, true);
      assert [] + names == names;
      assert seq(1, i => "") + names == p;
    } else {
      CleanNormal(names);
    }
  }

  lemma ResolveLocal(absolute: bool, dir: Path, file: string, rel: Path)
    requires Clean(dir) && IsName(file) && Clean(rel) && rel != []
    ensures ResolveHref(LocalPath(absolute, dir + [file]), rel) == LocalPath(absolute, dir + rel)
  {
    DirnameLocal(absolute, dir, file);
    assert IsName(rel[0]);
    if dir == [] {
      assert dir + rel == rel && ["", ""][..1] == [""];
    } else {
      JoinLocal(absolute, dir, rel);
    }
    NormalLocal(absolute, dir + rel);
  }

  lemma JoinLocal(absolute: bool, dir: Path, rel: Path)
    requires Clean(dir) && dir != [] && Clean(rel) && rel != []
    ensures Join(LocalPath(absolute, dir), rel) == LocalPath(absolute, dir + rel)
  {
    assert IsName(rel[0]) && IsName(dir[|dir| - 1]) && IsName(dir[0]);
    Assoc([""], dir, rel);
  }

  /** Reading an item link back gives the item path again exactly when the collection lies in a
      non-empty, non-root directory or the path is a bare file name; else it gives the file name. */
  lemma ItemPathReadsBackIff(absolute: bool, dir: Path, file: string, rel: Path)
    requires Clean(dir) && IsName(file) && Clean(rel) && rel != []
    ensures var back := HrefRelativePath(LocalPath(absolute, dir + [file]), rel);
            && (back == rel <==> dir != [] || |rel| == 1)
            && (back != rel ==> back == [rel[|rel| - 1]])
  {
    ResolveLocal(absolute, dir, file, rel);
    DirnameLocal(absolute, dir, file);
    NormalLocal(absolute, dir + rel);
    LocalParts(absolute, dir, rel);
    assert |rel| == 1 ==> [rel[|rel| - 1]] == rel;
  }

  lemma LocalParts(absolute: bool, dir: Path, rel: Path)
    requires Clean(dir) && Clean(rel) && rel != []
    ensures var path := LocalPath(absolute, dir + rel);
            && path[|path| - 1] == rel[|rel| - 1]
            && (dir == [] ==> !(["", ""] <= path))
            && (dir != [] ==> LocalPath(absolute, dir) <= path && path[|LocalPath(absolute, dir)|..] == rel)
  {
    var path := LocalPath(absolute, dir + rel);
    assert IsName(rel[0]) && IsName(rel[|rel| - 1]);
    assert dir == [] ==> path[if absolute then 1 else 0] == rel[0];
  }

  // ---------- Export, import, export ----------

  /** The hrefs of a document's item links. */
  function ItemHrefs(links: seq<Link>): seq<Path> {
    if links == [] then []
    else if links[0].rel == Item then [links[0].href] + ItemHrefs(links[1..])
    else ItemHrefs(links[1..])
  }

  lemma {:induction false} ItemHrefsAppend(a: seq<Link>, b: seq<Link>)
    ensures ItemHrefs(a + b) == ItemHrefs(a) + ItemHrefs(b)
  {
    if a == [] {
      assert a + b == b;
    } else {
      ItemHrefsAppend(a[1..], b);
      assert (a + b)[1..] == a[1..] + b;
    }
  }

  lemma {:induction false} NoItemHrefs(links: seq<Link>)
    requires forall l <- links :: l.rel != Item
    ensures ItemHrefs(links) == []
  {
    if links != [] {
      NoItemHrefs(links[1..]);
    }
  }

  lemma {:induction false} AllItemHrefs(hrefs: seq<Path>)
    ensures ItemHrefs(LinksTo(Item, hrefs)) == hrefs
  {
    if hrefs != [] {
      AllItemHrefs(hrefs[1..]);
      assert LinksTo(Item, hrefs)[1..] == LinksTo(Item, hrefs[1..]);
    }
  }

  /** The exported collection file lists exactly the safe item paths. */
  lemma ExportedItemHrefs(l: LaidOut)
    ensures ItemHrefs(CollectionPayload(l).doc.links) == FirstPaths(l.items)
  {
    var up := Relpath(CatalogPath(), [l.folder]);
    var kept := KeptLinks(l.collection.links, CollectionDrops);
    var ups, items := [Plain(Root, up), Plain(Parent, up)], LinksTo(Item, FirstPaths(l.items));
    forall x | x in kept ensures x.rel != Item {
      assert !CollectionDrops(x.rel);
    }
    NoItemHrefs(kept);
    NoItemHrefs(ups);
    AllItemHrefs(FirstPaths(l.items));
    ItemHrefsAppend(ups, items);
    ItemHrefsAppend(kept, ups + items);
  }

  function ReadBack(collection: Path, hrefs: seq<Path>): (rels: seq<Path>)
    ensures |rels| == |hrefs| && forall i :: 0 <= i < |hrefs| ==> rels[i] == HrefRelativePath(collection, hrefs[i])
  {
    if hrefs == [] then [] else [HrefRelativePath(collection, hrefs[0])] + ReadBack(collection, hrefs[1..])
  }

  lemma SafeItemPathIdempotent(rel: Path)
    ensures SafeItemPath(SafeItemPath(rel)) == SafeItemPath(rel)
  {
    FallbacksAreSafe();
    forall i | 0 <= i < |rel| ensures SafeItemPath(SafeItemPath(rel))[i] == SafeItemPath(rel)[i] {
      ExportNameIsIdempotent(rel[i], "item", "item");
    }
  }

  /** Importing an exported collection gives back its item paths, and exporting those again keeps
      every path: the tree that was written to a local directory is a fixed point. */
  lemma SecondExportKeepsPaths(absolute: bool, target: Path, scopes: seq<Scope>, i: nat)
    requires Clean(target) && ItemsHavePaths(scopes) && i < |scopes|
    ensures var l := Layout(scopes[i]);
            var back := ReadBack(LocalPath(absolute, target + CollectionPath(l)),
                                 ItemHrefs(CollectionPayload(l).doc.links));
            && back == FirstPaths(l.items)
            && forall k :: 0 <= k < |back| ==> SafeItemPath(back[k]) == back[k]
    ensures Folder(IdOf(scopes[i].collection)) == Folder(CollectionPayload(Layout(scopes[i])).doc.id)
  {
    var l := Layout(scopes[i]);
    LayoutIsSafe(scopes, i);
    ExportedItemHrefs(l);
    FileNamesAreNames();
    var dir := target + [l.folder];
    assert target + CollectionPath(l) == dir + [COLLECTION_FILENAME];
    forall k | 0 <= k < |l.items|
      ensures HrefRelativePath(LocalPath(absolute, dir + [COLLECTION_FILENAME]), l.items[k].0) == l.items[k].0
      ensures SafeItemPath(l.items[k].0) == l.items[k].0
    {
      ItemPathReadsBackIff(absolute, dir, COLLECTION_FILENAME, l.items[k].0);
      SafeItemPathIdempotent(scopes[i].items[k].0);
    }
  }

  // ---------- Combining the collections of several sources ----------

  /** A scope is the first with its id among the scopes up to `i`. */
  ghost predicate FirstWithId(scopes: seq<Scope>, i: nat)
    requires i < |scopes|
  {
    forall j :: 0 <= j < i ==> scopes[j].collection.id != scopes[i].collection.id
  }

  function Contains(scopes: seq<Scope>, id: Option<string>): bool {
    exists i :: 0 <= i < |scopes| && scopes[i].collection.id == id
  }

  /** The first scope of each id, in order. */
  function Firsts(scopes: seq<Scope>): seq<Scope> {
    if scopes == [] then []
    else
      var init, last := Firsts(scopes[..|scopes| - 1]), scopes[|scopes| - 1];
      if Contains(scopes[..|scopes| - 1], last.collection.id) then init else init + [last]
  }

  /** Two scopes share an id but not the collection. */
  ghost predicate Ambiguous(scopes: seq<Scope>) {
    exists i, j :: 0 <= i < j < |scopes| &&
        scopes[i].collection.id == scopes[j].collection.id &&
        scopes[i].collection != scopes[j].collection
  }

  /** Every collection has an id, and no id stands for two collections. */
  ghost predicate Combinable(scopes: seq<Scope>) {
    AllNamed(scopes) && !Ambiguous(scopes)
  }

  datatype CombineError = NoId | TwoContents(id: string)

  /** The scope at n is the first that cannot be combined with those before it, for this reason. */
  ghost predicate FirstToFail(scopes: seq<Scope>, n: nat, why: CombineError) {
    n < |scopes| && Combinable(scopes[..n])
    && match scopes[n].collection.id
       case None => why == NoId
       case Some(id) => why == TwoContents(id) && Ambiguous(scopes[..n + 1])
  }

  ghost predicate Fails(scopes: seq<Scope>, why: CombineError) {
    exists n: nat :: FirstToFail(scopes, n, why)
  }

  lemma {:induction false} FirstsContain(scopes: seq<Scope>, id: Option<string>)
    ensures Contains(Firsts(scopes), id) <==> Contains(scopes, id)
  {
    if scopes != [] {
      var init, last := scopes[..|scopes| - 1], scopes[|scopes| - 1];
      FirstsContain(init, id);
      ContainsSnoc(init, last, id);
      ContainsSnoc(Firsts(init), last, id);
      assert scopes == init + [last];
    }
  }

  lemma {:induction false} FirstsAreUnique(scopes: seq<Scope>)
    requires AllNamed(scopes)
    ensures Distinct(CollectionIds(Firsts(scopes))) && AllNamed(Firsts(scopes))
  {
    if scopes != [] {
      var n := |scopes| - 1;
      var init, last := scopes[..n], scopes[n];
      FirstsAreUnique(init);
      FirstsContain(init, last.collection.id);
      if !Contains(init, last.collection.id) {
        NewIdIsDistinct(Firsts(init), last);
      }
    }
  }

  lemma NewIdIsDistinct(scopes: seq<Scope>, last: Scope)
    requires AllNamed(scopes) && last.collection.id.Some? && !Contains(scopes, last.collection.id)
    requires Distinct(CollectionIds(scopes))
    ensures Distinct(CollectionIds(scopes + [last]))
  {
    var ids, id := CollectionIds(scopes), IdOf(last.collection);
    assert CollectionIds(scopes + [last]) == ids + [id];
    forall i | 0 <= i < |ids| ensures ids[i] != id {
      assert scopes[i].collection.id != last.collection.id;
    }
    DistinctSnoc(ids, id);
  }

  /** The result holds exactly the scopes that no earlier scope precedes with the same id. */
  lemma {:induction false} FirstsAreFirst(scopes: seq<Scope>, s: Scope)
    ensures s in Firsts(scopes) <==> exists i :: 0 <= i < |scopes| && scopes[i] == s && FirstWithId(scopes, i)
  {
    if scopes != [] {
      var n := |scopes| - 1;
      var init, last := scopes[..n], scopes[n];
      FirstsAreFirst(init, s);
      assert !Contains(init, last.collection.id) <==> FirstWithId(scopes, n);
      if i :| 0 <= i < n && init[i] == s && FirstWithId(init, i) {
        assert scopes[i] == s && FirstWithId(scopes, i);
      }
      if i :| 0 <= i < n && scopes[i] == s && FirstWithId(scopes, i) {
        assert init[i] == s && FirstWithId(init, i);
      }
    }
  }

  lemma ContainsSnoc(scopes: seq<Scope>, last: Scope, id: Option<string>)
    ensures Contains(scopes + [last], id) <==> Contains(scopes, id) || last.collection.id == id
  {
    if i :| 0 <= i < |scopes| && scopes[i].collection.id == id {
      assert (scopes + [last])[i].collection.id == id;
    }
    assert (scopes + [last])[|scopes|] == last;
  }

  /** Flattens the sources: the collections that were passed directly, then those of each catalog. */
  function FlattenSources(direct: seq<Scope>, catalogs: seq<seq<Scope>>): seq<Scope> {
    direct + Flatten(catalogs)
  }

  /** The scopes passed directly come first, then those of each catalog, in order and without gaps; `at`
      gives where each catalog begins. */
  lemma {:induction false} SourcesInOrder(direct: seq<Scope>, catalogs: seq<seq<Scope>>) returns (at: seq<nat>)
    ensures var all := FlattenSources(direct, catalogs);
            && |at| == |catalogs| + 1 && at[0] == |direct| <= |all| && at[|catalogs|] == |all|
                && all[..|direct|] == direct
            && forall i :: 0 <= i < |catalogs| ==>
                 at[i + 1] == at[i] + |catalogs[i]| <= |all| && all[at[i]..at[i + 1]] == catalogs[i]
    decreases |catalogs|
  {
    var all := FlattenSources(direct, catalogs);
    if catalogs == [] {
      at := [|direct|];
    } else {
      var rest := SourcesInOrder(direct + catalogs[0], catalogs[1..]);
      Assoc(direct, catalogs[0], Flatten(catalogs[1..]));
      at := [|direct|] + rest;
      forall i | 0 <= i < |catalogs|
        ensures at[i + 1] == at[i] + |catalogs[i]| <= |all| && all[at[i]..at[i + 1]] == catalogs[i]
      {
        if i > 0 {
          assert at[i] == rest[i - 1] && at[i + 1] == rest[i] && catalogs[i] == catalogs[1..][i - 1];
        } else {
          assert all[|direct|..|direct| + |catalogs[0]|] == catalogs[0];
        }
      }
      assert (direct + catalogs[0])[..|direct|] == direct;
      assert all[..|direct + catalogs[0]|][..|direct|] == all[..|direct|];
    }
  }

  /** `at` lists the places of the scopes that no earlier one precedes with the same id. */
  ghost predicate FirstScopes(scopes: seq<Scope>, at: seq<nat>, firsts: seq<Scope>) {
    && |at| == |firsts|
    && (forall j, k :: 0 <= j < k < |at| ==> at[j] < at[k])
    && (forall k :: 0 <= k < |at| ==> at[k] < |scopes| && firsts[k] == scopes[at[k]])
    && (forall i: nat :: i in at <==> OpensId(scopes, i))
  }

  ghost predicate OpensId(scopes: seq<Scope>, i: nat) {
    i < |scopes| && FirstWithId(scopes, i)
  }

  lemma OpensEarlier(init: seq<Scope>, last: Scope, i: nat)
    requires i < |init|
    ensures OpensId(init, i) <==> OpensId(init + [last], i)
  {
    assert forall j :: 0 <= j <= i ==> (init + [last])[j] == init[j];
  }

  lemma LastOpens(init: seq<Scope>, last: Scope)
    ensures OpensId(init + [last], |init|) <==> !Contains(init, last.collection.id)
  {
    assert forall j :: 0 <= j < |init| ==> (init + [last])[j] == init[j];
  }

  lemma FirstScopesNext(init: seq<Scope>, last: Scope, more: seq<Scope>, at: seq<nat>, firsts: seq<Scope>)
    requires more == init + [last] && FirstScopes(init, at, firsts)
    requires forall i: nat :: i < |init| ==> (OpensId(init, i) <==> OpensId(more, i))
    ensures if OpensId(more, |init|) then FirstScopes(more, at + [|init|], firsts + [last])
            else FirstScopes(more, at, firsts)
  {
    var n := |init|;
    forall i: nat ensures i in at <==> i < n && OpensId(more, i) {
    }
    forall k | 0 <= k < |at| ensures at[k] < n && more[at[k]] == firsts[k] {
    }
  }

  /** The combined scopes are, in order, those that no earlier scope precedes with the same id. */
  lemma {:induction false} FirstsInOrder(scopes: seq<Scope>) returns (at: seq<nat>)
    ensures FirstScopes(scopes, at, Firsts(scopes))
  {
    if scopes == [] {
      at := [];
    } else {
      var init, last := scopes[..|scopes| - 1], scopes[|scopes| - 1];
      assert scopes == init + [last];
      at := FirstsInOrder(init);
      FirstsSnoc(init, last);
      LastOpens(init, last);
      forall i: nat | i < |init| ensures OpensId(init, i) <==> OpensId(scopes, i) {
        OpensEarlier(init, last, i);
      }
      FirstScopesNext(init, last, scopes, at, Firsts(init));
      at := if Contains(init, last.collection.id) then at else at + [|init|];
    }
  }

  /** Combines the sources by id; fails at the first collection without an id or with the id of a
      different one. `merged` lists the ids that a warning names, once for each repetition. */
  method CombineSources(direct: seq<Scope>, catalogs: seq<seq<Scope>>)
    returns (r: Result<seq<Scope>, CombineError>, merged: seq<string>)
    ensures var all := FlattenSources(direct, catalogs);
            && (r.Success? <==> Combinable(all))
            && (r.Failure? ==> Fails(all, r.error))
            && (r.Success? ==> r.value == Firsts(all) && |r.value| + |merged| == |all|)
            && (r.Success? ==> AllNamed(r.value))
            && (r.Success? ==> Distinct(CollectionIds(r.value)) && UniqueIds(CollectionIds(r.value)))
  {
    r, merged := CombineFlattened(FlattenSources(direct, catalogs));
    if r.Success? {
      FirstsAreUnique(FlattenSources(direct, catalogs));
    }
  }

  method CombineFlattened(flattened: seq<Scope>) returns (r: Result<seq<Scope>, CombineError>, merged: seq<string>)
    ensures r.Success? <==> Combinable(flattened)
    ensures r.Failure? ==> Fails(flattened, r.error)
    ensures r.Success? ==> r.value == Firsts(flattened) && |r.value| + |merged| == |flattened|
  {
    var byId: map<string, Doc> := map[];
    var combined: seq<Scope> := [];
    merged := [];
    for i := 0 to |flattened|
      invariant combined == Firsts(flattened[..i]) && |combined| + |merged| == i
      invariant Agreed(flattened[..i], byId)
    {
      var scope := flattened[i];
      if scope.collection.id.None? {
        FailsFirst(flattened, i, NoId);
        return Failure(NoId), merged;
      }
      var id := scope.collection.id.value;
      OneMore(flattened, i);
      FirstsSnoc(flattened[..i], scope);
      AgreedStep(flattened[..i], byId, scope);
      if id !in byId {
        byId := byId[id := scope.collection];
        combined := combined + [scope];
      } else if byId[id] != scope.collection {
        FailsFirst(flattened, i, TwoContents(id));
        return Failure(TwoContents(id)), merged;
      } else {
        merged := merged + [id];
      }
    }
    NoneAndAll(flattened);
    r := Success(combined);
  }

  lemma FirstsSnoc(scopes: seq<Scope>, s: Scope)
    ensures Firsts(scopes + [s]) == if Contains(scopes, s.collection.id) then Firsts(scopes) else Firsts(scopes) + [s]
  {
    assert (scopes + [s])[..|scopes|] == scopes;
  }

  /** The table holds the collection of each id seen, and the scopes can be combined. */
  ghost predicate Agreed(scopes: seq<Scope>, byId: map<string, Doc>) {
    && Combinable(scopes)
    && (forall id <- byId :: Contains(scopes, Some(id)))
    && forall k :: 0 <= k < |scopes| ==>
         var c := scopes[k].collection; c.id.Some? && c.id.value in byId && byId[c.id.value] == c
  }

  lemma AgreedStep(scopes: seq<Scope>, byId: map<string, Doc>, s: Scope)
    requires Agreed(scopes, byId) && s.collection.id.Some?
    ensures var id := s.collection.id.value;
            && (id in byId <==> Contains(scopes, Some(id)))
            && (id !in byId ==> Agreed(scopes + [s], byId[id := s.collection]))
            && (id in byId && byId[id] == s.collection ==> Agreed(scopes + [s], byId))
            && (id in byId && byId[id] != s.collection ==> Ambiguous(scopes + [s]))
  {
    var id, more := s.collection.id.value, scopes + [s];
    forall x | Contains(scopes, x) ensures Contains(more, x) {
      ContainsSnoc(scopes, s, x);
    }
    ContainsSnoc(scopes, s, Some(id));
    if id in byId && byId[id] != s.collection {
      var k :| 0 <= k < |scopes| && scopes[k].collection.id == Some(id);
      assert more[k] == scopes[k] && more[|scopes|] == s;
    }
  }

  lemma FailingPrefix(scopes: seq<Scope>, n: nat)
    requires n <= |scopes| && !Combinable(scopes[..n])
    ensures !Combinable(scopes)
  {
    if AllNamed(scopes) {
      var i, j :| 0 <= i < j < n &&
          scopes[..n][i].collection.id == scopes[..n][j].collection.id &&
          scopes[..n][i].collection != scopes[..n][j].collection;
      assert scopes[i].collection != scopes[j].collection;
    }
  }

  lemma FailsFirst(scopes: seq<Scope>, n: nat, why: CombineError)
    requires FirstToFail(scopes, n, why)
    ensures !Combinable(scopes) && Fails(scopes, why)
  {
    if scopes[n].collection.id.Some? {
      FailingPrefix(scopes, n + 1);
    }
  }

  /** A single collection without an id makes combining fail, whatever the other sources hold. */
  lemma NamelessCollectionFails(before: seq<Scope>, after: seq<Scope>, links: seq<Option<Link>>, body: string,
                                items: seq<(Path, Doc)>)
    ensures !Combinable(before + [Scope(Doc(None, links, body), items)] + after)
  {
    var all := before + [Scope(Doc(None, links, body), items)] + after;
    assert all[|before|].collection.id.None?;
  }
}
