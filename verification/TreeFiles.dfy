/** Writing files one after the other, where a later file replaces an earlier one at its path, and
    when a catalog tree keeps every file that way. */
module TreeFiles {
  import opened Sequences
  import opened Names
  import opened Paths
  import opened CatalogExport

  function PathsOf(payloads: seq<Payload>): (paths: seq<Path>)
    ensures |paths| == |payloads| && forall i :: 0 <= i < |payloads| ==> paths[i] == payloads[i].path
  {
    seq(|payloads|, i requires 0 <= i < |payloads| => payloads[i].path)
  }

  /** The folder after writing the files one after the other; a later file replaces an earlier one. */
  function Folded(payloads: seq<Payload>): map<Path, OutDoc> {
    if payloads == [] then map[]
    else Folded(payloads[..|payloads| - 1])[payloads[|payloads| - 1].path := payloads[|payloads| - 1].doc]
  }

  lemma {:induction false} LastWriteStays(payloads: seq<Payload>, i: nat)
    requires i < |payloads| && forall j :: i < j < |payloads| ==> payloads[j].path != payloads[i].path
    ensures payloads[i].path in Folded(payloads) && Folded(payloads)[payloads[i].path] == payloads[i].doc
    decreases |payloads|
  {
    var before := payloads[..|payloads| - 1];
    if i < |payloads| - 1 {
      assert before[i] == payloads[i] && forall j :: i < j < |before| ==> before[j] == payloads[j];
      LastWriteStays(before, i);
    }
  }

  lemma {:induction false} LaterWriteReplaces(payloads: seq<Payload>, path: Path, kind: Kind)
    requires exists i :: 0 < i < |payloads| && payloads[i].path == path
    requires forall i :: 0 < i < |payloads| ==> payloads[i].doc.kind == kind
    ensures path in Folded(payloads) && Folded(payloads)[path].kind == kind
    decreases |payloads|
  {
    var last := |payloads| - 1;
    if payloads[last].path != path {
      var before := payloads[..last];
      var i :| 0 < i < |payloads| && payloads[i].path == path;
      assert before[i] == payloads[i];
      assert forall j :: 0 < j < |before| ==> before[j] == payloads[j];
      LaterWriteReplaces(before, path, kind);
    }
  }

  lemma PathsSnoc(payloads: seq<Payload>, last: Payload)
    ensures PathsOf(payloads + [last]) == PathsOf(payloads) + [last.path]
  {
  }

  /** The folder has a file for each path, so as many as were written exactly when the paths differ. */
  lemma {:induction false} EveryFileIsKeptIff(payloads: seq<Payload>)
    ensures |Folded(payloads)| == |payloads| <==> Distinct(PathsOf(payloads))
    ensures |Folded(payloads)| <= |payloads|
    ensures forall path :: path in Folded(payloads) <==> path in PathsOf(payloads)
    decreases |payloads|
  {
    if payloads != [] {
      var n := |payloads| - 1;
      var init, last := payloads[..n], payloads[n];
      EveryFileIsKeptIff(init);
      assert payloads == init + [last];
      PathsSnoc(init, last);
      DistinctSnoc(PathsOf(init), last.path);
      assert |Folded(payloads)| == if last.path in Folded(init) then |Folded(init)| else |Folded(init)| + 1;
    }
  }

  // ---------- The files of a catalog tree ----------

  /** The paths of the files of one collection, from its folder: its own and those of its items. */
  function InnerPaths(l: LaidOut): seq<Path> {
    [[COLLECTION_FILENAME]] + FirstPaths(l.items)
  }

  function Below(folder: string, rels: seq<Path>): (paths: seq<Path>)
    ensures |paths| == |rels| && forall i :: 0 <= i < |rels| ==> paths[i] == [folder] + rels[i]
  {
    seq(|rels|, i requires 0 <= i < |rels| => [folder] + rels[i])
  }

  lemma BelowDiffer(folder: string, rels: seq<Path>)
    ensures Distinct(Below(folder, rels)) <==> Distinct(rels)
  {
    forall i, j | 0 <= i < j < |rels| ensures Below(folder, rels)[i] == Below(folder, rels)[j] <==> rels[i] == rels[j] {
      assert Below(folder, rels)[i][1..] == rels[i] && Below(folder, rels)[j][1..] == rels[j];
    }
    if Distinct(rels) {
      forall i, j | 0 <= i < j < |rels| ensures Below(folder, rels)[i] != Below(folder, rels)[j] {
        assert rels[i] != rels[j];
      }
    }
    if Distinct(Below(folder, rels)) {
      forall i, j | 0 <= i < j < |rels| ensures rels[i] != rels[j] {
        assert Below(folder, rels)[i] != Below(folder, rels)[j];
      }
    }
  }

  lemma ScopePaths(l: LaidOut)
    ensures PathsOf(ScopePayloads(l)) == Below(l.folder, InnerPaths(l))
  {
    var a, b := PathsOf(ScopePayloads(l)), Below(l.folder, InnerPaths(l));
    forall i | 0 <= i < |a| ensures a[i] == b[i] {
      if i > 0 {
        assert ScopePayloads(l)[i] == ItemPayload(l, i - 1);
      }
    }
  }

  function LaidFolders(laid: seq<LaidOut>): (fs: seq<string>)
    ensures |fs| == |laid| && forall i :: 0 <= i < |laid| ==> fs[i] == laid[i].folder
  {
    if laid == [] then [] else [laid[0].folder] + LaidFolders(laid[1..])
  }

  /** No two items of the collection share a path, and none has the path of the collection's file. */
  ghost predicate OwnPaths(l: LaidOut) {
    Distinct(FirstPaths(l.items)) && [COLLECTION_FILENAME] !in FirstPaths(l.items)
  }

  ghost predicate AllOwnPaths(laid: seq<LaidOut>) {
    forall i :: 0 <= i < |laid| ==> OwnPaths(laid[i])
  }

  lemma AllOwnPathsHead(l: LaidOut, rest: seq<LaidOut>)
    ensures AllOwnPaths([l] + rest) <==> OwnPaths(l) && AllOwnPaths(rest)
  {
    var laid := [l] + rest;
    assert laid[0] == l && forall i :: 0 <= i < |rest| ==> rest[i] == laid[i + 1];
  }

  lemma InnerPathsDiffer(l: LaidOut)
    ensures Distinct(InnerPaths(l)) <==> OwnPaths(l)
  {
    DistinctParts([[COLLECTION_FILENAME]], FirstPaths(l.items));
  }

  lemma PathsAppend(a: seq<Payload>, b: seq<Payload>)
    ensures PathsOf(a + b) == PathsOf(a) + PathsOf(b)
  {
  }

  /** The files of some collections lie in their folders, where each collection has its file. */
  ghost predicate LieIn(paths: seq<Path>, folders: seq<string>) {
    && (forall p <- paths :: p != [] && p[0] in folders)
    && (forall folder <- folders :: [folder, COLLECTION_FILENAME] in paths)
  }

  lemma LieInAppend(a: seq<Path>, x: seq<string>, b: seq<Path>, y: seq<string>)
    requires LieIn(a, x) && LieIn(b, y)
    ensures LieIn(a + b, x + y)
  {
  }

  lemma ScopeLiesIn(l: LaidOut)
    ensures LieIn(PathsOf(ScopePayloads(l)), [l.folder])
  {
    ScopePaths(l);
    assert Below(l.folder, InnerPaths(l))[0] == [l.folder, COLLECTION_FILENAME];
  }

  lemma {:induction false} ScopesLieIn(laid: seq<LaidOut>)
    ensures LieIn(PathsOf(AllScopePayloads(laid)), LaidFolders(laid))
  {
    if laid != [] {
      ScopesLieIn(laid[1..]);
      ScopeLiesIn(laid[0]);
      PathsAppend(ScopePayloads(laid[0]), AllScopePayloads(laid[1..]));
      LieInAppend(PathsOf(ScopePayloads(laid[0])), [laid[0].folder], PathsOf(AllScopePayloads(laid[1..])),
                  LaidFolders(laid[1..]));
    }
  }

  /** Files of other folders share no path, files of the same folder share that of the collection. */
  lemma ApartIff(mine: seq<Path>, folder: string, others: seq<Path>, folders: seq<string>)
    requires LieIn(mine, [folder]) && LieIn(others, folders)
    ensures Distinct(mine + others) <==> Distinct(mine) && Distinct(others) && folder !in folders
  {
    DistinctParts(mine, others);
    assert folder in [folder];
    assert [folder, COLLECTION_FILENAME] in mine;
  }

  lemma ScopeFilesDiffer(l: LaidOut)
    ensures Distinct(PathsOf(ScopePayloads(l))) <==> OwnPaths(l)
  {
    ScopePaths(l);
    BelowDiffer(l.folder, InnerPaths(l));
    InnerPathsDiffer(l);
  }

  lemma {:induction false} ScopeFilesDifferIff(laid: seq<LaidOut>)
    ensures Distinct(PathsOf(AllScopePayloads(laid))) <==> Distinct(LaidFolders(laid)) && AllOwnPaths(laid)
  {
    if laid != [] {
      var l, rest := laid[0], laid[1..];
      var mine, others := PathsOf(ScopePayloads(l)), PathsOf(AllScopePayloads(rest));
      ScopeFilesDifferIff(rest);
      PathsAppend(ScopePayloads(l), AllScopePayloads(rest));
      assert PathsOf(AllScopePayloads(laid)) == mine + others;
      ScopeFilesDiffer(l);
      ScopeLiesIn(l);
      ScopesLieIn(rest);
      ApartIff(mine, l.folder, others, LaidFolders(rest));
      DistinctParts([l.folder], LaidFolders(rest));
      AllOwnPathsHead(l, rest);
      assert laid == [l] + rest && LaidFolders(laid) == [l.folder] + LaidFolders(rest);
    }
  }

  lemma {:induction false} CatalogStandsApart(laid: seq<LaidOut>)
    requires forall i, k :: 0 <= i < |laid| && 0 <= k < |laid[i].items| ==> laid[i].items[k].0 != []
    ensures CatalogPath() !in PathsOf(AllScopePayloads(laid))
  {
    if laid != [] {
      CatalogStandsApart(laid[1..]);
      ScopePaths(laid[0]);
      PathsAppend(ScopePayloads(laid[0]), AllScopePayloads(laid[1..]));
      var rels := InnerPaths(laid[0]);
      forall i | 0 <= i < |rels| ensures Below(laid[0].folder, rels)[i] != CatalogPath() {
        assert i > 0 ==> rels[i] == laid[0].items[i - 1].0;
        assert |Below(laid[0].folder, rels)[i]| >= 2;
      }
    }
  }

  /** Writing a catalog tree keeps every file if and only if the collections are written to different
      folders, and in each the safe item paths differ and none is that of the collection's file. */
  lemma CatalogTreeKeepsFilesIff(catalog: Doc, scopes: seq<Scope>)
    requires ItemsHavePaths(scopes)
    ensures var tree := TreePayloads(catalog, LayoutAll(scopes));
            |Folded(tree)| == |tree|
            <==> Distinct(WrittenFolders(CollectionIds(scopes))) && AllOwnPaths(LayoutAll(scopes))
  {
    var laid := LayoutAll(scopes);
    EveryFileIsKeptIff(TreePayloads(catalog, laid));
    TreePathsDifferIff(catalog, laid);
    assert LaidFolders(laid) == WrittenFolders(CollectionIds(scopes));
  }

  lemma TreePathsDifferIff(catalog: Doc, laid: seq<LaidOut>)
    requires forall i, k :: 0 <= i < |laid| && 0 <= k < |laid[i].items| ==> laid[i].items[k].0 != []
    ensures Distinct(PathsOf(TreePayloads(catalog, laid))) <==> Distinct(LaidFolders(laid)) && AllOwnPaths(laid)
  {
    var first, paths := [CatalogPayload(catalog, laid)], PathsOf(AllScopePayloads(laid));
    ScopeFilesDifferIff(laid);
    CatalogStandsApart(laid);
    PathsAppend(first, AllScopePayloads(laid));
    assert PathsOf(first) == [CatalogPath()];
    DistinctParts([CatalogPath()], paths);
  }

  lemma CollectionFilenameIsSafe()
    ensures SafeExportName(COLLECTION_FILENAME, "item") == COLLECTION_FILENAME
  {
    assert Strip(COLLECTION_FILENAME) == COLLECTION_FILENAME;
    assert IsSafeName(COLLECTION_FILENAME);
  }

  /** An item read from `collection.json`, below a collection that was read from another file of the
      same directory, is written over the collection. */
  lemma ItemOverCollection(catalog: Doc, collection: Doc, item: Doc)
    ensures var scopes := [Scope(collection, [([COLLECTION_FILENAME], item)])];
            var tree := TreePayloads(catalog, LayoutAll(scopes));
            |tree| == 3 && |Folded(tree)| < 3 && tree[1].path == tree[2].path
  {
    var scopes := [Scope(collection, [([COLLECTION_FILENAME], item)])];
    var l := Layout(scopes[0]);
    CollectionFilenameIsSafe();
    assert LayoutAll(scopes) == [l] && [l][1..] == [];
    assert l.items[0].0 == [COLLECTION_FILENAME];
    assert AllScopePayloads([l]) == ScopePayloads(l) + [];
    var tree := TreePayloads(catalog, [l]);
    assert tree == [CatalogPayload(catalog, [l]), CollectionPayload(l), ItemPayload(l, 0)];
    assert PathsOf(tree)[1] == PathsOf(tree)[2];
    EveryFileIsKeptIff(tree);
  }
}
