/** Reading the collection trees below a folder: collections claim their directories, features
    belong to the collection directory around them. */
module PrefixReader {
  import opened Wrappers
  import opened Sequences
  import opened Sorting
  import opened Paths

  datatype FileKind = CollectionFile | FeatureFile | OtherFile

  /** A parsed file with the text of its id, None when the member is missing. */
  datatype File = File(kind: FileKind, id: Option<string>, body: string)

  /** A listed JSON file; None when it cannot be read. */
  type Entry = (Path, Option<File>)

  type Parsed = (Path, File)

  datatype CollectionDir = CollectionDir(dir: Path, collection: File)

  /** A collection, its directory, and its items with paths relative to the directory. */
  datatype PrefixScope = PrefixScope(dir: Path, collection: File, items: seq<Parsed>)

  datatype Warning =
    | Unreadable(path: Path)
    | InvalidItem(path: Path)
    | NoItems(dir: Path)
    | Outside(path: Path)

  datatype PrefixError =
    | AtTheTop(path: Path)
    | TwoCollections(dir: Path)
    | NoCollections
    | NestedCollections

  /** `rel` lies inside `dir`: its text starts with that of `dir` and a slash. */
  predicate Inside(rel: Path, dir: Path) {
    dir <= rel && |dir| < |rel|
  }

  // ---------- Collection directories ----------

  function FindDir(dirs: seq<CollectionDir>, dir: Path): Option<nat> {
    if dirs == [] then None
    else if dirs[0].dir == dir then Some(0)
    else match FindDir(dirs[1..], dir)
      case None => None
      case Some(i) => Some(i + 1)
  }

  lemma {:induction false} FindDirFinds(dirs: seq<CollectionDir>, dir: Path)
    ensures match FindDir(dirs, dir)
            case Some(i) => i < |dirs| && dirs[i].dir == dir
            case None => forall i :: 0 <= i < |dirs| ==> dirs[i].dir != dir
  {
    if dirs != [] {
      FindDirFinds(dirs[1..], dir);
    }
  }

  ghost predicate DistinctDirs(dirs: seq<CollectionDir>) {
    forall i, j :: 0 <= i < j < |dirs| ==> dirs[i].dir != dirs[j].dir
  }

  /** No collection directory lies inside another. */
  ghost predicate Antichain(dirs: seq<CollectionDir>) {
    forall i, j :: 0 <= i < |dirs| && 0 <= j < |dirs| ==> !Inside(dirs[i].dir, dirs[j].dir)
  }

  predicate IsCollectionIn(p: Parsed, dir: Path) {
    p.1.kind == CollectionFile && Dirname(p.0) == dir
  }

  /** The last collection file in the directory. */
  function LastIn(parsed: seq<Parsed>, dir: Path): Option<File> {
    if parsed == [] then None
    else
      var last := parsed[|parsed| - 1];
      if IsCollectionIn(last, dir) then Some(last.1) else LastIn(parsed[..|parsed| - 1], dir)
  }

  lemma {:induction false} LastInFound(parsed: seq<Parsed>, dir: Path) returns (p: Parsed)
    requires LastIn(parsed, dir).Some?
    ensures p in parsed && IsCollectionIn(p, dir) && p.1 == LastIn(parsed, dir).value
  {
    p := parsed[|parsed| - 1];
    if !IsCollectionIn(p, dir) {
      p := LastInFound(parsed[..|parsed| - 1], dir);
    }
  }

  lemma LastInSnoc(parsed: seq<Parsed>, p: Parsed, dir: Path)
    ensures LastIn(parsed + [p], dir) == if IsCollectionIn(p, dir) then Some(p.1) else LastIn(parsed, dir)
  {
    assert (parsed + [p])[..|parsed|] == parsed;
  }

  ghost predicate HasFile(d: CollectionDir, parsed: seq<Parsed>) {
    LastIn(parsed, d.dir) == Some(d.collection)
  }

  ghost predicate HasDir(dirs: seq<CollectionDir>, dir: Path, id: Option<string>) {
    exists d <- dirs :: d.dir == dir && d.collection.id == id
  }

  /** Each directory holds its last collection file, and every collection file has its directory there. */
  ghost predicate CoversCollections(dirs: seq<CollectionDir>, parsed: seq<Parsed>) {
    && (forall d <- dirs :: d.dir != [""] && HasFile(d, parsed))
    && (forall p <- parsed :: p.1.kind == CollectionFile ==> HasDir(dirs, Dirname(p.0), p.1.id))
  }

  /** Why the directories cannot be collected. */
  ghost predicate Justified(e: PrefixError, parsed: seq<Parsed>) {
    match e
    case AtTheTop(path) => exists p <- parsed :: IsCollectionIn(p, [""]) && p.0 == path
    case TwoCollections(dir) =>
      exists p, q :: p in parsed && q in parsed && IsCollectionIn(p, dir) && IsCollectionIn(q, dir) && p.1.id != q.1.id
    case _ => false
  }

  /** The directory of each collection file; a later file with the same id replaces an earlier one. */
  method CollectDirs(parsed: seq<Parsed>) returns (r: Result<seq<CollectionDir>, PrefixError>)
    ensures r.Success? ==> DistinctDirs(r.value) && CoversCollections(r.value, parsed)
    ensures r.Failure? ==> Justified(r.error, parsed)
  {
    var dirs: seq<CollectionDir> := [];
    for k := 0 to |parsed|
      invariant DistinctDirs(dirs) && CoversCollections(dirs, parsed[..k])
    {
      var p := parsed[k];
      assert parsed[..k + 1] == parsed[..k] + [p];
      if p.1.kind == CollectionFile {
        var dir := Dirname(p.0);
        if dir == [""] {
          return Failure(AtTheTop(p.0));
        }
        FindDirFinds(dirs, dir);
        var at := FindDir(dirs, dir);
        if at.Some? && dirs[at.value].collection.id != p.1.id {
          var q := LastInFound(parsed[..k], dir);
          assert q in parsed && p in parsed;
          return Failure(TwoCollections(dir));
        }
        CoverStep(dirs, parsed[..k], p, dir, at);
        dirs := PutDir(dirs, CollectionDir(dir, p.1), at);
      } else {
        FilesStay(dirs, parsed[..k], p);
      }
    }
    assert parsed[..|parsed|] == parsed;
    r := Success(dirs);
  }

  function PutDir(dirs: seq<CollectionDir>, d: CollectionDir, at: Option<nat>): seq<CollectionDir>
    requires at.Some? ==> at.value < |dirs|
  {
    if at.Some? then dirs[at.value := d] else dirs + [d]
  }

  lemma FilesStay(dirs: seq<CollectionDir>, parsed: seq<Parsed>, p: Parsed)
    requires forall d <- dirs :: HasFile(d, parsed)
    ensures forall d <- dirs :: !IsCollectionIn(p, d.dir) ==> HasFile(d, parsed + [p])
  {
    forall d | d in dirs && !IsCollectionIn(p, d.dir) ensures HasFile(d, parsed + [p]) {
      LastInSnoc(parsed, p, d.dir);
    }
  }

  lemma PutKeepsDirs(dirs: seq<CollectionDir>, d: CollectionDir, at: Option<nat>, dir: Path, id: Option<string>)
    requires at.Some?
            ==> at.value < |dirs| && dirs[at.value].dir == d.dir && dirs[at.value].collection.id == d.collection.id
    requires HasDir(dirs, dir, id) || (dir == d.dir && id == d.collection.id)
    ensures HasDir(PutDir(dirs, d, at), dir, id)
  {
    var put := PutDir(dirs, d, at);
    assert put[if at.Some? then at.value else |dirs|] == d;
    if HasDir(dirs, dir, id) {
      var i :| 0 <= i < |dirs| && dirs[i].dir == dir && dirs[i].collection.id == id;
      assert put[i].dir == dir && put[i].collection.id == id;
    }
  }

  lemma CoverStep(dirs: seq<CollectionDir>, parsed: seq<Parsed>, p: Parsed, dir: Path, at: Option<nat>)
    requires DistinctDirs(dirs) && CoversCollections(dirs, parsed)
    requires IsCollectionIn(p, dir) && dir != [""]
    requires match at
             case Some(i) => i < |dirs| && dirs[i].dir == dir && dirs[i].collection.id == p.1.id
             case None => forall i :: 0 <= i < |dirs| ==> dirs[i].dir != dir
    ensures DistinctDirs(PutDir(dirs, CollectionDir(dir, p.1), at))
    ensures CoversCollections(PutDir(dirs, CollectionDir(dir, p.1), at), parsed + [p])
  {
    var d := CollectionDir(dir, p.1);
    var put := PutDir(dirs, d, at);
    FilesStay(dirs, parsed, p);
    LastInSnoc(parsed, p, dir);
    forall x | x in put ensures x.dir != [""] && HasFile(x, parsed + [p]) {
      var i :| 0 <= i < |put| && put[i] == x;
      if x != d {
        assert i < |dirs| && dirs[i] == x && x.dir != dir;
      }
    }
    forall q | q in parsed + [p] && q.1.kind == CollectionFile ensures HasDir(put, Dirname(q.0), q.1.id) {
      PutKeepsDirs(dirs, d, at, Dirname(q.0), q.1.id);
    }
  }

  // ---------- The nesting check ----------

  predicate Shallower(a: CollectionDir, b: CollectionDir) {
    |a.dir| <= |b.dir|
  }

  predicate Deeper(a: CollectionDir, b: CollectionDir) {
    |a.dir| >= |b.dir|
  }

  /** Looks, for each directory, at the directories after it in order of depth. */
  method CheckNesting(dirs: seq<CollectionDir>) returns (ok: bool)
    ensures ok <==> Antichain(dirs)
  {
    var sorted := Sort(dirs, Shallower);
    SortSorts(dirs, Shallower);
    ok := true;
    for i := 0 to |sorted|
      invariant ok ==> forall a, b :: 0 <= a < i && a < b < |sorted| ==> !Inside(sorted[b].dir, sorted[a].dir)
      invariant !ok ==> !Antichain(sorted)
    {
      for j := i + 1 to |sorted|
        invariant ok ==> forall a, b :: 0 <= a < i && a < b < |sorted| ==> !Inside(sorted[b].dir, sorted[a].dir)
        invariant ok ==> forall b :: i < b < j ==> !Inside(sorted[b].dir, sorted[i].dir)
        invariant !ok ==> !Antichain(sorted)
      {
        if Inside(sorted[j].dir, sorted[i].dir) {
          ok := false;
        }
      }
    }
    if ok {
      forall i, j | 0 <= i < |sorted| && 0 <= j < |sorted| ensures !Inside(sorted[i].dir, sorted[j].dir) {
        if i < j {
          assert Shallower(sorted[i], sorted[j]);
        }
      }
    }
    AntichainBag(sorted, dirs);
  }

  lemma AntichainBag(a: seq<CollectionDir>, b: seq<CollectionDir>)
    requires multiset(a) == multiset(b)
    ensures Antichain(a) <==> Antichain(b)
  {
    forall x ensures x in a <==> x in b {
      assert x in multiset(a) <==> x in multiset(b);
    }
    AntichainByMembers(a);
    AntichainByMembers(b);
  }

  lemma AntichainByMembers(a: seq<CollectionDir>)
    ensures Antichain(a) <==> forall x, y :: x in a && y in a ==> !Inside(x.dir, y.dir)
  {
  }

  function DirSet(dirs: seq<CollectionDir>): set<Path> {
    if dirs == [] then {} else {dirs[0].dir} + DirSet(dirs[1..])
  }

  lemma {:induction false} DirSetMember(dirs: seq<CollectionDir>, dir: Path)
    ensures dir in DirSet(dirs) <==> exists d <- dirs :: d.dir == dir
  {
    if dirs != [] {
      DirSetMember(dirs[1..], dir);
      if d :| d in dirs && d.dir == dir {
        assert d == dirs[0] || d in dirs[1..];
      }
    }
  }

  lemma {:induction false} DirSetSize(dirs: seq<CollectionDir>)
    ensures |DirSet(dirs)| <= |dirs|
    ensures DistinctDirs(dirs) <==> |DirSet(dirs)| == |dirs|
  {
    if dirs != [] {
      DirSetSize(dirs[1..]);
      DirSetMember(dirs[1..], dirs[0].dir);
      if DistinctDirs(dirs[1..]) && dirs[0].dir !in DirSet(dirs[1..]) {
        forall i, j | 0 <= i < j < |dirs| ensures dirs[i].dir != dirs[j].dir {
          assert dirs[j] in dirs[1..];
        }
      }
    }
  }

  /** Nothing about the directories depends on their order. */
  lemma ReorderDirs(a: seq<CollectionDir>, b: seq<CollectionDir>, parsed: seq<Parsed>)
    requires multiset(a) == multiset(b)
    ensures DistinctDirs(a) ==> DistinctDirs(b)
    ensures Antichain(a) ==> Antichain(b)
    ensures CoversCollections(a, parsed) ==> CoversCollections(b, parsed)
    ensures |a| == |b|
  {
    assert |a| == |multiset(a)| == |multiset(b)| == |b|;
    forall x ensures x in a <==> x in b {
      assert x in multiset(a) <==> x in multiset(b);
    }
    forall dir ensures dir in DirSet(a) <==> dir in DirSet(b) {
      DirSetMember(a, dir);
      DirSetMember(b, dir);
    }
    assert DirSet(a) == DirSet(b);
    DirSetSize(a);
    DirSetSize(b);
    AntichainBag(a, b);
    if CoversCollections(a, parsed) {
      forall p | p in parsed && p.1.kind == CollectionFile ensures HasDir(b, Dirname(p.0), p.1.id) {
        var d :| d in a && d.dir == Dirname(p.0) && d.collection.id == p.1.id;
        assert d in b;
      }
    }
  }

  // ---------- Claiming the files ----------

  function Relative(rel: Path, dir: Path): Path
    requires Inside(rel, dir)
  {
    rel[|dir|..]
  }

  /** The valid features inside the directory, in listing order: what the collection should hold. */
  function ItemsInside(parsed: seq<Parsed>, dir: Path, valid: File -> bool): seq<Parsed> {
    if parsed == [] then []
    else
      var (rel, data) := parsed[0];
      if Inside(rel, dir) && data.kind == FeatureFile && valid(data) then
        [(Relative(rel, dir), data)] + ItemsInside(parsed[1..], dir, valid)
      else ItemsInside(parsed[1..], dir, valid)
  }

  function InvalidInside(parsed: seq<Parsed>, dir: Path, valid: File -> bool): seq<Warning> {
    if parsed == [] then []
    else
      var (rel, data) := parsed[0];
      if Inside(rel, dir) && data.kind == FeatureFile && !valid(data) then
        [InvalidItem(rel)] + InvalidInside(parsed[1..], dir, valid)
      else InvalidInside(parsed[1..], dir, valid)
  }

  function ScopeOf(d: CollectionDir, parsed: seq<Parsed>, valid: File -> bool): PrefixScope {
    PrefixScope(d.dir, d.collection, ItemsInside(parsed, d.dir, valid))
  }

  function WarningsOf(d: CollectionDir, parsed: seq<Parsed>, valid: File -> bool): seq<Warning> {
    InvalidInside(parsed, d.dir, valid) + if ItemsInside(parsed, d.dir, valid) == [] then [NoItems(d.dir)] else []
  }

  function ScopesOf(dirs: seq<CollectionDir>, parsed: seq<Parsed>, valid: File -> bool): (ss: seq<PrefixScope>)
    ensures |ss| == |dirs| && forall i :: 0 <= i < |dirs| ==> ss[i] == ScopeOf(dirs[i], parsed, valid)
  {
    if dirs == [] then [] else [ScopeOf(dirs[0], parsed, valid)] + ScopesOf(dirs[1..], parsed, valid)
  }

  ghost predicate DistinctPaths(parsed: seq<Parsed>) {
    forall i, j :: 0 <= i < j < |parsed| ==> parsed[i].0 != parsed[j].0
  }

  lemma PrefixesCompare(a: Path, b: Path, rel: Path)
    requires Inside(rel, a) && Inside(rel, b)
    ensures a == b || Inside(a, b) || Inside(b, a)
  {
    if |a| <= |b| {
      assert a == rel[..|a|] == b[..|a|];
    } else {
      assert b == rel[..|b|] == a[..|b|];
    }
  }

  /** A file lies inside at most one directory of an antichain. */
  lemma InsideOnlyOne(dirs: seq<CollectionDir>, i: nat, j: nat, rel: Path)
    requires Antichain(dirs) && DistinctDirs(dirs) && i < |dirs| && j < |dirs|
    requires Inside(rel, dirs[i].dir) && Inside(rel, dirs[j].dir)
    ensures i == j
  {
    PrefixesCompare(dirs[i].dir, dirs[j].dir, rel);
  }

  function PathsInside(parsed: seq<Parsed>, dir: Path): set<Path> {
    set p | p in parsed && Inside(p.0, dir) :: p.0
  }

  /** One directory claims the unclaimed files inside it. */
  method ClaimFiles(d: CollectionDir, parsed: seq<Parsed>, claimed0: set<Path>, valid: File -> bool)
    returns (items: seq<Parsed>, warnings: seq<Warning>, claimed: set<Path>)
    requires DistinctPaths(parsed)
    requires forall p <- parsed :: Inside(p.0, d.dir) ==> p.0 !in claimed0
    ensures items == ItemsInside(parsed, d.dir, valid)
    ensures warnings == WarningsOf(d, parsed, valid)
    ensures claimed == claimed0 + PathsInside(parsed, d.dir)
  {
    items, warnings, claimed := [], [], claimed0;
    for k := 0 to |parsed|
      invariant items + ItemsInside(parsed[k..], d.dir, valid) == ItemsInside(parsed, d.dir, valid)
      invariant warnings + InvalidInside(parsed[k..], d.dir, valid) == InvalidInside(parsed, d.dir, valid)
      invariant claimed == claimed0 + set i | 0 <= i < k && Inside(parsed[i].0, d.dir) :: parsed[i].0
    {
      var (rel, data) := parsed[k];
      assert parsed[k..][1..] == parsed[k + 1..];
      assert parsed[k] in parsed;
      if rel in claimed || !Inside(rel, d.dir) {
        continue;
      }
      claimed := claimed + {rel};
      if data.kind != FeatureFile {
        continue;
      }
      if !valid(data) {
        warnings := warnings + [InvalidItem(rel)];
        continue;
      }
      items := items + [(Relative(rel, d.dir), data)];
    }
    if items == [] {
      warnings := warnings + [NoItems(d.dir)];
    }
  }

  function ClaimWarnings(dirs: seq<CollectionDir>, parsed: seq<Parsed>, valid: File -> bool): seq<Warning> {
    if dirs == [] then [] else WarningsOf(dirs[0], parsed, valid) + ClaimWarnings(dirs[1..], parsed, valid)
  }

  predicate InsideAny(rel: Path, dirs: seq<CollectionDir>) {
    exists i :: 0 <= i < |dirs| && Inside(rel, dirs[i].dir)
  }

  /** Each directory has its features and warnings, and the files inside any directory are claimed. */
  ghost predicate AllClaimed(order: seq<CollectionDir>, parsed: seq<Parsed>, valid: File -> bool,
                             scopes: seq<PrefixScope>, warnings: seq<Warning>, claimed: set<Path>) {
    && scopes == ScopesOf(order, parsed, valid)
    && warnings == ClaimWarnings(order, parsed, valid)
    && ClaimedBy(parsed, claimed, order)
  }

  /** All directories claim their files, in the given order. */
  method ClaimAll(order: seq<CollectionDir>, parsed: seq<Parsed>, valid: File -> bool)
    returns (scopes: seq<PrefixScope>, warnings: seq<Warning>, claimed: set<Path>)
    requires DistinctPaths(parsed) && DistinctDirs(order) && Antichain(order)
    ensures AllClaimed(order, parsed, valid, scopes, warnings, claimed)
  {
    scopes, warnings, claimed := [], [], {};
    for k := 0 to |order|
      invariant scopes == ScopesOf(order, parsed, valid)[..k]
      invariant warnings + ClaimWarnings(order[k..], parsed, valid) == ClaimWarnings(order, parsed, valid)
      invariant ClaimedBy(parsed, claimed, order[..k])
    {
      Unclaimed(order, k, parsed, claimed);
      ClaimedStep(order, k, parsed, claimed);
      NextWarnings(warnings, order, k, parsed, valid);
      NextScope(order, k, parsed, valid);
      var items, more;
      items, more, claimed := ClaimFiles(order[k], parsed, claimed, valid);
      scopes := scopes + [PrefixScope(order[k].dir, order[k].collection, items)];
      warnings := warnings + more;
    }
    assert order[..|order|] == order;
    assert ScopesOf(order, parsed, valid)[..|order|] == ScopesOf(order, parsed, valid);
  }

  lemma NextScope(order: seq<CollectionDir>, k: nat, parsed: seq<Parsed>, valid: File -> bool)
    requires k < |order|
    ensures ScopesOf(order, parsed, valid)[..k + 1]
            == ScopesOf(order, parsed, valid)[..k] + [ScopeOf(order[k], parsed, valid)]
  {
  }

  lemma NextWarnings(warnings: seq<Warning>, order: seq<CollectionDir>, k: nat, parsed: seq<Parsed>,
                     valid: File -> bool)
    requires k < |order|
    ensures warnings + ClaimWarnings(order[k..], parsed, valid)
            == warnings + WarningsOf(order[k], parsed, valid) + ClaimWarnings(order[k + 1..], parsed, valid)
  {
    assert order[k..][1..] == order[k + 1..];
    Assoc(warnings, WarningsOf(order[k], parsed, valid), ClaimWarnings(order[k + 1..], parsed, valid));
  }

  ghost predicate ClaimedBy(parsed: seq<Parsed>, claimed: set<Path>, dirs: seq<CollectionDir>) {
    forall p <- parsed :: p.0 in claimed <==> InsideAny(p.0, dirs)
  }

  /** In an antichain no file of a further directory is claimed yet. */
  lemma Unclaimed(order: seq<CollectionDir>, k: nat, parsed: seq<Parsed>, claimed: set<Path>)
    requires DistinctDirs(order) && Antichain(order) && k < |order| && ClaimedBy(parsed, claimed, order[..k])
    ensures forall p <- parsed :: Inside(p.0, order[k].dir) ==> p.0 !in claimed
  {
    forall p | p in parsed && Inside(p.0, order[k].dir) ensures p.0 !in claimed {
      if i :| 0 <= i < k && Inside(p.0, order[..k][i].dir) {
        InsideOnlyOne(order, i, k, p.0);
      }
    }
  }

  lemma ClaimedStep(order: seq<CollectionDir>, k: nat, parsed: seq<Parsed>, claimed: set<Path>)
    requires k < |order| && ClaimedBy(parsed, claimed, order[..k])
    ensures ClaimedBy(parsed, claimed + PathsInside(parsed, order[k].dir), order[..k + 1])
  {
    var before, more := order[..k], order[..k + 1];
    forall p | p in parsed
      ensures InsideAny(p.0, more) <==> InsideAny(p.0, before) || Inside(p.0, order[k].dir)
    {
      if i :| 0 <= i < k + 1 && Inside(p.0, more[i].dir) {
        assert i < k ==> before[i] == order[i];
      }
      if i :| 0 <= i < k && Inside(p.0, before[i].dir) {
        assert more[i] == order[i];
      }
      assert more[k] == order[k];
    }
  }

  /** The features that no collection directory contains. */
  function OutsideOf(dirs: seq<CollectionDir>, parsed: seq<Parsed>): seq<Warning> {
    if parsed == [] then []
    else if parsed[0].1.kind == FeatureFile && !InsideAny(parsed[0].0, dirs) then
      [Outside(parsed[0].0)] + OutsideOf(dirs, parsed[1..])
    else OutsideOf(dirs, parsed[1..])
  }

  function Readable(entries: seq<Entry>): seq<Parsed> {
    if entries == [] then []
    else if entries[0].1.Some? then [(entries[0].0, entries[0].1.value)] + Readable(entries[1..])
    else Readable(entries[1..])
  }

  function UnreadableOf(entries: seq<Entry>): seq<Warning> {
    if entries == [] then []
    else if entries[0].1.None? then [Unreadable(entries[0].0)] + UnreadableOf(entries[1..])
    else UnreadableOf(entries[1..])
  }

  predicate ById(a: PrefixScope, b: PrefixScope) {
    TextLeq(GetOr(a.collection.id, ""), GetOr(b.collection.id, ""))
  }

  ghost predicate ListedOnce(entries: seq<Entry>) {
    forall i, j :: 0 <= i < j < |entries| ==> entries[i].0 != entries[j].0
  }

  lemma {:induction false} ReadableDistinct(entries: seq<Entry>)
    requires ListedOnce(entries)
    ensures DistinctPaths(Readable(entries))
    ensures forall p <- Readable(entries) :: (p.0, Some(p.1)) in entries
  {
    if entries != [] {
      ReadableDistinct(entries[1..]);
      forall p | p in Readable(entries[1..]) ensures p.0 != entries[0].0 && (p.0, Some(p.1)) in entries {
        assert (p.0, Some(p.1)) in entries[1..];
      }
    }
  }

  /** Parses the listing: the readable files, and a warning for each other one. */
  method ParseEntries(entries: seq<Entry>) returns (parsed: seq<Parsed>, warnings: seq<Warning>)
    ensures parsed == Readable(entries) && warnings == UnreadableOf(entries)
  {
    parsed, warnings := [], [];
    for k := 0 to |entries|
      invariant parsed + Readable(entries[k..]) == Readable(entries)
      invariant warnings + UnreadableOf(entries[k..]) == UnreadableOf(entries)
    {
      assert entries[k..][1..] == entries[k + 1..];
      if entries[k].1.None? {
        warnings := warnings + [Unreadable(entries[k].0)];
        continue;
      }
      parsed := parsed + [(entries[k].0, entries[k].1.value)];
    }
  }

  method WarnOutside(parsed: seq<Parsed>, claimed: set<Path>, ghost dirs: seq<CollectionDir>)
    returns (warnings: seq<Warning>)
    requires ClaimedBy(parsed, claimed, dirs)
    ensures warnings == OutsideOf(dirs, parsed)
  {
    warnings := [];
    for k := 0 to |parsed|
      invariant warnings + OutsideOf(dirs, parsed[k..]) == OutsideOf(dirs, parsed)
    {
      assert parsed[k..][1..] == parsed[k + 1..];
      assert parsed[k] in parsed;
      if parsed[k].0 !in claimed && parsed[k].1.kind == FeatureFile {
        warnings := warnings + [Outside(parsed[k].0)];
      }
    }
  }

  /** The scopes are sorted by id; each stands for the last collection file of its directory with the
      valid features inside, no directory occurs twice, and every collection file has its scope. */
  ghost predicate HoldsCollections(scopes: seq<PrefixScope>, parsed: seq<Parsed>, valid: File -> bool) {
    && Sorted(scopes, ById)
    && (forall s <- scopes ::
        LastIn(parsed, s.dir) == Some(s.collection) && s.items == ItemsInside(parsed, s.dir, valid))
    && Distinct(scopes)
    && (forall p <- parsed :: p.1.kind == CollectionFile ==> HasScope(scopes, Dirname(p.0)))
  }

  ghost predicate HasScope(scopes: seq<PrefixScope>, dir: Path) {
    exists s <- scopes :: s.dir == dir
  }

  lemma ScopesHold(order: seq<CollectionDir>, parsed: seq<Parsed>, valid: File -> bool)
    requires DistinctDirs(order) && CoversCollections(order, parsed)
    ensures var scopes := ScopesOf(order, parsed, valid);
            && (forall s <- scopes ::
                LastIn(parsed, s.dir) == Some(s.collection) && s.items == ItemsInside(parsed, s.dir, valid))
            && Distinct(scopes)
            && (forall p <- parsed :: p.1.kind == CollectionFile ==> HasScope(scopes, Dirname(p.0)))
  {
    var scopes := ScopesOf(order, parsed, valid);
    forall i | 0 <= i < |scopes| ensures LastIn(parsed, scopes[i].dir) == Some(scopes[i].collection) {
      assert HasFile(order[i], parsed);
    }
    forall p | p in parsed && p.1.kind == CollectionFile ensures HasScope(scopes, Dirname(p.0)) {
      var d :| d in order && d.dir == Dirname(p.0) && d.collection.id == p.1.id;
      var i :| 0 <= i < |order| && order[i] == d;
      assert scopes[i] in scopes;
    }
  }

  lemma SortedScopesHold(order: seq<CollectionDir>, parsed: seq<Parsed>, valid: File -> bool)
    requires DistinctDirs(order) && CoversCollections(order, parsed)
    ensures HoldsCollections(Sort(ScopesOf(order, parsed, valid), ById), parsed, valid)
  {
    ByIdIsPreorder();
    SortSorts(ScopesOf(order, parsed, valid), ById);
    ScopesHold(order, parsed, valid);
    ReorderedHold(ScopesOf(order, parsed, valid), Sort(ScopesOf(order, parsed, valid), ById), parsed, valid);
  }

  lemma ReorderedHold(scopes: seq<PrefixScope>, sorted: seq<PrefixScope>, parsed: seq<Parsed>, valid: File -> bool)
    requires multiset(scopes) == multiset(sorted) && Sorted(sorted, ById) && Distinct(scopes)
    requires forall s <- scopes ::
            LastIn(parsed, s.dir) == Some(s.collection) && s.items == ItemsInside(parsed, s.dir, valid)
    requires forall p <- parsed :: p.1.kind == CollectionFile ==> HasScope(scopes, Dirname(p.0))
    ensures HoldsCollections(sorted, parsed, valid)
  {
    ReorderedStayDistinct(scopes, sorted);
    forall s ensures s in sorted <==> s in scopes {
      assert s in multiset(sorted) <==> s in multiset(scopes);
    }
  }

  /** Reads the collection trees of a listing. `order` is the order in which the directories claim. */
  method ReadCollectionPrefix(entries: seq<Entry>, valid: File -> bool)
    returns (r: Result<seq<PrefixScope>, PrefixError>, warnings: seq<Warning>, ghost order: seq<CollectionDir>)
    requires ListedOnce(entries)
    ensures r.Success? ==> HoldsCollections(r.value, Readable(entries), valid)
    ensures r.Success? ==>
              var parsed := Readable(entries);
              && order != [] && DistinctDirs(order) && Antichain(order) && CoversCollections(order, parsed)
              && (forall i, j :: 0 <= i < j < |order| ==> |order[i].dir| >= |order[j].dir|)
              && r.value == Sort(ScopesOf(order, parsed, valid), ById)
              && warnings == UnreadableOf(entries) + ClaimWarnings(order, parsed, valid) + OutsideOf(order, parsed)
    ensures r.Failure? ==>
              || Justified(r.error, Readable(entries))
              || (r.error == NoCollections && forall p <- Readable(entries) :: p.1.kind != CollectionFile)
              || (r.error == NestedCollections && DistinctDirs(order) && CoversCollections(order, Readable(entries))
                  && !Antichain(order))
  {
    var parsed;
    parsed, warnings := ParseEntries(entries);
    ReadableDistinct(entries);
    var dirs := CollectDirs(parsed);
    order := [];
    if dirs.Failure? {
      return Failure(dirs.error), warnings, order;
    }
    if dirs.value == [] {
      return Failure(NoCollections), warnings, order;
    }
    order := dirs.value;
    var flat := CheckNesting(dirs.value);
    if !flat {
      return Failure(NestedCollections), warnings, order;
    }
    var sorted := Sort(dirs.value, Deeper);
    SortSorts(dirs.value, Deeper);
    assert forall i, j :: 0 <= i < j < |sorted| ==> Deeper(sorted[i], sorted[j]);
    ReorderDirs(dirs.value, sorted, parsed);
    order := sorted;
    var scopes, more, claimed := ClaimAll(sorted, parsed, valid);
    var outside := WarnOutside(parsed, claimed, sorted);
    SortedScopesHold(order, parsed, valid);
    r := Success(Sort(scopes, ById));
    warnings := warnings + more + outside;
  }

  /** A folder whose only file is a collection without an id is read: nothing justifies a failure. */
  lemma NamelessCollectionIsRead(dir: string, body: string)
    requires dir != ""
    ensures var path, file := [dir, "collection.json"], File(CollectionFile, None, body);
            var parsed := Readable([(path, Some(file))]);
            && ListedOnce([(path, Some(file))]) && parsed == [(path, file)]
            && (forall e :: !Justified(e, parsed))
            && (forall dirs: seq<CollectionDir> :: CoversCollections(dirs, parsed) ==> Antichain(dirs))
  {
    var file: Parsed := ([dir, "collection.json"], File(CollectionFile, None, body));
    var entries: seq<Entry> := [(file.0, Some(file.1))];
    assert entries[1..] == [];
    assert Readable(entries) == [file] + [];
    var parsed := [file];
    assert file.0[..1] == [dir] && [dir][0] == dir && [dir] != [];
    assert Dirname(file.0) == [dir];
    forall dirs: seq<CollectionDir> | CoversCollections(dirs, parsed) ensures Antichain(dirs) {
      forall i | 0 <= i < |dirs| ensures dirs[i].dir == [dir] {
        assert HasFile(dirs[i], parsed);
        var p := LastInFound(parsed, dirs[i].dir);
      }
    }
  }

  // ---------- The files are partitioned ----------

  /** A scope holds exactly the valid features inside its directory, and its directory and the
      relative path together give each file's path again. */
  lemma {:induction false} ItemsInsideExact(parsed: seq<Parsed>, dir: Path, valid: File -> bool, rel: Path, data: File)
    ensures (rel, data) in ItemsInside(parsed, dir, valid) <==>
            rel != [] && (dir + rel, data) in parsed && data.kind == FeatureFile && valid(data)
  {
    if parsed != [] {
      ItemsInsideExact(parsed[1..], dir, valid, rel, data);
      var head := parsed[0];
      assert parsed == [head] + parsed[1..];
      if Inside(head.0, dir) {
        assert dir + Relative(head.0, dir) == head.0;
      }
      if rel != [] && head == (dir + rel, data) {
        assert Inside(head.0, dir) && Relative(head.0, dir) == rel;
      }
    }
  }

  lemma {:induction false} InvalidInsideExact(parsed: seq<Parsed>, dir: Path, valid: File -> bool, path: Path)
    ensures InvalidItem(path) in InvalidInside(parsed, dir, valid) <==>
            exists p <- parsed :: p.0 == path && Inside(path, dir) && p.1.kind == FeatureFile && !valid(p.1)
  {
    if parsed != [] {
      InvalidInsideExact(parsed[1..], dir, valid, path);
      assert parsed == [parsed[0]] + parsed[1..];
    }
  }

  lemma {:induction false} OutsideOfExact(dirs: seq<CollectionDir>, parsed: seq<Parsed>, path: Path)
    ensures Outside(path) in OutsideOf(dirs, parsed) <==>
            exists p <- parsed :: p.0 == path && p.1.kind == FeatureFile && !InsideAny(path, dirs)
  {
    if parsed != [] {
      OutsideOfExact(dirs, parsed[1..], path);
      assert parsed == [parsed[0]] + parsed[1..];
    }
  }

  /** Where a feature ends up: in the scope of the directory, or in a warning about it there. */
  ghost predicate PlacedIn(d: CollectionDir, parsed: seq<Parsed>, valid: File -> bool, p: Parsed) {
    && Inside(p.0, d.dir)
    && ((Relative(p.0, d.dir), p.1) in ScopeOf(d, parsed, valid).items <==> valid(p.1))
    && (InvalidItem(p.0) in WarningsOf(d, parsed, valid) <==> !valid(p.1))
  }

  lemma SamePath(parsed: seq<Parsed>, p: Parsed, q: Parsed)
    requires DistinctPaths(parsed) && p in parsed && q in parsed && p.0 == q.0
    ensures p == q
  {
    var i :| 0 <= i < |parsed| && parsed[i] == p;
    var j :| 0 <= j < |parsed| && parsed[j] == q;
  }

  lemma InsideIsPlaced(d: CollectionDir, parsed: seq<Parsed>, valid: File -> bool, p: Parsed)
    requires DistinctPaths(parsed) && p in parsed && p.1.kind == FeatureFile && Inside(p.0, d.dir)
    ensures PlacedIn(d, parsed, valid, p)
  {
    var rel := Relative(p.0, d.dir);
    assert d.dir + rel == p.0;
    ItemsInsideExact(parsed, d.dir, valid, rel, p.1);
    InvalidInsideExact(parsed, d.dir, valid, p.0);
    if q :| q in parsed && q.0 == p.0 && q.1.kind == FeatureFile && !valid(q.1) {
      SamePath(parsed, p, q);
    }
  }

  /** Every readable feature lies in exactly one collection directory, where it is an item or a
      warning names it as invalid, or in none, and then a warning names it as outside. */
  lemma FeaturesArePartitioned(dirs: seq<CollectionDir>, parsed: seq<Parsed>, valid: File -> bool, p: Parsed)
    requires DistinctPaths(parsed) && DistinctDirs(dirs) && Antichain(dirs)
    requires p in parsed && p.1.kind == FeatureFile
    ensures Outside(p.0) in OutsideOf(dirs, parsed) <==> !InsideAny(p.0, dirs)
    ensures InsideAny(p.0, dirs) ==>
              exists i :: 0 <= i < |dirs| && PlacedIn(dirs[i], parsed, valid, p)
                && forall j :: 0 <= j < |dirs| && j != i ==> !Inside(p.0, dirs[j].dir)
  {
    OutsideOfExact(dirs, parsed, p.0);
    if InsideAny(p.0, dirs) {
      var i :| 0 <= i < |dirs| && Inside(p.0, dirs[i].dir);
      InsideIsPlaced(dirs[i], parsed, valid, p);
      forall j | 0 <= j < |dirs| && j != i ensures !Inside(p.0, dirs[j].dir) {
        if Inside(p.0, dirs[j].dir) {
          InsideOnlyOne(dirs, i, j, p.0);
        }
      }
    }
  }

  // ---------- The order of claiming does not matter ----------

  lemma ScopesBag(a: seq<CollectionDir>, b: seq<CollectionDir>, parsed: seq<Parsed>, valid: File -> bool)
    requires multiset(a) == multiset(b)
    ensures multiset(ScopesOf(a, parsed, valid)) == multiset(ScopesOf(b, parsed, valid))
  {
    var f := (d: CollectionDir) => ScopeOf(d, parsed, valid);
    MapBag(a, b, f);
    assert ScopesOf(a, parsed, valid) == Map(a, f);
    assert ScopesOf(b, parsed, valid) == Map(b, f);
  }

  ghost predicate DistinctCollections(dirs: seq<CollectionDir>) {
    forall i, j :: 0 <= i < j < |dirs| ==> GetOr(dirs[i].collection.id, "") != GetOr(dirs[j].collection.id, "")
  }

  lemma SameIdSameScope(dirs: seq<CollectionDir>, parsed: seq<Parsed>, valid: File -> bool, x: PrefixScope,
                        y: PrefixScope)
    requires DistinctCollections(dirs)
    requires x in ScopesOf(dirs, parsed, valid) && y in ScopesOf(dirs, parsed, valid)
    requires GetOr(x.collection.id, "") == GetOr(y.collection.id, "")
    ensures x == y
  {
    var s := ScopesOf(dirs, parsed, valid);
    var i :| 0 <= i < |s| && s[i] == x;
    var j :| 0 <= j < |s| && s[j] == y;
    assert dirs[i].collection.id == dirs[j].collection.id;
  }

  lemma {:induction false} WarningsAreFlat(dirs: seq<CollectionDir>, parsed: seq<Parsed>, valid: File -> bool,
                                           f: CollectionDir -> seq<Warning>)
    requires forall d <- dirs :: f(d) == WarningsOf(d, parsed, valid)
    ensures ClaimWarnings(dirs, parsed, valid) == Flatten(Map(dirs, f))
  {
    if dirs != [] {
      WarningsAreFlat(dirs[1..], parsed, valid, f);
    }
  }

  lemma WarningsBag(a: seq<CollectionDir>, b: seq<CollectionDir>, parsed: seq<Parsed>, valid: File -> bool)
    requires multiset(a) == multiset(b)
    ensures multiset(ClaimWarnings(a, parsed, valid)) == multiset(ClaimWarnings(b, parsed, valid))
  {
    var f := (d: CollectionDir) => WarningsOf(d, parsed, valid);
    MapBag(a, b, f);
    FlattenBag(Map(a, f), Map(b, f));
    WarningsAreFlat(a, parsed, valid, f);
    WarningsAreFlat(b, parsed, valid, f);
  }

  lemma ClaimedBag(a: seq<CollectionDir>, b: seq<CollectionDir>, rel: Path)
    requires multiset(a) == multiset(b)
    ensures InsideAny(rel, a) ==> InsideAny(rel, b)
  {
    if i :| 0 <= i < |a| && Inside(rel, a[i].dir) {
      assert a[i] in multiset(a);
      var j := IndexOf(b, a[i]);
    }
  }

  /** Two runs in which the same directories claim in different orders find the same scopes, give the
      same warnings and claim the same files; sorted by different ids the scopes are the same list. */
  lemma ClaimOrderDoesNotMatter(a: seq<CollectionDir>, b: seq<CollectionDir>, parsed: seq<Parsed>, valid: File -> bool,
                                scopes: seq<PrefixScope>, warnings: seq<Warning>, claimed: set<Path>,
                                scopes': seq<PrefixScope>, warnings': seq<Warning>, claimed': set<Path>)
    requires multiset(a) == multiset(b)
    requires AllClaimed(a, parsed, valid, scopes, warnings, claimed)
            && AllClaimed(b, parsed, valid, scopes', warnings', claimed')
    ensures multiset(scopes) == multiset(scopes') && multiset(warnings) == multiset(warnings')
    ensures forall p <- parsed :: p.0 in claimed <==> p.0 in claimed'
    ensures DistinctCollections(a) ==> Sort(scopes, ById) == Sort(scopes', ById)
  {
    ScopesBag(a, b, parsed, valid);
    WarningsBag(a, b, parsed, valid);
    forall p | p in parsed ensures p.0 in claimed <==> p.0 in claimed' {
      ClaimedBag(a, b, p.0);
      ClaimedBag(b, a, p.0);
    }
    if DistinctCollections(a) {
      SameSortedScopes(a, scopes, scopes', parsed, valid);
    }
  }

  lemma SameSortedScopes(dirs: seq<CollectionDir>, scopes: seq<PrefixScope>, other: seq<PrefixScope>,
                         parsed: seq<Parsed>, valid: File -> bool)
    requires DistinctCollections(dirs) && scopes == ScopesOf(dirs, parsed, valid) && multiset(scopes) == multiset(other)
    ensures Sort(scopes, ById) == Sort(other, ById)
  {
    var s, t := Sort(scopes, ById), Sort(other, ById);
    ByIdIsPreorder();
    SortSorts(scopes, ById);
    SortSorts(other, ById);
    forall x, y | x in s && y in s && ById(x, y) && ById(y, x) ensures x == y {
      TextLeqTotal(GetOr(x.collection.id, ""), GetOr(y.collection.id, ""));
      assert x in multiset(s) && y in multiset(s);
      SameIdSameScope(dirs, parsed, valid, x, y);
    }
    SortedIsUnique(s, t, ById);
  }

  lemma ByIdIsPreorder()
    ensures TotalPreorder(ById)
  {
    forall a, b ensures ById(a, b) || ById(b, a) {
      TextLeqTotal(GetOr(a.collection.id, ""), GetOr(b.collection.id, ""));
    }
    forall a, b, c | ById(a, b) && ById(b, c) ensures ById(a, c) {
      TextLeqTransitive(GetOr(a.collection.id, ""), GetOr(b.collection.id, ""), GetOr(c.collection.id, ""));
    }
  }
}
