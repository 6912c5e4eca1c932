/** What reading a prefix gives, file by file, in terms of the listing. */
module PrefixContents {
  import opened Wrappers
  import opened Sequences
  import opened Paths
  import opened PrefixReader

  // ---------- Which files give what ----------

  /** The path leads further down from the directory. */
  ghost predicate Below(path: Path, dir: Path) {
    exists rest: Path :: rest != [] && path == dir + rest
  }

  ghost function Read(): Entry -> bool {
    (e: Entry) => e.1.Some?
  }

  ghost function GivesFile(): (Entry, Parsed) -> bool {
    (e: Entry, p: Parsed) => e == (p.0, Some(p.1))
  }

  ghost function NotRead(): Entry -> bool {
    (e: Entry) => e.1.None?
  }

  ghost function GivesUnreadable(): (Entry, Warning) -> bool {
    (e: Entry, w: Warning) => w == Unreadable(e.0)
  }

  /** The features below the directory that validate, or those that do not. */
  ghost function FeatureBelow(dir: Path, valid: File -> bool, good: bool): Parsed -> bool {
    (p: Parsed) => p.1.kind == FeatureFile && Below(p.0, dir) && valid(p.1) == good
  }

  ghost function GivesItem(dir: Path): (Parsed, Parsed) -> bool {
    (p: Parsed, item: Parsed) => p == (dir + item.0, item.1)
  }

  ghost function GivesInvalid(): (Parsed, Warning) -> bool {
    (p: Parsed, w: Warning) => w == InvalidItem(p.0)
  }

  /** The features below no directory. */
  ghost function Loose(dirs: seq<CollectionDir>): Parsed -> bool {
    (p: Parsed) => p.1.kind == FeatureFile && forall d <- dirs :: !Below(p.0, d.dir)
  }

  ghost function GivesOutside(): (Parsed, Warning) -> bool {
    (p: Parsed, w: Warning) => w == Outside(p.0)
  }

  // ---------- The result ----------

  /** The file is the last collection file of the directory in the listing. */
  ghost predicate LastCollection(parsed: seq<Parsed>, dir: Path, file: File) {
    exists i: nat ::
      && i < |parsed| && parsed[i].1 == file && file.kind == CollectionFile && Dirname(parsed[i].0) == dir
      && forall j :: i < j < |parsed| ==> !(parsed[j].1.kind == CollectionFile && Dirname(parsed[j].0) == dir)
  }

  /** The scope holds the last collection file of its directory and, in listing order, the valid features
      below, by their paths from there. */
  ghost predicate ScopeIs(s: PrefixScope, parsed: seq<Parsed>, valid: File -> bool) {
    && LastCollection(parsed, s.dir, s.collection)
    && Images(parsed, FeatureBelow(s.dir, valid, true), GivesItem(s.dir), s.items)
  }

  /** The warnings of one directory: each feature below that does not validate, and whether none does. */
  ghost predicate DirWarns(warnings: seq<Warning>, dir: Path, parsed: seq<Parsed>, valid: File -> bool) {
    exists invalid: seq<Warning> ::
      && Images(parsed, FeatureBelow(dir, valid, false), GivesInvalid(), invalid)
      && warnings == invalid + if exists p <- parsed :: FeatureBelow(dir, valid, true)(p) then [] else [NoItems(dir)]
  }

  ghost predicate DirsWarn(perDir: seq<seq<Warning>>, order: seq<CollectionDir>, parsed: seq<Parsed>,
                           valid: File -> bool) {
    |perDir| == |order| && forall k :: 0 <= k < |order| ==> DirWarns(perDir[k], order[k].dir, parsed, valid)
  }

  /** First a warning for each file that cannot be read, then those of the directories, then one for each
      feature below no directory. */
  ghost predicate WarningsAre(warnings: seq<Warning>, entries: seq<Entry>, parsed: seq<Parsed>,
                              order: seq<CollectionDir>, valid: File -> bool) {
    exists unread, perDir, loose ::
      && warnings == unread + Flatten(perDir) + loose
      && Images(entries, NotRead(), GivesUnreadable(), unread)
      && DirsWarn(perDir, order, parsed, valid)
      && Images(parsed, Loose(order), GivesOutside(), loose)
  }

  // ---------- The listing ----------

  lemma {:induction false} ReadableIs(entries: seq<Entry>)
    ensures Images(entries, Read(), GivesFile(), Readable(entries))
  {
    if entries == [] {
      NoImages(Read(), GivesFile());
    } else {
      ReadableIs(entries[1..]);
      var head := if entries[0].1.Some? then [(entries[0].0, entries[0].1.value)] else [];
      ImagesFromTail(entries, Read(), GivesFile(), head, Readable(entries[1..]));
      assert Readable(entries) == head + Readable(entries[1..]);
    }
  }

  lemma {:induction false} UnreadableIs(entries: seq<Entry>)
    ensures Images(entries, NotRead(), GivesUnreadable(), UnreadableOf(entries))
  {
    if entries == [] {
      NoImages(NotRead(), GivesUnreadable());
    } else {
      UnreadableIs(entries[1..]);
      var head := if entries[0].1.None? then [Unreadable(entries[0].0)] else [];
      ImagesFromTail(entries, NotRead(), GivesUnreadable(), head, UnreadableOf(entries[1..]));
      assert UnreadableOf(entries) == head + UnreadableOf(entries[1..]);
    }
  }

  lemma InsideIsBelow(path: Path, dir: Path)
    ensures Inside(path, dir) <==> Below(path, dir)
  {
    if Inside(path, dir) {
      assert path == dir + path[|dir|..];
    }
  }

  lemma {:induction false} ItemsAre(parsed: seq<Parsed>, dir: Path, valid: File -> bool)
    ensures Images(parsed, FeatureBelow(dir, valid, true), GivesItem(dir), ItemsInside(parsed, dir, valid))
  {
    if parsed == [] {
      NoImages(FeatureBelow(dir, valid, true), GivesItem(dir));
    } else {
      var (rel, data) := parsed[0];
      ItemsAre(parsed[1..], dir, valid);
      InsideIsBelow(rel, dir);
      var head := if FeatureBelow(dir, valid, true)(parsed[0]) then [(Relative(rel, dir), data)] else [];
      assert Inside(rel, dir) ==> dir + Relative(rel, dir) == rel;
      ImagesFromTail(parsed, FeatureBelow(dir, valid, true), GivesItem(dir), head,
                     ItemsInside(parsed[1..], dir, valid));
      assert ItemsInside(parsed, dir, valid) == head + ItemsInside(parsed[1..], dir, valid);
    }
  }

  lemma {:induction false} InvalidsAre(parsed: seq<Parsed>, dir: Path, valid: File -> bool)
    ensures Images(parsed, FeatureBelow(dir, valid, false), GivesInvalid(), InvalidInside(parsed, dir, valid))
  {
    if parsed == [] {
      NoImages(FeatureBelow(dir, valid, false), GivesInvalid());
    } else {
      InvalidsAre(parsed[1..], dir, valid);
      InsideIsBelow(parsed[0].0, dir);
      var head := if FeatureBelow(dir, valid, false)(parsed[0]) then [InvalidItem(parsed[0].0)] else [];
      ImagesFromTail(parsed, FeatureBelow(dir, valid, false), GivesInvalid(), head,
                     InvalidInside(parsed[1..], dir, valid));
      assert InvalidInside(parsed, dir, valid) == head + InvalidInside(parsed[1..], dir, valid);
    }
  }

  lemma LooseIff(dirs: seq<CollectionDir>, p: Parsed)
    ensures Loose(dirs)(p) <==> p.1.kind == FeatureFile && !InsideAny(p.0, dirs)
  {
    forall d ensures Inside(p.0, d) <==> Below(p.0, d) {
      InsideIsBelow(p.0, d);
    }
    if i :| 0 <= i < |dirs| && Inside(p.0, dirs[i].dir) {
      assert dirs[i] in dirs;
    }
  }

  lemma {:induction false} OutsideIs(dirs: seq<CollectionDir>, parsed: seq<Parsed>)
    ensures Images(parsed, Loose(dirs), GivesOutside(), OutsideOf(dirs, parsed))
  {
    if parsed == [] {
      NoImages(Loose(dirs), GivesOutside());
    } else {
      OutsideIs(dirs, parsed[1..]);
      LooseIff(dirs, parsed[0]);
      var head := if Loose(dirs)(parsed[0]) then [Outside(parsed[0].0)] else [];
      ImagesFromTail(parsed, Loose(dirs), GivesOutside(), head, OutsideOf(dirs, parsed[1..]));
      assert OutsideOf(dirs, parsed) == head + OutsideOf(dirs, parsed[1..]);
    }
  }

  // ---------- Scopes and warnings ----------

  lemma {:induction false} LastInIs(parsed: seq<Parsed>, dir: Path, file: File)
    requires LastIn(parsed, dir) == Some(file)
    ensures LastCollection(parsed, dir, file)
    decreases |parsed|
  {
    var n := |parsed| - 1;
    if !IsCollectionIn(parsed[n], dir) {
      LastInIs(parsed[..n], dir, file);
      var i: nat :| i < n && parsed[..n][i].1 == file && file.kind == CollectionFile && Dirname(parsed[..n][i].0) == dir
        && forall j :: i < j < n ==> !(parsed[..n][j].1.kind == CollectionFile && Dirname(parsed[..n][j].0) == dir);
      forall j | i < j < |parsed| ensures !(parsed[j].1.kind == CollectionFile && Dirname(parsed[j].0) == dir) {
        assert j < n ==> parsed[j] == parsed[..n][j];
      }
      assert parsed[i] == parsed[..n][i];
    }
  }

  lemma ScopesAre(scopes: seq<PrefixScope>, parsed: seq<Parsed>, valid: File -> bool)
    requires HoldsCollections(scopes, parsed, valid)
    ensures forall s <- scopes :: ScopeIs(s, parsed, valid)
  {
    forall s | s in scopes ensures ScopeIs(s, parsed, valid) {
      LastInIs(parsed, s.dir, s.collection);
      ItemsAre(parsed, s.dir, valid);
    }
  }

  lemma NoItemsIff(parsed: seq<Parsed>, dir: Path, valid: File -> bool)
    ensures ItemsInside(parsed, dir, valid) == [] <==> !exists p <- parsed :: FeatureBelow(dir, valid, true)(p)
  {
    ItemsAre(parsed, dir, valid);
    var items := ItemsInside(parsed, dir, valid);
    if p :| p in parsed && FeatureBelow(dir, valid, true)(p) {
      var i: nat :| i < |parsed| && parsed[i] == p;
      var item := ImageOf(parsed, FeatureBelow(dir, valid, true), GivesItem(dir), items, i);
    }
    if items != [] {
      var i := ImageOrigin(parsed, FeatureBelow(dir, valid, true), GivesItem(dir), items, items[0]);
    }
  }

  lemma DirWarningsAre(d: CollectionDir, parsed: seq<Parsed>, valid: File -> bool)
    ensures DirWarns(WarningsOf(d, parsed, valid), d.dir, parsed, valid)
  {
    InvalidsAre(parsed, d.dir, valid);
    NoItemsIff(parsed, d.dir, valid);
  }

  function PerDir(order: seq<CollectionDir>, parsed: seq<Parsed>, valid: File -> bool): (lists: seq<seq<Warning>>)
    ensures |lists| == |order| && forall k :: 0 <= k < |order| ==> lists[k] == WarningsOf(order[k], parsed, valid)
  {
    if order == [] then [] else [WarningsOf(order[0], parsed, valid)] + PerDir(order[1..], parsed, valid)
  }

  lemma {:induction false} ClaimWarningsAre(order: seq<CollectionDir>, parsed: seq<Parsed>, valid: File -> bool)
    ensures ClaimWarnings(order, parsed, valid) == Flatten(PerDir(order, parsed, valid))
  {
    if order != [] {
      ClaimWarningsAre(order[1..], parsed, valid);
    }
  }

  /** What a successful reading gives: the readable files in order, a scope for each directory with a
      collection file, and the exact list of warnings. */
  lemma PrefixIsExact(entries: seq<Entry>, valid: File -> bool, scopes: seq<PrefixScope>, warnings: seq<Warning>,
                      order: seq<CollectionDir>)
    requires var parsed := Readable(entries);
             && HoldsCollections(scopes, parsed, valid)
             && warnings == UnreadableOf(entries) + ClaimWarnings(order, parsed, valid) + OutsideOf(order, parsed)
    ensures Images(entries, Read(), GivesFile(), Readable(entries))
    ensures forall s <- scopes :: ScopeIs(s, Readable(entries), valid)
    ensures WarningsAre(warnings, entries, Readable(entries), order, valid)
  {
    var parsed := Readable(entries);
    ReadableIs(entries);
    UnreadableIs(entries);
    OutsideIs(order, parsed);
    ScopesAre(scopes, parsed, valid);
    ClaimWarningsAre(order, parsed, valid);
    forall k | 0 <= k < |order| ensures DirWarns(PerDir(order, parsed, valid)[k], order[k].dir, parsed, valid) {
      DirWarningsAre(order[k], parsed, valid);
    }
    assert DirsWarn(PerDir(order, parsed, valid), order, parsed, valid);
  }
}
