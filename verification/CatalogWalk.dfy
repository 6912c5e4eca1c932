/** The level-by-level walk over the catalog tree from the projects root. */
module CatalogWalk {
  import opened Wrappers
  import opened Sequences
  import opened Sorting

  datatype Link = NotALink | Link(rel: string, href: string, title: string)

  /** What a path answers. A document is malformed when it is no object, for instance a page of text,
      or when its links cannot be iterated over; a missing `links` member is an empty list. */
  datatype Answer = Unreachable | Malformed | Document(links: seq<Link>)

  /** The path of the projects root, fetching a path, and reducing an href to a path. */
  datatype Api = Api(root: string, get: string -> Answer, relative: string -> string)

  predicate IsChild(l: Link) {
    l.Link? && l.rel == "child" && l.href != ""
  }

  function PathOf(api: Api, l: Link): string {
    if l.Link? then api.relative(l.href) else ""
  }

  function PathsOf(api: Api, links: seq<Link>): (ps: seq<string>)
    ensures |ps| == |links| && forall i :: 0 <= i < |links| ==> ps[i] == PathOf(api, links[i])
  {
    if links == [] then [] else [PathOf(api, links[0])] + PathsOf(api, links[1..])
  }

  /** The children of a path; only a document has any. */
  function Successors(api: Api, path: string): set<string> {
    match api.get(path)
    case Document(links) => set l | l in links && IsChild(l) :: PathOf(api, l)
    case _ => {}
  }

  function SuccessorsOf(api: Api, paths: set<string>): set<string> {
    set p, c | p in paths && c in Successors(api, p) :: c
  }

  // ---------- Distances, by walks ----------

  /** The i-th link is an object with the relation `child` and an href that leads to `path`. */
  ghost predicate ChildAt(api: Api, links: seq<Link>, i: nat, path: string) {
    && i < |links| && links[i].Link? && links[i].rel == "child" && links[i].href != ""
    && api.relative(links[i].href) == path
  }

  /** The document at `p` has a child link to `c`. */
  ghost predicate Edge(api: Api, p: string, c: string) {
    exists links, i :: api.get(p) == Document(links) && ChildAt(api, links, i, c)
  }

  lemma EdgeIff(api: Api, p: string, c: string)
    ensures Edge(api, p, c) <==> c in Successors(api, p)
  {
    if Edge(api, p, c) {
      var links, i :| api.get(p) == Document(links) && ChildAt(api, links, i, c);
      assert links[i] in links && IsChild(links[i]) && PathOf(api, links[i]) == c;
    }
    if c in Successors(api, p) {
      var links := api.get(p).links;
      var l :| l in links && IsChild(l) && PathOf(api, l) == c;
      var i :| 0 <= i < |links| && links[i] == l;
      assert ChildAt(api, links, i, c);
    }
  }

  /** A walk from the root along child links. */
  ghost predicate IsWalk(api: Api, w: seq<string>) {
    w != [] && w[0] == api.root && forall i :: 0 <= i < |w| - 1 ==> Edge(api, w[i], w[i + 1])
  }

  ghost predicate WalkTo(api: Api, p: string, length: nat) {
    exists w: seq<string> :: IsWalk(api, w) && |w| == length + 1 && w[length] == p
  }

  /** The shortest walk from the root to `p` with at least one step has `length` steps. */
  ghost predicate Distance(api: Api, p: string, length: nat) {
    length >= 1 && WalkTo(api, p, length) && forall k: nat :: 1 <= k < length ==> !WalkTo(api, p, k)
  }

  /** The ends of all walks with `k` steps. */
  function Ends(api: Api, k: nat): set<string> {
    if k == 0 then {api.root} else SuccessorsOf(api, Ends(api, k - 1))
  }

  /** The ends of all walks with one to `k` steps. */
  function Reached(api: Api, k: nat): set<string> {
    if k == 0 then {} else Reached(api, k - 1) + Ends(api, k)
  }

  function Layer(api: Api, k: nat): set<string> {
    if k == 0 then {api.root} else Ends(api, k) - Reached(api, k - 1)
  }

  lemma {:induction false} EndsHaveWalks(api: Api, k: nat, p: string) returns (w: seq<string>)
    requires p in Ends(api, k)
    ensures IsWalk(api, w) && |w| == k + 1 && w[k] == p
  {
    if k == 0 {
      w := [p];
    } else {
      var q :| q in Ends(api, k - 1) && p in Successors(api, q);
      var v := EndsHaveWalks(api, k - 1, q);
      EdgeIff(api, q, p);
      w := v + [p];
    }
  }

  lemma {:induction false} WalksEnd(api: Api, w: seq<string>)
    requires IsWalk(api, w)
    ensures w[|w| - 1] in Ends(api, |w| - 1)
    decreases |w|
  {
    var n := |w| - 1;
    if n > 0 {
      WalksEnd(api, w[..n]);
      assert Edge(api, w[n - 1], w[n - 1 + 1]);
      EdgeIff(api, w[n - 1], w[n]);
    }
  }

  lemma EndsAreWalks(api: Api, k: nat, p: string)
    ensures p in Ends(api, k) <==> WalkTo(api, p, k)
  {
    if p in Ends(api, k) {
      var w := EndsHaveWalks(api, k, p);
    }
    if WalkTo(api, p, k) {
      var w :| IsWalk(api, w) && |w| == k + 1 && w[k] == p;
      WalksEnd(api, w);
    }
  }

  ghost predicate EndsWithin(api: Api, k: nat, p: string) {
    exists j: nat :: 1 <= j <= k && p in Ends(api, j)
  }

  lemma {:induction false} ReachedMember(api: Api, k: nat, p: string)
    ensures p in Reached(api, k) <==> EndsWithin(api, k, p)
  {
    if k > 0 {
      ReachedMember(api, k - 1, p);
      if EndsWithin(api, k - 1, p) {
        var j: nat :| 1 <= j <= k - 1 && p in Ends(api, j);
        assert EndsWithin(api, k, p);
      }
      if EndsWithin(api, k, p) {
        var j: nat :| 1 <= j <= k && p in Ends(api, j);
        assert j < k ==> EndsWithin(api, k - 1, p);
      }
    }
  }

  /** The k-th layer holds exactly the paths at distance k. */
  lemma LayerIsDistance(api: Api, k: nat, p: string)
    requires k >= 1
    ensures p in Layer(api, k) <==> Distance(api, p, k)
  {
    EndsAreWalks(api, k, p);
    ReachedMember(api, k - 1, p);
    if EndsWithin(api, k - 1, p) {
      var j: nat :| 1 <= j <= k - 1 && p in Ends(api, j);
      EndsAreWalks(api, j, p);
    } else {
      forall j: nat | 1 <= j < k ensures !WalkTo(api, p, j) {
        EndsAreWalks(api, j, p);
      }
    }
  }

  /** One more round from the current layer reaches exactly the next one. */
  lemma LayerStep(api: Api, k: nat)
    ensures SuccessorsOf(api, Layer(api, k)) - Reached(api, k) == Layer(api, k + 1)
  {
    forall c | c in Layer(api, k + 1) ensures c in SuccessorsOf(api, Layer(api, k)) {
      var p :| p in Ends(api, k) && c in Successors(api, p);
      if p !in Layer(api, k) {
        ReachedMember(api, k - 1, p);
        var j: nat :| 1 <= j <= k - 1 && p in Ends(api, j);
        assert c in Ends(api, j + 1);
        assert EndsWithin(api, k, c);
        ReachedMember(api, k, c);
      }
    }
  }

  lemma ReachedStep(api: Api, k: nat)
    ensures Reached(api, k + 1) == Reached(api, k) + Layer(api, k + 1)
  {
  }

  /** After an empty layer nothing more is reached. */
  lemma {:induction false} EmptyLayerEnds(api: Api, k: nat, n: nat)
    requires Layer(api, k) == {} && k <= n
    ensures Layer(api, n) == {} && Reached(api, n) == Reached(api, k)
    decreases n - k
  {
    if k < n {
      LayerStep(api, k);
      ReachedStep(api, k);
      EmptyLayerEnds(api, k + 1, n);
    }
  }

  // ---------- The loops ----------

  function SetOf(s: seq<string>): set<string> {
    set p | p in s
  }

  // ---------- Which link stands for a path ----------

  /** The child links by first occurrence of the path that they lead to. */
  function FirstNew(api: Api, scan: seq<Link>): seq<Link> {
    if scan == [] then []
    else
      var before, last := FirstNew(api, scan[..|scan| - 1]), scan[|scan| - 1];
      if IsChild(last) && PathOf(api, last) !in PathsOf(api, before) then before + [last] else before
  }

  function LinksAt(api: Api, path: string): seq<Link> {
    match api.get(path)
    case Document(links) => links
    case _ => []
  }

  /** The links of the documents at these paths, one document after the other. */
  function ScanOf(api: Api, docs: seq<string>): seq<Link> {
    if docs == [] then [] else LinksAt(api, docs[0]) + ScanOf(api, docs[1..])
  }

  lemma {:induction false} ScanAppend(api: Api, a: seq<string>, b: seq<string>)
    ensures ScanOf(api, a + b) == ScanOf(api, a) + ScanOf(api, b)
  {
    if a == [] {
      assert a + b == b;
    } else {
      ScanAppend(api, a[1..], b);
      assert (a + b)[0] == a[0] && (a + b)[1..] == a[1..] + b;
      Assoc(LinksAt(api, a[0]), ScanOf(api, a[1..]), ScanOf(api, b));
    }
  }

  lemma ScanOne(api: Api, doc: string)
    ensures ScanOf(api, [doc]) == LinksAt(api, doc)
  {
    assert [doc][1..] == [];
  }

  /** After scanning these links the walk has found these and seen their paths. */
  ghost predicate Scanned(api: Api, scan: seq<Link>, found: seq<Link>, seen: set<string>) {
    found == FirstNew(api, scan) && seen == SetOf(PathsOf(api, found))
  }

  lemma ScanStep(api: Api, scan: seq<Link>, found: seq<Link>, seen: set<string>, l: Link)
    requires Scanned(api, scan, found, seen)
    ensures if IsChild(l) && PathOf(api, l) !in seen
            then Scanned(api, scan + [l], found + [l], seen + {PathOf(api, l)})
            else Scanned(api, scan + [l], found, seen)
  {
    assert (scan + [l])[..|scan|] == scan;
    PathsAppend(api, found, [l]);
    assert PathsOf(api, [l]) == [PathOf(api, l)];
  }

  /** `at` lists the places of the child links that lead to a path for the first time. */
  ghost predicate FirstPlaces(api: Api, scan: seq<Link>, at: seq<nat>, found: seq<Link>) {
    && |at| == |found|
    && (forall j, k :: 0 <= j < k < |at| ==> at[j] < at[k])
    && (forall k :: 0 <= k < |at| ==> at[k] < |scan| && found[k] == scan[at[k]])
    && (forall i: nat :: i in at <==> i < |scan| && LeadsFirst(api, scan, i))
  }

  ghost predicate LeadsFirst(api: Api, scan: seq<Link>, i: nat) {
    exists p :: ChildAt(api, scan, i, p) && forall j: nat :: j < i ==> !ChildAt(api, scan, j, p)
  }

  lemma {:induction false} FirstNewPaths(api: Api, scan: seq<Link>, p: string)
    ensures p in PathsOf(api, FirstNew(api, scan)) <==> exists i: nat :: ChildAt(api, scan, i, p)
    decreases |scan|
  {
    if scan != [] {
      var n := |scan| - 1;
      FirstNewPaths(api, scan[..n], p);
      if i: nat :| i < n && ChildAt(api, scan, i, p) {
        assert ChildAt(api, scan[..n], i, p);
      }
      if i: nat :| ChildAt(api, scan[..n], i, p) {
        assert ChildAt(api, scan, i, p);
      }
      PathsAppend(api, FirstNew(api, scan[..n]), [scan[n]]);
      assert PathsOf(api, [scan[n]]) == [PathOf(api, scan[n])];
      assert IsChild(scan[n]) && PathOf(api, scan[n]) == p <==> ChildAt(api, scan, n, p);
    }
  }

  lemma LeadsFirstEarlier(api: Api, scan: seq<Link>, n: nat, i: nat)
    requires i < n <= |scan|
    ensures LeadsFirst(api, scan[..n], i) <==> LeadsFirst(api, scan, i)
  {
    forall j: nat, p | j < n ensures ChildAt(api, scan[..n], j, p) <==> ChildAt(api, scan, j, p) {
    }
  }

  /** What the walk finds are the links that lead to a path for the first time, in the order of the scan. */
  lemma {:induction false} FirstNewIs(api: Api, scan: seq<Link>) returns (at: seq<nat>)
    ensures FirstPlaces(api, scan, at, FirstNew(api, scan))
    decreases |scan|
  {
    if scan == [] {
      at := [];
    } else {
      var n := |scan| - 1;
      var before, l := FirstNew(api, scan[..n]), scan[n];
      at := FirstNewIs(api, scan[..n]);
      forall i: nat | i < n ensures LeadsFirst(api, scan[..n], i) <==> LeadsFirst(api, scan, i) {
        LeadsFirstEarlier(api, scan, n, i);
      }
      LastLeads(api, scan);
      if LeadsFirst(api, scan, n) {
        at := at + [n];
      }
    }
  }

  lemma LastLeads(api: Api, scan: seq<Link>)
    requires scan != []
    ensures var n := |scan| - 1;
            LeadsFirst(api, scan, n)
            <==> IsChild(scan[n]) && PathOf(api, scan[n]) !in PathsOf(api, FirstNew(api, scan[..n]))
  {
    var n := |scan| - 1;
    var p := PathOf(api, scan[n]);
    FirstNewPaths(api, scan[..n], p);
    forall j: nat | j < n ensures ChildAt(api, scan[..n], j, p) <==> ChildAt(api, scan, j, p) {
    }
    assert IsChild(scan[n]) <==> ChildAt(api, scan, n, p);
  }

  /** `next` holds, once each, the paths of `targets` that were not seen before. */
  ghost predicate Discovered(targets: set<string>, before: set<string>, next: seq<string>) {
    Distinct(next) && SetOf(next) == targets - before
  }

  /** After n links of a document: the new paths, the links that lead to them, and all paths seen. */
  ghost predicate Expanding(api: Api, links: seq<Link>, n: nat, before: set<string>, targets: set<string>,
                            scan: seq<Link>, prior: seq<Link>,
                            seen: set<string>, next: seq<string>, found: seq<Link>)
    requires n <= |links|
  {
    && Discovered(targets + ChildPaths(api, links, n), before, next)
    && seen == before + SetOf(next) && PathsOf(api, found) == next
    && Scanned(api, scan + links[..n], prior + found, seen)
  }

  lemma SkipLink(api: Api, links: seq<Link>, i: nat, before: set<string>, targets: set<string>, scan: seq<Link>,
                 prior: seq<Link>, seen: set<string>, next: seq<string>, found: seq<Link>)
    requires i < |links| && Expanding(api, links, i, before, targets, scan, prior, seen, next, found)
    requires !IsChild(links[i]) || PathOf(api, links[i]) in seen
    ensures Expanding(api, links, i + 1, before, targets, scan, prior, seen, next, found)
  {
    NextScanned(api, scan, links, i, prior, found, seen);
    NextChild(api, links, i, targets, before, next);
  }

  lemma TakeLink(api: Api, links: seq<Link>, i: nat, before: set<string>, targets: set<string>, scan: seq<Link>,
                 prior: seq<Link>, seen: set<string>, next: seq<string>, found: seq<Link>)
    requires i < |links| && Expanding(api, links, i, before, targets, scan, prior, seen, next, found)
    requires IsChild(links[i]) && PathOf(api, links[i]) !in seen
    ensures var child := PathOf(api, links[i]);
            Expanding(api, links, i + 1, before, targets, scan, prior,
                      seen + {child}, next + [child], found + [links[i]])
  {
    var child := PathOf(api, links[i]);
    NextScanned(api, scan, links, i, prior, found, seen);
    NextChild(api, links, i, targets, before, next);
    SetOfSnoc(next, child);
    PathsAppend(api, found, [links[i]]);
  }

  lemma SetOfSnoc(next: seq<string>, child: string)
    ensures SetOf(next + [child]) == SetOf(next) + {child}
  {
  }

  /** The children of one document that were not seen before join the next level. */
  method ExpandLinks(api: Api, links: seq<Link>,
                     seen0: set<string>, next0: seq<string>, found0: seq<Link>,
                     ghost before: set<string>, ghost targets: set<string>,
                     ghost scan: seq<Link>, ghost prior: seq<Link>)
    returns (seen: set<string>, next: seq<string>, found: seq<Link>)
    requires Expanding(api, links, 0, before, targets, scan, prior, seen0, next0, found0)
    ensures Expanding(api, links, |links|, before, targets, scan, prior, seen, next, found)
  {
    seen, next, found := seen0, next0, found0;
    for i := 0 to |links|
      invariant Expanding(api, links, i, before, targets, scan, prior, seen, next, found)
    {
      var link := links[i];
      if !IsChild(link) {
        SkipLink(api, links, i, before, targets, scan, prior, seen, next, found);
        continue;
      }
      var child := PathOf(api, link);
      if child in seen {
        SkipLink(api, links, i, before, targets, scan, prior, seen, next, found);
        continue;
      }
      TakeLink(api, links, i, before, targets, scan, prior, seen, next, found);
      seen := seen + {child};
      next, found := next + [child], found + [link];
    }
  }

  /** The paths that the child links among the first n lead to. */
  function ChildPaths(api: Api, links: seq<Link>, n: nat): set<string>
    requires n <= |links|
  {
    set i | 0 <= i < n && IsChild(links[i]) :: PathOf(api, links[i])
  }

  lemma AllChildPaths(api: Api, path: string)
    ensures ChildPaths(api, LinksAt(api, path), |LinksAt(api, path)|) == Successors(api, path)
  {
    var links := LinksAt(api, path);
    assert forall l :: l in links <==> exists i :: 0 <= i < |links| && links[i] == l;
  }

  lemma NextChild(api: Api, links: seq<Link>, i: nat, targets: set<string>, before: set<string>, next: seq<string>)
    requires i < |links| && Discovered(targets + ChildPaths(api, links, i), before, next)
    ensures var child := PathOf(api, links[i]);
            Discovered(targets + ChildPaths(api, links, i + 1), before,
                       if IsChild(links[i]) && child !in before + SetOf(next) then next + [child] else next)
  {
    var child := PathOf(api, links[i]);
    assert ChildPaths(api, links, i + 1) == ChildPaths(api, links, i) + if IsChild(links[i]) then {child} else {};
    SetOfSnoc(next, child);
    if IsChild(links[i]) {
      assert targets + ChildPaths(api, links, i + 1) == targets + ChildPaths(api, links, i) + {child};
      DistinctSnoc(next, child);
    }
  }

  lemma NextScanned(api: Api, scan: seq<Link>, links: seq<Link>, i: nat, prior: seq<Link>, found: seq<Link>,
                    seen: set<string>)
    requires i < |links| && Scanned(api, scan + links[..i], prior + found, seen)
    ensures if IsChild(links[i]) && PathOf(api, links[i]) !in seen
            then Scanned(api, scan + links[..i + 1], prior + (found + [links[i]]), seen + {PathOf(api, links[i])})
            else Scanned(api, scan + links[..i + 1], prior + found, seen)
  {
    ScanStep(api, scan + links[..i], prior + found, seen, links[i]);
    assert scan + links[..i] + [links[i]] == scan + links[..i + 1];
    Assoc(prior, found, [links[i]]);
  }

  lemma StartLinks(api: Api, links: seq<Link>, before: set<string>, targets: set<string>, scan: seq<Link>,
                   prior: seq<Link>, seen: set<string>, next: seq<string>, found: seq<Link>)
    requires Discovered(targets, before, next) && seen == before + SetOf(next) && PathsOf(api, found) == next
    requires Scanned(api, scan, prior + found, seen)
    ensures Expanding(api, links, 0, before, targets, scan, prior, seen, next, found)
  {
    assert targets + ChildPaths(api, links, 0) == targets && scan + links[..0] == scan;
  }

  lemma EndLinks(api: Api, path: string, before: set<string>, targets: set<string>, scan: seq<Link>, prior: seq<Link>,
                 seen: set<string>, next: seq<string>, found: seq<Link>)
    requires var links := LinksAt(api, path);
             Expanding(api, links, |links|, before, targets, scan, prior, seen, next, found)
    ensures Discovered(targets + Successors(api, path), before, next)
    ensures seen == before + SetOf(next) && PathsOf(api, found) == next
    ensures Scanned(api, scan + LinksAt(api, path), prior + found, seen)
  {
    AllChildPaths(api, path);
    NoneAndAll(LinksAt(api, path));
  }

  datatype WalkError = RootUnreachable | BrokenDocument(path: string)

  /** Why expanding a path raises, if it does: only the root may not be unreachable, and no document
      may be malformed. */
  function Breaks(api: Api, path: string): Option<WalkError> {
    match api.get(path)
    case Unreachable => if path == api.root then Some(RootUnreachable) else None
    case Malformed => Some(BrokenDocument(path))
    case Document(_) => None
  }

  /** After n documents of a level: the new paths, the links that lead to them, and all paths seen. */
  ghost predicate Opening(api: Api, frontier: seq<string>, n: nat, before: set<string>, scan: seq<Link>,
                            prior: seq<Link>, seen: set<string>, next: seq<string>, found: seq<Link>)
    requires n <= |frontier|
  {
    && Discovered(SuccessorsOf(api, SetOf(frontier[..n])), before, next)
    && seen == before + SetOf(next) && PathsOf(api, found) == next
    && Scanned(api, scan + ScanOf(api, frontier[..n]), prior + found, seen)
  }

  lemma StartLevel(api: Api, frontier: seq<string>, before: set<string>, scan: seq<Link>, prior: seq<Link>)
    requires Scanned(api, scan, prior, before)
    ensures Opening(api, frontier, 0, before, scan, prior, before, [], [])
  {
    assert scan + ScanOf(api, frontier[..0]) == scan && prior + [] == prior;
  }

  lemma StartDocument(api: Api, frontier: seq<string>, i: nat, before: set<string>, scan: seq<Link>, prior: seq<Link>,
                      seen: set<string>, next: seq<string>, found: seq<Link>)
    requires i < |frontier| && Opening(api, frontier, i, before, scan, prior, seen, next, found)
    ensures Expanding(api, LinksAt(api, frontier[i]), 0, before, SuccessorsOf(api, SetOf(frontier[..i])),
                      scan + ScanOf(api, frontier[..i]), prior, seen, next, found)
  {
    StartLinks(api, LinksAt(api, frontier[i]), before, SuccessorsOf(api, SetOf(frontier[..i])),
               scan + ScanOf(api, frontier[..i]), prior, seen, next, found);
  }

  lemma EndDocument(api: Api, frontier: seq<string>, i: nat, before: set<string>, scan: seq<Link>, prior: seq<Link>,
                    seen: set<string>, next: seq<string>, found: seq<Link>)
    requires i < |frontier|
    requires var links := LinksAt(api, frontier[i]);
             Expanding(api, links, |links|, before, SuccessorsOf(api, SetOf(frontier[..i])),
                       scan + ScanOf(api, frontier[..i]), prior, seen, next, found)
    ensures Opening(api, frontier, i + 1, before, scan, prior, seen, next, found)
  {
    EndLinks(api, frontier[i], before, SuccessorsOf(api, SetOf(frontier[..i])), scan + ScanOf(api, frontier[..i]),
             prior, seen, next, found);
    NextScan(api, scan, frontier, i);
    NextTargets(api, frontier, i);
  }

  lemma SkipDocument(api: Api, frontier: seq<string>, i: nat, before: set<string>, scan: seq<Link>, prior: seq<Link>,
                     seen: set<string>, next: seq<string>, found: seq<Link>)
    requires i < |frontier| && Opening(api, frontier, i, before, scan, prior, seen, next, found)
    requires !api.get(frontier[i]).Document?
    ensures Opening(api, frontier, i + 1, before, scan, prior, seen, next, found)
  {
    StartDocument(api, frontier, i, before, scan, prior, seen, next, found);
    EndDocument(api, frontier, i, before, scan, prior, seen, next, found);
  }

  /** One level: all documents of the frontier are expanded, other unreachable ones than the root are
      skipped, and the first path that breaks raises. */
  method ExpandLevel(api: Api, frontier: seq<string>, seen0: set<string>, ghost scan: seq<Link>, ghost prior: seq<Link>)
    returns (error: Option<WalkError>, seen: set<string>, next: seq<string>, found: seq<Link>)
    requires Scanned(api, scan, prior, seen0)
    ensures error.None? ==> Scanned(api, scan + ScanOf(api, frontier), prior + found, seen)
    ensures error.None? ==> forall p <- frontier :: Breaks(api, p).None?
    ensures error.Some? ==> exists p <- frontier :: Breaks(api, p) == error
    ensures error.None? ==> Discovered(SuccessorsOf(api, SetOf(frontier)), seen0, next)
    ensures error.None? ==> seen == seen0 + SetOf(next) && PathsOf(api, found) == next
  {
    error, seen, next, found := None, seen0, [], [];
    StartLevel(api, frontier, seen0, scan, prior);
    for i := 0 to |frontier|
      invariant error.None? && forall j :: 0 <= j < i ==> Breaks(api, frontier[j]).None?
      invariant Opening(api, frontier, i, seen0, scan, prior, seen, next, found)
    {
      var path := frontier[i];
      assert path in frontier;
      match api.get(path)
      case Unreachable =>
        if path == api.root {
          error := Some(RootUnreachable);
          return;
        }
        SkipDocument(api, frontier, i, seen0, scan, prior, seen, next, found);
      case Malformed =>
        error := Some(BrokenDocument(path));
        return;
      case Document(links) =>
        StartDocument(api, frontier, i, seen0, scan, prior, seen, next, found);
        seen, next, found := ExpandLinks(api, links, seen, next, found, seen0, SuccessorsOf(api, SetOf(frontier[..i])),
                                         scan + ScanOf(api, frontier[..i]), prior);
        EndDocument(api, frontier, i, seen0, scan, prior, seen, next, found);
    }
    NoneAndAll(frontier);
  }

  lemma NextScan(api: Api, scan: seq<Link>, frontier: seq<string>, i: nat)
    requires i < |frontier|
    ensures scan + ScanOf(api, frontier[..i + 1])
            == scan + ScanOf(api, frontier[..i]) + LinksAt(api, frontier[i])
    ensures LinksAt(api, frontier[i]) == []
            ==> scan + ScanOf(api, frontier[..i + 1]) == scan + ScanOf(api, frontier[..i])
  {
    OneMore(frontier, i);
    ScanAppend(api, frontier[..i], [frontier[i]]);
    ScanOne(api, frontier[i]);
  }

  lemma NextTargets(api: Api, frontier: seq<string>, i: nat)
    requires i < |frontier|
    ensures SuccessorsOf(api, SetOf(frontier[..i + 1]))
            == SuccessorsOf(api, SetOf(frontier[..i])) + Successors(api, frontier[i])
  {
    assert frontier[..i + 1] == frontier[..i] + [frontier[i]];
    assert SetOf(frontier[..i + 1]) == SetOf(frontier[..i]) + {frontier[i]};
  }

  /** The levels are the layers of the tree, each path once. */
  ghost predicate AreLayers(api: Api, levels: seq<seq<string>>) {
    forall k :: 0 <= k < |levels| ==> Distinct(levels[k]) && SetOf(levels[k]) == Layer(api, k + 1)
  }

  lemma NextLayer(api: Api, levels: seq<seq<string>>, frontier: seq<string>, seen: set<string>, next: seq<string>)
    requires AreLayers(api, levels) && SetOf(frontier) == Layer(api, |levels|) && seen == Reached(api, |levels|)
    requires Discovered(SuccessorsOf(api, SetOf(frontier)), seen, next)
    ensures AreLayers(api, levels + [next])
    ensures SetOf(next) == Layer(api, |levels| + 1) && seen + SetOf(next) == Reached(api, |levels| + 1)
  {
    LayerStep(api, |levels|);
    ReachedStep(api, |levels|);
  }

  lemma StaysEmpty(api: Api, k: nat, n: nat)
    requires Layer(api, k) == {} && k <= n
    ensures Layer(api, n) == {}
  {
    EmptyLayerEnds(api, k, n);
  }

  lemma NoMoreLayers(api: Api, levels: seq<seq<string>>, more: seq<seq<string>>)
    requires levels != [] && AreLayers(api, levels) && levels[|levels| - 1] == []
    requires forall i :: 0 <= i < |more| ==> more[i] == []
    ensures AreLayers(api, levels + more)
  {
    var n, all := |levels|, levels + more;
    assert SetOf(levels[n - 1]) == {} == Layer(api, n);
    forall k | 0 <= k < |all| ensures Distinct(all[k]) && SetOf(all[k]) == Layer(api, k + 1) {
      if k >= n {
        StaysEmpty(api, n, k + 1);
        assert all[k] == more[k - n] == [];
      } else {
        assert all[k] == levels[k];
      }
    }
  }

  lemma NoMorePaths(levels: seq<seq<string>>, more: seq<seq<string>>)
    requires forall i :: 0 <= i < |more| ==> more[i] == []
    ensures Flatten(levels + more) == Flatten(levels)
  {
    FlattenEmpty(levels + more, |levels|);
    assert (levels + more)[..|levels|] == levels;
  }

  // ---------- When the walk raises ----------

  /** No path of the first k layers breaks. */
  ghost predicate Sound(api: Api, k: nat) {
    forall j: nat, p :: j < k && p in Layer(api, j) ==> Breaks(api, p).None?
  }

  /** In the first layer with a path that breaks the walk, one breaks it in this way. */
  ghost predicate BreaksFirst(api: Api, depth: nat, error: WalkError) {
    exists k: nat, p :: k < depth && Sound(api, k) && p in Layer(api, k) && Breaks(api, p) == Some(error)
  }

  /** The root is unreachable, or a path at a distance below the depth answers with a malformed document. */
  ghost predicate WalkRaises(api: Api, depth: nat) {
    api.get(api.root).Unreachable? || exists k: nat, p :: k < depth && p in Layer(api, k) && api.get(p).Malformed?
  }

  /** A single child catalog with null links, at any depth of at least two, makes the whole walk raise. */
  lemma NullLinksOfAChildAbort(api: Api, href: string, depth: nat)
    requires api.get(api.root) == Document([Link("child", href, "")]) && href != ""
    requires api.get(api.relative(href)).Malformed? && depth >= 2
    ensures WalkRaises(api, depth)
  {
    var links := [Link("child", href, "")];
    assert IsChild(links[0]) && PathOf(api, links[0]) == api.relative(href);
    assert links[0] in links && api.relative(href) in Successors(api, api.root);
    assert api.root in Ends(api, 0);
    assert api.relative(href) in Ends(api, 1) && Reached(api, 0) == {};
    assert api.relative(href) in Layer(api, 1);
  }

  lemma NoBreakAfterEmpty(api: Api, n: nat, depth: nat)
    requires Sound(api, n) && Layer(api, n) == {}
    ensures Sound(api, depth)
  {
    forall j: nat, p | j < depth && p in Layer(api, j) ensures Breaks(api, p).None? {
      if j >= n {
        EmptyLayerEnds(api, n, j);
      }
    }
  }

  lemma SoundMeansNoRaise(api: Api, depth: nat)
    requires depth >= 1 && Sound(api, depth)
    ensures !WalkRaises(api, depth)
  {
    var start: nat := 0;
    assert api.root in Layer(api, start) && Breaks(api, api.root).None?;
    forall k: nat, p | k < depth && p in Layer(api, k) ensures !api.get(p).Malformed? {
      assert Breaks(api, p).None?;
    }
  }

  lemma BreakMeansRaise(api: Api, frontier: seq<string>, k: nat, depth: nat, error: WalkError)
    requires SetOf(frontier) == Layer(api, k) && k < depth && Sound(api, k)
    requires exists p <- frontier :: Breaks(api, p) == Some(error)
    ensures WalkRaises(api, depth) && BreaksFirst(api, depth, error)
    ensures error.RootUnreachable? <==> api.get(api.root).Unreachable?
  {
    var p :| p in frontier && Breaks(api, p) == Some(error);
    assert p in Layer(api, k);
    var start: nat := 0;
    assert api.root in Layer(api, start);
    if k == start {
      assert p == api.root;
    } else {
      assert Breaks(api, api.root).None?;
    }
  }

  lemma NextSound(api: Api, frontier: seq<string>, k: nat)
    requires SetOf(frontier) == Layer(api, k) && Sound(api, k)
    requires forall p <- frontier :: Breaks(api, p).None?
    ensures Sound(api, k + 1)
  {
    forall j: nat, p | j < k + 1 && p in Layer(api, j) ensures Breaks(api, p).None? {
      if j == k {
        assert p in SetOf(frontier);
      }
    }
  }

  // ---------- The whole walk ----------

  /** The documents that were expanded to find these levels. */
  function Expanded(api: Api, levels: seq<seq<string>>): seq<string> {
    if levels == [] then [] else [api.root] + Flatten(levels[..|levels| - 1])
  }

  function Standing(api: Api, levels: seq<seq<string>>): seq<string> {
    if levels == [] then [api.root] else levels[|levels| - 1]
  }

  lemma ExpandedNext(api: Api, levels: seq<seq<string>>, next: seq<string>)
    ensures Expanded(api, levels + [next]) == Expanded(api, levels) + Standing(api, levels)
  {
    assert (levels + [next])[..|levels|] == levels;
    if levels != [] {
      var init, last := levels[..|levels| - 1], levels[|levels| - 1];
      assert levels == init + [last];
      FlattenAppend(init, [last]);
      assert Flatten([last]) == last + Flatten<string>([]) == last;
      Assoc([api.root], Flatten(init), last);
    }
  }

  lemma ExpandedPadded(api: Api, levels: seq<seq<string>>, more: seq<seq<string>>)
    requires levels != [] && levels[|levels| - 1] == [] && forall i :: 0 <= i < |more| ==> more[i] == []
    ensures Expanded(api, levels + more) == Expanded(api, levels)
  {
    var n, all := |levels| - 1, levels + more;
    FlattenEmpty(all[..|all| - 1], n);
    assert all[..|all| - 1][..n] == levels[..n];
  }

  /** The walk has done k rounds: it has the first k layers and stands at layer k. */
  ghost predicate Walked(api: Api, k: nat, levels: seq<seq<string>>, frontier: seq<string>,
                         seen: set<string>, catalogs: seq<Link>) {
    && |levels| == k && AreLayers(api, levels) && Sound(api, k)
    && SetOf(frontier) == Layer(api, k) && seen == Reached(api, k)
    && PathsOf(api, catalogs) == Flatten(levels)
    && frontier == Standing(api, levels) && Scanned(api, ScanOf(api, Expanded(api, levels)), catalogs, seen)
  }

  lemma NextRound(api: Api, k: nat, levels: seq<seq<string>>, frontier: seq<string>,
                  seen: set<string>, catalogs: seq<Link>,
                  next: seq<string>, found: seq<Link>)
    requires Walked(api, k, levels, frontier, seen, catalogs)
    requires Scanned(api, ScanOf(api, Expanded(api, levels)) + ScanOf(api, frontier), catalogs + found,
                     seen + SetOf(next))
    requires forall p <- frontier :: Breaks(api, p).None?
    requires Discovered(SuccessorsOf(api, SetOf(frontier)), seen, next) && PathsOf(api, found) == next
    ensures Walked(api, k + 1, levels + [next], next, seen + SetOf(next), catalogs + found)
  {
    NextLayer(api, levels, frontier, seen, next);
    NextSound(api, frontier, k);
    ExpandedNext(api, levels, next);
    ScanAppend(api, Expanded(api, levels), frontier);
    LevelDone(api, catalogs, found, levels, next);
  }

  /** After a round without new paths the walk has all layers. */
  lemma LastRound(api: Api, k: nat, levels: seq<seq<string>>, frontier: seq<string>,
                  seen: set<string>, catalogs: seq<Link>, depth: nat)
    requires Walked(api, k, levels, frontier, seen, catalogs) && 1 <= k <= depth
    requires frontier == [] && levels[k - 1] == []
    ensures Listing(api, depth, levels + seq(depth - k, i => []), catalogs) && !WalkRaises(api, depth)
  {
    var more := seq<seq<string>>(depth - k, i => []);
    ExpandedPadded(api, levels, more);
    assert SetOf(frontier) == {};
    NoMoreLayers(api, levels, more);
    NoMorePaths(levels, more);
    NoBreakAfterEmpty(api, k, depth);
    SoundMeansNoRaise(api, depth);
  }

  /** `all` are the links that lead to a path for the first time, in the order in which the documents are
      expanded, and the paths that they lead to are the layers, one after the other. */
  ghost predicate Listing(api: Api, depth: nat, levels: seq<seq<string>>, all: seq<Link>) {
    && depth >= 1 && |levels| == depth && AreLayers(api, levels) && PathsOf(api, all) == Flatten(levels)
    && all == FirstNew(api, ScanOf(api, [api.root] + Flatten(levels[..depth - 1])))
  }

  lemma WalkIsDone(api: Api, depth: nat, levels: seq<seq<string>>, frontier: seq<string>, seen: set<string>,
                   catalogs: seq<Link>)
    requires depth >= 1 && Walked(api, depth, levels, frontier, seen, catalogs)
    ensures Listing(api, depth, levels, catalogs) && !WalkRaises(api, depth)
  {
    WalkIsListed(api, levels, seen, catalogs);
    SoundMeansNoRaise(api, depth);
  }

  lemma WalkIsListed(api: Api, levels: seq<seq<string>>, seen: set<string>, catalogs: seq<Link>)
    requires levels != [] && AreLayers(api, levels) && PathsOf(api, catalogs) == Flatten(levels)
    requires Scanned(api, ScanOf(api, Expanded(api, levels)), catalogs, seen)
    ensures Listing(api, |levels|, levels, catalogs)
  {
  }

  /** The links found by the walk, level by level; the error of the first path that breaks it.
      `levels` are the paths of the links, one list for each distance. */
  method FindCatalog(api: Api, depth: nat, keep: Option<Link -> bool>)
    returns (r: Result<seq<Link>, WalkError>, ghost all: seq<Link>, ghost levels: seq<seq<string>>)
    requires depth >= 1
    ensures r.Failure? <==> WalkRaises(api, depth)
    ensures r.Failure? ==> BreaksFirst(api, depth, r.error)
    ensures r == Failure(RootUnreachable) <==> api.get(api.root).Unreachable?
    ensures r.Success? ==> r.value == if keep.None? then all else Filter(all, keep.value)
    ensures r.Success? ==> Listing(api, depth, levels, all)
  {
    all, levels := [], [];
    var seen: set<string> := {};
    var frontier := [api.root];
    var catalogs: seq<Link> := [];
    ghost var ended := false;
    for k := 0 to depth
      invariant !ended && Walked(api, k, levels, frontier, seen, catalogs)
    {
      ghost var scan := ScanOf(api, Expanded(api, levels));
      var error, more, next, found := ExpandLevel(api, frontier, seen, scan, catalogs);
      if error.Some? {
        BreakMeansRaise(api, frontier, k, depth, error.value);
        return Failure(error.value), all, levels;
      }
      NextRound(api, k, levels, frontier, seen, catalogs, next, found);
      catalogs, levels, frontier, seen := catalogs + found, levels + [next], next, more;
      if next == [] {
        LastRound(api, k + 1, levels, frontier, seen, catalogs, depth);
        levels, ended := levels + seq(depth - k - 1, i => []), true;
        break;
      }
    }
    if !ended {
      WalkIsDone(api, depth, levels, frontier, seen, catalogs);
    }
    all := catalogs;
    r := Success(if keep.None? then catalogs else Filter(catalogs, keep.value));
  }

  lemma PathsAppend(api: Api, a: seq<Link>, b: seq<Link>)
    ensures PathsOf(api, a + b) == PathsOf(api, a) + PathsOf(api, b)
  {
  }

  lemma LevelDone(api: Api, catalogs: seq<Link>, found: seq<Link>, levels: seq<seq<string>>, next: seq<string>)
    requires PathsOf(api, catalogs) == Flatten(levels) && PathsOf(api, found) == next
    ensures PathsOf(api, catalogs + found) == Flatten(levels + [next])
  {
    FlattenAppend(levels, [next]);
    assert Flatten([next]) == next + Flatten<string>([]) == next;
    PathsAppend(api, catalogs, found);
  }

  lemma {:induction false} FlattenEmpty(levels: seq<seq<string>>, n: nat)
    requires n <= |levels| && forall i :: n <= i < |levels| ==> levels[i] == []
    ensures Flatten(levels) == Flatten(levels[..n])
    decreases |levels| - n
  {
    if n < |levels| {
      FlattenEmpty(levels, n + 1);
      assert levels[..n + 1] == levels[..n] + [levels[n]];
      FlattenAppend(levels[..n], [levels[n]]);
      assert Flatten([levels[n]]) == levels[n] + Flatten<string>([]) == [];
    } else {
      assert levels[..n] == levels;
    }
  }

  /** The walk lists each path at distance one to `depth` exactly once, and nothing else. */
  lemma WalkListsEachPathOnce(api: Api, depth: nat, levels: seq<seq<string>>, p: string)
    requires |levels| == depth && AreLayers(api, levels)
    ensures p in Flatten(levels) <==> exists k: nat :: 1 <= k <= depth && Distance(api, p, k)
    ensures Distinct(Flatten(levels))
  {
    FlattenMember(levels, p);
    if k :| 0 <= k < |levels| && p in levels[k] {
      assert p in SetOf(levels[k]);
      LayerIsDistance(api, k + 1, p);
    }
    if k: nat :| 1 <= k <= depth && Distance(api, p, k) {
      LayerIsDistance(api, k, p);
      assert p in SetOf(levels[k - 1]);
    }
    LayersDistinct(api, levels);
  }

  lemma {:induction false} LayersDistinct(api: Api, levels: seq<seq<string>>)
    requires AreLayers(api, levels)
    ensures Distinct(Flatten(levels))
    decreases |levels|
  {
    if levels != [] {
      var n := |levels| - 1;
      LayersDistinct(api, levels[..n]);
      assert levels == levels[..n] + [levels[n]];
      FlattenAppend(levels[..n], [levels[n]]);
      assert Flatten([levels[n]]) == levels[n] + Flatten<string>([]) == levels[n];
      var before := Flatten(levels[..n]);
      forall p | p in before ensures p !in levels[n] {
        FlattenMember(levels[..n], p);
        var k :| 0 <= k < n && p in levels[..n][k];
        assert p in SetOf(levels[k]) && p in Ends(api, k + 1);
        assert EndsWithin(api, n, p);
        ReachedMember(api, n, p);
        assert p !in SetOf(levels[n]);
      }
      DistinctAppend(before, levels[n]);
    }
  }
}
