/** The two summaries of a validation run agree when every yielded object has its own URL. */
module ReportAgreement {
  import opened Wrappers
  import opened Sequences
  import opened StacObjects
  import opened StacTraversal
  import opened StacCollector
  import opened GraphWalk
  import opened ReportGraph
  import opened ValidationReport

  // ---------- A walk that visits every node once gathers everything once ----------

  lemma {:induction false} GatherWithout<T>(lists: seq<seq<T>>, at: seq<nat>, x: nat)
    requires x < |lists| && Occurs(at, x) <= 1
    ensures multiset(Gather(lists, at))
            == multiset(Gather(lists, Without(at, x))) + if x in at then multiset(lists[x]) else multiset{}
    decreases |at|
  {
    if at != [] {
      if at[0] == x {
        assert Without(at, x) == Without(at[1..], x);
        AbsentWithout(at[1..], x);
      } else {
        GatherWithout(lists, at[1..], x);
        assert Without(at, x)[0] == at[0] && Without(at, x)[1..] == Without(at[1..], x);
      }
    }
  }

  lemma {:induction false} AbsentWithout(at: seq<nat>, x: nat)
    requires Occurs(at, x) == 0
    ensures Without(at, x) == at && x !in at
  {
    if at != [] {
      AbsentWithout(at[1..], x);
    }
  }

  lemma {:induction false} GatherPrefix<T>(lists: seq<seq<T>>, last: seq<T>, at: seq<nat>)
    requires |lists| !in at && forall i :: 0 <= i < |at| ==> at[i] < |lists|
    ensures Gather(lists + [last], at) == Gather(lists, at)
    decreases |at|
  {
    if at != [] {
      GatherPrefix(lists, last, at[1..]);
    }
  }

  lemma {:induction false} GatherEverything<T>(lists: seq<seq<T>>, at: seq<nat>)
    requires forall x: nat :: Occurs(at, x) == if x < |lists| then 1 else 0
    ensures multiset(Gather(lists, at)) == multiset(Flatten(lists))
    decreases |lists|
  {
    if lists == [] {
      HeadOccurs(at);
      assert at == [];
    } else {
      var n := |lists| - 1;
      var rest := Without(at, n);
      OccursIfIn(at, n);
      GatherWithout(lists, at, n);
      forall x: nat ensures Occurs(rest, x) == if x < n then 1 else 0 {
        OccursWithout(at, n, x);
      }
      forall i | 0 <= i < |rest| ensures rest[i] < n {
        OccursIfIn(rest, rest[i]);
      }
      assert lists == lists[..n] + [lists[n]];
      GatherPrefix(lists[..n], lists[n], rest);
      GatherEverything(lists[..n], rest);
      FlattenLast(lists);
    }
  }

  // ---------- Counts depend on the contents only ----------

  lemma TakeOut<T>(b: seq<T>, j: nat, p: T -> bool)
    requires j < |b|
    ensures var rest := b[..j] + b[j + 1..];
            && multiset(b) == multiset{b[j]} + multiset(rest)
            && CountIf(b, p) == CountIf(rest, p) + (if p(b[j]) then 1 else 0)
  {
    var tail := [b[j]] + b[j + 1..];
    assert b == b[..j] + tail;
    CountIfAppend(b[..j], tail, p);
    CountIfAppend(b[..j], b[j + 1..], p);
    assert tail[1..] == b[j + 1..];
  }

  lemma {:induction false} CountIfBag<T>(a: seq<T>, b: seq<T>, p: T -> bool)
    requires multiset(a) == multiset(b)
    ensures CountIf(a, p) == CountIf(b, p)
    decreases |a|
  {
    assert |a| == |multiset(a)| && |b| == |multiset(b)|;
    if a != [] {
      assert a == [a[0]] + a[1..];
      assert multiset(a) == multiset{a[0]} + multiset(a[1..]);
      assert a[0] in multiset(b);
      var j :| 0 <= j < |b| && b[j] == a[0];
      TakeOut(b, j, p);
      assert multiset(a[1..]) == multiset(a) - multiset{a[0]} == multiset(b[..j] + b[j + 1..]);
      CountIfBag(a[1..], b[..j] + b[j + 1..], p);
    }
  }

  lemma BagSize<T>(a: seq<T>, b: seq<T>)
    requires multiset(a) == multiset(b)
    ensures |a| == |b|
  {
    assert |a| == |multiset(a)| && |b| == |multiset(b)|;
  }

  // ---------- Per-type and per-rule figures add up ----------

  lemma {:induction false} TypeTotalsAddUp(fs: seq<Finding>)
    ensures TypesAddUp(fs)
  {
    if fs != [] {
      TypeTotalsAddUp(fs[1..]);
    }
  }

  ghost function SumOf(m: map<string, nat>): nat {
    if m == map[] then 0 else var k :| k in m; m[k] + SumOf(m - {k})
  }

  function OtherRules(issues: seq<Issue>, rule: string): seq<Issue> {
    if issues == [] then []
    else if issues[0].rule == rule then OtherRules(issues[1..], rule)
    else [issues[0]] + OtherRules(issues[1..], rule)
  }

  lemma {:induction false} OtherRulesCount(issues: seq<Issue>, rule: string, r: string)
    ensures OfRule(OtherRules(issues, rule), r) == if r == rule then 0 else OfRule(issues, r)
    ensures |issues| == OfRule(issues, rule) + |OtherRules(issues, rule)|
  {
    if issues != [] {
      OtherRulesCount(issues[1..], rule, r);
      if issues[0].rule != rule {
        assert OtherRules(issues, rule)[0] == issues[0]
            && OtherRules(issues, rule)[1..] == OtherRules(issues[1..], rule);
      }
    }
  }

  lemma FirstRuleCounts(errors: seq<Issue>)
    ensures errors == [] || OfRule(errors, errors[0].rule) > 0
  {
  }

  /** An exact table of rule counts sums to the number of errors. */
  lemma {:induction false} RuleCountsAddUp(byRule: map<string, nat>, errors: seq<Issue>)
    requires ExactRules(byRule, errors)
    ensures SumOf(byRule) == |errors|
    decreases |byRule|
  {
    if byRule == map[] {
      FirstRuleCounts(errors);
    } else {
      var k :| k in byRule && SumOf(byRule) == byRule[k] + SumOf(byRule - {k});
      forall r: string ensures OfRule(OtherRules(errors, k), r) == if r == k then 0 else OfRule(errors, r) {
        OtherRulesCount(errors, k, r);
      }
      OtherRulesCount(errors, k, k);
      RuleCountsAddUp(byRule - {k}, OtherRules(errors, k));
    }
  }

  // ---------- A node is valid exactly when it carries no error ----------

  ghost predicate Honest(fs: seq<Finding>) {
    forall k :: 0 <= k < |fs| ==> (fs[k].valid <==> IssuesAt(fs[k].issues, Error) == [])
  }

  lemma ReportedIsHonest(judge: CollectedObject -> seq<Issue>, batches: seq<seq<CollectedObject>>, maxObjects: int)
    ensures Honest(Reported(judge, batches, maxObjects))
  {
    var fs, root := Findings(judge, Flatten(batches)), RootOf(batches);
    assert Honest(fs);
    if root.Some? && root.value < |fs| {
      var f := fs[root.value];
      IssuesAtSnoc(f.issues, Issue(Warning, f.objType, f.url, "traversal_limit"), Error);
    }
  }

  lemma {:induction false} AllValidIffNoErrors(fs: seq<Finding>)
    requires Honest(fs)
    ensures CountIf(fs, (f: Finding) => f.valid) <= |fs|
    ensures CountIf(fs, (f: Finding) => f.valid) == |fs| <==> AllAt(fs, Error) == []
  {
    if fs != [] {
      AllValidIffNoErrors(fs[1..]);
      assert Lists(fs, Error) == [IssuesAt(fs[0].issues, Error)] + Lists(fs[1..], Error);
    }
  }

  // ---------- The agreement ----------

  lemma StoredIsEverything(g: Graph, objs: seq<CollectedObject>, fs: seq<Finding>)
    requires Faithful(g.owner, g.order, objs) && |fs| == |objs|
    ensures Stored(g, fs) == fs
  {
  }

  lemma {:induction false} RootStays(root: CollectedObject, maxDepth: nat, later: seq<seq<CollectedObject>>)
    requires root.parentUrl.None? && root.depth == 0 && WellFounded([root], maxDepth, later)
    ensures RootOf([[root]] + later) == Some(0)
    decreases |later|
  {
    var all := [[root]] + later;
    BuildIsGraphAfter(root, later);
    if later == [] {
      assert [root][1..] == [];
      assert all[..0] == [] && all[0] == [root];
      assert Store(EmptyGraph, [root]) == Store(StoreOne(EmptyGraph, root), []);
    } else {
      var n := |later| - 1;
      assert all[..|all| - 1] == [[root]] + later[..n] && all[|all| - 1] == later[n];
      WellFoundedPrefix([root], maxDepth, later);
      RootStays(root, maxDepth, later[..n]);
      FirstTopIsThere(later[n]);
      forall o | o in later[n] ensures o.depth >= 1 {
        assert Anchored([root] + Flatten(later[..n]), o.depth, o.parentUrl);
      }
      NoTopBelow(later[n]);
    }
  }

  lemma {:induction false} NoTopBelow(batch: seq<CollectedObject>)
    requires forall o <- batch :: o.depth >= 1
    ensures FirstTop(batch).None?
  {
    if batch != [] {
      NoTopBelow(batch[1..]);
    }
  }

  /** The totals of the five types. */
  ghost predicate TypesAddUp(fs: seq<Finding>) {
    OfType(fs, Catalog).total + OfType(fs, Collection).total + OfType(fs, Item).total
    + OfType(fs, ItemCollection).total + OfType(fs, Unknown).total == |fs|
  }

  /** The recursive and the flat figures of a response are both those of the findings. */
  ghost predicate Agrees(response: Response, fs: seq<Finding>) {
    && Summarises(response.summary, fs) && TypesAddUp(fs)
    && response.total == response.summary.total == |fs|
    && multiset(response.errors) == multiset(AllAt(fs, Error))
    && multiset(response.warnings) == multiset(AllAt(fs, Warning))
    && |response.errors| == response.summary.errorCount
    && |response.warnings| == response.summary.warningCount
    && (response.valid <==> response.summary.invalid == 0)
    && ExactRules(response.summary.errorsByRule, response.errors)
    && SumOf(response.summary.errorsByRule) == |response.errors|
  }

  /** A walk that visits each of the nodes once makes the figures of a response agree. */
  lemma OneVisitEachAgrees(g: Graph, fs: seq<Finding>, response: Response, limit: nat)
    requires Reports(response, g, fs, 0, limit) && Stored(g, fs) == fs && Honest(fs)
    requires forall x: nat :: Occurs(Walk(g.kids, 0, limit), x) == if x < |fs| then 1 else 0
    ensures Agrees(response, fs)
  {
    var walk := Walk(g.kids, 0, limit);
    SizeByOccurrences(walk, |fs|);
    GatherEverything(Lists(fs, Error), walk);
    GatherEverything(Lists(fs, Warning), walk);
    BagSize(response.errors, AllAt(fs, Error));
    BagSize(response.warnings, AllAt(fs, Warning));
    forall r: string ensures OfRule(response.errors, r) == OfRule(AllAt(fs, Error), r) {
      CountIfBag(response.errors, AllAt(fs, Error), (i: Issue) => i.rule == r);
    }
    RuleCountsAddUp(response.summary.errorsByRule, AllAt(fs, Error));
    AllValidIffNoErrors(fs);
    TypeTotalsAddUp(fs);
  }

  lemma DistinctUrlsMakeSummariesAgree(judge: CollectedObject -> seq<Issue>, root: CollectedObject, maxDepth: nat,
                                       later: seq<seq<CollectedObject>>, maxObjects: int, response: Response,
                                       limit: nat)
    requires root.parentUrl.None? && WellFounded([root], maxDepth, later)
    requires DistinctObjects(ObjectsAfter(root, later))
    requires Reports(response, Build([[root]] + later), Reported(judge, [[root]] + later, maxObjects), 0, limit)
    ensures Agrees(response, Reported(judge, [[root]] + later, maxObjects))
  {
    var batches, fs := [[root]] + later, Reported(judge, [[root]] + later, maxObjects);
    BuildIsGraphAfter(root, later);
    var g := GraphAfter(root, later);
    DistinctUrlsGiveATree(root, maxDepth, later);
    assert Flatten(batches) == ObjectsAfter(root, later);
    StoredIsEverything(g, Flatten(batches), fs);
    ReportedIsHonest(judge, batches, maxObjects);
    SameWalk(g.kids, |g.kids|, limit);
    OneVisitEachAgrees(g, fs, response, limit);
  }

  lemma SameWalk(kids: seq<seq<nat>>, n: nat, m: nat)
    requires Deep(kids, 0, n) && Deep(kids, 0, m)
    ensures Walk(kids, 0, n) == Walk(kids, 0, m)
  {
    if n <= m {
      DeepMore(kids, 0, n, m);
    } else {
      DeepMore(kids, 0, m, n);
    }
  }

  /** With different URLs the recursion needs one level for each level of the tree. */
  lemma DistinctUrlsNestByDepth(root: CollectedObject, maxDepth: nat, later: seq<seq<CollectedObject>>, limit: nat)
    requires root.parentUrl.None? && root.depth == 0 && WellFounded([root], maxDepth, later)
    requires DistinctObjects(ObjectsAfter(root, later)) && limit > maxDepth
    ensures Deep(Build([[root]] + later).kids, 0, limit)
  {
    BuildIsGraphAfter(root, later);
    DistinctUrlsGiveLevels(root, maxDepth, later);
    DepthsAreBounded(root, maxDepth, later);
    var kids, objs := GraphAfter(root, later).kids, ObjectsAfter(root, later);
    LevelsBoundTheWalk(kids, objs, maxDepth, 0, maxDepth + 1);
    DeepMore(kids, 0, maxDepth + 1, limit);
  }

  lemma DepthsAreBounded(root: CollectedObject, maxDepth: nat, later: seq<seq<CollectedObject>>)
    requires root.depth == 0 && WellFounded([root], maxDepth, later)
    ensures forall o <- ObjectsAfter(root, later) :: o.depth <= maxDepth
  {
    forall o | o in Flatten(later) ensures o.depth <= maxDepth {
      FlattenMember(later, o);
      var i :| 0 <= i < |later| && o in later[i];
    }
  }

  // ---------- The batches leave no trace in the response ----------

  lemma {:induction false} OutdatedAppend(latest: string, a: seq<CollectedObject>, b: seq<CollectedObject>)
    ensures Outdated(latest, a + b) == if Outdated(latest, a).Some? then Outdated(latest, a) else Outdated(latest, b)
  {
    if a == [] {
      assert a + b == b;
    } else {
      OutdatedAppend(latest, a[1..], b);
      assert (a + b)[0] == a[0] && (a + b)[1..] == a[1..] + b;
    }
  }

  /** Why a run over the objects of the root and of the search is rejected, if it is: a bad root,
      else the first outdated object. */
  function Verdict(latest: string, first: seq<CollectedObject>, rest: seq<CollectedObject>): Option<Rejection> {
    if first == [] then Some(NoRootObject)
    else if first[0].fetchError then Some(RootFetchFailed)
    else Outdated(latest, first + rest)
  }

  /** The verdict depends on the yielded objects alone, not on how they were batched. */
  lemma {:induction false} RejectionIgnoresBatching(latest: string, first: seq<CollectedObject>,
                                                    later: seq<seq<CollectedObject>>)
    ensures Rejected(latest, [first] + later) == Verdict(latest, first, Flatten(later))
    decreases |later|
  {
    var all := [first] + later;
    if later == [] {
      assert all[..0] == [] && all[0] == first && first + [] == first;
    } else {
      var n := |later| - 1;
      assert all[..n + 1] == [first] + later[..n] && all[n + 1] == later[n];
      RejectionIgnoresBatching(latest, first, later[..n]);
      FlattenLast(later);
      Assoc(first, Flatten(later[..n]), later[n]);
      OutdatedAppend(latest, first + Flatten(later[..n]), later[n]);
    }
  }

  lemma {:induction false} OutdatedIsAVersion(latest: string, objs: seq<CollectedObject>)
    ensures Outdated(latest, objs).Some? ==> Outdated(latest, objs).value.VersionMismatch?
  {
    if objs != [] {
      OutdatedIsAVersion(latest, objs[1..]);
    }
  }

  /** Whatever follows, a run is rejected for a missing root exactly when its first batch is empty. */
  lemma NoRootIff(latest: string, first: seq<CollectedObject>, later: seq<seq<CollectedObject>>)
    ensures Rejected(latest, [first] + later) == Some(NoRootObject) <==> first == []
  {
    RejectionIgnoresBatching(latest, first, later);
    OutdatedIsAVersion(latest, first + Flatten(later));
  }

  /** A verdict over a beginning of the objects is the verdict over all of them. */
  lemma VerdictIsEarly(latest: string, first: seq<CollectedObject>, rest: seq<CollectedObject>,
                       all: seq<CollectedObject>)
    requires rest <= all && Verdict(latest, first, rest).Some?
    ensures Verdict(latest, first, all) == Verdict(latest, first, rest)
  {
    var more := all[|rest|..];
    assert all == rest + more;
    Assoc(first, rest, more);
    OutdatedAppend(latest, first + rest, more);
  }

  /** The findings of the yielded objects, with the limit warning on the root when the cap is reached. */
  function Expected(judge: CollectedObject -> seq<Issue>, objs: seq<CollectedObject>, maxObjects: int): seq<Finding> {
    var fs := Findings(judge, objs);
    if fs != [] && |objs| >= maxObjects then Limited(fs, 0) else fs
  }

  lemma ReportedIsExpected(judge: CollectedObject -> seq<Issue>, root: CollectedObject, maxDepth: nat,
                           later: seq<seq<CollectedObject>>, maxObjects: int)
    requires root.parentUrl.None? && root.depth == 0 && WellFounded([root], maxDepth, later)
    requires DistinctObjects(ObjectsAfter(root, later))
    ensures Reported(judge, [[root]] + later, maxObjects) == Expected(judge, ObjectsAfter(root, later), maxObjects)
  {
    BuildIsGraphAfter(root, later);
    DistinctUrlsGiveATree(root, maxDepth, later);
    RootStays(root, maxDepth, later);
    assert Flatten([[root]] + later) == ObjectsAfter(root, later);
  }
}
