/** The whole validation feature: collect the tree, check it, and say what is in it. */
module StacValidation {
  import opened Wrappers
  import opened Sequences
  import opened StacObjects
  import opened StacTraversal
  import opened StacDiscovery
  import opened StacCollector
  import opened GraphWalk
  import opened ReportGraph
  import opened ReportTree
  import opened ValidationReport
  import opened ReportAgreement
  import opened ReportContents

  // ---------- Rejections ----------

  /** The root cannot be read, or is an items page whose first feature is not an object. */
  ghost predicate RootFails(net: Net, url: Url) {
    match net.read(url)
    case Parsed(data) =>
      && data.collections.None? && data.kind == "FeatureCollection" && GetOr(data.features, []) != []
      && data.features.value[0].None? && !PageRaises(net, url)
    case _ => true
  }

  lemma RootFailsIff(net: Net, rootUrl: Url)
    ensures var got := FetchObjects(net, RootEntry(rootUrl));
            !got.raised && got.objs != [] && got.objs[0].fetchError <==> RootFails(net, rootUrl)
  {
    FetchRaisesIff(net, RootEntry(rootUrl));
    if !PageRaises(net, rootUrl) {
      FetchIs(net, RootEntry(rootUrl));
    }
  }

  /** The object declares a version other than the latest. */
  predicate Lags(latest: string, o: CollectedObject) {
    o.data.Some? && o.data.value.stacVersion.Some? && o.data.value.stacVersion.value != latest
  }

  /** The version gate stops at the first object that declares another version, and at nothing else. */
  lemma {:induction false} OutdatedIs(latest: string, objs: seq<CollectedObject>)
    ensures Outdated(latest, objs).None? <==> forall o <- objs :: !Lags(latest, o)
    ensures Outdated(latest, objs).Some? ==>
              exists i: nat ::
                && i < |objs| && Lags(latest, objs[i]) && (forall k :: 0 <= k < i ==> !Lags(latest, objs[k]))
                && Outdated(latest, objs) == Some(VersionMismatch(objs[i].url, objs[i].data.value.stacVersion.value))
  {
    if objs != [] && !Lags(latest, objs[0]) {
      var rest := objs[1..];
      OutdatedIs(latest, rest);
      assert objs == [objs[0]] + rest;
      if Outdated(latest, rest).Some? {
        var i: nat :| i < |rest| && Lags(latest, rest[i]) && (forall k :: 0 <= k < i ==> !Lags(latest, rest[k]))
          && Outdated(latest, rest) == Some(VersionMismatch(rest[i].url, rest[i].data.value.stacVersion.value));
        forall k | 0 <= k < i + 1 ensures !Lags(latest, objs[k]) {
          assert k > 0 ==> objs[k] == rest[k - 1];
        }
        assert objs[i + 1] == rest[i];
      }
    }
  }

  // ---------- The finished tree ----------

  /** The issues on an object's node: those that it gives, and on the first the warning at the cap. */
  ghost predicate HoldsIssues(node: TreeNode, judge: CollectedObject -> seq<Issue>, o: CollectedObject, warned: bool)
    reads node
  {
    node.issues
    == (if o.fetchError then [Issue(Error, Unknown, o.url, "fetch-error")] else judge(o))
      + (if warned then [Issue(Warning, TypeShown(o), o.url, "traversal_limit")] else [])
  }

  /** One node for each object, in order, and below each node the nodes of the objects that name its
      URL as their parent's. */
  ghost predicate TreeShows(nodes: seq<TreeNode>, judge: CollectedObject -> seq<Issue>, objs: seq<CollectedObject>,
                            maxObjects: int)
    reads nodes
  {
    && |nodes| == |objs|
    && (forall k :: 0 <= k < |nodes| ==>
          && nodes[k].url == objs[k].url && nodes[k].objType == TypeShown(objs[k])
          && (nodes[k].objectIsValid <==> Clean(judge, objs[k]))
          && HoldsIssues(nodes[k], judge, objs[k], k == 0 && |objs| >= maxObjects))
    && exists kids :: ChildrenAmong(kids, objs, |objs|) && Mirrors(nodes, kids)
  }

  lemma FindingsAreShown(nodes: seq<TreeNode>, judge: CollectedObject -> seq<Issue>, objs: seq<CollectedObject>,
                         maxObjects: int, kids: seq<seq<nat>>)
    requires Shows(nodes, Expected(judge, objs, maxObjects)) && Mirrors(nodes, kids)
            && ChildrenAmong(kids, objs, |objs|)
    ensures TreeShows(nodes, judge, objs, maxObjects)
  {
    var fs := Expected(judge, objs, maxObjects);
    ExpectedShows(judge, objs, maxObjects);
    forall k | 0 <= k < |nodes|
      ensures nodes[k].url == objs[k].url && nodes[k].objType == TypeShown(objs[k])
      ensures nodes[k].objectIsValid <==> Clean(judge, objs[k])
      ensures HoldsIssues(nodes[k], judge, objs[k], k == 0 && |objs| >= maxObjects)
    {
      assert View(nodes[k]) == fs[k];
      assert fs[k].issues + [] == fs[k].issues;
    }
  }

  /** A run over a single root whose objects have different URLs builds exactly the tree of its objects. */
  lemma TreeOfDistinctUrls(judge: CollectedObject -> seq<Issue>, root: CollectedObject, maxDepth: nat,
                           later: seq<seq<CollectedObject>>, maxObjects: int, response: Response, nodes: seq<TreeNode>)
    requires root.parentUrl.None? && root.depth == 0 && WellFounded([root], maxDepth, later)
    requires DistinctObjects(ObjectsAfter(root, later))
    requires Built(response, judge, [[root]] + later, maxObjects, nodes)
    ensures TreeShows(nodes, judge, ObjectsAfter(root, later), maxObjects) && response.root == nodes[0]
  {
    RootStays(root, maxDepth, later);
    BuildIsGraphAfter(root, later);
    ReportedIsExpected(judge, root, maxDepth, later, maxObjects);
    ChildrenAreExact(root, maxDepth, later);
    FindingsAreShown(nodes, judge, ObjectsAfter(root, later), maxObjects, GraphAfter(root, later).kids);
  }

  // ---------- The whole feature ----------

  /** What the collector yields: the objects of the root, then those of the search. */
  function YieldedObjects(net: Net, rootUrl: Url, maxDepth: nat, collectChildren: bool,
                          maxObjects: int): seq<CollectedObject> {
    var got := FetchObjects(net, RootEntry(rootUrl));
    got.objs + Outcome(TreePlan(net, rootUrl, maxDepth, collectChildren, maxObjects, got))
  }

  /** Every URL that the run yields stands for one object, and the root answers with one object. */
  ghost predicate OneObjectPerUrl(net: Net, rootUrl: Url, maxDepth: nat, collectChildren: bool, maxObjects: int) {
    |FetchObjects(net, RootEntry(rootUrl)).objs| == 1
        && DistinctObjects(YieldedObjects(net, rootUrl, maxDepth, collectChildren, maxObjects))
  }

  /** Below the cap, an accepted run over a single root reports its findings along its graph. */
  lemma AnswerBelowCap(judge: CollectedObject -> seq<Issue>, latest: string, root: CollectedObject, maxDepth: nat,
                       later: seq<seq<CollectedObject>>, maxObjects: int, limit: nat, r: Result<Response, Rejection>)
    requires root.parentUrl.None? && root.depth == 0 && WellFounded([root], maxDepth, later)
    requires |GraphAfter(root, later).order| < maxObjects
    requires Answers(r, judge, latest, [[root]] + later, maxObjects, limit) && Rejected(latest, [[root]] + later).None?
    ensures var g := GraphAfter(root, later);
            if Deep(g.kids, 0, limit)
            then r.Success? && Reports(r.value, g, Findings(judge, ObjectsAfter(root, later)), 0, limit)
            else r == Failure(TooDeep)
  {
    RootStays(root, maxDepth, later);
    BuildIsGraphAfter(root, later);
    assert Flatten([[root]] + later) == ObjectsAfter(root, later);
  }

  lemma AnswerOfDistinctUrls(judge: CollectedObject -> seq<Issue>, latest: string, root: CollectedObject,
                             maxDepth: nat, later: seq<seq<CollectedObject>>, maxObjects: int,
                             limit: nat, r: Result<Response, Rejection>)
    requires root.parentUrl.None? && root.depth == 0 && WellFounded([root], maxDepth, later)
    requires DistinctObjects(ObjectsAfter(root, later)) && limit > maxDepth
    requires Answers(r, judge, latest, [[root]] + later, maxObjects, limit) && Rejected(latest, [[root]] + later).None?
    ensures r.Success? && Agrees(r.value, Expected(judge, ObjectsAfter(root, later), maxObjects))
  {
    RootStays(root, maxDepth, later);
    DistinctUrlsNestByDepth(root, maxDepth, later, limit);
    DistinctUrlsMakeSummariesAgree(judge, root, maxDepth, later, maxObjects, r.value, limit);
    ReportedIsExpected(judge, root, maxDepth, later, maxObjects);
  }

  /** The rejection of the collected batches is the verdict over the tree, found early or at the end. */
  lemma RejectionIsTheVerdict(latest: string, net: Net, rootUrl: Url, maxDepth: nat, collectChildren: bool,
                              maxObjects: int, room: int, batches: seq<seq<CollectedObject>>, raised: bool)
    requires Collected(batches, raised, net, rootUrl, maxDepth, collectChildren, maxObjects, room)
    ensures var got := FetchObjects(net, RootEntry(rootUrl));
            var verdict := Verdict(latest, got.objs,
                                   Outcome(TreePlan(net, rootUrl, maxDepth, collectChildren, maxObjects, got)));
            && (Rejected(latest, batches).Some? ==> Rejected(latest, batches) == verdict)
            && (!raised ==> Rejected(latest, batches) == verdict)
    ensures Rejected(latest, batches) == Some(NoRootObject) <==> HoldsNothing(net, rootUrl)
    ensures Rejected(latest, batches) == Some(RootFetchFailed) <==> RootFails(net, rootUrl)
  {
    var got := FetchObjects(net, RootEntry(rootUrl));
    RootIsEmptyIff(net, rootUrl);
    RootFailsIff(net, rootUrl);
    if !got.raised {
      var later := batches[1..];
      var all := Outcome(TreePlan(net, rootUrl, maxDepth, collectChildren, maxObjects, got));
      assert batches == [got.objs] + later;
      RejectionIgnoresBatching(latest, got.objs, later);
      NoRootIff(latest, got.objs, later);
      OutdatedIsAVersion(latest, got.objs + Flatten(later));
      if Rejected(latest, batches).Some? {
        VerdictIsEarly(latest, got.objs, Flatten(later), all);
      }
    }
  }

  lemma OneObjectPerUrlAgrees(judge: CollectedObject -> seq<Issue>, latest: string, net: Net, rootUrl: Url,
                              maxDepth: nat, collectChildren: bool, maxObjects: int,
                              room: int, limit: nat, batches: seq<seq<CollectedObject>>, r: Result<Response, Rejection>)
    requires Collected(batches, false, net, rootUrl, maxDepth, collectChildren, maxObjects, room)
    requires OneObjectPerUrl(net, rootUrl, maxDepth, collectChildren, maxObjects) && limit > maxDepth
    requires Answers(r, judge, latest, batches, maxObjects, limit) && Rejected(latest, batches).None?
    ensures r.Success?
            && Agrees(r.value,
                      Expected(judge, YieldedObjects(net, rootUrl, maxDepth, collectChildren, maxObjects), maxObjects))
            && Says(r.value, judge, YieldedObjects(net, rootUrl, maxDepth, collectChildren, maxObjects), maxObjects)
  {
    var root, later := SingleRoot(net, rootUrl, maxDepth, collectChildren, maxObjects, room, batches);
    AnswerOfDistinctUrls(judge, latest, root, maxDepth, later, maxObjects, limit, r);
    AgreementSays(r.value, judge, ObjectsAfter(root, later), maxObjects);
  }

  lemma OneObjectPerUrlTree(judge: CollectedObject -> seq<Issue>, net: Net, rootUrl: Url, maxDepth: nat,
                            collectChildren: bool, maxObjects: int, room: int, batches: seq<seq<CollectedObject>>,
                            response: Response, nodes: seq<TreeNode>)
    requires Collected(batches, false, net, rootUrl, maxDepth, collectChildren, maxObjects, room)
    requires OneObjectPerUrl(net, rootUrl, maxDepth, collectChildren, maxObjects)
    requires Built(response, judge, batches, maxObjects, nodes)
    ensures TreeShows(nodes, judge, YieldedObjects(net, rootUrl, maxDepth, collectChildren, maxObjects), maxObjects)
    ensures response.root == nodes[0]
  {
    var root, later := SingleRoot(net, rootUrl, maxDepth, collectChildren, maxObjects, room, batches);
    TreeOfDistinctUrls(judge, root, maxDepth, later, maxObjects, response, nodes);
  }

  lemma SingleRoot(net: Net, rootUrl: Url, maxDepth: nat, collectChildren: bool, maxObjects: int, room: int,
                   batches: seq<seq<CollectedObject>>)
    returns (root: CollectedObject, later: seq<seq<CollectedObject>>)
    requires Collected(batches, false, net, rootUrl, maxDepth, collectChildren, maxObjects, room)
    requires |FetchObjects(net, RootEntry(rootUrl)).objs| == 1
    ensures batches == [[root]] + later && root.parentUrl.None? && root.depth == 0
            && WellFounded([root], maxDepth, later)
    ensures ObjectsAfter(root, later) == YieldedObjects(net, rootUrl, maxDepth, collectChildren, maxObjects)
  {
    root, later := batches[0][0], batches[1..];
    FetchedSitWithEntry(net, RootEntry(rootUrl));
    assert batches[0] == [root];
  }

  /** What a run gives: nothing when collecting raises before a rejection, else the verdict, else the
      answer to its batches. The verdict, and the figures where every URL stands for one object, are
      functions of the tree: `room`, the number of parallel fetches, does not occur in them. */
  ghost predicate Validated(r: Option<Result<Response, Rejection>>, batches: seq<seq<CollectedObject>>,
                            net: Net, judge: CollectedObject -> seq<Issue>, latest: string, rootUrl: Url, maxDepth: nat,
                            collectChildren: bool, maxObjects: int, room: int, limit: nat) {
    var got := FetchObjects(net, RootEntry(rootUrl));
    var plan := TreePlan(net, rootUrl, maxDepth, collectChildren, maxObjects, got);
    var verdict := Verdict(latest, got.objs, Outcome(plan));
    && Collected(batches, Aborts(plan), net, rootUrl, maxDepth, collectChildren, maxObjects, room)
    && if Aborts(plan) then r == None || (verdict.Some? && r == Some(Failure(verdict.value)))
       else if verdict.Some? then r == Some(Failure(verdict.value))
       else
         && r.Some? && Answers(r.value, judge, latest, batches, maxObjects, limit)
         && (limit > maxDepth && OneObjectPerUrl(net, rootUrl, maxDepth, collectChildren, maxObjects)
             ==> r.value.Success?
                 && Agrees(r.value.value,
                           Expected(judge, YieldedObjects(net, rootUrl, maxDepth, collectChildren, maxObjects),
                                    maxObjects))
                 && Says(r.value.value, judge,
                         YieldedObjects(net, rootUrl, maxDepth, collectChildren, maxObjects), maxObjects))
  }

  lemma UndisturbedAnswer(r: Option<Result<Response, Rejection>>, batches: seq<seq<CollectedObject>>,
                          net: Net, judge: CollectedObject -> seq<Issue>, latest: string, rootUrl: Url, maxDepth: nat,
                          collectChildren: bool, maxObjects: int, room: int, limit: nat)
    requires Validated(r, batches, net, judge, latest, rootUrl, maxDepth, collectChildren, maxObjects, room, limit)
    requires var got := FetchObjects(net, RootEntry(rootUrl));
             var plan := TreePlan(net, rootUrl, maxDepth, collectChildren, maxObjects, got);
             !Aborts(plan) && Verdict(latest, got.objs, Outcome(plan)).None?
    ensures var got := FetchObjects(net, RootEntry(rootUrl));
            var plan := TreePlan(net, rootUrl, maxDepth, collectChildren, maxObjects, got);
            r.Some? && Answers(r.value, judge, latest, [got.objs] + Batches(plan, room), maxObjects, limit)
  {
    assert batches == [batches[0]] + batches[1..];
  }

  /** Collects and validates the tree below `rootUrl`. */
  method ValidateStac(net: Net, judge: CollectedObject -> seq<Issue>, latest: string, rootUrl: Url, maxDepth: nat,
                      collectChildren: bool, maxObjects: int, room: int, limit: nat)
    returns (r: Option<Result<Response, Rejection>>, ghost batches: seq<seq<CollectedObject>>,
             ghost nodes: seq<TreeNode>)
    requires room >= 1 && maxDepth >= 1
    ensures Validated(r, batches, net, judge, latest, rootUrl, maxDepth, collectChildren, maxObjects, room, limit)
    ensures r == Some(Failure(NoRootObject)) <==> HoldsNothing(net, rootUrl)
    ensures r == Some(Failure(RootFetchFailed)) <==> RootFails(net, rootUrl)
    ensures r.Some? && r.value.Success? && OneObjectPerUrl(net, rootUrl, maxDepth, collectChildren, maxObjects)
            ==> TreeShows(nodes, judge, YieldedObjects(net, rootUrl, maxDepth, collectChildren, maxObjects), maxObjects)
                && r.value.value.root == nodes[0]
  {
    var yielded, raised := CollectStacTree(net, rootUrl, maxDepth, collectChildren, maxObjects, room);
    batches, nodes := yielded, [];
    CollectedRaises(batches, raised, net, rootUrl, maxDepth, collectChildren, maxObjects, room);
    RejectionIsTheVerdict(latest, net, rootUrl, maxDepth, collectChildren, maxObjects, room, batches, raised);
    if raised {
      var why, byUrl, order, top, g, objs, at, stored := AccumulateAll(judge, latest, yielded);
      r := if why.Some? then Some(Failure(why.value)) else None;
    } else {
      var answer;
      answer, nodes := ValidateTree(judge, latest, yielded, maxObjects, limit);
      r := Some(answer);
      if limit > maxDepth && Rejected(latest, batches).None?
          && OneObjectPerUrl(net, rootUrl, maxDepth, collectChildren, maxObjects) {
        OneObjectPerUrlAgrees(judge, latest, net, rootUrl, maxDepth, collectChildren, maxObjects, room, limit,
                              batches, answer);
      }
      if answer.Success? && OneObjectPerUrl(net, rootUrl, maxDepth, collectChildren, maxObjects) {
        OneObjectPerUrlTree(judge, net, rootUrl, maxDepth, collectChildren, maxObjects, room, batches, answer.value,
                            nodes);
      }
    }
  }

  lemma CollectedRaises(batches: seq<seq<CollectedObject>>, raised: bool, net: Net, rootUrl: Url, maxDepth: nat,
                        collectChildren: bool, maxObjects: int, room: int)
    requires Collected(batches, raised, net, rootUrl, maxDepth, collectChildren, maxObjects, room)
    ensures raised <==> Aborts(TreePlan(net, rootUrl, maxDepth, collectChildren, maxObjects,
                                        FetchObjects(net, RootEntry(rootUrl))))
  {
  }
}
