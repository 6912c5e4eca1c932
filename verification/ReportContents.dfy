/** What a response says, in terms of the objects and of the issues that judging them gives. */
module ReportContents {
  import opened Sequences
  import opened StacObjects
  import opened StacCollector
  import opened GraphWalk
  import opened ValidationReport
  import opened ReportAgreement

  /** The object was fetched and judging it gives no error. */
  ghost predicate Clean(judge: CollectedObject -> seq<Issue>, o: CollectedObject) {
    !o.fetchError && forall x <- judge(o) :: x.level != Error
  }

  function TypeShown(o: CollectedObject): ObjType {
    if o.fetchError then Unknown else o.objType
  }

  /** How often the object contributes the issue: a failed fetch one error, any other what judging gives. */
  ghost function Given(judge: CollectedObject -> seq<Issue>, o: CollectedObject, x: Issue): nat {
    if !o.fetchError then multiset(judge(o))[x]
    else if x == Issue(Error, Unknown, o.url, "fetch-error") then 1
    else 0
  }

  ghost function GivenByAll(judge: CollectedObject -> seq<Issue>, objs: seq<CollectedObject>, x: Issue): nat {
    if objs == [] then 0 else Given(judge, objs[0], x) + GivenByAll(judge, objs[1..], x)
  }

  /** The warning on the first object when the cap is reached. */
  ghost predicate LimitWarning(objs: seq<CollectedObject>, maxObjects: int, x: Issue) {
    objs != [] && |objs| >= maxObjects && x == Issue(Warning, TypeShown(objs[0]), objs[0].url, "traversal_limit")
  }

  /** Every error and warning that the objects give is listed as often as they give it, and nothing else. */
  ghost predicate ListsIssues(response: Response, judge: CollectedObject -> seq<Issue>, objs: seq<CollectedObject>,
                              maxObjects: int) {
    && (forall x: Issue :: multiset(response.errors)[x] == if x.level == Error then GivenByAll(judge, objs, x) else 0)
    && (forall x: Issue ::
          multiset(response.warnings)[x]
          == (if x.level == Warning then GivenByAll(judge, objs, x) else 0)
           + (if LimitWarning(objs, maxObjects, x) then 1 else 0))
  }

  /** The places of the objects of a type, and of those among them that are clean. */
  ghost function OfShownType(objs: seq<CollectedObject>, t: ObjType): set<nat> {
    set i: nat | i < |objs| && TypeShown(objs[i]) == t
  }

  ghost function CleanPlaces(judge: CollectedObject -> seq<Issue>, objs: seq<CollectedObject>): set<nat> {
    set i: nat | i < |objs| && Clean(judge, objs[i])
  }

  /** The summary counts the objects, overall and for each type that occurs. */
  ghost predicate CountsObjects(summary: Summary, judge: CollectedObject -> seq<Issue>, objs: seq<CollectedObject>) {
    && summary.total == |objs| && summary.valid == |CleanPlaces(judge, objs)|
        && summary.valid + summary.invalid == |objs|
    && forall t: ObjType ::
         && (t in summary.byType <==> OfShownType(objs, t) != {})
         && (t in summary.byType ==>
               summary.byType[t] == TypeSummary(|OfShownType(objs, t)|,
                                                |OfShownType(objs, t) * CleanPlaces(judge, objs)|,
                                                |OfShownType(objs, t) - CleanPlaces(judge, objs)|))
  }

  ghost function WithRule(issues: seq<Issue>, rule: string): set<nat> {
    set i: nat | i < |issues| && issues[i].rule == rule
  }

  /** The response over these objects, each at a URL of its own. */
  ghost predicate Says(response: Response, judge: CollectedObject -> seq<Issue>, objs: seq<CollectedObject>,
                       maxObjects: int) {
    && response.total == |objs|
    && (response.valid <==> forall o <- objs :: Clean(judge, o))
    && ListsIssues(response, judge, objs, maxObjects)
    && CountsObjects(response.summary, judge, objs)
    && response.summary.errorCount == |response.errors| && response.summary.warningCount == |response.warnings|
    && forall r: string ::
         && (r in response.summary.errorsByRule <==> WithRule(response.errors, r) != {})
         && (r in response.summary.errorsByRule ==> response.summary.errorsByRule[r] == |WithRule(response.errors, r)|)
  }

  // ---------- Issues ----------

  lemma {:induction false} IssuesAtCount(issues: seq<Issue>, level: Level, x: Issue)
    ensures multiset(IssuesAt(issues, level))[x] == if x.level == level then multiset(issues)[x] else 0
  {
    if issues != [] {
      IssuesAtCount(issues[1..], level, x);
      assert issues == [issues[0]] + issues[1..];
    }
  }

  lemma {:induction false} NoneAtIff(issues: seq<Issue>, level: Level)
    ensures IssuesAt(issues, level) == [] <==> forall x <- issues :: x.level != level
  {
    if issues != [] {
      NoneAtIff(issues[1..], level);
      assert issues == [issues[0]] + issues[1..];
    }
  }

  ghost function IssueCount(fs: seq<Finding>, x: Issue): nat {
    if fs == [] then 0 else multiset(fs[0].issues)[x] + IssueCount(fs[1..], x)
  }

  lemma {:induction false} AllAtCount(fs: seq<Finding>, level: Level, x: Issue)
    ensures multiset(AllAt(fs, level))[x] == if x.level == level then IssueCount(fs, x) else 0
  {
    if fs != [] {
      AllAtCount(fs[1..], level, x);
      IssuesAtCount(fs[0].issues, level, x);
      var lists := Lists(fs, level);
      assert lists == [IssuesAt(fs[0].issues, level)] + Lists(fs[1..], level) && lists[1..] == Lists(fs[1..], level);
    }
  }

  lemma {:induction false} FindingsCount(judge: CollectedObject -> seq<Issue>, objs: seq<CollectedObject>, x: Issue)
    ensures IssueCount(Findings(judge, objs), x) == GivenByAll(judge, objs, x)
  {
    if objs != [] {
      FindingsCount(judge, objs[1..], x);
      var fs := Findings(judge, objs);
      assert fs == [Judged(judge, objs[0])] + Findings(judge, objs[1..]) && fs[1..] == Findings(judge, objs[1..]);
    }
  }

  lemma LimitedCount(fs: seq<Finding>, x: Issue)
    requires fs != []
    ensures IssueCount(Limited(fs, 0), x)
            == IssueCount(fs, x) + if x == Issue(Warning, fs[0].objType, fs[0].url, "traversal_limit") then 1 else 0
  {
    assert Limited(fs, 0)[1..] == fs[1..];
  }

  lemma ExpectedCount(judge: CollectedObject -> seq<Issue>, objs: seq<CollectedObject>, maxObjects: int, x: Issue)
    ensures IssueCount(Expected(judge, objs, maxObjects), x)
            == GivenByAll(judge, objs, x) + if LimitWarning(objs, maxObjects, x) then 1 else 0
  {
    FindingsCount(judge, objs, x);
    if objs != [] && |objs| >= maxObjects {
      LimitedCount(Findings(judge, objs), x);
    }
  }

  lemma IssuesAreListed(response: Response, judge: CollectedObject -> seq<Issue>, objs: seq<CollectedObject>,
                        maxObjects: int)
    requires Agrees(response, Expected(judge, objs, maxObjects))
    ensures ListsIssues(response, judge, objs, maxObjects)
  {
    var fs := Expected(judge, objs, maxObjects);
    forall x: Issue
      ensures multiset(response.errors)[x] == if x.level == Error then GivenByAll(judge, objs, x) else 0
      ensures multiset(response.warnings)[x]
              == (if x.level == Warning then GivenByAll(judge, objs, x) else 0)
               + if LimitWarning(objs, maxObjects, x) then 1 else 0
    {
      AllAtCount(fs, Error, x);
      AllAtCount(fs, Warning, x);
      ExpectedCount(judge, objs, maxObjects, x);
    }
  }

  // ---------- Objects ----------

  /** Counting is the size of the set of places. */
  lemma {:induction false} CountIsSize<T>(s: seq<T>, p: T -> bool, places: set<nat>)
    requires forall i: nat :: i in places <==> i < |s| && p(s[i])
    ensures CountIf(s, p) == |places|
    decreases |s|
  {
    if s == [] {
      assert places == {};
    } else {
      var n := |s| - 1;
      CountIsSize(s[..n], p, places - {n});
      CountIfSnoc(s[..n], s[n], p);
      assert s == s[..n] + [s[n]];
      if p(s[n]) {
        assert places == places - {n} + {n};
      } else {
        assert places - {n} == places;
      }
    }
  }

  lemma ExpectedShows(judge: CollectedObject -> seq<Issue>, objs: seq<CollectedObject>, maxObjects: int)
    ensures var fs := Expected(judge, objs, maxObjects);
            && |fs| == |objs|
            && forall i :: 0 <= i < |objs| ==>
                 fs[i].objType == TypeShown(objs[i]) && (fs[i].valid <==> Clean(judge, objs[i]))
  {
    forall i | 0 <= i < |objs| ensures Judged(judge, objs[i]).valid <==> Clean(judge, objs[i]) {
      NoneAtIff(judge(objs[i]), Error);
    }
  }

  lemma ObjectsAreCounted(summary: Summary, judge: CollectedObject -> seq<Issue>, objs: seq<CollectedObject>,
                          maxObjects: int)
    requires Summarises(summary, Expected(judge, objs, maxObjects))
    ensures CountsObjects(summary, judge, objs)
  {
    var fs := Expected(judge, objs, maxObjects);
    ExpectedShows(judge, objs, maxObjects);
    CountIsSize(fs, (f: Finding) => f.valid, CleanPlaces(judge, objs));
    AllPlaces(objs, judge);
    forall t: ObjType
      ensures OfType(fs, t) == TypeSummary(|OfShownType(objs, t)|, |OfShownType(objs, t) * CleanPlaces(judge, objs)|,
                                           |OfShownType(objs, t) - CleanPlaces(judge, objs)|)
    {
      TypeIsCounted(judge, objs, fs, t);
    }
    TypesAreCounted(summary.byType, judge, objs, fs);
  }

  lemma TypesAreCounted(byType: map<ObjType, TypeSummary>, judge: CollectedObject -> seq<Issue>,
                        objs: seq<CollectedObject>, fs: seq<Finding>)
    requires ExactTypes(byType, fs)
    requires forall t: ObjType ::
               OfType(fs, t) == TypeSummary(|OfShownType(objs, t)|, |OfShownType(objs, t) * CleanPlaces(judge, objs)|,
                                            |OfShownType(objs, t) - CleanPlaces(judge, objs)|)
    ensures forall t: ObjType ::
              && (t in byType <==> OfShownType(objs, t) != {})
              && (t in byType ==>
                    byType[t] == TypeSummary(|OfShownType(objs, t)|, |OfShownType(objs, t) * CleanPlaces(judge, objs)|,
                                             |OfShownType(objs, t) - CleanPlaces(judge, objs)|))
  {
    forall t: ObjType ensures t in byType <==> OfShownType(objs, t) != {} {
      assert OfType(fs, t).total == |OfShownType(objs, t)|;
    }
  }

  lemma TypeIsCounted(judge: CollectedObject -> seq<Issue>, objs: seq<CollectedObject>, fs: seq<Finding>, t: ObjType)
    requires |fs| == |objs|
    requires forall i ::
            0 <= i < |objs| ==> fs[i].objType == TypeShown(objs[i]) && (fs[i].valid <==> Clean(judge, objs[i]))
    ensures OfType(fs, t) == TypeSummary(|OfShownType(objs, t)|, |OfShownType(objs, t) * CleanPlaces(judge, objs)|,
                                         |OfShownType(objs, t) - CleanPlaces(judge, objs)|)
  {
    var shown, clean := OfShownType(objs, t), CleanPlaces(judge, objs);
    CountIsSize(fs, (f: Finding) => f.objType == t, shown);
    CountIsSize(fs, (f: Finding) => f.objType == t && f.valid, shown * clean);
    CountIsSize(fs, (f: Finding) => f.objType == t && !f.valid, shown - clean);
  }

  lemma RulesAreCounted(byRule: map<string, nat>, errors: seq<Issue>)
    requires ExactRules(byRule, errors)
    ensures forall r: string ::
            (r in byRule <==> WithRule(errors, r) != {}) && (r in byRule ==> byRule[r] == |WithRule(errors, r)|)
  {
    forall r: string ensures OfRule(errors, r) == |WithRule(errors, r)| {
      CountIsSize(errors, (i: Issue) => i.rule == r, WithRule(errors, r));
    }
  }

  lemma AllPlaces(objs: seq<CollectedObject>, judge: CollectedObject -> seq<Issue>)
    ensures CleanPlaces(judge, objs) <= Below(|objs|) && |CleanPlaces(judge, objs)| <= |objs|
  {
    SubsetSize(CleanPlaces(judge, objs), Below(|objs|));
  }

  lemma AllCleanIff(judge: CollectedObject -> seq<Issue>, objs: seq<CollectedObject>)
    ensures |CleanPlaces(judge, objs)| == |objs| <==> forall o <- objs :: Clean(judge, o)
  {
    var clean, all := CleanPlaces(judge, objs), Below(|objs|);
    AllPlaces(objs, judge);
    assert all == clean + (all - clean);
    if |clean| == |objs| {
      forall o | o in objs ensures Clean(judge, o) {
        var i: nat :| i < |objs| && objs[i] == o;
        assert i in all && all - clean == {};
      }
    } else {
      var i :| i in all - clean;
      assert objs[i] in objs;
    }
  }

  /** The figures of the expected findings are those of the objects themselves. */
  lemma AgreementSays(response: Response, judge: CollectedObject -> seq<Issue>, objs: seq<CollectedObject>,
                      maxObjects: int)
    requires Agrees(response, Expected(judge, objs, maxObjects))
    ensures Says(response, judge, objs, maxObjects)
  {
    IssuesAreListed(response, judge, objs, maxObjects);
    ObjectsAreCounted(response.summary, judge, objs, maxObjects);
    RulesAreCounted(response.summary.errorsByRule, response.errors);
    AllCleanIff(judge, objs);
    ExpectedShows(judge, objs, maxObjects);
  }

  // ---------- Failed fetches ----------

  lemma {:induction false} GivenOnce(judge: CollectedObject -> seq<Issue>, objs: seq<CollectedObject>, i: nat, x: Issue)
    requires i < |objs| && objs[i].fetchError && x == Issue(Error, Unknown, objs[i].url, "fetch-error")
    requires forall k :: 0 <= k < |objs| && k != i ==> Given(judge, objs[k], x) == 0
    ensures GivenByAll(judge, objs, x) == 1
    decreases |objs|
  {
    if i > 0 {
      assert forall k :: 0 <= k < |objs| - 1 ==> objs[1..][k] == objs[k + 1];
      GivenOnce(judge, objs[1..], i - 1, x);
    } else {
      GivenNever(judge, objs[1..], x);
    }
  }

  lemma {:induction false} GivenNever(judge: CollectedObject -> seq<Issue>, objs: seq<CollectedObject>, x: Issue)
    requires forall k :: 0 <= k < |objs| ==> Given(judge, objs[k], x) == 0
    ensures GivenByAll(judge, objs, x) == 0
  {
    if objs != [] {
      assert forall k :: 0 <= k < |objs| - 1 ==> objs[1..][k] == objs[k + 1];
      GivenNever(judge, objs[1..], x);
    }
  }

  /** A failed fetch is exactly one error with the rule `fetch-error` at its URL, unless judging another
      object gives that very issue, and the response is not valid. */
  lemma FailedFetchIsOneError(response: Response, judge: CollectedObject -> seq<Issue>, objs: seq<CollectedObject>,
                              maxObjects: int, i: nat)
    requires Says(response, judge, objs, maxObjects) && DistinctObjects(objs)
    requires i < |objs| && objs[i].fetchError
    requires forall o <- objs :: !o.fetchError ==> Issue(Error, Unknown, objs[i].url, "fetch-error") !in judge(o)
    ensures multiset(response.errors)[Issue(Error, Unknown, objs[i].url, "fetch-error")] == 1 && !response.valid
  {
    var x := Issue(Error, Unknown, objs[i].url, "fetch-error");
    forall k | 0 <= k < |objs| && k != i ensures Given(judge, objs[k], x) == 0 {
      assert objs[k] in objs && objs[k].url != objs[i].url;
    }
    GivenOnce(judge, objs, i, x);
    assert objs[i] in objs && !Clean(judge, objs[i]);
  }
}
