/** Building the validation tree from the collected batches and summarising it twice:
    recursively along the tree, and flat over the stored nodes. */
module ValidationReport {
  import opened Wrappers
  import opened Sequences
  import opened Sorting
  import opened StacObjects
  import opened GraphWalk
  import opened ReportGraph

  datatype Level = Error | Warning | Info

  datatype Issue = Issue(level: Level, objType: ObjType, location: Url, rule: string)

  /** One node of the report; children are attached after the node was stored. */
  class TreeNode {
    const url: Url
    const objType: ObjType
    const objectIsValid: bool
    var issues: seq<Issue>
    var children: seq<TreeNode>

    constructor (url: Url, objType: ObjType, objectIsValid: bool, issues: seq<Issue>)
      ensures this.url == url && this.objType == objType && this.objectIsValid == objectIsValid
      ensures this.issues == issues && this.children == []
    {
      this.url, this.objType, this.objectIsValid := url, objType, objectIsValid;
      this.issues, this.children := issues, [];
    }
  }

  function IssuesAt(issues: seq<Issue>, level: Level): seq<Issue> {
    if issues == [] then []
    else if issues[0].level == level then [issues[0]] + IssuesAt(issues[1..], level)
    else IssuesAt(issues[1..], level)
  }

  /** What one object contributes to the report. */
  datatype Finding = Finding(url: Url, objType: ObjType, valid: bool, issues: seq<Issue>)

  /** The finding for an object: a failed fetch is one error, anything else is judged. */
  function Judged(judge: CollectedObject -> seq<Issue>, o: CollectedObject): Finding {
    if o.fetchError then Finding(o.url, Unknown, false, [Issue(Error, Unknown, o.url, "fetch-error")])
    else Finding(o.url, o.objType, IssuesAt(judge(o), Error) == [], judge(o))
  }

  function Findings(judge: CollectedObject -> seq<Issue>, objs: seq<CollectedObject>): (fs: seq<Finding>)
    ensures |fs| == |objs| && forall k :: 0 <= k < |objs| ==> fs[k] == Judged(judge, objs[k])
  {
    if objs == [] then [] else [Judged(judge, objs[0])] + Findings(judge, objs[1..])
  }

  function Lists(fs: seq<Finding>, level: Level): (ls: seq<seq<Issue>>)
    ensures |ls| == |fs| && forall k :: 0 <= k < |fs| ==> ls[k] == IssuesAt(fs[k].issues, level)
  {
    if fs == [] then [] else [IssuesAt(fs[0].issues, level)] + Lists(fs[1..], level)
  }

  /** The lists at the given places, one after the other. */
  function Gather<T>(lists: seq<seq<T>>, at: seq<nat>): seq<T> {
    if at == [] then [] else (if at[0] < |lists| then lists[at[0]] else []) + Gather(lists, at[1..])
  }

  function CountIf<T>(s: seq<T>, p: T -> bool): nat {
    if s == [] then 0 else (if p(s[0]) then 1 else 0) + CountIf(s[1..], p)
  }

  // ---------- Heap nodes mirror the report graph ----------

  /** `nodes[k]` is the node of the k-th object; its children are the nodes that the graph attaches. */
  ghost predicate Mirrors(nodes: seq<TreeNode>, kids: seq<seq<nat>>)
    reads nodes
  {
    && |nodes| == |kids|
    && (forall i, j :: 0 <= i < j < |nodes| ==> nodes[i] != nodes[j])
    && forall k :: 0 <= k < |nodes| ==>
         && |nodes[k].children| == |kids[k]|
         && forall i :: 0 <= i < |kids[k]| ==> kids[k][i] < |nodes| && nodes[k].children[i] == nodes[kids[k][i]]
  }

  ghost predicate Shows(nodes: seq<TreeNode>, fs: seq<Finding>)
    reads nodes
  {
    && |nodes| == |fs|
    && forall k :: 0 <= k < |nodes| ==> View(nodes[k]) == fs[k]
  }

  ghost function View(node: TreeNode): Finding
    reads node
  {
    Finding(node.url, node.objType, node.objectIsValid, node.issues)
  }

  ghost predicate Table(byUrl: map<Url, TreeNode>, nodes: seq<TreeNode>, owner: map<Url, nat>) {
    && byUrl.Keys == owner.Keys
    && forall u <- owner :: owner[u] < |nodes| && byUrl[u] == nodes[owner[u]]
  }

  // ---------- The recursive summary ----------

  lemma {:induction false} GatherAppend<T>(lists: seq<seq<T>>, a: seq<nat>, b: seq<nat>)
    ensures Gather(lists, a + b) == Gather(lists, a) + Gather(lists, b)
  {
    if a == [] {
      assert a + b == b;
    } else {
      GatherAppend(lists, a[1..], b);
      assert (a + b)[0] == a[0] && (a + b)[1..] == a[1..] + b;
      Assoc(if a[0] < |lists| then lists[a[0]] else [], Gather(lists, a[1..]), Gather(lists, b));
    }
  }

  /** The figures of the listed nodes, each as often as it is listed. */
  ghost predicate Gathered(fs: seq<Finding>, walk: seq<nat>, total: nat, errors: seq<Issue>, warnings: seq<Issue>) {
    && total == |walk|
    && errors == Gather(Lists(fs, Error), walk)
    && warnings == Gather(Lists(fs, Warning), walk)
  }

  lemma GatheredMore(fs: seq<Finding>, a: seq<nat>, total: nat, errors: seq<Issue>, warnings: seq<Issue>,
                     b: seq<nat>, total': nat, errors': seq<Issue>, warnings': seq<Issue>)
    requires Gathered(fs, a, total, errors, warnings) && Gathered(fs, b, total', errors', warnings')
    ensures Gathered(fs, a + b, total + total', errors + errors', warnings + warnings')
  {
    GatherAppend(Lists(fs, Error), a, b);
    GatherAppend(Lists(fs, Warning), a, b);
  }

  lemma GatheredOne(fs: seq<Finding>, k: nat)
    requires k < |fs|
    ensures Gathered(fs, [k], 1, IssuesAt(fs[k].issues, Error), IssuesAt(fs[k].issues, Warning))
  {
    assert [k][1..] == [];
  }

  /** Total count, errors and warnings of the tree below `node`, in the order of the walk. `limit` is
      the number of nested calls that the runtime allows; beyond it the recursion raises. */
  method FlattenResults(node: TreeNode, limit: nat, ghost nodes: seq<TreeNode>, ghost kids: seq<seq<nat>>,
                        ghost fs: seq<Finding>, ghost k: nat)
    returns (ended: bool, total: nat, errors: seq<Issue>, warnings: seq<Issue>)
    requires Mirrors(nodes, kids) && Shows(nodes, fs)
    requires k < |nodes| && node == nodes[k]
    ensures ended <==> Deep(kids, k, limit)
    ensures ended ==> Gathered(fs, Walk(kids, k, limit), total, errors, warnings)
    decreases limit
  {
    ended, total, errors, warnings := limit > 0, 1, IssuesAt(node.issues, Error), IssuesAt(node.issues, Warning);
    if !ended {
      return;
    }
    ghost var walked: seq<nat> := [k];
    GatheredOne(fs, k);
    for i := 0 to |node.children|
      invariant ended && DeepAll(kids, kids[k][..i], limit - 1)
      invariant walked == [k] + WalkAll(kids, kids[k][..i], limit - 1)
      invariant Gathered(fs, walked, total, errors, warnings)
    {
      ghost var c := kids[k][i];
      var ended', total', errors', warnings' := FlattenResults(node.children[i], limit - 1, nodes, kids, fs, c);
      if !ended' {
        ended := false;
        return;
      }
      GatheredMore(fs, walked, total, errors, warnings, Walk(kids, c, limit - 1), total', errors', warnings');
      total, errors, warnings := total + total', errors + errors', warnings + warnings';
      WalkOneMore(kids, k, i, limit - 1);
      walked := walked + Walk(kids, c, limit - 1);
    }
    assert kids[k][..|node.children|] == kids[k];
  }

  lemma WalkOneMore(kids: seq<seq<nat>>, k: nat, i: nat, n: nat)
    requires k < |kids| && i < |kids[k]| && DeepAll(kids, kids[k][..i], n) && Deep(kids, kids[k][i], n)
    ensures DeepAll(kids, kids[k][..i + 1], n)
    ensures [k] + WalkAll(kids, kids[k][..i], n) + Walk(kids, kids[k][i], n) == [k] + WalkAll(kids, kids[k][..i + 1], n)
  {
    var c := kids[k][i];
    assert kids[k][..i + 1] == kids[k][..i] + [c];
    assert WalkAll(kids, [c], n) == Walk(kids, c, n) + [] by {
      assert [c][1..] == [];
    }
    WalkAllAppend(kids, kids[k][..i], [c], n);
  }

  // ---------- The flat summary ----------

  datatype TypeSummary = TypeSummary(total: nat, valid: nat, invalid: nat)

  /** `types` and `rules` are the keys of the two tables in the order in which these are listed. */
  datatype Summary = Summary(
    total: nat, valid: nat, invalid: nat,
    byType: map<ObjType, TypeSummary>,
    errorCount: nat, warningCount: nat,
    errorsByRule: map<string, nat>,
    types: seq<ObjType>, rules: seq<string>)

  function OfType(fs: seq<Finding>, t: ObjType): TypeSummary {
    TypeSummary(
      CountIf(fs, (f: Finding) => f.objType == t),
      CountIf(fs, (f: Finding) => f.objType == t && f.valid),
      CountIf(fs, (f: Finding) => f.objType == t && !f.valid))
  }

  function OfRule(issues: seq<Issue>, rule: string): nat {
    CountIf(issues, (i: Issue) => i.rule == rule)
  }

  /** The errors of all the findings, in order. */
  function AllAt(fs: seq<Finding>, level: Level): seq<Issue> {
    Flatten(Lists(fs, level))
  }

  /** The table holds, for each type that occurs, exactly the counts of that type. */
  ghost predicate ExactTypes(byType: map<ObjType, TypeSummary>, fs: seq<Finding>) {
    forall t: ObjType ::
      && (t in byType <==> OfType(fs, t).total > 0)
      && (t in byType ==> byType[t] == OfType(fs, t))
  }

  ghost predicate ExactRules(byRule: map<string, nat>, errors: seq<Issue>) {
    forall r: string ::
      && (r in byRule <==> OfRule(errors, r) > 0)
      && (r in byRule ==> byRule[r] == OfRule(errors, r))
  }

  function TypesOf(fs: seq<Finding>): (ts: seq<ObjType>)
    ensures |ts| == |fs| && forall k :: 0 <= k < |fs| ==> ts[k] == fs[k].objType
  {
    seq(|fs|, k requires 0 <= k < |fs| => fs[k].objType)
  }

  function RulesOf(issues: seq<Issue>): (rs: seq<string>)
    ensures |rs| == |issues| && forall k :: 0 <= k < |issues| ==> rs[k] == issues[k].rule
  {
    seq(|issues|, k requires 0 <= k < |issues| => issues[k].rule)
  }

  /** The keys of one weight. */
  function Weighing<T>(keys: seq<T>, weight: T -> nat, w: nat): seq<T> {
    Filter(keys, (k: T) => weight(k) == w)
  }

  /** The keys of a table by descending weight, and by first occurrence where the weights are equal. */
  ghost predicate Listed<T(!new)>(keys: seq<T>, occurrences: seq<T>, weight: T -> nat) {
    && multiset(keys) == multiset(FirstSeen(occurrences))
    && (forall i, j :: 0 <= i < j < |keys| ==> weight(keys[i]) >= weight(keys[j]))
    && forall w: nat :: Weighing(keys, weight, w) == Weighing(FirstSeen(occurrences), weight, w)
  }

  /** Sorts the keys by descending weight. */
  method ListKeys<T(!new,==)>(seen: seq<T>, weight: T -> nat, ghost occurrences: seq<T>) returns (keys: seq<T>)
    requires seen == FirstSeen(occurrences)
    ensures Listed(keys, occurrences, weight)
  {
    var heavier := (a: T, b: T) => weight(a) >= weight(b);
    keys := Sort(seen, heavier);
    SortSorts(seen, heavier);
    assert forall i, j :: 0 <= i < j < |keys| ==> heavier(keys[i], keys[j]);
    forall w: nat ensures Weighing(keys, weight, w) == Weighing(seen, weight, w) {
      SortIsStable(seen, heavier, (k: T) => weight(k) == w);
    }
  }

  /** The running counts, with the keys in the order in which they were met. */
  ghost predicate Running(s: Summary, fs: seq<Finding>) {
    && s.total == |fs| && s.valid == CountIf(fs, (f: Finding) => f.valid)
    && TypeCounts(s.byType, s.types, fs)
    && IssueCounts(s.errorCount, s.warningCount, s.errorsByRule, s.rules, AllAt(fs, Error), AllAt(fs, Warning))
  }

  ghost predicate TypeCounts(byType: map<ObjType, TypeSummary>, types: seq<ObjType>, fs: seq<Finding>) {
    ExactTypes(byType, fs) && types == FirstSeen(TypesOf(fs))
  }

  ghost predicate IssueCounts(errorCount: nat, warningCount: nat, byRule: map<string, nat>, rules: seq<string>,
                              errors: seq<Issue>, warnings: seq<Issue>) {
    errorCount == |errors| && warningCount == |warnings| && ExactRules(byRule, errors)
        && rules == FirstSeen(RulesOf(errors))
  }

  ghost predicate Summarises(s: Summary, fs: seq<Finding>) {
    && s.total == |fs| && s.valid == CountIf(fs, (f: Finding) => f.valid) && s.valid + s.invalid == s.total
    && ExactTypes(s.byType, fs)
    && s.errorCount == |AllAt(fs, Error)| && s.warningCount == |AllAt(fs, Warning)|
    && ExactRules(s.errorsByRule, AllAt(fs, Error))
    && Listed(s.types, TypesOf(fs), (t: ObjType) => OfType(fs, t).total)
    && Listed(s.rules, RulesOf(AllAt(fs, Error)), (r: string) => OfRule(AllAt(fs, Error), r))
  }

  lemma {:induction false} CountIfAppend<T>(a: seq<T>, b: seq<T>, p: T -> bool)
    ensures CountIf(a + b, p) == CountIf(a, p) + CountIf(b, p)
  {
    if a == [] {
      assert a + b == b;
    } else {
      CountIfAppend(a[1..], b, p);
      assert (a + b)[1..] == a[1..] + b;
    }
  }

  lemma CountIfSnoc<T>(a: seq<T>, x: T, p: T -> bool)
    ensures CountIf(a + [x], p) == CountIf(a, p) + if p(x) then 1 else 0
  {
    CountIfAppend(a, [x], p);
    assert [x][1..] == [];
  }

  lemma {:induction false} ListsSnoc(fs: seq<Finding>, f: Finding, level: Level)
    ensures Lists(fs + [f], level) == Lists(fs, level) + [IssuesAt(f.issues, level)]
  {
    assert forall k :: 0 <= k < |fs| ==> Lists(fs + [f], level)[k] == IssuesAt((fs + [f])[k].issues, level);
  }

  lemma AllAtSnoc(fs: seq<Finding>, f: Finding, level: Level)
    ensures AllAt(fs + [f], level) == AllAt(fs, level) + IssuesAt(f.issues, level)
  {
    ListsSnoc(fs, f, level);
    FlattenLast(Lists(fs + [f], level));
    assert (Lists(fs, level) + [IssuesAt(f.issues, level)])[..|fs|] == Lists(fs, level);
  }

  lemma {:induction false} IssuesAtSnoc(issues: seq<Issue>, x: Issue, level: Level)
    ensures IssuesAt(issues + [x], level) == IssuesAt(issues, level) + if x.level == level then [x] else []
  {
    if issues == [] {
      assert issues + [x] == [x] && [x][1..] == [];
    } else {
      IssuesAtSnoc(issues[1..], x, level);
      assert (issues + [x])[0] == issues[0] && (issues + [x])[1..] == issues[1..] + [x];
      Assoc([issues[0]], IssuesAt(issues[1..], level), if x.level == level then [x] else []);
    }
  }

  function Bump(byType: map<ObjType, TypeSummary>, f: Finding): map<ObjType, TypeSummary> {
    var b := if f.objType in byType then byType[f.objType] else TypeSummary(0, 0, 0);
    byType[f.objType := if f.valid then TypeSummary(b.total + 1, b.valid + 1, b.invalid)
        else TypeSummary(b.total + 1, b.valid, b.invalid + 1)]
  }

  lemma TypesSnoc(byType: map<ObjType, TypeSummary>, fs: seq<Finding>, f: Finding)
    requires ExactTypes(byType, fs)
    ensures ExactTypes(Bump(byType, f), fs + [f])
  {
    forall t: ObjType
      ensures t in Bump(byType, f) <==> OfType(fs + [f], t).total > 0
      ensures t in Bump(byType, f) ==> Bump(byType, f)[t] == OfType(fs + [f], t)
    {
      CountIfSnoc(fs, f, (f: Finding) => f.objType == t);
      CountIfSnoc(fs, f, (f: Finding) => f.objType == t && f.valid);
      CountIfSnoc(fs, f, (f: Finding) => f.objType == t && !f.valid);
      AbsentTypes(fs, t);
    }
  }

  lemma {:induction false} AbsentTypes(fs: seq<Finding>, t: ObjType)
    ensures OfType(fs, t).total == OfType(fs, t).valid + OfType(fs, t).invalid
  {
    if fs != [] {
      AbsentTypes(fs[1..], t);
    }
  }

  lemma RulesSnoc(byRule: map<string, nat>, errors: seq<Issue>, x: Issue)
    requires ExactRules(byRule, errors)
    ensures ExactRules(byRule[x.rule := (if x.rule in byRule then byRule[x.rule] else 0) + 1], errors + [x])
  {
    forall r: string ensures OfRule(errors + [x], r) == OfRule(errors, r) + if x.rule == r then 1 else 0 {
      CountIfSnoc(errors, x, (i: Issue) => i.rule == r);
    }
  }

  /** Counts the issues of one node on top of the errors and warnings counted before. */
  method CountIssues(issues: seq<Issue>, errorCount0: nat, warningCount0: nat, byRule0: map<string, nat>,
                     rules0: seq<string>,
                     ghost errors0: seq<Issue>, ghost warnings0: seq<Issue>)
    returns (errorCount: nat, warningCount: nat, byRule: map<string, nat>, rules: seq<string>)
    requires IssueCounts(errorCount0, warningCount0, byRule0, rules0, errors0, warnings0)
    ensures IssueCounts(errorCount, warningCount, byRule, rules, errors0 + IssuesAt(issues, Error),
                        warnings0 + IssuesAt(issues, Warning))
  {
    errorCount, warningCount, byRule, rules := errorCount0, warningCount0, byRule0, rules0;
    ghost var errors, warnings := errors0, warnings0;
    for j := 0 to |issues|
      invariant errors == errors0 + IssuesAt(issues[..j], Error)
      invariant warnings == warnings0 + IssuesAt(issues[..j], Warning)
      invariant IssueCounts(errorCount, warningCount, byRule, rules, errors, warnings)
    {
      var issue := issues[j];
      NextIssue(issues, j, errors0, Error);
      NextIssue(issues, j, warnings0, Warning);
      if issue.level == Error {
        errorCount := errorCount + 1;
        NextError(byRule, errors, issue);
        byRule := byRule[issue.rule := (if issue.rule in byRule then byRule[issue.rule] else 0) + 1];
        rules := if issue.rule in rules then rules else rules + [issue.rule];
        errors := errors + [issue];
      } else if issue.level == Warning {
        warningCount := warningCount + 1;
        warnings := warnings + [issue];
      }
    }
    NoneAndAll(issues);
  }

  lemma NextIssue(issues: seq<Issue>, j: nat, before: seq<Issue>, level: Level)
    requires j < |issues|
    ensures before + IssuesAt(issues[..j + 1], level)
            == if issues[j].level == level then before + IssuesAt(issues[..j], level) + [issues[j]]
                else before + IssuesAt(issues[..j], level)
  {
    OneMore(issues, j);
    IssuesAtSnoc(issues[..j], issues[j], level);
    Assoc(before, IssuesAt(issues[..j], level), [issues[j]]);
  }

  lemma NextError(byRule: map<string, nat>, errors: seq<Issue>, x: Issue)
    requires ExactRules(byRule, errors)
    ensures ExactRules(byRule[x.rule := (if x.rule in byRule then byRule[x.rule] else 0) + 1], errors + [x])
    ensures var seen := FirstSeen(RulesOf(errors));
            FirstSeen(RulesOf(errors + [x])) == if x.rule in seen then seen else seen + [x.rule]
  {
    RulesSnoc(byRule, errors, x);
    assert RulesOf(errors + [x]) == RulesOf(errors) + [x.rule];
    FirstSeenSnoc(RulesOf(errors), x.rule);
  }

  /** Counts the stored nodes, in the order in which their URLs were first stored. */
  method BuildSummary(values: seq<TreeNode>, ghost fs: seq<Finding>) returns (s: Summary)
    requires Shows(values, fs)
    ensures Summarises(s, fs)
  {
    s := Summary(0, 0, 0, map[], 0, 0, map[], [], []);
    NothingCounted(s);
    NoneAndAll(fs);
    for i := 0 to |values|
      invariant Running(s, fs[..i])
    {
      OneMore(fs, i);
      s := CountNode(values[i], s, fs[..i]);
    }
    s := ListSummary(s, fs);
  }

  method ListSummary(s0: Summary, ghost fs: seq<Finding>) returns (s: Summary)
    requires Running(s0, fs)
    ensures Summarises(s, fs)
  {
    var types := ListTypes(s0.types, s0.byType, fs);
    var rules := ListRules(s0.rules, s0.errorsByRule, AllAt(fs, Error));
    CountIfBounded(fs, (f: Finding) => f.valid);
    s := s0.(invalid := s0.total - s0.valid, types := types, rules := rules);
  }

  lemma NothingCounted(s: Summary)
    requires s == Summary(0, 0, 0, map[], 0, 0, map[], [], [])
    ensures Running(s, [])
  {
    assert AllAt([], Error) == [] && AllAt([], Warning) == [];
    assert TypesOf([]) == [] && RulesOf([]) == [];
  }

  /** Counts one node on top of the counts before. */
  method CountNode(node: TreeNode, s0: Summary, ghost fs: seq<Finding>) returns (s: Summary)
    requires Running(s0, fs)
    ensures Running(s, fs + [View(node)])
  {
    AllAtSnoc(fs, View(node), Error);
    AllAtSnoc(fs, View(node), Warning);
    CountIfSnoc(fs, View(node), (f: Finding) => f.valid);
    var valid := if node.objectIsValid then s0.valid + 1 else s0.valid;
    var byType, types := CountType(node, s0.byType, s0.types, fs);
    var errorCount, warningCount, byRule, rules :=
      CountIssues(node.issues, s0.errorCount, s0.warningCount, s0.errorsByRule, s0.rules, AllAt(fs, Error),
                  AllAt(fs, Warning));
    s := Summary(s0.total + 1, valid, 0, byType, errorCount, warningCount, byRule, types, rules);
  }

  method CountType(node: TreeNode, byType0: map<ObjType, TypeSummary>, types0: seq<ObjType>, ghost fs: seq<Finding>)
    returns (byType: map<ObjType, TypeSummary>, types: seq<ObjType>)
    requires TypeCounts(byType0, types0, fs)
    ensures TypeCounts(byType, types, fs + [View(node)])
  {
    ghost var f := View(node);
    types := if node.objType in types0 then types0 else types0 + [node.objType];
    var bucket := if node.objType in byType0 then byType0[node.objType] else TypeSummary(0, 0, 0);
    bucket := if node.objectIsValid
              then TypeSummary(bucket.total + 1, bucket.valid + 1, bucket.invalid)
              else TypeSummary(bucket.total + 1, bucket.valid, bucket.invalid + 1);
    byType := byType0[node.objType := bucket];
    TypesSnoc(byType0, fs, f);
    TypesOfSnoc(fs, f);
  }

  lemma TypesOfSnoc(fs: seq<Finding>, f: Finding)
    ensures var seen, t := FirstSeen(TypesOf(fs)), f.objType;
            FirstSeen(TypesOf(fs + [f])) == if t in seen then seen else seen + [t]
  {
    assert TypesOf(fs + [f]) == TypesOf(fs) + [f.objType];
    FirstSeenSnoc(TypesOf(fs), f.objType);
  }

  lemma {:induction false} CountIfBounded<T>(s: seq<T>, p: T -> bool)
    ensures CountIf(s, p) <= |s|
  {
    if s != [] {
      CountIfBounded(s[1..], p);
    }
  }

  /** The types by descending total, read from the table. */
  method ListTypes(types: seq<ObjType>, byType: map<ObjType, TypeSummary>, ghost fs: seq<Finding>)
    returns (keys: seq<ObjType>)
    requires types == FirstSeen(TypesOf(fs)) && ExactTypes(byType, fs)
    ensures Listed(keys, TypesOf(fs), (t: ObjType) => OfType(fs, t).total)
  {
    var weight := (t: ObjType) => if t in byType then byType[t].total else 0;
    keys := ListKeys(types, weight, TypesOf(fs));
    SameWeights(keys, TypesOf(fs), weight, (t: ObjType) => OfType(fs, t).total);
  }

  /** The rules by descending count, read from the table. */
  method ListRules(rules: seq<string>, byRule: map<string, nat>, ghost errors: seq<Issue>) returns (keys: seq<string>)
    requires rules == FirstSeen(RulesOf(errors)) && ExactRules(byRule, errors)
    ensures Listed(keys, RulesOf(errors), (r: string) => OfRule(errors, r))
  {
    var weight := (r: string) => if r in byRule then byRule[r] else 0;
    keys := ListKeys(rules, weight, RulesOf(errors));
    SameWeights(keys, RulesOf(errors), weight, (r: string) => OfRule(errors, r));
  }

  lemma SameWeights<T(!new)>(keys: seq<T>, occurrences: seq<T>, v: T -> nat, w: T -> nat)
    requires Listed(keys, occurrences, v) && forall t: T :: v(t) == w(t)
    ensures Listed(keys, occurrences, w)
  {
    forall n: nat ensures Weighing(keys, w, n) == Weighing(FirstSeen(occurrences), w, n) {
      assert Weighing(keys, v, n) == Weighing(FirstSeen(occurrences), v, n);
      FilterSame(keys, (k: T) => v(k) == n, (k: T) => w(k) == n);
      FilterSame(FirstSeen(occurrences), (k: T) => v(k) == n, (k: T) => w(k) == n);
    }
  }

  // ---------- Accumulating the nodes ----------

  lemma FindingsAppend(judge: CollectedObject -> seq<Issue>, a: seq<CollectedObject>, b: seq<CollectedObject>)
    ensures Findings(judge, a + b) == Findings(judge, a) + Findings(judge, b)
  {
    assert forall k :: 0 <= k < |a + b| ==> Findings(judge, a + b)[k] == Judged(judge, (a + b)[k]);
  }

  /** The nodes and their URL table after the given objects were stored. */
  ghost predicate Kept(judge: CollectedObject -> seq<Issue>, g: Graph, objs: seq<CollectedObject>,
                       byUrl: map<Url, TreeNode>, order: seq<Url>, nodes: seq<TreeNode>)
    reads nodes
  {
    && Table(byUrl, nodes, g.owner) && order == g.order
    && Mirrors(nodes, g.kids) && Shows(nodes, Findings(judge, objs))
  }

  /** Judges one object and stores its node under its URL. */
  method StoreNode(judge: CollectedObject -> seq<Issue>, item: CollectedObject, byUrl0: map<Url, TreeNode>,
                   order0: seq<Url>,
                   ghost g: Graph, ghost objs: seq<CollectedObject>, ghost nodes0: seq<TreeNode>)
    returns (byUrl: map<Url, TreeNode>, order: seq<Url>, node: TreeNode)
    requires Kept(judge, g, objs, byUrl0, order0, nodes0)
    ensures Kept(judge, StoreOne(g, item), objs + [item], byUrl, order, nodes0 + [node])
    ensures fresh(node)
  {
    var objType, valid, issues := Unknown, false, [Issue(Error, Unknown, item.url, "fetch-error")];
    if !item.fetchError {
      issues := judge(item);
      objType, valid := item.objType, IssuesAt(issues, Error) == [];
    }
    node := new TreeNode(item.url, objType, valid, issues);
    order := if item.url in byUrl0 then order0 else order0 + [item.url];
    byUrl := byUrl0[item.url := node];
    TableStored(byUrl0, nodes0, g.owner, item.url, node);
    FindingsAppend(judge, objs, [item]);
    NodeStored(nodes0, node, g.kids, Findings(judge, objs), Judged(judge, item));
  }

  lemma TableStored(byUrl: map<Url, TreeNode>, nodes: seq<TreeNode>, owner: map<Url, nat>, url: Url, node: TreeNode)
    requires Table(byUrl, nodes, owner)
    ensures Table(byUrl[url := node], nodes + [node], owner[url := |nodes|])
  {
  }

  lemma NodeStored(nodes: seq<TreeNode>, node: TreeNode, kids: seq<seq<nat>>, fs: seq<Finding>, f: Finding)
    requires Mirrors(nodes, kids) && Shows(nodes, fs) && node !in nodes
    requires node.children == [] && View(node) == f
    ensures Mirrors(nodes + [node], kids + [[]]) && Shows(nodes + [node], fs + [f])
  {
  }

  /** Judges a batch and stores its nodes; a later object replaces the node under its URL. */
  method StoreBatch(judge: CollectedObject -> seq<Issue>, batch: seq<CollectedObject>, byUrl0: map<Url, TreeNode>,
                    order0: seq<Url>,
                    ghost g: Graph, ghost objs: seq<CollectedObject>, ghost nodes0: seq<TreeNode>)
    returns (byUrl: map<Url, TreeNode>, order: seq<Url>, ghost nodes: seq<TreeNode>)
    requires Kept(judge, g, objs, byUrl0, order0, nodes0)
    ensures Kept(judge, Store(g, batch), objs + batch, byUrl, order, nodes)
    ensures nodes0 <= nodes && forall k :: |nodes0| <= k < |nodes| ==> fresh(nodes[k])
  {
    byUrl, order, nodes := byUrl0, order0, nodes0;
    ghost var cur, seen := g, objs;
    for i := 0 to |batch|
      invariant Store(cur, batch[i..]) == Store(g, batch)
      invariant seen + batch[i..] == objs + batch
      invariant Kept(judge, cur, seen, byUrl, order, nodes)
      invariant nodes0 <= nodes && forall k :: |nodes0| <= k < |nodes| ==> fresh(nodes[k])
    {
      var node;
      StoreStep(cur, batch, i, seen);
      byUrl, order, node := StoreNode(judge, batch[i], byUrl, order, cur, seen, nodes);
      cur, nodes, seen := StoreOne(cur, batch[i]), nodes + [node], seen + [batch[i]];
    }
    assert seen == objs + batch;
  }

  lemma StoreStep(g: Graph, batch: seq<CollectedObject>, i: nat, seen: seq<CollectedObject>)
    requires i < |batch|
    ensures Store(g, batch[i..]) == Store(StoreOne(g, batch[i]), batch[i + 1..])
    ensures seen + batch[i..] == seen + [batch[i]] + batch[i + 1..]
  {
    assert batch[i..] == [batch[i]] + batch[i + 1..];
  }

  method AppendChild(parent: TreeNode, child: TreeNode, ghost nodes: seq<TreeNode>, ghost kids: seq<seq<nat>>,
                     ghost fs: seq<Finding>, ghost p: nat, ghost c: nat)
    requires Mirrors(nodes, kids) && Shows(nodes, fs) && p < |nodes| && c < |nodes| && parent == nodes[p]
            && child == nodes[c]
    modifies parent`children
    ensures Mirrors(nodes, AddEdge(kids, p, c)) && Shows(nodes, fs)
  {
    parent.children := parent.children + [child];
  }

  /** Appends each object's node to the children of its parent, where the parent is known. */
  method AttachBatch(batch: seq<CollectedObject>, byUrl: map<Url, TreeNode>, ghost owner: map<Url, nat>,
                     ghost kids0: seq<seq<nat>>, ghost fs: seq<Finding>, ghost nodes: seq<TreeNode>)
    requires Table(byUrl, nodes, owner) && Mirrors(nodes, kids0) && Shows(nodes, fs)
    requires forall o <- batch :: o.url in owner
    modifies nodes`children
    ensures Mirrors(nodes, Attach(owner, kids0, batch)) && Shows(nodes, fs)
  {
    ghost var kids := kids0;
    for i := 0 to |batch|
      invariant |kids| == |kids0| && Attach(owner, kids, batch[i..]) == Attach(owner, kids0, batch)
      invariant Mirrors(nodes, kids) && Shows(nodes, fs)
    {
      var item := batch[i];
      assert batch[i..] == [item] + batch[i + 1..];
      if item.parentUrl.Some? && item.parentUrl.value in byUrl {
        ghost var p, c := owner[item.parentUrl.value], owner[item.url];
        assert byUrl[item.parentUrl.value] == nodes[p];
        AppendChild(byUrl[item.parentUrl.value], byUrl[item.url], nodes, kids, fs, p, c);
        kids := AddEdge(kids, p, c);
      }
    }
  }

  // ---------- The whole run ----------

  datatype Rejection =
    | NoRootObject
    | RootFetchFailed
    | VersionMismatch(url: Url, found: string)
    | NothingCollected
    | TooDeep

  datatype Response = Response(
    valid: bool, total: nat, summary: Summary, errors: seq<Issue>, warnings: seq<Issue>, root: TreeNode)

  /** The first object of the batch that declares another version than the latest. */
  function Outdated(latest: string, batch: seq<CollectedObject>): Option<Rejection> {
    if batch == [] then None
    else if batch[0].data.Some? && batch[0].data.value.stacVersion.Some?
      && batch[0].data.value.stacVersion.value != latest then
      Some(VersionMismatch(batch[0].url, batch[0].data.value.stacVersion.value))
    else Outdated(latest, batch[1..])
  }

  function FirstTop(batch: seq<CollectedObject>): Option<Url> {
    if batch == [] then None else if batch[0].depth == 0 then Some(batch[0].url) else FirstTop(batch[1..])
  }

  lemma {:induction false} FirstTopIsThere(batch: seq<CollectedObject>)
    ensures FirstTop(batch).Some? ==> exists o <- batch :: o.url == FirstTop(batch).value
  {
    if batch != [] && batch[0].depth != 0 {
      FirstTopIsThere(batch[1..]);
    }
  }

  /** The node that stands for the root after the batches: the first top-level object of the last batch that has one. */
  function RootOf(batches: seq<seq<CollectedObject>>): Option<nat> {
    if batches == [] then None
    else
      var last := batches[|batches| - 1];
      var g := Build(batches);
      if FirstTop(last).Some? && FirstTop(last).value in g.owner then Some(g.owner[FirstTop(last).value])
      else RootOf(batches[..|batches| - 1])
  }

  /** Why a run is rejected, if it is: a bad root first, then the first outdated object. */
  function Rejected(latest: string, batches: seq<seq<CollectedObject>>): Option<Rejection> {
    if batches == [] then None
    else
      match Rejected(latest, batches[..|batches| - 1])
      case Some(why) => Some(why)
      case None => BatchGate(latest, batches[|batches| - 1], |batches| == 1)
  }

  /** The findings of a run, with the warning that the traversal limit adds to the root. */
  function Reported(judge: CollectedObject -> seq<Issue>, batches: seq<seq<CollectedObject>>,
                    maxObjects: int): seq<Finding> {
    var fs := Findings(judge, Flatten(batches));
    var root := RootOf(batches);
    if root.Some? && root.value < |fs| && |Build(batches).order| >= maxObjects then Limited(fs, root.value) else fs
  }

  function Limited(fs: seq<Finding>, at: nat): seq<Finding>
    requires at < |fs|
  {
    var f := fs[at];
    fs[at := f.(issues := f.issues + [Issue(Warning, f.objType, f.url, "traversal_limit")])]
  }

  /** The findings of the stored nodes, in storage order. */
  function Stored(g: Graph, fs: seq<Finding>): seq<Finding> {
    seq(|g.order|, i requires 0 <= i < |g.order| =>
      if g.order[i] in g.owner && g.owner[g.order[i]] < |fs| then fs[g.owner[g.order[i]]]
      else Finding(g.order[i], Unknown, true, []))
  }

  lemma {:induction false} StoredKeysKnown(g: Graph, batch: seq<CollectedObject>)
    ensures forall o <- batch :: o.url in Store(g, batch).owner
  {
    StoreKeys(g, batch);
    forall o | o in batch ensures o.url in Store(g, batch).owner {
      UrlSetMember(batch, o.url);
    }
  }

  ghost predicate RootIs(root: TreeNode?, nodes: seq<TreeNode>, at: Option<nat>) {
    match at
    case None => root == null
    case Some(k) => k < |nodes| && root == nodes[k]
  }

  /** The nodes, their URL table and the root after the given objects were added. */
  ghost predicate Accumulated(judge: CollectedObject -> seq<Issue>, g: Graph, objs: seq<CollectedObject>,
                              at: Option<nat>,
                              byUrl: map<Url, TreeNode>, order: seq<Url>, root: TreeNode?, nodes: seq<TreeNode>)
    reads nodes
  {
    && Kept(judge, g, objs, byUrl, order, nodes)
    && RootIs(root, nodes, at)
  }

  function NextRoot(g: Graph, batch: seq<CollectedObject>, at: Option<nat>): Option<nat> {
    var owner := Store(g, batch).owner;
    var top := FirstTop(batch);
    if top.Some? && top.value in owner then Some(owner[top.value]) else at
  }

  lemma BuildSnoc(done: seq<seq<CollectedObject>>, batch: seq<CollectedObject>)
    ensures Build(done + [batch]) == AddBatch(Build(done), batch)
    ensures Flatten(done + [batch]) == Flatten(done) + batch
    ensures RootOf(done + [batch]) == NextRoot(Build(done), batch, RootOf(done))
  {
    assert (done + [batch])[..|done|] == done;
    FlattenLast(done + [batch]);
  }

  method AccumulateBatch(judge: CollectedObject -> seq<Issue>, batch: seq<CollectedObject>, byUrl0: map<Url,
                         TreeNode>, order0: seq<Url>, root0: TreeNode?,
                         ghost g: Graph, ghost objs: seq<CollectedObject>,
                         ghost at: Option<nat>, ghost nodes0: seq<TreeNode>)
    returns (byUrl: map<Url, TreeNode>, order: seq<Url>, root: TreeNode?, ghost nodes: seq<TreeNode>)
    requires Accumulated(judge, g, objs, at, byUrl0, order0, root0, nodes0)
    modifies nodes0`children
    ensures Accumulated(judge, AddBatch(g, batch), objs + batch, NextRoot(g, batch, at), byUrl, order, root, nodes)
    ensures nodes0 <= nodes && forall k :: |nodes0| <= k < |nodes| ==> fresh(nodes[k])
  {
    StoredKeysKnown(g, batch);
    byUrl, order, nodes := StoreBatch(judge, batch, byUrl0, order0, g, objs, nodes0);
    var top := FirstTop(batch);
    root := if top.Some? && top.value in byUrl then byUrl[top.value] else root0;
    AttachBatch(batch, byUrl, Store(g, batch).owner, Store(g, batch).kids, Findings(judge, objs + batch), nodes);
  }

  /** The version gate: the first object of a batch that declares another version. */
  method CheckVersions(latest: string, batch: seq<CollectedObject>) returns (why: Option<Rejection>)
    ensures why == Outdated(latest, batch)
  {
    for i := 0 to |batch|
      invariant Outdated(latest, batch) == Outdated(latest, batch[i..])
    {
      assert batch[i..][1..] == batch[i + 1..];
      var data := batch[i].data;
      if data.Some? && data.value.stacVersion.Some? && data.value.stacVersion.value != latest {
        return Some(VersionMismatch(batch[i].url, data.value.stacVersion.value));
      }
    }
    why := None;
  }

  /** Why a batch stops the run: a bad root in the first batch, else its first outdated object. */
  function BatchGate(latest: string, batch: seq<CollectedObject>, first: bool): Option<Rejection> {
    if first && batch == [] then Some(NoRootObject)
    else if first && batch[0].fetchError then Some(RootFetchFailed)
    else Outdated(latest, batch)
  }

  method CheckBatch(latest: string, batch: seq<CollectedObject>, first: bool) returns (why: Option<Rejection>)
    ensures why == BatchGate(latest, batch, first)
  {
    if first {
      if batch == [] {
        return Some(NoRootObject);
      }
      if batch[0].fetchError {
        return Some(RootFetchFailed);
      }
    }
    why := CheckVersions(latest, batch);
  }

  lemma GateStep(latest: string, batches: seq<seq<CollectedObject>>, i: nat)
    requires i < |batches| && Rejected(latest, batches[..i]).None?
    ensures Rejected(latest, batches[..i + 1]) == BatchGate(latest, batches[i], i == 0)
    ensures Rejected(latest, batches[..i + 1]).Some? ==> Rejected(latest, batches) == Rejected(latest, batches[..i + 1])
  {
    assert batches[..i + 1][..i] == batches[..i];
    RejectedLater(latest, batches, i + 1);
  }

  lemma {:induction false} RejectedLater(latest: string, batches: seq<seq<CollectedObject>>, i: nat)
    requires i <= |batches|
    ensures Rejected(latest, batches[..i]).Some? ==> Rejected(latest, batches) == Rejected(latest, batches[..i])
    decreases |batches| - i
  {
    if i < |batches| {
      RejectedLater(latest, batches, i + 1);
      assert batches[..i + 1][..i] == batches[..i];
    } else {
      assert batches[..i] == batches;
    }
  }

  ghost predicate OrderIsKnown(g: Graph) {
    forall i :: 0 <= i < |g.order| ==> g.order[i] in g.owner
  }

  lemma {:induction false} StoreKeepsOrderKnown(g: Graph, batch: seq<CollectedObject>)
    requires OrderIsKnown(g)
    ensures OrderIsKnown(Store(g, batch))
    decreases |batch|
  {
    if batch != [] {
      var next := StoreOne(g, batch[0]);
      forall i | 0 <= i < |next.order| ensures next.order[i] in next.owner {
        if i < |g.order| {
          assert next.order[i] == g.order[i];
        }
      }
      StoreKeepsOrderKnown(next, batch[1..]);
    }
  }

  lemma {:induction false} OrderKnown(batches: seq<seq<CollectedObject>>)
    ensures OrderIsKnown(Build(batches))
  {
    if batches != [] {
      OrderKnown(batches[..|batches| - 1]);
      StoreKeepsOrderKnown(Build(batches[..|batches| - 1]), batches[|batches| - 1]);
    }
  }

  /** Summarises the finished tree twice; None when the recursion raises. */
  method Respond(root: TreeNode, byUrl: map<Url, TreeNode>, order: seq<Url>, limit: nat, ghost g: Graph,
                 ghost fs: seq<Finding>, ghost nodes: seq<TreeNode>, ghost at: nat)
    returns (response: Option<Response>)
    requires Mirrors(nodes, g.kids) && Shows(nodes, fs) && Table(byUrl, nodes, g.owner)
    requires order == g.order && OrderIsKnown(g)
    requires at < |nodes| && root == nodes[at]
    ensures response.Some? <==> Deep(g.kids, at, limit)
    ensures response.Some? ==> response.value.root == root && Reports(response.value, g, fs, at, limit)
  {
    var ended, total, errors, warnings := FlattenResults(root, limit, nodes, g.kids, fs, at);
    if !ended {
      return None;
    }
    var values := seq(|order|, i requires 0 <= i < |order| => byUrl[order[i]]);
    var summary := BuildSummary(values, Stored(g, fs));
    response := Some(Response(errors == [], total, summary, errors, warnings, root));
  }

  /** The recursive figures follow the walk from the root, the flat ones the stored nodes. */
  ghost predicate Reports(response: Response, g: Graph, fs: seq<Finding>, at: nat, limit: nat) {
    && Deep(g.kids, at, limit)
    && Gathered(fs, Walk(g.kids, at, limit), response.total, response.errors, response.warnings)
    && (response.valid <==> response.errors == [])
    && Summarises(response.summary, Stored(g, fs))
  }

  ghost predicate ReportsOn(response: Response, judge: CollectedObject -> seq<Issue>,
                            batches: seq<seq<CollectedObject>>, maxObjects: int, limit: nat) {
    RootOf(batches).Some?
        && Reports(response, Build(batches), Reported(judge, batches, maxObjects), RootOf(batches).value, limit)
  }

  /** The nodes of a response: one for each object, showing its finding, with the children that were
      attached to it, and the root among them. */
  ghost predicate Built(response: Response, judge: CollectedObject -> seq<Issue>, batches: seq<seq<CollectedObject>>,
                        maxObjects: int, nodes: seq<TreeNode>)
    reads nodes
  {
    && Mirrors(nodes, Build(batches).kids) && Shows(nodes, Reported(judge, batches, maxObjects))
    && RootOf(batches).Some? && RootOf(batches).value < |nodes| && response.root == nodes[RootOf(batches).value]
  }

  /** What a run over the batches answers: the first rejection, no root, a report that nests deeper
      than the recursion may, or the report. */
  ghost predicate Answers(r: Result<Response, Rejection>, judge: CollectedObject -> seq<Issue>, latest: string,
                          batches: seq<seq<CollectedObject>>, maxObjects: int, limit: nat) {
    match Rejected(latest, batches)
    case Some(why) => r == Failure(why)
    case None =>
      match RootOf(batches)
      case None => r == Failure(NothingCollected)
      case Some(at) =>
        if Deep(Build(batches).kids, at, limit) then r.Success? && ReportsOn(r.value, judge, batches, maxObjects, limit)
        else r == Failure(TooDeep)
  }

  /** The first i batches passed the checks and gave this graph, these objects and this root. */
  ghost predicate Accepted(latest: string, batches: seq<seq<CollectedObject>>, i: nat, g: Graph,
                           objs: seq<CollectedObject>, at: Option<nat>) {
    && i <= |batches| && Rejected(latest, batches[..i]).None?
    && g == Build(batches[..i]) && objs == Flatten(batches[..i]) && at == RootOf(batches[..i])
  }

  lemma AcceptedStep(latest: string, batches: seq<seq<CollectedObject>>, i: nat, g: Graph,
                     objs: seq<CollectedObject>, at: Option<nat>)
    requires i < |batches| && Accepted(latest, batches, i, g, objs, at)
    ensures var why := BatchGate(latest, batches[i], i == 0);
            && (why.Some? ==> Rejected(latest, batches) == why)
            && (why.None? ==> Accepted(latest, batches, i + 1, AddBatch(g, batches[i]), objs + batches[i],
                                       NextRoot(g, batches[i], at)))
  {
    GateStep(latest, batches, i);
    BuildSnoc(batches[..i], batches[i]);
    assert batches[..i] + [batches[i]] == batches[..i + 1];
  }

  /** Checks and accumulates the batches one after the other, up to the first that is rejected. */
  method AccumulateAll(judge: CollectedObject -> seq<Issue>, latest: string, batches: seq<seq<CollectedObject>>)
    returns (why: Option<Rejection>, byUrl: map<Url, TreeNode>, order: seq<Url>, root: TreeNode?,
             ghost g: Graph, ghost objs: seq<CollectedObject>, ghost at: Option<nat>, ghost nodes: seq<TreeNode>)
    ensures why == Rejected(latest, batches)
    ensures why.None? ==> Accumulated(judge, g, objs, at, byUrl, order, root, nodes)
    ensures why.None? ==> g == Build(batches) && objs == Flatten(batches) && at == RootOf(batches)
    ensures forall k :: 0 <= k < |nodes| ==> fresh(nodes[k])
  {
    why, byUrl, order, root := None, map[], [], null;
    g, objs, at, nodes := EmptyGraph, [], None, [];
    for i := 0 to |batches|
      invariant Accepted(latest, batches, i, g, objs, at)
      invariant Accumulated(judge, g, objs, at, byUrl, order, root, nodes)
      invariant forall k :: 0 <= k < |nodes| ==> fresh(nodes[k])
    {
      why := CheckBatch(latest, batches[i], i == 0);
      AcceptedStep(latest, batches, i, g, objs, at);
      if why.Some? {
        return;
      }
      byUrl, order, root, nodes := AccumulateBatch(judge, batches[i], byUrl, order, root, g, objs, at, nodes);
      g, objs, at := AddBatch(g, batches[i]), objs + batches[i], NextRoot(g, batches[i], at);
    }
    assert batches[..|batches|] == batches;
    why := None;
  }

  lemma RootKnown(judge: CollectedObject -> seq<Issue>, g: Graph, objs: seq<CollectedObject>, at: Option<nat>,
                  byUrl: map<Url, TreeNode>, order: seq<Url>, root: TreeNode?, nodes: seq<TreeNode>)
    requires Accumulated(judge, g, objs, at, byUrl, order, root, nodes)
    ensures if root == null then at.None? else at.Some? && root in nodes
  {
  }

  /** Accumulates all batches, adds the limit warning, and summarises the tree twice. */
  method ValidateTree(judge: CollectedObject -> seq<Issue>, latest: string, batches: seq<seq<CollectedObject>>,
                      maxObjects: int, limit: nat)
    returns (r: Result<Response, Rejection>, ghost nodes: seq<TreeNode>)
    ensures Answers(r, judge, latest, batches, maxObjects, limit)
    ensures r.Success? ==> Built(r.value, judge, batches, maxObjects, nodes)
  {
    var why, byUrl, order, root, g, objs, at, stored := AccumulateAll(judge, latest, batches);
    nodes := stored;
    if why.Some? {
      return Failure(why.value), nodes;
    }
    RootKnown(judge, g, objs, at, byUrl, order, root, nodes);
    if root == null {
      return Failure(NothingCollected), nodes;
    }
    var response := FinishReport(judge, batches, maxObjects, limit, byUrl, order, root, g, objs, at.value, nodes);
    r := if response.Some? then Success(response.value) else Failure(TooDeep);
  }

  method WarnAboutLimit(root: TreeNode, ghost nodes: seq<TreeNode>, ghost kids: seq<seq<nat>>,
                        ghost fs: seq<Finding>, ghost at: nat)
    requires Mirrors(nodes, kids) && Shows(nodes, fs) && at < |nodes| && root == nodes[at]
    modifies root`issues
    ensures Mirrors(nodes, kids) && Shows(nodes, Limited(fs, at))
  {
    root.issues := root.issues + [Issue(Warning, root.objType, root.url, "traversal_limit")];
  }

  method FinishReport(judge: CollectedObject -> seq<Issue>, ghost batches: seq<seq<CollectedObject>>,
                      maxObjects: int, limit: nat,
                      byUrl: map<Url, TreeNode>, order: seq<Url>, root: TreeNode,
                      ghost g: Graph, ghost objs: seq<CollectedObject>, ghost at: nat, ghost nodes: seq<TreeNode>)
    returns (response: Option<Response>)
    requires g == Build(batches) && objs == Flatten(batches) && Some(at) == RootOf(batches)
    requires Accumulated(judge, g, objs, Some(at), byUrl, order, root, nodes)
    modifies root`issues
    ensures response.Some? <==> Deep(g.kids, at, limit)
    ensures response.Some? ==> ReportsOn(response.value, judge, batches, maxObjects, limit)
    ensures response.Some? ==> Built(response.value, judge, batches, maxObjects, nodes)
  {
    ghost var fs := Findings(judge, objs);
    OrderKnown(batches);
    OrderSize(batches);
    assert byUrl.Keys == g.owner.Keys && |byUrl| == |byUrl.Keys| && |g.owner| == |g.owner.Keys|;
    if |byUrl| >= maxObjects {
      WarnAboutLimit(root, nodes, g.kids, fs, at);
      fs := Limited(fs, at);
    }
    assert fs == Reported(judge, batches, maxObjects);
    response := Respond(root, byUrl, order, limit, g, fs, nodes, at);
  }

  lemma {:induction false} OrderSize(batches: seq<seq<CollectedObject>>)
    ensures |Build(batches).order| == |Build(batches).owner|
  {
    if batches != [] {
      OrderSize(batches[..|batches| - 1]);
      StoreOrder(Build(batches[..|batches| - 1]), batches[|batches| - 1]);
    }
  }
}
