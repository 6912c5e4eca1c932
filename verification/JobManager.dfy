/** The run manager: the runs in submission order, and pruning of ended runs on each submission. */
module JobManager {
  import opened Wrappers
  import opened Sequences
  import opened Sorting
  import opened JobRuns

  const RUN_RETENTION_SECONDS: real := 3600.0
  const MAX_TERMINAL_RUNS := 100

  // ---------- Pruning, on values ----------

  predicate Stale(r: Run, now: real) {
    Terminal(r.status) && r.finishedAt.Some? && now - r.finishedAt.value > RUN_RETENTION_SECONDS
  }

  function SortKey(r: Run): real {
    if r.finishedAt.Some? then r.finishedAt.value else r.createdAt
  }

  function StaleIds(runs: seq<Run>, now: real): set<string> {
    if runs == [] then {} else (if Stale(runs[0], now) then {runs[0].id} else {}) + StaleIds(runs[1..], now)
  }

  /** The ended runs that are not stale, each with its sort key. */
  function Candidates(runs: seq<Run>, now: real): seq<(string, real)> {
    if runs == [] then []
    else if Terminal(runs[0].status) && !Stale(runs[0], now) then
      [(runs[0].id, SortKey(runs[0]))] + Candidates(runs[1..], now)
    else Candidates(runs[1..], now)
  }

  predicate Earlier(a: (string, real), b: (string, real)) {
    a.1 <= b.1
  }

  function ByKey(pairs: seq<(string, real)>): seq<(string, real)> {
    Sort(pairs, Earlier)
  }

  /** How many candidates are too many, with room for the run about to be submitted. */
  function ExcessCount(n: nat): (k: nat)
    ensures k <= n
  {
    if n >= MAX_TERMINAL_RUNS then n - MAX_TERMINAL_RUNS + 1 else 0
  }

  /** The candidates that are dropped for excess: the first ones by end time. */
  function Excess(runs: seq<Run>, now: real): seq<(string, real)> {
    SortKeepsLength(Candidates(runs, now));
    ByKey(Candidates(runs, now))[..ExcessCount(|Candidates(runs, now)|)]
  }

  lemma SortKeepsLength(pairs: seq<(string, real)>)
    ensures |ByKey(pairs)| == |pairs|
  {
    SortSorts(pairs, Earlier);
  }

  function Ids(pairs: seq<(string, real)>): set<string> {
    if pairs == [] then {} else {pairs[0].0} + Ids(pairs[1..])
  }

  function Keep(runs: seq<Run>, dropped: set<string>): seq<Run> {
    if runs == [] then []
    else if runs[0].id in dropped then Keep(runs[1..], dropped)
    else [runs[0]] + Keep(runs[1..], dropped)
  }

  function Pruned(runs: seq<Run>, now: real): seq<Run> {
    Keep(runs, StaleIds(runs, now) + Ids(Excess(runs, now)))
  }

  // ---------- Pruning keeps the right runs ----------

  ghost predicate DistinctIds(runs: seq<Run>) {
    forall i, j :: 0 <= i < j < |runs| ==> runs[i].id != runs[j].id
  }

  function RunIds(runs: seq<Run>): set<string> {
    if runs == [] then {} else {runs[0].id} + RunIds(runs[1..])
  }

  lemma {:induction false} RunIdsMember(runs: seq<Run>, id: string)
    ensures id in RunIds(runs) <==> exists r <- runs :: r.id == id
  {
    if runs != [] {
      RunIdsMember(runs[1..], id);
      if r :| r in runs && r.id == id {
        assert r == runs[0] || r in runs[1..];
      }
    }
  }

  lemma {:induction false} KeepMember(runs: seq<Run>, dropped: set<string>, r: Run)
    ensures r in Keep(runs, dropped) <==> r in runs && r.id !in dropped
  {
    if runs != [] {
      KeepMember(runs[1..], dropped, r);
      assert runs == [runs[0]] + runs[1..];
    }
  }

  lemma {:induction false} KeepDistinct(runs: seq<Run>, dropped: set<string>)
    requires DistinctIds(runs)
    ensures DistinctIds(Keep(runs, dropped))
  {
    if runs != [] {
      KeepDistinct(runs[1..], dropped);
      forall r | r in Keep(runs[1..], dropped) ensures r.id != runs[0].id {
        KeepMember(runs[1..], dropped, r);
      }
    }
  }

  lemma {:induction false} StaleIdsMember(runs: seq<Run>, now: real, id: string)
    ensures id in StaleIds(runs, now) <==> exists r <- runs :: r.id == id && Stale(r, now)
  {
    if runs != [] {
      StaleIdsMember(runs[1..], now, id);
      if r :| r in runs && r.id == id && Stale(r, now) {
        assert r == runs[0] || r in runs[1..];
      }
    }
  }

  lemma {:induction false} CandidatesMember(runs: seq<Run>, now: real, pair: (string, real))
    ensures pair in Candidates(runs, now) <==>
            exists r <- runs :: pair == (r.id, SortKey(r)) && Terminal(r.status) && !Stale(r, now)
  {
    if runs != [] {
      CandidatesMember(runs[1..], now, pair);
      if r :| r in runs && pair == (r.id, SortKey(r)) && Terminal(r.status) && !Stale(r, now) {
        assert r == runs[0] || r in runs[1..];
      }
    }
  }

  lemma {:induction false} IdsMember(pairs: seq<(string, real)>, id: string)
    ensures id in Ids(pairs) <==> exists p <- pairs :: p.0 == id
  {
    if pairs != [] {
      IdsMember(pairs[1..], id);
      if p :| p in pairs && p.0 == id {
        assert p == pairs[0] || p in pairs[1..];
      }
    }
  }

  /** The excess runs are candidates, and none of them ended after a candidate that stays. */
  lemma ExcessAreEarliest(runs: seq<Run>, now: real, kept: (string, real))
    requires kept in Candidates(runs, now) && kept.0 !in Ids(Excess(runs, now))
    ensures forall d <- Excess(runs, now) :: d in Candidates(runs, now) && d.1 <= kept.1
  {
    var sorted := ByKey(Candidates(runs, now));
    SortSorts(Candidates(runs, now), Earlier);
    var k := |Excess(runs, now)|;
    assert kept in multiset(sorted);
    var j :| 0 <= j < |sorted| && sorted[j] == kept;
    if j < k {
      assert Excess(runs, now)[j] == kept;
      IdsMember(Excess(runs, now), kept.0);
    }
    forall d | d in Excess(runs, now) ensures d in Candidates(runs, now) && d.1 <= kept.1 {
      var i :| 0 <= i < k && Excess(runs, now)[i] == d;
      assert sorted[i] == d && d in multiset(sorted);
      assert Earlier(sorted[i], sorted[j]);
    }
  }

  function Ended(runs: seq<Run>): seq<Run> {
    if runs == [] then [] else (if Terminal(runs[0].status) then [runs[0]] else []) + Ended(runs[1..])
  }

  lemma {:induction false} EndedMember(runs: seq<Run>, r: Run)
    ensures r in Ended(runs) <==> r in runs && Terminal(r.status)
  {
    if runs != [] {
      EndedMember(runs[1..], r);
      assert runs == [runs[0]] + runs[1..];
    }
  }

  lemma {:induction false} EndedDistinct(runs: seq<Run>)
    requires DistinctIds(runs)
    ensures DistinctIds(Ended(runs)) && |RunIds(Ended(runs))| == |Ended(runs)|
  {
    if runs != [] {
      EndedDistinct(runs[1..]);
      forall r | r in Ended(runs[1..]) ensures r.id != runs[0].id {
        EndedMember(runs[1..], r);
      }
      RunIdsMember(Ended(runs[1..]), runs[0].id);
      assert Ended(runs) != Ended(runs[1..]) ==> Ended(runs)[1..] == Ended(runs[1..]);
    }
  }

  ghost predicate DistinctFirst(pairs: seq<(string, real)>) {
    forall i, j :: 0 <= i < j < |pairs| ==> pairs[i].0 != pairs[j].0
  }

  lemma {:induction false} CandidatesDistinct(runs: seq<Run>, now: real)
    requires DistinctIds(runs)
    ensures DistinctFirst(Candidates(runs, now))
  {
    if runs != [] {
      CandidatesDistinct(runs[1..], now);
      forall p | p in Candidates(runs[1..], now) ensures p.0 != runs[0].id {
        CandidatesMember(runs[1..], now, p);
      }
    }
  }

  lemma {:induction false} IdsSize(pairs: seq<(string, real)>)
    ensures |Ids(pairs)| <= |pairs|
    ensures DistinctFirst(pairs) <==> |Ids(pairs)| == |pairs|
  {
    if pairs != [] {
      IdsSize(pairs[1..]);
      IdsMember(pairs[1..], pairs[0].0);
      if DistinctFirst(pairs[1..]) && pairs[0].0 !in Ids(pairs[1..]) {
        forall i, j | 0 <= i < j < |pairs| ensures pairs[i].0 != pairs[j].0 {
          assert pairs[j] in pairs[1..];
        }
      }
    }
  }

  lemma SameRun(runs: seq<Run>, a: Run, b: Run)
    requires DistinctIds(runs) && a in runs && b in runs && a.id == b.id
    ensures a == b
  {
    var i :| 0 <= i < |runs| && runs[i] == a;
    var j :| 0 <= j < |runs| && runs[j] == b;
  }

  /** Dropped for excess or not, by run: an excess id belongs to a candidate run. */
  lemma ExcessRun(runs: seq<Run>, now: real, r: Run)
    requires DistinctIds(runs) && r in runs && r.id in Ids(Excess(runs, now))
    ensures Terminal(r.status) && !Stale(r, now) && (r.id, SortKey(r)) in Excess(runs, now)
  {
    IdsMember(Excess(runs, now), r.id);
    var p :| p in Excess(runs, now) && p.0 == r.id;
    SortSorts(Candidates(runs, now), Earlier);
    assert p in multiset(ByKey(Candidates(runs, now)));
    CandidatesMember(runs, now, p);
    var d :| d in runs && p == (d.id, SortKey(d)) && Terminal(d.status) && !Stale(d, now);
    SameRun(runs, d, r);
  }

  lemma StaleRun(runs: seq<Run>, now: real, r: Run)
    requires DistinctIds(runs) && r in runs
    ensures r.id in StaleIds(runs, now) <==> Stale(r, now)
  {
    StaleIdsMember(runs, now, r.id);
    if d :| d in runs && d.id == r.id && Stale(d, now) {
      SameRun(runs, d, r);
    }
  }

  lemma PruneKeepsTheLatest(runs: seq<Run>, now: real, kept: Run, dropped: Run)
    requires DistinctIds(runs) && kept in Pruned(runs, now) && Terminal(kept.status)
    requires dropped in runs && dropped !in Pruned(runs, now) && !Stale(dropped, now)
    ensures Terminal(dropped.status) && SortKey(dropped) <= SortKey(kept)
  {
    var out := StaleIds(runs, now) + Ids(Excess(runs, now));
    KeepMember(runs, out, kept);
    KeepMember(runs, out, dropped);
    StaleRun(runs, now, kept);
    StaleRun(runs, now, dropped);
    ExcessRun(runs, now, dropped);
    CandidatesMember(runs, now, (kept.id, SortKey(kept)));
    ExcessAreEarliest(runs, now, (kept.id, SortKey(kept)));
  }

  lemma ExcessSize(runs: seq<Run>, now: real)
    requires DistinctIds(runs)
    ensures |Ids(Candidates(runs, now))| == |Candidates(runs, now)|
    ensures |Ids(Excess(runs, now))| == ExcessCount(|Candidates(runs, now)|)
    ensures Ids(Excess(runs, now)) <= Ids(Candidates(runs, now))
  {
    var all := Candidates(runs, now);
    var sorted := ByKey(all);
    CandidatesDistinct(runs, now);
    SortSorts(all, Earlier);
    IdsSize(all);
    IdsOfBag(all, sorted);
    IdsSize(sorted);
    IdsSize(Excess(runs, now));
    forall id | id in Ids(Excess(runs, now)) ensures id in Ids(all) {
      IdsMember(Excess(runs, now), id);
      IdsMember(sorted, id);
    }
  }

  lemma IdsOfBag(a: seq<(string, real)>, b: seq<(string, real)>)
    requires multiset(a) == multiset(b)
    ensures Ids(a) == Ids(b)
  {
    forall id ensures id in Ids(a) <==> id in Ids(b) {
      IdsMember(a, id);
      IdsMember(b, id);
      assert forall p :: p in a <==> p in multiset(a);
      assert forall p :: p in b <==> p in multiset(b);
    }
  }

  lemma EndedIdsAfterPrune(runs: seq<Run>, now: real)
    requires DistinctIds(runs)
    ensures RunIds(Ended(Pruned(runs, now))) == Ids(Candidates(runs, now)) - Ids(Excess(runs, now))
  {
    var kept := Pruned(runs, now);
    var out := StaleIds(runs, now) + Ids(Excess(runs, now));
    forall id ensures id in RunIds(Ended(kept)) <==> id in Ids(Candidates(runs, now)) - Ids(Excess(runs, now)) {
      RunIdsMember(Ended(kept), id);
      IdsMember(Candidates(runs, now), id);
      if r :| r in Ended(kept) && r.id == id {
        EndedMember(kept, r);
        KeepMember(runs, out, r);
        StaleRun(runs, now, r);
        CandidatesMember(runs, now, (r.id, SortKey(r)));
      }
      if p :| p in Candidates(runs, now) && p.0 == id && id !in Ids(Excess(runs, now)) {
        CandidatesMember(runs, now, p);
        var r :| r in runs && p == (r.id, SortKey(r)) && Terminal(r.status) && !Stale(r, now);
        StaleRun(runs, now, r);
        KeepMember(runs, out, r);
        EndedMember(kept, r);
      }
    }
  }

  /** Pruning drops no run that has not ended, leaves no stale run, leaves as many ended runs as
      fit beside the run about to be submitted, and never prefers an earlier ended run to a later one. */
  lemma PruneKeepsTheRightRuns(runs: seq<Run>, now: real)
    requires DistinctIds(runs)
    ensures var kept := Pruned(runs, now);
            && DistinctIds(kept)
            && (forall r <- runs :: !Terminal(r.status) ==> r in kept)
            && (forall r <- kept :: r in runs && !Stale(r, now))
            && |Ended(kept)| ==
                (if |Candidates(runs, now)| >= MAX_TERMINAL_RUNS then MAX_TERMINAL_RUNS - 1
                 else |Candidates(runs, now)|)
            && (forall r <- kept, d <- runs ::
                Terminal(r.status) && d !in kept && !Stale(d, now) ==> SortKey(d) <= SortKey(r))
  {
    var kept := Pruned(runs, now);
    var out := StaleIds(runs, now) + Ids(Excess(runs, now));
    KeepDistinct(runs, out);
    forall r | r in runs && !Terminal(r.status) ensures r in kept {
      KeepMember(runs, out, r);
      StaleRun(runs, now, r);
      if r.id in Ids(Excess(runs, now)) {
        ExcessRun(runs, now, r);
      }
    }
    forall r | r in kept ensures r in runs && !Stale(r, now) {
      KeepMember(runs, out, r);
      StaleRun(runs, now, r);
    }
    forall r, d | r in kept && d in runs && Terminal(r.status) && d !in kept && !Stale(d, now)
      ensures SortKey(d) <= SortKey(r) {
      PruneKeepsTheLatest(runs, now, r, d);
    }
    EndedIdsAfterPrune(runs, now);
    EndedDistinct(kept);
    ExcessSize(runs, now);
  }

  // ---------- Pruning, by status and times ----------

  /** The run has ended. */
  ghost predicate HasEnded(r: Run) {
    r.status in {Succeeded, Failed, Cancelled}
  }

  /** More than an hour has passed since the run ended. */
  ghost predicate LongGone(r: Run, now: real) {
    HasEnded(r) && r.finishedAt.Some? && r.finishedAt.value + 3600.0 < now
  }

  ghost function EndedPlaces(runs: seq<Run>): set<nat> {
    set i: nat | i < |runs| && HasEnded(runs[i])
  }

  ghost function RecentPlaces(runs: seq<Run>, now: real): set<nat> {
    set i: nat | i < |runs| && HasEnded(runs[i]) && !LongGone(runs[i], now)
  }

  lemma {:induction false} EndedIsFilter(runs: seq<Run>, ended: Run -> bool)
    requires forall r :: ended(r) <==> HasEnded(r)
    ensures Ended(runs) == Filter(runs, ended)
  {
    if runs != [] {
      EndedIsFilter(runs[1..], ended);
    }
  }

  lemma EndedSize(runs: seq<Run>)
    ensures |Ended(runs)| == |EndedPlaces(runs)|
  {
    var ended := (r: Run) => r.status in {Succeeded, Failed, Cancelled};
    EndedIsFilter(runs, ended);
    var at := FilterIs(runs, ended);
    PlacesSize(at, runs, ended, EndedPlaces(runs));
  }

  lemma {:induction false} CandidatesFilter(runs: seq<Run>, now: real, recent: Run -> bool)
    requires forall r :: recent(r) <==> HasEnded(r) && !LongGone(r, now)
    ensures |Candidates(runs, now)| == |Filter(runs, recent)|
  {
    if runs != [] {
      CandidatesFilter(runs[1..], now, recent);
      assert recent(runs[0]) <==> Terminal(runs[0].status) && !Stale(runs[0], now);
    }
  }

  lemma CandidatesSize(runs: seq<Run>, now: real)
    ensures |Candidates(runs, now)| == |RecentPlaces(runs, now)|
  {
    var recent := (r: Run) => Terminal(r.status) && !Stale(r, now);
    CandidatesFilter(runs, now, recent);
    var at := FilterIs(runs, recent);
    PlacesSize(at, runs, recent, RecentPlaces(runs, now));
  }

  /** The kept runs are some of the runs, in their order. */
  ghost predicate InOrder(kept: seq<Run>, runs: seq<Run>) {
    exists at: seq<nat> ::
      && |at| == |kept| && (forall j, k :: 0 <= j < k < |at| ==> at[j] < at[k])
      && forall k :: 0 <= k < |at| ==> at[k] < |runs| && kept[k] == runs[at[k]]
  }

  lemma {:induction false} KeepIsFilter(runs: seq<Run>, dropped: set<string>, kept: Run -> bool)
    requires forall r :: kept(r) <==> r.id !in dropped
    ensures Keep(runs, dropped) == Filter(runs, kept)
  {
    if runs != [] {
      KeepIsFilter(runs[1..], dropped, kept);
    }
  }

  lemma KeepInOrder(runs: seq<Run>, dropped: set<string>)
    ensures InOrder(Keep(runs, dropped), runs)
  {
    var kept := (r: Run) => r.id !in dropped;
    KeepIsFilter(runs, dropped, kept);
    var at := FilterIs(runs, kept);
  }

  /** Pruning keeps, in order, every run that has not ended and no run that ended more than an hour ago.
      Of the others it drops only as many as leave 99, and none that ended after one that it keeps. */
  lemma PruneByTimes(runs: seq<Run>, now: real)
    requires DistinctIds(runs)
    ensures var kept, recent := Pruned(runs, now), |RecentPlaces(runs, now)|;
            && InOrder(kept, runs)
            && (forall r <- runs :: !HasEnded(r) ==> r in kept)
            && (forall r <- kept :: !LongGone(r, now))
            && |EndedPlaces(kept)| == (if recent >= 100 then 99 else recent)
            && (forall r <- kept, d <- runs :: HasEnded(r) && d !in kept && !LongGone(d, now) ==>
                  GetOr(d.finishedAt, d.createdAt) <= GetOr(r.finishedAt, r.createdAt))
  {
    PruneKeepsTheRightRuns(runs, now);
    EndedSize(Pruned(runs, now));
    CandidatesSize(runs, now);
    KeepInOrder(runs, StaleIds(runs, now) + Ids(Excess(runs, now)));
    forall r, d | r in Pruned(runs, now) && d in runs && HasEnded(r) && d !in Pruned(runs, now) && !LongGone(d, now)
      ensures GetOr(d.finishedAt, d.createdAt) <= GetOr(r.finishedAt, r.createdAt)
    {
      assert SortKey(d) <= SortKey(r);
    }
  }

  // ---------- The manager as a state machine ----------

  datatype ManagerEvent =
    | Submit(id: string, owner: string, now: real)
    | OnRun(id: string, event: RunEvent)

  /** The registered runs, and every run id ever issued. */
  datatype Manager = Manager(runs: seq<Run>, issued: set<string>)

  function Updated(q: Run, id: string, e: RunEvent): (r: Run)
    ensures r.id == q.id
  {
    if q.id == id then Step(q, e) else q
  }

  /** The event happens to the run with the given id. */
  function Update(runs: seq<Run>, id: string, e: RunEvent): (r: seq<Run>)
    ensures |r| == |runs| && forall i :: 0 <= i < |runs| ==> r[i] == Updated(runs[i], id, e)
  {
    seq(|runs|, i requires 0 <= i < |runs| => Updated(runs[i], id, e))
  }

  function Next(m: Manager, e: ManagerEvent): Manager {
    match e
    case Submit(id, owner, now) =>
      Manager(Pruned(m.runs, now) + [Step(NewRun(id, owner, now), TaskCreated)], m.issued + {id})
    case OnRun(id, event) => m.(runs := Update(m.runs, id, event))
  }

  /** Random run ids never repeat, and exception classes have names. */
  predicate Allowed(m: Manager, e: ManagerEvent) {
    match e
    case Submit(id, _, _) => id !in m.issued
    case OnRun(_, event) => Possible(event)
  }

  ghost predicate Sound(m: Manager) {
    && DistinctIds(m.runs)
    && forall r <- m.runs :: Consistent(r) && r.id in m.issued
  }

  lemma UpdateMember(runs: seq<Run>, id: string, e: RunEvent, r: Run) returns (q: Run)
    requires r in Update(runs, id, e)
    ensures q in runs && r == Updated(q, id, e)
  {
    var i :| 0 <= i < |runs| && Update(runs, id, e)[i] == r;
    q := runs[i];
  }

  lemma SubmitKeeps(m: Manager, id: string, owner: string, now: real)
    requires Sound(m) && id !in m.issued
    ensures Sound(Next(m, Submit(id, owner, now)))
  {
    var added := Step(NewRun(id, owner, now), TaskCreated);
    var kept := Pruned(m.runs, now);
    PruneKeepsTheRightRuns(m.runs, now);
    forall r | r in kept + [added] ensures Consistent(r) && r.id in m.issued + {id} {
      if r in kept {
        assert r in m.runs;
      }
    }
  }

  lemma OnRunKeeps(m: Manager, id: string, e: RunEvent)
    requires Sound(m) && Possible(e)
    ensures Sound(Next(m, OnRun(id, e)))
  {
    var runs := Update(m.runs, id, e);
    forall r | r in runs ensures Consistent(r) && r.id in m.issued {
      var q := UpdateMember(m.runs, id, e, r);
      StepKeeps(q, e);
    }
    forall i, j | 0 <= i < j < |runs| ensures runs[i].id != runs[j].id {
      assert m.runs[i].id != m.runs[j].id;
    }
  }

  lemma NextKeeps(m: Manager, e: ManagerEvent)
    requires Sound(m) && Allowed(m, e)
    ensures Sound(Next(m, e))
  {
    match e
    case Submit(id, owner, now) => SubmitKeeps(m, id, owner, now);
    case OnRun(id, event) => OnRunKeeps(m, id, event);
  }

  /** An event happens to the run that it names and to no other, and a submission adds one queued run
      with the given id and owner behind those that pruning keeps. */
  lemma NextTouchesOneRun(m: Manager, e: ManagerEvent)
    ensures e.OnRun? ==>
              var after := Next(m, e).runs;
              |after| == |m.runs|
              && forall i :: 0 <= i < |m.runs| ==>
                   after[i] == if m.runs[i].id == e.id then Step(m.runs[i], e.event) else m.runs[i]
    ensures e.Submit? ==>
              var kept, after := Pruned(m.runs, e.now), Next(m, e).runs;
              |after| == |kept| + 1 && after[..|kept|] == kept
              && after[|kept|] == Run(e.id, e.owner, Queued, e.now, None, None, None, None, Waiting, false)
    ensures Next(m, e).issued == if e.Submit? then m.issued + {e.id} else m.issued
  {
  }

  /** `q` continues `r`: the same run, further on; an ended run shows the same for ever. */
  predicate Continues(r: Run, q: Run) {
    q.id == r.id && Leads(r.status, q.status) && (Terminal(r.status) ==> Frozen(r, q))
  }

  ghost predicate Present(runs: seq<Run>, r: Run) {
    exists q <- runs :: Continues(r, q)
  }

  ghost predicate Absent(runs: seq<Run>, id: string) {
    forall q <- runs :: q.id != id
  }

  /** One event keeps every run that has not ended; an ended run stays as it is or disappears. */
  lemma NextContinues(m: Manager, e: ManagerEvent, r: Run)
    requires Sound(m) && Allowed(m, e) && r in m.runs
    ensures Present(Next(m, e).runs, r) || (Terminal(r.status) && Absent(Next(m, e).runs, r.id))
  {
    match e
    case Submit(id, owner, now) =>
      PruneKeepsTheRightRuns(m.runs, now);
      if r in Pruned(m.runs, now) {
        assert r in Next(m, e).runs && Continues(r, r);
      } else {
        forall q | q in Next(m, e).runs ensures q.id != r.id {
          if q.id == r.id {
            assert q in m.runs;
            SameRun(m.runs, q, r);
          }
        }
      }
    case OnRun(id, event) =>
      var i :| 0 <= i < |m.runs| && m.runs[i] == r;
      StepKeeps(r, event);
      assert Next(m, e).runs[i] == Updated(r, id, event);
      assert Updated(r, id, event) in Next(m, e).runs;
      assert Continues(r, Updated(r, id, event));
  }

  lemma StaysAbsent(m: Manager, e: ManagerEvent, id: string)
    requires Sound(m) && Allowed(m, e) && Absent(m.runs, id) && id in m.issued
    ensures Absent(Next(m, e).runs, id)
  {
    match e
    case Submit(_, _, now) => PruneKeepsTheRightRuns(m.runs, now);
    case OnRun(run, event) =>
      forall q | q in Next(m, e).runs ensures q.id != id {
        var before := UpdateMember(m.runs, run, event, q);
      }
  }

  function After(m: Manager, events: seq<ManagerEvent>): Manager
    decreases |events|
  {
    if events == [] then m else After(Next(m, events[0]), events[1..])
  }

  predicate AllAllowed(m: Manager, events: seq<ManagerEvent>)
    decreases |events|
  {
    events != [] ==> Allowed(m, events[0]) && AllAllowed(Next(m, events[0]), events[1..])
  }

  lemma {:induction false} GoneForEver(m: Manager, events: seq<ManagerEvent>, id: string)
    requires Sound(m) && AllAllowed(m, events) && Absent(m.runs, id) && id in m.issued
    ensures Sound(After(m, events)) && Absent(After(m, events).runs, id)
    decreases |events|
  {
    if events != [] {
      NextKeeps(m, events[0]);
      StaysAbsent(m, events[0], id);
      GoneForEver(Next(m, events[0]), events[1..], id);
    }
  }

  /** At some moment before the end the run was still registered, and had ended. */
  ghost predicate EndedEarlier(m: Manager, events: seq<ManagerEvent>, r: Run) {
    exists k, p :: 0 <= k < |events| && p in After(m, events[..k]).runs && Continues(r, p) && Terminal(p.status)
  }

  lemma EndedEarlierStep(m: Manager, events: seq<ManagerEvent>, r: Run, q: Run)
    requires events != [] && Continues(r, q) && EndedEarlier(Next(m, events[0]), events[1..], q)
    ensures EndedEarlier(m, events, r)
  {
    var m', rest := Next(m, events[0]), events[1..];
    var k, p :| 0 <= k < |rest| && p in After(m', rest[..k]).runs && Continues(q, p) && Terminal(p.status);
    assert events[..k + 1][0] == events[0] && events[..k + 1][1..] == rest[..k];
    assert Continues(r, p) && p in After(m, events[..k + 1]).runs;
  }

  lemma PresentStep(runs: seq<Run>, r: Run, q: Run)
    requires Continues(r, q) && Present(runs, q)
    ensures Present(runs, r)
  {
    var z :| z in runs && Continues(q, z);
    assert Continues(r, z);
  }

  /** Over every interleaving of submissions and run events, each registered run is still there
      and only moved forward, or it is gone for ever and had ended before that. */
  lemma {:induction false} EveryRunContinuesOrEnded(m: Manager, events: seq<ManagerEvent>, r: Run)
    requires Sound(m) && AllAllowed(m, events) && r in m.runs
    ensures Sound(After(m, events))
    ensures Present(After(m, events).runs, r) || (Absent(After(m, events).runs, r.id) && EndedEarlier(m, events, r))
    decreases |events|
  {
    if events == [] {
      assert Continues(r, r);
    } else {
      var m' := Next(m, events[0]);
      NextKeeps(m, events[0]);
      NextContinues(m, events[0], r);
      if Present(m'.runs, r) {
        var q :| q in m'.runs && Continues(r, q);
        EveryRunContinuesOrEnded(m', events[1..], q);
        if Present(After(m', events[1..]).runs, q) {
          PresentStep(After(m', events[1..]).runs, r, q);
        } else {
          EndedEarlierStep(m, events, r, q);
        }
      } else {
        GoneForEver(m', events[1..], r.id);
        assert events[..0] == [] && r in After(m, events[..0]).runs && Continues(r, r);
      }
    }
  }
}
