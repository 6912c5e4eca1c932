/** The in-process runner: run objects and the manager that owns them, updated in place. */
module JobRunner {
  import opened Wrappers
  import opened Sequences
  import opened Sorting
  import opened JobRuns
  import opened JobManager

  class FeatureRun {
    const runId: string
    const owner: string
    const createdAt: real
    var status: Status
    var startedAt: Option<real>
    var finishedAt: Option<real>
    var result: Option<string>
    var error: Option<string>
    var task: Task
    var cancelRequested: bool

    constructor (runId: string, owner: string, now: real)
      ensures View() == NewRun(runId, owner, now)
    {
      this.runId, this.owner, this.createdAt := runId, owner, now;
      status, startedAt, finishedAt, result, error := Queued, None, None, None, None;
      task, cancelRequested := NoTask, false;
    }

    ghost function View(): Run
      reads this
    {
      Run(runId, owner, status, createdAt, startedAt, finishedAt, result, error, task, cancelRequested)
    }

    method CreateTask()
      requires task == NoTask && status == Queued
      modifies this`task
      ensures View() == Step(old(View()), TaskCreated)
    {
      task := Waiting;
    }

    /** The first step of the task: the body up to the await of the runner. */
    method BeginExecute(now: real) returns (entered: bool)
      requires task == Waiting
      modifies this
      ensures View() == Step(old(View()), TaskBegins(now))
      ensures entered <==> !old(cancelRequested)
      ensures entered ==> status == Running && startedAt == Some(now)
      ensures !entered ==> task == Over && status == old(status) && startedAt == old(startedAt)
    {
      if cancelRequested {
        task := Over;
        return false;
      }
      status := Running;
      startedAt := Some(now);
      task := Started;
      entered := true;
    }

    /** The rest of the body, after the runner's await ended; an interrupt is not caught. */
    method FinishExecute(exit: Exit, now: real)
      requires task == Started
      modifies this
      ensures View() == Step(old(View()), RunnerExits(exit, now)) && task == Over
      ensures match exit
              case Returned(value) => status == Succeeded && result == Some(value) && finishedAt == Some(now)
              case CancelDelivered => status == Cancelled && result == old(result) && finishedAt == Some(now)
              case Raised(message, className) =>
                status == Failed && error == Some(if message == "" then className else message)
                && finishedAt == Some(now)
              case Interrupted => status == old(status) && finishedAt == old(finishedAt)
    {
      task := Over;
      match exit {
        case Returned(value) =>
          result := Some(value);
          status := Succeeded;
        case CancelDelivered =>
          status := Cancelled;
        case Raised(message, className) =>
          status := Failed;
          error := Some(if message != "" then message else className);
        case Interrupted =>
          return;
      }
      finishedAt := Some(now);
    }

    /** Cancelling, up to the await of the task; `waits` tells whether it gets that far. */
    method Cancel(now: real) returns (waits: bool)
      modifies this
      ensures View() == Step(old(View()), CancelAsked(now))
      ensures waits ==> cancelRequested && !Terminal(status) && task == old(task)
      ensures !waits ==> Terminal(status)
      ensures !waits && !Terminal(old(status)) ==> status == Cancelled && finishedAt == Some(now)
    {
      if Terminal(status) {
        return false;
      }
      if task == NoTask || task == Over {
        status := Cancelled;
        finishedAt := Some(now);
        return false;
      }
      cancelRequested := true;
      if status == Queued {
        status := Cancelled;
        finishedAt := Some(now);
        return false;
      }
      waits := true;
    }
  }

  ghost function Views(runs: seq<FeatureRun>): seq<Run>
    reads runs
  {
    if runs == [] then [] else [runs[0].View()] + Views(runs[1..])
  }

  lemma {:induction false} ViewsAppend(a: seq<FeatureRun>, b: seq<FeatureRun>)
    ensures Views(a + b) == Views(a) + Views(b)
  {
    if a == [] {
      assert a + b == b;
    } else {
      ViewsAppend(a[1..], b);
      assert (a + b)[1..] == a[1..] + b;
    }
  }

  lemma NextView(runs: seq<FeatureRun>, i: nat)
    requires i < |runs|
    ensures Views(runs[i..]) == [runs[i].View()] + Views(runs[i + 1..]) && Views(runs[i..])[1..] == Views(runs[i + 1..])
  {
    assert runs[i..][1..] == runs[i + 1..];
  }

  /** Deleting a run from the dictionary. */
  function Without(runs: seq<FeatureRun>, dropped: set<string>): seq<FeatureRun> {
    if runs == [] then []
    else if runs[0].runId in dropped then Without(runs[1..], dropped)
    else [runs[0]] + Without(runs[1..], dropped)
  }

  lemma {:induction false} WithoutTwice(runs: seq<FeatureRun>, a: set<string>, b: set<string>)
    ensures Without(Without(runs, a), b) == Without(runs, a + b)
  {
    if runs != [] {
      WithoutTwice(runs[1..], a, b);
    }
  }

  lemma {:induction false} WithoutIsKeep(runs: seq<FeatureRun>, dropped: set<string>)
    ensures Views(Without(runs, dropped)) == Keep(Views(runs), dropped)
  {
    if runs != [] {
      WithoutIsKeep(runs[1..], dropped);
      assert Views(runs)[1..] == Views(runs[1..]);
    }
  }

  class RunManager {
    var runs: seq<FeatureRun>

    constructor ()
      ensures runs == []
    {
      runs := [];
    }

    /** The ids of the stale runs, and the other ended runs with their sort keys. */
    method Survey(now: real) returns (stale: seq<string>, candidates: seq<(string, real)>)
      ensures SetOf(stale) == StaleIds(Views(runs), now) && candidates == Candidates(Views(runs), now)
    {
      stale, candidates := [], [];
      for i := 0 to |runs|
        invariant SetOf(stale) + StaleIds(Views(runs[i..]), now) == StaleIds(Views(runs), now)
        invariant candidates + Candidates(Views(runs[i..]), now) == Candidates(Views(runs), now)
      {
        var run := runs[i];
        NextView(runs, i);
        if Terminal(run.status) {
          if run.finishedAt.Some? && now - run.finishedAt.value > RUN_RETENTION_SECONDS {
            SetOfSnoc(stale, run.runId);
            stale := stale + [run.runId];
          } else {
            Assoc(candidates,
                  [(run.runId, if run.finishedAt.Some? then run.finishedAt.value else run.createdAt)],
                  Candidates(Views(runs[i + 1..]), now));
            candidates := candidates + [(run.runId,
                                         if run.finishedAt.Some? then run.finishedAt.value else run.createdAt)];
          }
        }
      }
    }

    method DeleteAll(ids: seq<string>)
      modifies this
      ensures runs == Without(old(runs), SetOf(ids))
    {
      WithoutNothing(runs);
      for i := 0 to |ids|
        invariant runs == Without(old(runs), SetOf(ids[..i]))
      {
        WithoutTwice(old(runs), SetOf(ids[..i]), {ids[i]});
        SetOfSnoc(ids[..i], ids[i]);
        assert ids[..i + 1] == ids[..i] + [ids[i]];
        runs := Without(runs, {ids[i]});
      }
      assert ids[..|ids|] == ids;
    }

    /** Drops the ended runs past retention, then the oldest ended runs beyond the cap. */
    method Prune(now: real)
      modifies this
      ensures Views(runs) == Pruned(old(Views(runs)), now)
    {
      var stale, candidates := Survey(now);
      var excess := Sort(candidates, Earlier);
      SortKeepsLength(candidates);
      var surplus := if |candidates| >= MAX_TERMINAL_RUNS then |candidates| - MAX_TERMINAL_RUNS + 1 else 0;
      var excessIds := FirstIds(excess[..surplus]);
      DeleteBoth(stale, excessIds);
    }

    method DeleteBoth(a: seq<string>, b: seq<string>)
      modifies this
      ensures Views(runs) == Keep(old(Views(runs)), SetOf(a) + SetOf(b))
    {
      ghost var kept := Without(runs, SetOf(a) + SetOf(b));
      WithoutTwice(runs, SetOf(a), SetOf(b));
      WithoutIsKeep(runs, SetOf(a) + SetOf(b));
      DeleteAll(a);
      DeleteAll(b);
      assert runs == kept && forall r <- kept :: r as object != this;
      assert Views(kept) == old(Views(kept));
    }

    /** Registers a run and creates its task. */
    method Submit(runId: string, owner: string, now: real) returns (run: FeatureRun)
      modifies this
      ensures fresh(run) && run in runs && run.task == Waiting
      ensures Views(runs) == Pruned(old(Views(runs)), now) + [Step(NewRun(runId, owner, now), TaskCreated)]
    {
      Prune(now);
      run := NewQueued(runId, owner, now);
      ViewsAppend(runs, [run]);
      assert Views([run]) == [run.View()] + Views([]);
      runs := runs + [run];
    }
  }

  /** A new run whose task waits. */
  method NewQueued(runId: string, owner: string, now: real) returns (run: FeatureRun)
    ensures fresh(run) && run.task == Waiting && run.View() == Step(NewRun(runId, owner, now), TaskCreated)
  {
    run := new FeatureRun(runId, owner, now);
    run.CreateTask();
  }

  function SetOf(ids: seq<string>): set<string> {
    if ids == [] then {} else {ids[0]} + SetOf(ids[1..])
  }

  lemma {:induction false} SetOfSnoc(ids: seq<string>, id: string)
    ensures SetOf(ids + [id]) == SetOf(ids) + {id}
  {
    if ids == [] {
      assert ids + [id] == [id] && [id][1..] == [];
    } else {
      SetOfSnoc(ids[1..], id);
      assert (ids + [id])[1..] == ids[1..] + [id];
    }
  }

  function FirstIds(pairs: seq<(string, real)>): (ids: seq<string>)
    ensures SetOf(ids) == Ids(pairs)
  {
    if pairs == [] then []
    else
      var rest := FirstIds(pairs[1..]);
      assert ([pairs[0].0] + rest)[1..] == rest;
      [pairs[0].0] + rest
  }

  lemma {:induction false} WithoutNothing(runs: seq<FeatureRun>)
    ensures Without(runs, {}) == runs
  {
    if runs != [] {
      WithoutNothing(runs[1..]);
    }
  }
}
