/** The life of one run as a state machine: one event for each stretch between two awaits. */
module JobRuns {
  import opened Wrappers

  datatype Status = Queued | Running | Succeeded | Failed | Cancelled

  predicate Terminal(s: Status) {
    s == Succeeded || s == Failed || s == Cancelled
  }

  /** The task that executes a run: not created, created but not begun, inside the runner, over. */
  datatype Task = NoTask | Waiting | Started | Over

  datatype Run = Run(
    id: string, owner: string, status: Status,
    createdAt: real, startedAt: Option<real>, finishedAt: Option<real>,
    result: Option<string>, error: Option<string>,
    task: Task, cancelRequested: bool)

  /** How the runner leaves its await: a value, a cancellation, an exception with its message and
      class name, or an interrupt of the whole process that the run does not catch. */
  datatype Exit = Returned(value: string) | CancelDelivered | Raised(message: string, className: string) | Interrupted

  datatype RunEvent =
    | TaskCreated
    | TaskBegins(now: real)
    | RunnerExits(exit: Exit, now: real)
    | CancelAsked(now: real)

  function NewRun(id: string, owner: string, now: real): Run {
    Run(id, owner, Queued, now, None, None, None, None, NoTask, false)
  }

  /** A task that was cancelled before its first step ends without entering the body. */
  function Begin(r: Run, now: real): Run {
    if r.task != Waiting then r
    else if r.cancelRequested then r.(task := Over)
    else r.(task := Started, status := Running, startedAt := Some(now))
  }

  function Exited(r: Run, exit: Exit, now: real): Run {
    if r.task != Started then r
    else match exit
      case Returned(value) => r.(task := Over, result := Some(value), status := Succeeded, finishedAt := Some(now))
      case CancelDelivered => r.(task := Over, status := Cancelled, finishedAt := Some(now))
      case Raised(message, className) =>
        r.(task := Over, status := Failed,
           error := Some(if message != "" then message else className), finishedAt := Some(now))
      case Interrupted => r.(task := Over)
  }

  function AskCancel(r: Run, now: real): Run {
    if Terminal(r.status) then r
    else if r.task == NoTask || r.task == Over then r.(status := Cancelled, finishedAt := Some(now))
    else if r.status == Queued then r.(cancelRequested := true, status := Cancelled, finishedAt := Some(now))
    else r.(cancelRequested := true)
  }

  function Step(r: Run, e: RunEvent): Run {
    match e
    case TaskCreated => if r.task == NoTask && r.status == Queued then r.(task := Waiting) else r
    case TaskBegins(now) => Begin(r, now)
    case RunnerExits(exit, now) => Exited(r, exit, now)
    case CancelAsked(now) => AskCancel(r, now)
  }

  /** Exception classes have names, so the error text of a failed run is never empty. */
  predicate Possible(e: RunEvent) {
    e.RunnerExits? && e.exit.Raised? ==> e.exit.className != ""
  }

  function Trace(r: Run, events: seq<RunEvent>): Run {
    if events == [] then r else Step(Trace(r, events[..|events| - 1]), events[|events| - 1])
  }

  // ---------- What every interleaving keeps ----------

  ghost predicate Consistent(r: Run) {
    && (Terminal(r.status) <==> r.finishedAt.Some?)
    && (r.status == Failed <==> r.error.Some?) && (r.error.Some? ==> r.error.value != "")
    && (r.status == Succeeded <==> r.result.Some?)
    && (r.status == Queued ==> (r.task == NoTask || r.task == Waiting) && !r.cancelRequested && r.startedAt.None?)
    && (r.task == Waiting ==> r.status == Queued || (r.status == Cancelled && r.cancelRequested))
    && (r.task == Started ==> r.status == Running)
    && (r.status == Running || r.status == Succeeded || r.status == Failed ==> r.startedAt.Some?)
  }

  /** The moves that a status may make; a terminal status stays. */
  predicate Leads(a: Status, b: Status) {
    a == b || (a == Queued && (b == Running || Terminal(b))) || (a == Running && Terminal(b))
  }

  /** The moves of one step: from the queue to running or cancelled, from running to a terminal status. */
  predicate Moves(a: Status, b: Status) {
    a == b || (a == Queued && (b == Running || b == Cancelled)) || (a == Running && Terminal(b))
  }

  /** A run that has ended never changes what it shows; only its task may still wind down. */
  predicate Frozen(a: Run, b: Run) {
    b.(task := a.task, cancelRequested := a.cancelRequested) == a
  }

  lemma StepKeeps(r: Run, e: RunEvent)
    requires Consistent(r) && Possible(e)
    ensures Consistent(Step(r, e)) && Moves(r.status, Step(r, e).status)
    ensures Terminal(r.status) ==> Frozen(r, Step(r, e))
    ensures Step(r, e).result != r.result ==>
              e.RunnerExits? && e.exit.Returned? && r.status == Running && Step(r, e).result == Some(e.exit.value)
  {
  }

  lemma {:induction false} TraceKeeps(r: Run, events: seq<RunEvent>)
    requires Consistent(r) && forall e <- events :: Possible(e)
    ensures Consistent(Trace(r, events)) && Leads(r.status, Trace(r, events).status)
    ensures Terminal(r.status) ==> Frozen(r, Trace(r, events))
    decreases |events|
  {
    if events != [] {
      var init, last := events[..|events| - 1], events[|events| - 1];
      TraceKeeps(r, init);
      assert last in events;
      StepKeeps(Trace(r, init), last);
    }
  }

  lemma {:induction false} TraceSplits(r: Run, a: seq<RunEvent>, b: seq<RunEvent>)
    ensures Trace(r, a + b) == Trace(Trace(r, a), b)
    decreases |b|
  {
    if b == [] {
      assert a + b == a;
    } else {
      assert (a + b)[..|a + b| - 1] == a + b[..|b| - 1];
      TraceSplits(r, a, b[..|b| - 1]);
    }
  }

  /** From submission on, at any two moments of any interleaving, the run is consistent, its status
      moved only forward, and once it was terminal everything it shows stayed as it was. */
  lemma StatusOnlyMovesForward(id: string, owner: string, now: real, events: seq<RunEvent>, i: nat, j: nat)
    requires i <= j <= |events| && forall e <- events :: Possible(e)
    ensures var a, b := Trace(NewRun(id, owner, now), events[..i]), Trace(NewRun(id, owner, now), events[..j]);
            && Consistent(a) && Consistent(b) && Leads(a.status, b.status)
            && (Terminal(a.status) ==> Frozen(a, b))
  {
    var r := NewRun(id, owner, now);
    assert events[..j] == events[..i] + events[i..j];
    TraceSplits(r, events[..i], events[i..j]);
    TraceKeeps(r, events[..i]);
    TraceKeeps(Trace(r, events[..i]), events[i..j]);
  }

  /** The event at k made a running run succeed. */
  ghost predicate SucceedsAt(r: Run, events: seq<RunEvent>, k: nat) {
    k < |events| && Trace(r, events[..k]).status == Running && Trace(r, events[..k + 1]).status == Succeeded
  }

  lemma SucceedsOnce(id: string, owner: string, now: real, events: seq<RunEvent>, i: nat, j: nat)
    requires forall e <- events :: Possible(e)
    requires SucceedsAt(NewRun(id, owner, now), events, i) && SucceedsAt(NewRun(id, owner, now), events, j)
    ensures i == j
  {
    if i < j {
      StatusOnlyMovesForward(id, owner, now, events, i + 1, j);
    } else if j < i {
      StatusOnlyMovesForward(id, owner, now, events, j + 1, i);
    }
  }

  /** A stored result is the value of a return, the only event that made the running run succeed. */
  lemma {:induction false} ResultComesFromReturn(id: string, owner: string, now: real, events: seq<RunEvent>)
    returns (k: nat)
    requires forall e <- events :: Possible(e)
    requires Trace(NewRun(id, owner, now), events).result.Some?
    ensures k < |events| && events[k].RunnerExits?
    ensures events[k].exit == Returned(Trace(NewRun(id, owner, now), events).result.value)
    ensures forall j: nat :: SucceedsAt(NewRun(id, owner, now), events, j) <==> j == k
    decreases |events|
  {
    var r := NewRun(id, owner, now);
    var n := |events| - 1;
    var init, last := events[..n], events[n];
    assert last in events;
    TraceKeeps(r, init);
    StepKeeps(Trace(r, init), last);
    if Trace(r, init).result.Some? {
      k := ResultComesFromReturn(id, owner, now, init);
      assert SucceedsAt(r, init, k);
      assert events[..k] == init[..k] && events[..k + 1] == init[..k + 1];
    } else {
      k := n;
      assert events[..n + 1] == events;
    }
    assert SucceedsAt(r, events, k);
    forall j: nat | SucceedsAt(r, events, j) ensures j == k {
      SucceedsOnce(id, owner, now, events, j, k);
    }
  }

  /** A run cancelled in the queue never starts, whatever happens afterwards. */
  lemma CancelledInQueueNeverStarts(r: Run, asked: real, later: seq<RunEvent>)
    requires Consistent(r) && r.status == Queued && forall e <- later :: Possible(e)
    ensures var end := Trace(Step(r, CancelAsked(asked)), later);
            end.status == Cancelled && end.startedAt.None? && end.finishedAt == Some(asked) && end.result.None?
  {
    StepKeeps(r, CancelAsked(asked));
    TraceKeeps(Step(r, CancelAsked(asked)), later);
  }

  // ---------- The one way not to end ----------

  /** The task is over, but the run has no terminal status. */
  predicate Stuck(r: Run) {
    r.task == Over && !Terminal(r.status)
  }

  /** The k-th event interrupts the runner in its await, and no cancel is asked for afterwards. */
  ghost predicate InterruptedFor(r: Run, events: seq<RunEvent>, k: nat) {
    && k < |events| && events[k].RunnerExits? && events[k].exit.Interrupted?
    && Trace(r, events[..k]).task == Started
    && forall j :: k < j < |events| ==> !events[j].CancelAsked?
  }

  /** Along any interleaving, a run whose task is over has not ended if and only if an interrupt took
      it out of its await and no cancel came later. */
  lemma {:induction false} StuckIffInterrupted(id: string, owner: string, now: real, events: seq<RunEvent>)
    requires forall e <- events :: Possible(e)
    ensures Stuck(Trace(NewRun(id, owner, now), events))
            <==> exists k: nat :: InterruptedFor(NewRun(id, owner, now), events, k)
    decreases |events|
  {
    var r := NewRun(id, owner, now);
    if events != [] {
      var n := |events| - 1;
      var init, last := events[..n], events[n];
      assert last in events;
      TraceKeeps(r, init);
      StuckIffInterrupted(id, owner, now, init);
      StuckStep(Trace(r, init), last);
      InterruptedNext(r, init, last);
      assert events == init + [last];
    }
  }

  lemma InterruptedNext(r: Run, init: seq<RunEvent>, last: RunEvent)
    ensures (exists k: nat :: InterruptedFor(r, init + [last], k))
            <==> InterruptsNow(Trace(r, init), last) || (!last.CancelAsked?
                                                         && exists k: nat :: InterruptedFor(r, init, k))
  {
    var events, n := init + [last], |init|;
    assert events[..n] == init && events[n] == last;
    if k: nat :| InterruptedFor(r, init, k) && !last.CancelAsked? {
      assert init[..k] == events[..k];
      assert InterruptedFor(r, events, k);
    }
    if k: nat :| InterruptedFor(r, events, k) && k < n {
      assert init[..k] == events[..k];
      assert InterruptedFor(r, init, k) && !events[n].CancelAsked?;
    }
    assert InterruptedFor(r, events, n) <==> InterruptsNow(Trace(r, init), last);
  }

  predicate InterruptsNow(r: Run, e: RunEvent) {
    e.RunnerExits? && e.exit.Interrupted? && r.task == Started
  }

  lemma StuckStep(r: Run, e: RunEvent)
    requires Consistent(r)
    ensures Stuck(Step(r, e)) <==> (Stuck(r) && !e.CancelAsked?) || InterruptsNow(r, e)
  {
  }
}
