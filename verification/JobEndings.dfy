/** How a run starts and ends, told by its events alone. */
module JobEndings {
  import opened Wrappers
  import opened JobRuns

  // ---------- Which events take effect ----------

  /** No cancel is asked for from the i-th event up to the n-th. */
  ghost predicate NoCancel(events: seq<RunEvent>, i: nat, n: nat)
    requires n <= |events|
  {
    forall j :: i <= j < n ==> !events[j].CancelAsked?
  }

  ghost predicate Created(events: seq<RunEvent>, n: nat)
    requires n <= |events|
  {
    exists a :: 0 <= a < n && events[a].TaskCreated?
  }

  /** After n events the task exists, has not begun, and no cancel was asked for. */
  ghost predicate Ready(events: seq<RunEvent>, n: nat)
    requires n <= |events|
  {
    Created(events, n) && NoCancel(events, 0, n)
    && forall a, j :: 0 <= a < j < n && events[a].TaskCreated? ==> !events[j].TaskBegins?
  }

  /** The b-th event takes the run into its runner. */
  ghost predicate Starts(events: seq<RunEvent>, b: nat)
    requires b < |events|
  {
    events[b].TaskBegins? && Ready(events, b)
  }

  /** After n events the run is inside its runner. */
  ghost predicate Inside(events: seq<RunEvent>, n: nat)
    requires n <= |events|
  {
    exists b: nat :: b < n && Starts(events, b) && forall j :: b < j < n ==> !events[j].RunnerExits?
  }

  /** The c-th event is the exit of the runner that the run is in. */
  ghost predicate Leaves(events: seq<RunEvent>, c: nat)
    requires c < |events|
  {
    events[c].RunnerExits? && Inside(events, c)
  }

  ghost predicate NeverStarted(events: seq<RunEvent>, n: nat)
    requires n <= |events|
  {
    forall b: nat :: b < n ==> !Starts(events, b)
  }

  /** An interrupt took the run out of its runner, and no cancel was asked for since. */
  ghost predicate LeftOpen(events: seq<RunEvent>, n: nat)
    requires n <= |events|
  {
    exists c: nat :: c < n && Leaves(events, c) && events[c].exit.Interrupted? && NoCancel(events, c + 1, n)
  }

  /** The x-th event cancels the run at once: it is the first cancel of a run that never started, or
      the first one after an interrupt. */
  ghost predicate CancelsAtOnce(events: seq<RunEvent>, x: nat)
    requires x < |events|
  {
    events[x].CancelAsked? && ((NoCancel(events, 0, x) && NeverStarted(events, x)) || LeftOpen(events, x))
  }

  // ---------- What the run shows ----------

  ghost predicate StartIsTold(r: Run, events: seq<RunEvent>, n: nat)
    requires n <= |events|
  {
    forall t :: r.startedAt == Some(t) <==> exists b: nat :: b < n && Starts(events, b) && events[b].now == t
  }

  /** Where the run and its task stand after n events. */
  ghost predicate TaskIsTold(r: Run, events: seq<RunEvent>, n: nat)
    requires n <= |events|
  {
    && (r.task == NoTask && r.status == Queued <==> !Created(events, n) && NoCancel(events, 0, n))
    && (r.task == Waiting && !r.cancelRequested <==> Ready(events, n))
    && (r.task == Started <==> Inside(events, n))
    && (r.status == Queued <==> NoCancel(events, 0, n) && NeverStarted(events, n))
    && (r.status == Running <==> Inside(events, n) || LeftOpen(events, n))
    && (r.status == Running && r.task == Over <==> LeftOpen(events, n))
  }

  ghost predicate ReturnsAt(events: seq<RunEvent>, c: nat, value: string, t: real)
    requires c < |events|
  {
    Leaves(events, c) && events[c] == RunnerExits(Returned(value), t)
  }

  /** The runner raises, and the text is its message, or its class name where the message is empty. */
  ghost predicate RaisesAt(events: seq<RunEvent>, c: nat, text: string, t: real)
    requires c < |events|
  {
    && Leaves(events, c) && events[c].exit.Raised? && events[c].now == t
    && (text == events[c].exit.message != "" || (events[c].exit.message == "" && text == events[c].exit.className))
  }

  ghost predicate CancelledBy(events: seq<RunEvent>, c: nat, t: real)
    requires c < |events|
  {
    || (Leaves(events, c) && events[c] == RunnerExits(CancelDelivered, t))
    || (CancelsAtOnce(events, c) && events[c] == CancelAsked(t))
  }

  ghost predicate HasReturned(events: seq<RunEvent>, n: nat, value: string, t: real)
    requires n <= |events|
  {
    exists c: nat :: c < n && ReturnsAt(events, c, value, t)
  }

  ghost predicate HasRaised(events: seq<RunEvent>, n: nat, text: string, t: real)
    requires n <= |events|
  {
    exists c: nat :: c < n && RaisesAt(events, c, text, t)
  }

  ghost predicate WasCancelled(events: seq<RunEvent>, n: nat, t: real)
    requires n <= |events|
  {
    exists c: nat :: c < n && CancelledBy(events, c, t)
  }

  ghost predicate ReturnIsTold(r: Run, events: seq<RunEvent>, n: nat)
    requires n <= |events|
  {
    forall v, t :: HasReturned(events, n, v, t)
                   <==> r.status == Succeeded && r.result == Some(v) && r.finishedAt == Some(t)
  }

  ghost predicate FailureIsTold(r: Run, events: seq<RunEvent>, n: nat)
    requires n <= |events|
  {
    forall x, t :: HasRaised(events, n, x, t)
                   <==> r.status == Failed && r.error == Some(x) && r.finishedAt == Some(t)
  }

  ghost predicate CancelIsTold(r: Run, events: seq<RunEvent>, n: nat)
    requires n <= |events|
  {
    forall t :: WasCancelled(events, n, t) <==> r.status == Cancelled && r.finishedAt == Some(t)
  }

  /** Each way to end has its own events: what a terminal run shows, and when it ended. */
  ghost predicate EndIsTold(r: Run, events: seq<RunEvent>, n: nat)
    requires n <= |events|
  {
    ReturnIsTold(r, events, n) && FailureIsTold(r, events, n) && CancelIsTold(r, events, n)
  }

  // ---------- One event more ----------

  lemma ReadyNext(events: seq<RunEvent>, n: nat)
    requires n < |events|
    ensures Ready(events, n + 1) <==>
              || (Ready(events, n) && !events[n].TaskBegins? && !events[n].CancelAsked?)
              || (!Created(events, n) && NoCancel(events, 0, n) && events[n].TaskCreated?)
  {
    if Created(events, n) {
      var a :| 0 <= a < n && events[a].TaskCreated?;
      assert Created(events, n + 1);
    } else if events[n].TaskCreated? {
      assert Created(events, n + 1);
    }
  }

  lemma CreatedNext(events: seq<RunEvent>, n: nat)
    requires n < |events|
    ensures Created(events, n + 1) <==> Created(events, n) || events[n].TaskCreated?
    ensures NoCancel(events, 0, n + 1) <==> NoCancel(events, 0, n) && !events[n].CancelAsked?
    ensures NeverStarted(events, n + 1) <==> NeverStarted(events, n) && !Starts(events, n)
  {
  }

  lemma InsideNext(events: seq<RunEvent>, n: nat)
    requires n < |events|
    ensures Inside(events, n + 1) <==> (Inside(events, n) && !events[n].RunnerExits?) || Starts(events, n)
  {
    if Inside(events, n) && !events[n].RunnerExits? {
      var b: nat :| b < n && Starts(events, b) && forall j :: b < j < n ==> !events[j].RunnerExits?;
      assert forall j :: b < j < n + 1 ==> !events[j].RunnerExits?;
    }
  }

  lemma LeftOpenNext(events: seq<RunEvent>, n: nat)
    requires n < |events|
    ensures LeftOpen(events, n + 1) <==>
              || (LeftOpen(events, n) && !events[n].CancelAsked?)
              || (Leaves(events, n) && events[n].exit.Interrupted?)
  {
    if LeftOpen(events, n) && !events[n].CancelAsked? {
      var c: nat :| c < n && Leaves(events, c) && events[c].exit.Interrupted? && NoCancel(events, c + 1, n);
      assert NoCancel(events, c + 1, n + 1);
    }
    if c: nat :| c < n && Leaves(events, c) && events[c].exit.Interrupted? && NoCancel(events, c + 1, n + 1) {
      assert NoCancel(events, c + 1, n) && !events[n].CancelAsked?;
    }
  }

  lemma TaskStep(r: Run, events: seq<RunEvent>, n: nat)
    requires n < |events| && Consistent(r) && TaskIsTold(r, events, n)
    ensures TaskIsTold(Step(r, events[n]), events, n + 1)
  {
    ReadyNext(events, n);
    CreatedNext(events, n);
    InsideNext(events, n);
    LeftOpenNext(events, n);
  }

  lemma StartStep(r: Run, events: seq<RunEvent>, n: nat)
    requires n < |events| && Consistent(r) && TaskIsTold(r, events, n) && StartIsTold(r, events, n)
    ensures StartIsTold(Step(r, events[n]), events, n + 1)
  {
    var q := Step(r, events[n]);
    forall t ensures q.startedAt == Some(t) <==> exists b: nat :: b < n + 1 && Starts(events, b) && events[b].now == t {
      assert r.startedAt == Some(t) <==> exists b: nat :: b < n && Starts(events, b) && events[b].now == t;
      if Starts(events, n) {
        assert r.startedAt.None? && q.startedAt == Some(events[n].now);
      } else {
        assert q.startedAt == r.startedAt;
      }
    }
  }

  lemma EndsNext(events: seq<RunEvent>, n: nat, m: nat)
    requires n < |events| && m == n + 1
    ensures forall v, t :: HasReturned(events, m, v, t) <==> HasReturned(events, n, v, t) || ReturnsAt(events, n, v, t)
    ensures forall x, t :: HasRaised(events, m, x, t) <==> HasRaised(events, n, x, t) || RaisesAt(events, n, x, t)
    ensures forall t :: WasCancelled(events, m, t) <==> WasCancelled(events, n, t) || CancelledBy(events, n, t)
  {
  }

  /** What ends a run, by where it stood before. */
  lemma EndingEvents(r: Run, events: seq<RunEvent>, n: nat)
    requires n < |events| && TaskIsTold(r, events, n)
    ensures Leaves(events, n) <==> events[n].RunnerExits? && r.task == Started
    ensures CancelsAtOnce(events, n)
            <==> events[n].CancelAsked? && (r.status == Queued || (r.status == Running && r.task == Over))
  {
  }

  lemma EndStep(r: Run, events: seq<RunEvent>, n: nat)
    requires n < |events| && Consistent(r) && TaskIsTold(r, events, n) && EndIsTold(r, events, n)
    ensures EndIsTold(Step(r, events[n]), events, n + 1)
  {
    var q, e := Step(r, events[n]), events[n];
    EndingEvents(r, events, n);
    if Leaves(events, n) {
      RunnerEnds(r, e);
      ExitIsTold(r, q, events, n, n + 1);
    } else if CancelsAtOnce(events, n) {
      CancelEnds(r, e);
      AskedIsTold(r, q, events, n, n + 1);
    } else {
      NothingEnds(r, e);
      SameIsTold(r, q, events, n, n + 1);
    }
  }

  lemma SameIsTold(r: Run, q: Run, events: seq<RunEvent>, n: nat, m: nat)
    requires n < |events| && m == n + 1 && EndIsTold(r, events, n) && !Leaves(events, n) && !CancelsAtOnce(events, n)
    requires q.status == r.status || (!Terminal(q.status) && !Terminal(r.status))
    requires q.result == r.result && q.error == r.error && q.finishedAt == r.finishedAt
    ensures EndIsTold(q, events, m)
  {
    EndsNext(events, n, m);
  }

  lemma AskedIsTold(r: Run, q: Run, events: seq<RunEvent>, n: nat, m: nat)
    requires n < |events| && m == n + 1 && EndIsTold(r, events, n) && !Terminal(r.status)
    requires !Leaves(events, n) && CancelsAtOnce(events, n)
    requires q.status == Cancelled && q.finishedAt == Some(events[n].now)
    ensures EndIsTold(q, events, m)
  {
    EndsNext(events, n, m);
    assert CancelledBy(events, n, events[n].now);
  }

  lemma ExitIsTold(r: Run, q: Run, events: seq<RunEvent>, n: nat, m: nat)
    requires n < |events| && m == n + 1 && EndIsTold(r, events, n) && Leaves(events, n) && !Terminal(r.status)
    requires Shows(q, events[n].exit, events[n].now)
    ensures EndIsTold(q, events, m)
  {
    EndsNext(events, n, m);
  }

  lemma CancelEnds(r: Run, e: RunEvent)
    requires Consistent(r) && e.CancelAsked? && (r.status == Queued || (r.status == Running && r.task == Over))
    ensures Step(r, e).status == Cancelled && Step(r, e).finishedAt == Some(e.now) && Step(r, e).result.None?
  {
  }

  lemma NothingEnds(r: Run, e: RunEvent)
    requires Consistent(r) && !(e.RunnerExits? && r.task == Started)
    requires !(e.CancelAsked? && (r.status == Queued || (r.status == Running && r.task == Over)))
    requires r.status == Running ==> r.task == Started || r.task == Over
    ensures var q := Step(r, e);
            && (q.status == r.status || (!Terminal(q.status) && !Terminal(r.status)))
            && q.result == r.result && q.error == r.error && q.finishedAt == r.finishedAt
  {
  }

  /** What a run shows that left its runner like this. */
  predicate Shows(q: Run, exit: Exit, now: real) {
    && (q.status == Succeeded <==> exit.Returned?)
    && (q.status == Failed <==> exit.Raised?)
    && (q.status == Cancelled <==> exit.CancelDelivered?)
    && (!exit.Interrupted? ==> q.finishedAt == Some(now))
    && (exit.Returned? ==> q.result == Some(exit.value))
    && (exit.Raised? ==> q.error == Some(if exit.message == "" then exit.className else exit.message))
  }

  lemma RunnerEnds(r: Run, e: RunEvent)
    requires Consistent(r) && e.RunnerExits? && r.task == Started
    ensures !Terminal(r.status) && Shows(Step(r, e), e.exit, e.now)
  {
  }

  // ---------- Any interleaving ----------

  lemma NewIsTold(r: Run, events: seq<RunEvent>)
    requires r.status == Queued && r.task == NoTask && r.startedAt.None?
    ensures TaskIsTold(r, events, 0) && StartIsTold(r, events, 0) && EndIsTold(r, events, 0)
  {
  }

  ghost predicate RunIsTold(r: Run, events: seq<RunEvent>, n: nat)
    requires n <= |events|
  {
    TaskIsTold(r, events, n) && StartIsTold(r, events, n) && EndIsTold(r, events, n)
  }

  lemma ToldNext(r: Run, events: seq<RunEvent>, n: nat)
    requires n < |events| && Consistent(r) && RunIsTold(r, events, n)
    ensures RunIsTold(Step(r, events[n]), events, n + 1)
  {
    TaskStep(r, events, n);
    StartStep(r, events, n);
    EndStep(r, events, n);
  }

  lemma TraceNext(r: Run, events: seq<RunEvent>, n: nat)
    requires n < |events|
    ensures Trace(r, events[..n + 1]) == Step(Trace(r, events[..n]), events[n])
  {
    assert events[..n + 1][..n] == events[..n];
  }

  /** After n events of any interleaving, the events alone tell where the run stands, when it started,
      whether and when it ended, and with which result or error. */
  lemma {:induction false} EventsTellTheRun(id: string, owner: string, now: real, events: seq<RunEvent>, n: nat)
    requires n <= |events| && forall e <- events :: Possible(e)
    ensures RunIsTold(Trace(NewRun(id, owner, now), events[..n]), events, n)
    decreases n
  {
    var start := NewRun(id, owner, now);
    if n == 0 {
      NewIsTold(start, events);
    } else {
      EventsTellTheRun(id, owner, now, events, n - 1);
      TraceKeeps(start, events[..n - 1]);
      TraceNext(start, events, n - 1);
      ToldNext(Trace(start, events[..n - 1]), events, n - 1);
    }
  }

  /** Every exit of a runner shows in all that follows: a value as the result, an exception as the error
      text, a delivered cancel as such, each with the time of the exit. */
  lemma ExitsShow(id: string, owner: string, now: real, events: seq<RunEvent>, k: nat, n: nat)
    requires k < n <= |events| && (forall e <- events :: Possible(e))
    requires events[k].RunnerExits? && !events[k].exit.Interrupted?
    requires Trace(NewRun(id, owner, now), events[..k]).task == Started
    ensures var r, t := Trace(NewRun(id, owner, now), events[..n]), Some(events[k].now);
            match events[k].exit
            case Returned(v) => r.status == Succeeded && r.result == Some(v) && r.error == None && r.finishedAt == t
            case Raised(m, c) =>
              r.status == Failed && r.error == Some(if m == "" then c else m) && r.result == None && r.finishedAt == t
            case CancelDelivered => r.status == Cancelled && r.result == None && r.error == None && r.finishedAt == t
  {
    EventsTellTheRun(id, owner, now, events, k);
    EventsTellTheRun(id, owner, now, events, n);
    TraceKeeps(NewRun(id, owner, now), events[..n]);
    assert Leaves(events, k);
    match events[k].exit
    case Returned(v) =>
      assert ReturnsAt(events, k, v, events[k].now);
      assert HasReturned(events, n, v, events[k].now);
    case Raised(m, c) =>
      assert RaisesAt(events, k, if m == "" then c else m, events[k].now);
      assert HasRaised(events, n, if m == "" then c else m, events[k].now);
    case CancelDelivered =>
      assert CancelledBy(events, k, events[k].now);
      assert WasCancelled(events, n, events[k].now);
  }
}
