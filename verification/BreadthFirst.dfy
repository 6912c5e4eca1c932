/** The shared breadth-first search: batched, deduplicating, capped and pinned to one host. */
module BreadthFirst {
  import opened Wrappers
  import opened Sequences
  import opened StacObjects

  /** One search problem. `fetch` and `discover` are pure oracles; `discover` returns None when the
      discovery policy raises, and a fetch that raises says so in its result. `pin` is the host pin,
      None for an unpinned search. */
  datatype Search = Search(
    fetch: QueueEntry -> Fetched,
    discover: (QueueEntry, Doc, seq<CollectedObject>) -> Option<seq<QueueEntry>>,
    pin: Option<Url>,
    sameHost: (Url, Url) -> bool,
    maxObjects: int)

  predicate OnHost(s: Search, u: Url) {
    s.pin.Some? ==> s.sameHost(s.pin.value, u)
  }

  /** Popping a dead entry has no effect on what is fetched. */
  predicate Dead(s: Search, visited: set<Url>, e: QueueEntry) {
    e.url in visited || !OnHost(s, e.url)
  }

  /** What fetching `e` adds to the queue: nothing after a failed fetch or a failed discovery. */
  function Children(s: Search, e: QueueEntry): seq<QueueEntry> {
    var got := s.fetch(e);
    match got.raw
    case None => []
    case Some(raw) =>
      match s.discover(e, raw, got.objs)
      case None => []
      case Some(found) => found
  }

  function AllChildren(s: Search, batch: seq<QueueEntry>): seq<QueueEntry> {
    if batch == [] then [] else Children(s, batch[0]) + AllChildren(s, batch[1..])
  }

  function Objects(s: Search, entries: seq<QueueEntry>): seq<CollectedObject> {
    if entries == [] then [] else s.fetch(entries[0]).objs + Objects(s, entries[1..])
  }

  function Urls(entries: seq<QueueEntry>): set<Url> {
    if entries == [] then {} else {entries[0].url} + Urls(entries[1..])
  }

  /** The children that are still worth queueing. */
  function Unseen(found: seq<QueueEntry>, visited: set<Url>, skipped: set<Url>): seq<QueueEntry> {
    if found == [] then []
    else if found[0].url !in visited && found[0].url !in skipped then [found[0]] + Unseen(found[1..], visited, skipped)
    else Unseen(found[1..], visited, skipped)
  }

  // ---------- The reference: one entry at a time, no look-ahead ----------

  /** The entries that a first-in first-out search fetches, one at a time, in order. */
  function Fifo(s: Search, queue: seq<QueueEntry>, visited: set<Url>): seq<QueueEntry>
    decreases s.maxObjects - |visited|, |queue|
  {
    if queue == [] || |visited| >= s.maxObjects then []
    else if Dead(s, visited, queue[0]) then Fifo(s, queue[1..], visited)
    else [queue[0]] + Fifo(s, queue[1..] + Children(s, queue[0]), visited + {queue[0].url})
  }

  // ---------- The batched search ----------

  datatype Drained = Drained(batch: seq<QueueEntry>, queue: seq<QueueEntry>, visited: set<Url>, skipped: set<Url>)

  /** Fills one batch from the front of the queue; `room` is the number of free places. */
  function Drain(s: Search, room: int, queue: seq<QueueEntry>, visited: set<Url>, skipped: set<Url>): (d: Drained)
    ensures |d.visited| == |visited| + |d.batch|
    decreases |queue|
  {
    if queue == [] || room <= 0 || |visited| >= s.maxObjects then Drained([], queue, visited, skipped)
    else if queue[0].url in visited then Drain(s, room, queue[1..], visited, skipped)
    else if !OnHost(s, queue[0].url) then Drain(s, room, queue[1..], visited, skipped + {queue[0].url})
    else
      var d := Drain(s, room - 1, queue[1..], visited + {queue[0].url}, skipped);
      d.(batch := [queue[0]] + d.batch)
  }

  ghost predicate OffHost(s: Search, urls: set<Url>) {
    forall u <- urls :: !OnHost(s, u)
  }

  /** A batch fits its room and the cap, and an empty batch means an empty queue. */
  lemma {:induction false} DrainFits(s: Search, room: int, queue: seq<QueueEntry>, visited: set<Url>, skipped: set<Url>)
    ensures var d := Drain(s, room, queue, visited, skipped);
            && (d.batch == [] || (|d.batch| <= room && |d.visited| <= s.maxObjects))
            && (|visited| < s.maxObjects && room >= 1 && d.batch == [] ==> d.queue == [])
    decreases |queue|
  {
    if queue == [] || room <= 0 || |visited| >= s.maxObjects {
    } else if queue[0].url in visited {
      DrainFits(s, room, queue[1..], visited, skipped);
    } else if !OnHost(s, queue[0].url) {
      DrainFits(s, room, queue[1..], visited, skipped + {queue[0].url});
    } else {
      DrainFits(s, room - 1, queue[1..], visited + {queue[0].url}, skipped);
    }
  }

  /** Exactly the batch is marked as visited. */
  lemma {:induction false} DrainMarks(s: Search, room: int, queue: seq<QueueEntry>,
                                      visited: set<Url>, skipped: set<Url>)
    ensures var d := Drain(s, room, queue, visited, skipped); d.visited == visited + Urls(d.batch)
    decreases |queue|
  {
    if queue == [] || room <= 0 || |visited| >= s.maxObjects {
      assert visited + Urls([]) == visited;
    } else if queue[0].url in visited {
      DrainMarks(s, room, queue[1..], visited, skipped);
    } else if !OnHost(s, queue[0].url) {
      DrainMarks(s, room, queue[1..], visited, skipped + {queue[0].url});
    } else {
      var rest := Drain(s, room - 1, queue[1..], visited + {queue[0].url}, skipped);
      DrainMarks(s, room - 1, queue[1..], visited + {queue[0].url}, skipped);
    }
  }

  lemma {:induction false} DrainSkips(s: Search, room: int, queue: seq<QueueEntry>,
                                      visited: set<Url>, skipped: set<Url>)
    requires OffHost(s, skipped)
    ensures OffHost(s, Drain(s, room, queue, visited, skipped).skipped)
    decreases |queue|
  {
    if queue == [] || room <= 0 || |visited| >= s.maxObjects {
    } else if queue[0].url in visited {
      DrainSkips(s, room, queue[1..], visited, skipped);
    } else if !OnHost(s, queue[0].url) {
      DrainSkips(s, room, queue[1..], visited, skipped + {queue[0].url});
    } else {
      DrainSkips(s, room - 1, queue[1..], visited + {queue[0].url}, skipped);
    }
  }

  /** The batches of entries that the batched search fetches. */
  function Rounds(s: Search, room: int, queue: seq<QueueEntry>,
                  visited: set<Url>, skipped: set<Url>): seq<seq<QueueEntry>>
    decreases s.maxObjects - |visited|
  {
    if queue == [] || |visited| >= s.maxObjects then []
    else
      var d := Drain(s, room, queue, visited, skipped);
      if d.batch == [] then []
      else
        [d.batch] + Rounds(s, room, d.queue + Unseen(AllChildren(s, d.batch), d.visited, d.skipped), d.visited,
                           d.skipped)
  }

  function Yielded(s: Search, rounds: seq<seq<QueueEntry>>): seq<seq<CollectedObject>> {
    if rounds == [] then [] else [Objects(s, rounds[0])] + Yielded(s, rounds[1..])
  }

  // ---------- Batching is only an optimisation ----------

  lemma {:induction false} FifoSkipsDead(s: Search, a: seq<QueueEntry>, e: QueueEntry, b: seq<QueueEntry>,
                                         visited: set<Url>)
    requires Dead(s, visited, e)
    ensures Fifo(s, a + [e] + b, visited) == Fifo(s, a + b, visited)
    decreases s.maxObjects - |visited|, |a|
  {
    if |visited| >= s.maxObjects {
    } else if a == [] {
      assert a + [e] + b == [e] + b && ([e] + b)[1..] == b && a + b == b;
    } else {
      assert (a + [e] + b)[1..] == a[1..] + [e] + b && (a + b)[1..] == a[1..] + b;
      if Dead(s, visited, a[0]) {
        FifoSkipsDead(s, a[1..], e, b, visited);
      } else {
        var more := Children(s, a[0]);
        assert a[1..] + [e] + b + more == a[1..] + [e] + (b + more);
        assert a[1..] + b + more == a[1..] + (b + more);
        FifoSkipsDead(s, a[1..], e, b + more, visited + {a[0].url});
      }
    }
  }

  /** Filtering the children before queueing them does not change the search. */
  lemma {:induction false} FifoIgnoresFilter(s: Search, a: seq<QueueEntry>, found: seq<QueueEntry>,
                                             visited: set<Url>, skipped: set<Url>)
    requires OffHost(s, skipped)
    ensures Fifo(s, a + found, visited) == Fifo(s, a + Unseen(found, visited, skipped), visited)
    decreases |found|
  {
    if found == [] {
    } else {
      var e, rest := found[0], found[1..];
      assert a + found == a + [e] + rest;
      if e.url !in visited && e.url !in skipped {
        FifoIgnoresFilter(s, a + [e], rest, visited, skipped);
        assert a + [e] + Unseen(rest, visited, skipped) == a + ([e] + Unseen(rest, visited, skipped));
      } else {
        FifoSkipsDead(s, a, e, rest, visited);
        FifoIgnoresFilter(s, a, rest, visited, skipped);
      }
    }
  }

  /** Fetching a whole batch before discovering its children reorders nothing. */
  lemma {:induction false} DrainFollowsFifo(s: Search, room: int, queue: seq<QueueEntry>, later: seq<QueueEntry>,
                                            visited: set<Url>, skipped: set<Url>)
    ensures var d := Drain(s, room, queue, visited, skipped);
            Fifo(s, queue + later, visited) == d.batch + Fifo(s, d.queue + later + AllChildren(s, d.batch), d.visited)
    decreases |queue|
  {
    var d := Drain(s, room, queue, visited, skipped);
    if queue == [] || room <= 0 || |visited| >= s.maxObjects {
      assert d.queue + later + [] == queue + later;
    } else {
      var e, rest := queue[0], queue[1..];
      assert queue + later == [e] + rest + later;
      if Dead(s, visited, e) {
        FifoDead(s, e, rest + later, visited);
        Assoc([e], rest, later);
        DrainFollowsFifo(s, room, rest, later, visited, if e.url in visited then skipped else skipped + {e.url});
      } else {
        DrainFollowsFifo(s, room - 1, rest, later + Children(s, e), visited + {e.url}, skipped);
        FifoFetches(s, e, rest, later, visited, Drain(s, room - 1, rest, visited + {e.url}, skipped));
      }
    }
  }

  lemma FifoDead(s: Search, e: QueueEntry, queue: seq<QueueEntry>, visited: set<Url>)
    requires Dead(s, visited, e) && |visited| < s.maxObjects
    ensures Fifo(s, [e] + queue, visited) == Fifo(s, queue, visited)
  {
    assert ([e] + queue)[1..] == queue;
  }

  lemma FifoFetches(s: Search, e: QueueEntry, queue: seq<QueueEntry>, later: seq<QueueEntry>,
                    visited: set<Url>, rest: Drained)
    requires |visited| < s.maxObjects && !Dead(s, visited, e)
    requires var more := Children(s, e);
             Fifo(s, queue + (later + more), visited + {e.url})
             == rest.batch + Fifo(s, rest.queue + (later + more) + AllChildren(s, rest.batch), rest.visited)
    ensures Fifo(s, [e] + queue + later, visited)
            == [e] + rest.batch + Fifo(s, rest.queue + later + AllChildren(s, [e] + rest.batch), rest.visited)
  {
    var more := Children(s, e);
    assert [e] + queue + later == [e] + (queue + later);
    FifoLive(s, e, queue + later, visited);
    Assoc(queue, later, more);
    AllChildrenCons(s, e, rest.batch);
    Assoc(rest.queue, later, more);
    Assoc(rest.queue + later, more, AllChildren(s, rest.batch));
    Assoc([e], rest.batch, Fifo(s, rest.queue + later + AllChildren(s, [e] + rest.batch), rest.visited));
  }

  lemma FifoLive(s: Search, e: QueueEntry, queue: seq<QueueEntry>, visited: set<Url>)
    requires |visited| < s.maxObjects && !Dead(s, visited, e)
    ensures Fifo(s, [e] + queue, visited) == [e] + Fifo(s, queue + Children(s, e), visited + {e.url})
  {
    assert ([e] + queue)[1..] == queue;
  }

  lemma AllChildrenCons(s: Search, e: QueueEntry, batch: seq<QueueEntry>)
    ensures AllChildren(s, [e] + batch) == Children(s, e) + AllChildren(s, batch)
  {
    assert ([e] + batch)[1..] == batch;
  }

  lemma {:induction false} RoundsFollowFifo(s: Search, room: int, queue: seq<QueueEntry>,
                                            visited: set<Url>, skipped: set<Url>)
    requires room >= 1
    requires OffHost(s, skipped)
    ensures Flatten(Rounds(s, room, queue, visited, skipped)) == Fifo(s, queue, visited)
    decreases s.maxObjects - |visited|
  {
    if queue == [] || |visited| >= s.maxObjects {
    } else {
      var d := Drain(s, room, queue, visited, skipped);
      DrainFits(s, room, queue, visited, skipped);
      DrainSkips(s, room, queue, visited, skipped);
      DrainFollowsFifo(s, room, queue, [], visited, skipped);
      assert queue + [] == queue && d.queue + [] == d.queue;
      if d.batch != [] {
        var found := AllChildren(s, d.batch);
        FifoIgnoresFilter(s, d.queue, found, d.visited, d.skipped);
        RoundsFollowFifo(s, room, d.queue + Unseen(found, d.visited, d.skipped), d.visited, d.skipped);
        assert Rounds(s, room, queue, visited, skipped)[0] == d.batch;
      }
    }
  }

  lemma {:induction false} ObjectsAppend(s: Search, a: seq<QueueEntry>, b: seq<QueueEntry>)
    ensures Objects(s, a + b) == Objects(s, a) + Objects(s, b)
  {
    if a == [] {
      assert a + b == b;
    } else {
      ObjectsAppend(s, a[1..], b);
      assert (a + b)[0] == a[0] && (a + b)[1..] == a[1..] + b;
      Assoc(s.fetch(a[0]).objs, Objects(s, a[1..]), Objects(s, b));
    }
  }

  lemma {:induction false} YieldedFlat(s: Search, rounds: seq<seq<QueueEntry>>)
    ensures Flatten(Yielded(s, rounds)) == Objects(s, Flatten(rounds))
  {
    if rounds == [] {
    } else {
      YieldedFlat(s, rounds[1..]);
      ObjectsAppend(s, rounds[0], Flatten(rounds[1..]));
    }
  }

  /** The concatenated batches are those of the one-at-a-time search, whatever the width. */
  lemma BatchingIsOnlyAnOptimisation(s: Search, room: int, other: int, queue: seq<QueueEntry>, visited: set<Url>)
    requires room >= 1 && other >= 1
    ensures Flatten(Yielded(s, Rounds(s, room, queue, visited, {}))) == Objects(s, Fifo(s, queue, visited))
    ensures Flatten(Yielded(s, Rounds(s, room, queue, visited, {})))
            == Flatten(Yielded(s, Rounds(s, other, queue, visited, {})))
  {
    RoundsFollowFifo(s, room, queue, visited, {});
    RoundsFollowFifo(s, other, queue, visited, {});
    YieldedFlat(s, Rounds(s, room, queue, visited, {}));
    YieldedFlat(s, Rounds(s, other, queue, visited, {}));
  }

  // ---------- A fetch that raises ends the search ----------

  predicate AnyRaises(s: Search, entries: seq<QueueEntry>) {
    exists i :: 0 <= i < |entries| && s.fetch(entries[i]).raised
  }

  /** The rounds before the first one with a fetch that raises; that round yields nothing. */
  function Completed(s: Search, rounds: seq<seq<QueueEntry>>): seq<seq<QueueEntry>> {
    if rounds == [] || AnyRaises(s, rounds[0]) then [] else [rounds[0]] + Completed(s, rounds[1..])
  }

  lemma AnyRaisesAppend(s: Search, a: seq<QueueEntry>, b: seq<QueueEntry>)
    ensures AnyRaises(s, a + b) <==> AnyRaises(s, a) || AnyRaises(s, b)
  {
    if i :| 0 <= i < |a| && s.fetch(a[i]).raised {
      assert (a + b)[i] == a[i];
    }
    if i :| 0 <= i < |b| && s.fetch(b[i]).raised {
      assert (a + b)[|a| + i] == b[i];
    }
  }

  lemma {:induction false} CompletedIffNoneRaises(s: Search, rounds: seq<seq<QueueEntry>>)
    ensures Completed(s, rounds) <= rounds
    ensures Completed(s, rounds) == rounds <==> !AnyRaises(s, Flatten(rounds))
  {
    if rounds != [] {
      AnyRaisesAppend(s, rounds[0], Flatten(rounds[1..]));
      CompletedIffNoneRaises(s, rounds[1..]);
      assert rounds == [rounds[0]] + rounds[1..];
    }
  }

  lemma {:induction false} CompletedAppend(s: Search, done: seq<seq<QueueEntry>>, later: seq<seq<QueueEntry>>)
    requires !AnyRaises(s, Flatten(done))
    ensures Completed(s, done + later) == done + Completed(s, later)
  {
    if done == [] {
      assert done + later == later;
    } else {
      AnyRaisesAppend(s, done[0], Flatten(done[1..]));
      CompletedAppend(s, done[1..], later);
      assert (done + later)[0] == done[0] && (done + later)[1..] == done[1..] + later;
    }
  }

  lemma {:induction false} YieldedPrefix(s: Search, a: seq<seq<QueueEntry>>, b: seq<seq<QueueEntry>>)
    requires a <= b
    ensures Yielded(s, a) <= Yielded(s, b) && Flatten(Yielded(s, a)) <= Flatten(Yielded(s, b))
  {
    if a != [] {
      YieldedPrefix(s, a[1..], b[1..]);
    }
  }

  /** Whether a fetch raises does not depend on the width, and what is yielded before that is always
      the beginning of what the one-at-a-time search gives. */
  lemma RaisingIgnoresBatching(s: Search, room: int, queue: seq<QueueEntry>, visited: set<Url>)
    requires room >= 1
    ensures var rounds := Rounds(s, room, queue, visited, {});
            && (Completed(s, rounds) != rounds <==> AnyRaises(s, Fifo(s, queue, visited)))
            && Flatten(Yielded(s, Completed(s, rounds))) <= Objects(s, Fifo(s, queue, visited))
  {
    var rounds := Rounds(s, room, queue, visited, {});
    RoundsFollowFifo(s, room, queue, visited, {});
    YieldedFlat(s, rounds);
    CompletedIffNoneRaises(s, rounds);
    YieldedPrefix(s, Completed(s, rounds), rounds);
  }

  // ---------- The search is bounded ----------

  /** Pairwise different URLs. */
  ghost predicate DistinctUrls(entries: seq<QueueEntry>) {
    forall i, j :: 0 <= i < j < |entries| ==> entries[i].url != entries[j].url
  }

  /** No URL is fetched twice or fetched although it was already visited, nothing off the
      pinned host is fetched, and the visited set never outgrows the cap. */
  lemma {:induction false} FifoIsBounded(s: Search, queue: seq<QueueEntry>, visited: set<Url>)
    ensures DistinctUrls(Fifo(s, queue, visited))
    ensures forall e <- Fifo(s, queue, visited) :: e.url !in visited
    ensures forall e <- Fifo(s, queue, visited) :: s.pin.Some? ==> s.sameHost(s.pin.value, e.url)
    ensures |visited + Urls(Fifo(s, queue, visited))| == |visited| + |Fifo(s, queue, visited)|
    ensures Fifo(s, queue, visited) != [] ==> |visited| + |Fifo(s, queue, visited)| <= s.maxObjects
    decreases s.maxObjects - |visited|, |queue|
  {
    if queue == [] || |visited| >= s.maxObjects {
      assert visited + Urls([]) == visited;
    } else if Dead(s, visited, queue[0]) {
      FifoIsBounded(s, queue[1..], visited);
    } else {
      var e := queue[0];
      var rest := Fifo(s, queue[1..] + Children(s, e), visited + {e.url});
      FifoIsBounded(s, queue[1..] + Children(s, e), visited + {e.url});
      BoundedCons(s, e, rest, visited);
    }
  }

  lemma BoundedCons(s: Search, e: QueueEntry, rest: seq<QueueEntry>, visited: set<Url>)
    requires !Dead(s, visited, e) && DistinctUrls(rest)
    requires forall x <- rest :: x.url !in visited + {e.url}
    ensures DistinctUrls([e] + rest)
    ensures forall x <- [e] + rest :: x.url !in visited
    ensures visited + Urls([e] + rest) == visited + {e.url} + Urls(rest)
  {
  }

  /** Every round fetches at least one entry and at most `room`, so every round grows the visited set. */
  lemma {:induction false} RoundsAreFilled(s: Search, room: int, queue: seq<QueueEntry>,
                                           visited: set<Url>, skipped: set<Url>)
    requires room >= 1
    ensures forall b <- Rounds(s, room, queue, visited, skipped) :: 1 <= |b| <= room
    decreases s.maxObjects - |visited|
  {
    if queue == [] || |visited| >= s.maxObjects {
    } else {
      var d := Drain(s, room, queue, visited, skipped);
      DrainFits(s, room, queue, visited, skipped);
      DrainMarks(s, room, queue, visited, skipped);
      if d.batch != [] {
        RoundsAreFilled(s, room, d.queue + Unseen(AllChildren(s, d.batch), d.visited, d.skipped), d.visited, d.skipped);
      }
    }
  }

  lemma {:induction false} RoundsGrowWithinCap(s: Search, room: int, queue: seq<QueueEntry>,
                                               visited: set<Url>, skipped: set<Url>)
    ensures var rounds := Rounds(s, room, queue, visited, skipped);
            rounds == [] || |visited + Urls(Flatten(rounds))| <= s.maxObjects
    decreases s.maxObjects - |visited|
  {
    if queue != [] && |visited| < s.maxObjects {
      var d := Drain(s, room, queue, visited, skipped);
      DrainFits(s, room, queue, visited, skipped);
      DrainMarks(s, room, queue, visited, skipped);
      if d.batch != [] {
        var queue' := d.queue + Unseen(AllChildren(s, d.batch), d.visited, d.skipped);
        var rest := Rounds(s, room, queue', d.visited, d.skipped);
        RoundsGrowWithinCap(s, room, queue', d.visited, d.skipped);
        MarkMore(visited, d.batch, Flatten(rest));
        assert Flatten([d.batch] + rest) == d.batch + Flatten(rest);
        assert rest == [] ==> d.visited + Urls(Flatten(rest)) == d.visited;
      }
    }
  }

  lemma MarkMore(visited: set<Url>, a: seq<QueueEntry>, b: seq<QueueEntry>)
    ensures visited + Urls(a + b) == visited + Urls(a) + Urls(b)
  {
    UrlsAppend(a, b);
  }

  // ---------- The search is exact when it is not capped ----------

  /** `urls` holds what was visited before, the on-host seeds, and every on-host child of each
      entry of `fetched` that it holds. */
  ghost predicate ClosedUnder(s: Search, fetched: seq<QueueEntry>, seeds: seq<QueueEntry>,
                              visited: set<Url>, urls: set<Url>) {
    && visited <= urls
    && (forall e <- seeds :: (s.pin.Some? ==> s.sameHost(s.pin.value, e.url)) ==> e.url in urls)
    && (forall e <- fetched :: e.url in urls ==>
          forall c <- Children(s, e) :: (s.pin.Some? ==> s.sameHost(s.pin.value, c.url)) ==> c.url in urls)
  }

  lemma {:induction false} FifoIsComplete(s: Search, queue: seq<QueueEntry>, visited: set<Url>)
    requires |visited + Urls(Fifo(s, queue, visited))| < s.maxObjects
    ensures ClosedUnder(s, Fifo(s, queue, visited), queue, visited, visited + Urls(Fifo(s, queue, visited)))
    decreases s.maxObjects - |visited|, |queue|
  {
    FifoIsBounded(s, queue, visited);
    if queue == [] {
    } else if Dead(s, visited, queue[0]) {
      FifoIsComplete(s, queue[1..], visited);
      assert queue == [queue[0]] + queue[1..];
    } else {
      var e, more := queue[0], Children(s, queue[0]);
      var rest := Fifo(s, queue[1..] + more, visited + {e.url});
      FifoIsBounded(s, queue[1..] + more, visited + {e.url});
      BoundedCons(s, e, rest, visited);
      FifoIsComplete(s, queue[1..] + more, visited + {e.url});
      ClosedCons(s, e, rest, queue[1..], visited, visited + {e.url} + Urls(rest));
      assert queue == [e] + queue[1..];
    }
  }

  lemma ClosedCons(s: Search, e: QueueEntry, rest: seq<QueueEntry>, queue: seq<QueueEntry>,
                   visited: set<Url>, urls: set<Url>)
    requires ClosedUnder(s, rest, queue + Children(s, e), visited + {e.url}, urls)
    ensures ClosedUnder(s, [e] + rest, [e] + queue, visited, urls)
  {
    var more := Children(s, e);
    forall c | c in more && OnHost(s, c.url) ensures c.url in urls {
      assert c in queue + more;
    }
    forall x | x in queue && OnHost(s, x.url) ensures x.url in urls {
      assert x in queue + more;
    }
  }

  lemma {:induction false} FifoIsLeast(s: Search, queue: seq<QueueEntry>, visited: set<Url>, urls: set<Url>)
    requires ClosedUnder(s, Fifo(s, queue, visited), queue, visited, urls)
    ensures visited + Urls(Fifo(s, queue, visited)) <= urls
    decreases s.maxObjects - |visited|, |queue|
  {
    if queue == [] || |visited| >= s.maxObjects {
    } else if Dead(s, visited, queue[0]) {
      FifoIsLeast(s, queue[1..], visited, urls);
    } else {
      var e, more := queue[0], Children(s, queue[0]);
      var rest := Fifo(s, queue[1..] + more, visited + {e.url});
      assert Fifo(s, queue, visited) == [e] + rest;
      assert e in Fifo(s, queue, visited);
      forall x | x in queue[1..] + more && OnHost(s, x.url) ensures x.url in urls {
        if x in queue[1..] {
          assert x in queue;
        }
      }
      FifoIsLeast(s, queue[1..] + more, visited + {e.url}, urls);
    }
  }

  /** A search that stops below the cap has visited exactly the least closed set. */
  lemma UncappedSearchIsExact(s: Search, queue: seq<QueueEntry>, visited: set<Url>)
    requires |visited + Urls(Fifo(s, queue, visited))| < s.maxObjects
    ensures var fetched := Fifo(s, queue, visited);
            var final := visited + Urls(fetched);
            && ClosedUnder(s, fetched, queue, visited, final)
            && forall urls: set<Url> :: ClosedUnder(s, fetched, queue, visited, urls) ==> final <= urls
  {
    FifoIsComplete(s, queue, visited);
    forall urls: set<Url> | ClosedUnder(s, Fifo(s, queue, visited), queue, visited, urls)
      ensures visited + Urls(Fifo(s, queue, visited)) <= urls
    {
      FifoIsLeast(s, queue, visited, urls);
    }
  }

  // ---------- The loops ----------

  /** Queues the children that were neither visited nor skipped. */
  method QueueUnseen(found: seq<QueueEntry>, queue: seq<QueueEntry>, visited: set<Url>, skipped: set<Url>)
    returns (queue': seq<QueueEntry>)
    ensures queue' == queue + Unseen(found, visited, skipped)
  {
    queue' := queue;
    for j := 0 to |found|
      invariant queue' + Unseen(found[j..], visited, skipped) == queue + Unseen(found, visited, skipped)
    {
      var child := found[j];
      assert found[j..][1..] == found[j + 1..];
      if child.url !in visited && child.url !in skipped {
        queue' := queue' + [child];
      }
    }
  }

  /** Gathers what a batch of fetches returns: its objects and the entries to queue; a fetch that
      raises leaves nothing to gather. */
  method FetchBatch(s: Search, batch: seq<QueueEntry>, queue: seq<QueueEntry>, visited: set<Url>, skipped: set<Url>)
    returns (objs: seq<CollectedObject>, queue': seq<QueueEntry>, raised: bool)
    ensures raised <==> AnyRaises(s, batch)
    ensures !raised ==> objs == Objects(s, batch)
    ensures !raised ==> queue' == queue + Unseen(AllChildren(s, batch), visited, skipped)
  {
    objs, queue', raised := [], queue, false;
    for i := 0 to |batch|
      invariant !AnyRaises(s, batch[..i])
    {
      if s.fetch(batch[i]).raised {
        raised := true;
        return;
      }
    }
    assert batch[..|batch|] == batch;
    ghost var whole := queue + Unseen(AllChildren(s, batch), visited, skipped);
    for i := 0 to |batch|
      invariant objs + Objects(s, batch[i..]) == Objects(s, batch)
      invariant queue' + Unseen(AllChildren(s, batch[i..]), visited, skipped) == whole
    {
      var got := s.fetch(batch[i]);
      FetchedOne(s, batch[i], batch[i + 1..], objs, queue', visited, skipped);
      assert batch[i..] == [batch[i]] + batch[i + 1..];
      objs := objs + got.objs;
      if got.raw.Some? {
        var children := s.discover(batch[i], got.raw.value, got.objs);
        if children.Some? {
          queue' := QueueUnseen(children.value, queue', visited, skipped);
        }
      }
    }
  }

  lemma FetchedOne(s: Search, e: QueueEntry, rest: seq<QueueEntry>, objs: seq<CollectedObject>,
                   queue: seq<QueueEntry>, visited: set<Url>, skipped: set<Url>)
    ensures objs + Objects(s, [e] + rest) == objs + s.fetch(e).objs + Objects(s, rest)
    ensures queue + Unseen(AllChildren(s, [e] + rest), visited, skipped)
            == queue + Unseen(Children(s, e), visited, skipped) + Unseen(AllChildren(s, rest), visited, skipped)
    ensures queue + Unseen([], visited, skipped) == queue
  {
    assert ([e] + rest)[1..] == rest;
    UnseenAppend(Children(s, e), AllChildren(s, rest), visited, skipped);
  }

  lemma {:induction false} UnseenAppend(a: seq<QueueEntry>, b: seq<QueueEntry>, visited: set<Url>, skipped: set<Url>)
    ensures Unseen(a + b, visited, skipped) == Unseen(a, visited, skipped) + Unseen(b, visited, skipped)
  {
    if a == [] {
      assert a + b == b;
    } else {
      UnseenAppend(a[1..], b, visited, skipped);
      assert (a + b)[0] == a[0] && (a + b)[1..] == a[1..] + b;
      Assoc([a[0]], Unseen(a[1..], visited, skipped), Unseen(b, visited, skipped));
    }
  }

  ghost function After(batch: seq<QueueEntry>, d: Drained): Drained {
    d.(batch := batch + d.batch)
  }

  /** Pops entries until the batch is full, the queue is empty or the cap is reached. */
  method FillBatch(s: Search, room: int, queue0: seq<QueueEntry>, visited0: set<Url>, skipped0: set<Url>)
    returns (batch: seq<QueueEntry>, queue: seq<QueueEntry>, visited: set<Url>, skipped: set<Url>)
    ensures Drained(batch, queue, visited, skipped) == Drain(s, room, queue0, visited0, skipped0)
  {
    batch, queue, visited, skipped := [], queue0, visited0, skipped0;
    ghost var whole := Drain(s, room, queue0, visited0, skipped0);
    while queue != [] && |batch| < room && |visited| < s.maxObjects
      invariant whole == After(batch, Drain(s, room - |batch|, queue, visited, skipped))
    {
      var entry := queue[0];
      queue := queue[1..];
      if entry.url in visited {
        continue;
      }
      if !OnHost(s, entry.url) {
        skipped := skipped + {entry.url};
        continue;
      }
      visited := visited + {entry.url};
      ghost var rest := Drain(s, room - |batch| - 1, queue, visited, skipped);
      Assoc(batch, [entry], rest.batch);
      batch := batch + [entry];
    }
  }

  lemma {:induction false} CompletedIsPrefix(s: Search, rounds: seq<seq<QueueEntry>>)
    ensures forall e <- Flatten(Completed(s, rounds)) :: e in Flatten(rounds)
  {
    if rounds != [] {
      CompletedIsPrefix(s, rounds[1..]);
    }
  }

  lemma FetchesStayOnHost(s: Search, room: int, seeds: seq<QueueEntry>, visited: set<Url>)
    ensures forall e <- Flatten(Completed(s, Rounds(s, room, seeds, visited, {}))) ::
              s.pin.Some? ==> s.sameHost(s.pin.value, e.url)
  {
    CompletedIsPrefix(s, Rounds(s, room, seeds, visited, {}));
    if room >= 1 {
      RoundsFollowFifo(s, room, seeds, visited, {});
      FifoIsBounded(s, seeds, visited);
    }
  }

  /** A seed on another host than the pinned one is not fetched. */
  lemma OtherHostIsSkipped(s: Search, e: QueueEntry, visited: set<Url>)
    requires s.pin.Some? && !s.sameHost(s.pin.value, e.url)
    ensures Fifo(s, [e], visited) == []
  {
    FifoIsBounded(s, [e], visited);
    if Fifo(s, [e], visited) != [] {
      FifoOfOne(s, e, visited);
    }
  }

  lemma FifoOfOne(s: Search, e: QueueEntry, visited: set<Url>)
    requires Fifo(s, [e], visited) != []
    ensures Fifo(s, [e], visited)[0] == e
  {
    assert [e][1..] == [];
    assert Fifo(s, [], visited) == [];
  }

  /** The objects that some entries yield are those of each entry, in order. */
  lemma {:induction false} ObjectsAre(s: Search, entries: seq<QueueEntry>) returns (blocks: seq<seq<CollectedObject>>)
    ensures Objects(s, entries) == Flatten(blocks) && |blocks| == |entries|
    ensures forall k :: 0 <= k < |entries| ==> blocks[k] == s.fetch(entries[k]).objs
  {
    blocks := [];
    if entries != [] {
      var rest := ObjectsAre(s, entries[1..]);
      blocks := [s.fetch(entries[0]).objs] + rest;
      assert forall k :: 1 <= k < |entries| ==> entries[1..][k - 1] == entries[k];
    }
  }

  /** The entries that are neither visited nor skipped are queued, in order. */
  lemma {:induction false} UnseenAre(found: seq<QueueEntry>, visited: set<Url>, skipped: set<Url>,
                                     wanted: QueueEntry -> bool, same: (QueueEntry, QueueEntry) -> bool)
    requires forall e :: wanted(e) <==> e.url !in visited && e.url !in skipped
    requires forall e, c :: same(e, c) <==> e == c
    ensures Images(found, wanted, same, Unseen(found, visited, skipped))
  {
    if found == [] {
      NoImages(wanted, same);
    } else {
      UnseenAre(found[1..], visited, skipped, wanted, same);
      ImagesFromTail(found, wanted, same,
                     if wanted(found[0]) then [found[0]] else [], Unseen(found[1..], visited, skipped));
    }
  }

  /** Runs the search to the end, or to a fetch that raises; `batches` are the yielded batches in order. */
  method BfsBatches(s: Search, room: int, seeds: seq<QueueEntry>, visited0: set<Url>)
    returns (batches: seq<seq<CollectedObject>>, visited: set<Url>, raised: bool)
    ensures batches == Yielded(s, Completed(s, Rounds(s, room, seeds, visited0, {})))
    ensures room >= 1 ==> (raised <==> AnyRaises(s, Fifo(s, seeds, visited0)))
    ensures room >= 1 && !raised ==> Flatten(batches) == Objects(s, Fifo(s, seeds, visited0))
    ensures room >= 1 && raised ==> Flatten(batches) <= Objects(s, Fifo(s, seeds, visited0))
    ensures room >= 1 && !raised ==> visited == visited0 + Urls(Fifo(s, seeds, visited0))
    ensures !raised ==> visited == visited0 || |visited| <= s.maxObjects
    ensures forall e <- Flatten(Completed(s, Rounds(s, room, seeds, visited0, {}))) ::
              s.pin.Some? ==> s.sameHost(s.pin.value, e.url)
  {
    FetchesStayOnHost(s, room, seeds, visited0);
    batches, visited, raised := [], visited0, false;
    var queue := seeds;
    var skipped: set<Url> := {};
    ghost var done: seq<seq<QueueEntry>> := [];
    ghost var all := Rounds(s, room, seeds, visited0, {});
    if room >= 1 {
      RaisingIgnoresBatching(s, room, seeds, visited0);
      RoundsFollowFifo(s, room, seeds, visited0, {});
    }
    RoundsGrowWithinCap(s, room, seeds, visited0, {});
    while queue != [] && |visited| < s.maxObjects
      invariant all == done + Rounds(s, room, queue, visited, skipped)
      invariant batches == Yielded(s, done) && !AnyRaises(s, Flatten(done))
      invariant visited == visited0 + Urls(Flatten(done))
      decreases s.maxObjects - |visited|
    {
      ghost var d := Drain(s, room, queue, visited, skipped);
      DrainMarks(s, room, queue, visited, skipped);
      var batch;
      batch, queue, visited, skipped := FillBatch(s, room, queue, visited, skipped);
      if batch == [] {
        break;
      }
      var objs;
      ghost var rest := d.queue + Unseen(AllChildren(s, batch), visited, skipped);
      RoundDone(s, done, batch, Rounds(s, room, rest, visited, skipped), visited0);
      objs, queue, raised := FetchBatch(s, batch, queue, visited, skipped);
      if raised {
        StopsAt(s, done, batch, all);
        return;
      }
      batches := batches + [objs];
      done := done + [batch];
    }
    assert all == done;
    CompletedIffNoneRaises(s, all);
    if room >= 1 {
      YieldedFlat(s, all);
    }
  }

  /** A round with a fetch that raises is the first one that is not completed. */
  lemma StopsAt(s: Search, done: seq<seq<QueueEntry>>, batch: seq<QueueEntry>, all: seq<seq<QueueEntry>>)
    requires !AnyRaises(s, Flatten(done)) && AnyRaises(s, batch) && done + [batch] <= all
    ensures Completed(s, all) == done && Completed(s, all) != all
  {
    var later := all[|done|..];
    assert all == done + later && later[0] == batch;
    CompletedAppend(s, done, later);
    assert done + [] == done;
  }

  lemma {:induction false} UrlsAppend(a: seq<QueueEntry>, b: seq<QueueEntry>)
    ensures Urls(a + b) == Urls(a) + Urls(b)
  {
    if a == [] {
      assert a + b == b;
    } else {
      UrlsAppend(a[1..], b);
      assert (a + b)[1..] == a[1..] + b;
    }
  }

  /** What one pass of the outer loop adds to the batches and to the visited set. */
  lemma RoundDone(s: Search, done: seq<seq<QueueEntry>>, batch: seq<QueueEntry>, later: seq<seq<QueueEntry>>,
                  visited: set<Url>)
    ensures done + ([batch] + later) == done + [batch] + later
    ensures Yielded(s, done + [batch]) == Yielded(s, done) + [Objects(s, batch)]
    ensures visited + Urls(Flatten(done + [batch])) == visited + Urls(Flatten(done)) + Urls(batch)
    ensures AnyRaises(s, Flatten(done + [batch])) <==> AnyRaises(s, Flatten(done)) || AnyRaises(s, batch)
  {
    AnyRaisesAppend(s, Flatten(done), batch);
    Assoc(done, [batch], later);
    YieldedAppend(s, done, batch);
    FlattenAppend(done, [batch]);
    assert Flatten([batch]) == batch + Flatten<QueueEntry>([]) == batch;
    MarkMore(visited, Flatten(done), batch);
  }

  lemma {:induction false} YieldedAppend(s: Search, rounds: seq<seq<QueueEntry>>, batch: seq<QueueEntry>)
    ensures Yielded(s, rounds + [batch]) == Yielded(s, rounds) + [Objects(s, batch)]
  {
    if rounds == [] {
      assert rounds + [batch] == [batch];
    } else {
      YieldedAppend(s, rounds[1..], batch);
      assert (rounds + [batch])[1..] == rounds[1..] + [batch];
    }
  }
}
