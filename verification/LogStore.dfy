/** The bounded store of the most recent log events, and its search. */
module LogStore {
  import opened Names
  import opened Sequences
  import opened Sorting
  import opened Wrappers

  datatype Event = Event(created: real, levelNo: int, logger: string, tag: Option<string>, message: string,
                         fields: string)

  datatype Row = Row(id: nat, event: Event)

  /** The table with its running row number, and the count of pruned rows. */
  datatype Table = Table(rows: seq<Row>, lastId: nat, dropped: nat)

  const FRESH := Table([], 0, 0)

  function Capacity(requested: int): nat {
    if requested < 1 then 1 else requested
  }

  // ---------- Emit and clear ----------

  function MaxId(rows: seq<Row>): (r: nat)
    ensures forall row <- rows :: row.id <= r
  {
    if rows == [] then 0
    else
      var rest := MaxId(rows[1..]);
      if rest > rows[0].id then rest else rows[0].id
  }

  function Above(rows: seq<Row>, limit: int): (r: seq<Row>)
    ensures |r| <= |rows| && forall row <- r :: row in rows
  {
    if rows == [] then []
      else if rows[0].id > limit then [rows[0]] + Above(rows[1..], limit)
      else Above(rows[1..], limit)
  }

  /** Deletes the rows numbered `capacity` or more below the greatest number. */
  function Prune(rows: seq<Row>, capacity: nat): (r: seq<Row>)
    ensures |r| <= |rows| && forall row <- r :: row in rows
  {
    Above(rows, MaxId(rows) - capacity)
  }

  function Emitted(t: Table, e: Event, capacity: nat): Table {
    var inserted := t.rows + [Row(t.lastId + 1, e)];
    var kept := Prune(inserted, capacity);
    Table(kept, t.lastId + 1, t.dropped + (|inserted| - |kept|))
  }

  /** Row numbers go on after a clear. */
  function Cleared(t: Table): Table {
    Table([], t.lastId, 0)
  }

  // ---------- What the table holds over any run ----------

  datatype Operation = Emit(event: Event) | Clear

  function After(operations: seq<Operation>, capacity: nat): Table {
    if operations == [] then FRESH
    else
      var before := After(operations[..|operations| - 1], capacity);
      match operations[|operations| - 1]
      case Emit(e) => Emitted(before, e, capacity)
      case Clear => Cleared(before)
  }

  /** The events emitted after the last clear. */
  function SinceClear(operations: seq<Operation>): seq<Event> {
    if operations == [] then []
    else
      match operations[|operations| - 1]
      case Emit(e) => SinceClear(operations[..|operations| - 1]) + [e]
      case Clear => []
  }

  ghost predicate Consecutive(rows: seq<Row>, first: int) {
    forall k :: 0 <= k < |rows| ==> rows[k].id == first + k
  }

  /** The rows are the newest events, at most `capacity` of them, numbered consecutively up to the
      last number; the others are counted as dropped. */
  ghost predicate HoldsNewest(t: Table, events: seq<Event>, capacity: nat) {
    && |t.rows| == (if |events| < capacity then |events| else capacity)
    && |t.rows| + t.dropped == |events| <= t.lastId
    && Consecutive(t.rows, t.lastId + 1 - |t.rows|)
    && (forall k :: 0 <= k < |t.rows| ==> t.rows[k].event == events[|events| - |t.rows| + k])
  }

  lemma {:induction false} ConsecutiveMax(rows: seq<Row>, first: nat)
    requires rows != [] && Consecutive(rows, first)
    ensures MaxId(rows) == first + |rows| - 1
  {
    if |rows| > 1 {
      assert forall k :: 0 <= k < |rows| - 1 ==> rows[1..][k] == rows[k + 1];
      ConsecutiveMax(rows[1..], first + 1);
    }
  }

  lemma {:induction false} AboveSuffix(rows: seq<Row>, first: int, limit: int)
    requires Consecutive(rows, first) && limit <= first
    ensures Above(rows, limit) == if limit < first || rows == [] then rows else rows[1..]
  {
    if rows != [] {
      assert forall k :: 0 <= k < |rows| - 1 ==> rows[1..][k] == rows[k + 1];
      AboveSuffix(rows[1..], first + 1, limit);
      assert rows == [rows[0]] + rows[1..];
    }
  }

  lemma ConsecutiveAppend(rows: seq<Row>, first: int, row: Row)
    requires Consecutive(rows, first) && row.id == first + |rows|
    ensures Consecutive(rows + [row], first)
  {
  }

  lemma PrunedRows(inserted: seq<Row>, first: nat, capacity: nat)
    requires Consecutive(inserted, first) && 1 <= |inserted| <= capacity + 1
    ensures Prune(inserted, capacity) == if |inserted| <= capacity then inserted else inserted[1..]
  {
    ConsecutiveMax(inserted, first);
    AboveSuffix(inserted, first, first + |inserted| - 1 - capacity);
  }

  /** The row is added, and the first one dropped where there is no room for it. */
  function WithRow(t: Table, row: Row, capacity: nat): Table {
    var inserted := t.rows + [row];
    if |inserted| <= capacity then Table(inserted, t.lastId + 1, t.dropped)
    else Table(inserted[1..], t.lastId + 1, t.dropped + 1)
  }

  lemma EmittedIs(t: Table, e: Event, capacity: nat, first: nat)
    requires Consecutive(t.rows, first) && t.lastId + 1 == first + |t.rows| && |t.rows| <= capacity
    ensures Emitted(t, e, capacity) == WithRow(t, Row(t.lastId + 1, e), capacity)
  {
    var row := Row(t.lastId + 1, e);
    var inserted := t.rows + [row];
    ConsecutiveAppend(t.rows, first, row);
    PrunedRows(inserted, first, capacity);
    PrunedIs(t, row, capacity, Prune(inserted, capacity));
  }

  lemma PrunedIs(t: Table, row: Row, capacity: nat, kept: seq<Row>)
    requires var inserted := t.rows + [row];
             |inserted| <= capacity + 1 && kept == if |inserted| <= capacity then inserted else inserted[1..]
    ensures Table(kept, t.lastId + 1, t.dropped + (|t.rows| + 1 - |kept|)) == WithRow(t, row, capacity)
  {
  }

  lemma RowsHeld(t: Table, events: seq<Event>, capacity: nat)
    requires HoldsNewest(t, events, capacity)
    ensures |t.rows| <= t.lastId && |t.rows| <= capacity && Consecutive(t.rows, t.lastId + 1 - |t.rows|)
  {
  }

  lemma EmitHoldsNewest(t: Table, events: seq<Event>, e: Event, capacity: nat)
    requires HoldsNewest(t, events, capacity) && capacity >= 1
    ensures HoldsNewest(Emitted(t, e, capacity), events + [e], capacity)
  {
    RowsHeld(t, events, capacity);
    EmittedIs(t, e, capacity, t.lastId + 1 - |t.rows|);
    InsertedHolds(t, events, Row(t.lastId + 1, e), capacity);
  }

  lemma InsertedHolds(t: Table, events: seq<Event>, row: Row, capacity: nat)
    requires HoldsNewest(t, events, capacity) && capacity >= 1 && row.id == t.lastId + 1
    ensures HoldsNewest(WithRow(t, row, capacity), events + [row.event], capacity)
  {
    var inserted, all, kept := t.rows + [row], events + [row.event], WithRow(t, row, capacity).rows;
    var skipped := |inserted| - |kept|;
    forall k | 0 <= k < |kept|
      ensures kept[k].id == t.lastId + 2 - |kept| + k && kept[k].event == all[|all| - |kept| + k]
    {
      var m := skipped + k;
      assert kept[k] == inserted[m];
      if m < |t.rows| {
        assert inserted[m] == t.rows[m];
      }
    }
  }

  /** From a fresh store, after any emits and clears, the table holds exactly the newest events. */
  lemma {:induction false} EveryRunHoldsNewest(operations: seq<Operation>, capacity: nat)
    requires capacity >= 1
    ensures HoldsNewest(After(operations, capacity), SinceClear(operations), capacity)
  {
    if operations != [] {
      var before := operations[..|operations| - 1];
      EveryRunHoldsNewest(before, capacity);
      match operations[|operations| - 1]
      case Emit(e) =>
        EmitHoldsNewest(After(before, capacity), SinceClear(before), e, capacity);
      case Clear =>
    }
  }

  lemma PruneAdds(t: Table, e: Event, capacity: nat)
    ensures forall row <- Emitted(t, e, capacity).rows :: row in t.rows || row.id == t.lastId + 1
  {
    var inserted := t.rows + [Row(t.lastId + 1, e)];
    assert forall row <- inserted :: row in t.rows || row.id == t.lastId + 1;
  }

  /** Row numbers are never used twice in a run, not even across a clear. */
  lemma {:induction false} RowNumbersOnlyGrow(earlier: seq<Operation>, later: seq<Operation>, capacity: nat)
    requires capacity >= 1
    ensures After(earlier + later, capacity).lastId >= After(earlier, capacity).lastId
    ensures forall row <- After(earlier + later, capacity).rows ::
            row.id > After(earlier, capacity).lastId || row in After(earlier, capacity).rows
  {
    if later == [] {
      assert earlier + later == earlier;
    } else {
      var before := later[..|later| - 1];
      RowNumbersOnlyGrow(earlier, before, capacity);
      assert (earlier + later)[..|earlier + later| - 1] == earlier + before;
      var t := After(earlier + before, capacity);
      match later[|later| - 1]
      case Emit(e) =>
        PruneAdds(t, e, capacity);
      case Clear =>
    }
  }

  // ---------- Search ----------

  /** An absent text criterion is the empty text; a level of 0 or less asks for every level. */
  datatype Query = Query(levelNo: int, loggerPrefix: string, tag: string, since: Option<real>, contains: string,
                         limit: int)

  /** The LIKE operator: '%' stands for any text, '_' for any character, letters without case. */
  predicate Like(pattern: string, text: string)
    decreases |pattern| + |text|
  {
    if pattern == "" then text == ""
    else if pattern[0] == '%' then Like(pattern[1..], text) || (text != "" && Like(pattern, text[1..]))
    else text != "" && (pattern[0] == '_'
                        || LowerChar(pattern[0]) == LowerChar(text[0])) && Like(pattern[1..], text[1..])
  }

  predicate Instr(text: string, needle: string) {
    exists i :: 0 <= i <= |text| - |needle| && OccursAt(text, needle, i)
  }

  predicate OccursAt(text: string, needle: string, i: nat) {
    i + |needle| <= |text| && text[i..i + |needle|] == needle
  }

  predicate Mentions(text: string, needle: string) {
    Instr(Lower(text), Lower(needle))
  }

  predicate Matches(q: Query, e: Event) {
    && (q.levelNo > 0 ==> e.levelNo >= q.levelNo)
    && (q.loggerPrefix != "" ==> Like(q.loggerPrefix + "%", e.logger))
    && (q.tag != "" ==> e.tag == Some(q.tag))
    && (q.since.Some? ==> e.created >= q.since.value)
    && (q.contains != "" ==>
          || Mentions(e.message, q.contains) || Mentions(e.logger, q.contains)
          || Mentions((match e.tag case Some(tag) => tag case None => ""),
                      q.contains) || Mentions(e.fields, q.contains))
  }

  predicate NewerFirst(a: Row, b: Row) {
    a.event.created > b.event.created || (a.event.created == b.event.created && a.id >= b.id)
  }

  function Matching(rows: seq<Row>, q: Query): seq<Row> {
    Filter(rows, (row: Row) => Matches(q, row.event))
  }

  /** The first `limit` matches, newest first; a negative limit asks for all. */
  function Page(rows: seq<Row>, q: Query): seq<Row> {
    var sorted := Sort(Matching(rows, q), NewerFirst);
    if 0 <= q.limit < |sorted| then sorted[..q.limit] else sorted
  }

  lemma {:induction false} FilterKeepsOrder(rows: seq<Row>, first: int, p: Row -> bool)
    requires Consecutive(rows, first)
    ensures forall i, j :: 0 <= i < j < |Filter(rows, p)| ==> Filter(rows, p)[i].id < Filter(rows, p)[j].id
    ensures forall row <- Filter(rows, p) :: row.id >= first
  {
    if rows != [] {
      assert forall k :: 0 <= k < |rows| - 1 ==> rows[1..][k] == rows[k + 1];
      FilterKeepsOrder(rows[1..], first + 1, p);
      var rest := Filter(rows[1..], p);
      assert forall i :: 0 <= i < |rest| ==> rest[i] in rest;
    }
  }

  /** The later event first, and of two events of one time the row with the greater number. */
  ghost predicate Precedes(a: Row, b: Row) {
    b.event.created < a.event.created || (b.event.created == a.event.created && b.id <= a.id)
  }

  /** The rows of the table that match. */
  ghost function MatchingRows(rows: seq<Row>, q: Query): set<Row> {
    set row | row in rows && Matches(q, row.event)
  }

  /** The page lists the newest matches, as many as the limit allows: its rows are in order, each
      matches and is listed once, and every other match in the table comes after all of them. */
  ghost predicate ListsNewest(page: seq<Row>, rows: seq<Row>, q: Query) {
    var matched := |MatchingRows(rows, q)|;
    && |page| == (if 0 <= q.limit < matched then q.limit else matched)
    && (forall i, j :: 0 <= i < j < |page| ==> Precedes(page[i], page[j]) && page[i] != page[j])
    && (forall row <- page :: row in MatchingRows(rows, q))
    && (forall row <- MatchingRows(rows, q) :: row !in page ==> forall other <- page :: Precedes(other, row))
  }

  lemma PageIsNewestMatches(t: Table, events: seq<Event>, capacity: nat, q: Query)
    requires HoldsNewest(t, events, capacity)
    ensures ListsNewest(Page(t.rows, q), t.rows, q) && |Matching(t.rows, q)| == |MatchingRows(t.rows, q)|
  {
    var sorted := Sort(Matching(t.rows, q), NewerFirst);
    SortSorts(Matching(t.rows, q), NewerFirst);
    SortedOnce(t.rows, t.lastId + 1 - |t.rows|, q);
    forall row ensures row in sorted <==> row in MatchingRows(t.rows, q) {
      SortedMember(t.rows, q, row);
    }
    DistinctSize(sorted, MatchingRows(t.rows, q));
    PrefixIsNewest(sorted, Page(t.rows, q));
    PageInOrder(sorted, Page(t.rows, q));
  }

  /** Two pages of the newest matches are equal. */
  lemma NewestPageIsUnique(t: Table, events: seq<Event>, capacity: nat, q: Query, page: seq<Row>)
    requires HoldsNewest(t, events, capacity) && ListsNewest(page, t.rows, q)
    ensures page == Page(t.rows, q)
  {
    PageIsNewestMatches(t, events, capacity, q);
    SameNewest(page, Page(t.rows, q), t.rows, t.lastId + 1 - |t.rows|, q, |page|);
    assert page[..|page|] == page && Page(t.rows, q)[..|page|] == Page(t.rows, q);
  }

  lemma {:induction false} SameNewest(a: seq<Row>, b: seq<Row>, rows: seq<Row>, first: int, q: Query, n: nat)
    requires Consecutive(rows, first) && ListsNewest(a, rows, q) && ListsNewest(b, rows, q) && n <= |a|
    ensures a[..n] == b[..n]
    decreases n
  {
    if n > 0 {
      SameNewest(a, b, rows, first, q, n - 1);
      ComesNoLater(a, b, rows, q, n - 1);
      ComesNoLater(b, a, rows, q, n - 1);
      assert a[n - 1] in MatchingRows(rows, q) && b[n - 1] in MatchingRows(rows, q);
      var i :| 0 <= i < |rows| && rows[i] == a[n - 1];
      var j :| 0 <= j < |rows| && rows[j] == b[n - 1];
    }
  }

  lemma ComesNoLater(a: seq<Row>, b: seq<Row>, rows: seq<Row>, q: Query, n: nat)
    requires ListsNewest(a, rows, q) && ListsNewest(b, rows, q) && n < |a| && a[..n] == b[..n]
    ensures NewerFirst(a[n], b[n])
  {
    assert b[n] in MatchingRows(rows, q) && a[n] in a;
    forall k | 0 <= k < n ensures a[k] != b[n] {
      assert a[..n][k] == b[..n][k];
    }
  }

  lemma SortedMember(rows: seq<Row>, q: Query, row: Row)
    ensures row in Sort(Matching(rows, q), NewerFirst) <==> row in rows && Matches(q, row.event)
  {
    SortSorts(Matching(rows, q), NewerFirst);
    FilterMember(rows, (r: Row) => Matches(q, r.event), row);
    assert row in Matching(rows, q) <==> row in multiset(Matching(rows, q));
    assert row in Sort(Matching(rows, q), NewerFirst) <==> row in multiset(Sort(Matching(rows, q), NewerFirst));
  }

  lemma PrefixIsNewest(sorted: seq<Row>, page: seq<Row>)
    requires Sorted(sorted, NewerFirst) && page <= sorted
    ensures forall row <- sorted :: row !in page ==> forall other <- page :: Precedes(other, row)
  {
    forall row | row in sorted ensures row in page || forall other <- page :: Precedes(other, row) {
      var j :| 0 <= j < |sorted| && sorted[j] == row;
      if j < |page| {
        assert page[j] == row;
      }
    }
  }

  lemma PageInOrder(sorted: seq<Row>, page: seq<Row>)
    requires Sorted(sorted, NewerFirst) && Distinct(sorted) && page <= sorted
    ensures forall i, j :: 0 <= i < j < |page| ==> Precedes(page[i], page[j]) && page[i] != page[j]
    ensures forall row <- page :: row in sorted
  {
    forall i, j | 0 <= i < j < |page| ensures Precedes(page[i], page[j]) && page[i] != page[j] {
      assert NewerFirst(sorted[i], sorted[j]);
    }
  }

  lemma SortedOnce(rows: seq<Row>, first: int, q: Query)
    requires Consecutive(rows, first)
    ensures var sorted := Sort(Matching(rows, q), NewerFirst);
            Distinct(sorted)
  {
    var matching := Matching(rows, q);
    var sorted := Sort(matching, NewerFirst);
    SortSorts(matching, NewerFirst);
    FilterKeepsOrder(rows, first, (row: Row) => Matches(q, row.event));
    ReorderedStayDistinct(matching, sorted);
  }

  // ---------- What the criteria ask for ----------

  /** The same character, or one letter in its two cases. */
  ghost predicate SameLetter(a: char, b: char) {
    || a == b
    || ('A' <= a <= 'Z' && b as int - a as int == 'a' as int - 'A' as int)
    || ('A' <= b <= 'Z' && a as int - b as int == 'a' as int - 'A' as int)
  }

  lemma LowerIsSameLetter(a: char, b: char)
    ensures LowerChar(a) == LowerChar(b) <==> SameLetter(a, b)
  {
  }

  /** The needle stands in the text at this place, without case. */
  ghost predicate StandsAt(text: string, needle: string, i: nat) {
    i + |needle| <= |text| && forall k :: i <= k < i + |needle| ==> SameLetter(text[k], needle[k - i])
  }

  ghost predicate Holds(text: string, needle: string) {
    exists i: nat :: StandsAt(text, needle, i)
  }

  lemma MentionsIff(text: string, needle: string)
    ensures Mentions(text, needle) <==> Holds(text, needle)
  {
    var low, find := Lower(text), Lower(needle);
    forall i: nat ensures OccursAt(low, find, i) <==> StandsAt(text, needle, i) {
      OccursIff(text, needle, i);
    }
    if i: nat :| StandsAt(text, needle, i) {
      assert OccursAt(low, find, i);
    }
  }

  lemma OccursIff(text: string, needle: string, i: nat)
    ensures OccursAt(Lower(text), Lower(needle), i) <==> StandsAt(text, needle, i)
  {
    if i + |needle| <= |text| {
      var part, find := Lower(text)[i..i + |needle|], Lower(needle);
      forall k | i <= k < i + |needle| ensures part[k - i] == find[k - i] <==> SameLetter(text[k], needle[k - i]) {
        LowerIsSameLetter(text[k], needle[k - i]);
      }
      if StandsAt(text, needle, i) {
        forall m | 0 <= m < |needle| ensures part[m] == find[m] {
          assert part[(i + m) - i] == find[(i + m) - i];
        }
        assert part == find;
      }
      if part == find {
        assert forall k :: i <= k < i + |needle| ==> SameLetter(text[k], needle[k - i]);
      }
    }
  }

  /** `cuts` divides the text between the characters of the pattern: a percent sign may take any part,
      an underscore any one character, and every other character itself, without case. */
  ghost predicate Divides(cuts: seq<nat>, pattern: string, text: string) {
    && |cuts| == |pattern| + 1 && cuts[0] == 0 && cuts[|pattern|] == |text|
    && forall i :: 0 <= i < |pattern| ==> Fits(pattern[i], text, cuts[i], cuts[i + 1])
  }

  /** The character of the pattern fits the part of the text from `i` to `j`. */
  ghost predicate Fits(c: char, text: string, i: nat, j: nat) {
    && i <= j <= |text|
    && (c != '%' ==> j == i + 1)
    && (c != '%' && c != '_' ==> SameLetter(text[i], c))
  }

  lemma FitsBehind(c: char, text: string, n: nat, i: nat, j: nat)
    requires n <= |text|
    ensures Fits(c, text[n..], i, j) <==> Fits(c, text, i + n, j + n)
  {
    if i < j && j + n <= |text| {
      assert text[n..][i] == text[i + n];
    }
  }

  function Behind(cuts: seq<nat>, n: nat): (r: seq<nat>)
    ensures |r| == |cuts| && forall i :: 0 <= i < |cuts| ==> r[i] == cuts[i] + n
  {
    seq(|cuts|, i requires 0 <= i < |cuts| => cuts[i] + n)
  }

  lemma FirstCut(cuts: seq<nat>, pattern: string, text: string, n: nat)
    requires pattern != "" && Fits(pattern[0], text, 0, n) && Divides(cuts, pattern[1..], text[n..])
    ensures Divides([0] + Behind(cuts, n), pattern, text)
  {
    var all := [0] + Behind(cuts, n);
    forall i | 0 < i < |pattern| ensures Fits(pattern[i], text, all[i], all[i + 1]) {
      assert Fits(pattern[1..][i - 1], text[n..], cuts[i - 1], cuts[i - 1 + 1]);
      FitsBehind(pattern[i], text, n, cuts[i - 1], cuts[i]);
    }
  }

  /** What a pattern takes first, and the rest that fits the rest. */
  lemma {:induction false} LikeTakes(pattern: string, text: string) returns (n: nat)
    requires pattern != "" && Like(pattern, text)
    ensures Fits(pattern[0], text, 0, n) && Like(pattern[1..], text[n..])
    decreases |text|
  {
    if pattern[0] != '%' {
      LowerIsSameLetter(text[0], pattern[0]);
      n := 1;
    } else if Like(pattern[1..], text) {
      assert text[0..] == text;
      n := 0;
    } else {
      n := LikeTakes(pattern, text[1..]);
      assert text[1..][n..] == text[n + 1..];
      n := n + 1;
    }
  }

  lemma {:induction false} LikeDivides(pattern: string, text: string) returns (cuts: seq<nat>)
    requires Like(pattern, text)
    ensures Divides(cuts, pattern, text)
    decreases |pattern|
  {
    if pattern == "" {
      cuts := [0];
    } else {
      var n := LikeTakes(pattern, text);
      cuts := LikeDivides(pattern[1..], text[n..]);
      FirstCut(cuts, pattern, text, n);
      cuts := [0] + Behind(cuts, n);
    }
  }

  lemma {:induction false} CutsGrow(cuts: seq<nat>, pattern: string, text: string, i: nat)
    requires Divides(cuts, pattern, text) && i <= |pattern|
    ensures forall j :: i <= j <= |pattern| ==> cuts[i] <= cuts[j]
    decreases |pattern| - i
  {
    if i < |pattern| {
      CutsGrow(cuts, pattern, text, i + 1);
    }
  }

  function Before(cuts: seq<nat>, n: nat): (r: seq<nat>)
    requires forall i :: 0 <= i < |cuts| ==> cuts[i] >= n
    ensures |r| == |cuts| && forall i :: 0 <= i < |cuts| ==> r[i] == cuts[i] - n
  {
    seq(|cuts|, i requires 0 <= i < |cuts| => cuts[i] - n)
  }

  lemma RestDivides(cuts: seq<nat>, pattern: string, text: string) returns (rest: seq<nat>)
    requires pattern != "" && Divides(cuts, pattern, text)
    ensures Fits(pattern[0], text, 0, cuts[1]) && Divides(rest, pattern[1..], text[cuts[1]..])
  {
    var n := cuts[1];
    CutsGrow(cuts, pattern, text, 1);
    assert Fits(pattern[0], text, cuts[0], cuts[0 + 1]);
    assert forall i :: 0 <= i < |pattern| ==> cuts[1..][i] == cuts[i + 1];
    rest := Before(cuts[1..], n);
    forall i | 0 <= i < |pattern| - 1 ensures Fits(pattern[1..][i], text[n..], rest[i], rest[i + 1]) {
      assert Fits(pattern[i + 1], text, cuts[i + 1], cuts[i + 1 + 1]);
      FitsBehind(pattern[i + 1], text, n, rest[i], rest[i + 1]);
    }
  }

  lemma {:induction false} DividesLike(cuts: seq<nat>, pattern: string, text: string)
    requires Divides(cuts, pattern, text)
    ensures Like(pattern, text)
    decreases |pattern|
  {
    if pattern != "" {
      var rest := RestDivides(cuts, pattern, text);
      DividesLike(rest, pattern[1..], text[cuts[1]..]);
      TakesLike(pattern, text, cuts[1]);
    }
  }

  lemma {:induction false} TakesLike(pattern: string, text: string, n: nat)
    requires pattern != "" && Fits(pattern[0], text, 0, n) && Like(pattern[1..], text[n..])
    ensures Like(pattern, text)
    decreases n
  {
    if pattern[0] != '%' {
      LowerIsSameLetter(text[0], pattern[0]);
    } else if n > 0 {
      assert text[1..][n - 1..] == text[n..];
      TakesLike(pattern, text[1..], n - 1);
    } else {
      assert text[0..] == text;
    }
  }

  ghost predicate Resembles(pattern: string, text: string) {
    exists cuts :: Divides(cuts, pattern, text)
  }

  lemma LikeIff(pattern: string, text: string)
    ensures Like(pattern, text) <==> Resembles(pattern, text)
  {
    if Like(pattern, text) {
      var cuts := LikeDivides(pattern, text);
    }
    if cuts :| Divides(cuts, pattern, text) {
      DividesLike(cuts, pattern, text);
    }
  }

  /** An event matches when it meets each criterion that the query sets. */
  lemma MatchesIff(q: Query, e: Event)
    ensures Matches(q, e) <==>
              && (q.levelNo <= 0 || q.levelNo <= e.levelNo)
              && (q.loggerPrefix == "" || Resembles(q.loggerPrefix + "%", e.logger))
              && (q.tag == "" || (e.tag.Some? && e.tag.value == q.tag))
              && (q.since.None? || q.since.value <= e.created)
              && (q.contains == "" || Holds(e.message, q.contains) || Holds(e.logger, q.contains)
                  || Holds(GetOr(e.tag, ""), q.contains) || Holds(e.fields, q.contains))
  {
    LikeIff(q.loggerPrefix + "%", e.logger);
    MentionsIff(e.message, q.contains);
    MentionsIff(e.logger, q.contains);
    MentionsIff(GetOr(e.tag, ""), q.contains);
    MentionsIff(e.fields, q.contains);
  }

  // ---------- The logger prefix ----------

  predicate StartsWith(text: string, prefix: string) {
    |prefix| <= |text| && text[..|prefix|] == prefix
  }

  predicate IsWildcard(c: char) { c == '%' || c == '_' }

  lemma {:induction false} AnyTextIsLikePercent(text: string)
    ensures Like("%", text)
  {
    if text != "" {
      AnyTextIsLikePercent(text[1..]);
    }
  }

  lemma {:induction false} LikePlainPrefix(prefix: string, text: string)
    requires forall i :: 0 <= i < |prefix| ==> !IsWildcard(prefix[i])
    ensures Like(prefix + "%", text) <==> StartsWith(Lower(text), Lower(prefix))
  {
    if prefix == "" {
      assert prefix + "%" == "%";
      AnyTextIsLikePercent(text);
    } else {
      assert (prefix + "%")[1..] == prefix[1..] + "%";
      if text != "" {
        LikePlainPrefix(prefix[1..], text[1..]);
        LowerCons(prefix);
        LowerCons(text);
        var a, b := Lower(prefix[1..]), Lower(text[1..]);
        StartsWithCons(LowerChar(prefix[0]), a, LowerChar(text[0]), b);
      }
    }
  }

  lemma LowerCons(s: string)
    requires s != ""
    ensures Lower(s) == [LowerChar(s[0])] + Lower(s[1..])
  {
  }

  lemma StartsWithCons(x: char, prefix: string, y: char, text: string)
    ensures StartsWith([y] + text, [x] + prefix) <==> x == y && StartsWith(text, prefix)
  {
    if |prefix| <= |text| {
      assert ([y] + text)[..|prefix| + 1] == [y] + text[..|prefix|];
      assert ([x] + prefix)[0] == x && ([x] + prefix)[1..] == prefix;
      assert ([y] + text[..|prefix|])[0] == y && ([y] + text[..|prefix|])[1..] == text[..|prefix|];
    }
  }

  lemma {:induction false} LikeCharByChar(prefix: string, text: string)
    requires |prefix| == |text| && forall i :: 0 <= i < |prefix| ==> IsWildcard(prefix[i]) || prefix[i] == text[i]
    ensures Like(prefix + "%", text)
  {
    if prefix != "" {
      assert (prefix + "%")[1..] == prefix[1..] + "%";
      LikeCharByChar(prefix[1..], text[1..]);
      if prefix[0] == '%' {
        assert Like(prefix + "%", text[1..]);
      }
    }
  }

  /** The logger criterion is the promised prefix test, without case, exactly for prefixes without
      an underscore or percent sign. */
  lemma LoggerPrefixIsPrefixIff(prefix: string)
    ensures (forall text: string :: Like(prefix + "%", text) <==> StartsWith(Lower(text), Lower(prefix)))
            <==> forall i :: 0 <= i < |prefix| ==> !IsWildcard(prefix[i])
  {
    if forall i :: 0 <= i < |prefix| ==> !IsWildcard(prefix[i]) {
      forall text: string ensures Like(prefix + "%", text) <==> StartsWith(Lower(text), Lower(prefix)) {
        LikePlainPrefix(prefix, text);
      }
    } else {
      var i :| 0 <= i < |prefix| && IsWildcard(prefix[i]);
      var text := prefix[i := 'x'];
      LikeCharByChar(prefix, text);
      assert Lower(text)[i] == 'x' && Lower(prefix)[i] == prefix[i];
    }
  }

  // ---------- The handler ----------

  class LogBuffer {
    const capacity: nat
    var rows: seq<Row>
    var lastId: nat
    var dropped: nat
    ghost var since: seq<Event>

    ghost function State(): Table
      reads this
    {
      Table(rows, lastId, dropped)
    }

    /** The table holds the newest of the events emitted since the last clear. */
    ghost predicate Valid()
      reads this
    {
      capacity >= 1 && HoldsNewest(State(), since, capacity)
    }

    constructor (requested: int)
      ensures Valid() && since == []
      ensures capacity == Capacity(requested) && State() == FRESH
    {
      capacity := Capacity(requested);
      rows := [];
      lastId := 0;
      dropped := 0;
      since := [];
    }

    method Emit(e: Event)
      requires Valid()
      modifies this
      ensures Valid() && since == old(since) + [e]
      ensures State() == Emitted(old(State()), e, capacity)
    {
      EmitHoldsNewest(State(), since, e, capacity);
      lastId := lastId + 1;
      rows := rows + [Row(lastId, e)];
      var kept := Prune(rows, capacity);
      dropped := dropped + (|rows| - |kept|);
      rows := kept;
      since := since + [e];
    }

    method Clear()
      requires Valid()
      modifies this
      ensures Valid() && since == []
      ensures State() == Cleared(old(State()))
    {
      rows := [];
      dropped := 0;
      since := [];
    }

    /** The events of the newest matching rows, and the number of all matching rows, of one table. */
    method Search(q: Query) returns (events: seq<Event>, matched: nat, ghost page: seq<Row>)
      requires Valid()
      ensures matched == |MatchingRows(rows, q)|
      ensures ListsNewest(page, rows, q)
      ensures |events| == |page| && forall i :: 0 <= i < |page| ==> events[i] == page[i].event
    {
      PageIsNewestMatches(State(), since, capacity, q);
      var found := Page(rows, q);
      matched := |Matching(rows, q)|;
      events := Map(found, (row: Row) => row.event);
      page := found;
    }
  }
}
