/** The bounding box of a geometry by a flat coordinate scan, and the polygon of a box. */
module Geometry {
  import opened Sequences
  import opened Wrappers

  /** A JSON value inside `coordinates`: a number, a list, or anything else. */
  datatype Value = Num(x: real) | List(items: seq<Value>) | Other

  datatype Point = Point(x: real, y: real)

  datatype Box = Box(west: real, south: real, east: real, north: real)

  datatype Axis = X | Y

  function At(p: Point, axis: Axis): real {
    match axis case X => p.x case Y => p.y
  }

  function Min(a: real, b: real): real { if b < a then b else a }

  function Max(a: real, b: real): real { if b > a then b else a }

  function Lowest(s: seq<Point>, axis: Axis): real
    requires s != []
  {
    if |s| == 1 then At(s[0], axis) else Min(At(s[0], axis), Lowest(s[1..], axis))
  }

  function Highest(s: seq<Point>, axis: Axis): real
    requires s != []
  {
    if |s| == 1 then At(s[0], axis) else Max(At(s[0], axis), Highest(s[1..], axis))
  }

  lemma {:induction false} ExtremesAppend(a: seq<Point>, b: seq<Point>, axis: Axis)
    requires a != [] && b != []
    ensures Lowest(a + b, axis) == Min(Lowest(a, axis), Lowest(b, axis))
    ensures Highest(a + b, axis) == Max(Highest(a, axis), Highest(b, axis))
  {
    assert (a + b)[1..] == a[1..] + b;
    if |a| > 1 {
      ExtremesAppend(a[1..], b, axis);
    } else {
      assert a[1..] + b == b;
    }
  }

  lemma {:induction false} ExtremesBound(s: seq<Point>, axis: Axis)
    requires s != []
    ensures forall p <- s :: Lowest(s, axis) <= At(p, axis) <= Highest(s, axis)
    ensures exists p <- s :: At(p, axis) == Highest(s, axis)
    ensures exists p <- s :: At(p, axis) == Lowest(s, axis)
  {
    assert s == [s[0]] + s[1..];
    if |s| > 1 {
      ExtremesBound(s[1..], axis);
      var h :| h in s[1..] && At(h, axis) == Highest(s[1..], axis);
      var l :| l in s[1..] && At(l, axis) == Lowest(s[1..], axis);
      assert s[0] in s && h in s && l in s;
    } else {
      assert s[0] in s;
    }
  }

  predicate IsPosition(v: Value) {
    v.List? && |v.items| >= 2 && v.items[0].Num? && v.items[1].Num?
  }

  function PositionOf(v: Value): Point
    requires IsPosition(v)
  {
    Point(v.items[0].x, v.items[1].x)
  }

  // ---------- What the scan collects ----------

  /** The running minimum is kept in the first point; the points of later parts are appended. */
  function Merge(coords: seq<Point>, part: seq<Point>): seq<Point> {
    if part == [] then coords
    else if coords == [] then part
    else [Point(Min(coords[0].x, part[0].x), Min(coords[0].y, part[0].y))] + coords[1..] + part
  }

  function Scan(v: Value): seq<Point>
    decreases v, 1, 0
  {
    if IsPosition(v) then [PositionOf(v)] else if v.List? then ScanList(v, |v.items|) else []
  }

  /** The scan of the first n items of a list. */
  function ScanList(v: Value, n: nat): seq<Point>
    requires v.List? && n <= |v.items|
    decreases v, 0, n
  {
    if n == 0 then [] else Merge(ScanList(v, n - 1), Scan(v.items[n - 1]))
  }

  // ---------- What there is to collect ----------

  function Positions(v: Value): seq<Point>
    decreases v, 1, 0
  {
    if IsPosition(v) then [PositionOf(v)] else if v.List? then PositionsList(v, |v.items|) else []
  }

  function PositionsList(v: Value, n: nat): seq<Point>
    requires v.List? && n <= |v.items|
    decreases v, 0, n
  {
    if n == 0 then [] else PositionsList(v, n - 1) + Positions(v.items[n - 1])
  }

  /** The value is a list that starts with these two numbers. */
  ghost predicate Pair(v: Value, p: Point) {
    v.List? && |v.items| >= 2 && v.items[0] == Num(p.x) && v.items[1] == Num(p.y)
  }

  /** Going into the lists at these places, none of which starts with two numbers, leads to the value. */
  ghost predicate Inside(v: Value, path: seq<nat>, w: Value)
    decreases |path|
  {
    if path == [] then v == w
    else v.List? && path[0] < |v.items| && (forall p :: !Pair(v, p)) && Inside(v.items[path[0]], path[1..], w)
  }

  lemma PositionIff(v: Value)
    ensures IsPosition(v) <==> exists p :: Pair(v, p)
    ensures IsPosition(v) ==> forall p :: Pair(v, p) <==> p == PositionOf(v)
  {
    if IsPosition(v) {
      assert Pair(v, PositionOf(v));
    }
  }

  lemma {:induction false} InList(v: Value, n: nat, p: Point)
    requires v.List? && n <= |v.items|
    ensures p in PositionsList(v, n) <==> exists i :: 0 <= i < n && p in Positions(v.items[i])
    decreases n
  {
    if n > 0 {
      InList(v, n - 1, p);
    }
  }

  /** The positions are the pairs of numbers that the lists lead to, at any nesting. */
  lemma {:induction false} PositionsAre(v: Value, p: Point)
    ensures p in Positions(v) <==> exists path, w :: Inside(v, path, w) && Pair(w, p)
    decreases v
  {
    PositionIff(v);
    if IsPosition(v) {
      assert Inside(v, [], v);
      PositionStops(v, p);
    } else if v.List? {
      InList(v, |v.items|, p);
      if i :| 0 <= i < |v.items| && p in Positions(v.items[i]) {
        PositionsAre(v.items[i], p);
        var path, w :| Inside(v.items[i], path, w) && Pair(w, p);
        assert ([i] + path)[1..] == path && Inside(v, [i] + path, w);
      }
      if path, w :| Inside(v, path, w) && Pair(w, p) {
        assert path != [];
        PositionsAre(v.items[path[0]], p);
        assert Inside(v.items[path[0]], path[1..], w);
      }
    } else {
      PositionStops(v, p);
    }
  }

  lemma PositionStops(v: Value, p: Point)
    requires !v.List? || exists q :: Pair(v, q)
    ensures (exists path, w :: Inside(v, path, w) && Pair(w, p)) <==> Pair(v, p)
  {
    if Pair(v, p) {
      assert Inside(v, [], v);
    }
  }

  /** The positions that are not the first one of an enclosing list with two or more positions. */
  function Survivors(v: Value): seq<Point>
    decreases v, 1, 0
  {
    if IsPosition(v) then [PositionOf(v)] else if v.List? then SurvivorsList(v, |v.items|) else []
  }

  function SurvivorsList(v: Value, n: nat): seq<Point>
    requires v.List? && n <= |v.items|
    decreases v, 0, n
  {
    if n == 0 then []
    else
      var before, part := PositionsList(v, n - 1), v.items[n - 1];
      if Positions(part) == [] then SurvivorsList(v, n - 1)
      else if |before| <= 1 then Survivors(part)
      else SurvivorsList(v, n - 1) + Survivors(part)
  }

  // ---------- The scan against the positions ----------

  /** `coords` starts with the exact lower corner of `all`, and its upper corner is that of `kept`. */
  ghost predicate Faithful(coords: seq<Point>, all: seq<Point>, kept: seq<Point>) {
    && |coords| == |all|
    && (all == [] <==> kept == [])
    && (forall p <- kept :: p in all)
    && (all != [] ==> forall axis: Axis ::
          && At(coords[0], axis) == Lowest(all, axis) == Lowest(coords, axis)
          && Highest(coords, axis) == Highest(kept, axis))
  }

  lemma {:induction false} ScanIsFaithful(v: Value)
    ensures Faithful(Scan(v), Positions(v), Survivors(v))
    decreases v, 1, 0
  {
    if !IsPosition(v) && v.List? {
      ScanListIsFaithful(v, |v.items|);
    }
  }

  lemma {:induction false} ScanListIsFaithful(v: Value, n: nat)
    requires v.List? && n <= |v.items|
    ensures Faithful(ScanList(v, n), PositionsList(v, n), SurvivorsList(v, n))
    decreases v, 0, n
  {
    if n > 0 {
      ScanListIsFaithful(v, n - 1);
      ScanIsFaithful(v.items[n - 1]);
      var part := v.items[n - 1];
      MergeIsFaithful(ScanList(v, n - 1), PositionsList(v, n - 1), SurvivorsList(v, n - 1), Scan(part),
                      Positions(part), Survivors(part));
    }
  }

  lemma MergeIsFaithful(coords: seq<Point>, all: seq<Point>, kept: seq<Point>, part: seq<Point>, partAll: seq<Point>,
                        partKept: seq<Point>)
    requires Faithful(coords, all, kept) && Faithful(part, partAll, partKept)
    ensures Faithful(Merge(coords, part), all + partAll,
                     if partAll == [] then kept else if |all| <= 1 then partKept else kept + partKept)
  {
    if partAll == [] {
      assert all + partAll == all;
    } else if all == [] {
      assert all + partAll == partAll;
    } else {
      forall axis: Axis
        ensures At(Merge(coords, part)[0], axis) == Lowest(all + partAll, axis) == Lowest(Merge(coords, part), axis)
        ensures Highest(Merge(coords, part), axis) == Highest(if |all| <= 1 then partKept else kept + partKept, axis)
      {
        MergeOnAxis(coords, part, axis);
        ExtremesAppend(all, partAll, axis);
        if |all| > 1 {
          ExtremesAppend(kept, partKept, axis);
        }
      }
    }
  }

  lemma MergeOnAxis(coords: seq<Point>, part: seq<Point>, axis: Axis)
    requires coords != [] && part != []
    requires At(coords[0], axis) == Lowest(coords, axis) && At(part[0], axis) == Lowest(part, axis)
    ensures At(Merge(coords, part)[0], axis) == Lowest(Merge(coords, part), axis)
            == Min(Lowest(coords, axis), Lowest(part, axis))
    ensures Highest(Merge(coords, part), axis)
            == if |coords| == 1 then Highest(part, axis)
            else Max(Highest(coords, axis), Highest(part, axis))
  {
    var low := Point(Min(coords[0].x, part[0].x), Min(coords[0].y, part[0].y));
    var rest := coords[1..];
    LowestBound(part, axis);
    Assoc([low], rest, part);
    HeadFirst(low, rest + part, axis);
    if rest == [] {
      assert rest + part == part;
    } else {
      MergedTail(coords[0], rest, part, axis);
      assert coords == [coords[0]] + rest;
    }
  }

  lemma MergedTail(first: Point, rest: seq<Point>, part: seq<Point>, axis: Axis)
    requires rest != [] && part != [] && At(first, axis) == Lowest([first] + rest, axis)
    ensures Lowest(rest + part, axis) == Min(Lowest(rest, axis), Lowest(part, axis))
            && Lowest(rest, axis) >= At(first, axis)
    ensures Highest(rest + part, axis) == Max(Highest([first] + rest, axis), Highest(part, axis))
  {
    HeadFirst(first, rest, axis);
    ExtremesAppend(rest, part, axis);
    LowestBound(rest, axis);
  }

  lemma HeadFirst(p: Point, s: seq<Point>, axis: Axis)
    requires s != []
    ensures Lowest([p] + s, axis) == Min(At(p, axis), Lowest(s, axis))
    ensures Highest([p] + s, axis) == Max(At(p, axis), Highest(s, axis))
  {
    assert ([p] + s)[1..] == s;
  }

  lemma LowestBound(s: seq<Point>, axis: Axis)
    requires s != []
    ensures Lowest(s, axis) <= Highest(s, axis)
    ensures Lowest(s, axis) <= At(s[0], axis) <= Highest(s, axis)
  {
    if |s| > 1 {
      LowestBound(s[1..], axis);
    }
  }

  // ---------- The box ----------

  /** The box that the scan gives; None for a geometry without positions. */
  function GeometryBox(coordinates: Value): Option<Box> {
    var flat := Scan(coordinates);
    if flat == [] then None else Some(Box(Lowest(flat, X), Lowest(flat, Y), Highest(flat, X), Highest(flat, Y)))
  }

  /** Points as the flat list x, y, x, y, ... that the scan works on. */
  function Flat(points: seq<Point>): seq<real> {
    if points == [] then [] else [points[0].x, points[0].y] + Flat(points[1..])
  }

  lemma {:induction false} FlatAppend(a: seq<Point>, b: seq<Point>)
    ensures Flat(a + b) == Flat(a) + Flat(b)
  {
    if a == [] {
      assert a + b == b;
    } else {
      FlatAppend(a[1..], b);
      assert (a + b)[1..] == a[1..] + b;
    }
  }

  lemma FlatMerge(coords: seq<Point>, part: seq<Point>)
    requires coords != [] && part != []
    ensures |Flat(coords)| >= 2 && |Flat(part)| >= 2
    ensures var c, p := Flat(coords), Flat(part);
            Flat(Merge(coords, part)) == c[0 := Min(c[0], p[0])][1 := Min(c[1], p[1])] + p
  {
    var low := Point(Min(coords[0].x, part[0].x), Min(coords[0].y, part[0].y));
    FlatAppend([low] + coords[1..], part);
    assert ([low] + coords[1..])[1..] == coords[1..];
  }

  /** The items at the even places. */
  function EveryOther(s: seq<real>): (r: seq<real>)
    ensures s != [] ==> r != []
  {
    if s == [] then [] else if |s| == 1 then s else [s[0]] + EveryOther(s[2..])
  }

  function Least(s: seq<real>): real
    requires s != []
  {
    if |s| == 1 then s[0] else Min(s[0], Least(s[1..]))
  }

  function Greatest(s: seq<real>): real
    requires s != []
  {
    if |s| == 1 then s[0] else Max(s[0], Greatest(s[1..]))
  }

  lemma {:induction false} SlicesAreCoordinates(points: seq<Point>)
    requires points != []
    ensures |Flat(points)| >= 2
    ensures var xs, ys := EveryOther(Flat(points)), EveryOther(Flat(points)[1..]);
            && Least(xs) == Lowest(points, X) && Greatest(xs) == Highest(points, X)
            && Least(ys) == Lowest(points, Y) && Greatest(ys) == Highest(points, Y)
  {
    var flat, rest := Flat(points), Flat(points[1..]);
    assert flat[2..] == rest && flat[1..] == [points[0].y] + rest;
    if |points| > 1 {
      SlicesAreCoordinates(points[1..]);
      assert flat[1..][2..] == rest[1..];
      assert EveryOther(flat)[1..] == EveryOther(rest) && EveryOther(flat[1..])[1..] == EveryOther(rest[1..]);
    }
  }

  /** The nested scan: `coords` is overwritten at its first two places and extended. */
  method ScanFlat(v: Value) returns (coords: seq<real>)
    ensures coords == Flat(Scan(v))
    decreases v
  {
    if IsPosition(v) {
      assert [PositionOf(v)][1..] == [];
      return [v.items[0].x, v.items[1].x];
    }
    coords := [];
    if v.List? {
      for n := 0 to |v.items|
        invariant coords == Flat(ScanList(v, n))
      {
        var point := ScanFlat(v.items[n]);
        if point != [] {
          if coords == [] {
            coords := point;
          } else {
            FlatMerge(ScanList(v, n), Scan(v.items[n]));
            coords := coords[0 := Min(coords[0], point[0])];
            coords := coords[1 := Min(coords[1], point[1])];
            coords := coords + point;
          }
        }
      }
    }
  }

  /** The box of the flat list, the even places giving x and the odd places y. */
  method GeometryBbox(coordinates: Value) returns (bbox: Option<seq<real>>)
    ensures GeometryBox(coordinates).None? ==> bbox == None
    ensures GeometryBox(coordinates).Some? ==>
              var box := GeometryBox(coordinates).value;
              bbox == Some([box.west, box.south, box.east, box.north])
  {
    var flat := ScanFlat(coordinates);
    ghost var points := Scan(coordinates);
    if flat == [] {
      return None;
    }
    SlicesAreCoordinates(points);
    var xs, ys := EveryOther(flat), EveryOther(flat[1..]);
    bbox := Some([Least(xs), Least(ys), Greatest(xs), Greatest(ys)]);
  }

  /** The true box of some points. */
  function Hull(points: seq<Point>): Box
    requires points != []
  {
    Box(Lowest(points, X), Lowest(points, Y), Highest(points, X), Highest(points, Y))
  }

  predicate Reaches(s: seq<Point>, limit: real, axis: Axis) {
    exists i :: 0 <= i < |s| && At(s[i], axis) == limit
  }

  /** The lower corner is exact and the box stays inside the true one; it is the true box exactly
      when a surviving position reaches the eastern limit and one reaches the northern limit. */
  lemma BoxIsExactIffLimitsSurvive(coordinates: Value)
    ensures GeometryBox(coordinates).None? <==> Positions(coordinates) == []
    ensures Positions(coordinates) != [] ==>
              var box, hull := GeometryBox(coordinates).value, Hull(Positions(coordinates));
              && box.west == hull.west && box.south == hull.south && box.east <= hull.east && box.north <= hull.north
              && (box == hull
                  <==> Reaches(Survivors(coordinates), hull.east, X) && Reaches(Survivors(coordinates), hull.north, Y))
  {
    ScanIsFaithful(coordinates);
    var all, kept := Positions(coordinates), Survivors(coordinates);
    if all != [] {
      ExtremesBound(all, X);
      ExtremesBound(all, Y);
      ExtremesBound(kept, X);
      ExtremesBound(kept, Y);
    }
  }

  /** An open line loses its first position: the box of this line misses its eastern end. */
  lemma OpenLineLosesItsStart()
    ensures var line := List([List([Num(5.0), Num(5.0)]), List([Num(0.0), Num(0.0)])]);
            Positions(line) != [] && Hull(Positions(line)) == Box(0.0, 0.0, 5.0, 5.0)
                && GeometryBox(line) == Some(Box(0.0, 0.0, 0.0, 0.0))
  {
    var a, b := List([Num(5.0), Num(5.0)]), List([Num(0.0), Num(0.0)]);
    var line := List([a, b]);
    var p, q := Point(5.0, 5.0), Point(0.0, 0.0);
    assert Scan(a) == [p] && Scan(b) == [q];
    assert ScanList(line, 1) == Merge(ScanList(line, 0), [p]) == [p];
    assert Scan(line) == Merge([p], [q]) == [q, q];
    assert PositionsList(line, 1) == [] + [p] == [p];
    assert Positions(line) == [p] + [q] == [p, q];
    PairExtremes(q, q);
    PairExtremes(p, q);
  }

  lemma PairExtremes(p: Point, q: Point)
    ensures forall axis: Axis ::
            Lowest([p, q], axis) == Min(At(p, axis), At(q, axis))
                && Highest([p, q], axis) == Max(At(p, axis), At(q, axis))
  {
    assert [p, q][1..] == [q];
  }

  // ---------- Closed rings ----------

  /** A linear ring: two or more positions, the first repeated at the end. */
  predicate IsRing(v: Value) {
    && v.List? && !IsPosition(v) && |v.items| >= 2
    && (forall i :: 0 <= i < |v.items| ==> IsPosition(v.items[i]))
    && PositionOf(v.items[0]) == PositionOf(v.items[|v.items| - 1])
  }

  /** Linear rings, nested in lists to any depth. */
  predicate RingsOnly(v: Value) {
    IsRing(v) || (v.List? && !IsPosition(v) && forall i :: 0 <= i < |v.items| ==> RingsOnly(v.items[i]))
  }

  ghost predicate NothingLost(v: Value) {
    |Positions(v)| != 1 && forall p <- Positions(v) :: p in Survivors(v)
  }

  lemma {:induction false} RingPrefix(v: Value, n: nat)
    requires IsRing(v) && 1 <= n <= |v.items|
    ensures |PositionsList(v, n)| == n && PositionsList(v, n)[0] == PositionOf(v.items[0])
    ensures PositionsList(v, n)[n - 1] == PositionOf(v.items[n - 1])
    ensures n >= 2 ==> SurvivorsList(v, n) == PositionsList(v, n)[1..]
    decreases n
  {
    if n > 1 {
      RingPrefix(v, n - 1);
    }
  }

  lemma {:induction false} RingsLoseNothing(v: Value)
    requires RingsOnly(v)
    ensures NothingLost(v)
    decreases v, 1, 0
  {
    if IsRing(v) {
      RingPrefix(v, |v.items|);
      var all := Positions(v);
      assert all == [all[0]] + all[1..] && all[|all| - 1] == all[1..][|all| - 2] == all[0];
    } else {
      RingListLosesNothing(v, |v.items|);
    }
  }

  lemma {:induction false} RingListLosesNothing(v: Value, n: nat)
    requires v.List? && !IsPosition(v) && n <= |v.items| && forall i :: 0 <= i < |v.items| ==> RingsOnly(v.items[i])
    ensures |PositionsList(v, n)| != 1 && forall p <- PositionsList(v, n) :: p in SurvivorsList(v, n)
    decreases v, 0, n
  {
    if n > 0 {
      RingListLosesNothing(v, n - 1);
      RingsLoseNothing(v.items[n - 1]);
    }
  }

  /** On closed rings, nested to any depth, the box is exact. */
  lemma RingBoxIsExact(coordinates: Value)
    requires RingsOnly(coordinates) && Positions(coordinates) != []
    ensures GeometryBox(coordinates) == Some(Hull(Positions(coordinates)))
  {
    RingsLoseNothing(coordinates);
    BoxIsExactIffLimitsSurvive(coordinates);
    var all, kept := Positions(coordinates), Survivors(coordinates);
    ExtremesBound(all, X);
    ExtremesBound(all, Y);
    var east :| east in all && At(east, X) == Highest(all, X);
    var north :| north in all && At(north, Y) == Highest(all, Y);
    assert east in kept && north in kept;
  }

  // ---------- The polygon of a box ----------

  function Corner(x: real, y: real): Value {
    List([Num(x), Num(y)])
  }

  /** The polygon of a box with 4 or 6 values; None for any other number of values. */
  function BboxToPolygon(bbox: seq<real>): Option<Value> {
    if |bbox| != 4 && |bbox| != 6 then None
    else
      var west, south, east, north := bbox[0], bbox[1], bbox[|bbox| - 2], bbox[|bbox| - 1];
      Some(List([List([Corner(west, south), Corner(east, south), Corner(east, north), Corner(west, north),
                       Corner(west, south)])]))
  }

  lemma PolygonPositions(west: real, south: real, east: real, north: real)
    ensures var ring := List([Corner(west, south), Corner(east, south), Corner(east, north), Corner(west, north),
                              Corner(west, south)]);
            && RingsOnly(List([ring]))
            && Positions(List([ring])) == [Point(west, south), Point(east, south), Point(east, north),
                                           Point(west, north), Point(west, south)]
  {
    var ring := List([Corner(west, south), Corner(east, south), Corner(east, north), Corner(west, north),
                      Corner(west, south)]);
    assert IsRing(ring);
    assert PositionsList(ring, 1) == [Point(west, south)];
    assert PositionsList(ring, 2) == [Point(west, south), Point(east, south)];
    assert PositionsList(ring, 3) == [Point(west, south), Point(east, south), Point(east, north)];
    assert PositionsList(ring, 4) == [Point(west, south), Point(east, south), Point(east, north), Point(west, north)];
    var outer := List([ring]);
    assert PositionsList(outer, 1) == [] + Positions(ring);
  }

  /** The box of the polygon spans the two corners that the polygon was drawn from. */
  lemma PolygonBox(bbox: seq<real>)
    requires |bbox| == 4 || |bbox| == 6
    ensures var east, north := bbox[|bbox| - 2], bbox[|bbox| - 1];
            GeometryBox(BboxToPolygon(bbox).value) ==
            Some(Box(Min(bbox[0], east), Min(bbox[1], north), Max(bbox[0], east), Max(bbox[1], north)))
  {
    var w, s, e, n := bbox[0], bbox[1], bbox[|bbox| - 2], bbox[|bbox| - 1];
    var p := [Point(w, s), Point(e, s), Point(e, n), Point(w, n), Point(w, s)];
    PolygonPositions(w, s, e, n);
    RingBoxIsExact(BboxToPolygon(bbox).value);
    forall axis: Axis
      ensures Lowest(p, axis) == Min(At(p[0], axis), At(p[2], axis))
              && Highest(p, axis) == Max(At(p[0], axis), At(p[2], axis))
    {
      PairExtremes(p[3], p[4]);
      HeadFirst(p[2], [p[3], p[4]], axis);
      HeadFirst(p[1], [p[2]] + [p[3], p[4]], axis);
      HeadFirst(p[0], [p[1]] + ([p[2]] + [p[3], p[4]]), axis);
      assert p == [p[0]] + ([p[1]] + ([p[2]] + [p[3], p[4]]));
    }
  }

  /** An ordered box with 4 values comes back from its polygon. */
  lemma PolygonInvertsFlatBox(bbox: seq<real>)
    requires |bbox| == 4 && bbox[0] <= bbox[2] && bbox[1] <= bbox[3]
    ensures GeometryBox(BboxToPolygon(bbox).value) == Some(Box(bbox[0], bbox[1], bbox[2], bbox[3]))
  {
    PolygonBox(bbox);
  }

  /** For an ordered box with 6 values (west, south, bottom, east, north, top) the polygon is drawn
      to north and top instead of east and north: its 2D corners come back only if these coincide. */
  lemma PolygonInvertsSolidBoxIff(bbox: seq<real>)
    requires |bbox| == 6 && bbox[0] <= bbox[3] && bbox[1] <= bbox[4] && bbox[2] <= bbox[5]
    ensures GeometryBox(BboxToPolygon(bbox).value) == Some(Box(bbox[0], bbox[1], bbox[3], bbox[4]))
            <==> bbox[3] == bbox[4] == bbox[5]
  {
    PolygonBox(bbox);
  }
}
