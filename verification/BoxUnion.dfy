/** The spatial extent of a collection: the union of flat (4 values) and solid (6 values) boxes. */
module BoxUnion {
  import opened Geometry
  import opened Sorting
  import opened Wrappers

  predicate IsBbox(b: seq<real>) { |b| == 4 || |b| == 6 }

  type Bbox = b: seq<real> | IsBbox(b) witness [0.0, 0.0, 0.0, 0.0]

  // ---------- The union ----------

  /** A solid box without its bottom and top. */
  function Plane(b: Bbox): (r: Bbox)
    ensures |r| == 4
  {
    if |b| == 6 then [b[0], b[1], b[3], b[4]] else b
  }

  function Planes(boxes: seq<Bbox>): (r: seq<Bbox>)
    ensures |r| == |boxes| && forall k :: 0 <= k < |boxes| ==> r[k] == Plane(boxes[k])
  {
    seq(|boxes|, k requires 0 <= k < |boxes| => Plane(boxes[k]))
  }

  predicate AllOf(boxes: seq<Bbox>, d: nat) {
    forall k :: 0 <= k < |boxes| ==> |boxes[k]| == d
  }

  predicate Uniform(boxes: seq<Bbox>) {
    boxes == [] || AllOf(boxes, |boxes[0]|)
  }

  function Column(boxes: seq<Bbox>, d: nat, i: nat): (r: seq<real>)
    requires AllOf(boxes, d) && i < d
    ensures |r| == |boxes| && forall k :: 0 <= k < |boxes| ==> r[k] == boxes[k][i]
  {
    seq(|boxes|, k requires 0 <= k < |boxes| => boxes[k][i])
  }

  /** The outer one of some bounds: the least in the first half of a box, the greatest in the second. */
  function Outermost(column: seq<real>, d: nat, i: nat): real
    requires column != []
  {
    if i < d / 2 then Least(column) else Greatest(column)
  }

  function Elementwise(boxes: seq<Bbox>, d: nat): (r: seq<real>)
    requires boxes != [] && AllOf(boxes, d)
    ensures |r| == d
  {
    seq(d, i requires 0 <= i < d => Outermost(Column(boxes, d, i), d, i))
  }

  /** The boxes in the dimension of their union: unchanged when all agree, flat otherwise. */
  function Common(boxes: seq<Bbox>): (r: seq<Bbox>)
    ensures |r| == |boxes| && Uniform(r)
  {
    if Uniform(boxes) then boxes else Planes(boxes)
  }

  function UnionBbox(boxes: seq<Bbox>): Option<Bbox> {
    if boxes == [] then None else Some(Elementwise(Common(boxes), |Common(boxes)[0]|))
  }

  // ---------- The least cover ----------

  predicate Within(i: nat, d: nat, inner: real, outer: real) {
    if i < d / 2 then outer <= inner else inner <= outer
  }

  /** `outer` spans `inner` in every dimension. */
  predicate Covers(outer: Bbox, inner: Bbox) {
    |outer| == |inner| && forall i :: 0 <= i < |outer| ==> Within(i, |outer|, inner[i], outer[i])
  }

  lemma {:induction false} OutermostBounds(s: seq<real>)
    requires s != []
    ensures forall k :: 0 <= k < |s| ==> Least(s) <= s[k] <= Greatest(s)
    ensures Least(s) in s && Greatest(s) in s
  {
    if |s| > 1 {
      OutermostBounds(s[1..]);
      assert s == [s[0]] + s[1..];
    }
  }

  lemma ElementwiseAt(boxes: seq<Bbox>, d: nat, i: nat)
    requires boxes != [] && AllOf(boxes, d) && i < d
    ensures forall k :: 0 <= k < |boxes| ==> Within(i, d, boxes[k][i], Elementwise(boxes, d)[i])
    ensures exists k :: 0 <= k < |boxes| && boxes[k][i] == Elementwise(boxes, d)[i]
  {
    var column := Column(boxes, d, i);
    OutermostBounds(column);
    assert Elementwise(boxes, d)[i] == Outermost(column, d, i);
    assert Elementwise(boxes, d)[i] in column;
    var k :| 0 <= k < |column| && column[k] == Elementwise(boxes, d)[i];
    assert boxes[k][i] == column[k];
    forall k | 0 <= k < |boxes| ensures Within(i, d, boxes[k][i], Elementwise(boxes, d)[i]) {
      assert column[k] == boxes[k][i];
    }
  }

  /** The union covers every box, and every box that covers them all covers the union. */
  lemma UnionIsLeastCover(boxes: seq<Bbox>, other: Bbox)
    requires boxes != []
    ensures var union, parts := UnionBbox(boxes).value, Common(boxes);
            && (forall k :: 0 <= k < |parts| ==> Covers(union, parts[k]))
            && ((forall k :: 0 <= k < |parts| ==> Covers(other, parts[k])) ==> Covers(other, union))
  {
    var union, parts := UnionBbox(boxes).value, Common(boxes);
    var d := |parts[0]|;
    forall i | 0 <= i < d
      ensures forall k :: 0 <= k < |parts| ==> Within(i, d, parts[k][i], union[i])
      ensures exists k :: 0 <= k < |parts| && parts[k][i] == union[i]
    {
      ElementwiseAt(parts, d, i);
    }
    if forall k :: 0 <= k < |parts| ==> Covers(other, parts[k]) {
      forall i | 0 <= i < d ensures Within(i, d, union[i], other[i]) {
        var k :| 0 <= k < |parts| && parts[k][i] == union[i];
        assert Covers(other, parts[k]);
      }
    }
  }

  lemma CoversBothWays(a: Bbox, b: Bbox)
    requires Covers(a, b) && Covers(b, a)
    ensures a == b
  {
    forall i | 0 <= i < |a| ensures a[i] == b[i] {
      assert Within(i, |a|, b[i], a[i]) && Within(i, |a|, a[i], b[i]);
    }
  }

  // ---------- Order does not matter ----------

  lemma PlanesIsMap(boxes: seq<Bbox>)
    ensures Planes(boxes) == Map(boxes, Plane)
  {
  }

  lemma CommonReorders(xs: seq<Bbox>, ys: seq<Bbox>)
    requires multiset(xs) == multiset(ys)
    ensures Uniform(xs) == Uniform(ys) && multiset(Common(xs)) == multiset(Common(ys))
  {
    assert forall k :: 0 <= k < |xs| ==> xs[k] in multiset(ys);
    assert forall k :: 0 <= k < |ys| ==> ys[k] in multiset(xs);
    assert |xs| == |multiset(xs)| == |multiset(ys)| == |ys|;
    if xs != [] {
      assert ys[0] in xs && xs[0] in ys;
    }
    PlanesIsMap(xs);
    PlanesIsMap(ys);
    MapBag(xs, ys, Plane);
  }

  /** Reordering the boxes leaves the union unchanged. */
  lemma UnionIgnoresOrder(xs: seq<Bbox>, ys: seq<Bbox>)
    requires multiset(xs) == multiset(ys)
    ensures UnionBbox(xs) == UnionBbox(ys)
  {
    assert |xs| == |multiset(xs)| == |multiset(ys)| == |ys|;
    if xs != [] {
      CommonReorders(xs, ys);
      var a, b := UnionBbox(xs).value, UnionBbox(ys).value;
      UnionIsLeastCover(xs, b);
      UnionIsLeastCover(ys, a);
      forall k | 0 <= k < |xs| ensures Covers(b, Common(xs)[k]) && Covers(a, Common(ys)[k]) {
        assert Common(xs)[k] in multiset(Common(ys)) && Common(ys)[k] in multiset(Common(xs));
      }
      CoversBothWays(a, b);
    }
  }

  // ---------- Union of partial unions ----------

  lemma {:induction false} OutermostAppend(a: seq<real>, b: seq<real>)
    requires a != [] && b != []
    ensures Least(a + b) == Min(Least(a), Least(b)) && Greatest(a + b) == Max(Greatest(a), Greatest(b))
  {
    assert (a + b)[1..] == a[1..] + b;
    if |a| == 1 {
      assert (a + b)[1..] == b;
    } else {
      OutermostAppend(a[1..], b);
    }
  }

  lemma ElementwiseAppend(xs: seq<Bbox>, ys: seq<Bbox>, d: nat)
    requires xs != [] && ys != [] && (d == 4 || d == 6) && AllOf(xs, d) && AllOf(ys, d)
    ensures Elementwise(xs + ys, d) == Elementwise([Elementwise(xs, d), Elementwise(ys, d)], d)
  {
    var u, v := Elementwise(xs, d), Elementwise(ys, d);
    forall i | 0 <= i < d ensures Elementwise(xs + ys, d)[i] == Elementwise([u, v], d)[i] {
      assert Column(xs + ys, d, i) == Column(xs, d, i) + Column(ys, d, i);
      OutermostAppend(Column(xs, d, i), Column(ys, d, i));
      assert Column([u, v], d, i) == [u[i]] + [v[i]];
      OutermostAppend([u[i]], [v[i]]);
    }
  }

  /** Flattening commutes with the union. */
  lemma PlaneOfUnion(boxes: seq<Bbox>)
    requires boxes != []
    ensures Plane(UnionBbox(boxes).value) == Elementwise(Planes(boxes), 4)
  {
    if AllOf(boxes, 6) {
      var u, p := Elementwise(boxes, 6), Planes(boxes);
      assert Column(p, 4, 0) == Column(boxes, 6, 0);
      assert Column(p, 4, 1) == Column(boxes, 6, 1);
      assert Column(p, 4, 2) == Column(boxes, 6, 3);
      assert Column(p, 4, 3) == Column(boxes, 6, 4);
      assert Common(boxes) == boxes;
    } else if AllOf(boxes, 4) {
      assert Planes(boxes) == boxes;
    } else {
      assert !Uniform(boxes);
    }
  }

  /** The union of all boxes is the union of the unions of any two non-empty parts, even when flat
      and solid boxes are mixed in any way. */
  lemma UnionOfUnions(xs: seq<Bbox>, ys: seq<Bbox>)
    requires xs != [] && ys != []
    ensures UnionBbox(xs + ys) == UnionBbox([UnionBbox(xs).value, UnionBbox(ys).value])
  {
    SplitUniform(xs, ys);
    if Uniform(xs + ys) {
      ElementwiseAppend(xs, ys, |xs[0]|);
    } else {
      MixedUnions(xs, ys);
    }
  }

  lemma MixedUnions(xs: seq<Bbox>, ys: seq<Bbox>)
    requires xs != [] && ys != [] && !Uniform(xs + ys)
    ensures UnionBbox(xs + ys) == UnionBbox([UnionBbox(xs).value, UnionBbox(ys).value])
  {
    MixedIsPlane(xs, ys);
    PlaneOfUnion(xs);
    PlaneOfUnion(ys);
    NotBothSolid(xs, ys);
    UnionOfTwo(UnionBbox(xs).value, UnionBbox(ys).value);
  }

  lemma MixedIsPlane(xs: seq<Bbox>, ys: seq<Bbox>)
    requires xs != [] && ys != [] && !Uniform(xs + ys)
    ensures UnionBbox(xs + ys).value == Elementwise([Elementwise(Planes(xs), 4), Elementwise(Planes(ys), 4)], 4)
  {
    assert Planes(xs + ys) == Planes(xs) + Planes(ys);
    ElementwiseAppend(Planes(xs), Planes(ys), 4);
  }

  lemma NotBothSolid(xs: seq<Bbox>, ys: seq<Bbox>)
    requires xs != [] && ys != [] && !Uniform(xs + ys)
    ensures |UnionBbox(xs).value| == 4 || |UnionBbox(ys).value| == 4
  {
    SplitUniform(xs, ys);
  }

  lemma UnionOfTwo(u: Bbox, v: Bbox)
    requires |u| == 4 || |v| == 4
    ensures UnionBbox([u, v]).value == Elementwise([Plane(u), Plane(v)], 4)
  {
    assert Planes([u, v]) == [Plane(u), Plane(v)];
  }

  lemma SplitUniform(xs: seq<Bbox>, ys: seq<Bbox>)
    requires xs != [] && ys != []
    ensures Uniform(xs + ys) <==> Uniform(xs) && Uniform(ys) && |xs[0]| == |ys[0]|
    ensures |UnionBbox(xs).value| == 6 <==> AllOf(xs, 6)
    ensures |UnionBbox(ys).value| == 6 <==> AllOf(ys, 6)
  {
    var all := xs + ys;
    assert all[0] == xs[0] && all[|xs|] == ys[0];
    assert forall k :: 0 <= k < |xs| ==> all[k] == xs[k];
    assert forall k :: 0 <= k < |ys| ==> all[|xs| + k] == ys[k];
  }

  // ---------- The extent of a collection ----------

  /** The box of an item: its own box when that is a list of 4 or 6 numbers, else that of its geometry. */
  function ItemBbox(bbox: Value, coordinates: Value): Option<Bbox> {
    if bbox.List? && IsNumbers(bbox.items) && (|bbox.items| == 4 || |bbox.items| == 6) then Some(Numbers(bbox.items))
    else
      match GeometryBox(coordinates)
      case None => None
      case Some(box) => Some([box.west, box.south, box.east, box.north])
  }

  predicate IsNumbers(items: seq<Value>) {
    forall k :: 0 <= k < |items| ==> items[k].Num?
  }

  function Numbers(items: seq<Value>): (r: seq<real>)
    requires IsNumbers(items)
    ensures |r| == |items|
  {
    seq(|items|, k requires 0 <= k < |items| => items[k].x)
  }

  const WORLD_BBOX: Bbox := [-180.0, -90.0, 180.0, 90.0]

  /** The box of a collection whose items have the given `bbox` values and coordinates, when some
      item has a box or a time. */
  function SpatialExtent(items: seq<(Value, Value)>): Bbox {
    match UnionBbox(KnownBoxes(items))
    case Some(union) => union
    case None => WORLD_BBOX
  }

  function KnownBoxes(items: seq<(Value, Value)>): seq<Bbox> {
    if items == [] then []
    else
      match ItemBbox(items[0].0, items[0].1)
      case Some(box) => [box] + KnownBoxes(items[1..])
      case None => KnownBoxes(items[1..])
  }

  lemma {:induction false} KnownBoxesHold(items: seq<(Value, Value)>, k: nat)
    requires k < |items| && ItemBbox(items[k].0, items[k].1).Some?
    ensures ItemBbox(items[k].0, items[k].1).value in KnownBoxes(items)
  {
    if k > 0 {
      assert items[k] == items[1..][k - 1];
      KnownBoxesHold(items[1..], k - 1);
    }
  }

  /** The extent of a collection covers every item with a known box, vertically too when all are solid. */
  lemma ExtentCoversItems(items: seq<(Value, Value)>, k: nat)
    requires k < |items| && ItemBbox(items[k].0, items[k].1).Some?
    ensures var extent, box := SpatialExtent(items), ItemBbox(items[k].0, items[k].1).value;
            Covers(Plane(extent), Plane(box)) && (AllOf(KnownBoxes(items), 6) ==> Covers(extent, box))
  {
    var boxes, box := KnownBoxes(items), ItemBbox(items[k].0, items[k].1).value;
    KnownBoxesHold(items, k);
    var j :| 0 <= j < |boxes| && boxes[j] == box;
    UnionIsLeastCover(boxes, box);
    assert Covers(SpatialExtent(items), Common(boxes)[j]);
    PlaneOfUnion(boxes);
    PlaneCovers(SpatialExtent(items), Common(boxes)[j]);
  }

  lemma PlaneCovers(outer: Bbox, inner: Bbox)
    requires Covers(outer, inner)
    ensures Covers(Plane(outer), Plane(inner))
  {
    if |outer| == 6 {
      assert Within(0, 6, inner[0], outer[0]) && Within(1, 6, inner[1], outer[1]);
      assert Within(3, 6, inner[3], outer[3]) && Within(4, 6, inner[4], outer[4]);
    }
  }
}
