/**
 Where an edge of the diagram touches its two nodes: on the line between their centres, at the rhombus inside each box,
 and on which side of the box the edge is attached. Coordinates are real numbers here.
 */
module EdgeAnchors {
  import opened Options

  datatype Point = Point(x: real, y: real)

  /** A size that may have been measured, styled or given with the data. */
  datatype Extent = Extent(measured: Option<real>, styled: Option<real>, given: Option<real>)

  datatype Node = Node(x: real, y: real, width: Extent, height: Extent)

  datatype Side = Left | Right | Top | Bottom

  function SizeOf(e: Extent): real {
    if e.measured.Some? then e.measured.value
    else if e.styled.Some? then e.styled.value
    else if e.given.Some? then e.given.value
    else 0.0
  }

  function Abs(x: real): real {
    if x < 0.0 then -x else x
  }

  /** Guards a division: zero counts as one. */
  function NonZero(x: real): (r: real)
    ensures r != 0.0
  {
    if x == 0.0 then 1.0 else x
  }

  function HalfWidth(n: Node): real {
    SizeOf(n.width) / 2.0
  }

  function HalfHeight(n: Node): real {
    SizeOf(n.height) / 2.0
  }

  function Center(n: Node): Point {
    Point(n.x + HalfWidth(n), n.y + HalfHeight(n))
  }

  /** The way from centre to centre, measured in half extents. */
  function AcrossX(n: Node, target: Node): real {
    (Center(target).x - Center(n).x) / NonZero(HalfWidth(n))
  }

  function AcrossY(n: Node, target: Node): real {
    (Center(target).y - Center(n).y) / NonZero(HalfHeight(n))
  }

  /** How far along the line from centre to centre the anchor lies. */
  function Reach(n: Node, target: Node): real {
    1.0 / NonZero(Abs(AcrossX(n, target)) + Abs(AcrossY(n, target)))
  }

  /** A coordinate of the anchor, of a box that begins at `start` and reaches `half` to its centre. */
  function Along(start: real, half: real, a: real, across: real): real {
    start + half * (a * across + 1.0)
  }

  function Intersection(n: Node, target: Node): Point {
    var a := Reach(n, target);
    Point(Along(n.x, HalfWidth(n), a, AcrossX(n, target)), Along(n.y, HalfHeight(n), a, AcrossY(n, target)))
  }

  function SideAt(n: Node, p: Point): Side {
    var c := Center(n);
    if p.x < c.x && Abs(p.y - c.y) < HalfHeight(n) then Left
    else if p.x > c.x && Abs(p.y - c.y) < HalfHeight(n) then Right
    else if p.y < c.y && Abs(p.x - c.x) < HalfWidth(n) then Top
    else Bottom
  }

  datatype EdgeParams = EdgeParams(source: Point, target: Point, sourceSide: Side, targetSide: Side)

  function GetEdgeParams(source: Node, target: Node): EdgeParams {
    var s, t := Intersection(source, target), Intersection(target, source);
    EdgeParams(s, t, SideAt(source, s), SideAt(target, t))
  }

  // ---- The anchor ----

  /** The size that counts: the measured one, else the one of the style, else the one of the data, else none. */
  predicate IsSize(e: Extent, s: real) {
    && (e.measured.Some? ==> s == e.measured.value)
    && (e.measured.None? && e.styled.Some? ==> s == e.styled.value)
    && (e.measured.None? && e.styled.None? ==> s == if e.given.Some? then e.given.value else 0.0)
  }

  /** The centre is in the middle of that size. */
  lemma CentreIsInMiddle(n: Node, w: real, h: real)
    requires IsSize(n.width, w) && IsSize(n.height, h)
    ensures 2.0 * Center(n).x == 2.0 * n.x + w && 2.0 * Center(n).y == 2.0 * n.y + h
  {
  }

  predicate IsBox(n: Node) {
    SizeOf(n.width) > 0.0 && SizeOf(n.height) > 0.0
  }

  lemma AlongTheWay(start: real, half: real, a: real, d: real)
    requires half > 0.0
    ensures Along(start, half, a, d / NonZero(half)) == start + half + a * d
  {
    var q := d / half;
    assert q * half == d;
    assert half * (a * q) == a * (q * half);
  }

  lemma AbsOfProduct(a: real, d: real)
    requires a > 0.0
    ensures Abs(a * d) == a * Abs(d)
  {
    if d < 0.0 {
      assert a * -d == -(a * d);
      PositiveProduct(a, -d);
    } else if d > 0.0 {
      PositiveProduct(a, d);
    }
  }

  lemma PositiveProduct(a: real, b: real)
    requires a > 0.0 && b > 0.0
    ensures a * b > 0.0
  {
  }

  lemma AbsOfQuotient(d: real, w: real)
    requires w > 0.0
    ensures Abs(d / w) == Abs(d) / w
    ensures d != 0.0 ==> Abs(d / w) > 0.0
  {
    var q := d / w;
    assert q * w == d;
    if d < 0.0 {
      assert q < 0.0;
      assert (-q) * w == -d;
    } else if d > 0.0 {
      assert q > 0.0;
    } else {
      assert q == 0.0;
    }
  }

  /** The difference of the centres, measured in half extents. */
  function Distance(n: Node, target: Node): real
    requires IsBox(n)
  {
    Abs(Center(target).x - Center(n).x) / HalfWidth(n) + Abs(Center(target).y - Center(n).y) / HalfHeight(n)
  }

  lemma ReachIsInverse(n: Node, target: Node)
    requires IsBox(n) && Center(n) != Center(target)
    ensures Reach(n, target) > 0.0 && Reach(n, target) * Distance(n, target) == 1.0
  {
    AbsOfQuotient(Center(target).x - Center(n).x, HalfWidth(n));
    AbsOfQuotient(Center(target).y - Center(n).y, HalfHeight(n));
    assert Distance(n, target) == Abs(AcrossX(n, target)) + Abs(AcrossY(n, target)) > 0.0;
    InverseOf(Distance(n, target));
  }

  lemma InverseOf(s: real)
    requires s > 0.0
    ensures 1.0 / s > 0.0 && (1.0 / s) * s == 1.0
  {
    var q := 1.0 / s;
    assert q * s == 1.0;
  }

  /** The point is reached from the centre by this multiple of the way to the other centre. */
  predicate IsOnWay(n: Node, target: Node, p: Point, k: real) {
    var c, d := Center(n), Center(target);
    p == Point(c.x + k * (d.x - c.x), c.y + k * (d.y - c.y))
  }

  /** The anchor lies on the ray from the centre to the other centre. */
  lemma AnchorIsOnRay(n: Node, target: Node)
    requires IsBox(n) && Center(n) != Center(target)
    ensures Reach(n, target) > 0.0 && IsOnWay(n, target, Intersection(n, target), Reach(n, target))
  {
    ReachIsInverse(n, target);
    AnchorAt(n, target, Reach(n, target));
  }

  lemma AnchorAt(n: Node, target: Node, k: real)
    requires IsBox(n)
    ensures
      var x, y := Along(n.x, HalfWidth(n), k, AcrossX(n, target)), Along(n.y, HalfHeight(n), k, AcrossY(n, target));
      IsOnWay(n, target, Point(x, y), k)
  {
    var c, d := Center(n), Center(target);
    AlongTheWay(n.x, HalfWidth(n), k, d.x - c.x);
    AlongTheWay(n.y, HalfHeight(n), k, d.y - c.y);
  }

  /** It lies on the rhombus whose corners are the middles of the four sides. */
  predicate IsOnRhombus(n: Node, p: Point)
    requires IsBox(n)
  {
    Abs(p.x - Center(n).x) / HalfWidth(n) + Abs(p.y - Center(n).y) / HalfHeight(n) == 1.0
  }

  lemma AnchorIsOnRhombus(n: Node, target: Node)
    requires IsBox(n) && Center(n) != Center(target)
    ensures IsOnRhombus(n, Intersection(n, target))
  {
    var c, d, k := Center(n), Center(target), Reach(n, target);
    AnchorIsOnRay(n, target);
    ReachIsInverse(n, target);
    RayMeetsRhombus(n, Intersection(n, target), d.x - c.x, d.y - c.y, k);
  }

  lemma RayMeetsRhombus(n: Node, p: Point, dx: real, dy: real, k: real)
    requires IsBox(n) && k > 0.0 && k * (Abs(dx) / HalfWidth(n) + Abs(dy) / HalfHeight(n)) == 1.0
    requires p == Point(Center(n).x + k * dx, Center(n).y + k * dy)
    ensures IsOnRhombus(n, p)
  {
    assert p.x - Center(n).x == k * dx && p.y - Center(n).y == k * dy;
    ScaledToOne(dx, dy, HalfWidth(n), HalfHeight(n), k);
  }

  lemma ScaledToOne(dx: real, dy: real, w: real, h: real, k: real)
    requires w > 0.0 && h > 0.0 && k > 0.0 && k * (Abs(dx) / w + Abs(dy) / h) == 1.0
    ensures Abs(k * dx) / w + Abs(k * dy) / h == 1.0
  {
    AbsOfProduct(k, dx);
    AbsOfProduct(k, dy);
    QuotientOfProduct(k, Abs(dx), w);
    QuotientOfProduct(k, Abs(dy), h);
    Distribute(k, Abs(dx) / w, Abs(dy) / h);
  }

  lemma Distribute(k: real, a: real, b: real)
    ensures k * (a + b) == k * a + k * b
  {
  }

  lemma QuotientOfProduct(k: real, d: real, w: real)
    requires w > 0.0
    ensures (k * d) / w == k * (d / w)
  {
    var q := d / w;
    assert q * w == d;
    assert k * d == (k * q) * w;
  }

  /** Points of the rhombus lie in the box, and off its corners strictly between the sides. */
  lemma RhombusIsInBox(n: Node, p: Point)
    requires IsBox(n) && IsOnRhombus(n, p)
    ensures n.x <= p.x <= n.x + SizeOf(n.width) && n.y <= p.y <= n.y + SizeOf(n.height)
    ensures p.x != Center(n).x ==> Abs(p.y - Center(n).y) < HalfHeight(n)
    ensures p.y != Center(n).y ==> Abs(p.x - Center(n).x) < HalfWidth(n)
  {
    var c := Center(n);
    ShareOfOne(p.x - c.x, HalfWidth(n), p.y - c.y, HalfHeight(n));
    ShareOfOne(p.y - c.y, HalfHeight(n), p.x - c.x, HalfWidth(n));
  }

  lemma ShareOfOne(o: real, w: real, o': real, w': real)
    requires w > 0.0 && w' > 0.0 && Abs(o) / w + Abs(o') / w' == 1.0
    ensures Abs(o) <= w && (o' != 0.0 ==> Abs(o) < w)
  {
    AbsOfQuotient(o', w');
    PartOfOne(Abs(o), w, Abs(o') / w');
  }

  lemma PartOfOne(o: real, w: real, other: real)
    requires w > 0.0 && other >= 0.0 && o / w + other == 1.0
    ensures o <= w && (other > 0.0 ==> o < w)
  {
    var q := o / w;
    assert q * w == o;
    assert o == w - other * w;
    if other > 0.0 {
      PositiveProduct(other, w);
    }
  }

  // ---- The side ----

  /**
   The edge is attached left or right exactly when the other centre is to the left or right, however far above or below
   it is; top and bottom are only for centres right above each other.
   */
  lemma SideIsTowardsTarget(n: Node, target: Node)
    requires IsBox(n) && Center(n) != Center(target)
    ensures
      var c, d, side := Center(n), Center(target), SideAt(n, Intersection(n, target));
      && (side == Left <==> d.x < c.x)
      && (side == Right <==> d.x > c.x)
      && (side == Top <==> d.x == c.x && d.y < c.y)
      && (side == Bottom <==> d.x == c.x && d.y > c.y)
  {
    var c, d, k, p := Center(n), Center(target), Reach(n, target), Intersection(n, target);
    AnchorIsOnRay(n, target);
    AnchorIsOnRhombus(n, target);
    RhombusIsInBox(n, p);
    SameSigns(k, d.x - c.x, p.x - c.x);
    SameSigns(k, d.y - c.y, p.y - c.y);
    AlignedHalf(n);
  }

  lemma AlignedHalf(n: Node)
    requires IsBox(n)
    ensures HalfWidth(n) > 0.0 && HalfHeight(n) > 0.0
  {
  }

  lemma SameSigns(k: real, d: real, o: real)
    requires k > 0.0 && o == k * d
    ensures (o < 0.0 <==> d < 0.0) && (o > 0.0 <==> d > 0.0)
  {
    SignOfProduct(k, d);
  }

  lemma SignOfProduct(k: real, d: real)
    requires k > 0.0
    ensures (k * d < 0.0 <==> d < 0.0) && (k * d > 0.0 <==> d > 0.0)
  {
    if d < 0.0 {
      PositiveProduct(k, -d);
      assert k * -d == -(k * d);
    } else if d > 0.0 {
      PositiveProduct(k, d);
    }
  }

  function Opposite(s: Side): Side {
    match s
    case Left => Right
    case Right => Left
    case Top => Bottom
    case Bottom => Top
  }

  /** The two ends of an edge are attached to sides that face each other. */
  lemma SidesFaceEachOther(source: Node, target: Node)
    requires IsBox(source) && IsBox(target) && Center(source) != Center(target)
    ensures
      var e := GetEdgeParams(source, target);
      e.targetSide == Opposite(e.sourceSide)
  {
    SideIsTowardsTarget(source, target);
    SideIsTowardsTarget(target, source);
  }

  /** When the centres coincide, both ends are in the centre and count as bottom. */
  lemma CoincidentCentres(source: Node, target: Node)
    requires Center(source) == Center(target)
    ensures GetEdgeParams(source, target) == EdgeParams(Center(source), Center(source), Bottom, Bottom)
  {
    ZeroScaled(HalfWidth(source));
    ZeroScaled(HalfHeight(source));
    ZeroScaled(HalfWidth(target));
    ZeroScaled(HalfHeight(target));
  }

  lemma ZeroScaled(w: real)
    ensures 0.0 / NonZero(w) == 0.0 && w * (1.0 * 0.0 + 1.0) == w
  {
  }
}
