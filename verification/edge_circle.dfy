/** The two boundary arcs of a connection. Each is pinned to one input
    trajectory (its guide) at a distance `offset` along it: the first arc
    starts there, the last arc ends there. The arc's radius comes from the
    general circle solver, whose outcome is an input here. */
module EdgeCircles {
  import opened Geometry

  datatype EdgeKind = First | Last

  /** The turn direction of an arc. */
  datatype Side = Left | Right

  /** The outcome of a solve (`Result`); `NotCalculated` is the source's `None`. */
  datatype Status = NotCalculated | Calculated | WrongShape | BigRadius | SmallRadius

  /** A trajectory by start point and direction; `Position(t)` lies `t` along it. */
  datatype Guide = Guide(start: Vec, dir: Vec)

  function Position(g: Guide, t: real): Vec {
    Add(g.start, Scale(g.dir, t))
  }

  datatype EdgeCircle = EdgeCircle(
    kind: EdgeKind,
    guide: Guide,
    offset: real,
    side: Side,
    startRadiusDir: Vec,
    endRadiusDir: Vec,
    centre: Vec,
    radius: real)

  /** A fresh arc on its guide, pinned at the guide's start. */
  function NewEdge(kind: EdgeKind, guide: Guide): (e: EdgeCircle)
    ensures e.kind == kind && e.guide == guide && e.offset == 0.0
  {
    EdgeCircle(kind, guide, 0.0, Left, Zero, Zero, Zero, 0.0)
  }

  /** The `Offset` setter: negative values are stored as 0. */
  function SetOffset(e: EdgeCircle, value: real): (r: EdgeCircle)
    ensures r.offset >= 0.0
    ensures value >= 0.0 ==> r.offset == value
    ensures value < 0.0 ==> r.offset == 0.0
    ensures r == e.(offset := r.offset)
  {
    e.(offset := if value >= 0.0 then value else 0.0)
  }

  function Clamp(t: real, lo: real, hi: real): real
    requires lo <= hi
  {
    if t < lo then lo else if t > hi then hi else t
  }

  const MaxOffset: real := 500.0

  /** The `CenterPos` setter. The new centre is projected onto the guide along
      the arc's radius direction; `t`, the parameter at which that normal meets
      the guide, is an input. The offset becomes `t` clamped to [0, 500] and
      nothing else changes. */
  function SetCentre(e: EdgeCircle, t: real): (r: EdgeCircle)
    ensures 0.0 <= r.offset <= MaxOffset
    ensures 0.0 <= t <= MaxOffset ==> r.offset == t
    ensures t < 0.0 ==> r.offset == 0.0
    ensures t > MaxOffset ==> r.offset == MaxOffset
    ensures r == e.(offset := r.offset)
  {
    SetOffset(e, Clamp(t, 0.0, MaxOffset))
  }

  /** Moving the centre to a point that projects where the arc already sits
      keeps the arc as it is, and moving it twice to the same place is the same
      as moving it once. */
  lemma SetCentreSettles(e: EdgeCircle, t: real)
    ensures 0.0 <= e.offset <= MaxOffset ==> SetCentre(e, e.offset) == e
    ensures SetCentre(SetCentre(e, t), t) == SetCentre(e, t)
  {
  }

  /** The `StartRadiusDir` setter. A write can never move the pinned end:
      the first arc's start is pinned and ignores it, while the last arc's
      start is free and takes `v`. Nothing else changes. */
  function SetStartRadiusDir(e: EdgeCircle, v: Vec): (r: EdgeCircle)
    ensures PinnedRadiusDir(r) == PinnedRadiusDir(e) && PinnedPos(r) == PinnedPos(e) && PinnedDir(r) == PinnedDir(e)
    ensures e.kind == Last ==> r.startRadiusDir == v
    ensures r == e.(startRadiusDir := r.startRadiusDir)
  {
    if e.kind == Last then e.(startRadiusDir := v) else e
  }

  /** The `EndRadiusDir` setter: the mirror image, where the last arc's end
      is pinned and the first arc's end is free. */
  function SetEndRadiusDir(e: EdgeCircle, v: Vec): (r: EdgeCircle)
    ensures PinnedRadiusDir(r) == PinnedRadiusDir(e) && PinnedPos(r) == PinnedPos(e) && PinnedDir(r) == PinnedDir(e)
    ensures e.kind == First ==> r.endRadiusDir == v
    ensures r == e.(endRadiusDir := r.endRadiusDir)
  {
    if e.kind == First then e.(endRadiusDir := v) else e
  }

  /** The pinned end (`StartPos` of the first arc, `EndPos` of the last) and
      its travel direction (`StartDir`, `EndDir`). */
  function PinnedPos(e: EdgeCircle): Vec {
    Position(e.guide, e.offset)
  }

  function PinnedDir(e: EdgeCircle): Vec {
    if e.kind == First then e.guide.dir else Neg(e.guide.dir)
  }

  /** The radius direction at the pinned end. */
  function PinnedRadiusDir(e: EdgeCircle): Vec {
    if e.kind == First then e.startRadiusDir else e.endRadiusDir
  }

  /** What the general circle solver reports: success, its result and the
      radius it found, and the radius direction that it and the connect step
      (`Circle.SetConnect`) leave at the arc's free end. */
  datatype BaseOutcome = BaseOutcome(ok: bool, result: Status, radius: real, freeRadiusDir: Vec)

  datatype Solved = Solved(ok: bool, result: Status, circle: EdgeCircle)

  /** `EdgeCircle.Calculate`. A failure of the general solver is passed on
      unchanged. On success the free end takes the radius direction written
      through its setter, the radius direction at the pinned end is a quarter
      turn of the guide direction (the sense given by the side), the centre
      lies one radius across from the pinned end, and the result is forced to
      `Calculated`. */
  function Calculate(e: EdgeCircle, base: BaseOutcome): (s: Solved)
    ensures s.ok == base.ok
    ensures !base.ok ==> s.result == base.result && s.circle == e
    ensures base.ok ==> s.result == Calculated
    ensures base.ok ==> s.circle.radius == base.radius
    ensures s.circle.kind == e.kind && s.circle.guide == e.guide
    ensures s.circle.offset == e.offset && s.circle.side == e.side
    ensures base.ok && e.kind == First ==> s.circle.endRadiusDir == base.freeRadiusDir
    ensures base.ok && e.kind == Last ==> s.circle.startRadiusDir == base.freeRadiusDir
  {
    if !base.ok then Solved(false, base.result, e)
    else
      var e0 := SetStartRadiusDir(SetEndRadiusDir(e, base.freeRadiusDir), base.freeRadiusDir);
      var dir := Turn90(e.guide.dir, e.side == Right);
      var e1 := if e.kind == First then e0.(startRadiusDir := Neg(dir)) else e0.(endRadiusDir := dir);
      var across := if e.kind == First then dir else Neg(dir);
      var centre := Add(Add(e.guide.start, Scale(across, base.radius)), Scale(e.guide.dir, e.offset));
      Solved(true, Calculated, e1.(centre := centre, radius := base.radius))
  }

  /** After a successful solve the pinned end lies on the arc: one radius from
      the centre along the radius direction, which is perpendicular to the guide
      and as long as its direction. */
  lemma PinnedEndOnArc(e: EdgeCircle, base: BaseOutcome)
    requires base.ok
    ensures var c := Calculate(e, base).circle;
            && Add(c.centre, Scale(PinnedRadiusDir(c), c.radius)) == PinnedPos(c)
            && Dot(PinnedRadiusDir(c), e.guide.dir) == 0.0
            && Norm2(PinnedRadiusDir(c)) == Norm2(e.guide.dir)
  {
    var dir := Turn90(e.guide.dir, e.side == Right);
    QuarterTurn(e.guide.dir, e.side == Right);
    NegDot(dir, e.guide.dir);
    var c := Calculate(e, base).circle;
    if e.kind == First {
      assert c.centre == Add(Add(e.guide.start, Scale(dir, base.radius)), Scale(e.guide.dir, e.offset));
      assert PinnedRadiusDir(c) == Neg(dir);
      OutAndBack(e.guide.start, dir, e.guide.dir, base.radius, e.offset);
    } else {
      assert c.centre == Add(Add(e.guide.start, Scale(Neg(dir), base.radius)), Scale(e.guide.dir, e.offset));
      assert PinnedRadiusDir(c) == dir == Neg(Neg(dir));
      OutAndBack(e.guide.start, Neg(dir), e.guide.dir, base.radius, e.offset);
    }
  }

  /** Writing both radius directions, in either order, leaves the pinned end
      where it was and sets the free end's radius direction to the value
      written for it. */
  lemma RadiusDirWritesKeepPinnedEnd(e: EdgeCircle, v: Vec, w: Vec)
    ensures var r := SetEndRadiusDir(SetStartRadiusDir(e, v), w);
            && r == SetStartRadiusDir(SetEndRadiusDir(e, w), v)
            && PinnedRadiusDir(r) == PinnedRadiusDir(e) && PinnedPos(r) == PinnedPos(e)
            && (if e.kind == First then r.endRadiusDir == w else r.startRadiusDir == v)
            && r.centre == e.centre && r.radius == e.radius && r.offset == e.offset
  {
  }

  /** Solving again with the same outcome changes nothing. */
  lemma CalculateIdempotent(e: EdgeCircle, base: BaseOutcome)
    ensures Calculate(Calculate(e, base).circle, base) == Calculate(e, base)
  {
  }

  /** The boolean core of `GetSides`: the adjusted `lastDir`. When the two
      same-side tests disagree and so do the two cross tests, exactly one of
      the two inner branches applies, and both flip `lastDir`. */
  function ResolveLastDir(firstDir: bool, lastDir: bool, firstDot: bool, lastDot: bool): (r: bool)
    ensures firstDot != lastDot ==> r == firstDir
    ensures firstDot == lastDot ==> r == lastDir
  {
    if firstDot != lastDot && firstDir != lastDir then
      if !firstDot then !lastDir
      else if !lastDot then !lastDir
      else lastDir
    else lastDir
  }

  function FirstSide(firstDir: bool): Side {
    if firstDir then Right else Left
  }

  function LastSide(lastDir: bool): Side {
    if lastDir then Left else Right
  }

  /** `GetSides`: the turn direction of each edge arc, from the signs of the
      cross and dot products of its pinned direction with the line joining the
      two pinned ends. Only the sides change. */
  function GetSides(first: EdgeCircle, last: EdgeCircle): (r: (EdgeCircle, EdgeCircle))
    ensures r.0 == first.(side := r.0.side) && r.1 == last.(side := r.1.side)
  {
    var connect := Sub(PinnedPos(last), PinnedPos(first));
    var firstDir := CrossXZ(PinnedDir(first), connect) >= 0.0;
    var lastDir := CrossXZ(Neg(PinnedDir(last)), Neg(connect)) >= 0.0;
    var firstDot := Dot(PinnedDir(first), connect) >= 0.0;
    var lastDot := Dot(Neg(PinnedDir(last)), Neg(connect)) >= 0.0;
    var adjusted := ResolveLastDir(firstDir, lastDir, firstDot, lastDot);
    (first.(side := FirstSide(firstDir)), last.(side := LastSide(adjusted)))
  }

  /** Whenever the same-side tests disagree, the two arcs turn opposite ways
      (an S-curve); when they agree, each side follows its own cross test. */
  lemma SidesOppositeWhenDotsDiffer(first: EdgeCircle, last: EdgeCircle)
    ensures var connect := Sub(PinnedPos(last), PinnedPos(first));
            var firstDot := Dot(PinnedDir(first), connect) >= 0.0;
            var lastDot := Dot(Neg(PinnedDir(last)), Neg(connect)) >= 0.0;
            var r := GetSides(first, last);
            && (firstDot != lastDot ==> r.0.side != r.1.side)
            && (firstDot == lastDot ==>
                  r.1.side == LastSide(CrossXZ(Neg(PinnedDir(last)), Neg(connect)) >= 0.0))
            && r.0.side == FirstSide(CrossXZ(PinnedDir(first), connect) >= 0.0)
  {
  }

  /** After `GetSides` and a successful solve with a non-negative radius, the
      first arc's centre lies on the side of its guide that faces the last
      arc's pinned end, and, unless the same-side tests disagree (the S-curve
      case), the last arc's centre faces the first arc's pinned end. */
  lemma CentresFaceEachOther(first: EdgeCircle, last: EdgeCircle, fb: BaseOutcome, lb: BaseOutcome)
    requires first.kind == First && last.kind == Last
    requires fb.ok && fb.radius >= 0.0 && lb.ok && lb.radius >= 0.0
    ensures var connect := Sub(PinnedPos(last), PinnedPos(first));
            var r := GetSides(first, last);
            && Dot(Sub(Calculate(r.0, fb).circle.centre, PinnedPos(first)), connect) >= 0.0
            && (var firstDot := Dot(PinnedDir(first), connect) >= 0.0;
                var lastDot := Dot(Neg(PinnedDir(last)), Neg(connect)) >= 0.0;
                firstDot == lastDot ==>
                  Dot(Sub(Calculate(r.1, lb).circle.centre, PinnedPos(last)), Neg(connect)) >= 0.0)
  {
    var connect := Sub(PinnedPos(last), PinnedPos(first));
    var r := GetSides(first, last);
    var f := r.0;
    var fdir := Turn90(f.guide.dir, f.side == Right);
    assert f.side == Right <==> CrossXZ(first.guide.dir, connect) >= 0.0;
    TurnTowards(first.guide.dir, connect);
    CentreAcross(f.guide, fdir, fb.radius, f.offset);
    DotScale(fdir, fb.radius, connect);
    assert Dot(Scale(fdir, fb.radius), connect) >= 0.0 by {
      NonNegProduct(fb.radius, Dot(fdir, connect));
    }
    var l := r.1;
    var ldir := Turn90(l.guide.dir, l.side == Right);
    if Dot(PinnedDir(first), connect) >= 0.0 <==> Dot(Neg(PinnedDir(last)), Neg(connect)) >= 0.0 {
      assert Neg(PinnedDir(last)) == last.guide.dir;
      assert l.side == Right <==> CrossXZ(last.guide.dir, Neg(connect)) < 0.0;
      TurnTowards(last.guide.dir, Neg(connect));
      assert Neg(ldir) == Turn90(last.guide.dir, CrossXZ(last.guide.dir, Neg(connect)) >= 0.0);
      CentreAcross(l.guide, Neg(ldir), lb.radius, l.offset);
      DotScale(Neg(ldir), lb.radius, Neg(connect));
      NonNegProduct(lb.radius, Dot(Neg(ldir), Neg(connect)));
    }
  }

  /** The centre placed one radius across from the pinned end. */
  lemma CentreAcross(g: Guide, across: Vec, radius: real, offset: real)
    ensures Sub(Add(Add(g.start, Scale(across, radius)), Scale(g.dir, offset)), Position(g, offset)) == Scale(across, radius)
  {
  }

  lemma NonNegProduct(a: real, b: real)
    requires a >= 0.0 && b >= 0.0
    ensures a * b >= 0.0
  {
  }

  /** A worked example: the first guide leaves (0, 0) heading along +x, the
      last arc is pinned at (0, 10), and the solver finds radius 1. The first
      arc turns left and its centre is (0, 1), toward the other end. */
  lemma FirstArcBendsTowardOtherEnd()
    ensures var first := NewEdge(First, Guide(Vec(0.0, 0.0), Vec(1.0, 0.0)));
            var last := NewEdge(Last, Guide(Vec(0.0, 10.0), Vec(0.0, 1.0)));
            var f := GetSides(first, last).0;
            && f.side == Left
            && Calculate(f, BaseOutcome(true, Calculated, 1.0, Zero)).circle.centre == Vec(0.0, 1.0)
  {
    var first := NewEdge(First, Guide(Vec(0.0, 0.0), Vec(1.0, 0.0)));
    var last := NewEdge(Last, Guide(Vec(0.0, 10.0), Vec(0.0, 1.0)));
    assert PinnedPos(first) == Vec(0.0, 0.0) && PinnedDir(first) == Vec(1.0, 0.0);
    assert PinnedPos(last) == Vec(0.0, 10.0);
    assert CrossXZ(Vec(1.0, 0.0), Vec(0.0, 10.0)) == -10.0;
    var f := GetSides(first, last).0;
    assert f == first.(side := Left);
    assert Turn90(f.guide.dir, false) == Vec(0.0, 1.0);
  }
}
