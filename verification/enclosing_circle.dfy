/** The exhaustive enclosing-circle search of the arrangement mode. Starting
    from a circle of radius 1000 at the origin, every pair of points (as a
    diameter) and every triple (through its circumcentre) is tried in loop
    order, and a candidate replaces the current circle only when it is strictly
    smaller and every point other than its defining ones lies inside it.
    Radii are handled through their squares. */
module EnclosingCircle {
  import opened Geometry
  import opened Wrappers

  /** A circle by centre and squared radius. */
  datatype Disc = Disc(centre: Vec, r2: real)

  const InitialRadius: real := 1000.0

  /** The starting circle: the origin and radius 1000. */
  const Initial: Disc := Disc(Zero, InitialRadius * InitialRadius)

  /** A candidate circle, named by the input positions that define it. */
  datatype Candidate = Pair(i: int, j: int) | Triple(i: int, j: int, k: int)

  /** What a triple whose two perpendicular bisectors are parallel (three
      collinear points) produces. `KeepMidpoint` is the source as written,
      assuming that `Line2.Intersect` (not part of this model) reports
      parameter 0 for parallel lines, so the candidate is centred on the first
      pair's midpoint. `SkipTriple` discards the triple. */
  datatype ParallelRule = KeepMidpoint | SkipTriple

  predicate ValidCandidate(c: Candidate, n: int) {
    match c
    case Pair(i, j) => 0 <= i < j < n
    case Triple(i, j, k) => 0 <= i < j < k < n
  }

  /** The positions passed as `ignore` to the containment test. */
  function Defining(c: Candidate): set<int> {
    match c
    case Pair(i, j) => {i, j}
    case Triple(i, j, k) => {i, j, k}
  }

  predicate Inside(p: Vec, d: Disc) {
    Dist2(d.centre, p) <= d.r2
  }

  /** `AllPointsInCircle`: every point outside `ignore` is inside `d`. */
  predicate AllPointsInCircle(pts: seq<Vec>, d: Disc, ignore: set<int>) {
    forall i :: 0 <= i < |pts| && i !in ignore ==> Inside(pts[i], d)
  }

  predicate EnclosesAll(pts: seq<Vec>, d: Disc) {
    forall i :: 0 <= i < |pts| ==> Inside(pts[i], d)
  }

  /** `GetCircle2Points`: the circle with the pair as diameter. */
  function Circle2(a: Vec, b: Vec): Disc {
    Disc(Mid(a, b), Dist2(a, b) / 4.0)
  }

  /** Both points of the pair lie on its diameter circle, whose diameter is their distance. */
  lemma DiameterCircle(a: Vec, b: Vec)
    ensures 4.0 * Circle2(a, b).r2 == Dist2(a, b)
    ensures Dist2(Circle2(a, b).centre, a) == Circle2(a, b).r2
    ensures Dist2(Circle2(a, b).centre, b) == Circle2(a, b).r2
  {
  }

  /** `GetCircle3Points`: the intersection of the perpendicular bisectors of
      `a`-`b` and `b`-`c`, with the radius measured to `a`. */
  function Circle3(a: Vec, b: Vec, c: Vec, rule: ParallelRule): (d: Option<Disc>)
    ensures d.None? <==> rule == SkipTriple && Cross(Turn90(Sub(a, b), true), Turn90(Sub(b, c), true)) == 0.0
  {
    var pos1 := Mid(a, b);
    var pos2 := Mid(b, c);
    var dir1 := Turn90(Sub(a, b), true);
    var dir2 := Turn90(Sub(b, c), true);
    var den := Cross(dir1, dir2);
    if den == 0.0 then
      match rule
      case KeepMidpoint => Some(Disc(pos1, Dist2(pos1, a)))
      case SkipTriple => None
    else
      var t := Cross(Sub(pos2, pos1), dir2) / den;
      var centre := Add(pos1, Scale(dir1, t));
      Some(Disc(centre, Dist2(centre, a)))
  }

  /** The bisector directions span the same signed area as the sides they
      bisect, so the bisectors are parallel exactly when the points are collinear. */
  lemma BisectorsParallelIffCollinear(a: Vec, b: Vec, c: Vec)
    ensures Cross(Turn90(Sub(a, b), true), Turn90(Sub(b, c), true)) == Cross(Sub(a, b), Sub(b, c))
  {
  }

  /** Parallel bisectors: as written, with the intersection parameter taken
      to be 0, the first pair's midpoint is kept as the centre. */
  lemma ParallelBisectors(a: Vec, b: Vec, c: Vec)
    requires Cross(Turn90(Sub(a, b), true), Turn90(Sub(b, c), true)) == 0.0
    ensures Circle3(a, b, c, KeepMidpoint) == Some(Disc(Mid(a, b), Dist2(Mid(a, b), a)))
    ensures Circle3(a, b, c, SkipTriple) == None
  {
  }

  function CandidateDisc(pts: seq<Vec>, c: Candidate, rule: ParallelRule): Option<Disc>
    requires ValidCandidate(c, |pts|)
  {
    match c
    case Pair(i, j) => Some(Circle2(pts[i], pts[j]))
    case Triple(i, j, k) => Circle3(pts[i], pts[j], pts[k], rule)
  }

  /** One step of the search: the acceptance rule shared by both candidate kinds. */
  function Consider(pts: seq<Vec>, best: Disc, c: Candidate, rule: ParallelRule): (next: Disc)
    requires ValidCandidate(c, |pts|)
    ensures next.r2 <= best.r2
    ensures next != best ==>
              && CandidateDisc(pts, c, rule) == Some(next)
              && next.r2 < best.r2
              && AllPointsInCircle(pts, next, Defining(c))
    ensures match CandidateDisc(pts, c, rule)
            case Some(d) => d.r2 < best.r2 && AllPointsInCircle(pts, d, Defining(c)) ==> next == d
            case None => next == best
  {
    match CandidateDisc(pts, c, rule)
    case None => best
    case Some(d) =>
      if d.r2 >= best.r2 then best
      else if AllPointsInCircle(pts, d, Defining(c)) then d
      else best
  }

  /** The candidates of the nested loops, in loop order: for each `i`, for each
      `j > i`, the pair and then every triple with `k > j`. */
  function Enumerate(n: int): seq<Candidate> {
    RowsFrom(n, 0)
  }

  function RowsFrom(n: int, i: int): seq<Candidate>
    decreases n - i
  {
    if i >= n then [] else PairsFrom(n, i, i + 1) + RowsFrom(n, i + 1)
  }

  function PairsFrom(n: int, i: int, j: int): seq<Candidate>
    decreases n - j
  {
    if j >= n then [] else [Pair(i, j)] + TriplesFrom(n, i, j, j + 1) + PairsFrom(n, i, j + 1)
  }

  function TriplesFrom(n: int, i: int, j: int, k: int): seq<Candidate>
    decreases n - k
  {
    if k >= n then [] else [Triple(i, j, k)] + TriplesFrom(n, i, j, k + 1)
  }

  lemma {:induction false} TriplesFromContents(n: int, i: int, j: int, k: int, c: Candidate)
    ensures c in TriplesFrom(n, i, j, k) <==> c.Triple? && c.i == i && c.j == j && k <= c.k < n
    decreases n - k
  {
    if k < n {
      TriplesFromContents(n, i, j, k + 1, c);
    }
  }

  lemma {:induction false} PairsFromContents(n: int, i: int, j: int, c: Candidate)
    ensures c in PairsFrom(n, i, j) <==>
              c.i == i && match c
                          case Pair(_, cj) => j <= cj < n
                          case Triple(_, cj, ck) => j <= cj < ck < n
    decreases n - j
  {
    if j < n {
      TriplesFromContents(n, i, j, j + 1, c);
      PairsFromContents(n, i, j + 1, c);
    }
  }

  lemma {:induction false} RowsFromContents(n: int, i: int, c: Candidate)
    requires 0 <= i
    ensures c in RowsFrom(n, i) <==> i <= c.i && ValidCandidate(c, n)
    decreases n - i
  {
    if i < n {
      PairsFromContents(n, i, i + 1, c);
      RowsFromContents(n, i + 1, c);
    }
  }

  /** The loops visit exactly the pairs `i < j` and the triples `i < j < k`. */
  lemma EnumerateContents(n: int)
    ensures forall c :: c in Enumerate(n) <==> ValidCandidate(c, n)
  {
    forall c
      ensures c in Enumerate(n) <==> ValidCandidate(c, n)
    {
      RowsFromContents(n, 0, c);
    }
  }

  /** Folds `Consider` over the candidates in order. */
  function SearchFrom(pts: seq<Vec>, cands: seq<Candidate>, best: Disc, rule: ParallelRule): Disc
    requires forall c :: c in cands ==> ValidCandidate(c, |pts|)
  {
    if |cands| == 0 then best
    else SearchFrom(pts, cands[1..], Consider(pts, best, cands[0], rule), rule)
  }

  /** The whole search of `Calculate`, from the initial circle; it never ends
      on a circle larger than that one. */
  function Search(pts: seq<Vec>, rule: ParallelRule): (d: Disc)
    ensures d.r2 <= Initial.r2
  {
    EnumerateContents(|pts|);
    SearchFromNeverGrows(pts, Enumerate(|pts|), Initial, rule);
    SearchFrom(pts, Enumerate(|pts|), Initial, rule)
  }

  lemma {:induction false} SearchFromNeverGrows(pts: seq<Vec>, cands: seq<Candidate>, best: Disc, rule: ParallelRule)
    requires forall c :: c in cands ==> ValidCandidate(c, |pts|)
    ensures SearchFrom(pts, cands, best, rule).r2 <= best.r2
  {
    if |cands| > 0 {
      SearchFromNeverGrows(pts, cands[1..], Consider(pts, best, cands[0], rule), rule);
    }
  }

  lemma {:induction false} SearchFromBeatsCandidates(pts: seq<Vec>, cands: seq<Candidate>, best: Disc, rule: ParallelRule)
    requires forall c :: c in cands ==> ValidCandidate(c, |pts|)
    ensures forall c :: c in cands && CandidateDisc(pts, c, rule).Some?
                        && AllPointsInCircle(pts, CandidateDisc(pts, c, rule).value, Defining(c))
                        ==> SearchFrom(pts, cands, best, rule).r2 <= CandidateDisc(pts, c, rule).value.r2
  {
    if |cands| > 0 {
      var next := Consider(pts, best, cands[0], rule);
      SearchFromBeatsCandidates(pts, cands[1..], next, rule);
      SearchFromNeverGrows(pts, cands[1..], next, rule);
      forall c | c in cands
        ensures c == cands[0] || c in cands[1..]
      {
      }
    }
  }

  /** The radius never grows past the initial 1000, and the result is at least
      as small as every candidate the loops try that contains all other points. */
  lemma SearchIsBestCandidate(pts: seq<Vec>, rule: ParallelRule)
    ensures Search(pts, rule).r2 <= Initial.r2
    ensures forall c :: ValidCandidate(c, |pts|) && CandidateDisc(pts, c, rule).Some?
                        && AllPointsInCircle(pts, CandidateDisc(pts, c, rule).value, Defining(c))
                        ==> Search(pts, rule).r2 <= CandidateDisc(pts, c, rule).value.r2
  {
    EnumerateContents(|pts|);
    SearchFromNeverGrows(pts, Enumerate(|pts|), Initial, rule);
    SearchFromBeatsCandidates(pts, Enumerate(|pts|), Initial, rule);
  }

  /** With fewer than two points no candidate exists: the result is the origin with radius 1000. */
  lemma FewPointsKeepInitial(pts: seq<Vec>, rule: ParallelRule)
    requires |pts| < 2
    ensures Search(pts, rule) == Initial
  {
    if |pts| == 1 {
      assert PairsFrom(1, 0, 1) == [] && RowsFrom(1, 1) == [];
    }
    assert Enumerate(|pts|) == [];
  }

  /** A point on the perpendicular bisector of `a`-`b` is as far from `a` as from `b`. */
  lemma BisectorIsEquidistant(a: Vec, b: Vec, p: Vec)
    requires Dot(Sub(p, Mid(a, b)), Sub(a, b)) == 0.0
    ensures Dist2(p, a) == Dist2(p, b)
  {
    var m := Mid(a, b);
    assert Dist2(p, a) - Dist2(p, b) == -2.0 * Dot(Sub(p, m), Sub(a, b));
  }

  /** A quarter turn of `d` is perpendicular to `d`, so crossing with it is a dot product with `d`. */
  lemma CrossWithQuarterTurn(v: Vec, d: Vec)
    ensures Cross(v, Turn90(d, true)) == -Dot(v, d)
  {
  }

  /** Moving along a quarter turn of `d` keeps a point on the same perpendicular of `d`. */
  lemma AlongQuarterTurn(d: Vec, t: real)
    ensures Dot(Scale(Turn90(d, true), t), d) == 0.0
  {
    DotScale(Turn90(d, true), t, d);
    QuarterTurn(d, true);
  }

  /** The signed area against `w` is linear along the line `p + u * t`. */
  lemma CrossAlongLine(p: Vec, u: Vec, t: real, q: Vec, w: Vec)
    ensures Cross(Sub(Add(p, Scale(u, t)), q), w) == Cross(Sub(p, q), w) + t * Cross(u, w)
  {
    assert u.x * t * w.z - u.z * t * w.x == t * (u.x * w.z - u.z * w.x);
  }

  /** The parameter computed by the line intersection puts the point on the second line. */
  lemma IntersectionOnSecondLine(p1: Vec, u: Vec, p2: Vec, w: Vec)
    requires Cross(u, w) != 0.0
    ensures Cross(Sub(Add(p1, Scale(u, Cross(Sub(p2, p1), w) / Cross(u, w))), p2), w) == 0.0
  {
    var t := Cross(Sub(p2, p1), w) / Cross(u, w);
    CrossAlongLine(p1, u, t, p2, w);
    assert t * Cross(u, w) == Cross(Sub(p2, p1), w);
    assert Cross(Sub(p1, p2), w) == -Cross(Sub(p2, p1), w);
  }

  /** When the bisectors are not parallel, the triple's centre is equidistant
      from all three points, so all three lie on the candidate circle. */
  lemma CircumcentreIsEquidistant(a: Vec, b: Vec, c: Vec)
    requires Cross(Turn90(Sub(a, b), true), Turn90(Sub(b, c), true)) != 0.0
    ensures var d := Circle3(a, b, c, SkipTriple).value;
            Dist2(d.centre, a) == d.r2 && Dist2(d.centre, b) == d.r2 && Dist2(d.centre, c) == d.r2
  {
    var pos1 := Mid(a, b);
    var pos2 := Mid(b, c);
    var dir1 := Turn90(Sub(a, b), true);
    var dir2 := Turn90(Sub(b, c), true);
    var t := Cross(Sub(pos2, pos1), dir2) / Cross(dir1, dir2);
    var centre := Add(pos1, Scale(dir1, t));
    assert Circle3(a, b, c, SkipTriple) == Some(Disc(centre, Dist2(centre, a)));
    // on the first bisector
    assert Sub(centre, pos1) == Scale(dir1, t);
    AlongQuarterTurn(Sub(a, b), t);
    BisectorIsEquidistant(a, b, centre);
    // on the second bisector
    IntersectionOnSecondLine(pos1, dir1, pos2, dir2);
    CrossWithQuarterTurn(Sub(centre, pos2), Sub(b, c));
    BisectorIsEquidistant(b, c, centre);
  }

  /** Under `SkipTriple` every candidate passes through all of its defining points. */
  lemma CandidateThroughDefiningPoints(pts: seq<Vec>, c: Candidate)
    requires ValidCandidate(c, |pts|) && CandidateDisc(pts, c, SkipTriple).Some?
    ensures forall i :: i in Defining(c) ==> 0 <= i < |pts| && Inside(pts[i], CandidateDisc(pts, c, SkipTriple).value)
  {
    if c.Triple? {
      CircumcentreIsEquidistant(pts[c.i], pts[c.j], pts[c.k]);
    } else {
      DiameterCircle(pts[c.i], pts[c.j]);
    }
  }

  lemma {:induction false} SearchFromKeepsEnclosure(pts: seq<Vec>, cands: seq<Candidate>, best: Disc)
    requires forall c :: c in cands ==> ValidCandidate(c, |pts|)
    requires best == Initial || EnclosesAll(pts, best)
    ensures var r := SearchFrom(pts, cands, best, SkipTriple);
            r == Initial || EnclosesAll(pts, r)
  {
    if |cands| > 0 {
      var c := cands[0];
      var next := Consider(pts, best, c, SkipTriple);
      if next != best {
        CandidateThroughDefiningPoints(pts, c);
        assert EnclosesAll(pts, next);
      }
      SearchFromKeepsEnclosure(pts, cands[1..], next);
    }
  }

  /** With collinear triples skipped, the result encloses every point unless it
      is still the initial circle (no candidate was accepted). */
  lemma SearchEncloses(pts: seq<Vec>)
    ensures var r := Search(pts, SkipTriple);
            r == Initial || EnclosesAll(pts, r)
  {
    EnumerateContents(|pts|);
    SearchFromKeepsEnclosure(pts, Enumerate(|pts|), Initial);
  }
}
