/** The chain of a connection: arcs (circles) joined by straights, with an
    edge straight before the first arc and after the last. A chain of `n` arcs
    has `n + 1` straights. Each arc's own solve, the radius-compatibility test
    of neighbouring arcs and the construction of each straight are not part of
    this model; their outcomes are inputs. */
module Connection {
  import opened Geometry
  import opened Wrappers
  import opened EdgeCircles

  /** A point of the preview path: a position with its tangent. */
  datatype Sample = Sample(pos: Vec, dir: Vec)

  /** An emitted point; `Empty` marks a break in the path. */
  datatype Point = At(sample: Sample) | Empty

  /** An arc is either pinned to a guide (the two ends) or a free arc in between. */
  datatype Shape = Edge(edge: EdgeCircle) | Inner

  datatype Arc = Arc(shape: Shape, isCorrect: bool, parts: seq<Point>)

  /** A straight with its end points, direction, length, interior samples and midpoint sample. */
  datatype Straight = Straight(start: Vec, end: Vec, dir: Vec, length: real, parts: seq<Point>, middle: Sample)

  datatype Builder = Builder(arcs: seq<Arc>, straights: seq<Option<Straight>>, state: Status)

  /** Straights at least this long are drawn in full. A shorter inner straight
      is drawn by its midpoint, and a shorter lead or trail straight not at all. */
  const MinDrawnLength: real := 8.0

  predicate EdgeOf(a: Arc, kind: EdgeKind) {
    a.shape.Edge? && a.shape.edge.kind == kind
  }

  /** The shape of a chain: at least two arcs, the first and last pinned, one
      more straight than arcs. */
  predicate WellFormed(b: Builder) {
    && |b.arcs| >= 2
    && |b.straights| == |b.arcs| + 1
    && EdgeOf(b.arcs[0], First)
    && EdgeOf(b.arcs[|b.arcs| - 1], Last)
  }

  predicate AllBuilt(b: Builder) {
    forall i :: 0 <= i < |b.straights| ==> b.straights[i].Some?
  }

  /** `Init`: two edge arcs on the two input trajectories, both pinned at the
      start of their guide and with their sides set by `GetSides`, and three
      straights still to be built. */
  function Init(b: Builder, firstGuide: Guide, lastGuide: Guide): (r: Builder)
    ensures WellFormed(r) && |r.arcs| == 2
    ensures r.straights == [None, None, None]
    ensures r.state == b.state
    ensures r.arcs[0].shape.edge.guide == firstGuide && r.arcs[1].shape.edge.guide == lastGuide
    ensures PinnedPos(r.arcs[0].shape.edge) == firstGuide.start
    ensures PinnedPos(r.arcs[1].shape.edge) == lastGuide.start
    ensures (r.arcs[0].shape.edge, r.arcs[1].shape.edge) == GetSides(NewEdge(First, firstGuide), NewEdge(Last, lastGuide))
  {
    var sides := GetSides(NewEdge(First, firstGuide), NewEdge(Last, lastGuide));
    Builder([Arc(Edge(sides.0), false, []), Arc(Edge(sides.1), false, [])], [None, None, None], b.state)
  }

  /** The correctness flags after the pair pass: an arc stays correct only if
      its own solve succeeded and its radius fits both neighbours. */
  function CorrectFlags(own: seq<bool>, pairOk: seq<bool>): (flags: seq<bool>)
    requires |pairOk| == |own| - 1
    ensures |flags| == |own|
    ensures forall i :: 0 <= i < |own| ==>
              (flags[i] <==> own[i] && (i == 0 || pairOk[i - 1]) && (i == |own| - 1 || pairOk[i]))
  {
    seq(|own|, i requires 0 <= i < |own| =>
      own[i] && (i == 0 || pairOk[i - 1]) && (i == |own| - 1 || pairOk[i]))
  }

  /** The pair pass as the source runs it: for each pair of neighbours, both
      flags are and-ed with the pair's compatibility. */
  method PropagatePairs(own: seq<bool>, pairOk: seq<bool>) returns (flags: seq<bool>)
    requires |own| >= 1 && |pairOk| == |own| - 1
    ensures |flags| == |own|
    ensures forall i :: 0 <= i < |own| ==>
              (flags[i] <==> own[i] && (i == 0 || pairOk[i - 1]) && (i == |own| - 1 || pairOk[i]))
  {
    flags := own;
    var i := 1;
    while i < |own|
      invariant 1 <= i <= |own| && |flags| == |own|
      invariant forall m :: 0 <= m < |own| ==>
                  (flags[m] <==> own[m] && (m == 0 || m >= i || pairOk[m - 1]) && (m >= i - 1 || pairOk[m]))
    {
      var ok := pairOk[i - 1];
      flags := flags[i - 1 := flags[i - 1] && ok];
      flags := flags[i := flags[i] && ok];
      i := i + 1;
    }
    assert i == |own|;
  }

  /** The pair pass only ever clears flags, and every arc ends up correct
      exactly when every own solve and every pair test succeeded. */
  lemma FlagsOnlyClear(own: seq<bool>, pairOk: seq<bool>)
    requires |own| >= 1 && |pairOk| == |own| - 1
    ensures forall i :: 0 <= i < |own| ==> CorrectFlags(own, pairOk)[i] ==> own[i]
    ensures (forall i :: 0 <= i < |own| ==> CorrectFlags(own, pairOk)[i])
            <==> (forall i :: 0 <= i < |own| ==> own[i]) && (forall k :: 0 <= k < |pairOk| ==> pairOk[k])
  {
    var flags := CorrectFlags(own, pairOk);
    if forall i :: 0 <= i < |own| ==> flags[i] {
      forall k | 0 <= k < |pairOk|
        ensures pairOk[k]
      {
        assert flags[k];
      }
    }
  }

  /** One arc's own solve: a pinned arc is solved by `EdgeCircles.Calculate`,
      a free arc only takes the solver's verdict. `drawn` is the arc's
      samples as the general solver redraws them; their contents are an input. */
  function SolveArc(a: Arc, outcome: BaseOutcome, drawn: seq<Point>): (r: Arc)
    ensures r.isCorrect == outcome.ok && r.parts == drawn
    ensures r.shape.Edge? <==> a.shape.Edge?
    ensures a.shape.Edge? ==> r.shape.edge == EdgeCircles.Calculate(a.shape.edge, outcome).circle
  {
    match a.shape
    case Edge(e) => Arc(Edge(EdgeCircles.Calculate(e, outcome).circle), outcome.ok, drawn)
    case Inner => Arc(Inner, outcome.ok, drawn)
  }

  /** The own verdict of every arc's solve. */
  function OwnResults(outcomes: seq<BaseOutcome>): (own: seq<bool>)
    ensures |own| == |outcomes|
    ensures forall i :: 0 <= i < |outcomes| ==> own[i] == outcomes[i].ok
  {
    seq(|outcomes|, i requires 0 <= i < |outcomes| => outcomes[i].ok)
  }

  /** `Calculate`: solve every arc, clear the flags of arcs whose radius does
      not fit a neighbour, rebuild every straight, and set the state. The
      solver's redrawn arc samples (`drawn`) and rebuilt straights are inputs.
      The preview points it returns are `GetParts` of the result. */
  function Calculate(b: Builder, outcomes: seq<BaseOutcome>, drawn: seq<seq<Point>>, pairOk: seq<bool>, rebuilt: seq<Straight>): (r: Builder)
    requires WellFormed(b)
    requires |outcomes| == |b.arcs| && |drawn| == |b.arcs| && |pairOk| == |b.arcs| - 1 && |rebuilt| == |b.straights|
    ensures WellFormed(r) && AllBuilt(r)
    ensures |r.arcs| == |b.arcs| && |r.straights| == |b.straights|
    ensures forall i :: 0 <= i < |b.arcs| ==>
              (r.arcs[i].isCorrect <==> outcomes[i].ok && (i == 0 || pairOk[i - 1]) && (i == |b.arcs| - 1 || pairOk[i]))
    ensures forall i :: 0 <= i < |b.arcs| ==> r.arcs[i].parts == drawn[i]
    ensures forall i :: 0 <= i < |b.straights| ==> r.straights[i] == Some(rebuilt[i])
    ensures r.state == Calculated || r.state == WrongShape
    ensures r.state == Calculated <==> forall i :: 0 <= i < |b.arcs| ==> r.arcs[i].isCorrect
  {
    var n := |b.arcs|;
    var own := OwnResults(outcomes);
    var arcs := SolveArcs(b.arcs, outcomes, drawn, CorrectFlags(own, pairOk));
    var straights := seq(|rebuilt|, i requires 0 <= i < |rebuilt| => Some(rebuilt[i]));
    var state := if forall i :: 0 <= i < n ==> arcs[i].isCorrect then Calculated else WrongShape;
    Builder(arcs, straights, state)
  }

  /** Every arc solved by `SolveArc`, with its flag replaced by the one the
      pair pass left. */
  function SolveArcs(arcs: seq<Arc>, outcomes: seq<BaseOutcome>, drawn: seq<seq<Point>>, flags: seq<bool>): (r: seq<Arc>)
    requires |outcomes| == |arcs| && |drawn| == |arcs| && |flags| == |arcs|
    ensures |r| == |arcs|
    ensures forall i :: 0 <= i < |arcs| ==> r[i] == SolveArc(arcs[i], outcomes[i], drawn[i]).(isCorrect := flags[i])
    ensures forall i :: 0 <= i < |arcs| ==> r[i].isCorrect == flags[i] && r[i].parts == drawn[i]
    ensures forall i, kind :: 0 <= i < |arcs| && EdgeOf(arcs[i], kind) ==> EdgeOf(r[i], kind)
  {
    seq(|arcs|, i requires 0 <= i < |arcs| => SolveArc(arcs[i], outcomes[i], drawn[i]).(isCorrect := flags[i]))
  }

  /** The chain is `Calculated` exactly when every arc's own solve and every
      neighbour test succeeded; one failure anywhere makes it `WrongShape`. */
  lemma CalculateState(b: Builder, outcomes: seq<BaseOutcome>, drawn: seq<seq<Point>>, pairOk: seq<bool>, rebuilt: seq<Straight>)
    requires WellFormed(b)
    requires |outcomes| == |b.arcs| && |drawn| == |b.arcs| && |pairOk| == |b.arcs| - 1 && |rebuilt| == |b.straights|
    ensures Calculate(b, outcomes, drawn, pairOk, rebuilt).state == Calculated <==>
            (forall i :: 0 <= i < |b.arcs| ==> outcomes[i].ok) && (forall k :: 0 <= k < |pairOk| ==> pairOk[k])
  {
    var own := OwnResults(outcomes);
    FlagsOnlyClear(own, pairOk);
    var r := Calculate(b, outcomes, drawn, pairOk, rebuilt);
    assert forall i :: 0 <= i < |b.arcs| ==> (r.arcs[i].isCorrect <==> CorrectFlags(own, pairOk)[i]);
  }

  /** Calculating again with the same solver outcomes gives the same chain. */
  lemma CalculateIdempotent(b: Builder, outcomes: seq<BaseOutcome>, drawn: seq<seq<Point>>, pairOk: seq<bool>, rebuilt: seq<Straight>)
    requires WellFormed(b)
    requires |outcomes| == |b.arcs| && |drawn| == |b.arcs| && |pairOk| == |b.arcs| - 1 && |rebuilt| == |b.straights|
    ensures var once := Calculate(b, outcomes, drawn, pairOk, rebuilt);
            Calculate(once, outcomes, drawn, pairOk, rebuilt) == once
  {
    var once := Calculate(b, outcomes, drawn, pairOk, rebuilt);
    var twice := Calculate(once, outcomes, drawn, pairOk, rebuilt);
    forall i | 0 <= i < |b.arcs|
      ensures twice.arcs[i] == once.arcs[i]
    {
      match b.arcs[i].shape
      case Edge(e) =>
        EdgeCircles.CalculateIdempotent(e, outcomes[i]);
      case Inner =>
    }
    assert twice.arcs == once.arcs;
  }

  /** After `Calculate`, each edge arc whose own solve succeeded passes through
      its pinned point on its guide, with its radius there perpendicular to the
      guide. */
  lemma CalculatedEdgesPinned(b: Builder, outcomes: seq<BaseOutcome>, drawn: seq<seq<Point>>, pairOk: seq<bool>, rebuilt: seq<Straight>, i: int)
    requires WellFormed(b)
    requires |outcomes| == |b.arcs| && |drawn| == |b.arcs| && |pairOk| == |b.arcs| - 1 && |rebuilt| == |b.straights|
    requires i == 0 || i == |b.arcs| - 1
    requires outcomes[i].ok
    ensures var e := Calculate(b, outcomes, drawn, pairOk, rebuilt).arcs[i].shape.edge;
            && e.guide == b.arcs[i].shape.edge.guide
            && e.offset == b.arcs[i].shape.edge.offset
            && Add(e.centre, Scale(PinnedRadiusDir(e), e.radius)) == PinnedPos(e)
            && Dot(PinnedRadiusDir(e), e.guide.dir) == 0.0
  {
    PinnedEndOnArc(b.arcs[i].shape.edge, outcomes[i]);
  }

  /** One step of the interleaved walk: an arc, or the straight between arcs `j - 1` and `j`. */
  datatype Visit = ArcStep(j: int) | StraightStep(j: int)

  /** The order of the main loop: arc 0, straight 1, arc 1, straight 2, ...,
      with `nc + ns - 2` steps. */
  function Visits(nc: nat, ns: nat): (r: seq<Visit>)
    ensures |r| == if nc + ns >= 2 then nc + ns - 2 else 0
    ensures forall j :: 0 <= j && 2 * j < |r| ==> r[2 * j] == ArcStep(j)
    ensures forall j :: 1 <= j && 2 * j - 1 < |r| ==> r[2 * j - 1] == StraightStep(j)
    ensures ns == nc + 1 ==> AllFit(nc, ns, r)
  {
    var len := if nc + ns >= 2 then nc + ns - 2 else 0;
    seq(len, i requires 0 <= i < len => if i % 2 == 0 then ArcStep(i / 2) else StraightStep(i / 2 + 1))
  }

  /** The walk written as arcs and interior straights appended pairwise. */
  function Interleave(nc: nat): (r: seq<Visit>)
    requires nc >= 1
    ensures |r| == 2 * nc - 1
    ensures forall j :: 0 <= j < nc ==> r[2 * j] == ArcStep(j)
    ensures forall j :: 1 <= j < nc ==> r[2 * j - 1] == StraightStep(j)
  {
    if nc == 1 then [ArcStep(0)]
    else
      var prefix := Interleave(nc - 1);
      var r := prefix + [StraightStep(nc - 1), ArcStep(nc - 1)];
      assert forall j :: 0 <= j < nc - 1 ==> r[2 * j] == prefix[2 * j];
      assert forall j :: 1 <= j < nc - 1 ==> r[2 * j - 1] == prefix[2 * j - 1];
      r
  }

  /** With one more straight than arcs, the loop visits every arc once and
      every interior straight once, in chain order, and never an edge straight. */
  lemma VisitsInterleave(nc: nat)
    requires nc >= 1
    ensures Visits(nc, nc + 1) == Interleave(nc)
  {
    var v := Visits(nc, nc + 1);
    var w := Interleave(nc);
    forall i | 0 <= i < |v|
      ensures v[i] == w[i]
    {
      VisitAt(nc, nc + 1, i);
      InterleaveAt(nc, i);
    }
  }

  /** Step `i` of the loop, read off its index. */
  lemma VisitAt(nc: nat, ns: nat, i: int)
    requires 0 <= i < |Visits(nc, ns)|
    ensures Visits(nc, ns)[i] == if i % 2 == 0 then ArcStep(i / 2) else StraightStep(i / 2 + 1)
  {
  }

  /** Element `i` of the chain order, read off its index. */
  lemma InterleaveAt(nc: nat, i: int)
    requires nc >= 1 && 0 <= i < 2 * nc - 1
    ensures Interleave(nc)[i] == if i % 2 == 0 then ArcStep(i / 2) else StraightStep(i / 2 + 1)
  {
    var w := Interleave(nc);
    var j := i / 2;
    if i % 2 == 0 {
      assert w[2 * j] == ArcStep(j);
    } else {
      assert w[2 * (j + 1) - 1] == StraightStep(j + 1);
    }
  }

  /** A step names an existing arc, or a straight with an arc on each side. */
  predicate Fits(nc: int, ns: int, v: Visit) {
    match v
    case ArcStep(j) => 0 <= j < nc
    case StraightStep(j) => 1 <= j < nc && j < ns
  }

  predicate AllFit(nc: int, ns: int, vs: seq<Visit>) {
    forall k :: 0 <= k < |vs| ==> Fits(nc, ns, vs[k])
  }

  /** Both arcs around an interior straight failed. */
  predicate DoubleFailure(b: Builder, v: Visit)
    requires Fits(|b.arcs|, |b.straights|, v)
  {
    v.StraightStep? && !b.arcs[v.j - 1].isCorrect && !b.arcs[v.j].isCorrect
  }

  /** A straight drawn in full: its start, interior samples and end. */
  function FullStraight(s: Straight): (r: seq<Point>)
    ensures |r| == |s.parts| + 2 && r[1..|r| - 1] == s.parts
    ensures r[0] == At(Sample(s.start, s.dir)) && r[|r| - 1] == At(Sample(s.end, s.dir))
  {
    [At(Sample(s.start, s.dir))] + s.parts + [At(Sample(s.end, s.dir))]
  }

  /** What one step of the walk emits. A failed arc emits nothing; a straight
      between two failed arcs emits a break; a short straight emits its midpoint. */
  function StepPoints(b: Builder, v: Visit): (r: seq<Point>)
    requires Fits(|b.arcs|, |b.straights|, v) && AllBuilt(b)
    ensures v.ArcStep? && !b.arcs[v.j].isCorrect ==> r == []
    ensures v.ArcStep? && b.arcs[v.j].isCorrect ==> r == b.arcs[v.j].parts
    ensures DoubleFailure(b, v) ==> r == [Empty]
    ensures v.StraightStep? && !DoubleFailure(b, v) && b.straights[v.j].value.length < MinDrawnLength
            ==> r == [At(b.straights[v.j].value.middle)]
    ensures v.StraightStep? && !DoubleFailure(b, v) && b.straights[v.j].value.length >= MinDrawnLength
            ==> r == FullStraight(b.straights[v.j].value)
  {
    match v
    case ArcStep(j) => if b.arcs[j].isCorrect then b.arcs[j].parts else []
    case StraightStep(j) =>
      if !b.arcs[j - 1].isCorrect && !b.arcs[j].isCorrect then [Empty]
      else
        var s := b.straights[j].value;
        if s.length >= MinDrawnLength then FullStraight(s) else [At(s.middle)]
  }

  /** The points of a sequence of steps, in order. */
  function Walk(b: Builder, vs: seq<Visit>): seq<Point>
    requires AllBuilt(b) && AllFit(|b.arcs|, |b.straights|, vs)
  {
    if |vs| == 0 then [] else StepPoints(b, vs[0]) + Walk(b, vs[1..])
  }

  /** The first straight, drawn only when long enough: its samples and its end. */
  function Lead(s: Straight): (r: seq<Point>)
    ensures s.length < MinDrawnLength ==> r == []
    ensures s.length >= MinDrawnLength ==> r == s.parts + [At(Sample(s.end, s.dir))]
  {
    if s.length >= MinDrawnLength then s.parts + [At(Sample(s.end, s.dir))] else []
  }

  /** The last straight, drawn only when long enough: its start and its samples. */
  function Trail(s: Straight): (r: seq<Point>)
    ensures s.length < MinDrawnLength ==> r == []
    ensures s.length >= MinDrawnLength ==> r == [At(Sample(s.start, s.dir))] + s.parts
  {
    if s.length >= MinDrawnLength then [At(Sample(s.start, s.dir))] + s.parts else []
  }

  /** `GetParts`: the preview path of a calculated chain. */
  function GetParts(b: Builder): seq<Point>
    requires WellFormed(b) && AllBuilt(b)
  {
    Lead(b.straights[0].value)
      + Walk(b, Visits(|b.arcs|, |b.straights|))
      + Trail(b.straights[|b.straights| - 1].value)
  }

  /** The preview path in chain order: the first straight, then arc 0,
      straight 1, arc 1, ..., arc n-1, then the last straight. */
  lemma GetPartsInChainOrder(b: Builder)
    requires WellFormed(b) && AllBuilt(b)
    ensures AllFit(|b.arcs|, |b.straights|, Interleave(|b.arcs|))
    ensures GetParts(b) == Lead(b.straights[0].value)
                           + Walk(b, Interleave(|b.arcs|))
                           + Trail(b.straights[|b.arcs|].value)
  {
    var nc := |b.arcs|;
    VisitsInterleave(nc);
    var vs := Visits(nc, |b.straights|);
    assert vs == Interleave(nc);
    assert GetParts(b) == Lead(b.straights[0].value) + Walk(b, vs) + Trail(b.straights[nc].value);
  }

  /** No arc or straight carries a break among its own samples. */
  predicate NoBreaksInParts(b: Builder) {
    && (forall i :: 0 <= i < |b.arcs| ==> Empty !in b.arcs[i].parts)
    && (forall i :: 0 <= i < |b.straights| ==> b.straights[i].Some? ==> Empty !in b.straights[i].value.parts)
  }

  lemma StepBreaks(b: Builder, v: Visit)
    requires AllBuilt(b) && NoBreaksInParts(b) && Fits(|b.arcs|, |b.straights|, v)
    ensures Empty in StepPoints(b, v) <==> DoubleFailure(b, v)
  {
    if v.StraightStep? && !DoubleFailure(b, v) && b.straights[v.j].value.length >= MinDrawnLength {
      var s := b.straights[v.j].value;
      var r := FullStraight(s);
      assert Empty !in s.parts;
      assert r == [r[0]] + s.parts + [r[|r| - 1]];
    } else if v.ArcStep? {
      assert Empty !in b.arcs[v.j].parts;
    }
  }

  lemma {:induction false} WalkBreaks(b: Builder, vs: seq<Visit>)
    requires AllBuilt(b) && NoBreaksInParts(b) && AllFit(|b.arcs|, |b.straights|, vs)
    ensures Empty in Walk(b, vs) <==> exists k :: 0 <= k < |vs| && DoubleFailure(b, vs[k])
  {
    if |vs| > 0 {
      WalkBreaks(b, vs[1..]);
      StepBreaks(b, vs[0]);
      if exists k :: 0 <= k < |vs| && DoubleFailure(b, vs[k]) {
        var k :| 0 <= k < |vs| && DoubleFailure(b, vs[k]);
        if k > 0 {
          assert vs[1..][k - 1] == vs[k];
        }
      }
      if exists k :: 0 <= k < |vs[1..]| && DoubleFailure(b, vs[1..][k]) {
        var k :| 0 <= k < |vs[1..]| && DoubleFailure(b, vs[1..][k]);
        assert vs[k + 1] == vs[1..][k];
      }
    }
  }

  lemma EdgeStraightsUnbroken(b: Builder)
    requires WellFormed(b) && AllBuilt(b) && NoBreaksInParts(b)
    ensures Empty !in Lead(b.straights[0].value)
    ensures Empty !in Trail(b.straights[|b.straights| - 1].value)
  {
    assert Empty !in b.straights[0].value.parts;
    assert Empty !in b.straights[|b.straights| - 1].value.parts;
  }

  /** The break steps of the walk are exactly the straights between two failed arcs. */
  lemma DoubleFailureSteps(b: Builder)
    requires WellFormed(b)
    ensures var vs := Visits(|b.arcs|, |b.straights|);
            (exists k :: 0 <= k < |vs| && DoubleFailure(b, vs[k]))
            <==> exists j :: 1 <= j < |b.arcs| && !b.arcs[j - 1].isCorrect && !b.arcs[j].isCorrect
  {
    var nc := |b.arcs|;
    var vs := Visits(nc, |b.straights|);
    if exists j :: 1 <= j < nc && !b.arcs[j - 1].isCorrect && !b.arcs[j].isCorrect {
      var j :| 1 <= j < nc && !b.arcs[j - 1].isCorrect && !b.arcs[j].isCorrect;
      DoubleFailureFound(b, j);
      assert 0 <= 2 * j - 1 < |vs| && DoubleFailure(b, vs[2 * j - 1]);
    }
    if exists k :: 0 <= k < |vs| && DoubleFailure(b, vs[k]) {
      var k :| 0 <= k < |vs| && DoubleFailure(b, vs[k]);
      DoubleFailureLocated(b, k);
    }
  }

  /** The straight between two failed arcs is a step of the walk. */
  lemma DoubleFailureFound(b: Builder, j: int)
    requires WellFormed(b) && 1 <= j < |b.arcs| && !b.arcs[j - 1].isCorrect && !b.arcs[j].isCorrect
    ensures var vs := Visits(|b.arcs|, |b.straights|);
            0 <= 2 * j - 1 < |vs| && vs[2 * j - 1] == StraightStep(j)
            && Fits(|b.arcs|, |b.straights|, vs[2 * j - 1]) && DoubleFailure(b, vs[2 * j - 1])
  {
  }

  /** A step of the walk between two failed arcs names two neighbouring failed arcs. */
  lemma DoubleFailureLocated(b: Builder, k: int)
    requires WellFormed(b)
    requires 0 <= k < |Visits(|b.arcs|, |b.straights|)|
    requires Fits(|b.arcs|, |b.straights|, Visits(|b.arcs|, |b.straights|)[k])
    requires DoubleFailure(b, Visits(|b.arcs|, |b.straights|)[k])
    ensures var j := Visits(|b.arcs|, |b.straights|)[k].j;
            1 <= j < |b.arcs| && !b.arcs[j - 1].isCorrect && !b.arcs[j].isCorrect
  {
  }

  /** The preview path has a break exactly when some interior straight lies
      between two failed arcs. */
  lemma BreakIffBothNeighboursFail(b: Builder)
    requires WellFormed(b) && AllBuilt(b) && NoBreaksInParts(b)
    ensures Empty in GetParts(b) <==>
            exists j :: 1 <= j < |b.arcs| && !b.arcs[j - 1].isCorrect && !b.arcs[j].isCorrect
  {
    DoubleFailureSteps(b);
    WalkBreaks(b, Visits(|b.arcs|, |b.straights|));
    EdgeStraightsUnbroken(b);
  }

  /** A failed arc's own samples never reach the preview path: replacing them
      changes nothing. */
  lemma {:induction false} WalkIgnoresFailedArc(b: Builder, vs: seq<Visit>, j: int, p: seq<Point>)
    requires AllBuilt(b) && AllFit(|b.arcs|, |b.straights|, vs)
    requires 0 <= j < |b.arcs| && !b.arcs[j].isCorrect
    ensures Walk(b.(arcs := b.arcs[j := b.arcs[j].(parts := p)]), vs) == Walk(b, vs)
  {
    var b' := b.(arcs := b.arcs[j := b.arcs[j].(parts := p)]);
    assert |b'.arcs| == |b.arcs| && b'.straights == b.straights;
    if |vs| > 0 {
      assert AllFit(|b.arcs|, |b.straights|, vs[1..]);
      WalkIgnoresFailedArc(b, vs[1..], j, p);
      StepIgnoresFailedArc(b, vs[0], j, p);
    }
  }

  lemma StepIgnoresFailedArc(b: Builder, v: Visit, j: int, p: seq<Point>)
    requires AllBuilt(b) && Fits(|b.arcs|, |b.straights|, v)
    requires 0 <= j < |b.arcs| && !b.arcs[j].isCorrect
    ensures StepPoints(b.(arcs := b.arcs[j := b.arcs[j].(parts := p)]), v) == StepPoints(b, v)
  {
  }

  lemma FailedArcIgnored(b: Builder, j: int, p: seq<Point>)
    requires WellFormed(b) && AllBuilt(b) && 0 <= j < |b.arcs| && !b.arcs[j].isCorrect
    ensures var b' := b.(arcs := b.arcs[j := b.arcs[j].(parts := p)]);
            && WellFormed(b') && AllBuilt(b')
            && GetParts(b') == GetParts(b)
  {
    var b' := b.(arcs := b.arcs[j := b.arcs[j].(parts := p)]);
    NewPartsKeepShape(b, j, p);
    var nc, ns := |b.arcs|, |b.straights|;
    var vs := Visits(nc, ns);
    WalkIgnoresFailedArc(b, vs, j, p);
    SameWalkSameParts(b, b');
  }

  /** Two chains with the same straights and arc count whose walks agree give the same preview. */
  lemma SameWalkSameParts(b: Builder, b': Builder)
    requires WellFormed(b) && AllBuilt(b) && WellFormed(b') && AllBuilt(b')
    requires |b'.arcs| == |b.arcs| && b'.straights == b.straights
    requires Walk(b', Visits(|b.arcs|, |b.straights|)) == Walk(b, Visits(|b.arcs|, |b.straights|))
    ensures GetParts(b') == GetParts(b)
  {
  }

  /** Replacing one arc's samples keeps the chain's shape and its straights. */
  lemma NewPartsKeepShape(b: Builder, j: int, p: seq<Point>)
    requires WellFormed(b) && AllBuilt(b) && 0 <= j < |b.arcs|
    ensures var b' := b.(arcs := b.arcs[j := b.arcs[j].(parts := p)]);
            && WellFormed(b') && AllBuilt(b')
            && |b'.arcs| == |b.arcs| && b'.straights == b.straights
  {
    var b' := b.(arcs := b.arcs[j := b.arcs[j].(parts := p)]);
    assert b'.arcs[0].shape == b.arcs[0].shape;
    assert b'.arcs[|b.arcs| - 1].shape == b.arcs[|b.arcs| - 1].shape;
  }
}
