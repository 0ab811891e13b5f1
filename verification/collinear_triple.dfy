/** The three points of the worked case and the discs the search meets. */
module CollinearPoints {
  import opened Geometry
  import opened EnclosingCircle

  /** Three collinear points: the nearest two, and one far along the same line. */
  const Collinear: seq<Vec> := [Vec(0.0, 0.0), Vec(2.0, 0.0), Vec(10.0, 0.0)]

  const NearPair: Disc := Disc(Vec(1.0, 0.0), 1.0)
  const OuterPair: Disc := Disc(Vec(5.0, 0.0), 25.0)
  const FarPair: Disc := Disc(Vec(6.0, 0.0), 16.0)

  /** The three points, one by one. */
  lemma CollinearIs()
    ensures |Collinear| == 3
    ensures Collinear[0] == Vec(0.0, 0.0) && Collinear[1] == Vec(2.0, 0.0) && Collinear[2] == Vec(10.0, 0.0)
  {
  }
}

/** A worked case of the enclosing-circle search: three points on one line.
    When parallel bisectors are taken to meet at parameter 0, the triple is
    accepted with the first pair's circle, which misses the third point, and no
    later pair is smaller; skipping the triple yields the circle on the outer
    pair. (With the source's unit bisector direction a parameter `p` gives the
    radius sqrt(1 + p*p); the outcome is the same for p*p <= 24, while a larger
    parameter lets the outer pair replace the triple.) */
module CollinearTriple {
  import opened Geometry
  import opened Wrappers
  import opened EnclosingCircle
  import opened CollinearPoints

  lemma EnumerateThree()
    ensures Enumerate(3) == [Pair(0, 1), Triple(0, 1, 2), Pair(0, 2), Pair(1, 2)]
  {
    assert TriplesFrom(3, 0, 1, 2) == [Triple(0, 1, 2)];
    assert PairsFrom(3, 0, 1) == [Pair(0, 1), Triple(0, 1, 2), Pair(0, 2)];
    assert RowsFrom(3, 1) == [Pair(1, 2)];
  }

  /** The diameter circles of the three pairs, and the triple's disc under each rule. */
  lemma NearPairDisc(rule: ParallelRule)
    ensures CandidateDisc(Collinear, Pair(0, 1), rule) == Some(NearPair)
  {
    CollinearIs();
  }

  lemma OuterPairDisc(rule: ParallelRule)
    ensures CandidateDisc(Collinear, Pair(0, 2), rule) == Some(OuterPair)
  {
    CollinearIs();
  }

  lemma FarPairDisc(rule: ParallelRule)
    ensures CandidateDisc(Collinear, Pair(1, 2), rule) == Some(FarPair)
  {
    CollinearIs();
  }

  /** Points of equal depth lie on one line. */
  lemma LevelPointsAreCollinear(a: Vec, b: Vec, c: Vec)
    requires a.z == b.z == c.z
    ensures Cross(Sub(a, b), Sub(b, c)) == 0.0
  {
    assert Sub(a, b).z == 0.0 && Sub(b, c).z == 0.0;
  }

  /** The three points are collinear, so the bisectors of the triple are parallel. */
  lemma OnOneLine()
    ensures Cross(Sub(Collinear[0], Collinear[1]), Sub(Collinear[1], Collinear[2])) == 0.0
  {
    CollinearIs();
    LevelPointsAreCollinear(Collinear[0], Collinear[1], Collinear[2]);
  }

  lemma CollinearBisectorsParallel()
    ensures Cross(Turn90(Sub(Collinear[0], Collinear[1]), true), Turn90(Sub(Collinear[1], Collinear[2]), true)) == 0.0
  {
    CollinearIs();
    OnOneLine();
    BisectorsParallelIffCollinear(Collinear[0], Collinear[1], Collinear[2]);
  }

  /** The first pair's midpoint and its distance to the first point. */
  lemma FirstMidpoint()
    ensures Mid(Vec(0.0, 0.0), Vec(2.0, 0.0)) == NearPair.centre
    ensures Dist2(NearPair.centre, Vec(0.0, 0.0)) == NearPair.r2
  {
  }

  lemma TripleCentre()
    ensures Mid(Collinear[0], Collinear[1]) == NearPair.centre
    ensures Dist2(NearPair.centre, Collinear[0]) == NearPair.r2
  {
    CollinearIs();
    FirstMidpoint();
  }

  lemma TripleDiscKept()
    ensures CandidateDisc(Collinear, Triple(0, 1, 2), KeepMidpoint) == Some(NearPair)
  {
    CollinearBisectorsParallel();
    ParallelBisectors(Collinear[0], Collinear[1], Collinear[2]);
    TripleCentre();
  }

  lemma TripleDiscSkipped()
    ensures CandidateDisc(Collinear, Triple(0, 1, 2), SkipTriple) == None
  {
    CollinearBisectorsParallel();
    ParallelBisectors(Collinear[0], Collinear[1], Collinear[2]);
  }

  /** Which points lie in which candidate discs. */
  lemma Containment()
    ensures !Inside(Collinear[2], NearPair)
    ensures Inside(Collinear[0], OuterPair) && Inside(Collinear[1], OuterPair) && Inside(Collinear[2], OuterPair)
    ensures !Inside(Collinear[0], FarPair)
  {
    CollinearIs();
  }

  lemma SmallerDiscs()
    ensures NearPair.r2 < FarPair.r2 < OuterPair.r2 < Initial.r2
  {
  }

  /** The containment test of each candidate over the points it does not pass through. */
  lemma NearPairMisses()
    ensures !AllPointsInCircle(Collinear, NearPair, Defining(Pair(0, 1)))
  {
    CollinearIs();
    Containment();
  }

  lemma TripleHoldsRest()
    ensures AllPointsInCircle(Collinear, NearPair, Defining(Triple(0, 1, 2)))
  {
    CollinearIs();
  }

  lemma OuterPairHoldsRest()
    ensures AllPointsInCircle(Collinear, OuterPair, Defining(Pair(0, 2)))
  {
    CollinearIs();
    Containment();
  }

  lemma OuterPairEnclosesAll()
    ensures EnclosesAll(Collinear, OuterPair)
  {
    CollinearIs();
    Containment();
  }

  lemma FarPairMisses()
    ensures !AllPointsInCircle(Collinear, FarPair, Defining(Pair(1, 2)))
  {
    CollinearIs();
    Containment();
  }

  /** Each step of the search over the collinear points, under both rules. */
  lemma NearPairRejected(rule: ParallelRule)
    ensures Consider(Collinear, Initial, Pair(0, 1), rule) == Initial
  {
    NearPairDisc(rule);
    NearPairMisses();
  }

  lemma TripleAccepted()
    ensures Consider(Collinear, Initial, Triple(0, 1, 2), KeepMidpoint) == NearPair
  {
    TripleDiscKept();
    TripleHoldsRest();
    SmallerDiscs();
  }

  lemma TripleSkippedStep()
    ensures Consider(Collinear, Initial, Triple(0, 1, 2), SkipTriple) == Initial
  {
    TripleDiscSkipped();
  }

  lemma OuterPairAfterNear()
    ensures Consider(Collinear, NearPair, Pair(0, 2), KeepMidpoint) == NearPair
  {
    OuterPairDisc(KeepMidpoint);
    SmallerDiscs();
  }

  lemma OuterPairAccepted()
    ensures Consider(Collinear, Initial, Pair(0, 2), SkipTriple) == OuterPair
  {
    OuterPairDisc(SkipTriple);
    OuterPairHoldsRest();
    SmallerDiscs();
  }

  lemma FarPairAfterNear()
    ensures Consider(Collinear, NearPair, Pair(1, 2), KeepMidpoint) == NearPair
  {
    FarPairDisc(KeepMidpoint);
    SmallerDiscs();
  }

  lemma FarPairAfterOuter()
    ensures Consider(Collinear, OuterPair, Pair(1, 2), SkipTriple) == OuterPair
  {
    FarPairDisc(SkipTriple);
    FarPairMisses();
  }

  /** For three points the search is the fold over the candidates in loop order. */
  lemma FoldOverThree(pts: seq<Vec>, rule: ParallelRule)
    requires |pts| == 3
    ensures Search(pts, rule) ==
              var d0 := Consider(pts, Initial, Pair(0, 1), rule);
              var d1 := Consider(pts, d0, Triple(0, 1, 2), rule);
              var d2 := Consider(pts, d1, Pair(0, 2), rule);
              Consider(pts, d2, Pair(1, 2), rule)
  {
    EnumerateThree();
    var E := [Pair(0, 1), Triple(0, 1, 2), Pair(0, 2), Pair(1, 2)];
    assert E[1..] == [Triple(0, 1, 2), Pair(0, 2), Pair(1, 2)];
    assert E[2..] == [Pair(0, 2), Pair(1, 2)];
    assert E[3..] == [Pair(1, 2)];
    var d0 := Consider(pts, Initial, Pair(0, 1), rule);
    var d1 := Consider(pts, d0, Triple(0, 1, 2), rule);
    var d2 := Consider(pts, d1, Pair(0, 2), rule);
    var d3 := Consider(pts, d2, Pair(1, 2), rule);
    assert SearchFrom(pts, E[3..], d2, rule) == SearchFrom(pts, [], d3, rule);
    assert SearchFrom(pts, E[2..], d1, rule) == SearchFrom(pts, E[3..], d2, rule);
    assert SearchFrom(pts, E[1..], d0, rule) == SearchFrom(pts, E[2..], d1, rule);
    assert SearchFrom(pts, E, Initial, rule) == SearchFrom(pts, E[1..], d0, rule);
  }

  /** As written, the collinear triple is accepted with the first pair's
      diameter circle, which leaves the third point outside. */
  lemma CollinearTripleEscapes()
    ensures Search(Collinear, KeepMidpoint) == NearPair
    ensures !Inside(Collinear[2], Search(Collinear, KeepMidpoint))
  {
    CollinearIs();
    FoldOverThree(Collinear, KeepMidpoint);
    NearPairRejected(KeepMidpoint);
    TripleAccepted();
    OuterPairAfterNear();
    FarPairAfterNear();
    Containment();
  }

  /** Skipping the collinear triple finds the circle on the outer pair, which holds all three points. */
  lemma CollinearTripleSkipped()
    ensures Search(Collinear, SkipTriple) == OuterPair
    ensures EnclosesAll(Collinear, OuterPair)
  {
    CollinearIs();
    FoldOverThree(Collinear, SkipTriple);
    NearPairRejected(SkipTriple);
    TripleSkippedStep();
    OuterPairAccepted();
    FarPairAfterOuter();
    OuterPairEnclosesAll();
  }
}
