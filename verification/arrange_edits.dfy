/** The arrangement itself and the edits made to it before it is applied:
    fitting the circle to the selected nodes, dragging the radius, rotating one
    point or all of them, and the guard that refuses to apply a circle whose
    points are out of order. Node positions and segment widths come from the
    game's network and are inputs here; the angle of a direction (an `atan2`)
    is a parameter. */
module ArrangeEdits {
  import opened Geometry
  import opened Angles
  import opened OrderCheck
  import opened EnclosingCircle

  function Max(a: real, b: real): (m: real)
    ensures m >= a && m >= b
    ensures m == a || m == b
  {
    if a >= b then a else b
  }

  /** The smallest radius the radius drag allows: twice the widest half-width
      of the segments between consecutive nodes, and never below 0. */
  function MinRadius(halfWidths: seq<real>): (r: real)
    ensures r >= 0.0
    ensures forall i :: 0 <= i < |halfWidths| ==> r >= halfWidths[i] * 2.0
    ensures r == 0.0 || exists i :: 0 <= i < |halfWidths| && r == halfWidths[i] * 2.0
  {
    if |halfWidths| == 0 then 0.0
    else
      var prefix := halfWidths[..|halfWidths| - 1];
      var last := |halfWidths| - 1;
      var r := Max(MinRadius(prefix), halfWidths[last] * 2.0);
      assert forall i :: 0 <= i < last ==> prefix[i] == halfWidths[i];
      r
  }

  /** The radius drag: the distance of the mouse from the centre, but never
      less than the minimum radius. */
  function DragRadius(distance: real, minRadius: real): (radius: real)
    ensures radius >= distance && radius >= minRadius
    ensures radius == distance || radius == minRadius
  {
    Max(distance, minRadius)
  }

  /** Dragging to a distance that is already allowed sets the radius to that
      distance, and repeating a drag changes nothing. */
  lemma DragRadiusSettles(distance: real, minRadius: real)
    ensures distance >= minRadius ==> DragRadius(distance, minRadius) == distance
    ensures distance < minRadius ==> DragRadius(distance, minRadius) == minRadius
    ensures DragRadius(DragRadius(distance, minRadius), minRadius) == DragRadius(distance, minRadius)
  {
  }

  /** The rotation drag: with shift held every point turns by `delta`;
      otherwise only the pressed point does, and nothing moves when no point
      was pressed (`edit == -1`). */
  function RotateNodes(nodes: seq<CirclePoint>, edit: int, delta: real, shift: bool): (r: seq<CirclePoint>)
    requires edit == -1 || 0 <= edit < |nodes|
    ensures |r| == |nodes|
    ensures forall i :: 0 <= i < |nodes| ==> r[i].id == nodes[i].id
    ensures shift ==> forall i :: 0 <= i < |nodes| ==> r[i] == Turn(nodes[i], delta)
    ensures !shift ==> forall i :: 0 <= i < |nodes| && i != edit ==> r[i] == nodes[i]
    ensures !shift && edit != -1 ==> r[edit] == Turn(nodes[edit], delta)
  {
    if shift then seq(|nodes|, i requires 0 <= i < |nodes| => Turn(nodes[i], delta))
    else if edit != -1 then nodes[edit := Turn(nodes[edit], delta)]
    else nodes
  }

  /** Dragging back by the same amount restores every point: the same nodes,
      and the same angles except that the ends of the range, 0 and 2*pi, may
      trade places. */
  lemma RotateBack(nodes: seq<CirclePoint>, edit: int, delta: real, shift: bool)
    requires edit == -1 || 0 <= edit < |nodes|
    requires forall i :: 0 <= i < |nodes| ==> 0.0 <= nodes[i].angle <= TwoPi
    ensures var back := RotateNodes(RotateNodes(nodes, edit, delta, shift), edit, -delta, shift);
            && |back| == |nodes|
            && (forall i :: 0 <= i < |nodes| ==> back[i].id == nodes[i].id)
            && (forall i :: 0 <= i < |nodes| ==>
                  || back[i].angle == nodes[i].angle
                  || (nodes[i].angle == 0.0 && back[i].angle == TwoPi)
                  || (nodes[i].angle == TwoPi && back[i].angle == 0.0))
  {
    var there := RotateNodes(nodes, edit, delta, shift);
    var back := RotateNodes(there, edit, -delta, shift);
    forall i | 0 <= i < |nodes|
      ensures || back[i].angle == nodes[i].angle
              || (nodes[i].angle == 0.0 && back[i].angle == TwoPi)
              || (nodes[i].angle == TwoPi && back[i].angle == 0.0)
    {
      if shift || i == edit {
        TurnBack(nodes[i], delta);
      }
    }
  }

  /** A node moved onto the circle, at the angle of its point. */
  datatype Move = Move(id: NodeId, angle: real)

  /** The segment between positions `from` and `to` gets its direction at the
      end that is node `from`. */
  datatype Link = Link(from: int, to: int)

  datatype ApplyOutcome = Refused | Commit(moves: seq<Move>, links: seq<Link>)

  /** The direction updates of the loop over positions `i`: towards the
      next point, then towards the previous one, with the index arithmetic of
      the source. */
  function RingLinks(n: nat): (r: seq<Link>)
    ensures |r| == 2 * n
    ensures forall i :: 0 <= i < n ==> r[2 * i] == Link(i, Next(i, n)) && r[2 * i + 1] == Link(i, Prev(i, n))
  {
    seq(2 * n, q requires 0 <= q < 2 * n =>
      var i := q / 2;
      if q % 2 == 0 then Link(i, Wrap(i + 1, n)) else Link(i, Wrap(i + n - 1, n)))
  }

  /** `Apply`: nothing happens while a point is out of order; otherwise every
      node moves to its point and every point redirects its two segments. */
  function Apply(nodes: seq<CirclePoint>, states: seq<bool>): (r: ApplyOutcome)
    ensures r.Refused? <==> WrongOrder(states)
    ensures r.Commit? ==> |r.moves| == |nodes|
    ensures r.Commit? ==> forall i :: 0 <= i < |nodes| ==> r.moves[i] == Move(nodes[i].id, nodes[i].angle)
  {
    if WrongOrder(states) then Refused
    else Commit(seq(|nodes|, i requires 0 <= i < |nodes| => Move(nodes[i].id, nodes[i].angle)), RingLinks(|nodes|))
  }

  /** When the circle is applied, every segment of the ring (between a point
      and the next one in input order) is redirected at both of its ends. */
  lemma ApplyRedirectsRing(nodes: seq<CirclePoint>, states: seq<bool>)
    requires !WrongOrder(states)
    ensures var r := Apply(nodes, states);
            var n := |nodes|;
            && r.Commit?
            && (forall i :: 0 <= i < n ==> Link(i, Next(i, n)) in r.links && Link(Next(i, n), i) in r.links)
  {
    var n := |nodes|;
    var links := RingLinks(n);
    forall i | 0 <= i < n
      ensures Link(i, Next(i, n)) in links && Link(Next(i, n), i) in links
    {
      var j := Next(i, n);
      assert links[2 * i] == Link(i, j);
      assert links[2 * j + 1] == Link(j, Prev(j, n));
    }
  }

  /** Every redirection made when the circle is applied is along a segment of the ring. */
  lemma ApplyRedirectsOnlyRing(nodes: seq<CirclePoint>, states: seq<bool>)
    requires !WrongOrder(states)
    ensures var r := Apply(nodes, states);
            var n := |nodes|;
            && r.Commit?
            && (forall l :: l in r.links ==> 0 <= l.from < n && (l.to == Next(l.from, n) || l.from == Next(l.to, n)))
  {
    var n := |nodes|;
    var links := RingLinks(n);
    forall l | l in links
      ensures 0 <= l.from < n && (l.to == Next(l.from, n) || l.from == Next(l.to, n))
    {
      var q :| 0 <= q < |links| && links[q] == l;
      var p := q / 2;
      assert q == 2 * p || q == 2 * p + 1;
    }
  }

  /** Applying a circle whose points increase in angle in input order always commits. */
  lemma IncreasingCircleApplies(nodes: seq<CirclePoint>, sorted: seq<real>, idxs: seq<int>, states: seq<bool>)
    requires SortsAngles(AnglesOf(nodes), sorted, idxs)
    requires forall a, b :: 0 <= a < b < |nodes| ==> nodes[a].angle < nodes[b].angle
    requires StatesFor(idxs, states)
    ensures Apply(nodes, states).Commit?
  {
    IncreasingInputIsInOrder(AnglesOf(nodes), sorted, idxs, states);
  }

  /** The state after fitting the circle: its centre and squared radius, the
      points, and one order flag per point. */
  datatype Arrangement = Arrangement(disc: Disc, nodes: seq<CirclePoint>, states: seq<bool>)

  /** `Calculate` followed by the flag reset of `Reset`: the smallest
      enclosing circle found by the search, then one point per node at the
      angle of its direction from the centre, with every flag set. */
  function Arrange(ids: seq<NodeId>, positions: seq<Vec>, angleOf: Vec -> real): (a: Arrangement)
    requires |ids| == |positions|
    ensures a.disc == Search(positions, SkipTriple)
    ensures |a.nodes| == |ids| && |a.states| == |ids|
    ensures forall i :: 0 <= i < |ids| ==> a.nodes[i].id == ids[i] && 0.0 <= a.nodes[i].angle <= TwoPi
    ensures forall i :: 0 <= i < |ids| ==> Congruent(a.nodes[i].angle, angleOf(Sub(positions[i], a.disc.centre)))
    ensures !WrongOrder(a.states)
  {
    var disc := Search(positions, SkipTriple);
    var nodes := seq(|ids|, i requires 0 <= i < |ids| => MakePoint(ids[i], angleOf(Sub(positions[i], disc.centre))));
    assert forall i :: 0 <= i < |ids| ==> nodes[i] == MakePoint(ids[i], angleOf(Sub(positions[i], disc.centre)));
    var states := seq(|ids|, _ => true);
    assert forall m :: 0 <= m < |states| ==> states[m];
    Arrangement(disc, nodes, states)
  }

  /** A freshly fitted circle has every flag set, so applying it commits and
      moves each selected node, in input order, onto its point. */
  lemma FreshArrangementApplies(ids: seq<NodeId>, positions: seq<Vec>, angleOf: Vec -> real)
    requires |ids| == |positions|
    ensures var a := Arrange(ids, positions, angleOf);
            var r := Apply(a.nodes, a.states);
            && r.Commit?
            && |r.moves| == |ids|
            && forall i :: 0 <= i < |ids| ==> r.moves[i].id == ids[i] && r.moves[i].angle == a.nodes[i].angle
  {
  }

  /** The fitted circle holds every selected node, unless no candidate circle
      was accepted and it is still the initial one. */
  lemma ArrangeEncloses(ids: seq<NodeId>, positions: seq<Vec>, angleOf: Vec -> real)
    requires |ids| == |positions|
    ensures var disc := Arrange(ids, positions, angleOf).disc;
            disc == Initial || EnclosesAll(positions, disc)
  {
    SearchEncloses(positions);
  }
}
