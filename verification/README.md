# NetworkMultitool: circle arrangement and connection assembly, in Dafny

This project models two pure cores of the NetworkMultitool road-editing mod
and proves properties of them.

**Arrange at circle** (`ArrangeCircle.cs`) moves a set of selected nodes onto
one circle. The model covers:

- the enclosing-circle search that fits the circle to the nodes: every pair of
  nodes, then every triple, proposes a circle, and a candidate is accepted when
  it is strictly smaller than the current one and holds every other node;
- projecting each node onto the circle as a `CirclePoint`, whose angle is
  normalised with C#'s truncated `%`;
- the order check run on every update tick:
  - the angles are insertion-sorted with `List.BinarySearch`;
  - a node is *in order* when its angular neighbour on one side is its
    neighbour in input order, cyclically;
  - a *big delta* is raised when two angularly adjacent nodes are more than a
    quarter turn apart;
- the interactive edits:
  - the radius drag and its minimum;
  - rotating one point, or all of them with shift;
  - the `Apply` guard that refuses an out-of-order circle;
  - the ring of segments `Apply` redirects.

**Create connection** (`BaseCreateConnection.cs`) joins two road ends by a
chain of arcs and straights. The model covers:

- `Init`, which builds two edge arcs and three straight slots;
- `Calculate`, which solves each arc, and-s the radius-compatibility test of
  every neighbouring pair into both arcs' flags, rebuilds the straights and
  aggregates the state;
- `GetParts`, which flattens the chain into preview points. Inner straights
  shorter than 8 units are drawn by their midpoint, while a lead or trail
  straight shorter than 8 units is not drawn at all. A straight between two
  failed arcs yields a break (`Point.Empty`);
- the `EdgeCircle` class: its offset clamps, the radius-direction setters that
  ignore the pinned end, its `Calculate`, and the `GetSides` tie-break that
  picks each edge arc's turn direction.

Floats are modelled as reals, and positions are points of the XZ plane
(heights are dropped; see "## Left out"). Distances and radii are compared as squares: `sqrt` is monotone, so every
comparison in the source keeps its outcome. `Mathf.PI` is its exact
single-precision value.

The model is organised in these files:

- `geometry.dfy`: plane vectors, the `CrossXZ` sign convention and quarter turns.
- `wrappers.dfy`: `Option`.
- `angles.dfy`: `CirclePoint` and angle normalisation.
- `order_check.dfy`: the update tick.
- `enclosing_circle.dfy`: the circle search.
- `collinear_triple.dfy`: the worked counterexample for the finding below.
- `arrange_edits.dfy`: fitting, edits and `Apply`.
- `edge_circle.dfy`: `EdgeCircle`.
- `connection.dfy`: `Init`, `Calculate` and `GetParts`.

Some behaviours of the code that the model keeps, because they are easy to
miss:

- A negative angle is stored in (0, 2π], and -2π is stored as exactly 2π: the
  `CirclePoint` constructor at `ArrangeCircle.cs:249` takes the truncated
  remainder and adds 2π to a negative one (`Angles.Normalize`,
  `Angles.NegativeTurnGivesTwoPi`).
- With fewer than two nodes the initial circle, at the origin with radius
  1000, is kept (`EnclosingCircle.FewPointsKeepInitial`).
- `Calculate` at `BaseCreateConnection.cs:156` only ever sets `Calculated` or
  `WrongShape`; the per-arc `BigRadius` and `SmallRadius` results are not
  aggregated (`Connection.Calculate`).
- A collinear triple is not skipped by the enclosing-circle search; see
  "## Findings".

## Model

| member | source | states |
|---|---|---|
| Angles.TruncRem | NetworkMultitool/ToolModes/NodeCircleMode/ArrangeCircle.cs:249 | C#'s float `%` by 2π: in [0, 2π) for a non-negative angle, in (-2π, 0] for a negative one, a whole number of turns away from the input, and zero exactly on whole turns |
| Angles.Normalize | NetworkMultitool/ToolModes/NodeCircleMode/ArrangeCircle.cs:249 | the stored angle is in [0, 2π], below 2π for non-negative input and above 0 for negative input; it equals 2π exactly for negative whole turns, and is a whole number of turns from the input |
| Angles.MakePoint | NetworkMultitool/ToolModes/NodeCircleMode/ArrangeCircle.cs:246-250 | the constructor keeps the node id and stores an angle in [0, 2π] denoting the same direction as the argument |
| Angles.Turn | NetworkMultitool/ToolModes/NodeCircleMode/ArrangeCircle.cs:258 | turning keeps the node and stores the direction of angle + delta, in [0, 2π] |
| Angles.TurnBack | NetworkMultitool/ToolModes/NodeCircleMode/ArrangeCircle.cs:258 | for any stored angle in [0, 2π], turning by delta and back by -delta restores the node and the angle, except that the ends 0 and 2π may trade places |
| Angles.NegativeTurnGivesTwoPi | NetworkMultitool/ToolModes/NodeCircleMode/ArrangeCircle.cs:249 | -2π is stored as 2π while 0 is stored as 0 |
| Angles.CongruentInRange | NetworkMultitool/ToolModes/NodeCircleMode/ArrangeCircle.cs:249 | two stored angles for the same direction are equal, or are 0 and 2π |
| OrderCheck.BinarySearch | NetworkMultitool/ToolModes/NodeCircleMode/ArrangeCircle.cs:118-120 | on a sorted list: the index of an equal element, or the complement of the insertion point, with every element before it smaller and every element after it larger |
| OrderCheck.SortAngles | NetworkMultitool/ToolModes/NodeCircleMode/ArrangeCircle.cs:113-123 | the angle list ends non-decreasing, the index list is a permutation of 0..n-1, and each sorted angle is the angle of the input it indexes |
| OrderCheck.InsertKeepsPermutation | NetworkMultitool/ToolModes/NodeCircleMode/ArrangeCircle.cs:122 | inserting the next input index at any position keeps the index list a permutation |
| OrderCheck.Wrap | NetworkMultitool/ToolModes/NodeCircleMode/ArrangeCircle.cs:128-129 | `%` on the loop's arguments (below twice the count) is the cyclic step: subtract the count once if reached |
| OrderCheck.DeltaTestIsNeighbourTest | NetworkMultitool/ToolModes/NodeCircleMode/ArrangeCircle.cs:130-132 | the `delta == 1` test with index 0 read as the count holds exactly when an angular neighbour is the cyclic input neighbour |
| OrderCheck.FlagLoop | NetworkMultitool/ToolModes/NodeCircleMode/ArrangeCircle.cs:125-134 | after the loop, the flag at each sorted position's input index is that position's neighbour test, and the big-delta flag is set iff some cyclic gap exceeds π/2 |
| OrderCheck.PositionFlagsGiveStates | NetworkMultitool/ToolModes/NodeCircleMode/ArrangeCircle.cs:132 | because the indices form a permutation, flags written per sorted position give every input node its own in-order flag |
| OrderCheck.CheckOrder | NetworkMultitool/ToolModes/NodeCircleMode/ArrangeCircle.cs:125-134 | every node's flag says whether it is in order, whatever the flags were before; big delta iff some gap exceeds a quarter turn |
| OrderCheck.UpdateOrder | NetworkMultitool/ToolModes/NodeCircleMode/ArrangeCircle.cs:109-134 | one update tick: the sort is correct, every flag is the in-order test and big delta is the gap test |
| OrderCheck.RotationIsInOrder | NetworkMultitool/ToolModes/NodeCircleMode/ArrangeCircle.cs:126-132 | when the angular order is a rotation of the input order, every node is in order |
| OrderCheck.RotationIsNotWrongOrder | NetworkMultitool/ToolModes/NodeCircleMode/ArrangeCircle.cs:126-132 | for such an order every flag is set and `IsWrongOrder` is false |
| OrderCheck.GapSumTelescopes | NetworkMultitool/ToolModes/NodeCircleMode/ArrangeCircle.cs:133 | the first k gaps add up to the k-th angle minus the first |
| OrderCheck.GapsMakeFullTurn | NetworkMultitool/ToolModes/NodeCircleMode/ArrangeCircle.cs:133 | the n cyclic gaps, the last one wrapped by 2π, always add up to 2π |
| OrderCheck.FewPointsHaveBigGap | NetworkMultitool/ToolModes/NodeCircleMode/ArrangeCircle.cs:125-134 | with one to three nodes the big-delta flag is always raised |
| OrderCheck.IncreasingInputSortsToIdentity | NetworkMultitool/ToolModes/NodeCircleMode/ArrangeCircle.cs:113-123 | angles strictly increasing in input order sort to the identity permutation and stay where they are |
| OrderCheck.IncreasingInputIsInOrder | NetworkMultitool/ToolModes/NodeCircleMode/ArrangeCircle.cs:126-132 | nodes given in strictly increasing angular order are never flagged |
| OrderCheck.SquareIsInOrder | NetworkMultitool/ToolModes/NodeCircleMode/ArrangeCircle.cs:125-134 | four nodes a quarter turn apart, in order: nothing is flagged and exact quarter-turn gaps are not big |
| OrderCheck.SwappedSquareSortOrder | NetworkMultitool/ToolModes/NodeCircleMode/ArrangeCircle.cs:113-123 | with the last two of those nodes swapped, the sort visits the inputs as 0, 1, 3, 2 |
| OrderCheck.SwappedOrderStates | NetworkMultitool/ToolModes/NodeCircleMode/ArrangeCircle.cs:126-132 | in the angular order 0, 1, 3, 2 exactly inputs 2 and 3 are flagged |
| OrderCheck.SwappedSquareFlagsSwappedPair | NetworkMultitool/ToolModes/NodeCircleMode/ArrangeCircle.cs:126-132 | swapping two nodes of the square flags exactly those two, so `IsWrongOrder` holds |
| EnclosingCircle.Circle2 | NetworkMultitool/ToolModes/NodeCircleMode/ArrangeCircle.cs:173-176 | the pair's circle, centred on the midpoint; its contract lives in the partner lemma `DiameterCircle` (both points lie on it and its diameter is their distance) |
| EnclosingCircle.AllPointsInCircle | NetworkMultitool/ToolModes/NodeCircleMode/ArrangeCircle.cs:208-220 | every point outside the ignored set is inside the circle; it is used by `Consider`, and `SearchEncloses` rests on it |
| EnclosingCircle.DiameterCircle | NetworkMultitool/ToolModes/NodeCircleMode/ArrangeCircle.cs:175-176 | the pair's circle has the distance between the two points as diameter, and both points lie on it |
| EnclosingCircle.Circle3 | NetworkMultitool/ToolModes/NodeCircleMode/ArrangeCircle.cs:189-197 | the triple yields no circle exactly when the parallel triple is skipped and the two bisectors are parallel |
| EnclosingCircle.BisectorsParallelIffCollinear | NetworkMultitool/ToolModes/NodeCircleMode/ArrangeCircle.cs:192-193 | the two bisector directions are parallel exactly when the three points are collinear |
| EnclosingCircle.ParallelBisectors | NetworkMultitool/ToolModes/NodeCircleMode/ArrangeCircle.cs:195-197 | with parallel bisectors, the code as written centres the circle on the first pair's midpoint, through the first point |
| EnclosingCircle.IntersectionOnSecondLine | NetworkMultitool/ToolModes/NodeCircleMode/ArrangeCircle.cs:195-196 | the intersection parameter on the first bisector gives a point on the second bisector |
| EnclosingCircle.CircumcentreIsEquidistant | NetworkMultitool/ToolModes/NodeCircleMode/ArrangeCircle.cs:189-197 | for non-collinear points, the triple's centre is equally far from all three points and the radius is that distance |
| EnclosingCircle.Consider | NetworkMultitool/ToolModes/NodeCircleMode/ArrangeCircle.cs:178-185 | a candidate replaces the current circle iff it is strictly smaller and holds every non-defining point; otherwise nothing changes |
| EnclosingCircle.EnumerateContents | NetworkMultitool/ToolModes/NodeCircleMode/ArrangeCircle.cs:149-158 | the nested loops propose exactly the pairs i < j and the triples i < j < k |
| EnclosingCircle.SearchFromNeverGrows | NetworkMultitool/ToolModes/NodeCircleMode/ArrangeCircle.cs:178-179 | the radius never increases along the search |
| EnclosingCircle.Search | NetworkMultitool/ToolModes/NodeCircleMode/ArrangeCircle.cs:145-161 | the nested loops from the initial circle never end on a larger circle; minimality is in `SearchIsBestCandidate` and enclosure in `SearchEncloses` |
| EnclosingCircle.SearchIsBestCandidate | NetworkMultitool/ToolModes/NodeCircleMode/ArrangeCircle.cs:146-161 | the result is no larger than radius 1000 and no larger than any candidate that holds its other points |
| EnclosingCircle.FewPointsKeepInitial | NetworkMultitool/ToolModes/NodeCircleMode/ArrangeCircle.cs:146-147 | with fewer than two points the result is the origin with radius 1000 |
| EnclosingCircle.CandidateThroughDefiningPoints | NetworkMultitool/ToolModes/NodeCircleMode/ArrangeCircle.cs:173-207 | with collinear triples skipped, every candidate circle holds the points that define it |
| EnclosingCircle.SearchEncloses | NetworkMultitool/ToolModes/NodeCircleMode/ArrangeCircle.cs:208-220 | with collinear triples skipped, the result holds every point, unless it is still the initial circle |
| CollinearTriple.EnumerateThree | NetworkMultitool/ToolModes/NodeCircleMode/ArrangeCircle.cs:149-158 | for three points the loops propose pair (0,1), triple (0,1,2), pair (0,2), pair (1,2), in that order |
| CollinearTriple.FoldOverThree | NetworkMultitool/ToolModes/NodeCircleMode/ArrangeCircle.cs:143-161 | for three points the search is the acceptance rule applied to those four candidates in order |
| CollinearTriple.CollinearTripleEscapes | NetworkMultitool/ToolModes/NodeCircleMode/ArrangeCircle.cs:187-206 | as written, for (0,0), (2,0), (10,0) the search ends on centre (1,0) with radius 1, and (10,0) lies outside it |
| CollinearTriple.CollinearTripleSkipped | NetworkMultitool/ToolModes/NodeCircleMode/ArrangeCircle.cs:187-206 | skipping the collinear triple ends on centre (5,0) with radius 5, which holds all three points |
| ArrangeEdits.MinRadius | NetworkMultitool/ToolModes/NodeCircleMode/ArrangeCircle.cs:470-476 | the minimum radius is at least 0 and at least twice every half-width, and it is 0 or one of them |
| ArrangeEdits.DragRadius | NetworkMultitool/ToolModes/NodeCircleMode/ArrangeCircle.cs:495 | the dragged radius is at least the mouse distance and the minimum, and equals one of them |
| ArrangeEdits.DragRadiusSettles | NetworkMultitool/ToolModes/NodeCircleMode/ArrangeCircle.cs:495 | an allowed distance is taken as it is, a smaller one gives the minimum, and repeating a drag changes nothing |
| ArrangeEdits.RotateNodes | NetworkMultitool/ToolModes/NodeCircleMode/ArrangeCircle.cs:537-543 | with shift every point turns by delta; otherwise only the pressed point turns, and nothing changes when none was pressed |
| ArrangeEdits.RotateBack | NetworkMultitool/ToolModes/NodeCircleMode/ArrangeCircle.cs:537-543 | for stored angles in [0, 2π], a drag by delta followed by a drag by -delta restores every node and angle, up to the ends 0 and 2π trading places |
| ArrangeEdits.RingLinks | NetworkMultitool/ToolModes/NodeCircleMode/ArrangeCircle.cs:388-392 | the loop redirects each point's segment to the next point, then to the previous point, cyclically |
| ArrangeEdits.Apply | NetworkMultitool/ToolModes/NodeCircleMode/ArrangeCircle.cs:373-392 | it refuses iff some point is flagged out of order; otherwise every node moves to its own point |
| ArrangeEdits.ApplyRedirectsRing | NetworkMultitool/ToolModes/NodeCircleMode/ArrangeCircle.cs:388-392 | every segment of the ring is redirected at both of its ends |
| ArrangeEdits.ApplyRedirectsOnlyRing | NetworkMultitool/ToolModes/NodeCircleMode/ArrangeCircle.cs:388-392 | every redirection is along a segment of the ring |
| ArrangeEdits.IncreasingCircleApplies | NetworkMultitool/ToolModes/NodeCircleMode/ArrangeCircle.cs:373-376 | a circle whose angles increase in input order is always applied |
| ArrangeEdits.Arrange | NetworkMultitool/ToolModes/NodeCircleMode/ArrangeCircle.cs:143-171 | the fitted circle is the search result; each node keeps its id and gets the direction of its position from the centre as an angle in [0, 2π] |
| ArrangeEdits.FreshArrangementApplies | NetworkMultitool/ToolModes/NodeCircleMode/ArrangeCircle.cs:99-100 | every flag is reset to set, so a freshly fitted circle is applied and moves each node, in input order, to its point |
| ArrangeEdits.ArrangeEncloses | NetworkMultitool/ToolModes/NodeCircleMode/ArrangeCircle.cs:143-161 | with the corrected triple rule, the fitted circle holds every selected node, unless it is still the initial circle |
| EdgeCircles.NewEdge | NetworkMultitool/ToolModes/ConnectionModes/BaseCreateConnection.cs:282-286 | a new edge arc has its kind and guide and is pinned at offset 0 |
| EdgeCircles.SetOffset | NetworkMultitool/ToolModes/ConnectionModes/BaseCreateConnection.cs:276-280 | the stored offset is never negative: a negative write stores 0, any other write stores the value; nothing else changes |
| EdgeCircles.SetCentre | NetworkMultitool/ToolModes/ConnectionModes/BaseCreateConnection.cs:235-250 | moving the centre sets only the offset, to the projection parameter clamped to [0, 500] |
| EdgeCircles.SetCentreSettles | NetworkMultitool/ToolModes/ConnectionModes/BaseCreateConnection.cs:247-248 | moving the centre to where an arc with an offset in [0, 500] already sits changes nothing, and doing it twice is doing it once |
| EdgeCircles.SetStartRadiusDir | NetworkMultitool/ToolModes/ConnectionModes/BaseCreateConnection.cs:251-259 | a write never moves the pinned end (its position, direction and radius direction); a last arc's free start takes the value; nothing else changes |
| EdgeCircles.SetEndRadiusDir | NetworkMultitool/ToolModes/ConnectionModes/BaseCreateConnection.cs:260-268 | a write never moves the pinned end (its position, direction and radius direction); a first arc's free end takes the value; nothing else changes |
| EdgeCircles.RadiusDirWritesKeepPinnedEnd | NetworkMultitool/ToolModes/ConnectionModes/BaseCreateConnection.cs:251-268 | writing both radius directions, in either order, gives the same arc: the pinned end and the centre, radius and offset stay, and the free end has the value written for it |
| EdgeCircles.Calculate | NetworkMultitool/ToolModes/ConnectionModes/BaseCreateConnection.cs:288-303 | a failed base solve is returned unchanged; on success the result is `Calculated`, the radius is the solver's, the free end takes the radius direction the solver and the connect step leave there, and guide, offset and side are kept |
| Geometry.TurnTowards | NetworkMultitool/ToolModes/NodeCircleMode/ArrangeCircle.cs:408 | turning a direction a quarter in the sense given by the sign of `CrossXZ` with a target direction gives a vector pointing toward the target, strictly unless the two are parallel |
| EdgeCircles.PinnedEndOnArc | NetworkMultitool/ToolModes/ConnectionModes/BaseCreateConnection.cs:288-303 | after a successful solve the pinned point on the guide lies one radius from the centre along the radius direction, which is perpendicular to the guide |
| EdgeCircles.CalculateIdempotent | NetworkMultitool/ToolModes/ConnectionModes/BaseCreateConnection.cs:288-303 | solving again with the same base outcome changes nothing |
| EdgeCircles.ResolveLastDir | NetworkMultitool/ToolModes/ConnectionModes/BaseCreateConnection.cs:319-325 | when the two dot tests disagree the adjusted last flag equals the first flag; when they agree it is unchanged |
| EdgeCircles.GetSides | NetworkMultitool/ToolModes/ConnectionModes/BaseCreateConnection.cs:310-329 | only the two arcs' sides change |
| EdgeCircles.SidesOppositeWhenDotsDiffer | NetworkMultitool/ToolModes/ConnectionModes/BaseCreateConnection.cs:310-329 | when the dot tests disagree the two arcs get opposite sides; otherwise each side follows its own cross test |
| EdgeCircles.CentresFaceEachOther | NetworkMultitool/ToolModes/ConnectionModes/BaseCreateConnection.cs:288-329 | with the sides from `GetSides`, a solved first arc's centre lies on the side of its guide facing the last arc's pinned end; outside the S-curve case the last arc's centre faces the first arc's pinned end |
| EdgeCircles.FirstArcBendsTowardOtherEnd | NetworkMultitool/ToolModes/ConnectionModes/BaseCreateConnection.cs:288-329 | a first arc heading along +x from (0, 0), with the other end at (0, 10) and radius 1, turns left and is centred at (0, 1) |
| Connection.Init | NetworkMultitool/ToolModes/ConnectionModes/BaseCreateConnection.cs:112-126 | the chain is a first and a last edge arc on the two guides, pinned at the guides' starts, with their sides set by `GetSides`, and three unbuilt straights (one more than arcs) |
| Connection.CorrectFlags | NetworkMultitool/ToolModes/ConnectionModes/BaseCreateConnection.cs:131-139 | an arc is correct iff its own solve succeeded and the pair test with each existing neighbour passed |
| Connection.PropagatePairs | NetworkMultitool/ToolModes/ConnectionModes/BaseCreateConnection.cs:134-139 | the source's and-ing loop computes exactly those flags |
| Connection.FlagsOnlyClear | NetworkMultitool/ToolModes/ConnectionModes/BaseCreateConnection.cs:134-139 | the pair pass only clears flags, and all flags stay set iff every own solve and every pair test succeeded |
| Connection.SolveArc | NetworkMultitool/ToolModes/ConnectionModes/BaseCreateConnection.cs:131-132 | an arc's flag is its own solver's verdict and its samples are the ones the solver redrew; an edge arc is solved by `EdgeCircle.Calculate`, a free arc keeps its shape |
| Connection.Calculate | NetworkMultitool/ToolModes/ConnectionModes/BaseCreateConnection.cs:127-157 | the chain keeps its shape and counts, every arc takes its redrawn samples and every straight is rebuilt, each flag is own-and-neighbours, and the state is `Calculated` iff every arc is correct, else `WrongShape` |
| Connection.CalculateState | NetworkMultitool/ToolModes/ConnectionModes/BaseCreateConnection.cs:156 | the state is `Calculated` iff every own solve and every neighbour test succeeded |
| Connection.CalculateIdempotent | NetworkMultitool/ToolModes/ConnectionModes/BaseCreateConnection.cs:127-157 | calculating again with the same solver outcomes gives the same chain |
| Connection.CalculatedEdgesPinned | NetworkMultitool/ToolModes/ConnectionModes/BaseCreateConnection.cs:131-132 | after calculating, a successfully solved edge arc keeps its guide and offset and passes through its pinned point |
| Connection.Visits | NetworkMultitool/ToolModes/ConnectionModes/BaseCreateConnection.cs:169-182 | the loop runs C+S-2 steps; step 2j is arc j and step 2j-1 is straight j; with S = C+1 every step names an existing arc or interior straight |
| Connection.VisitsInterleave | NetworkMultitool/ToolModes/ConnectionModes/BaseCreateConnection.cs:169-200 | with one more straight than arcs, the loop visits arc 0, straight 1, arc 1, ..., arc C-1: 2C-1 steps in chain order |
| Connection.StepPoints | NetworkMultitool/ToolModes/ConnectionModes/BaseCreateConnection.cs:171-199 | a failed arc gives nothing and a correct one its parts; a straight between two failed arcs gives one break; otherwise a short straight gives its midpoint and a long one its start, parts and end |
| Connection.Lead | NetworkMultitool/ToolModes/ConnectionModes/BaseCreateConnection.cs:161-167 | the first straight contributes only when at least 8 long: its parts, then its end |
| Connection.Trail | NetworkMultitool/ToolModes/ConnectionModes/BaseCreateConnection.cs:202-208 | the last straight contributes only when at least 8 long: its start, then its parts |
| Connection.GetParts | NetworkMultitool/ToolModes/ConnectionModes/BaseCreateConnection.cs:159-209 | the preview of a calculated chain; its contract lives in the partner lemmas `GetPartsInChainOrder` (chain order), `BreakIffBothNeighboursFail` and `FailedArcIgnored` |
| Connection.GetPartsInChainOrder | NetworkMultitool/ToolModes/ConnectionModes/BaseCreateConnection.cs:159-209 | the preview is the first straight, then each arc and interior straight in chain order, then the last straight |
| Connection.BreakIffBothNeighboursFail | NetworkMultitool/ToolModes/ConnectionModes/BaseCreateConnection.cs:183-187 | when no part carries a break of its own, the preview has a break iff two neighbouring arcs both failed |
| Connection.FailedArcIgnored | NetworkMultitool/ToolModes/ConnectionModes/BaseCreateConnection.cs:174-175 | a failed arc's parts never reach the preview: replacing them leaves it unchanged |

## Left out

- Rendering, labels, info strings, shortcuts, mode switching, hover and mouse hit-testing: interface plumbing with no logic to model.
- Reads and writes of the game's network are not modelled: `GetNode().m_position`, `MoveNode`, `SetDirection`, `SetSegmentDirection`, `GetCommon`, `UpdateNode` and `UpdateTerrain`. Node positions and segment half-widths are inputs. `Apply` is modelled as the moves and the (point, neighbour) redirections it would issue.
- Node heights are dropped: the model measures every distance in the XZ plane. In the source, `GetPoint` (`ArrangeCircle.cs:168-170`) and `CirclePoint.GetPositions` (`ArrangeCircle.cs:252-257`) flatten a node to the centre's height, but in the enclosing-circle search nothing flattens: `GetCircle2Points`, `GetCircle3Points` and `AllPointsInCircle` take 3D distances between unflattened positions, so its radii and containment tests depend on height. The model agrees with the source when all selected nodes are at one height.
- The move-centre drag mode and the double-click reset of the centre or of one node are not modelled. They only assign a stored centre, or re-run the projection that `ArrangeEdits.Arrange` models.
- The general circle solver (`Circle.Calculate`), `Circle.CheckRadii`, `Circle.GetStraight`, `EdgeCircle.GetStraight`, `Circle.SetConnect` and the contents of `Parts`, `Length`, `Position` and `Tangent` are not part of this model. Their results enter as inputs: per-arc outcomes (including the radius direction left at an edge arc's free end), per-pair verdicts, rebuilt straights and opaque part sequences.
- `Line2.Intersect`, `Intersection.CalculateSingle`, `AbsoluteAngle`, `MakeFlatNormalized` and `Turn90` belong to libraries that are not part of this model. `Turn90` is modelled as an exact quarter turn, `(z, -x)` when clockwise and `(-z, x)` otherwise. `CrossXZ(a, b)` is modelled as `a.z*b.x - a.x*b.z`, the height component of `Vector3.Cross(a, b)`, and `DotXZ` as the plane dot product. Neither library is visible here; the pairing of the two signs is the one `SetDirection` (ArrangeCircle.cs:408) needs to turn toward the next node, and `Geometry.TurnTowards` states it. The side on which an edge arc's centre falls depends on this pairing. The angle of a direction is a function parameter of `ArrangeEdits.Arrange`.
- Floating-point rounding is not modelled: all arithmetic is on reals. `Mathf.PI` is its exact single-precision value.
- ArrangeEdits.DragRadius: the shift/ctrl/alt snapping of the radius to 10, 1 or 0.1 before the clamp is not modelled; the clamp is.
- ArrangeEdits.Arrange: the radius is kept squared, distances are XZ distances rather than the source's 3D ones, and the angle function is a parameter rather than `atan2`. The fitted circle uses the corrected triple rule of "## Findings".
- EdgeCircles.SetCentre: the parameter where the normal through the new centre meets the guide is an input, because `Intersection.CalculateSingle` is not shown; only the clamp and what it leaves unchanged are stated.
- EdgeCircles.Calculate: when the base solver fails, any effect it has on the circle is not modelled; the circle is returned as it was. On success the free end's radius direction is an input, the value `Circle.Calculate` and `Circle.SetConnect` leave there. A write to the offset that such unseen code could make through the virtual `CenterPos` setter is not modelled: the offset is kept.
- Connection.Init: `ResetData` and the labels are not modelled. The state is passed through, and new arcs start with an unset flag and no parts.
- EnclosingCircle.ParallelBisectors: `Line2.Intersect` is taken to report parameter 0 for parallel lines. The finding below relies on that value, or at least on a small one: with the source's unit bisector direction a parameter p gives the triple the radius sqrt(1 + p²) for the finding's points, and once p² > 24 the outer pair (radius 5) replaces the triple and the search ends on a circle that holds all three points.

## Findings

| source | as written | input that shows it | evidently intended | confidence | as-written member | corrected member |
|---|---|---|---|---|---|---|
| NetworkMultitool/ToolModes/NodeCircleMode/ArrangeCircle.cs:187-206 | For a collinear triple the two perpendicular bisectors are parallel, so the intersection gives no real circumcentre. The circle is then built on the first bisector. With three points, `AllPointsInCircle` ignores all of them and accepts any circle, so the result need not contain the third point. This relies on `Line2.Intersect` reporting parameter 0, or one with p² ≤ 24, for parallel lines. | nodes at (0,0), (2,0), (10,0): the triple proposes centre (1,0), radius 1. It is accepted, and no later pair is smaller, so the arrangement circle misses (10,0) | skip a triple whose bisectors are parallel; the pair (0,2) then gives centre (5,0), radius 5, holding all three nodes | not executed | CollinearTriple.CollinearTripleEscapes | CollinearTriple.CollinearTripleSkipped |

The corrected rule is `SkipTriple` in `EnclosingCircle`. Under it, every
accepted circle holds all the points (`EnclosingCircle.SearchEncloses`), and
the rest of the model uses it (`ArrangeEdits.Arrange`).
