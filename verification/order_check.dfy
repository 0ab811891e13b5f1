/** The order check the arrangement mode runs on every update tick: the points'
    angles are insertion-sorted (with a binary search for the insertion
    position), each point is marked in order when one of its angular neighbours
    is its neighbour in input order, and a flag is raised when two angularly
    adjacent points are more than a quarter turn apart. */
module OrderCheck {
  import opened Angles

  /** Non-decreasing. */
  predicate Sorted(s: seq<real>) {
    forall p, q :: 0 <= p < q < |s| ==> s[p] <= s[q]
  }

  /** `idxs` lists each of 0 .. |idxs|-1 exactly once. */
  predicate IsPermutation(idxs: seq<int>) {
    && (forall p :: 0 <= p < |idxs| ==> 0 <= idxs[p] < |idxs|)
    && (forall p, q :: 0 <= p < q < |idxs| ==> idxs[p] != idxs[q])
    && (forall m :: 0 <= m < |idxs| ==> m in idxs)
  }

  /** `sorted` is `angles` in non-decreasing order and `idxs[p]` is the input
      index of the angle at sorted position `p`. */
  predicate SortsAngles(angles: seq<real>, sorted: seq<real>, idxs: seq<int>) {
    && |sorted| == |angles|
    && |idxs| == |angles|
    && Sorted(sorted)
    && IsPermutation(idxs)
    && forall p :: 0 <= p < |idxs| ==> sorted[p] == angles[idxs[p]]
  }

  function AnglesOf(nodes: seq<CirclePoint>): (a: seq<real>)
    ensures |a| == |nodes|
    ensures forall i :: 0 <= i < |nodes| ==> a[i] == nodes[i].angle
  {
    seq(|nodes|, i requires 0 <= i < |nodes| => nodes[i].angle)
  }

  /** C#'s bitwise complement `~x` on a two's-complement integer. */
  function Complement(x: int): int { -x - 1 }

  /** `List<float>.BinarySearch` on a sorted list: the index of an element equal
      to `value` if there is one, otherwise the complement of the index of the
      first element larger than `value`. */
  method BinarySearch(list: seq<real>, value: real) returns (index: int)
    requires Sorted(list)
    ensures 0 <= index ==> index < |list| && list[index] == value
    ensures index < 0 ==> Complement(index) <= |list|
    ensures index < 0 ==> forall p :: 0 <= p < Complement(index) ==> list[p] < value
    ensures index < 0 ==> forall p :: Complement(index) <= p < |list| ==> value < list[p]
  {
    var lo, hi := 0, |list| - 1;
    while lo <= hi
      invariant 0 <= lo <= hi + 1 <= |list|
      invariant forall p :: 0 <= p < lo ==> list[p] < value
      invariant forall p :: hi < p < |list| ==> value < list[p]
      decreases hi - lo
    {
      var mid := lo + (hi - lo) / 2;
      if list[mid] == value {
        return mid;
      } else if list[mid] < value {
        lo := mid + 1;
      } else {
        hi := mid - 1;
      }
    }
    return Complement(lo);
  }

  /** The insertion loop of the update tick: every angle is inserted at the
      position the binary search reports, and its input index is inserted at
      the same position of a parallel list. */
  method SortAngles(angles: seq<real>) returns (sorted: seq<real>, idxs: seq<int>)
    ensures SortsAngles(angles, sorted, idxs)
  {
    sorted, idxs := [], [];
    for i := 0 to |angles|
      invariant |sorted| == i && |idxs| == i
      invariant Sorted(sorted)
      invariant IsPermutation(idxs)
      invariant forall p :: 0 <= p < i ==> sorted[p] == angles[idxs[p]]
    {
      var index := BinarySearch(sorted, angles[i]);
      if index < 0 {
        index := Complement(index);
      }
      assert forall p :: 0 <= p < index ==> sorted[p] <= angles[i];
      assert forall p :: index <= p < i ==> angles[i] <= sorted[p];
      InsertKeepsPermutation(idxs, index);
      InsertKeepsSorted(sorted, angles[i], index);
      InsertKeepsPairing(angles, sorted, idxs, index);
      sorted := sorted[..index] + [angles[i]] + sorted[index..];
      idxs := idxs[..index] + [i] + idxs[index..];
    }
  }

  lemma InsertKeepsSorted(sorted: seq<real>, x: real, index: int)
    requires Sorted(sorted) && 0 <= index <= |sorted|
    requires forall p :: 0 <= p < index ==> sorted[p] <= x
    requires forall p :: index <= p < |sorted| ==> x <= sorted[p]
    ensures Sorted(sorted[..index] + [x] + sorted[index..])
  {
    var r := sorted[..index] + [x] + sorted[index..];
    assert forall p :: 0 <= p < index ==> r[p] == sorted[p];
    assert forall p :: index < p < |r| ==> r[p] == sorted[p - 1];
  }

  lemma InsertKeepsPairing(angles: seq<real>, sorted: seq<real>, idxs: seq<int>, index: int)
    requires |sorted| == |idxs| < |angles| && 0 <= index <= |idxs|
    requires forall p :: 0 <= p < |idxs| ==> 0 <= idxs[p] < |angles| && sorted[p] == angles[idxs[p]]
    ensures var s := sorted[..index] + [angles[|idxs|]] + sorted[index..];
            var x := idxs[..index] + [|idxs|] + idxs[index..];
            forall p :: 0 <= p < |x| ==> 0 <= x[p] < |angles| && s[p] == angles[x[p]]
  {
    var s := sorted[..index] + [angles[|idxs|]] + sorted[index..];
    var x := idxs[..index] + [|idxs|] + idxs[index..];
    forall p | 0 <= p < |x|
      ensures 0 <= x[p] < |angles| && s[p] == angles[x[p]]
    {
      if p < index {
        assert s[p] == sorted[p] && x[p] == idxs[p];
      } else if p > index {
        assert s[p] == sorted[p - 1] && x[p] == idxs[p - 1];
      }
    }
  }

  lemma InsertKeepsPermutation(idxs: seq<int>, index: int)
    requires IsPermutation(idxs) && 0 <= index <= |idxs|
    ensures IsPermutation(idxs[..index] + [|idxs|] + idxs[index..])
  {
    var n := |idxs|;
    var r := idxs[..index] + [n] + idxs[index..];
    assert forall p :: 0 <= p < index ==> r[p] == idxs[p];
    assert forall p :: index < p <= n ==> r[p] == idxs[p - 1];
    forall m | 0 <= m < n + 1
      ensures m in r
    {
      if m == n {
        assert r[index] == m;
      } else {
        var q := PosOf(idxs, m);
        if q < index {
          assert r[q] == m;
        } else {
          assert r[q + 1] == m;
        }
      }
    }
  }

  /** The index before `p` in a cycle of length `n`. */
  function Prev(p: int, n: int): int { if p == 0 then n - 1 else p - 1 }

  /** The index after `p` in a cycle of length `n`. */
  function Next(p: int, n: int): int { if p + 1 == n then 0 else p + 1 }

  /** Where input index `m` sits in the angular order. */
  function PosOf(idxs: seq<int>, m: int): (p: nat)
    requires m in idxs
    ensures p < |idxs| && idxs[p] == m
  {
    if idxs[0] == m then 0 else 1 + PosOf(idxs[1..], m)
  }

  /** Input index of the point angularly before input index `m` (cyclically). */
  function AngularPred(idxs: seq<int>, m: int): int
    requires m in idxs
  {
    idxs[Prev(PosOf(idxs, m), |idxs|)]
  }

  /** Input index of the point angularly after input index `m` (cyclically). */
  function AngularSucc(idxs: seq<int>, m: int): int
    requires m in idxs
  {
    idxs[Next(PosOf(idxs, m), |idxs|)]
  }

  /** Input index `m` keeps its adjacency: its angular predecessor is its
      predecessor in input order or its angular successor is its successor in
      input order, both taken cyclically. */
  predicate InOrder(idxs: seq<int>, m: int)
    requires m in idxs
  {
    var n := |idxs|;
    AngularPred(idxs, m) == Prev(m, n) || AngularSucc(idxs, m) == Next(m, n)
  }

  /** `InOrder` for the point at sorted position `p`. */
  predicate InOrderAt(idxs: seq<int>, p: int)
    requires 0 <= p < |idxs|
  {
    var n := |idxs|;
    idxs[Prev(p, n)] == Prev(idxs[p], n) || idxs[Next(p, n)] == Next(idxs[p], n)
  }

  /** The per-point flags agree with `InOrder` for every input index. */
  predicate StatesFor(idxs: seq<int>, states: seq<bool>)
    requires IsPermutation(idxs)
  {
    |states| == |idxs| && forall m :: 0 <= m < |idxs| ==> (states[m] <==> InOrder(idxs, m))
  }

  /** `IsWrongOrder`: some point is flagged out of order. */
  predicate WrongOrder(states: seq<bool>) {
    exists m :: 0 <= m < |states| && !states[m]
  }

  /** Angular distance from sorted position `j` to the next one; the gap from
      the last position back to the first wraps with one full turn. */
  function Gap(sorted: seq<real>, j: int): real
    requires 0 <= j < |sorted|
  {
    var k := Next(j, |sorted|);
    sorted[k] + (if k == 0 then TwoPi else 0.0) - sorted[j]
  }

  /** `IsBigDelta`: two angularly adjacent points are more than a quarter turn apart. */
  predicate HasBigGap(sorted: seq<real>) {
    exists j :: 0 <= j < |sorted| && Gap(sorted, j) > Pi / 2.0
  }

  /** C#'s `x % n` for `0 <= x < 2n`, which is how the source steps around the
      cycle of sorted positions. */
  function Wrap(x: int, n: int): (r: int)
    requires 0 <= x < 2 * n
    ensures r == if x < n then x else x - n
  {
    if x < n then
      assert x == 0 * n + x;
      x % n
    else
      assert x == 1 * n + (x - n);
      x % n
  }

  /** The source's test `(idx != 0 ? idx : count) - prev == 1` is the cyclic
      predecessor test: substituting the count for index 0 makes the last input
      index the predecessor of the first. */
  lemma DeltaTestIsNeighbourTest(idxs: seq<int>, j: int)
    requires forall p :: 0 <= p < |idxs| ==> 0 <= idxs[p] < |idxs|
    requires 0 <= j < |idxs|
    ensures var n := |idxs|;
            var i := Prev(j, n);
            var k := Next(j, n);
            ((if idxs[j] != 0 then idxs[j] else n) - idxs[i] == 1
             || (if idxs[k] != 0 then idxs[k] else n) - idxs[j] == 1)
            <==> InOrderAt(idxs, j)
  {
  }

  /** The flag loop of the update tick. Every input index is written exactly
      once because `idxs` is a permutation, so the flags from the previous tick
      (`prior`) never survive. */
  method CheckOrder(sorted: seq<real>, idxs: seq<int>, prior: seq<bool>) returns (states: seq<bool>, bigDelta: bool)
    requires |sorted| == |idxs| && |prior| == |idxs|
    requires IsPermutation(idxs)
    ensures StatesFor(idxs, states)
    ensures bigDelta <==> HasBigGap(sorted)
  {
    states, bigDelta := FlagLoop(sorted, idxs, prior);
    PositionFlagsGiveStates(idxs, states);
  }

  method FlagLoop(sorted: seq<real>, idxs: seq<int>, prior: seq<bool>) returns (states: seq<bool>, bigDelta: bool)
    requires |sorted| == |idxs| && |prior| == |idxs|
    requires forall p :: 0 <= p < |idxs| ==> 0 <= idxs[p] < |idxs|
    requires forall p, q :: 0 <= p < q < |idxs| ==> idxs[p] != idxs[q]
    ensures |states| == |idxs|
    ensures forall p :: 0 <= p < |idxs| ==> (states[idxs[p]] <==> InOrderAt(idxs, p))
    ensures bigDelta <==> HasBigGap(sorted)
  {
    var n := |idxs|;
    states, bigDelta := prior, false;
    for j := 0 to n
      invariant |states| == n
      invariant forall p {:trigger states[idxs[p]]} :: 0 <= p < j ==> (states[idxs[p]] <==> InOrderAt(idxs, p))
      invariant bigDelta <==> exists p :: 0 <= p < j && Gap(sorted, p) > Pi / 2.0
    {
      var i := Wrap(j - 1 + n, n);
      var k := Wrap(j + 1, n);
      var delta1 := (if idxs[j] != 0 then idxs[j] else n) - idxs[i];
      var delta2 := (if idxs[k] != 0 then idxs[k] else n) - idxs[j];
      DeltaTestIsNeighbourTest(idxs, j);
      var flag := delta1 == 1 || delta2 == 1;
      FlagUpdate(idxs, states, j, flag);
      states := states[idxs[j] := flag];
      var gap := sorted[k] + (if k == 0 then TwoPi else 0.0) - sorted[j];
      assert gap == Gap(sorted, j);
      bigDelta := bigDelta || gap > Pi / 2.0;
    }
  }

  lemma PositionFlagsGiveStates(idxs: seq<int>, states: seq<bool>)
    requires IsPermutation(idxs) && |states| == |idxs|
    requires forall p :: 0 <= p < |idxs| ==> (states[idxs[p]] <==> InOrderAt(idxs, p))
    ensures StatesFor(idxs, states)
  {
    forall m | 0 <= m < |idxs|
      ensures states[m] <==> InOrder(idxs, m)
    {
      var p := PosOf(idxs, m);
      assert states[idxs[p]] <==> InOrderAt(idxs, p);
    }
  }

  lemma FlagUpdate(idxs: seq<int>, states: seq<bool>, j: int, flag: bool)
    requires 0 <= j < |idxs| == |states|
    requires forall p :: 0 <= p < |idxs| ==> 0 <= idxs[p] < |idxs|
    requires forall p, q :: 0 <= p < q < |idxs| ==> idxs[p] != idxs[q]
    requires flag <==> InOrderAt(idxs, j)
    requires forall p {:trigger states[idxs[p]]} :: 0 <= p < j ==> (states[idxs[p]] <==> InOrderAt(idxs, p))
    ensures forall p {:trigger states[idxs[j] := flag][idxs[p]]} :: 0 <= p <= j ==> (states[idxs[j] := flag][idxs[p]] <==> InOrderAt(idxs, p))
  {
    var s := states[idxs[j] := flag];
    forall p | 0 <= p <= j
      ensures s[idxs[p]] <==> InOrderAt(idxs, p)
    {
      if p < j {
        assert idxs[p] != idxs[j];
        assert s[idxs[p]] == states[idxs[p]];
      }
    }
  }

  /** One update tick: sort the current angles, then flag every point. */
  method UpdateOrder(nodes: seq<CirclePoint>, prior: seq<bool>)
    returns (sorted: seq<real>, idxs: seq<int>, states: seq<bool>, bigDelta: bool)
    requires |prior| == |nodes|
    ensures SortsAngles(AnglesOf(nodes), sorted, idxs)
    ensures StatesFor(idxs, states)
    ensures bigDelta <==> HasBigGap(sorted)
  {
    sorted, idxs := SortAngles(AnglesOf(nodes));
    states, bigDelta := CheckOrder(sorted, idxs, prior);
  }

  /** `idxs` lists the input indices starting from `r` and wrapping around:
      the points lie around the circle in input order, starting anywhere. */
  predicate IsRotation(idxs: seq<int>, r: int) {
    forall p :: 0 <= p < |idxs| ==> idxs[p] == if p + r < |idxs| then p + r else p + r - |idxs|
  }

  /** When the angular order is a rotation of the input order, every point is in order. */
  lemma RotationIsInOrder(idxs: seq<int>, r: int)
    requires IsPermutation(idxs) && 0 <= r < |idxs|
    requires IsRotation(idxs, r)
    ensures forall m :: 0 <= m < |idxs| ==> InOrder(idxs, m)
  {
    var n := |idxs|;
    forall p | 0 <= p < n
      ensures InOrderAt(idxs, p)
    {
      assert idxs[Next(p, n)] == Next(idxs[p], n);
    }
    forall m | 0 <= m < n
      ensures InOrder(idxs, m)
    {
      assert InOrderAt(idxs, PosOf(idxs, m));
    }
  }

  /** ... so the update tick flags nothing and `IsWrongOrder` is false. */
  lemma RotationIsNotWrongOrder(idxs: seq<int>, states: seq<bool>, r: int)
    requires IsPermutation(idxs) && 0 <= r < |idxs|
    requires IsRotation(idxs, r)
    requires StatesFor(idxs, states)
    ensures forall m :: 0 <= m < |states| ==> states[m]
    ensures !WrongOrder(states)
  {
    RotationIsInOrder(idxs, r);
  }

  /** Sum of the first `k` cyclic gaps. */
  function GapSum(sorted: seq<real>, k: nat): real
    requires k <= |sorted|
  {
    if k == 0 then 0.0 else GapSum(sorted, k - 1) + Gap(sorted, k - 1)
  }

  lemma {:induction false} GapSumTelescopes(sorted: seq<real>, k: nat)
    requires k < |sorted|
    ensures GapSum(sorted, k) == sorted[k] - sorted[0]
  {
    if k > 0 {
      GapSumTelescopes(sorted, k - 1);
    }
  }

  /** The cyclic gaps add up to one full turn, whatever the angles. */
  lemma GapsMakeFullTurn(sorted: seq<real>)
    requires |sorted| > 0
    ensures GapSum(sorted, |sorted|) == TwoPi
  {
    GapSumTelescopes(sorted, |sorted| - 1);
  }

  lemma {:induction false} GapSumBounded(sorted: seq<real>, k: nat, bound: real)
    requires k <= |sorted|
    requires forall j :: 0 <= j < k ==> Gap(sorted, j) <= bound
    ensures GapSum(sorted, k) <= k as real * bound
  {
    if k > 0 {
      GapSumBounded(sorted, k - 1, bound);
    }
  }

  /** With one to three points some gap is always larger than a quarter turn,
      because the gaps make a full turn. */
  lemma FewPointsHaveBigGap(sorted: seq<real>)
    requires 1 <= |sorted| <= 3
    ensures HasBigGap(sorted)
  {
    if !HasBigGap(sorted) {
      GapsMakeFullTurn(sorted);
      GapSumBounded(sorted, |sorted|, Pi / 2.0);
      assert false;
    }
  }

  /** For angles that already increase in input order, the sort keeps input
      positions: index `p` is sorted into position `p`. */
  lemma IncreasingInputSortsToIdentity(angles: seq<real>, sorted: seq<real>, idxs: seq<int>)
    requires SortsAngles(angles, sorted, idxs)
    requires forall a, b :: 0 <= a < b < |angles| ==> angles[a] < angles[b]
    ensures forall p :: 0 <= p < |idxs| ==> idxs[p] == p
    ensures sorted == angles
  {
    forall p, q | 0 <= p < q < |idxs|
      ensures idxs[p] < idxs[q]
    {
      var a, c := idxs[p], idxs[q];
      assert angles[a] == sorted[p] <= sorted[q] == angles[c];
      assert a != c;
    }
    IncreasingIndicesFromBelow(idxs, |idxs| - 1);
    IncreasingIndicesFromAbove(idxs, 0);
    forall p | 0 <= p < |sorted|
      ensures sorted[p] == angles[p]
    {
      assert idxs[p] == p;
    }
  }

  lemma {:induction false} IncreasingIndicesFromBelow(s: seq<int>, p: int)
    requires forall i :: 0 <= i < |s| ==> 0 <= s[i]
    requires forall i, j :: 0 <= i < j < |s| ==> s[i] < s[j]
    requires p < |s|
    ensures forall i :: 0 <= i <= p ==> s[i] >= i
  {
    if p > 0 {
      IncreasingIndicesFromBelow(s, p - 1);
      assert s[p - 1] < s[p];
    }
  }

  lemma {:induction false} IncreasingIndicesFromAbove(s: seq<int>, p: int)
    requires forall i :: 0 <= i < |s| ==> s[i] < |s|
    requires forall i, j :: 0 <= i < j < |s| ==> s[i] < s[j]
    requires 0 <= p
    ensures forall i :: p <= i < |s| ==> s[i] <= i
    decreases |s| - p
  {
    if p < |s| - 1 {
      IncreasingIndicesFromAbove(s, p + 1);
      assert s[p] < s[p + 1];
    }
  }

  /** Points given in increasing angular order are all in order. */
  lemma IncreasingInputIsInOrder(angles: seq<real>, sorted: seq<real>, idxs: seq<int>, states: seq<bool>)
    requires SortsAngles(angles, sorted, idxs)
    requires forall a, b :: 0 <= a < b < |angles| ==> angles[a] < angles[b]
    requires StatesFor(idxs, states)
    ensures !WrongOrder(states)
  {
    IncreasingInputSortsToIdentity(angles, sorted, idxs);
    if |idxs| > 0 {
      RotationIsNotWrongOrder(idxs, states, 0);
    }
  }

  /** Four points a quarter turn apart, in input order. */
  const Square: seq<real> := [0.0, Pi / 2.0, Pi, 3.0 * Pi / 2.0]

  /** The same points with the last two input positions swapped. */
  const SwappedSquare: seq<real> := [0.0, Pi / 2.0, 3.0 * Pi / 2.0, Pi]

  /** The square in input order: no point is out of order, and gaps of exactly
      a quarter turn do not count as big. */
  lemma SquareIsInOrder(sorted: seq<real>, idxs: seq<int>, states: seq<bool>)
    requires SortsAngles(Square, sorted, idxs)
    requires StatesFor(idxs, states)
    ensures !WrongOrder(states)
    ensures !HasBigGap(sorted)
  {
    IncreasingInputIsInOrder(Square, sorted, idxs, states);
    IncreasingInputSortsToIdentity(Square, sorted, idxs);
    forall j | 0 <= j < 4
      ensures Gap(sorted, j) == Pi / 2.0
    {
    }
  }

  /** Sorting the swapped square visits its input positions as 0, 1, 3, 2. */
  lemma SwappedSquareSortOrder(sorted: seq<real>, idxs: seq<int>)
    requires SortsAngles(SwappedSquare, sorted, idxs)
    ensures idxs == [0, 1, 3, 2]
  {
    var a := SwappedSquare;
    forall p, q | 0 <= p < q < 4
      ensures a[idxs[p]] < a[idxs[q]]
    {
      assert idxs[p] != idxs[q];
    }
    assert idxs[0] == 0 by {
      var q := PosOf(idxs, 0);
    }
    assert idxs[1] == 1 by {
      var q := PosOf(idxs, 1);
    }
    assert idxs[3] == 2 by {
      var q := PosOf(idxs, 2);
    }
  }

  /** In the order 0, 1, 3, 2 the first two points keep a neighbour and the
      swapped two do not. */
  lemma SwappedOrderStates(states: seq<bool>)
    requires IsPermutation([0, 1, 3, 2])
    requires StatesFor([0, 1, 3, 2], states)
    ensures states == [true, true, false, false]
  {
    var idxs := [0, 1, 3, 2];
    assert PosOf(idxs, 0) == 0 && PosOf(idxs, 1) == 1;
    assert PosOf(idxs, 2) == 3 && PosOf(idxs, 3) == 2;
    assert states[0] && states[1] && !states[2] && !states[3];
  }

  /** The swapped square: exactly the two swapped points are out of order. */
  lemma SwappedSquareFlagsSwappedPair(sorted: seq<real>, idxs: seq<int>, states: seq<bool>)
    requires SortsAngles(SwappedSquare, sorted, idxs)
    requires StatesFor(idxs, states)
    ensures states == [true, true, false, false]
    ensures WrongOrder(states)
  {
    SwappedSquareSortOrder(sorted, idxs);
    SwappedOrderStates(states);
    assert !states[2];
  }
}
