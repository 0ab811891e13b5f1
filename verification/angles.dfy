/** Angles of arranged points. The source works with single-precision `float`;
    the model uses exact reals, with pi fixed to the exact value of the
    single-precision constant the game engine provides. */
module Angles {

  /** The single-precision value of pi, written out exactly. */
  const Pi: real := 3.1415927410125732421875

  /** `Mathf.PI * 2f`; doubling is exact in binary floating point. */
  const TwoPi: real := 2.0 * Pi

  /** Node identifiers are 16-bit unsigned integers in the game. */
  type NodeId = x: int | 0 <= x < 0x1_0000

  /** `k` whole turns. */
  function Turns(k: int): real { k as real * TwoPi }

  /** `a` and `b` denote the same direction: they differ by a whole number of turns. */
  ghost predicate Congruent(a: real, b: real) {
    exists k: int :: a - b == Turns(k)
  }

  /** Integer part rounded towards zero, as a C# float-to-int truncation. */
  function Trunc(y: real): (q: int)
    ensures y >= 0.0 ==> q as real <= y < q as real + 1.0
    ensures y < 0.0 ==> q as real - 1.0 < y <= q as real
  {
    if y >= 0.0 then y.Floor else -((-y).Floor)
  }

  /** C#'s `%` on floats: the remainder of a division truncated towards zero,
      so the result carries the sign of the dividend. */
  function TruncRem(x: real): (r: real)
    ensures x >= 0.0 ==> 0.0 <= r < TwoPi
    ensures x < 0.0 ==> -TwoPi < r <= 0.0
    ensures Congruent(r, x)
    ensures r == 0.0 <==> Congruent(x, 0.0)
  {
    var q := Trunc(x / TwoPi);
    assert x - TwoPi * q as real - x == Turns(-q);
    assert x - TwoPi * q as real == 0.0 ==> x - 0.0 == Turns(q);
    WholeTurnsHaveNoRemainder(x);
    x - TwoPi * q as real
  }

  lemma WholeTurnsHaveNoRemainder(x: real)
    ensures Congruent(x, 0.0) ==> Trunc(x / TwoPi) as real * TwoPi == x
  {
    if Congruent(x, 0.0) {
      var k :| x - 0.0 == Turns(k);
      assert x / TwoPi == k as real;
    }
  }

  /** The angle stored by the `CirclePoint` constructor: the truncated remainder,
      shifted up by one turn when the input is negative. */
  function Normalize(angle: real): (r: real)
    ensures 0.0 <= r <= TwoPi
    ensures angle >= 0.0 ==> r < TwoPi
    ensures angle < 0.0 ==> 0.0 < r
    ensures r == TwoPi <==> angle < 0.0 && Congruent(angle, 0.0)
    ensures Congruent(r, angle)
  {
    var m := TruncRem(angle);
    OneMoreTurn(m, angle);
    if angle < 0.0 then m + TwoPi else m
  }

  lemma OneMoreTurn(a: real, b: real)
    requires Congruent(a, b)
    ensures Congruent(a + TwoPi, b)
  {
    var k :| a - b == Turns(k);
    assert a + TwoPi - b == Turns(k + 1);
  }

  /** One point to arrange: the game node it stands for and its angle on the circle. */
  datatype CirclePoint = CirclePoint(id: NodeId, angle: real)

  /** The `CirclePoint(id, angle)` constructor. */
  function MakePoint(id: NodeId, angle: real): (p: CirclePoint)
    ensures p.id == id
    ensures 0.0 <= p.angle <= TwoPi
    ensures angle >= 0.0 ==> p.angle < TwoPi
    ensures Congruent(p.angle, angle)
  {
    CirclePoint(id, Normalize(angle))
  }

  /** `CirclePoint.Turn`: the same node, rotated by `delta` around the circle. */
  function Turn(p: CirclePoint, delta: real): (q: CirclePoint)
    ensures q.id == p.id
    ensures 0.0 <= q.angle <= TwoPi
    ensures Congruent(q.angle, p.angle + delta)
  {
    MakePoint(p.id, p.angle + delta)
  }

  lemma CongruentTransitive(a: real, b: real, c: real)
    requires Congruent(a, b) && Congruent(b, c)
    ensures Congruent(a, c)
  {
    var k1 :| a - b == Turns(k1);
    var k2 :| b - c == Turns(k2);
    assert a - c == Turns(k1 + k2);
  }

  /** Two congruent angles in [0, 2*pi] are equal or are the two ends of that range. */
  lemma CongruentInRange(a: real, b: real)
    requires 0.0 <= a <= TwoPi && 0.0 <= b <= TwoPi
    requires Congruent(a, b)
    ensures a == b || (a == 0.0 && b == TwoPi) || (a == TwoPi && b == 0.0)
  {
    var k :| a - b == Turns(k);
    assert -1 <= k <= 1;
  }

  /** Turning a stored point by `delta` and back by `-delta` restores its
      node and its angle, except that the two ends of the range may trade
      places: 0 may come back as 2*pi and 2*pi as 0 (the constructor maps
      negative whole turns to 2*pi and non-negative ones to 0). */
  lemma TurnBack(p: CirclePoint, delta: real)
    requires 0.0 <= p.angle <= TwoPi
    ensures Turn(Turn(p, delta), -delta).id == p.id
    ensures Congruent(Turn(Turn(p, delta), -delta).angle, p.angle)
    ensures var a := Turn(Turn(p, delta), -delta).angle;
            a == p.angle || (p.angle == 0.0 && a == TwoPi) || (p.angle == TwoPi && a == 0.0)
  {
    var q := Turn(p, delta);
    var r := Turn(q, -delta);
    // r ~ q - delta and q ~ p + delta, so r ~ p.
    var k1 :| r.angle - (q.angle - delta) == Turns(k1);
    var k2 :| q.angle - (p.angle + delta) == Turns(k2);
    assert r.angle - p.angle == Turns(k1 + k2);
    CongruentInRange(r.angle, p.angle);
  }

  /** Negative whole turns are stored as 2*pi, not as 0. */
  lemma NegativeTurnGivesTwoPi(id: NodeId)
    ensures MakePoint(id, -TwoPi).angle == TwoPi
    ensures MakePoint(id, 0.0).angle == 0.0
  {
    assert -TwoPi - 0.0 == Turns(-1);
  }
}
