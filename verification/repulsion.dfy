/**
  The pointer-repulsion model shared by background and text stars: a push
  away from the pointer inside a small radius, a weak spring towards the
  star's base position, friction, then integration of position.

  Square roots are inputs: `distance` is the value the script computes as
  Math.sqrt(dx * dx + dy * dy).
*/
module Repulsion {

  datatype Params = Params(radius: real, push: real, spring: real, friction: real)

  /** Background stars: radius 8, push 4, spring 0.002, friction 0.92. */
  const Ambient: Params := Params(8.0, 4.0, 0.002, 0.92)

  /** Text stars: radius 8, push 5, spring 0.003, friction 0.90. */
  const Glyph: Params := Params(8.0, 5.0, 0.003, 0.90)

  /** Position and velocity of a star. */
  datatype Motion = Motion(x: real, y: real, vx: real, vy: real)

  /** `distance` is Math.sqrt(dx * dx + dy * dy). */
  predicate IsDistance(distance: real, dx: real, dy: real)
  {
    0.0 <= distance && distance * distance == dx * dx + dy * dy
  }

  predicate WellFormed(p: Params)
  {
    0.0 < p.radius && 0.0 < p.push && 0.0 < p.spring && 0.0 < p.friction < 1.0 && p.spring * p.friction < 1.0
  }

  /**
    The velocity added by the pointer: `(dx / distance, dy / distance)`
    scaled by `push * (radius - distance) / radius`, only when the star is
    strictly inside the radius. At distance 0 the direction is undefined
    and no push is applied (see the finding in the README).
  */
  function Kick(p: Params, dx: real, dy: real, distance: real): (k: (real, real))
    requires WellFormed(p)
    ensures !(0.0 < distance < p.radius) ==> k == (0.0, 0.0)
  {
    if 0.0 < distance < p.radius then
      var force := (p.radius - distance) / p.radius;
      (dx / distance * force * p.push, dy / distance * force * p.push)
    else
      (0.0, 0.0)
  }

  /**
    One update of a star's motion towards base (baseX, baseY) with the
    pointer at (mouseX, mouseY): kick, spring, friction, integrate.
  */
  function Step(p: Params, m: Motion, baseX: real, baseY: real, mouseX: real, mouseY: real, distance: real): (r: Motion)
    requires WellFormed(p)
    ensures r.x == m.x + r.vx && r.y == m.y + r.vy
    ensures !(0.0 < distance < p.radius) ==>
              r.vx == (m.vx + (baseX - m.x) * p.spring) * p.friction &&
              r.vy == (m.vy + (baseY - m.y) * p.spring) * p.friction
  {
    var k := Kick(p, m.x - mouseX, m.y - mouseY, distance);
    var vx := (m.vx + k.0 + (baseX - m.x) * p.spring) * p.friction;
    var vy := (m.vy + k.1 + (baseY - m.y) * p.spring) * p.friction;
    Motion(m.x + vx, m.y + vy, vx, vy)
  }

  lemma AmbientWellFormed()
    ensures WellFormed(Ambient)
  {
  }

  lemma GlyphWellFormed()
    ensures WellFormed(Glyph)
  {
  }

  /**
    Outside the radius the step does not depend on where the pointer is,
    and it is a damped linear map on the offset from the base:
    v' = friction * v - spring * friction * offset and
    offset' = (1 - spring * friction) * offset + friction * v.
  */
  lemma FarStepIsSpring(p: Params, m: Motion, baseX: real, baseY: real,
                        mouseX: real, mouseY: real, distance: real,
                        otherX: real, otherY: real, otherDistance: real)
    requires WellFormed(p) && !(0.0 < distance < p.radius) && !(0.0 < otherDistance < p.radius)
    ensures Step(p, m, baseX, baseY, mouseX, mouseY, distance) == Step(p, m, baseX, baseY, otherX, otherY, otherDistance)
    ensures var r := Step(p, m, baseX, baseY, mouseX, mouseY, distance);
      r.vx == p.friction * m.vx - p.spring * p.friction * (m.x - baseX) &&
      r.vy == p.friction * m.vy - p.spring * p.friction * (m.y - baseY) &&
      r.x - baseX == (1.0 - p.spring * p.friction) * (m.x - baseX) + p.friction * m.vx &&
      r.y - baseY == (1.0 - p.spring * p.friction) * (m.y - baseY) + p.friction * m.vy
  {
  }

  /**
    Inside the radius the pointer accelerates the star straight away from
    itself: the added velocity points along (dx, dy) and its length is
    push * (radius - distance) / radius.
  */
  lemma KickPushesAway(p: Params, dx: real, dy: real, distance: real)
    requires WellFormed(p)
    requires 0.0 < distance < p.radius && IsDistance(distance, dx, dy)
    ensures var k := Kick(p, dx, dy, distance);
      k.0 * dx + k.1 * dy > 0.0 &&
      k.0 * dy == k.1 * dx &&
      k.0 * k.0 + k.1 * k.1 == (p.push * (p.radius - distance) / p.radius) * (p.push * (p.radius - distance) / p.radius)
  {
    var k := Kick(p, dx, dy, distance);
    var force := (p.radius - distance) / p.radius;
    var s := p.push * (p.radius - distance) / p.radius;
    var c := s / distance;
    assert force * p.push == s;
    assert k.0 == c * dx by { DivideThenScale(dx, force, p.push, distance); }
    assert k.1 == c * dy by { DivideThenScale(dy, force, p.push, distance); }
    assert 0.0 < s;
    assert c * distance == s;
    ScaledAlong(k, c, s, dx, dy, distance);
  }

  lemma DivideThenScale(a: real, f: real, g: real, d: real)
    requires d != 0.0
    ensures a / d * f * g == (f * g / d) * a
  {
    assert a / d * f * g == (a / d) * (f * g);
    assert (a / d) * (f * g) == a * (f * g) / d;
  }

  /**
    A vector k = c * (dx, dy) with c * |(dx, dy)| == s > 0 points along
    (dx, dy) and has length s.
  */
  lemma ScaledAlong(k: (real, real), c: real, s: real, dx: real, dy: real, distance: real)
    requires IsDistance(distance, dx, dy) && 0.0 < distance && 0.0 < s
    requires k.0 == c * dx && k.1 == c * dy && c * distance == s
    ensures k.0 * dx + k.1 * dy > 0.0 && k.0 * dy == k.1 * dx && k.0 * k.0 + k.1 * k.1 == s * s
  {
    assert k.0 * dx + k.1 * dy == c * (dx * dx + dy * dy);
    assert c * (dx * dx + dy * dy) == (c * distance) * distance;
    assert 0.0 < s * distance;
    assert k.0 * k.0 + k.1 * k.1 == (c * c) * (dx * dx + dy * dy);
    assert (c * c) * (distance * distance) == (c * distance) * (c * distance);
  }

  /** A star resting on its base with the pointer outside the radius stays put. */
  lemma RestIsFixedPoint(p: Params, baseX: real, baseY: real, mouseX: real, mouseY: real, distance: real)
    requires WellFormed(p) && p.radius <= distance
    ensures Step(p, Motion(baseX, baseY, 0.0, 0.0), baseX, baseY, mouseX, mouseY, distance)
         == Motion(baseX, baseY, 0.0, 0.0)
  {
  }

  function Abs(a: real): real
  {
    if a < 0.0 then -a else a
  }

  /**
    Released at rest away from the pointer, a displaced star moves towards
    its base: its offset from the base shrinks by the factor
    1 - spring * friction, so it strictly decreases and keeps its sign.
  */
  lemma SpringPullsHome(p: Params, m: Motion, baseX: real, baseY: real, mouseX: real, mouseY: real, distance: real)
    requires WellFormed(p) && p.radius <= distance
    requires m.vx == 0.0 && m.vy == 0.0
    ensures var r := Step(p, m, baseX, baseY, mouseX, mouseY, distance);
      baseX - r.x == (baseX - m.x) * (1.0 - p.spring * p.friction) &&
      baseY - r.y == (baseY - m.y) * (1.0 - p.spring * p.friction) &&
      (m.x != baseX ==> Abs(baseX - r.x) < Abs(baseX - m.x)) &&
      (m.y != baseY ==> Abs(baseY - r.y) < Abs(baseY - m.y))
  {
    var f := 1.0 - p.spring * p.friction;
    assert 0.0 < f < 1.0;
    var r := Step(p, m, baseX, baseY, mouseX, mouseY, distance);
    assert r.vx == (baseX - m.x) * p.spring * p.friction;
    assert baseX - r.x == (baseX - m.x) * f;
    assert baseY - r.y == (baseY - m.y) * f;
    if m.x != baseX {
      ScaleShrinks(baseX - m.x, f);
    }
    if m.y != baseY {
      ScaleShrinks(baseY - m.y, f);
    }
  }

  lemma ScaleShrinks(a: real, f: real)
    requires 0.0 < f < 1.0 && a != 0.0
    ensures Abs(a * f) < Abs(a)
  {
    if a < 0.0 {
      assert a * f > a;
    } else {
      assert a * f < a;
    }
  }

  // ---- The kick as written: division by a zero distance ----

  /** A script number: a finite value, or NaN / Infinity. */
  datatype Num = Finite(value: real) | NonFinite

  function Div(a: real, b: real): Num
  {
    if b == 0.0 then NonFinite else Finite(a / b)
  }

  function Scale(n: Num, c: real): Num
  {
    match n
    case Finite(v) => Finite(v * c)
    case NonFinite => NonFinite
  }

  /**
    The kick exactly as the script computes it: the only guard is
    `distance < radius`, so a star exactly under the pointer divides 0 by 0.
  */
  function KickAsWritten(p: Params, dx: real, dy: real, distance: real): (k: (Num, Num))
    requires WellFormed(p)
    ensures distance == 0.0 ==> k == (NonFinite, NonFinite)
  {
    if distance < p.radius then
      var force := (p.radius - distance) / p.radius;
      (Scale(Scale(Div(dx, distance), force), p.push), Scale(Scale(Div(dy, distance), force), p.push))
    else
      (Finite(0.0), Finite(0.0))
  }

  /** Away from distance 0 the guarded kick is the kick as written. */
  lemma KickAgreesAwayFromPointer(p: Params, dx: real, dy: real, distance: real)
    requires WellFormed(p) && 0.0 < distance
    ensures KickAsWritten(p, dx, dy, distance) == (Finite(Kick(p, dx, dy, distance).0), Finite(Kick(p, dx, dy, distance).1))
  {
    if distance < p.radius {
      var force := (p.radius - distance) / p.radius;
      assert Scale(Scale(Div(dx, distance), force), p.push) == Finite(dx / distance * force * p.push);
      assert Scale(Scale(Div(dy, distance), force), p.push) == Finite(dy / distance * force * p.push);
      assert KickAsWritten(p, dx, dy, distance)
          == (Scale(Scale(Div(dx, distance), force), p.push), Scale(Scale(Div(dy, distance), force), p.push));
      assert Kick(p, dx, dy, distance).0 == dx / distance * force * p.push;
      assert Kick(p, dx, dy, distance).1 == dy / distance * force * p.push;
    }
  }

  /**
    A born text star resting on its base at grid cell (36, 120) with the
    pointer at client coordinates (36, 120): as written, its velocity
    becomes NaN, and NaN never leaves it again, so the star vanishes.
  */
  lemma PointerOnStarAsWritten()
    ensures KickAsWritten(Glyph, 36.0 - 36.0, 120.0 - 120.0, 0.0) == (NonFinite, NonFinite)
  {
  }

  /**
    With the guard, a star resting on its base exactly under the pointer
    is left where it is, with zero velocity.
  */
  lemma PointerOnStarCorrected(p: Params, baseX: real, baseY: real)
    requires WellFormed(p)
    ensures Step(p, Motion(baseX, baseY, 0.0, 0.0), baseX, baseY, baseX, baseY, 0.0)
         == Motion(baseX, baseY, 0.0, 0.0)
  {
    assert Kick(p, 0.0, 0.0, 0.0) == (0.0, 0.0);
  }
}
