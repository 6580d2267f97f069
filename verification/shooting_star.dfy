/**
  Shooting stars: a streak that is launched from the upper-left part of
  the surface, flies along a near-45-degree heading, fades by a fixed step
  every frame and goes dormant when it has faded out or left the surface
  by more than a 100-pixel margin.
*/
module ShootingStars {
  import opened Inputs

  /** Opacity lost per update. */
  const Fade: real := 0.015

  /** How far past the right or bottom edge a streak may travel before it goes dormant. */
  const Margin: real := 100.0

  /** The fields of a shooting star, as a value. */
  datatype Streak = Streak(active: bool, x: real, y: real, length: real, speed: real,
                           angle: real, opacity: real, thickness: real)

  /** The six Math.random draws `activate` makes. */
  datatype LaunchDraw = LaunchDraw(x: real, y: real, length: real, speed: real, angle: real, thickness: real)

  predicate IsLaunchDraw(d: LaunchDraw)
  {
    IsDraw(d.x) && IsDraw(d.y) && IsDraw(d.length) && IsDraw(d.speed) && IsDraw(d.angle) && IsDraw(d.thickness)
  }

  /**
    The state `activate` leaves on a surface width x height: a start in the
    upper-left 80% x 40% of the surface, length in [50, 150), speed in
    [10, 25), heading pi/4 give or take 0.15 radians, full opacity,
    thickness in [1, 3), active.
  */
  function Launch(width: nat, height: nat, d: LaunchDraw): (s: Streak)
    requires IsLaunchDraw(d)
    ensures s.active && s.opacity == 1.0
    ensures 0.0 <= s.x <= width as real * 0.8 && 0.0 <= s.y <= height as real * 0.4
    ensures 50.0 <= s.length < 150.0 && 10.0 <= s.speed < 25.0 && 1.0 <= s.thickness < 3.0
    ensures Pi / 4.0 - 0.15 <= s.angle < Pi / 4.0 + 0.15
  {
    Streak(true, Spread(d.x, width as real * 0.8), Spread(d.y, height as real * 0.4),
           d.length * 100.0 + 50.0, d.speed * 15.0 + 10.0, Pi / 4.0 + (d.angle - 0.5) * 0.3,
           1.0, d.thickness * 2.0 + 1.0)
  }

  /**
    What one `update` does, given cosA = cos(angle) and sinA = sin(angle):
    a dormant streak is left alone; an active one moves speed units along
    its heading, loses Fade opacity, and goes dormant if its opacity is
    no longer positive or it is past the margin on the right or bottom.
  */
  function Advance(s: Streak, cosA: real, sinA: real, width: nat, height: nat): (r: Streak)
    requires IsSine(cosA) && IsSine(sinA)
    ensures !s.active ==> r == s
    ensures r.active ==> s.active && r.opacity > 0.0
  {
    if !s.active then s
    else
      var x := s.x + cosA * s.speed;
      var y := s.y + sinA * s.speed;
      var opacity := s.opacity - Fade;
      var gone := opacity <= 0.0 || x > width as real + Margin || y > height as real + Margin;
      s.(active := !gone, x := x, y := y, opacity := opacity)
  }

  /** The streak after n updates on a fixed heading and surface. */
  function Fly(s: Streak, n: nat, cosA: real, sinA: real, width: nat, height: nat): (r: Streak)
    requires IsSine(cosA) && IsSine(sinA)
    ensures r.active ==> s.active
  {
    if n == 0 then s else Advance(Fly(s, n - 1, cosA, sinA, width, height), cosA, sinA, width, height)
  }

  /** A dormant streak is inert: no number of updates changes it. */
  lemma {:induction false} DormantIsInert(s: Streak, n: nat, cosA: real, sinA: real, width: nat, height: nat)
    requires !s.active && IsSine(cosA) && IsSine(sinA)
    ensures Fly(s, n, cosA, sinA, width, height) == s
  {
    if n > 0 {
      DormantIsInert(s, n - 1, cosA, sinA, width, height);
    }
  }

  /**
    While a streak stays active its opacity drops by exactly Fade per
    update, and it is active only with a positive opacity; its length,
    speed, heading and thickness never change.
  */
  lemma {:induction false} FadesByFixedStep(s: Streak, n: nat, cosA: real, sinA: real, width: nat, height: nat)
    requires s.active && IsSine(cosA) && IsSine(sinA)
    ensures var f := Fly(s, n, cosA, sinA, width, height);
      f.length == s.length && f.speed == s.speed && f.angle == s.angle && f.thickness == s.thickness &&
      (f.active ==> f.opacity == s.opacity - n as real * Fade) &&
      (f.active && n > 0 ==> f.opacity > 0.0)
  {
    if n > 0 {
      FadesByFixedStep(s, n - 1, cosA, sinA, width, height);
    }
  }

  /**
    A streak launched at full opacity (or less) is dormant after at most 67
    updates, whatever its heading: 67 * 0.015 > 1.
  */
  lemma BurnsOut(s: Streak, n: nat, cosA: real, sinA: real, width: nat, height: nat)
    requires s.opacity <= 1.0 && 67 <= n && IsSine(cosA) && IsSine(sinA)
    ensures !Fly(s, n, cosA, sinA, width, height).active
  {
    if s.active {
      FadesByFixedStep(s, n, cosA, sinA, width, height);
    } else {
      DormantIsInert(s, n, cosA, sinA, width, height);
    }
  }

  class ShootingStar {
    var active: bool
    var x: real
    var y: real
    var length: real
    var speed: real
    var angle: real
    var opacity: real
    var thickness: real

    function View(): Streak
      reads this
    {
      Streak(active, x, y, length, speed, angle, opacity, thickness)
    }

    /** A new pool member: every field 0, dormant. */
    constructor ()
      ensures View() == Streak(false, 0.0, 0.0, 0.0, 0.0, 0.0, 0.0, 0.0)
    {
      active := false;
      x, y, length, speed, angle, opacity, thickness := 0.0, 0.0, 0.0, 0.0, 0.0, 0.0, 0.0;
    }

    method Activate(width: nat, height: nat, d: LaunchDraw)
      requires IsLaunchDraw(d)
      modifies this
      ensures View() == Launch(width, height, d)
      ensures active && opacity == 1.0
    {
      x := Spread(d.x, width as real * 0.8);
      y := Spread(d.y, height as real * 0.4);
      length := d.length * 100.0 + 50.0;
      speed := d.speed * 15.0 + 10.0;
      angle := Pi / 4.0 + (d.angle - 0.5) * 0.3;
      opacity := 1.0;
      thickness := d.thickness * 2.0 + 1.0;
      active := true;
    }

    method Update(width: nat, height: nat, cosA: real, sinA: real)
      requires IsSine(cosA) && IsSine(sinA)
      modifies this
      ensures View() == Advance(old(View()), cosA, sinA, width, height)
      ensures !old(active) ==> unchanged(this)
      ensures old(active) ==> opacity == old(opacity) - Fade
      ensures old(active) ==> (active <==> !(opacity <= 0.0 || x > width as real + Margin || y > height as real + Margin))
    {
      if !active {
        return;
      }
      ghost var before := View();
      x := x + cosA * speed;
      y := y + sinA * speed;
      opacity := opacity - Fade;
      assert x == before.x + cosA * before.speed && y == before.y + sinA * before.speed;
      if opacity <= 0.0 || x > width as real + Margin || y > height as real + Margin {
        active := false;
      }
    }
  }
}
