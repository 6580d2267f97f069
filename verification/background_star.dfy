/**
  Background stars: twinkling points placed at random, each springing back
  to its own base position after the pointer pushes it.
*/
module BackgroundStars {
  import opened Inputs
  import Twinkle
  import opened Repulsion

  /** The six Math.random draws `init` makes for one background star. */
  datatype AmbientDraw = AmbientDraw(x: real, y: real, size: real, speed: real, phase: real, brightness: real)

  predicate IsAmbientDraw(d: AmbientDraw)
  {
    IsDraw(d.x) && IsDraw(d.y) && IsDraw(d.size) && IsDraw(d.speed) && IsDraw(d.phase) && IsDraw(d.brightness)
  }

  class BackgroundStar {
    const baseX: real
    const baseY: real
    const baseSize: real
    const twinkleSpeed: real
    const twinkleOffset: real
    const brightness: real

    var x: real
    var y: real
    var vx: real
    var vy: real
    var size: real
    var currentBrightness: real

    /** The ranges `init` draws the star's constants from. */
    ghost predicate Valid()
    {
      0.5 <= baseSize < 2.5 && 0.4 <= brightness < 1.0
    }

    function Kinematics(): Motion
      reads this
    {
      Motion(x, y, vx, vy)
    }

    /** The state `init` leaves, from its draws on a surface width x height: at rest on its base. */
    predicate FromDraw(width: nat, height: nat, d: AmbientDraw)
      requires IsAmbientDraw(d)
      reads this
    {
      baseX == Spread(d.x, width as real) && baseY == Spread(d.y, height as real) &&
      baseSize == d.size * 2.0 + 0.5 && twinkleSpeed == d.speed * 0.004 + 0.001 &&
      twinkleOffset == d.phase * Pi * 2.0 && brightness == d.brightness * 0.6 + 0.4 &&
      size == baseSize && currentBrightness == 0.0 && Kinematics() == Motion(baseX, baseY, 0.0, 0.0)
    }

    /** `new BackgroundStar()`, which runs `init` on a surface width x height. */
    constructor (width: nat, height: nat, d: AmbientDraw)
      requires IsAmbientDraw(d)
      ensures Valid() && FromDraw(width, height, d)
      ensures 0.0 <= baseX <= width as real && 0.0 <= baseY <= height as real
    {
      baseX := Spread(d.x, width as real);
      baseY := Spread(d.y, height as real);
      baseSize := d.size * 2.0 + 0.5;
      twinkleSpeed := d.speed * 0.004 + 0.001;
      twinkleOffset := d.phase * Pi * 2.0;
      brightness := d.brightness * 0.6 + 0.4;
      new;
      x := baseX;
      y := baseY;
      vx := 0.0;
      vy := 0.0;
      size := baseSize;
      currentBrightness := 0.0;
    }

    /**
      One frame for this star, which had motion `before`: `twinkle` is
      sin(time * twinkleSpeed + twinkleOffset), `distance` the distance to
      the pointer at (mouseX, mouseY).
    */
    predicate SteppedFrom(before: Motion, twinkle: real, mouseX: real, mouseY: real, distance: real)
      reads this
    {
      IsSine(twinkle) &&
      size == Twinkle.AmbientSize(baseSize, twinkle) &&
      currentBrightness == Twinkle.AmbientBrightness(brightness, twinkle) &&
      Kinematics() == Step(Ambient, before, baseX, baseY, mouseX, mouseY, distance)
    }

    method Update(twinkle: real, mouseX: real, mouseY: real, distance: real)
      requires Valid() && IsSine(twinkle) && IsDistance(distance, x - mouseX, y - mouseY)
      modifies this
      ensures SteppedFrom(old(Kinematics()), twinkle, mouseX, mouseY, distance)
      ensures 0.5 * baseSize <= size <= baseSize
      ensures 0.4 * brightness <= currentBrightness <= brightness
    {
      size := Twinkle.AmbientSize(baseSize, twinkle);
      currentBrightness := Twinkle.AmbientBrightness(brightness, twinkle);
      Drift(mouseX, mouseY, distance);
    }

    /** The physics half of `update`: pointer push, spring, friction, integration. */
    method Drift(mouseX: real, mouseY: real, distance: real)
      modifies this`x, this`y, this`vx, this`vy
      ensures Kinematics() == Step(Ambient, old(Kinematics()), baseX, baseY, mouseX, mouseY, distance)
    {
      AmbientWellFormed();

      var dx := x - mouseX;
      var dy := y - mouseY;
      var radius := 8.0;
      if 0.0 < distance < radius {
        var forceDirectionX := dx / distance;
        var forceDirectionY := dy / distance;
        var force := (radius - distance) / radius;
        var pushStrength := 4.0;
        vx := vx + forceDirectionX * force * pushStrength;
        vy := vy + forceDirectionY * force * pushStrength;
      }

      var springStrength := 0.002;
      vx := vx + (baseX - x) * springStrength;
      vy := vy + (baseY - y) * springStrength;

      var friction := 0.92;
      vx := vx * friction;
      vy := vy * friction;

      x := x + vx;
      y := y + vy;
    }
  }

  /** The sine and the pointer distance one background star's update uses. */
  datatype AmbientInput = AmbientInput(twinkle: real, distance: real)

  /** The motion of every background star. */
  ghost function Motions(stars: seq<BackgroundStar>): (r: seq<Motion>)
    reads stars
    ensures |r| == |stars| && forall j :: 0 <= j < |stars| ==> r[j] == stars[j].Kinematics()
  {
    seq(|stars|, j requires 0 <= j < |stars| reads stars => stars[j].Kinematics())
  }

  /** Every background star, whose motions were `before`, took one step with its input. */
  ghost predicate AmbientStepped(stars: seq<BackgroundStar>, before: seq<Motion>, inputs: seq<AmbientInput>,
                                 mouseX: real, mouseY: real)
    reads stars
  {
    |before| == |stars| && |inputs| == |stars| &&
    forall j :: 0 <= j < |stars| ==> stars[j].SteppedFrom(before[j], inputs[j].twinkle, mouseX, mouseY, inputs[j].distance)
  }
}
