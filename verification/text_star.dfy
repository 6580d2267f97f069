/**
  Text stars: the points sampled from the caption. Each is unborn until the
  scene's elapsed time reaches its delay, then pops in over popDuration
  milliseconds (size on an elastic curve, brightness on a faster linear
  ramp), then holds its targets, modulated by twinkle and pushed by the
  pointer like a background star.
*/
module TextStars {
  import opened Wrappers
  import opened Inputs
  import Twinkle
  import opened Repulsion

  // ---- Birth latch ----

  /**
    The latch at the head of `update`: an unborn star (birth time null) is
    born at the first elapsed time that reaches its delay, and that elapsed
    time becomes its birth time. A born star keeps its birth time.
  */
  function Latch(birthTime: Option<real>, delay: real, elapsed: real): (r: Option<real>)
    ensures r.Some? <==> birthTime.Some? || delay <= elapsed
    ensures birthTime.Some? ==> r == birthTime
    ensures birthTime.None? && r.Some? ==> r.value == elapsed
  {
    if birthTime.None? && elapsed >= delay then Some(elapsed) else birthTime
  }

  /**
    The birth time after a run of updates at the given elapsed times: a
    birth time, once set, is the one that comes out, and a star unborn on
    entry is never born before its delay.
  */
  function LatchAll(birthTime: Option<real>, delay: real, elapsed: seq<real>): (r: Option<real>)
    ensures r.Some? ==> r == birthTime || (birthTime.None? && delay <= r.value)
    decreases |elapsed|
  {
    if elapsed == [] then birthTime else LatchAll(Latch(birthTime, delay, elapsed[0]), delay, elapsed[1..])
  }

  /** Once born, a star stays born with the same birth time, whatever the later elapsed times. */
  lemma {:induction false} BornNeverReverts(birth: real, delay: real, elapsed: seq<real>)
    ensures LatchAll(Some(birth), delay, elapsed) == Some(birth)
    decreases |elapsed|
  {
    if elapsed != [] {
      BornNeverReverts(birth, delay, elapsed[1..]);
    }
  }

  /**
    Starting unborn, a star is born after a run of updates exactly when one
    of them had elapsed >= delay, and its birth time is the elapsed time of
    the first such update.
  */
  lemma {:induction false} BirthIsFirstReach(delay: real, elapsed: seq<real>)
    ensures LatchAll(None, delay, elapsed).Some? <==> exists i :: 0 <= i < |elapsed| && delay <= elapsed[i]
    ensures LatchAll(None, delay, elapsed).Some? ==>
      exists k :: 0 <= k < |elapsed| && delay <= elapsed[k] && LatchAll(None, delay, elapsed) == Some(elapsed[k]) &&
        forall j :: 0 <= j < k ==> elapsed[j] < delay
    decreases |elapsed|
  {
    if elapsed != [] {
      if delay <= elapsed[0] {
        BornNeverReverts(elapsed[0], delay, elapsed[1..]);
      } else {
        var rest := elapsed[1..];
        BirthIsFirstReach(delay, rest);
        assert forall i :: 0 <= i < |rest| ==> rest[i] == elapsed[i + 1];
        if LatchAll(None, delay, rest).Some? {
          var k :| 0 <= k < |rest| && delay <= rest[k] && LatchAll(None, delay, rest) == Some(rest[k]) &&
            forall j :: 0 <= j < k ==> rest[j] < delay;
          assert elapsed[k + 1] == rest[k];
        }
        if exists i :: 0 <= i < |elapsed| && delay <= elapsed[i] {
          var i :| 0 <= i < |elapsed| && delay <= elapsed[i];
          assert i > 0 && delay <= rest[i - 1];
        }
      }
    }
  }

  // ---- Pop-in schedule ----

  datatype Pop = Pop(size: real, brightness: real)

  function Min(a: real, b: real): real
  {
    if a < b then a else b
  }

  /**
    Size and brightness `age` milliseconds after birth. During the pop-in
    window, progress = age / popDuration, the elastic curve is
    1 - decay * cosine where decay = 2^(-10 * progress) and
    cosine = cos(progress * 2 * pi) are supplied, size is the target times
    the elastic curve clamped at 1, and brightness the target times
    1.5 * progress clamped at 1. Afterwards both are their targets exactly.
  */
  function PopIn(targetSize: real, targetBrightness: real, popDuration: real, age: real, decay: real, cosine: real): (p: Pop)
    requires 0.0 < popDuration
    requires 0.0 < decay <= 1.0 && IsSine(cosine)
    ensures popDuration <= age ==> p == Pop(targetSize, targetBrightness)
    ensures 0.0 <= targetSize ==> 0.0 <= p.size <= targetSize
    ensures 0.0 <= age && 0.0 <= targetBrightness ==> 0.0 <= p.brightness <= targetBrightness
  {
    if age < popDuration then
      var progress := age / popDuration;
      var elastic := 1.0 - decay * cosine;
      assert -1.0 <= decay * cosine <= 1.0 by { SineScaled(decay, cosine); }
      var sizeFactor := Min(elastic, 1.0);
      var brightnessFactor := Min(progress * 1.5, 1.0);
      assert 0.0 <= age ==> 0.0 <= brightnessFactor by {
        if 0.0 <= age { assert 0.0 <= progress; }
      }
      Pop(Scaled(targetSize, sizeFactor), Scaled(targetBrightness, brightnessFactor))
    else
      Pop(targetSize, targetBrightness)
  }

  /** `value * factor` for a factor at most 1: never above the value, never below 0 when the factor is not. */
  function Scaled(value: real, factor: real): (r: real)
    requires factor <= 1.0
    ensures 0.0 <= value ==> r <= value
    ensures 0.0 <= value && 0.0 <= factor ==> 0.0 <= r
  {
    if 0.0 <= value then
      MulNonNegative(value, 1.0 - factor);
      if 0.0 <= factor then MulNonNegative(value, factor); value * factor else value * factor
    else
      value * factor
  }

  lemma SineScaled(decay: real, cosine: real)
    requires 0.0 < decay <= 1.0 && IsSine(cosine)
    ensures -1.0 <= decay * cosine <= 1.0
  {
    if 0.0 <= cosine {
      MulNonNegative(decay, cosine);
      MulNonNegative(1.0 - decay, cosine);
    } else {
      MulNonNegative(decay, -cosine);
      MulNonNegative(1.0 - decay, -cosine);
    }
  }

  /** At birth (age 0, where 2^0 = 1 and cos 0 = 1) the star has zero size and zero brightness. */
  lemma PopStartsAtZero(targetSize: real, targetBrightness: real, popDuration: real)
    requires 0.0 < popDuration
    ensures PopIn(targetSize, targetBrightness, popDuration, 0.0, 1.0, 1.0) == Pop(0.0, 0.0)
  {
  }

  /**
    Brightness reaches its target once two thirds of the window have
    passed, before the elastic size settles at the end of the window.
  */
  lemma BrightnessSettlesFirst(targetSize: real, targetBrightness: real, popDuration: real, age: real, decay: real, cosine: real)
    requires 0.0 < popDuration && 0.0 < decay <= 1.0 && IsSine(cosine)
    requires 2.0 * popDuration <= 3.0 * age
    ensures PopIn(targetSize, targetBrightness, popDuration, age, decay, cosine).brightness == targetBrightness
  {
    if age < popDuration {
      var progress := age / popDuration;
      assert progress * popDuration == age;
      var q := progress * 1.5 - 1.0;
      assert q * popDuration == 1.5 * age - popDuration;
      if q < 0.0 {
        MulPositive(-q, popDuration);
      }
    }
  }

  /** During and after the pop-in, brightness never decreases with age. */
  lemma BrightnessRises(targetSize: real, targetBrightness: real, popDuration: real,
                        age1: real, decay1: real, cosine1: real, age2: real, decay2: real, cosine2: real)
    requires 0.0 < popDuration && 0.0 <= targetBrightness
    requires 0.0 < decay1 <= 1.0 && IsSine(cosine1) && 0.0 < decay2 <= 1.0 && IsSine(cosine2)
    requires 0.0 <= age1 <= age2
    ensures PopIn(targetSize, targetBrightness, popDuration, age1, decay1, cosine1).brightness
         <= PopIn(targetSize, targetBrightness, popDuration, age2, decay2, cosine2).brightness
  {
    var b1 := PopIn(targetSize, targetBrightness, popDuration, age1, decay1, cosine1).brightness;
    var b2 := PopIn(targetSize, targetBrightness, popDuration, age2, decay2, cosine2).brightness;
    if age2 < popDuration {
      var f1 := Min(age1 / popDuration * 1.5, 1.0);
      var f2 := Min(age2 / popDuration * 1.5, 1.0);
      assert age1 / popDuration <= age2 / popDuration by {
        MulNonNegative(age2 - age1, 1.0 / popDuration);
      }
      assert f1 <= f2;
      assert b2 - b1 == targetBrightness * (f2 - f1);
      MulNonNegative(targetBrightness, f2 - f1);
    }
  }

  // ---- The star ----

  /** The fields of a text star that `update` writes, as a value. */
  datatype GlyphState = GlyphState(birthTime: Option<real>, size: real, brightness: real, displaySize: real,
                                   currentBrightness: real, motion: Motion)

  /** The five Math.random draws the constructor makes for one text star. */
  datatype GlyphDraw = GlyphDraw(size: real, speed: real, phase: real, brightness: real, pop: real)

  predicate IsGlyphDraw(d: GlyphDraw)
  {
    IsDraw(d.size) && IsDraw(d.speed) && IsDraw(d.phase) && IsDraw(d.brightness) && IsDraw(d.pop)
  }

  class TextStar {
    const baseX: real
    const baseY: real
    const delay: real
    const targetSize: real
    const twinkleSpeed: real
    const twinkleOffset: real
    const targetBrightness: real
    const popDuration: real

    var displaySize: real
    var currentBrightness: real
    var birthTime: Option<real>
    var born: bool
    var brightness: real
    var size: real
    var x: real
    var y: real
    var vx: real
    var vy: real

    /** `born` is set exactly when `birthTime` is; the constants lie in the ranges the constructor draws them from. */
    ghost predicate Valid()
      reads this
    {
      born == birthTime.Some? &&
      1.5 <= targetSize < 3.0 && 0.7 <= targetBrightness < 1.0 && 300.0 <= popDuration < 500.0
    }

    function Kinematics(): Motion
      reads this
    {
      Motion(x, y, vx, vy)
    }

    /** The guard at the head of `draw`: nothing is painted unless the star is born and has a positive size. */
    predicate Paints(): (r: bool)
      reads this
      ensures Valid() && r ==> birthTime.Some?
    {
      born && size > 0.0
    }

    /** The state the constructor leaves: unborn, invisible, at rest on its base (x, y). */
    predicate Spawned(x: real, y: real, delay: real, d: GlyphDraw)
      reads this
    {
      baseX == x && baseY == y && this.delay == delay &&
      targetSize == d.size * 1.5 + 1.5 && twinkleSpeed == d.speed * 0.004 + 0.002 &&
      twinkleOffset == d.phase * Pi * 2.0 && targetBrightness == d.brightness * 0.3 + 0.7 &&
      popDuration == 300.0 + d.pop * 200.0 &&
      !born && birthTime == None &&
      size == 0.0 && brightness == 0.0 && displaySize == 0.0 && currentBrightness == 0.0 &&
      Kinematics() == Motion(x, y, 0.0, 0.0)
    }

    constructor (x: real, y: real, delay: real, d: GlyphDraw)
      requires IsGlyphDraw(d)
      ensures Valid() && Spawned(x, y, delay, d) && !Paints()
    {
      baseX, baseY := x, y;
      this.delay := delay;
      targetSize := d.size * 1.5 + 1.5;
      twinkleSpeed := d.speed * 0.004 + 0.002;
      twinkleOffset := d.phase * Pi * 2.0;
      targetBrightness := d.brightness * 0.3 + 0.7;
      popDuration := 300.0 + d.pop * 200.0;
      new;
      this.x, this.y := x, y;
      vx, vy := 0.0, 0.0;
      displaySize, currentBrightness, brightness, size := 0.0, 0.0, 0.0, 0.0;
      birthTime, born := None, false;
    }

    /** The part of the star `update` may change. */
    function State(): GlyphState
      reads this
    {
      GlyphState(birthTime, size, brightness, displaySize, currentBrightness, Kinematics())
    }

    /**
      One frame of a born star at `elapsed`, which had motion `before`: the pop-in schedule at its
      age, then twinkle, then the glyph physics step. `twinkle`, `decay`,
      `cosine` and `distance` are the values of the script's sin, pow, cos
      and sqrt calls.
    */
    predicate Grown(before: Motion, twinkle: real, elapsed: real, decay: real, cosine: real, mouseX: real, mouseY: real, distance: real)
      reads this
    {
      born && birthTime.Some? && 0.0 < popDuration && 0.0 < decay <= 1.0 && IsSine(cosine) && IsSine(twinkle) &&
      Pop(size, brightness) == PopIn(targetSize, targetBrightness, popDuration, elapsed - birthTime.value, decay, cosine) &&
      currentBrightness == Twinkle.GlyphBrightness(brightness, twinkle) &&
      displaySize == Twinkle.GlyphDisplaySize(size, twinkle) &&
      Kinematics() == Step(Glyph, before, baseX, baseY, mouseX, mouseY, distance)
    }

    /** What `update(time, elapsed)` does to a star whose state was `before`. */
    predicate UpdatedFrom(before: GlyphState, twinkle: real, elapsed: real, decay: real, cosine: real,
                          mouseX: real, mouseY: real, distance: real)
      reads this
    {
      birthTime == Latch(before.birthTime, delay, elapsed) &&
      (!born ==> State() == before) &&
      (born ==> Grown(before.motion, twinkle, elapsed, decay, cosine, mouseX, mouseY, distance))
    }

    method Update(twinkle: real, elapsed: real, decay: real, cosine: real, mouseX: real, mouseY: real, distance: real)
      requires Valid() && IsSine(twinkle) && 0.0 < decay <= 1.0 && IsSine(cosine)
      requires IsDistance(distance, x - mouseX, y - mouseY)
      modifies this
      ensures Valid()
      ensures UpdatedFrom(old(State()), twinkle, elapsed, decay, cosine, mouseX, mouseY, distance)
      ensures old(born) ==> born && birthTime == old(birthTime)
      ensures !old(born) && elapsed < delay ==> !born && !Paints() && unchanged(this)
      ensures born ==> 0.0 <= size <= targetSize && 0.8 * size <= displaySize <= size
      ensures born && birthTime.value <= elapsed ==>
                0.0 <= brightness <= targetBrightness && 0.7 * brightness <= currentBrightness <= brightness
      ensures born && birthTime.value + popDuration <= elapsed ==> size == targetSize && brightness == targetBrightness
    {
      if !born && elapsed >= delay {
        born := true;
        birthTime := Some(elapsed);
      }
      if !born {
        return;
      }
      var age := elapsed - birthTime.value;
      var pop := PopIn(targetSize, targetBrightness, popDuration, age, decay, cosine);
      size, brightness := pop.size, pop.brightness;
      currentBrightness := Twinkle.GlyphBrightness(brightness, twinkle);
      displaySize := Twinkle.GlyphDisplaySize(size, twinkle);

      Drift(mouseX, mouseY, distance);
    }

    /** The physics half of `update`: pointer push, spring, friction, integration. */
    method Drift(mouseX: real, mouseY: real, distance: real)
      modifies this`x, this`y, this`vx, this`vy
      ensures Kinematics() == Step(Glyph, old(Kinematics()), baseX, baseY, mouseX, mouseY, distance)
    {
      GlyphWellFormed();
      var dx := x - mouseX;
      var dy := y - mouseY;
      var radius := 8.0;
      if 0.0 < distance < radius {
        var forceDirectionX := dx / distance;
        var forceDirectionY := dy / distance;
        var force := (radius - distance) / radius;
        var pushStrength := 5.0;
        vx := vx + forceDirectionX * force * pushStrength;
        vy := vy + forceDirectionY * force * pushStrength;
      }

      var springStrength := 0.003;
      vx := vx + (baseX - x) * springStrength;
      vy := vy + (baseY - y) * springStrength;

      var friction := 0.90;
      vx := vx * friction;
      vy := vy * friction;

      x := x + vx;
      y := y + vy;
    }
  }

  /** The sine, 2^(-10 * progress), cos(progress * 2 * pi) and pointer distance one text star's update uses. */
  datatype GlyphInput = GlyphInput(twinkle: real, decay: real, cosine: real, distance: real)

  /** The updatable state of every text star. */
  ghost function States(stars: seq<TextStar>): (r: seq<GlyphState>)
    reads stars
    ensures |r| == |stars| && forall j :: 0 <= j < |stars| ==> r[j] == stars[j].State()
  {
    seq(|stars|, j requires 0 <= j < |stars| reads stars => stars[j].State())
  }

  /** Every text star, whose states were `before`, took one update at `elapsed` with its input. */
  ghost predicate GlyphsUpdated(stars: seq<TextStar>, before: seq<GlyphState>, inputs: seq<GlyphInput>, elapsed: real,
                                mouseX: real, mouseY: real)
    reads stars
  {
    |before| == |stars| && |inputs| == |stars| &&
    forall j :: 0 <= j < |stars| ==>
      stars[j].UpdatedFrom(before[j], inputs[j].twinkle, elapsed, inputs[j].decay, inputs[j].cosine,
                           mouseX, mouseY, inputs[j].distance)
  }
}
