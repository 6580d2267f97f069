/**
  Twinkle remapping. Every star draws a twinkle value from
  sin(time * twinkleSpeed + twinkleOffset), which lies in [-1, 1], remaps it
  to [0, 1] and uses it to modulate a size or a brightness inside a band
  [floor * value, value]. The sine itself is an input here.
*/
module Twinkle {
  import opened Inputs

  /** `twinkle * 0.5 + 0.5`: the sine value remapped from [-1, 1] to [0, 1]. */
  function Unit(twinkle: real): (u: real)
    requires IsSine(twinkle)
    ensures 0.0 <= u <= 1.0
    ensures twinkle == 2.0 * u - 1.0
  {
    twinkle * 0.5 + 0.5
  }

  /** `value * (floor + (1 - floor) * Unit(twinkle))`, the shape shared by all four remaps. */
  function Modulate(value: real, floor: real, twinkle: real): (r: real)
    requires IsSine(twinkle)
    requires 0.0 <= floor <= 1.0
    ensures 0.0 <= value ==> floor * value <= r <= value
    ensures twinkle == 1.0 ==> r == value
    ensures twinkle == -1.0 ==> r == floor * value
  {
    var u := Unit(twinkle);
    var g := floor + (1.0 - floor) * u;
    MulNonNegative(1.0 - floor, u);
    MulNonNegative(1.0 - floor, 1.0 - u);
    assert (1.0 - floor) * u <= 1.0 - floor;
    if 0.0 <= value then
      MulNonNegative(value, 1.0 - g);
      MulNonNegative(value, g - floor);
      value * g
    else
      value * g
  }

  /** Background star: `baseSize * (0.5 + 0.5 * unit)`. */
  function AmbientSize(baseSize: real, twinkle: real): (size: real)
    requires IsSine(twinkle)
    ensures 0.0 <= baseSize ==> 0.5 * baseSize <= size <= baseSize
  {
    Modulate(baseSize, 0.5, twinkle)
  }

  /** Background star: `brightness * (0.4 + 0.6 * unit)`. */
  function AmbientBrightness(brightness: real, twinkle: real): (current: real)
    requires IsSine(twinkle)
    ensures 0.0 <= brightness ==> 0.4 * brightness <= current <= brightness
  {
    Modulate(brightness, 0.4, twinkle)
  }

  /** Text star: `brightness * (0.7 + 0.3 * unit)`. */
  function GlyphBrightness(brightness: real, twinkle: real): (current: real)
    requires IsSine(twinkle)
    ensures 0.0 <= brightness ==> 0.7 * brightness <= current <= brightness
  {
    Modulate(brightness, 0.7, twinkle)
  }

  /** Text star: `size * (0.8 + 0.2 * unit)`. */
  function GlyphDisplaySize(size: real, twinkle: real): (displaySize: real)
    requires IsSine(twinkle)
    ensures 0.0 <= size ==> 0.8 * size <= displaySize <= size
  {
    Modulate(size, 0.8, twinkle)
  }

  /** A brighter twinkle never gives a smaller result: the remap is monotone in the sine value. */
  lemma ModulateMonotone(value: real, floor: real, t1: real, t2: real)
    requires IsSine(t1) && IsSine(t2) && t1 <= t2
    requires 0.0 <= floor <= 1.0 && 0.0 <= value
    ensures Modulate(value, floor, t1) <= Modulate(value, floor, t2)
  {
    var d := (1.0 - floor) * (Unit(t2) - Unit(t1));
    MulNonNegative(1.0 - floor, Unit(t2) - Unit(t1));
    assert Modulate(value, floor, t2) - Modulate(value, floor, t1) == value * d;
    MulNonNegative(value, d);
  }
}
