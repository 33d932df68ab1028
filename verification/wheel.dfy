/** The colour wheel: turns a pointer heading and radius into an RGB colour.

    The heading (degrees clockwise from the top) is scaled onto a cyclic palette
    of anchor colours whose last entry repeats the first; the two neighbouring
    anchors are interpolated linearly, the result is blended toward white as the
    pointer moves toward the centre, and every channel is rounded to an integer.
    Arithmetic is exact (`real`); rounding is half-up, as `Math.round` does. */
module Wheel {

  /** An integer RGB triple, as held in the palette and in the picked colour. */
  datatype Rgb = Rgb(r: int, g: int, b: int)

  /** An RGB triple before rounding. */
  datatype Mix = Mix(r: real, g: real, b: real)

  /** The anchor palette; the seventh entry closes the cycle. */
  const Palette: seq<Rgb> := [
    Rgb(0xe4, 0x3f, 0x00),
    Rgb(0xfa, 0xe4, 0x10),
    Rgb(0x55, 0xcc, 0x3b),
    Rgb(0x09, 0xad, 0xff),
    Rgb(0x6b, 0x0e, 0xfd),
    Rgb(0xe7, 0x0d, 0x86),
    Rgb(0xe4, 0x3f, 0x00)
  ]

  const White: Rgb := Rgb(255, 255, 255)

  predicate IsByte(x: int) { 0 <= x <= 255 }

  predicate IsColor(c: Rgb) { IsByte(c.r) && IsByte(c.g) && IsByte(c.b) }

  predicate InByteRange(x: real) { 0.0 <= x <= 255.0 }

  predicate IsMix(m: Mix) { InByteRange(m.r) && InByteRange(m.g) && InByteRange(m.b) }

  function AsMix(c: Rgb): Mix { Mix(c.r as real, c.g as real, c.b as real) }

  function Min(x: int, y: int): int { if x <= y then x else y }

  function Max(x: int, y: int): int { if x <= y then y else x }

  function Abs(x: real): real { if x < 0.0 then -x else x }

  /** Every anchor is a valid colour and the palette closes its cycle. */
  lemma PaletteWellFormed()
    ensures |Palette| == 7
    ensures forall k :: 0 <= k < |Palette| ==> IsColor(Palette[k])
    ensures Palette[|Palette| - 1] == Palette[0]
  {
  }

  /** The heading scaled onto the palette: 0 at the top, 6 after a full turn. */
  function Scale(heading: real): (a: real)
    requires 0.0 <= heading <= 360.0
    ensures 0.0 <= a <= (|Palette| - 1) as real
    ensures a * 60.0 == heading
  {
    heading / 360.0 * (|Palette| - 1) as real
  }

  /** Index of the anchor at or before the scaled heading (`a0`). */
  function Segment(a: real): (k: int)
    requires 0.0 <= a <= (|Palette| - 1) as real
    ensures 0 <= k < |Palette|
    ensures k == a.Floor
  {
    a.Floor % |Palette|
  }

  /** Index of the following anchor (`a1`), wrapping past the end. */
  function Next(k: int): (k1: int)
    requires 0 <= k < |Palette|
    ensures 0 <= k1 < |Palette|
    ensures k < |Palette| - 1 ==> k1 == k + 1
    ensures k == |Palette| - 1 ==> k1 == 0
  {
    (k + 1) % |Palette|
  }

  /** Weight of the following anchor (`a1w`), the fractional part of `a`;
      the current anchor gets `1 - w` (`a0w`). */
  function Weight(a: real): (w: real)
    ensures 0.0 <= w < 1.0
    ensures 0.0 < 1.0 - w <= 1.0
    ensures (a.Floor as real + w) == a
  {
    a - a.Floor as real
  }

  /** The two-anchor mix moves from `c0` toward `c1` by the weight. */
  lemma MixBetween(c0: real, c1: real, w: real)
    requires 0.0 <= w <= 1.0
    ensures c0 * (1.0 - w) + c1 * w - c0 == (c1 - c0) * w
    ensures c0 <= c1 ==> c0 <= c0 * (1.0 - w) + c1 * w <= c1
    ensures c1 < c0 ==> c1 <= c0 * (1.0 - w) + c1 * w <= c0
  {
    var x := c0 * (1.0 - w) + c1 * w;
    var span := c1 - c0;
    var d := span * w;
    assert x == c0 + d;
    if c0 <= c1 {
      ScaleDown(span, w);
      assert d <= span;
    } else {
      ScaleDown(-span, w);
      assert (-span) * w == -d;
    }
  }

  /** One channel interpolated between two anchors. */
  function Lerp(c0: int, c1: int, w: real): (x: real)
    requires 0.0 <= w <= 1.0
    ensures Min(c0, c1) as real <= x <= Max(c0, c1) as real
    ensures w == 0.0 ==> x == c0 as real
    ensures x - c0 as real == (c1 - c0) as real * w
  {
    MixBetween(c0 as real, c1 as real, w);
    c0 as real * (1.0 - w) + c1 as real * w
  }

  /** Scaling a non-negative quantity by a weight in [0,1] cannot enlarge it. */
  lemma ScaleDown(x: real, w: real)
    requires 0.0 <= x
    requires 0.0 <= w <= 1.0
    ensures 0.0 <= x * w <= x
  {
    assert x - x * w == x * (1.0 - w);
  }

  /** The pure ring colour at a heading, before the white blend. */
  function Ring(heading: real): (m: Mix)
    requires 0.0 <= heading <= 360.0
    ensures IsMix(m)
  {
    PaletteWellFormed();
    var a := Scale(heading);
    var k := Segment(a);
    var k1 := Next(k);
    var w := Weight(a);
    Mix(Lerp(Palette[k].r, Palette[k1].r, w),
        Lerp(Palette[k].g, Palette[k1].g, w),
        Lerp(Palette[k].b, Palette[k1].b, w))
  }

  /** The radius as the handler uses it: cut off at 1. */
  function ClampRadius(radius: real): (r: real)
    requires 0.0 <= radius
    ensures 0.0 <= r <= 1.0
    ensures r <= radius
    ensures radius <= 1.0 ==> r == radius
  {
    if radius > 1.0 then 1.0 else radius
  }

  /** Weight of the ring colour (`cw`); the rest (`ww = 1 - cw`) goes to white. */
  function RingWeight(radius: real): (cw: real)
    requires 0.0 <= radius
    ensures 0.0 <= cw <= 1.0
    ensures cw == 1.0 <==> radius >= 0.8
    ensures cw == 0.0 <==> radius == 0.0
  {
    var r := ClampRadius(radius);
    if r < 0.8 then r / 0.8 else 1.0
  }

  /** One channel blended toward white. */
  function Blend(c: real, cw: real): (x: real)
    requires InByteRange(c)
    requires 0.0 <= cw <= 1.0
    ensures c <= x <= 255.0
    ensures cw == 1.0 ==> x == c
    ensures cw == 0.0 ==> x == 255.0
    ensures 255.0 - x == (255.0 - c) * cw
  {
    var x := c * cw + 255.0 * (1.0 - cw);
    assert 255.0 - x == (255.0 - c) * cw;
    ScaleDown(255.0 - c, cw);
    x
  }

  /** `Math.round`: the nearest integer, halves rounded up. */
  function Round(x: real): (n: int)
    ensures x - 0.5 < n as real <= x + 0.5
    ensures InByteRange(x) ==> IsByte(n)
  {
    (x + 0.5).Floor
  }

  function RoundMix(m: Mix): (c: Rgb)
    ensures IsMix(m) ==> IsColor(c)
  {
    Rgb(Round(m.r), Round(m.g), Round(m.b))
  }

  function BlendMix(m: Mix, cw: real): (x: Mix)
    requires IsMix(m)
    requires 0.0 <= cw <= 1.0
    ensures IsMix(x)
  {
    Mix(Blend(m.r, cw), Blend(m.g, cw), Blend(m.b, cw))
  }

  /** The colour the `mousemove` handler stores for a pointer at `heading`
      degrees and distance `radius` from the centre (1 = the rim). */
  function WheelColor(heading: real, radius: real): (c: Rgb)
    requires 0.0 <= heading <= 360.0
    requires 0.0 <= radius
    ensures IsColor(c)
    ensures radius >= 0.8 ==> c == RoundMix(Ring(heading))
    ensures radius == 0.0 ==> c == White
  {
    RoundMix(BlendMix(Ring(heading), RingWeight(radius)))
  }

  // ---------------------------------------------------------------------
  // Properties of the mapping

  /** The rounding is monotone. */
  lemma RoundMonotone(x: real, y: real)
    requires x <= y
    ensures Round(x) <= Round(y)
  {
    assert Round(x) as real <= x + 0.5 <= y + 0.5 < Round(y) as real + 1.0;
  }

  /** At every heading that is a multiple of 60 degrees the ring colour is
      exactly the matching anchor, the last one included. */
  lemma RingHitsAnchors(k: int)
    requires 0 <= k < |Palette|
    ensures Ring(60.0 * k as real) == AsMix(Palette[k])
  {
    var a := Scale(60.0 * k as real);
    assert a == k as real;
    assert a.Floor == k;
    assert Weight(a) == 0.0;
  }

  /** A pointer due right of the centre has heading 90: halfway between the
      second and third anchors, well away from the seam. */
  lemma PointerRightOfCentre()
    ensures WheelColor(90.0, 0.9) == Rgb(168, 216, 38)
  {
    var a := Scale(90.0);
    assert a == 1.5;
    assert a.Floor == 1;
    assert Weight(a) == 0.5;
    assert Ring(90.0) == Mix(167.5, 216.0, 37.5);
  }

  /** Heading 0 and a full turn produce the same colour: the palette closes. */
  lemma SeamCloses(radius: real)
    requires 0.0 <= radius
    ensures Ring(0.0) == Ring(360.0)
    ensures WheelColor(0.0, radius) == WheelColor(360.0, radius)
  {
    RingHitsAnchors(0);
    RingHitsAnchors(|Palette| - 1);
  }

  /** Approaching a full turn from below, the ring colour tends to the first
      anchor: each channel is within 255 per 60 degrees left to turn. */
  lemma SeamContinuous(heading: real)
    requires 300.0 <= heading < 360.0
    ensures Abs(Ring(heading).r - Palette[0].r as real) <= (360.0 - heading) / 60.0 * 255.0
    ensures Abs(Ring(heading).g - Palette[0].g as real) <= (360.0 - heading) / 60.0 * 255.0
    ensures Abs(Ring(heading).b - Palette[0].b as real) <= (360.0 - heading) / 60.0 * 255.0
  {
    var a := Scale(heading);
    assert 5.0 <= a < 6.0;
    assert a.Floor == 5;
    var w := Weight(a);
    assert w == a - 5.0;
    var left := 6.0 - a;
    assert left == (360.0 - heading) / 60.0;
    var m := Ring(heading);
    assert m.r - Palette[6].r as real == (Palette[5].r - Palette[6].r) as real * left;
    assert m.g - Palette[6].g as real == (Palette[5].g - Palette[6].g) as real * left;
    assert m.b - Palette[6].b as real == (Palette[5].b - Palette[6].b) as real * left;
  }

  /** Moving the pointer toward the centre never takes a channel away from
      white: the blend is monotone in the radius. */
  lemma TowardWhite(heading: real, inner: real, outer: real)
    requires 0.0 <= heading <= 360.0
    requires 0.0 <= inner <= outer
    ensures WheelColor(heading, inner).r >= WheelColor(heading, outer).r
    ensures WheelColor(heading, inner).g >= WheelColor(heading, outer).g
    ensures WheelColor(heading, inner).b >= WheelColor(heading, outer).b
  {
    var m := Ring(heading);
    var ci, co := RingWeight(inner), RingWeight(outer);
    assert ci <= co;
    BlendMonotone(m.r, ci, co);
    BlendMonotone(m.g, ci, co);
    BlendMonotone(m.b, ci, co);
    RoundMonotone(Blend(m.r, co), Blend(m.r, ci));
    RoundMonotone(Blend(m.g, co), Blend(m.g, ci));
    RoundMonotone(Blend(m.b, co), Blend(m.b, ci));
  }

  /** A smaller ring weight leaves more white in a channel. */
  lemma BlendMonotone(c: real, cw: real, cw': real)
    requires InByteRange(c)
    requires 0.0 <= cw <= cw' <= 1.0
    ensures Blend(c, cw) >= Blend(c, cw')
  {
    assert (255.0 - c) * cw' - (255.0 - c) * cw == (255.0 - c) * (cw' - cw);
    ScaleDown(255.0 - c, cw' - cw);
  }

  /** Every output colour lies between the rounded ring colour and white,
      channel by channel. */
  lemma BetweenRingAndWhite(heading: real, radius: real)
    requires 0.0 <= heading <= 360.0
    requires 0.0 <= radius
    ensures RoundMix(Ring(heading)).r <= WheelColor(heading, radius).r <= 255
    ensures RoundMix(Ring(heading)).g <= WheelColor(heading, radius).g <= 255
    ensures RoundMix(Ring(heading)).b <= WheelColor(heading, radius).b <= 255
  {
    var m := Ring(heading);
    var cw := RingWeight(radius);
    RoundMonotone(m.r, Blend(m.r, cw));
    RoundMonotone(m.g, Blend(m.g, cw));
    RoundMonotone(m.b, Blend(m.b, cw));
  }
}
