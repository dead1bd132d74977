/**
 The colour of a pixel of `fictionalPng` against an independent definition: the conversion of CSS Color Module Level 4,
 section 7.1, which has no sectors, and the values the drawing gives at the edges of the image.
 */
module PngColourCss {
  import opened Png
  import opened PngColour

  function Least(a: real, b: real): real { if a <= b then a else b }

  function Most(a: real, b: real): real { if a >= b then a else b }

  /** (n + h / 30) mod 12, for a hue in [0, 360) and n below 12. */
  function Dial(n: real, h: real): real {
    var k := n + h / 30.0;
    if k >= 12.0 then k - 12.0 else k
  }

  /** How far channel n is pulled below the lightness or lifted above it, as a share of half the chroma. */
  function Pull(n: real, h: real): real {
    Most(-1.0, Least(Least(Dial(n, h) - 3.0, 9.0 - Dial(n, h)), 1.0))
  }

  /** f(n) of the specification: the channel before it is scaled to a byte. */
  function CssChannel(n: real, h: real, s: real, l: real): real {
    l - Times(Times(s, Least(l, 1.0 - l)), Pull(n, h))
  }

  lemma ChromaIsTwice(s: real, l: real)
    ensures Chroma(s, l) == 2.0 * Times(s, Least(l, 1.0 - l))
  {
    assert Room(l) == 2.0 * Least(l, 1.0 - l);
  }

  /** What the sector form adds to the base, as a share u of the chroma, is a pull of 1 - 2u. */
  lemma ShareIsPull(a: real, u: real, l: real)
    ensures l - a + 2.0 * Times(a, u) == l - Times(a, 1.0 - 2.0 * u)
  {
  }

  lemma TwiceTimes(a: real, u: real)
    ensures Times(2.0 * a, u) == 2.0 * Times(a, u) && Times(a, 1.0) == a && Times(a, -1.0) == -a
  {
  }

  /** The share of the chroma that the second largest channel gets. */
  function Share(h: real): real { 1.0 - Abs(Remainder(h / 60.0, 2.0) - 1.0) }

  lemma Turns(h: real, q: int)
    requires 0.0 <= h && 120.0 * q as real <= h < 120.0 * (q + 1) as real
    ensures Remainder(h / 60.0, 2.0) == h / 60.0 - 2.0 * q as real
  {
    var r := h / 60.0;
    assert r / 2.0 == h / 120.0;
    assert q as real <= h / 120.0 < (q + 1) as real;
    assert Quotient(r, 2.0) == q;
  }

  lemma ShareBySector(h: real)
    requires 0.0 <= h < 360.0
    ensures Share(h) == if h < 60.0 then h / 60.0 else if h < 120.0 then 2.0 - h / 60.0
                        else if h < 180.0 then h / 60.0 - 2.0 else if h < 240.0 then 4.0 - h / 60.0
                        else if h < 300.0 then h / 60.0 - 4.0 else 6.0 - h / 60.0
  {
    Turns(h, if h < 120.0 then 0 else if h < 240.0 then 1 else 2);
    hide Remainder;
  }

  lemma PullBySector(h: real)
    requires 0.0 <= h < 360.0
    ensures Pull(0.0, h) == if h < 60.0 then -1.0 else if h < 120.0 then h / 30.0 - 3.0 else if h < 240.0 then 1.0
                            else if h < 300.0 then 9.0 - h / 30.0 else -1.0
    ensures Pull(8.0, h) == if h < 60.0 then 1.0 - h / 30.0 else if h < 180.0 then -1.0
                            else if h < 240.0 then h / 30.0 - 7.0 else 1.0
    ensures Pull(4.0, h) == if h < 120.0 then 1.0 else if h < 180.0 then 5.0 - h / 30.0 else if h < 300.0 then -1.0
                            else h / 30.0 - 11.0
  {
  }

  /** The three channels of the sector form before rounding. */
  function SectorChannels(h: real, s: real, l: real): (real, real, real) {
    var c := Chroma(s, l);
    var x, m := Second(c, h), l - c / 2.0;
    if h < 60.0 then (c + m, x + m, m) else if h < 120.0 then (x + m, c + m, m) else if h < 180.0 then (m, c + m, x + m)
    else if h < 240.0 then (m, x + m, c + m) else if h < 300.0 then (x + m, m, c + m) else (c + m, m, x + m)
  }

  lemma SectorsRound(h: real, s: real, l: real)
    ensures var (r, g, b) := SectorChannels(h, s, l);
            HslToRgb(h, s, l) == Rgb(MathRound(r * 255.0), MathRound(g * 255.0), MathRound(b * 255.0))
  {
    hide Chroma, Second, MathRound;
    var m := l - Chroma(s, l) / 2.0;
    assert 0.0 + m == m;
  }

  lemma ChannelsAgree(h: real, s: real, l: real)
    requires 0.0 <= h < 360.0
    ensures SectorChannels(h, s, l) == (CssChannel(0.0, h, s, l), CssChannel(8.0, h, s, l), CssChannel(4.0, h, s, l))
  {
    var a, u := Times(s, Least(l, 1.0 - l)), Share(h);
    ChromaIsTwice(s, l);
    TwiceTimes(a, u);
    ShareIsPull(a, u, l);
    ShareBySector(h);
    PullBySector(h);
    assert Second(Chroma(s, l), h) == Times(2.0 * a, u);
    hide Times, Chroma, Second, Pull, Share, Least;
  }

  /**
   For every hue on the circle, and any saturation and lightness: the six sectors give the same bytes as the sector-free
   definition, red, green and blue being its channels 0, 8 and 4.
   */
  lemma HslIsCss(h: real, s: real, l: real)
    requires 0.0 <= h < 360.0
    ensures HslToRgb(h, s, l)
         == Rgb(MathRound(CssChannel(0.0, h, s, l) * 255.0), MathRound(CssChannel(8.0, h, s, l) * 255.0),
                MathRound(CssChannel(4.0, h, s, l) * 255.0))
  {
    SectorsRound(h, s, l);
    ChannelsAgree(h, s, l);
    hide HslToRgb, SectorChannels, CssChannel, MathRound;
  }

  /** Rounding is to the nearest integer, halves upwards. */
  lemma RoundsToNearest(v: real)
    ensures v - 0.5 < MathRound(v) as real <= v + 0.5
  {
  }

  /** An even share of 12 degrees for each step along a row. */
  function PerPixel(width: nat): real
    requires width > 1
  {
    12.0 / (width - 1) as real
  }

  /** Along each row the hue drifts by 12 degrees, evenly, and below the horizon it lies 6 further. */
  lemma HueDrifts(spec: Spec, x: nat, y: nat)
    requires x < spec.width && y < spec.height && spec.width > 1 && spec.height > 1
    ensures var below := if y as real > spec.horizonY * (spec.height - 1) as real then 6.0 else 0.0;
            && RawHue(spec, 0, y) == spec.hue + below
            && RawHue(spec, spec.width - 1, y) == spec.hue + below + 12.0
    ensures x + 1 < spec.width ==> RawHue(spec, x + 1, y) == RawHue(spec, x, y) + PerPixel(spec.width)
  {
    Below(y as real, (spec.height - 1) as real, spec.horizonY);
    Ends(spec.width);
    if x + 1 < spec.width { DriftStep(spec, x, y); }
    assert Fraction(y, spec.height) == y as real / (spec.height - 1) as real;
    hide Fraction;
  }

  lemma DriftStep(spec: Spec, x: nat, y: nat)
    requires x + 1 < spec.width
    ensures RawHue(spec, x + 1, y) == RawHue(spec, x, y) + PerPixel(spec.width)
  {
    Evenly(x, spec.width);
    hide Fraction, PerPixel;
    var f, g := Fraction(x, spec.width), Fraction(x + 1, spec.width);
    var base := spec.hue + if Fraction(y, spec.height) > spec.horizonY then 6.0 else 0.0;
    assert RawHue(spec, x, y) == base + 12.0 * f && RawHue(spec, x + 1, y) == base + 12.0 * g;
  }

  lemma Ends(n: nat)
    requires n > 1
    ensures Fraction(0, n) == 0.0 && Fraction(n - 1, n) == 1.0
  {
    var d := (n - 1) as real;
    assert d >= 1.0;
    assert d / d == 1.0 && 0.0 / d == 0.0;
    assert Fraction(n - 1, n) == d / d && Fraction(0, n) == 0.0 / d;
  }

  lemma Evenly(i: nat, n: nat)
    requires i + 1 < n
    ensures 12.0 * Fraction(i + 1, n) == 12.0 * Fraction(i, n) + PerPixel(n)
  {
    var d := (n - 1) as real;
    assert (i + 1) as real == i as real + 1.0;
    assert (i as real + 1.0) / d == i as real / d + 1.0 / d;
    assert 12.0 / d == 1.0 / d * 12.0;
  }

  /** From the top row to the bottom the saturation falls from 0.30 to 0.14; a treatment picture has 0.06 more of it. */
  lemma SaturationFalls(spec: Spec)
    requires spec.height > 1
    ensures var more := if spec.treatment then 0.06 else 0.0;
            && Saturation(Fraction(0, spec.height), spec.treatment) == 0.3 + more
            && Saturation(Fraction(spec.height - 1, spec.height), spec.treatment) == 0.14 + more
  {
    Ends(spec.height);
    hide Fraction;
  }

  lemma Below(y: real, n: real, horizon: real)
    requires n > 0.0
    ensures y / n > horizon <==> y > horizon * n
  {
    if y / n > horizon { assert y / n * n > horizon * n; }
    if y > horizon * n { assert y / n > horizon * n / n; }
  }

  /** Contrast is stretched by 1.45 about the anchor and held within 0.14 and 0.9; a pixel is that light at its hue. */
  lemma PixelTold(spec: Spec, lightness: (nat, nat) -> real, x: nat, y: nat)
    requires spec.hue >= 0.0 && x < spec.width && y < spec.height
    ensures var stretched := 1.45 * lightness(x, y) - 0.45 * spec.anchor;
            var l := Most(0.14, Least(0.9, stretched));
            exists h :: && 0.0 <= h < 360.0 && OnCircle(h, RawHue(spec, x, y))
                        && Pixel(spec, lightness, x, y)
                           == HslToRgb(h, Saturation(Fraction(y, spec.height), spec.treatment), l)
  {
    RawHueRange(spec, x, y);
    var raw := RawHue(spec, x, y);
    RemainderRange(raw, 360.0);
    var h := Remainder(raw, 360.0);
    assert Turned(raw, h, Quotient(raw, 360.0));
    assert OnCircle(h, raw);
    var l := Most(0.14, Least(0.9, 1.45 * lightness(x, y) - 0.45 * spec.anchor));
    assert Clamped(spec.anchor + (lightness(x, y) - spec.anchor) * 1.45) == l;
    hide HslToRgb, Remainder, RawHue, Saturation, Fraction, OnCircle, Clamped, Most, Least;
    assert Pixel(spec, lightness, x, y) == HslToRgb(h, Saturation(Fraction(y, spec.height), spec.treatment), l);
  }

  /** The same direction, whole turns apart. */
  ghost predicate OnCircle(h: real, raw: real) {
    exists turns: int :: Turned(raw, h, turns)
  }

  predicate Turned(raw: real, h: real, turns: int) {
    raw == h + 360.0 * turns as real
  }
}
