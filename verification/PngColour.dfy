/** The colour arithmetic of `fictionalPng`, over the reals: which specifications stay within a byte. */
module PngColour {
  import opened Png

  function Abs(r: real): real { if r < 0.0 then -r else r }

  // Products are named, so that each proof decides when to look inside one.
  function Times(a: real, b: real): real { a * b }

  function Quotient(a: real, m: real): int
    requires m > 0.0
  {
    (a / m).Floor
  }

  /** JavaScript's `%`: the result takes the sign of the dividend. */
  function Remainder(a: real, m: real): real
    requires m > 0.0
  {
    if a >= 0.0 then a - Times(m, Quotient(a, m) as real) else -(-a - Times(m, Quotient(-a, m) as real))
  }

  function MathRound(r: real): int { (r + 0.5).Floor }

  /** How much chroma a lightness leaves room for. */
  function Room(l: real): real { 1.0 - Abs(2.0 * l - 1.0) }

  function Chroma(s: real, l: real): real { Times(Room(l), s) }

  /** The second largest channel, before the offset. */
  function Second(c: real, h: real): real {
    Times(c, 1.0 - Abs(Remainder(h / 60.0, 2.0) - 1.0))
  }

  function HslToRgb(h: real, s: real, l: real): Rgb {
    var c := Chroma(s, l);
    var x := Second(c, h);
    var m := l - c / 2.0;
    var (r, g, b) :=
      if h < 60.0 then (c, x, 0.0) else if h < 120.0 then (x, c, 0.0) else if h < 180.0 then (0.0, c, x)
      else if h < 240.0 then (0.0, x, c) else if h < 300.0 then (x, 0.0, c) else (c, 0.0, x);
    Rgb(MathRound((r + m) * 255.0), MathRound((g + m) * 255.0), MathRound((b + m) * 255.0))
  }

  predicate InRange(p: Rgb) {
    0 <= p.r <= 255 && 0 <= p.g <= 255 && 0 <= p.b <= 255
  }

  datatype Spec = Spec(width: nat, height: nat, hue: real, treatment: bool, horizonY: real, anchor: real)

  function Fraction(i: nat, n: nat): real {
    i as real / (if n <= 2 then 1 else n - 1) as real
  }

  /** The hue before the remainder is taken: it drifts along the row and steps at the horizon. */
  function RawHue(spec: Spec, x: nat, y: nat): real {
    spec.hue + Fraction(x, spec.width) * 12.0 + (if Fraction(y, spec.height) > spec.horizonY then 6.0 else 0.0)
  }

  /** One pixel; `lightness` stands for the style-dependent light model, which is unconstrained. */
  function Pixel(spec: Spec, lightness: (nat, nat) -> real, x: nat, y: nat): Rgb {
    HslToRgb(Remainder(RawHue(spec, x, y), 360.0),
             Saturation(Fraction(y, spec.height), spec.treatment),
             Clamped(spec.anchor + (lightness(x, y) - spec.anchor) * 1.45))
  }

  function Saturation(v: real, treatment: bool): real {
    0.14 + (1.0 - v) * 0.16 + (if treatment then 0.06 else 0.0)
  }

  /** Math.min(0.9, Math.max(0.14, l)) */
  function Clamped(l: real): real {
    if l < 0.14 then 0.14 else if l > 0.9 then 0.9 else l
  }

  lemma TimesMonotone(m: real, p: real, q: real)
    requires m > 0.0 && p <= q
    ensures Times(m, p) <= Times(m, q)
    ensures p < q ==> Times(m, p) < Times(m, q)
  {
  }

  lemma TimesQuotient(a: real, m: real)
    requires m > 0.0
    ensures Times(m, a / m) == a
  {
  }

  lemma TimesOneMore(m: real, q: real)
    ensures Times(m, q + 1.0) == Times(m, q) + m
  {
  }

  lemma QuotientRange(a: real, m: real)
    requires m > 0.0
    ensures Times(m, Quotient(a, m) as real) <= a < Times(m, Quotient(a, m) as real) + m
  {
    hide Times;
    var t, q := a / m, Quotient(a, m) as real;
    assert q <= t < q + 1.0;
    TimesQuotient(a, m);
    TimesMonotone(m, q, t);
    TimesMonotone(m, t, q + 1.0);
    TimesOneMore(m, q);
  }

  lemma RemainderRange(a: real, m: real)
    requires m > 0.0 && a >= 0.0
    ensures 0.0 <= Remainder(a, m) < m
  {
    hide Quotient, Times;
    QuotientRange(a, m);
  }

  lemma UnitProduct(c: real, t: real)
    requires c >= 0.0 && 0.0 <= t <= 1.0
    ensures 0.0 <= Times(c, t) <= c
  {
  }

  lemma RoundRange(v: real)
    requires 0.0 <= v <= 1.0
    ensures 0 <= MathRound(v * 255.0) <= 255
  {
  }

  lemma RoomRange(l: real)
    requires 0.0 <= l <= 1.0
    ensures 0.0 <= Room(l) <= 2.0 * l && Room(l) <= 2.0 - 2.0 * l
  {
  }

  /** The chroma never exceeds what the lightness leaves room for. */
  lemma ChromaRange(s: real, l: real)
    requires 0.0 <= s <= 1.0 && 0.0 <= l <= 1.0
    ensures 0.0 <= Chroma(s, l) <= 2.0 * l && Chroma(s, l) <= 2.0 - 2.0 * l
  {
    RoomRange(l);
    hide Room, Times;
    UnitProduct(Room(l), s);
  }

  lemma SecondRange(c: real, h: real)
    requires 0.0 <= c && 0.0 <= h < 360.0
    ensures 0.0 <= Second(c, h) <= c
  {
    RemainderRange(h / 60.0, 2.0);
    hide Remainder, Times;
    UnitProduct(c, 1.0 - Abs(Remainder(h / 60.0, 2.0) - 1.0));
  }

  /** Every hue in [0, 360), saturation and lightness in [0, 1] give a colour of three bytes. */
  lemma HslInRange(h: real, s: real, l: real)
    requires 0.0 <= h < 360.0 && 0.0 <= s <= 1.0 && 0.0 <= l <= 1.0
    ensures InRange(HslToRgb(h, s, l))
  {
    hide Chroma, Second, MathRound;
    ChromaRange(s, l);
    var c := Chroma(s, l);
    SecondRange(c, h);
    var m := l - c / 2.0;
    RoundRange(c + m);
    RoundRange(Second(c, h) + m);
    RoundRange(0.0 + m);
  }

  /** The green channel of a negative hue before rounding: the one channel that can leave the byte. */
  function NegativeGreen(h: real, s: real, l: real): real {
    (l - Chroma(s, l) / 2.0 + Times(Chroma(s, l), Remainder(h / 60.0, 2.0))) * 255.0
  }

  lemma NegativeRemainder(h: real)
    requires h < 0.0
    ensures -2.0 < Remainder(h / 60.0, 2.0) <= 0.0
  {
    RemainderRange(-h / 60.0, 2.0);
    assert -(h / 60.0) == -h / 60.0;
    hide Quotient, Times;
  }

  lemma TimesSign(c: real, t: real)
    requires c >= 0.0 && t <= 0.0
    ensures Times(c, t) <= 0.0
  {
  }

  lemma RoundBounds(v: real)
    ensures MathRound(v) >= 0 <==> v + 0.5 >= 0.0
    ensures v <= 255.0 ==> MathRound(v) <= 255
  {
  }

  /** Exactly which negative hues stay within a byte: those whose green channel does not round below zero. */
  lemma NegativeHueInRange(h: real, s: real, l: real)
    requires h < 0.0 && 0.0 <= s <= 1.0 && 0.0 <= l <= 1.0
    ensures InRange(HslToRgb(h, s, l)) <==> NegativeGreen(h, s, l) + 0.5 >= 0.0
  {
    ChromaRange(s, l);
    NegativeRemainder(h);
    var c, rem := Chroma(s, l), Remainder(h / 60.0, 2.0);
    assert 1.0 - Abs(rem - 1.0) == rem;
    assert Second(c, h) == Times(c, rem);
    TimesSign(c, rem);
    hide Chroma, Second, MathRound, Times, Remainder;
    var m := l - c / 2.0;
    RoundRange(c + m);
    RoundRange(0.0 + m);
    RoundBounds((Second(c, h) + m) * 255.0);
  }

  lemma FractionRange(i: nat, n: nat)
    requires i < n
    ensures 0.0 <= Fraction(i, n) <= 1.0
  {
    if n > 2 {
      assert i as real <= (n - 1) as real;
    }
  }

  /** For a non-negative base hue no pixel of the image overflows its byte, whatever the light model. */
  lemma PixelInRange(spec: Spec, lightness: (nat, nat) -> real, x: nat, y: nat)
    requires spec.hue >= 0.0 && x < spec.width && y < spec.height
    ensures InRange(Pixel(spec, lightness, x, y)) && KeptByBuffer(Pixel(spec, lightness, x, y))
  {
    RawHueRange(spec, x, y);
    RemainderRange(RawHue(spec, x, y), 360.0);
    FractionRange(y, spec.height);
    SaturationRange(Fraction(y, spec.height), spec.treatment);
    var contrasted := spec.anchor + (lightness(x, y) - spec.anchor) * 1.45;
    ClampedRange(contrasted);
    hide HslToRgb, Remainder, Fraction, RawHue, Saturation, Clamped;
    HslInRange(Remainder(RawHue(spec, x, y), 360.0),
               Saturation(Fraction(y, spec.height), spec.treatment), Clamped(contrasted));
    InRangeIsKept(Pixel(spec, lightness, x, y));
  }

  /** How far below a multiple of 120 degrees the drawn hue lies, in sixths of a turn. */
  function Depth(spec: Spec, x: nat, y: nat): real {
    -Remainder(Remainder(RawHue(spec, x, y), 360.0) / 60.0, 2.0)
  }

  /** The condition on base hue, position and treatment under which no lightness drives a pixel out of range. */
  predicate SafeHue(spec: Spec, x: nat, y: nat) {
    || RawHue(spec, x, y) >= 0.0
    || Times(Saturation(Fraction(y, spec.height), spec.treatment), 1.0 + 2.0 * Depth(spec, x, y)) <= 256.0 / 255.0
  }

  lemma NegativeHueStaysNegative(a: real)
    requires a < 0.0
    ensures -360.0 < Remainder(a, 360.0) <= 0.0
  {
    RemainderRange(-a, 360.0);
    hide Quotient, Times;
  }

  lemma TimesAssociates(a: real, b: real, c: real)
    ensures Times(Times(a, b), c) == Times(a, Times(b, c))
  {
  }

  lemma TimesHalf(r: real, s: real)
    ensures Times(r / 2.0, s) == Times(r, s) / 2.0
  {
  }

  lemma TimesSpread(c: real, rem: real)
    ensures Times(c / 2.0, 1.0 - 2.0 * rem) == c / 2.0 - Times(c, rem)
  {
  }

  /** What the green channel comes to at a lightness, given saturation and depth. */
  lemma GreenAt(s: real, l: real, rem: real)
    ensures l - Chroma(s, l) / 2.0 + Times(Chroma(s, l), rem) == l - Times(Room(l) / 2.0, Times(s, 1.0 - 2.0 * rem))
  {
    hide Room, Times;
    TimesAssociates(Room(l) / 2.0, s, 1.0 - 2.0 * rem);
    TimesHalf(Room(l), s);
    TimesSpread(Chroma(s, l), rem);
  }

  /** Half lightness is the worst: there the chroma has the most room. */
  lemma HalfIsWorst(l: real, k: real)
    requires 0.0 <= l <= 1.0 && 0.0 <= k <= 256.0 / 255.0
    ensures (l - Times(Room(l) / 2.0, k)) * 255.0 + 0.5 >= 0.0
  {
    RoomRange(l);
    var half := Room(l) / 2.0;
    assert half <= l && 0.0 <= half <= 0.5;
    TimesAtMost(half, k, 256.0 / 255.0);
    hide Times, Room;
    var p := Times(half, k);
    assert 255.0 * p <= 256.0 * half;
    assert (l - p) * 255.0 == 255.0 * l - 255.0 * p;
  }

  lemma TimesAtMost(a: real, k: real, m: real)
    requires a >= 0.0 && k <= m
    ensures Times(a, k) <= a * m
  {
  }

  /** A pixel is in range exactly when its drawn hue is not negative or its green channel does not round below zero. */
  lemma PixelInRangeIff(spec: Spec, lightness: (nat, nat) -> real, x: nat, y: nat)
    requires x < spec.width && y < spec.height
    ensures var h := Remainder(RawHue(spec, x, y), 360.0);
            var s := Saturation(Fraction(y, spec.height), spec.treatment);
            var l := Clamped(spec.anchor + (lightness(x, y) - spec.anchor) * 1.45);
            InRange(Pixel(spec, lightness, x, y)) <==> h >= 0.0 || NegativeGreen(h, s, l) + 0.5 >= 0.0
  {
    var raw := RawHue(spec, x, y);
    FractionRange(y, spec.height);
    SaturationRange(Fraction(y, spec.height), spec.treatment);
    var l := spec.anchor + (lightness(x, y) - spec.anchor) * 1.45;
    ClampedRange(l);
    if raw >= 0.0 { RemainderRange(raw, 360.0); } else { NegativeHueStaysNegative(raw); }
    var h, s := Remainder(raw, 360.0), Saturation(Fraction(y, spec.height), spec.treatment);
    hide HslToRgb, Remainder, Fraction, RawHue, Saturation, Clamped, InRange, NegativeGreen;
    if h < 0.0 {
      NegativeHueInRange(h, s, Clamped(l));
    } else {
      HslInRange(h, s, Clamped(l));
    }
  }

  lemma SafeHueIsEnough(spec: Spec, lightness: (nat, nat) -> real, x: nat, y: nat)
    requires x < spec.width && y < spec.height && SafeHue(spec, x, y)
    ensures InRange(Pixel(spec, lightness, x, y))
  {
    PixelInRangeIff(spec, lightness, x, y);
    var h := Remainder(RawHue(spec, x, y), 360.0);
    if h < 0.0 {
      if RawHue(spec, x, y) >= 0.0 { RemainderRange(RawHue(spec, x, y), 360.0); }
      var s := Saturation(Fraction(y, spec.height), spec.treatment);
      var l := Clamped(spec.anchor + (lightness(x, y) - spec.anchor) * 1.45);
      FractionRange(y, spec.height);
      SaturationRange(Fraction(y, spec.height), spec.treatment);
      ClampedRange(spec.anchor + (lightness(x, y) - spec.anchor) * 1.45);
      NegativeRemainder(h);
      var rem := Remainder(h / 60.0, 2.0);
      GreenAt(s, l, rem);
      NonNegativeProduct(s, 1.0 - 2.0 * rem);
      hide Remainder, Saturation, Fraction, Clamped, Chroma, Times, RawHue, Room;
      HalfIsWorst(l, Times(s, 1.0 - 2.0 * rem));
    }
  }

  lemma NonNegativeProduct(s: real, t: real)
    requires s >= 0.0 && t >= 0.0
    ensures Times(s, t) >= 0.0
  {
  }

  // A light model under which the contrasted lightness is exactly one half everywhere.
  function HalfLight(spec: Spec): (nat, nat) -> real {
    (x: nat, y: nat) => spec.anchor + (0.5 - spec.anchor) / 1.45
  }

  /** At lightness one half the green channel of an unsafe hue rounds below zero. */
  lemma HalfLightIsWorst(spec: Spec, x: nat, y: nat)
    requires x < spec.width && y < spec.height && !SafeHue(spec, x, y)
    ensures var h := Remainder(RawHue(spec, x, y), 360.0);
            var s := Saturation(Fraction(y, spec.height), spec.treatment);
            var l := Clamped(spec.anchor + (HalfLight(spec)(x, y) - spec.anchor) * 1.45);
            h < 0.0 && NegativeGreen(h, s, l) + 0.5 < 0.0
  {
    var h := Remainder(RawHue(spec, x, y), 360.0);
    NegativeHueStaysNegative(RawHue(spec, x, y));
    var s := Saturation(Fraction(y, spec.height), spec.treatment);
    FractionRange(y, spec.height);
    SaturationRange(Fraction(y, spec.height), spec.treatment);
    assert spec.anchor + (HalfLight(spec)(x, y) - spec.anchor) * 1.45 == 0.5;
    assert Clamped(0.5) == 0.5 && Room(0.5) == 1.0;
    var rem := Remainder(h / 60.0, 2.0);
    if h == 0.0 { ZeroRemainder(s); }
    GreenAt(s, 0.5, rem);
    hide Remainder, Saturation, Fraction, Clamped, Chroma, Times, RawHue, Room, HalfLight;
  }

  lemma ZeroRemainder(s: real)
    ensures Remainder(0.0 / 60.0, 2.0) == 0.0 && Times(s, 1.0 + 2.0 * -0.0) == s
  {
    assert Quotient(0.0, 2.0) == 0;
  }

  /**
   Exactly which base hues are safe: an image stays in range under every light model if and only if at every pixel the
   drawn hue is non-negative, or its depth below a multiple of 120 degrees is small enough for the saturation there.
   */
  lemma ImageInRangeIff(spec: Spec)
    ensures (forall lightness: (nat, nat) -> real, x: nat, y: nat :: x < spec.width && y < spec.height ==>
               InRange(Pixel(spec, lightness, x, y)))
       <==> (forall x: nat, y: nat :: x < spec.width && y < spec.height ==> SafeHue(spec, x, y))
  {
    hide SafeHue, InRange, Pixel;
    if forall x: nat, y: nat :: x < spec.width && y < spec.height ==> SafeHue(spec, x, y) {
      forall lightness: (nat, nat) -> real, x: nat, y: nat | x < spec.width && y < spec.height
        ensures InRange(Pixel(spec, lightness, x, y))
      {
        SafeHueIsEnough(spec, lightness, x, y);
      }
    } else {
      var x: nat, y: nat :| x < spec.width && y < spec.height && !SafeHue(spec, x, y);
      assert !InRange(Pixel(spec, HalfLight(spec), x, y)) by {
        PixelInRangeIff(spec, HalfLight(spec), x, y);
        HalfLightIsWorst(spec, x, y);
      }
    }
  }

  /** Storing the channels in a buffer changes none of them. */
  predicate KeptByBuffer(p: Rgb) {
    Stored(p.r) == p.r && Stored(p.g) == p.g && Stored(p.b) == p.b
  }

  lemma InRangeIsKept(p: Rgb)
    requires InRange(p)
    ensures KeptByBuffer(p)
  {
  }

  lemma RawHueRange(spec: Spec, x: nat, y: nat)
    requires spec.hue >= 0.0 && x < spec.width
    ensures RawHue(spec, x, y) >= 0.0
  {
    FractionRange(x, spec.width);
  }

  lemma ClampedRange(l: real)
    ensures 0.0 <= Clamped(l) <= 1.0
  {
  }

  lemma SaturationRange(v: real, treatment: bool)
    requires 0.0 <= v <= 1.0
    ensures 0.0 <= Saturation(v, treatment) <= 1.0
  {
  }

  /** A negative base hue can leave the range: the remainder keeps its sign. */
  lemma NegativeHueEscapes()
    ensures var spec := Spec(1, 1, -90.0, true, 0.58, 0.5);
            !InRange(Pixel(spec, (x: nat, y: nat) => 0.0, 0, 0))
  {
    var spec := Spec(1, 1, -90.0, true, 0.58, 0.5);
    assert Quotient(90.0, 360.0) == 0 && Fraction(0, 1) == 0.0 && RawHue(spec, 0, 0) == -90.0;
    assert Remainder(-90.0, 360.0) == -90.0;
    assert Saturation(0.0, true) == 0.36 && Clamped(0.5 + (0.0 - 0.5) * 1.45) == 0.14;
    GreenBelowZero();
    hide HslToRgb, Remainder, Fraction, RawHue, Saturation, Clamped;
  }

  lemma GreenBelowZero()
    ensures HslToRgb(-90.0, 0.36, 0.14).g < 0
  {
    assert Quotient(1.5, 2.0) == 0;
    assert Remainder(-1.5, 2.0) == -1.5;
    assert Chroma(0.36, 0.14) == 0.1008;
    assert Second(0.1008, -90.0) == -0.1512;
  }
}
