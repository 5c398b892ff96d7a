/** Hue and saturation, from zigbee/color.go, over the reals. */
module Color {
  import opened Text
  import opened Wrappers

  datatype Color = Color(hue: real, saturation: real)
  datatype RGB = RGB(r: real, g: real, b: real)

  function Max(a: real, b: real): real {
    if a < b then b else a
  }

  function Min(a: real, b: real): real {
    if a < b then a else b
  }

  function Abs(a: real): real {
    if a < 0.0 then -a else a
  }

  function Clamp(a: real): real {
    Max(0.0, Min(1.0, a))
  }

  /** math.Mod: the remainder takes the sign of the dividend. */
  function Mod(x: real, y: real): real
    requires y > 0.0
  {
    if x >= 0.0 then x - y * (x / y).Floor as real else x + y * (-x / y).Floor as real
  }

  function Value(c: RGB): real {
    Max(c.r, Max(c.g, c.b))
  }

  function Darkest(c: RGB): real {
    Min(c.r, Min(c.g, c.b))
  }

  /** Each channel between none and full. */
  predicate InRange(c: RGB) {
    0.0 <= c.r <= 1.0 && 0.0 <= c.g <= 1.0 && 0.0 <= c.b <= 1.0
  }

  function HueOf(c: RGB): real
    requires Value(c) > Darkest(c)
  {
    var max, d := Value(c), Value(c) - Darkest(c);
    if max == c.r then 60.0 * Mod((c.g - c.b) / d + 6.0, 6.0)
    else if max == c.g then 60.0 * ((c.b - c.r) / d + 2.0)
    else 60.0 * ((c.r - c.g) / d + 4.0)
  }

  function SaturationOf(c: RGB): real
    requires Value(c) != 0.0
  {
    (Value(c) - Darkest(c)) / Value(c)
  }

  /** A colour's hue and saturation; black has none, being no colour a light can be. */
  function FromRGB(c: RGB): Option<Color> {
    if Value(c) == 0.0 then None
    else if Value(c) == Darkest(c) then Some(Color(0.0, SaturationOf(c)))
    else Some(Color(HueOf(c), SaturationOf(c)))
  }

  /** The channels of six hex digits. */
  function Channels(n: nat): RGB {
    RGB((n / 65536 % 256) as real / 255.0, (n / 256 % 256) as real / 255.0, (n % 256) as real / 255.0)
  }

  function ParseHexColor(hex: string): Option<Color> {
    if |hex| != 6 || ParseHex(hex, 0x1_0000_0000).None? then None
    else FromRGB(Channels(ParseHex(hex, 0x1_0000_0000).value))
  }

  /** The channels of one sixth of the wheel. */
  function Spread(c: real, ramp: real, sixth: int): RGB {
    var x, m := c * ramp, 1.0 - c;
    if sixth == 0 then RGB(c + m, x + m, m)
    else if sixth == 1 then RGB(x + m, c + m, m)
    else if sixth == 2 then RGB(m, c + m, x + m)
    else if sixth == 3 then RGB(m, x + m, c + m)
    else if sixth == 4 then RGB(x + m, m, c + m)
    else RGB(c + m, m, x + m)
  }

  /** The two-step remainder of h, folded: up to one and down again. */
  function Ramp(h: real): real {
    1.0 - Abs(Mod(h, 2.0) - 1.0)
  }

  /** A hue brought within one turn, whatever its sign. */
  function OneTurn(hue: real): real {
    Mod(Mod(hue, 360.0) + 360.0, 360.0)
  }

  function Sixths(h: real, c: real): RGB {
    Spread(c, Ramp(h), h.Floor)
  }

  /** Hue and saturation at full value. */
  function HueToRGB(hue: real, saturation: real): RGB {
    Sixths(OneTurn(hue) / 60.0, Clamp(saturation))
  }

  // ----- The colour wheel without its sectors.

  /** How much of each primary the wheel shows at h sixths of a turn. */
  function Wheel(h: real): RGB {
    RGB(Clamp(Abs(h - 3.0) - 1.0), Clamp(2.0 - Abs(h - 2.0)), Clamp(2.0 - Abs(h - 4.0)))
  }

  /** White mixed with the wheel's colour. */
  function Mixed(s: real, w: RGB): RGB {
    RGB(1.0 - s + s * w.r, 1.0 - s + s * w.g, 1.0 - s + s * w.b)
  }

  lemma Turns(x: real, y: real, k: nat)
    requires y > 0.0 && x >= 0.0 && k as real <= x / y < (k + 1) as real
    ensures Mod(x, y) == x - y * k as real
  {
    assert (x / y).Floor == k;
  }

  /** A hue within the circle is left as it is. */
  lemma WithinTheCircle(hue: real)
    requires 0.0 <= hue < 360.0
    ensures OneTurn(hue) == hue
  {
  }

  /** The wheel's colour in one of its sixths, t of the way up or down the ramp. */
  function InSixth(t: real, sixth: int): RGB {
    if sixth == 0 then RGB(1.0, t, 0.0)
    else if sixth == 1 then RGB(t, 1.0, 0.0)
    else if sixth == 2 then RGB(0.0, 1.0, t)
    else if sixth == 3 then RGB(0.0, t, 1.0)
    else if sixth == 4 then RGB(t, 0.0, 1.0)
    else RGB(1.0, 0.0, t)
  }

  lemma SpreadMixes(c: real, t: real, sixth: int)
    ensures Spread(c, t, sixth) == Mixed(c, InSixth(t, sixth))
  {
  }

  lemma RampsOfTheWheel(h: real)
    requires 0.0 <= h < 6.0
    ensures Wheel(h) == InSixth(Ramp(h), h.Floor)
  {
    if h < 2.0 {
      Turns(h, 2.0, 0);
    } else if h < 4.0 {
      Turns(h, 2.0, 1);
    } else {
      Turns(h, 2.0, 2);
    }
  }

  lemma {:induction false} SixthsMix(h: real, c: real)
    requires 0.0 <= h < 6.0
    ensures Sixths(h, c) == Mixed(c, Wheel(h))
  {
    RampsOfTheWheel(h);
    SpreadMixes(c, Ramp(h), h.Floor);
  }

  /** The six sectors and their two-step remainder are one wheel. */
  lemma {:induction false} SectorsAreTheWheel(hue: real, s: real)
    requires 0.0 <= hue < 360.0
    ensures HueToRGB(hue, s) == Mixed(Clamp(s), Wheel(hue / 60.0))
  {
    WithinTheCircle(hue);
    SixthsMix(hue / 60.0, Clamp(s));
  }

  /** Red, green and blue, a third of a turn apart. */
  lemma {:induction false} Primaries()
    ensures HueToRGB(0.0, 1.0) == RGB(1.0, 0.0, 0.0)
    ensures HueToRGB(120.0, 1.0) == RGB(0.0, 1.0, 0.0)
    ensures HueToRGB(240.0, 1.0) == RGB(0.0, 0.0, 1.0)
  {
    hide HueToRGB;
    SectorsAreTheWheel(0.0, 1.0);
    SectorsAreTheWheel(120.0, 1.0);
    SectorsAreTheWheel(240.0, 1.0);
  }

  // ----- Pure colours and their places on the wheel.

  /** One primary in full and one missing. */
  predicate Pure(p: RGB) {
    InRange(p) && Value(p) == 1.0 && Darkest(p) == 0.0
  }

  /** Where a pure colour stands, in sixths of a turn. */
  function Place(p: RGB): real {
    if p.r == 1.0 then (if p.g >= p.b then p.g - p.b else p.g - p.b + 6.0)
    else if p.g == 1.0 then p.b - p.r + 2.0
    else p.r - p.g + 4.0
  }

  /** The wheel shows every pure colour, each in one place. */
  lemma PlaceOnTheWheel(p: RGB)
    requires Pure(p)
    ensures 0.0 <= Place(p) < 6.0 && Wheel(Place(p)) == p
  {
  }

  lemma WheelInPlace(h: real)
    requires 0.0 <= h < 6.0
    ensures Pure(Wheel(h)) && Place(Wheel(h)) == h
  {
  }

  // ----- Round trips.

  function Share(v: real, min: real, max: real): real
    requires max > min
  {
    (v - min) / (max - min)
  }

  /** Each channel's share of the colour once the white in it is taken out. */
  function Shares(c: RGB): RGB
    requires Value(c) > Darkest(c)
  {
    var min, max := Darkest(c), Value(c);
    RGB(Share(c.r, min, max), Share(c.g, min, max), Share(c.b, min, max))
  }

  lemma Fraction(t: real, d: real)
    requires 0.0 <= t <= d && d > 0.0
    ensures 0.0 <= t / d <= 1.0 && (t / d == 1.0 <==> t == d) && (t / d == 0.0 <==> t == 0.0)
  {
  }

  lemma Difference(a: real, b: real, min: real, d: real)
    requires d > 0.0
    ensures (a - b) / d == (a - min) / d - (b - min) / d
    ensures a >= b <==> (a - min) / d >= (b - min) / d
  {
  }

  lemma SharesArePure(c: RGB)
    requires Value(c) > Darkest(c)
    ensures Pure(Shares(c))
    ensures Shares(c).r == 1.0 <==> c.r == Value(c)
    ensures Shares(c).g == 1.0 <==> c.g == Value(c)
  {
    var min, d := Darkest(c), Value(c) - Darkest(c);
    Fraction(c.r - min, d);
    Fraction(c.g - min, d);
    Fraction(c.b - min, d);
  }

  lemma WithinSix(f: real)
    requires -1.0 <= f <= 1.0
    ensures Mod(f + 6.0, 6.0) == if f >= 0.0 then f else f + 6.0
  {
  }

  /** The hue reported is the place of the colour's shares. */
  lemma HueIsPlace(c: RGB)
    requires Value(c) > Darkest(c)
    ensures HueOf(c) == 60.0 * Place(Shares(c))
  {
    var min, d, p := Darkest(c), Value(c) - Darkest(c), Shares(c);
    SharesArePure(c);
    if c.r == Value(c) {
      Difference(c.g, c.b, min, d);
      WithinSix(p.g - p.b);
    } else if c.g == Value(c) {
      Difference(c.b, c.r, min, d);
    } else {
      Difference(c.r, c.g, min, d);
    }
  }

  lemma ThreeFactors(s: real, q: real, max: real)
    ensures (1.0 - s + s * q) * max == max - s * max + q * (s * max)
  {
  }

  lemma Quotient(q: real, y: real, x: real)
    requires y > 0.0 && q * y == x
    ensures x / y == q
  {
  }

  lemma MixRestores(v: real, min: real, max: real)
    requires 0.0 <= min < max
    ensures var s := (max - min) / max; 1.0 - s + s * ((v - min) / (max - min)) == v / max
  {
    var d := max - min;
    var s, q := d / max, (v - min) / d;
    assert s * max == d && q * d == v - min;
    ThreeFactors(s, q, max);
    var left := 1.0 - s + s * q;
    assert left * max == max - d + (v - min);
    Quotient(left, max, v);
  }

  function Brightest(c: RGB): RGB
    requires Value(c) > 0.0
  {
    RGB(c.r / Value(c), c.g / Value(c), c.b / Value(c))
  }

  lemma MixedShares(c: RGB, s: real)
    requires 0.0 <= Darkest(c) < Value(c) && s == (Value(c) - Darkest(c)) / Value(c)
    ensures Mixed(s, Shares(c)) == Brightest(c)
  {
    MixRestores(c.r, Darkest(c), Value(c));
    MixRestores(c.g, Darkest(c), Value(c));
    MixRestores(c.b, Darkest(c), Value(c));
  }

  /** At no saturation every hue is white. */
  lemma White(hue: real)
    requires 0.0 <= hue < 360.0
    ensures HueToRGB(hue, 0.0) == RGB(1.0, 1.0, 1.0)
  {
  }

  lemma GreyRoundTrip(c: RGB)
    requires Value(c) == Darkest(c) > 0.0
    ensures FromRGB(c) == Some(Color(0.0, 0.0)) && Brightest(c) == RGB(1.0, 1.0, 1.0)
  {
    Quotient(1.0, Value(c), Value(c));
    Quotient(0.0, Value(c), 0.0);
  }

  lemma {:induction false} PureShown(p: RGB, hue: real, s: real)
    requires Pure(p) && hue == 60.0 * Place(p) && 0.0 <= s <= 1.0
    ensures 0.0 <= hue < 360.0 && HueToRGB(hue, s) == Mixed(s, p)
  {
    PlaceOnTheWheel(p);
    WithinTheCircle(hue);
    SixthsMix(Place(p), s);
  }

  /** Hue and saturation are all of a colour but its brightness. */
  lemma {:induction false} ColourRoundTrip(c: RGB)
    requires InRange(c) && Value(c) > 0.0
    ensures FromRGB(c).Some?
    ensures var color := FromRGB(c).value;
      && 0.0 <= color.hue < 360.0 && 0.0 <= color.saturation <= 1.0
      && HueToRGB(color.hue, color.saturation) == Brightest(c)
  {
    if Value(c) == Darkest(c) {
      GreyRoundTrip(c);
      White(0.0);
    } else {
      Fraction(Value(c) - Darkest(c), Value(c));
      HueIsPlace(c);
      SharesArePure(c);
      PureShown(Shares(c), HueOf(c), SaturationOf(c));
      MixedShares(c, SaturationOf(c));
    }
  }

  lemma {:induction false} Channel(k: nat)
    requires k < 256
    ensures 0.0 <= k as real / 255.0 <= 1.0 && (k as real / 255.0 == 0.0 <==> k == 0)
  {
  }

  lemma {:induction false} BytesOf(n: nat)
    ensures n % 0x100_0000 == n / 65536 % 256 * 65536 + n / 256 % 256 * 256 + n % 256
  {
    var x, a := n % 256, n / 256;
    var y, b := a % 256, a / 256;
    var z, c := b % 256, b / 256;
    assert n / 65536 == b;
    assert n == 0x100_0000 * c + (z * 65536 + y * 256 + x) && z * 65536 + y * 256 + x < 0x100_0000;
  }

  lemma {:induction false} ChannelsInRange(n: nat)
    ensures InRange(Channels(n))
    ensures Value(Channels(n)) == 0.0 <==> n % 0x100_0000 == 0
  {
    Channel(n / 65536 % 256);
    Channel(n / 256 % 256);
    Channel(n % 256);
    BytesOf(n);
  }

  /** Every triplet of six hex digits but black is a colour, and shows as itself at full
      brightness. */
  lemma {:induction false} HexColourShows(hex: string)
    ensures var n := ParseHex(hex, 0x1_0000_0000);
      if |hex| == 6 && n.Some? && n.value % 0x100_0000 != 0 then
        ParseHexColor(hex).Some? && var color := ParseHexColor(hex).value;
        Value(Channels(n.value)) > 0.0 && HueToRGB(color.hue, color.saturation) == Brightest(Channels(n.value))
      else ParseHexColor(hex).None?
  {
    if |hex| == 6 && ParseHex(hex, 0x1_0000_0000).Some? {
      var n := ParseHex(hex, 0x1_0000_0000).value;
      ChannelsInRange(n);
      if n % 0x100_0000 != 0 {
        ColourRoundTrip(Channels(n));
      }
    }
  }

  lemma {:induction false} OneMoreDigit(s: string, k: nat, v: nat, d: nat)
    requires k < |s| && HexValue(s[..k]) == Some(v) && HexDigit(s[k]) == Some(d)
    ensures HexValue(s[..k + 1]) == Some(16 * v + d)
  {
    assert s[..k + 1][..k] == s[..k];
  }

  lemma {:induction false} ThreePlaces(a: nat, b: nat, c: nat)
    requires a < 256 && b < 256 && c < 256
    ensures var n := 65536 * a + 256 * b + c; n / 65536 % 256 == a && n / 256 % 256 == b && n % 256 == c
  {
    var n := 65536 * a + 256 * b + c;
    assert n / 256 == 256 * a + b && n % 256 == c;
    assert n / 65536 == a;
  }

  lemma {:induction false} ThreeBytes(a: nat, b: nat, c: nat)
    requires a < 256 && b < 256 && c < 256
    ensures Channels(65536 * a + 256 * b + c) == RGB(a as real / 255.0, b as real / 255.0, c as real / 255.0)
  {
    ThreePlaces(a, b, c);
  }

  lemma NoHexDigits()
    ensures HexValue("") == Some(0)
  {
  }

  lemma DigitBelow(c: char)
    ensures HexDigit(c).Some? ==> HexDigit(c).value < 16
  {
  }

  /** The digits of a colour two by two: red, green, blue. */
  lemma {:induction false} HexByDigits(hex: string, d: seq<nat>)
    requires |hex| == |d| == 6 && forall i | 0 <= i < 6 :: HexDigit(hex[i]) == Some(d[i])
    ensures var n := ParseHex(hex, 0x1_0000_0000);
      n.Some? && Channels(n.value) == RGB((16 * d[0] + d[1]) as real / 255.0, (16 * d[2] + d[3]) as real / 255.0,
                                          (16 * d[4] + d[5]) as real / 255.0)
  {
    hide HexDigit, HexValue, Channels;
    NoHexDigits();
    assert hex[..0] == "" && hex[..6] == hex;
    var a, b, c := 16 * d[0] + d[1], 16 * d[2] + d[3], 16 * d[4] + d[5];
    OneMoreDigit(hex, 0, 0, d[0]);
    OneMoreDigit(hex, 1, d[0], d[1]);
    OneMoreDigit(hex, 2, a, d[2]);
    OneMoreDigit(hex, 3, 16 * a + d[2], d[3]);
    OneMoreDigit(hex, 4, 256 * a + b, d[4]);
    OneMoreDigit(hex, 5, 16 * (256 * a + b) + d[4], d[5]);
    forall i | 0 <= i < 6 ensures d[i] < 16 { DigitBelow(hex[i]); }
    ThreeBytes(a, b, c);
  }

  lemma Remainder(x: real)
    ensures -360.0 < Mod(x, 360.0) < 360.0 && (x >= 0.0 ==> Mod(x, 360.0) >= 0.0)
  {
  }

  lemma OneTurnRange(hue: real)
    ensures 0.0 <= OneTurn(hue) < 360.0
  {
    Remainder(hue);
    Remainder(Mod(hue, 360.0) + 360.0);
  }

  lemma Between(s: real, v: real, c: real)
    requires 0.0 < s && 0.0 <= v <= 1.0 && c == 1.0 - s + s * v
    ensures 1.0 - s <= c <= 1.0 && (v == 1.0 ==> c == 1.0) && (v == 0.0 ==> c == 1.0 - s)
  {
  }

  lemma {:induction false} MixtureExtremes(p: RGB, s: real)
    requires Pure(p) && 0.0 < s <= 1.0
    ensures Value(Mixed(s, p)) == 1.0 && Darkest(Mixed(s, p)) == 1.0 - s
  {
    var c := Mixed(s, p);
    Between(s, p.r, c.r);
    Between(s, p.g, c.g);
    Between(s, p.b, c.b);
  }

  lemma ShareOfMixture(v: real, s: real, c: real)
    requires 0.0 < s && c == 1.0 - s + s * v
    ensures Share(c, 1.0 - s, 1.0) == v
  {
    assert 1.0 - (1.0 - s) == s && c - (1.0 - s) == v * s;
    Quotient(v, s, v * s);
  }

  lemma {:induction false} MixtureShares(p: RGB, s: real)
    requires 0.0 < s
    ensures var c := Mixed(s, p);
      Share(c.r, 1.0 - s, 1.0) == p.r && Share(c.g, 1.0 - s, 1.0) == p.g && Share(c.b, 1.0 - s, 1.0) == p.b
  {
    hide Share;
    var c := Mixed(s, p);
    ShareOfMixture(p.r, s, c.r);
    ShareOfMixture(p.g, s, c.g);
    ShareOfMixture(p.b, s, c.b);
  }

  lemma {:induction false} MixtureRead(p: RGB, s: real)
    requires Pure(p) && 0.0 < s <= 1.0
    ensures var c := Mixed(s, p);
      Value(c) == 1.0 && Darkest(c) == 1.0 - s && Shares(c) == p && SaturationOf(c) == s
  {
    hide Value, Darkest, Mixed, Share;
    MixtureExtremes(p, s);
    MixtureShares(p, s);
  }

  lemma InRangeRoundTrip(hue: real, s: real)
    requires 0.0 <= hue < 360.0 && 0.0 < s <= 1.0
    ensures FromRGB(HueToRGB(hue, s)) == Some(Color(hue, s))
  {
    var p := Wheel(hue / 60.0);
    WithinTheCircle(hue);
    SixthsMix(hue / 60.0, s);
    WheelInPlace(hue / 60.0);
    MixtureRead(p, s);
    HueIsPlace(Mixed(s, p));
  }

  lemma WhiteRead()
    ensures FromRGB(RGB(1.0, 1.0, 1.0)) == Some(Color(0.0, 0.0))
  {
    GreyRoundTrip(RGB(1.0, 1.0, 1.0));
  }

  /** The way back: any hue and saturation, shown and read again, are as they were, the hue
      brought within one turn and the saturation within its range; white has no hue. */
  lemma HueRoundTrip(hue: real, s: real)
    ensures 0.0 <= OneTurn(hue) < 360.0
    ensures FromRGB(HueToRGB(hue, s)) ==
      Some(if s <= 0.0 then Color(0.0, 0.0) else Color(OneTurn(hue), Clamp(s)))
  {
    OneTurnRange(hue);
    WithinTheCircle(OneTurn(hue));
    assert HueToRGB(hue, s) == HueToRGB(OneTurn(hue), Clamp(s));
    if s <= 0.0 {
      White(OneTurn(hue));
      WhiteRead();
    } else {
      InRangeRoundTrip(OneTurn(hue), Clamp(s));
    }
  }

  lemma WhiteIsGrey(c: RGB)
    requires InRange(c) && Value(c) > 0.0
    ensures Brightest(c) == RGB(1.0, 1.0, 1.0) <==> Value(c) == Darkest(c)
  {
  }

  lemma {:induction false} ReadFromBrightest(c: RGB)
    requires InRange(c) && Value(c) > Darkest(c)
    ensures FromRGB(Brightest(c)) == FromRGB(c)
  {
    ColourRoundTrip(c);
    Fraction(Value(c) - Darkest(c), Value(c));
    InRangeRoundTrip(FromRGB(c).value.hue, FromRGB(c).value.saturation);
  }

  /** Two colours have the same hue and saturation exactly when they differ in brightness alone. */
  lemma {:induction false} SameButForBrightness(c: RGB, c': RGB)
    requires InRange(c) && InRange(c') && Value(c) > 0.0 && Value(c') > 0.0
    ensures FromRGB(c) == FromRGB(c') <==> Brightest(c) == Brightest(c')
  {
    ColourRoundTrip(c);
    ColourRoundTrip(c');
    WhiteIsGrey(c);
    WhiteIsGrey(c');
    if Value(c) == Darkest(c) && Value(c') == Darkest(c') {
      GreyRoundTrip(c);
      GreyRoundTrip(c');
    } else if Value(c) > Darkest(c) && Value(c') > Darkest(c') {
      ReadFromBrightest(c);
      ReadFromBrightest(c');
    }
  }

  lemma ValueScales(c: RGB, k: real, c': RGB)
    requires k > 0.0 && c' == RGB(k * c.r, k * c.g, k * c.b)
    ensures Value(c') == k * Value(c)
  {
  }

  lemma Scaled(c: RGB, k: real, c': RGB, max: real, max': real)
    requires k > 0.0 && c' == RGB(k * c.r, k * c.g, k * c.b) && max > 0.0 && max' == k * max
    ensures max' > 0.0 && RGB(c'.r / max', c'.g / max', c'.b / max') == RGB(c.r / max, c.g / max, c.b / max)
  {
  }

  lemma {:induction false} BrightestScaled(c: RGB, k: real, c': RGB)
    requires Value(c) > 0.0 && k > 0.0 && c' == RGB(k * c.r, k * c.g, k * c.b)
    ensures Value(c') > 0.0 && Brightest(c') == Brightest(c)
  {
    ValueScales(c, k, c');
    Scaled(c, k, c', Value(c), Value(c'));
  }

  /** Making a colour brighter or darker changes neither. */
  lemma BrightnessIsDiscarded(c: RGB, k: real, c': RGB)
    requires InRange(c) && InRange(c') && Value(c) > 0.0 && k > 0.0 && c' == RGB(k * c.r, k * c.g, k * c.b)
    ensures FromRGB(c') == FromRGB(c)
  {
    BrightestScaled(c, k, c');
    SameButForBrightness(c, c');
  }
}
