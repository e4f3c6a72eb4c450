/** Colours as red, green, blue and as hue, saturation, value. */
module Colour {

  datatype Rgb = Rgb(red: real, green: real, blue: real)

  /** Hue counts in whole turns. */
  datatype Hsv = Hsv(hue: real, saturation: real, value: real)

  function Max(a: real, b: real): real {
    if a < b then b else a
  }

  function Min(a: real, b: real): real {
    if a < b then a else b
  }

  function Top(c: Rgb): real {
    Max(c.red, Max(c.green, c.blue))
  }

  function Bottom(c: Rgb): real {
    Min(c.red, Min(c.green, c.blue))
  }

  /** `d` sixths of a turn, scaled by `n`. */
  function Sixths(d: real, n: real): real
    requires n > 0.0
  {
    d / (6.0 * n)
  }

  function Hue(c: Rgb): real {
    var top, n := Top(c), Top(c) - Bottom(c);
    if top == Bottom(c) then 0.0
    else if top == c.red then Sixths(c.green - c.blue + (if c.green < c.blue then 6.0 * n else 0.0), n)
    else if top == c.green then Sixths(c.blue - c.red + 2.0 * n, n)
    else Sixths(c.red - c.green + 4.0 * n, n)
  }

  /** `RGBtoHSV`: the three inputs run from 0 to 255. */
  function FromRgb(c: Rgb): Hsv {
    var top := Top(c);
    Hsv(Hue(c), if top == 0.0 then 0.0 else (top - Bottom(c)) / top, top / 255.0)
  }

  /** The value `v` with share `k` of the saturation taken out. */
  function Faded(v: real, saturation: real, k: real): real {
    v * (1.0 - k * saturation)
  }

  /** `HSVtoRGB`, for hues from zero to one turn. */
  function ToRgb(c: Hsv): Rgb
    requires 0.0 <= c.hue <= 1.0
  {
    var n := (6.0 * c.hue).Floor;
    var o := 6.0 * c.hue - n as real;
    var v := c.value;
    var h, l, p := Faded(v, c.saturation, 1.0), Faded(v, c.saturation, o), Faded(v, c.saturation, 1.0 - o);
    match n % 6
    case 0 => Rgb(v, p, h)
    case 1 => Rgb(l, v, h)
    case 2 => Rgb(h, v, p)
    case 3 => Rgb(h, l, v)
    case 4 => Rgb(p, h, v)
    case _ => Rgb(v, h, l)
  }

  // ----- the closed form -----

  /** How much of the saturation is taken out of a channel whose hue lies `k` sixths of a turn on. */
  function Ramp(k: real): real {
    Max(0.0, Min(1.0, Min(k, 4.0 - k)))
  }

  /** A channel by one formula for all hues, which are shifted by `shift` sixths. */
  function Channel(c: Hsv, shift: real): real {
    var x := shift + 6.0 * c.hue;
    c.value - c.value * c.saturation * Ramp(Around(x))
  }

  /** The six cases come to the closed form. */
  lemma ToRgbIsClosedForm(c: Hsv)
    requires 0.0 <= c.hue <= 1.0
    ensures ToRgb(c) == Rgb(Channel(c, 5.0), Channel(c, 3.0), Channel(c, 1.0))
  {
    var n := (6.0 * c.hue).Floor;
    var o := 6.0 * c.hue - n as real;
    assert 0 <= n <= 6 && (n == 6 ==> o == 0.0);
    Ramps(n, o);
    ChannelIs(c, 5.0, n, o);
    ChannelIs(c, 3.0, n, o);
    ChannelIs(c, 1.0, n, o);
    FadedIs(c.value, c.saturation, 0.0);
    FadedByNone(c.value, c.saturation);
    FadedIs(c.value, c.saturation, 1.0);
    FadedIs(c.value, c.saturation, o);
    FadedIs(c.value, c.saturation, 1.0 - o);
    hide Faded, Ramp, Channel, Out;
  }

  /** The value `v` with `k` times the saturation taken out, multiplied out. */
  function Out(v: real, saturation: real, k: real): real {
    v - v * saturation * k
  }

  lemma FadedIs(v: real, saturation: real, k: real)
    ensures Faded(v, saturation, k) == Out(v, saturation, k)
  {
  }

  lemma FadedByNone(v: real, saturation: real)
    ensures Faded(v, saturation, 0.0) == v
  {
  }

  /** The shifted hue, at most once around. */
  function Around(x: real): real {
    if x >= 6.0 then x - 6.0 else x
  }

  lemma Ramps(n: int, o: real)
    requires 0 <= n <= 6 && 0.0 <= o < 1.0 && (n == 6 ==> o == 0.0)
    ensures Ramp(Around(5.0 + n as real + o))
         == match n case 1 => o case 2 => 1.0 case 3 => 1.0 case 4 => 1.0 - o case _ => 0.0
    ensures Ramp(Around(3.0 + n as real + o))
         == match n case 0 => 1.0 - o case 3 => o case 4 => 1.0 case 5 => 1.0 case 6 => 1.0 case _ => 0.0
    ensures Ramp(Around(1.0 + n as real + o))
         == match n case 2 => 1.0 - o case 3 => 0.0 case 4 => 0.0 case 5 => o case _ => 1.0
  {
  }

  lemma ChannelIs(c: Hsv, shift: real, n: int, o: real)
    requires 6.0 * c.hue == n as real + o
    ensures Channel(c, shift) == Out(c.value, c.saturation, Ramp(Around(shift + n as real + o)))
  {
    hide Ramp;
    assert shift + 6.0 * c.hue == shift + n as real + o;
  }

  function Scaled(c: Rgb, k: real): Rgb {
    Rgb(k * c.red, k * c.green, k * c.blue)
  }

  predicate InUnit(x: real) {
    0.0 <= x <= 1.0
  }

  predicate InCube(c: Rgb) {
    InUnit(c.red) && InUnit(c.green) && InUnit(c.blue)
  }

  // ----- from red, green, blue and back -----

  lemma SixthsTimesSix(d: real, n: real)
    requires n > 0.0
    ensures 6.0 * Sixths(d, n) * n == d
  {
  }

  /** Six times a hue whose offset in its sixth is `d / n`. */
  lemma Located(d: real, n: real, base: real)
    requires n > 0.0 && -n <= d <= n
    ensures var x := 6.0 * Sixths(d + base * n, n); base - 1.0 <= x <= base + 1.0 && (x - base) * n == d
    ensures d >= 0.0 ==> 6.0 * Sixths(d + base * n, n) >= base
    ensures d < 0.0 ==> 6.0 * Sixths(d + base * n, n) < base
  {
    var x := 6.0 * Sixths(d + base * n, n);
    SixthsTimesSix(d + base * n, n);
    assert (x - base) * n == x * n - base * n;
    Ratio(x - base, n, d);
  }

  lemma Ratio(y: real, n: real, d: real)
    requires n > 0.0 && y * n == d && -n <= d <= n
    ensures -1.0 <= y <= 1.0 && (d >= 0.0 ==> y >= 0.0) && (d < 0.0 ==> y < 0.0)
  {
  }

  /** The largest channel lowered by share `k` of the spread. */
  function Lowered(top: real, n: real, k: real): real {
    top - k * n
  }

  /** Taking share `k` of the saturation out of the largest channel. */
  lemma FadedChannel(top: real, n: real, k: real)
    requires top > 0.0
    ensures Faded(top / 255.0, n / top, k) == Lowered(top, n, k) / 255.0
  {
    var s := n / top;
    assert s * top == n;
    assert top * (1.0 - k * s) == top - k * (s * top);
    Over(top, 1.0 - k * s);
  }

  lemma Over(a: real, b: real)
    ensures a / 255.0 * b == a * b / 255.0
  {
  }

  lemma Sector(c: Hsv, n: nat, o: real)
    requires n <= 5 && 0.0 <= o < 1.0 && 6.0 * c.hue == n as real + o
    ensures 0.0 <= c.hue < 1.0
    ensures var v, h := c.value, Faded(c.value, c.saturation, 1.0);
            var l, p := Faded(c.value, c.saturation, o), Faded(c.value, c.saturation, 1.0 - o);
            ToRgb(c) == match n
                        case 0 => Rgb(v, p, h)
                        case 1 => Rgb(l, v, h)
                        case 2 => Rgb(h, v, p)
                        case 3 => Rgb(h, l, v)
                        case 4 => Rgb(p, h, v)
                        case _ => Rgb(v, h, l)
  {
    assert (6.0 * c.hue).Floor == n;
  }

  /** The hue lies `o` into sixth `n`, and the two channels that are neither largest nor smallest
      at its ends are `o * spread` away from one of them. */
  ghost predicate HueIn(c: Rgb, n: nat, o: real) {
    && n <= 5 && 0.0 <= o < 1.0 && 6.0 * Hue(c) == n as real + o
    && var (top, bottom) := (Top(c), Bottom(c));
       var falling, rising := Lowered(top, top - bottom, o), Lowered(top, top - bottom, 1.0 - o);
       c == match n
            case 0 => Rgb(top, rising, bottom)
            case 1 => Rgb(falling, top, bottom)
            case 2 => Rgb(bottom, top, rising)
            case 3 => Rgb(bottom, falling, top)
            case 4 => Rgb(rising, bottom, top)
            case _ => Rgb(top, bottom, falling)
  }

  lemma HueOfRed(c: Rgb) returns (n: nat, o: real)
    requires Top(c) == c.red > Bottom(c)
    ensures HueIn(c, n, o)
  {
    var d, spread := c.green - c.blue, Top(c) - Bottom(c);
    if d >= 0.0 {
      Located(d, spread, 0.0);
      assert d + 0.0 * spread == d;
      n, o := Split(6.0 * Hue(c), 0);
    } else {
      Located(d, spread, 6.0);
      n, o := Split(6.0 * Hue(c), 5);
    }
  }

  lemma Split(x: real, n: nat) returns (m: nat, o: real)
    requires n as real <= x <= n as real + 1.0
    ensures x == m as real + o && 0.0 <= o < 1.0
    ensures x < n as real + 1.0 ==> m == n
    ensures x == n as real + 1.0 ==> m == n + 1 && o == 0.0
  {
    if x == n as real + 1.0 {
      m, o := n + 1, 0.0;
    } else {
      m, o := n, x - n as real;
    }
  }

  lemma HueOfGreen(c: Rgb) returns (n: nat, o: real)
    requires Top(c) == c.green > c.red && Top(c) > Bottom(c)
    ensures HueIn(c, n, o)
  {
    var d, spread := c.blue - c.red, Top(c) - Bottom(c);
    Located(d, spread, 2.0);
    n, o := Split(6.0 * Hue(c), if d < 0.0 then 1 else 2);
  }

  lemma HueOfBlue(c: Rgb) returns (n: nat, o: real)
    requires Top(c) == c.blue > Bottom(c) && c.blue > c.red && c.blue > c.green
    ensures HueIn(c, n, o)
  {
    var d, spread := c.red - c.green, Top(c) - Bottom(c);
    Located(d, spread, 4.0);
    n, o := Split(6.0 * Hue(c), if d < 0.0 then 3 else 4);
  }

  /** Any colour survives the trip through hue, saturation and value. */
  lemma RgbRoundTrip(c: Rgb)
    requires InCube(c)
    ensures var hsv := FromRgb(Scaled(c, 255.0));
            && 0.0 <= hsv.hue < 1.0 && InUnit(hsv.saturation) && InUnit(hsv.value)
            && ToRgb(hsv) == c
  {
    var k := Scaled(c, 255.0);
    BackToScale(k);
    assert Rgb(k.red / 255.0, k.green / 255.0, k.blue / 255.0) == c;
    var hsv := FromRgb(k);
    assert hsv.value == Top(c);
  }

  lemma BackToScale(k: Rgb)
    requires k.red >= 0.0 && k.green >= 0.0 && k.blue >= 0.0
    ensures var hsv := FromRgb(k);
            && 0.0 <= hsv.hue < 1.0 && InUnit(hsv.saturation)
            && ToRgb(hsv) == Rgb(k.red / 255.0, k.green / 255.0, k.blue / 255.0)
  {
    var hsv, top, bottom := FromRgb(k), Top(k), Bottom(k);
    if top == bottom {
      GreyBack(k);
    } else {
      var n, o;
      if top == k.red {
        n, o := HueOfRed(k);
      } else if top == k.green {
        n, o := HueOfGreen(k);
      } else {
        n, o := HueOfBlue(k);
      }
      ColourBack(k, n, o);
    }
  }

  lemma GreyBack(k: Rgb)
    requires Top(k) == Bottom(k) >= 0.0
    ensures var hsv := FromRgb(k);
            && hsv.hue == 0.0 && hsv.saturation == 0.0
            && ToRgb(hsv) == Rgb(k.red / 255.0, k.green / 255.0, k.blue / 255.0)
  {
    var hsv := FromRgb(k);
    Sector(hsv, 0, 0.0);
    assert hsv.saturation == 0.0;
    assert Faded(hsv.value, 0.0, 1.0) == hsv.value;
  }

  lemma ColourBack(k: Rgb, n: nat, o: real)
    requires k.red >= 0.0 && k.green >= 0.0 && k.blue >= 0.0 && Top(k) > Bottom(k) && HueIn(k, n, o)
    ensures var hsv := FromRgb(k);
            && 0.0 <= hsv.hue < 1.0 && InUnit(hsv.saturation)
            && ToRgb(hsv) == Rgb(k.red / 255.0, k.green / 255.0, k.blue / 255.0)
  {
    var hsv, top, spread := FromRgb(k), Top(k), Top(k) - Bottom(k);
    assert 0.0 < spread <= top;
    assert Lowered(top, spread, 1.0) == Bottom(k);
    hide Top, Bottom, Hue, Faded, ToRgb, Lowered;
    Sector(hsv, n, o);
    FadedChannel(top, spread, 1.0);
    FadedChannel(top, spread, o);
    FadedChannel(top, spread, 1.0 - o);
    Share(spread, top);
  }

  lemma Share(a: real, b: real)
    requires 0.0 <= a <= b && b > 0.0
    ensures InUnit(a / b)
  {
  }

  // ----- from hue, saturation, value and back -----

  lemma ScaledFaded(c: Hsv, k: real)
    ensures 255.0 * Faded(c.value, c.saturation, k) == Lowered(255.0 * c.value, Spread(c), k)
  {
    var v, s := c.value, c.saturation;
    assert v * (1.0 - k * s) == v - k * (v * s);
  }

  /** The channels of sixth `n`, where the middle one has moved by `x` out of `spread`. */
  function Channels(n: nat, top: real, spread: real, x: real): Rgb
    requires n <= 5
  {
    match n
    case 0 => Rgb(top, top - spread + x, top - spread)
    case 1 => Rgb(top - x, top, top - spread)
    case 2 => Rgb(top - spread, top, top - spread + x)
    case 3 => Rgb(top - spread, top - x, top)
    case 4 => Rgb(top - spread + x, top - spread, top)
    case _ => Rgb(top, top - spread, top - x)
  }

  /** `n` times the spread. */
  function Steps(n: nat, spread: real): real
    requires n <= 5
  {
    match n
    case 0 => 0.0
    case 1 => spread
    case 2 => 2.0 * spread
    case 3 => 3.0 * spread
    case 4 => 4.0 * spread
    case _ => 5.0 * spread
  }

  lemma HueOfChannels(n: nat, top: real, spread: real, x: real)
    requires n <= 5 && 0.0 <= x < spread <= top
    ensures var k := Channels(n, top, spread, x);
            Top(k) == top && Bottom(k) == top - spread && Hue(k) == Sixths(x + Steps(n, spread), spread)
  {
    hide Sixths;
  }

  lemma SixthsOf(o: real, n: nat, spread: real)
    requires spread > 0.0 && n <= 5
    ensures 6.0 * Sixths(Move(o, spread) + Steps(n, spread), spread) == o + n as real
  {
    var d := Move(o, spread) + Steps(n, spread);
    StepsAre(n, spread);
    Distribute(o, n as real, spread);
    SixthsTimesSix(d, spread);
    hide Sixths;
    Cancel(6.0 * Sixths(d, spread), o + n as real, spread);
  }

  lemma StepsAre(n: nat, spread: real)
    requires n <= 5
    ensures Steps(n, spread) == n as real * spread
  {
  }

  lemma Distribute(a: real, b: real, c: real)
    ensures a * c + b * c == (a + b) * c
  {
  }

  lemma Cancel(a: real, b: real, n: real)
    requires n > 0.0 && a * n == b * n
    ensures a == b
  {
    assert (a - b) * n == 0.0;
  }

  /** Largest minus smallest channel, on the scale of 255. */
  function Spread(c: Hsv): real {
    255.0 * c.value * c.saturation
  }

  function Move(o: real, spread: real): real {
    o * spread
  }

  lemma SpreadSign(c: Hsv)
    requires InUnit(c.value) && InUnit(c.saturation)
    ensures 0.0 <= Spread(c) <= 255.0 * c.value
    ensures Spread(c) > 0.0 <==> c.value > 0.0 && c.saturation > 0.0
    ensures c.value > 0.0 ==> Spread(c) / (255.0 * c.value) == c.saturation
  {
    Shrinks(255.0 * c.value, c.saturation);
    if c.value > 0.0 {
      Cancel(Spread(c) / (255.0 * c.value), c.saturation, 255.0 * c.value);
    }
  }

  lemma Shrinks(a: real, s: real)
    requires a >= 0.0 && InUnit(s)
    ensures 0.0 <= a * s <= a && (a * s > 0.0 <==> a > 0.0 && s > 0.0)
  {
    assert a * (1.0 - s) >= 0.0;
    assert a * (1.0 - s) == a - a * s;
  }

  lemma MoveRange(o: real, spread: real)
    requires 0.0 <= o < 1.0 && spread >= 0.0
    ensures 0.0 <= Move(o, spread) && (spread > 0.0 ==> Move(o, spread) < spread)
            && (spread == 0.0 ==> Move(o, spread) == 0.0)
  {
    if spread > 0.0 {
      assert (1.0 - o) * spread > 0.0;
      assert (1.0 - o) * spread == spread - o * spread;
    }
  }

  lemma LoweredMoves(w: real, spread: real, o: real)
    ensures Lowered(w, spread, 1.0) == w - spread && Lowered(w, spread, o) == w - Move(o, spread)
    ensures Lowered(w, spread, 1.0 - o) == w - spread + Move(o, spread)
  {
    assert (1.0 - o) * spread == spread - o * spread;
  }

  /** What the six branches produce, on the scale of 255. */
  lemma ScaledChannels(c: Hsv, n: nat, o: real)
    requires n <= 5 && 0.0 <= o < 1.0 && 6.0 * c.hue == n as real + o
    ensures 0.0 <= c.hue < 1.0
    ensures Scaled(ToRgb(c), 255.0) == Channels(n, 255.0 * c.value, Spread(c), Move(o, Spread(c)))
  {
    hide Faded, Lowered, ToRgb, Spread, Move;
    ScaledFaded(c, 1.0);
    ScaledFaded(c, o);
    ScaledFaded(c, 1.0 - o);
    LoweredMoves(255.0 * c.value, Spread(c), o);
    Sector(c, n, o);
  }

  /** A colour given by hue, saturation and value comes back exactly when it is not a grey whose hue
      or saturation red, green and blue cannot tell. */
  lemma HsvRoundTrip(c: Hsv)
    requires 0.0 <= c.hue < 1.0 && InUnit(c.saturation) && InUnit(c.value)
    ensures FromRgb(Scaled(ToRgb(c), 255.0)) == c
       <==> (c.value > 0.0 && c.saturation > 0.0) || (c.hue == 0.0 && c.saturation == 0.0)
  {
    var n := (6.0 * c.hue).Floor;
    var o := 6.0 * c.hue - n as real;
    hide ToRgb, Scaled, Top, Bottom, Hue, Channels, Sixths, Steps, Spread, Move, FromRgb;
    var w, spread := 255.0 * c.value, Spread(c);
    ScaledChannels(c, n, o);
    SpreadSign(c);
    MoveRange(o, spread);
    if spread > 0.0 {
      SixthsOf(o, n, spread);
      Back(c, n, o, w, spread, Move(o, spread));
    } else {
      GreyChannels(n, w, spread, Move(o, spread));
    }
  }

  lemma Back(c: Hsv, n: nat, o: real, w: real, spread: real, x: real)
    requires n <= 5 && 0.0 <= x < spread <= w && w == 255.0 * c.value && spread / w == c.saturation
    requires 6.0 * c.hue == n as real + o && 6.0 * Sixths(x + Steps(n, spread), spread) == o + n as real
    ensures FromRgb(Channels(n, w, spread, x)) == c
  {
    HueOfChannels(n, w, spread, x);
    hide Top, Bottom, Hue, Channels, Sixths, Steps;
    assert w - (w - spread) == spread;
  }

  lemma GreyChannels(n: nat, w: real, spread: real, x: real)
    requires n <= 5 && spread == x == 0.0
    ensures FromRgb(Channels(n, w, spread, x)) == Hsv(0.0, 0.0, w / 255.0)
  {
    assert Channels(n, w, spread, x) == Rgb(w, w, w);
  }
}
