/**
  The deterministic colour sweep of `distinct_palette_rgba` and its nested
  `hsl_to_rgb` / `hue2rgb`, over exact reals instead of binary floating point.
*/
module Palette {
  import opened Wrappers
  import opened RealArith

  datatype Rgb = Rgb(red: int, green: int, blue: int)

  /** One palette entry, the `[r, g, b, a]` list of the source. */
  datatype Rgba = Rgba(red: int, green: int, blue: int, alpha: int)

  const Saturation: real := 0.65
  const Lightness: real := 0.5

  function Min(a: real, b: real): real { if a <= b then a else b }
  function Max(a: real, b: real): real { if a <= b then b else a }

  /** `max(n, 1)`: the number of entries, and the hue divisor. */
  function Count(n: int): (m: int)
    ensures m >= 1 && m >= n
    ensures m == n || m == 1
    ensures n >= 1 ==> m == n
  {
    if n >= 1 then n else 1
  }

  /** Python's `int()` on a float: truncation toward zero. */
  function Truncate(x: real): (r: int)
    ensures 0.0 <= x ==> 0 <= r && r as real <= x < r as real + 1.0
    ensures x < 0.0 ==> r <= 0 && r as real - 1.0 < x <= r as real
  {
    if x >= 0.0 then x.Floor else -((-x).Floor)
  }

  /** Python's `x % 1.0`: what is left after removing a whole number. */
  function FractionalPart(x: real): (r: real)
    ensures 0.0 <= r < 1.0
    ensures (x - r).Floor as real == x - r
  {
    x - x.Floor as real
  }

  /** A colour intensity in [0, 1] scaled to a byte, truncated like `int(x * 255)`. */
  function Channel(x: real): int
  {
    Truncate(x * 255.0)
  }

  lemma ChannelMonotone(x: real, y: real)
    requires 0.0 <= x <= y
    ensures 0 <= Channel(x) <= Channel(y)
  {
  }

  lemma ChannelOfUnit(x: real)
    requires 0.0 <= x <= 1.0
    ensures 0 <= Channel(x) <= 255
  {
    ChannelMonotone(x, 1.0);
  }

  /** `p + (q - p) * a` lies between `p` and `q` when `a` is in [0, 1]. */
  lemma Between(p: real, q: real, a: real)
    requires 0.0 <= a <= 1.0
    ensures Min(p, q) <= p + (q - p) * a <= Max(p, q)
  {
    var d := q - p;
    var step := d * a;
    assert p + (q - p) * a == p + step;
    if p <= q {
      Scaled(d, a);
      assert Min(p, q) == p && Max(p, q) == p + d;
      assert 0.0 <= step <= d;
    } else {
      Scaled(-d, a);
      assert (-d) * a == -step;
      assert Min(p, q) == p + d && Max(p, q) == p;
      assert d <= step <= 0.0;
    }
  }

  /** `t` moved into [0, 1] by at most one turn, as the first two lines of `hue2rgb` do. */
  function WrapHue(t: real): (u: real)
    ensures -1.0 <= t <= 2.0 ==> 0.0 <= u <= 1.0
    ensures u == t || u == t + 1.0 || u == t - 1.0
  {
    var t1 := if t < 0.0 then t + 1.0 else t;
    if t1 > 1.0 then t1 - 1.0 else t1
  }

  /**
    `hue2rgb`: the intensity of one channel at hue position `t`; it rises from
    `p` to `q` over the first sixth, holds `q`, falls back over the next sixth
    and holds `p` for the last third.
  */
  function Hue2Rgb(p: real, q: real, t: real): real
  {
    var u := WrapHue(t);
    if u < 1.0 / 6.0 then p + (q - p) * 6.0 * u
    else if u < 1.0 / 2.0 then q
    else if u < 2.0 / 3.0 then p + (q - p) * (2.0 / 3.0 - u) * 6.0
    else p
  }

  /** Within one turn either side of [0, 1], a channel never leaves the range between `p` and `q`. */
  lemma Hue2RgbBetween(p: real, q: real, t: real)
    requires -1.0 <= t <= 2.0
    ensures Min(p, q) <= Hue2Rgb(p, q, t) <= Max(p, q)
  {
    var u := WrapHue(t);
    if u < 1.0 / 6.0 {
      Between(p, q, 6.0 * u);
      assert p + (q - p) * 6.0 * u == p + (q - p) * (6.0 * u);
    } else if 1.0 / 2.0 <= u < 2.0 / 3.0 {
      Between(p, q, (2.0 / 3.0 - u) * 6.0);
    }
  }

  /** `q` of `hsl_to_rgb`: the strongest intensity a colour of saturation `s` and lightness `l` takes. */
  function Upper(s: real, l: real): real
  {
    if l < 0.5 then l * (1.0 + s) else l + s - l * s
  }

  /** `p` of `hsl_to_rgb`: the weakest intensity, as far below `l` as `Upper` is above it. */
  function Lower(s: real, l: real): real
  {
    2.0 * l - Upper(s, l)
  }

  /** For saturation and lightness in [0, 1], `p` and `q` bracket the lightness inside [0, 1]. */
  lemma UpperLowerInUnit(s: real, l: real)
    requires 0.0 <= s <= 1.0 && 0.0 <= l <= 1.0
    ensures 0.0 <= Lower(s, l) <= l <= Upper(s, l) <= 1.0
  {
    if l < 0.5 {
      Scaled(l, s);
      assert l * (1.0 + s) == l + l * s;
    } else {
      Scaled(1.0 - l, s);
      assert l + s - l * s == l + (1.0 - l) * s;
      assert l + (1.0 - l) * s <= l + (1.0 - l);
      assert Lower(s, l) == l - (1.0 - l) * s;
    }
  }

  /** `hsl_to_rgb`: hue, saturation and lightness to three truncated byte channels. */
  function HslToRgb(h: real, s: real, l: real): (c: Rgb)
    ensures s == 0.0 ==> c.red == c.green == c.blue == Channel(l)
  {
    if s == 0.0 then Rgb(Channel(l), Channel(l), Channel(l))
    else
      var q := Upper(s, l);
      var p := Lower(s, l);
      Rgb(Channel(Hue2Rgb(p, q, h + 1.0 / 3.0)),
          Channel(Hue2Rgb(p, q, h)),
          Channel(Hue2Rgb(p, q, h - 1.0 / 3.0)))
  }

  predicate ChannelsWithin(c: Rgb, lo: int, hi: int)
  {
    lo <= c.red <= hi && lo <= c.green <= hi && lo <= c.blue <= hi
  }

  /** For the documented input ranges every channel is a byte. */
  lemma HslToRgbInByteRange(h: real, s: real, l: real)
    requires 0.0 <= h < 1.0 && 0.0 <= s <= 1.0 && 0.0 <= l <= 1.0
    ensures ChannelsWithin(HslToRgb(h, s, l), 0, 255)
  {
    ChannelOfUnit(l);
    if s != 0.0 {
      var q := Upper(s, l);
      var p := Lower(s, l);
      UpperLowerInUnit(s, l);
      Hue2RgbBetween(p, q, h + 1.0 / 3.0);
      Hue2RgbBetween(p, q, h);
      Hue2RgbBetween(p, q, h - 1.0 / 3.0);
      ChannelOfUnit(Hue2Rgb(p, q, h + 1.0 / 3.0));
      ChannelOfUnit(Hue2Rgb(p, q, h));
      ChannelOfUnit(Hue2Rgb(p, q, h - 1.0 / 3.0));
    }
  }

  /**
    The three hue positions a third of a turn apart always put one channel at
    `q` and one at `p`: the sweep keeps the full saturation at every hue.
  */
  lemma ThirdsReachBothExtremes(p: real, q: real, h: real)
    requires 0.0 <= h < 1.0
    ensures Hue2Rgb(p, q, h + 1.0 / 3.0) == q || Hue2Rgb(p, q, h) == q || Hue2Rgb(p, q, h - 1.0 / 3.0) == q
    ensures Hue2Rgb(p, q, h + 1.0 / 3.0) == p || Hue2Rgb(p, q, h) == p || Hue2Rgb(p, q, h - 1.0 / 3.0) == p
  {
  }

  /** The colour of hue `h` at the palette's fixed saturation and lightness. */
  function Sweep(h: real): Rgb
  {
    HslToRgb(h, Saturation, Lightness)
  }

  /**
    Every swept colour has one channel at 210 (`int(0.825 * 255)`), one at 44
    (`int(0.175 * 255)`) and the third between them.
  */
  lemma SweepChannels(h: real)
    requires 0.0 <= h < 1.0
    ensures ChannelsWithin(Sweep(h), 44, 210)
    ensures Sweep(h).red == 210 || Sweep(h).green == 210 || Sweep(h).blue == 210
    ensures Sweep(h).red == 44 || Sweep(h).green == 44 || Sweep(h).blue == 44
  {
    var q := Upper(Saturation, Lightness);
    var p := Lower(Saturation, Lightness);
    assert q == 0.825 && p == 0.175;
    assert Channel(q) == 210 && Channel(p) == 44;
    var r, g, b := Hue2Rgb(p, q, h + 1.0 / 3.0), Hue2Rgb(p, q, h), Hue2Rgb(p, q, h - 1.0 / 3.0);
    Hue2RgbBetween(p, q, h + 1.0 / 3.0);
    Hue2RgbBetween(p, q, h);
    Hue2RgbBetween(p, q, h - 1.0 / 3.0);
    ChannelMonotone(p, r);
    ChannelMonotone(r, q);
    ChannelMonotone(p, g);
    ChannelMonotone(g, q);
    ChannelMonotone(p, b);
    ChannelMonotone(b, q);
    ThirdsReachBothExtremes(p, q, h);
  }

  /** The hue of entry `i` out of `n`, `(i / max(n, 1)) % 1.0`. */
  function Hue(i: int, n: int): real
  {
    FractionalPart(i as real / Count(n) as real)
  }

  /** For the entries the palette produces, the `% 1.0` changes nothing: hue `i` is exactly `i / max(n, 1)`. */
  lemma HueIsEvenlySpaced(n: int, i: int)
    requires 0 <= i < Count(n)
    ensures Hue(i, n) == i as real / Count(n) as real
    ensures 0.0 <= Hue(i, n) < 1.0
  {
    var m := Count(n) as real;
    var x := i as real / m;
    assert x * m == i as real;
    if x >= 1.0 {
      ProductNonnegative(x - 1.0, m);
      assert false;
    }
    assert x.Floor == 0;
  }

  /** Hues strictly increase with the index, so no two entries share a hue. */
  lemma HuesIncrease(n: int, i: int, j: int)
    requires 0 <= i < j < Count(n)
    ensures Hue(i, n) < Hue(j, n)
    ensures Hue(j, n) - Hue(i, n) == (j - i) as real / Count(n) as real
  {
    HueIsEvenlySpaced(n, i);
    HueIsEvenlySpaced(n, j);
    var m := Count(n) as real;
    var d := (j - i) as real / m;
    assert d * m == (j - i) as real;
    if d <= 0.0 {
      ProductNonnegative(-d, m);
      assert false;
    }
    assert j as real / m - i as real / m == d;
  }

  /** The entry for index `i`: the swept colour with the requested alpha appended. */
  function Entry(i: int, n: int, alpha: int): Rgba
  {
    var c := Sweep(Hue(i, n));
    Rgba(c.red, c.green, c.blue, alpha)
  }

  /** `distinct_palette_rgba(n, alpha)`: one entry per index in `range(max(n, 1))`. */
  function DistinctPalette(n: int, alpha: int := 200): (palette: seq<Rgba>)
    ensures |palette| == Count(n)
    ensures forall k | 0 <= k < |palette| :: palette[k].alpha == alpha
  {
    seq(Count(n), i requires 0 <= i < Count(n) => Entry(i, n, alpha))
  }

  /**
    Every palette entry carries the requested alpha and three channels in
    [44, 210], the largest exactly 210 and the smallest exactly 44.
  */
  lemma PaletteChannels(n: int, alpha: int, k: int)
    requires 0 <= k < Count(n)
    ensures var e := DistinctPalette(n, alpha)[k];
      && e.alpha == alpha
      && 44 <= e.red <= 210 && 44 <= e.green <= 210 && 44 <= e.blue <= 210
      && (e.red == 210 || e.green == 210 || e.blue == 210)
      && (e.red == 44 || e.green == 44 || e.blue == 44)
  {
    HueIsEvenlySpaced(n, k);
    SweepChannels(Hue(k, n));
  }

  /**
    The byte a ramping channel takes a distance `x` from the hue where it sits
    at `p`: `int((p + (q - p) * 6 * x) * 255)` at the palette's `p` and `q`.
  */
  function Ramp(x: real): int
  {
    Channel(0.175 + 3.9 * x)
  }

  /** Ramp bytes a 994th of a turn apart differ; 44 and 210 are reached only near the ends. */
  lemma RampFacts(x: real)
    requires 0.0 <= x <= 1.0 / 6.0
    ensures 44 <= Ramp(x) <= 210
    ensures Ramp(x) == 210 ==> x > 1.0 / 6.0 - 1.0 / 2000.0
    ensures Ramp(x) == 44 ==> x < 1.0 / 2000.0
    ensures forall y :: x + 1.0 / 994.0 <= y <= 1.0 / 6.0 ==> Ramp(x) < Ramp(y)
  {
  }

  /**
    The swept colour sector by sector: over each sixth of the turn one channel
    sits at 210, one at 44, and the third ramps between them.
  */
  lemma SweepBySector(h: real)
    requires 0.0 <= h < 1.0
    ensures h < 1.0 / 6.0 ==> Sweep(h) == Rgb(210, Ramp(h), 44)
    ensures 1.0 / 6.0 <= h < 1.0 / 3.0 ==> Sweep(h) == Rgb(Ramp(1.0 / 3.0 - h), 210, 44)
    ensures 1.0 / 3.0 <= h < 1.0 / 2.0 ==> Sweep(h) == Rgb(44, 210, Ramp(h - 1.0 / 3.0))
    ensures 1.0 / 2.0 <= h < 2.0 / 3.0 ==> Sweep(h) == Rgb(44, Ramp(2.0 / 3.0 - h), 210)
    ensures 2.0 / 3.0 <= h < 5.0 / 6.0 ==> Sweep(h) == Rgb(Ramp(h - 2.0 / 3.0), 44, 210)
    ensures 5.0 / 6.0 <= h ==> Sweep(h) == Rgb(210, 44, Ramp(1.0 - h))
  {
    var q := Upper(Saturation, Lightness);
    var p := Lower(Saturation, Lightness);
    assert q == 0.825 && p == 0.175;
    assert Channel(q) == 210 && Channel(p) == 44;
    var r, g, b := Hue2Rgb(p, q, h + 1.0 / 3.0), Hue2Rgb(p, q, h), Hue2Rgb(p, q, h - 1.0 / 3.0);
    assert Sweep(h) == Rgb(Channel(r), Channel(g), Channel(b));
    if h < 1.0 / 6.0 {
      assert r == q && g == 0.175 + 3.9 * h;
      assert WrapHue(h - 1.0 / 3.0) == h + 2.0 / 3.0 && b == p;
    } else if h < 1.0 / 3.0 {
      assert r == 0.175 + 3.9 * (1.0 / 3.0 - h) && g == q;
      assert WrapHue(h - 1.0 / 3.0) == h + 2.0 / 3.0 && b == p;
    } else if h < 1.0 / 2.0 {
      assert r == p && g == q && b == 0.175 + 3.9 * (h - 1.0 / 3.0);
    } else if h < 2.0 / 3.0 {
      assert r == p && g == 0.175 + 3.9 * (2.0 / 3.0 - h) && b == q;
    } else if h < 5.0 / 6.0 {
      if h == 2.0 / 3.0 {
        assert r == p && Ramp(0.0) == 44;
      } else {
        assert WrapHue(h + 1.0 / 3.0) == h - 2.0 / 3.0;
        assert r == 0.175 + 3.9 * (h - 2.0 / 3.0);
      }
      assert g == p && b == q;
    } else {
      assert WrapHue(h + 1.0 / 3.0) == h - 2.0 / 3.0 && r == q;
      assert g == p && b == 0.175 + 3.9 * (1.0 - h);
    }
  }

  /** Where a ramping channel runs over one sixth of the turn, measured from its 44 end. */
  function RampOffset(h: real): real
  {
    if h < 1.0 / 6.0 then h
    else if h < 1.0 / 3.0 then 1.0 / 3.0 - h
    else if h < 1.0 / 2.0 then h - 1.0 / 3.0
    else if h < 2.0 / 3.0 then 2.0 / 3.0 - h
    else if h < 5.0 / 6.0 then h - 2.0 / 3.0
    else 1.0 - h
  }

  /**
    Two hues at least a 994th of a turn apart, both ways round the circle,
    give different bytes.
  */
  lemma SweepSeparates(h1: real, h2: real)
    requires 0.0 <= h1 < h2 < 1.0
    requires h2 - h1 >= 1.0 / 994.0 && 1.0 - (h2 - h1) >= 1.0 / 994.0
    ensures Sweep(h1) != Sweep(h2)
  {
    SweepBySector(h1);
    SweepBySector(h2);
    var x1, x2 := RampOffset(h1), RampOffset(h2);
    RampFacts(x1);
    RampFacts(x2);
  }

  /**
    Distinct hues do not guarantee distinct colours once channels are
    truncated to bytes: in a palette of 2000, entries 1 and 2 are the same.
  */
  lemma PaletteRepeatsColours()
    ensures DistinctPalette(2000, 220)[1] == DistinctPalette(2000, 220)[2]
  {
    var palette := DistinctPalette(2000, 220);
    assert Count(2000) == 2000;
    HueIsEvenlySpaced(2000, 1);
    HueIsEvenlySpaced(2000, 2);
    assert Hue(1, 2000) == 1.0 / 2000.0;
    assert Hue(2, 2000) == 2.0 / 2000.0;
    SweepBySector(1.0 / 2000.0);
    SweepBySector(2.0 / 2000.0);
    assert Ramp(1.0 / 2000.0) == 45 && Ramp(2.0 / 2000.0) == 45;
    assert palette[1] == Entry(1, 2000, 220) == Rgba(210, 45, 44, 220);
    assert palette[2] == Entry(2, 2000, 220) == Rgba(210, 45, 44, 220);
  }

  /**
    Entries 448 and 449 of a 997-colour palette both come out as (44, 210, 160):
    a repeat already at 997 colours, a little past the distinctness bound below.
  */
  lemma PaletteRepeatsAt997(alpha: int)
    ensures DistinctPalette(997, alpha)[448] == DistinctPalette(997, alpha)[449]
  {
    var palette := DistinctPalette(997, alpha);
    assert Count(997) == 997;
    HueIsEvenlySpaced(997, 448);
    HueIsEvenlySpaced(997, 449);
    assert Hue(448, 997) == 448.0 / 997.0;
    assert Hue(449, 997) == 449.0 / 997.0;
    SweepBySector(448.0 / 997.0);
    SweepBySector(449.0 / 997.0);
    assert Ramp(347.0 / 2991.0) == 160 && Ramp(350.0 / 2991.0) == 160;
    assert palette[448] == Entry(448, 997, alpha) == Rgba(44, 210, 160, alpha);
    assert palette[449] == Entry(449, 997, alpha) == Rgba(44, 210, 160, alpha);
  }

  /** The largest colour count the distinctness proof covers. */
  const MaxSeparable: int := 994

  /** A whole number of steps of `1 / m`, short of a full turn, is at least a 994th of a turn. */
  lemma StepAtLeast(k: int, m: int)
    requires 1 <= k && 1 <= m <= MaxSeparable
    ensures k as real / m as real >= 1.0 / 994.0
  {
    var g := k as real / m as real;
    assert g * m as real == k as real;
    if g < 1.0 / 994.0 {
      ProductNonnegative(g, (994 - m) as real);
      assert false;
    }
  }

  /** For up to 994 colours, the hues of two entries are far enough apart both ways round. */
  lemma HueGaps(n: int, i: int, j: int)
    requires n <= MaxSeparable
    requires 0 <= i < j < Count(n)
    ensures 0.0 <= Hue(i, n) < Hue(j, n) < 1.0
    ensures Hue(j, n) - Hue(i, n) >= 1.0 / 994.0
    ensures 1.0 - (Hue(j, n) - Hue(i, n)) >= 1.0 / 994.0
  {
    var m := Count(n);
    HuesIncrease(n, i, j);
    HueIsEvenlySpaced(n, i);
    HueIsEvenlySpaced(n, j);
    StepAtLeast(j - i, m);
    StepAtLeast(m - (j - i), m);
    var d := (j - i) as real / m as real;
    assert d * m as real == (j - i) as real;
    var e := (m - (j - i)) as real / m as real;
    assert e * m as real == (m - (j - i)) as real;
    assert (1.0 - d) * m as real == (m - (j - i)) as real;
    CancelFactor(1.0 - d, e, m as real);
  }

  /** For up to 994 colours, no two palette entries are equal. */
  lemma PaletteEntriesDistinct(n: int, alpha: int, i: int, j: int)
    requires n <= MaxSeparable
    requires 0 <= i < j < Count(n)
    ensures DistinctPalette(n, alpha)[i] != DistinctPalette(n, alpha)[j]
  {
    HueGaps(n, i, j);
    SweepSeparates(Hue(i, n), Hue(j, n));
    assert DistinctPalette(n, alpha)[i] == Entry(i, n, alpha);
    assert DistinctPalette(n, alpha)[j] == Entry(j, n, alpha);
  }

  datatype PaletteError = TooManyColours  // more colours requested than the sweep keeps apart

  /**
    The palette with the distinctness its documentation promises: the same
    colours for up to 994 entries, pairwise different, and an error beyond.
  */
  function CheckedPalette(n: int, alpha: int := 200): (r: Result<seq<Rgba>, PaletteError>)
    ensures r.Failure? <==> n > MaxSeparable
    ensures r.Success? ==> r.value == DistinctPalette(n, alpha)
    ensures r.Success? ==>
              && |r.value| == Count(n)
              && (forall k | 0 <= k < |r.value| :: r.value[k].alpha == alpha)
              && (forall i, j | 0 <= i < j < |r.value| :: r.value[i] != r.value[j])
  {
    if n > MaxSeparable then Failure(TooManyColours)
    else
      var palette := DistinctPalette(n, alpha);
      assert forall i, j | 0 <= i < j < |palette| :: palette[i] != palette[j] by {
        forall i, j | 0 <= i < j < |palette|
          ensures palette[i] != palette[j]
        {
          PaletteEntriesDistinct(n, alpha, i, j);
        }
      }
      Success(palette)
  }
}
