/**
 * `flatten_paletted`: makes the transparent colour of a paletted image opaque
 * by overwriting its palette entry (three consecutive channel values) with a
 * grey level.
 *
 * The image is an object whose palette is replaced in place; `info['transparency']`
 * is an optional palette index. `ImageColor.getcolor(name, 'L')` is a parameter
 * returning `None` for a name it does not know.
 */
module Palette {
  import opened Wrappers
  import opened Raster
  import opened Digests

  /** The `background` argument: a number, or a string (a number or a colour name). */
  datatype Background = Level(n: int) | Str(s: string)

  predicate AllDigits(s: string) { forall i :: 0 <= i < |s| ==> IsDigit(s[i]) }

  /** The value of a string of decimal digits. */
  function DigitsValue(s: string): (n: nat)
    requires AllDigits(s)
  {
    if s == [] then 0 else DigitsValue(s[..|s| - 1]) * 10 + (s[|s| - 1] as int - '0' as int)
  }

  /** `int(s)` on a string: an optional sign followed by at least one digit. */
  function ParseInt(s: string): (r: Option<int>)
    ensures r.Some? <==> (|s| > 0 && ((s[0] in "+-" && |s| > 1 && AllDigits(s[1..])) || AllDigits(s)))
  {
    if |s| > 0 && s[0] in "+-" then
      if |s| > 1 && AllDigits(s[1..]) then
        Some(if s[0] == '-' then -(DigitsValue(s[1..]) as int) else DigitsValue(s[1..]))
      else None
    else if |s| > 0 && AllDigits(s) then Some(DigitsValue(s))
    else None
  }

  /** `str(n)` for a natural number. */
  function DecimalString(n: nat): (s: string)
    ensures |s| > 0 && AllDigits(s)
  {
    if n < 10 then ['0' + n as char] else DecimalString(n / 10) + ['0' + (n % 10) as char]
  }

  lemma {:induction false} DigitsValueOfDecimal(n: nat)
    ensures DigitsValue(DecimalString(n)) == n
  {
    if n >= 10 {
      var s := DecimalString(n);
      assert s[..|s| - 1] == DecimalString(n / 10);
      DigitsValueOfDecimal(n / 10);
    }
  }

  /** `int(str(n))` gives `n` back, for either sign. */
  lemma {:induction false} ParseIntOfDecimal(n: int)
    ensures n >= 0 ==> ParseInt(DecimalString(n)) == Some(n)
    ensures n > 0 ==> ParseInt("-" + DecimalString(n)) == Some(-n)
  {
    if n >= 0 {
      DigitsValueOfDecimal(n);
      assert DecimalString(n)[0] != '+' && DecimalString(n)[0] != '-';
    }
    if n > 0 {
      DigitsValueOfDecimal(n);
      assert ("-" + DecimalString(n))[1..] == DecimalString(n);
    }
  }

  /** `str(n)` for any integer. */
  function IntString(n: int): string
  {
    if n < 0 then "-" + DecimalString(-n) else DecimalString(n)
  }

  /** The background `flatten_paletted` uses when none is given. */
  const DefaultBackground := Level(255)

  /** The grey level the palette entry is set to: `int(background)`, falling back
      to the colour name's luminance; an unknown name raises `ValueError`. */
  function BackgroundLevel(background: Background, getcolor: string -> Option<int>): (r: Result<int, ImageError>)
    ensures background.Level? ==> r == Ok(background.n)
    ensures background.Str? && ParseInt(background.s).Some? ==> r == Ok(ParseInt(background.s).value)
    ensures background.Str? && ParseInt(background.s).None? ==>
              (r.Ok? <==> getcolor(background.s).Some?) && (r.Err? ==> r.error == ValueError)
  {
    match background
    case Level(n) => Ok(n)
    case Str(s) =>
      match ParseInt(s)
      case Some(n) => Ok(n)
      case None => if getcolor(s).Some? then Ok(getcolor(s).value) else Err(ValueError)
  }

  /** A number given as its decimal string gives the same level as the number
      itself: `background='128'` and `background=128` flatten alike. */
  lemma StringBackgroundAsNumber(n: int, getcolor: string -> Option<int>)
    ensures BackgroundLevel(Str(IntString(n)), getcolor) == BackgroundLevel(Level(n), getcolor)
  {
    if n < 0 {
      ParseIntOfDecimal(-n);
    } else {
      ParseIntOfDecimal(n);
    }
  }

  /** The position Python's `p[x]` designates in a list of `n` elements: negative
      indices count from the end; anything else out of range raises `IndexError`. */
  function PyIndex(n: nat, x: int): (r: Option<nat>)
    ensures r.Some? <==> -(n as int) <= x < n
    ensures r.Some? ==> r.value < n && (r.value == x || r.value == n + x)
  {
    if 0 <= x < n then Some(x) else if -(n as int) <= x < 0 then Some(n + x) else None
  }

  /** `for x in range(lo, lo + count): p[x] = level`, one assignment at a time. */
  function Paint(p: seq<int>, lo: int, count: nat, level: int): (r: Result<seq<int>, ImageError>)
    ensures r.Ok? ==> |r.value| == |p|
    decreases count
  {
    if count == 0 then Ok(p)
    else match PyIndex(|p|, lo)
      case None => Err(IndexError)
      case Some(i) => Paint(p[i := level], lo + 1, count - 1, level)
  }

  /** The palette `flatten_paletted` installs for transparency index `t`. */
  function FlattenedPalette(p: seq<int>, t: int, level: int): Result<seq<int>, ImageError>
  {
    Paint(p, 3 * t, 3, level)
  }

  /** Whether palette entry `i` is one of the three channels of colour `t`. */
  predicate IsChannelOf(n: nat, t: int, i: nat)
  {
    PyIndex(n, 3 * t) == Some(i) || PyIndex(n, 3 * t + 1) == Some(i) || PyIndex(n, 3 * t + 2) == Some(i)
  }

  /** The three channels of the transparent colour become `level`; every other
      entry is kept; the palette keeps its length. It fails exactly when colour `t`
      lies outside the palette (as a Python index, so negative `t` counts from the end). */
  lemma {:induction false} FlattenedPaletteEntries(p: seq<int>, t: int, level: int)
    ensures FlattenedPalette(p, t, level).Err? <==> !(-|p| <= 3 * t && 3 * t + 2 < |p|)
    ensures FlattenedPalette(p, t, level).Err? ==> FlattenedPalette(p, t, level).error == IndexError
    ensures FlattenedPalette(p, t, level).Ok? ==>
              var q := FlattenedPalette(p, t, level).value;
              |q| == |p| && forall i :: 0 <= i < |p| ==> q[i] == if IsChannelOf(|p|, t, i) then level else p[i]
  {
    var n := |p|;
    if -n <= 3 * t && 3 * t + 2 < n {
      var i0, i1, i2 := PyIndex(n, 3 * t).value, PyIndex(n, 3 * t + 1).value, PyIndex(n, 3 * t + 2).value;
      var p1 := p[i0 := level];
      var p2 := p1[i1 := level];
      var p3 := p2[i2 := level];
      assert Paint(p2, 3 * t + 2, 1, level) == Ok(p3);
      assert Paint(p1, 3 * t + 1, 2, level) == Ok(p3);
      assert FlattenedPalette(p, t, level) == Ok(p3);
    } else if 3 * t >= 0 {
      assert 3 * t + 2 >= n;
      if 3 * t >= n {
        assert Paint(p, 3 * t, 3, level) == Err(IndexError);
      } else if 3 * t + 1 >= n {
        var p1 := p[3 * t := level];
        assert Paint(p1, 3 * t + 1, 2, level) == Err(IndexError);
      } else {
        var p1 := p[3 * t := level];
        var p2 := p1[3 * t + 1 := level];
        assert Paint(p2, 3 * t + 2, 1, level) == Err(IndexError);
        assert Paint(p1, 3 * t + 1, 2, level) == Err(IndexError);
      }
    } else {
      assert Paint(p, 3 * t, 3, level) == Err(IndexError);
    }
  }

  /** Flattening an already flattened palette with the same level changes nothing. */
  lemma FlattenIdempotent(p: seq<int>, t: int, level: int)
    requires FlattenedPalette(p, t, level).Ok?
    ensures FlattenedPalette(FlattenedPalette(p, t, level).value, t, level) == FlattenedPalette(p, t, level)
  {
    var q := FlattenedPalette(p, t, level).value;
    FlattenedPaletteEntries(p, t, level);
    FlattenedPaletteEntries(q, t, level);
    var q2 := FlattenedPalette(q, t, level).value;
    forall i | 0 <= i < |q| ensures q2[i] == q[i] {
      assert q[i] == if IsChannelOf(|p|, t, i) then level else p[i];
    }
    assert q2 == q;
  }

  /** Every entry fits in a byte. */
  predicate IsBytePalette(p: seq<int>)
  {
    forall i :: 0 <= i < |p| ==> 0 <= p[i] < 256
  }

  /** `im.putpalette(p)`: the entries become the bytes of the new palette, so one
      outside `0..255` raises `ValueError`. */
  function PutPalette(p: seq<int>): (r: Result<seq<int>, ImageError>)
    ensures r.Ok? <==> IsBytePalette(p)
    ensures r.Ok? ==> r.value == p
    ensures r.Err? ==> r.error == ValueError
  {
    if IsBytePalette(p) then Ok(p) else Err(ValueError)
  }

  /** On a palette of bytes, installing the flattened palette fails exactly when
      the level is not a byte. */
  lemma FlattenedLevelMustBeByte(p: seq<int>, t: int, level: int)
    requires IsBytePalette(p) && FlattenedPalette(p, t, level).Ok?
    ensures PutPalette(FlattenedPalette(p, t, level).value).Err? <==> !(0 <= level < 256)
  {
    FlattenedPaletteEntries(p, t, level);
    var q := FlattenedPalette(p, t, level).value;
    var i := PyIndex(|p|, 3 * t).value;
    assert IsChannelOf(|p|, t, i);
    assert q[i] == level;
  }

  /** What `flatten_paletted` leaves as the palette, or the exception it raises
      (in which case the palette is not replaced). */
  function FlattenEffect(palette: seq<int>, transparency: Option<int>, background: Background,
                         getcolor: string -> Option<int>): Result<seq<int>, ImageError>
  {
    match transparency
    case None => Ok(palette)
    case Some(t) =>
      match BackgroundLevel(background, getcolor)
      case Err(e) => Err(e)
      case Ok(level) =>
        match FlattenedPalette(palette, t, level)
        case Err(e) => Err(e)
        case Ok(q) => PutPalette(q)
  }

  /** A paletted image whose palette is replaced in place. */
  class PalettedImage {
    var palette: seq<int>
    var transparency: Option<int>

    constructor (palette: seq<int>, transparency: Option<int>)
      ensures this.palette == palette && this.transparency == transparency
    {
      this.palette := palette;
      this.transparency := transparency;
    }

    /** `flatten_paletted(im, background)`: without a transparency entry nothing
        happens; otherwise the palette is copied, the three channels of the
        transparent colour are overwritten one by one, and the copy installed,
        which fails when an entry is not a byte. */
    method FlattenPaletted(background: Background, getcolor: string -> Option<int>) returns (o: Outcome<ImageError>)
      modifies this
      ensures transparency == old(transparency)
      ensures match FlattenEffect(old(palette), old(transparency), background, getcolor)
              case Ok(q) => o == Pass && palette == q
              case Err(e) => o == Fail(e) && palette == old(palette)
    {
      o := Pass;
      if transparency.None? {
        return;
      }
      var level := BackgroundLevel(background, getcolor);
      if level.Err? {
        o := Fail(level.error);
        return;
      }
      var start := transparency.value * 3;
      var p := palette;
      for x := start to start + 3
        invariant Paint(p, x, start + 3 - x, level.value) == FlattenedPalette(palette, transparency.value, level.value)
      {
        var i := PyIndex(|p|, x);
        if i.None? {
          o := Fail(IndexError);
          return;
        }
        p := p[i.value := level.value];
      }
      if !IsBytePalette(p) {
        o := Fail(ValueError);
        return;
      }
      palette := p;
    }
  }
}
