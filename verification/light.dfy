/**
 * The LED frame buffer of the `light` package (packages/light/index.js).
 *
 * The package keeps one byte buffer of `leds * (format || 3)` bytes. `_pixel`
 * writes one RGB triple at byte offset `3 * index`, `pixel` writes one LED and,
 * with shading, a fading trail on the two LEDs before it, `fill` paints every
 * LED (or takes a whole-buffer shortcut for grey colours) and `clear` fills
 * with black. The buffer is the array field `buffer` of class `Light`; every
 * mutating method is proved against a function on the buffer's contents, and
 * the lemmas below state what those functions mean.
 */
module Light {
  import opened Wrappers

  /** The `alpha` argument. `Missing` is `undefined` or any value whose `typeof`
      is not 'number'; `Number(num, den)` is the exact rational num/den, and a
      zero denominator stands for NaN (every comparison with it is false). */
  datatype Alpha = Missing | Number(num: int, den: nat)

  /** The opacities of the first and second LED of a shading trail (0.3 and 0.1). */
  const FirstShade: Alpha := Number(3, 10)
  const SecondShade: Alpha := Number(1, 10)

  /** What the package hands to its native addon. */
  datatype HwRequest = EnableHw | DisableHw | WriteFrame(frame: seq<int>)

  /** The hardware profile the native addon reports; `format == 0` stands for a falsy format. */
  datatype Profile = Profile(leds: nat, format: nat)

  predicate IsByte(v: int) { 0 <= v < 256 }

  predicate AllBytes(s: seq<int>) { forall k :: 0 <= k < |s| ==> IsByte(s[k]) }

  /** Bytes per LED used to size the buffer: `config.format || 3`. */
  function Stride(format: nat): nat { if format == 0 then 3 else format }

  /** `typeof alpha === 'number' && alpha >= 0 && alpha < 1`. */
  predicate Scales(a: Alpha) { a.Number? && a.den > 0 && 0 <= a.num < a.den }

  /** One colour component after `_pixel`'s alpha step: `Math.floor(alpha * c)`
      when alpha scales, `c` itself otherwise. */
  function Scale(c: int, a: Alpha): (r: int)
    requires IsByte(c)
    ensures 0 <= r <= c
    ensures !Scales(a) ==> r == c
    ensures Scales(a) ==> r * a.den <= a.num * c < (r + 1) * a.den
  {
    if Scales(a) then
      DivBelow(a.num * c, a.den, c);
      a.num * c / a.den
    else c
  }

  /** A non-negative x that is at most d * c divides by d to at most c. */
  lemma DivBelow(x: int, d: int, c: int)
    requires 0 <= x <= d * c && 0 < d
    ensures 0 <= x / d <= c
  {
  }

  /** The three bytes an LED shows once `_pixel` has applied `alpha`. */
  function Triple(red: int, green: int, blue: int, a: Alpha): seq<int>
    requires IsByte(red) && IsByte(green) && IsByte(blue)
  {
    [Scale(red, a), Scale(green, a), Scale(blue, a)]
  }

  /** The three bytes of LED `i` in a frame. */
  function LedAt(s: seq<int>, i: nat): seq<int>
    requires 3 * i + 3 <= |s|
  {
    s[3 * i .. 3 * i + 3]
  }

  /** Byte `k` belongs to LED `i` (stride 3). */
  predicate InLed(k: int, i: nat) { 3 * i <= k < 3 * i + 3 }

  /** The frame after `_pixel(i, red, green, blue, a)`. */
  function PixelAt(s: seq<int>, i: nat, red: int, green: int, blue: int, a: Alpha): (t: seq<int>)
    requires 3 * i + 3 <= |s|
    requires IsByte(red) && IsByte(green) && IsByte(blue)
    ensures |t| == |s|
    ensures LedAt(t, i) == Triple(red, green, blue, a)
    ensures forall k :: 0 <= k < |s| && !InLed(k, i) ==> t[k] == s[k]
    ensures AllBytes(s) ==> AllBytes(t)
  {
    s[3 * i := Scale(red, a)][3 * i + 1 := Scale(green, a)][3 * i + 2 := Scale(blue, a)]
  }

  /** The LED before `i` on the strip, wrapping LED 0 to the last LED. */
  function Prev(i: nat, leds: nat): (p: nat)
    requires 1 <= leds
  {
    if i == 0 then leds - 1 else i - 1
  }

  /** On a strip of `leds` LEDs, `Prev` is the predecessor modulo `leds`. */
  lemma PrevIsModularPredecessor(i: nat, leds: nat)
    requires i < leds
    ensures Prev(i, leds) < leds
    ensures (Prev(i, leds) + 1) % leds == i
  {
  }

  /** The frame after `pixel(index, red, green, blue, a, true)`: the LED at
      `index`, then its predecessor at 0.3, then that one's predecessor at 0.1. */
  function Shaded(s: seq<int>, leds: nat, index: nat, red: int, green: int, blue: int, a: Alpha): (t: seq<int>)
    requires 3 * index + 3 <= |s| && 1 <= leds && 3 * leds <= |s|
    requires IsByte(red) && IsByte(green) && IsByte(blue)
    ensures |t| == |s|
  {
    var first := Prev(index, leds);
    var second := Prev(first, leds);
    PixelAt(PixelAt(PixelAt(s, index, red, green, blue, a), first, red, green, blue, FirstShade),
            second, red, green, blue, SecondShade)
  }

  /** The frame after `_pixel(i, ...)` for i = 0, 1, ..., n - 1 in turn. */
  function PaintRange(s: seq<int>, n: nat, red: int, green: int, blue: int, a: Alpha): (t: seq<int>)
    requires 3 * n <= |s|
    requires IsByte(red) && IsByte(green) && IsByte(blue)
    ensures |t| == |s|
    decreases n
  {
    if n == 0 then s
    else PixelAt(PaintRange(s, n - 1, red, green, blue, a), n - 1, red, green, blue, a)
  }

  /** The frame after `fill(red, green, blue, a)` on a strip of `leds` LEDs. */
  function FillSpec(s: seq<int>, leds: nat, red: int, green: int, blue: int, a: Alpha): (t: seq<int>)
    requires IsByte(red) && IsByte(green) && IsByte(blue)
    requires (red == green && green == blue) || 3 * leds <= |s|
    ensures |t| == |s|
  {
    if red == green && green == blue then seq(|s|, _ => red)
    else PaintRange(s, leds, red, green, blue, a)
  }

  /** Painting LEDs 0..n-1 gives each of them the scaled triple and leaves
      every byte from offset 3n on as it was. */
  lemma {:induction false} PaintRangeEffect(s: seq<int>, n: nat, red: int, green: int, blue: int, a: Alpha)
    requires 3 * n <= |s|
    requires IsByte(red) && IsByte(green) && IsByte(blue)
    ensures forall i :: 0 <= i < n ==> LedAt(PaintRange(s, n, red, green, blue, a), i) == Triple(red, green, blue, a)
    ensures forall k :: 3 * n <= k < |s| ==> PaintRange(s, n, red, green, blue, a)[k] == s[k]
  {
    if n > 0 {
      PaintRangeEffect(s, n - 1, red, green, blue, a);
      var before := PaintRange(s, n - 1, red, green, blue, a);
      var after := PaintRange(s, n, red, green, blue, a);
      forall i | 0 <= i < n - 1
        ensures LedAt(after, i) == Triple(red, green, blue, a)
      {
        assert LedAt(after, i) == LedAt(before, i);
      }
    }
  }

  /** `fill` with components that are not all equal writes every LED
      0..leds-1 with the same scaled triple and no byte after them. */
  lemma FillPaintsEveryLed(s: seq<int>, leds: nat, red: int, green: int, blue: int, a: Alpha)
    requires IsByte(red) && IsByte(green) && IsByte(blue)
    requires !(red == green && green == blue) && 3 * leds <= |s|
    ensures forall i :: 0 <= i < leds ==> LedAt(FillSpec(s, leds, red, green, blue, a), i) == Triple(red, green, blue, a)
    ensures forall k :: 3 * leds <= k < |s| ==> FillSpec(s, leds, red, green, blue, a)[k] == s[k]
  {
    PaintRangeEffect(s, leds, red, green, blue, a);
  }

  /** `fill` with equal components sets every byte of the buffer to `red`,
      whatever `alpha` is: the shortcut never scales. */
  lemma FillShortcutIgnoresAlpha(s: seq<int>, leds: nat, c: int, a: Alpha)
    requires IsByte(c)
    ensures forall k :: 0 <= k < |s| ==> FillSpec(s, leds, c, c, c, a)[k] == c
    ensures FillSpec(s, leds, c, c, c, a) == FillSpec(s, leds, c, c, c, Missing)
  {
  }

  /** `clear` (`fill(0, 0, 0)`) leaves every byte of the buffer 0. */
  lemma ClearZeroesBuffer(s: seq<int>, leds: nat)
    ensures forall k :: 0 <= k < |s| ==> FillSpec(s, leds, 0, 0, 0, Missing)[k] == 0
  {
  }

  /** With shading on a strip of at least three LEDs, exactly three distinct
      LEDs change: `index` at full alpha, its predecessor at 0.3 and the one
      before that at 0.1. */
  lemma ShadingTrail(s: seq<int>, leds: nat, index: nat, red: int, green: int, blue: int, a: Alpha)
    requires 3 <= leds && 3 * leds <= |s| && index < leds
    requires IsByte(red) && IsByte(green) && IsByte(blue)
    ensures var first := Prev(index, leds);
            var second := Prev(first, leds);
            var t := Shaded(s, leds, index, red, green, blue, a);
            && index != first && first != second && second != index
            && LedAt(t, index) == Triple(red, green, blue, a)
            && LedAt(t, first) == Triple(red, green, blue, FirstShade)
            && LedAt(t, second) == Triple(red, green, blue, SecondShade)
            && forall k :: 0 <= k < |s| && !InLed(k, index) && !InLed(k, first) && !InLed(k, second) ==> t[k] == s[k]
  {
    var first := Prev(index, leds);
    var second := Prev(first, leds);
    var t0 := PixelAt(s, index, red, green, blue, a);
    var t1 := PixelAt(t0, first, red, green, blue, FirstShade);
    var t := PixelAt(t1, second, red, green, blue, SecondShade);
    assert LedAt(t, index) == LedAt(t1, index) == LedAt(t0, index);
    assert LedAt(t, first) == LedAt(t1, first);
  }

  /** With shading on a strip of one or two LEDs the trail wraps onto `index`
      itself, so the last write (at 0.1) wins over the requested colour; no
      byte after the strip's LEDs changes. */
  lemma ShadingSmallStrip(s: seq<int>, leds: nat, index: nat, red: int, green: int, blue: int, a: Alpha)
    requires 1 <= leds < 3 && 3 * leds <= |s| && index < leds
    requires IsByte(red) && IsByte(green) && IsByte(blue)
    ensures LedAt(Shaded(s, leds, index, red, green, blue, a), index) == Triple(red, green, blue, SecondShade)
    ensures leds == 2 ==> LedAt(Shaded(s, leds, index, red, green, blue, a), 1 - index) == Triple(red, green, blue, FirstShade)
    ensures forall k :: 3 * leds <= k < |s| ==> Shaded(s, leds, index, red, green, blue, a)[k] == s[k]
  {
    var first := Prev(index, leds);
    var t0 := PixelAt(s, index, red, green, blue, a);
    var t1 := PixelAt(t0, first, red, green, blue, FirstShade);
    var t := PixelAt(t1, Prev(first, leds), red, green, blue, SecondShade);
    if leds == 2 {
      assert LedAt(t, first) == LedAt(t1, first);
    }
  }

  /** The module-level state of the light package: its profile, the frame
      buffer, the `enabled` flag and the requests sent to the native addon. */
  class Light {
    const leds: nat
    const format: nat
    const length: nat
    const buffer: array<int>
    var enabled: bool
    var requests: seq<HwRequest>

    /** The buffer is sized from the profile, holds bytes only, and `enabled`
        stays true after bootstrap (no method ever clears it). */
    ghost predicate Valid()
      reads this, buffer
    {
      && length == leds * Stride(format)
      && buffer.Length == length
      && AllBytes(buffer[..])
      && enabled
    }

    /** Module load: read the profile, allocate the buffer, enable the hardware. */
    constructor (profile: Profile)
      ensures Valid() && fresh(buffer)
      ensures leds == profile.leds && format == profile.format
      ensures length == profile.leds * (if profile.format == 0 then 3 else profile.format)
      ensures requests == [EnableHw]
    {
      leds := profile.leds;
      format := profile.format;
      length := profile.leds * Stride(profile.format);
      buffer := new int[profile.leds * Stride(profile.format)](_ => 0);
      enabled := true;
      requests := [EnableHw];
    }

    /** `enable`: asks the hardware only while the flag is false, which after
        bootstrap it never is. */
    method Enable()
      requires Valid()
      modifies this`requests
      ensures Valid()
      ensures requests == old(requests) + (if old(enabled) then [] else [EnableHw])
      ensures requests == old(requests)
    {
      requests := requests + (if enabled then [] else [EnableHw]);
    }

    /** `disable`: asks the hardware to disable whenever the flag is true, and
        leaves the flag set. */
    method Disable()
      requires Valid()
      modifies this`requests
      ensures Valid() && enabled
      ensures requests == old(requests) + (if old(enabled) then [DisableHw] else [])
      ensures requests == old(requests) + [DisableHw]
    {
      if enabled {
        requests := requests + [DisableHw];
      }
    }

    /** `write(explicit)`: hands `explicit || buffer` to the hardware. */
    method Write(explicit: Option<seq<int>>) returns (self: Light)
      requires Valid()
      modifies this`requests
      ensures Valid() && self == this
      ensures explicit.Some? ==> requests == old(requests) + [WriteFrame(explicit.value)]
      ensures explicit.None? ==> requests == old(requests) + [WriteFrame(buffer[..])]
    {
      var frame := if explicit.Some? then explicit.value else buffer[..];
      requests := requests + [WriteFrame(frame)];
      self := this;
    }

    /** `_pixel`: writes LED `index` with the (possibly scaled) colour. */
    method SetPixel(index: nat, red: int, green: int, blue: int, alpha: Alpha)
      requires Valid() && 3 * index + 3 <= buffer.Length
      requires IsByte(red) && IsByte(green) && IsByte(blue)
      modifies buffer
      ensures Valid()
      ensures buffer[..] == PixelAt(old(buffer[..]), index, red, green, blue, alpha)
      ensures buffer[3 * index] == Scale(red, alpha)
      ensures buffer[3 * index + 1] == Scale(green, alpha)
      ensures buffer[3 * index + 2] == Scale(blue, alpha)
      ensures forall k :: 0 <= k < buffer.Length && !InLed(k, index) ==> buffer[k] == old(buffer[k])
    {
      var r, g, b := red, green, blue;
      if Scales(alpha) {
        r, g, b := Scale(red, alpha), Scale(green, alpha), Scale(blue, alpha);
      }
      buffer[3 * index] := r;
      buffer[3 * index + 1] := g;
      buffer[3 * index + 2] := b;
      assert buffer[..] == PixelAt(old(buffer[..]), index, red, green, blue, alpha);
    }

    /** `pixel`: one `_pixel` at `index`, then with shading the two LEDs before
        it at 0.3 and 0.1, wrapping from LED 0 to the last LED. */
    method Pixel(index: nat, red: int, green: int, blue: int, alpha: Alpha, shading: bool) returns (self: Light)
      requires Valid() && 3 * index + 3 <= buffer.Length
      requires shading ==> 1 <= leds && 3 * leds <= buffer.Length
      requires IsByte(red) && IsByte(green) && IsByte(blue)
      modifies buffer
      ensures Valid() && self == this
      ensures !shading ==> buffer[..] == PixelAt(old(buffer[..]), index, red, green, blue, alpha)
      ensures shading ==> buffer[..] == Shaded(old(buffer[..]), leds, index, red, green, blue, alpha)
    {
      SetPixel(index, red, green, blue, alpha);
      if shading {
        var i := if index == 0 then leds - 1 else index - 1;
        SetPixel(i, red, green, blue, FirstShade);
        i := if i == 0 then leds - 1 else i - 1;
        SetPixel(i, red, green, blue, SecondShade);
      }
      self := this;
    }

    /** `fill`: the whole-buffer shortcut for equal components, otherwise
        `_pixel` on every LED in order. */
    method Fill(red: int, green: int, blue: int, alpha: Alpha) returns (self: Light)
      requires Valid()
      requires IsByte(red) && IsByte(green) && IsByte(blue)
      requires (red == green && green == blue) || 3 * leds <= buffer.Length
      modifies buffer
      ensures Valid() && self == this
      ensures buffer[..] == FillSpec(old(buffer[..]), leds, red, green, blue, alpha)
    {
      if red == green && green == blue {
        forall k | 0 <= k < buffer.Length {
          buffer[k] := red;
        }
      } else {
        for i := 0 to leds
          invariant Valid()
          invariant buffer[..] == PaintRange(old(buffer[..]), i, red, green, blue, alpha)
        {
          SetPixel(i, red, green, blue, alpha);
        }
      }
      self := this;
    }

    /** `clear`: `fill(0, 0, 0)`, which blanks every byte. */
    method Clear() returns (self: Light)
      requires Valid()
      modifies buffer
      ensures Valid() && self == this
      ensures buffer[..] == FillSpec(old(buffer[..]), leds, 0, 0, 0, Missing)
      ensures forall k :: 0 <= k < buffer.Length ==> buffer[k] == 0
    {
      self := Fill(0, 0, 0, Missing);
      ClearZeroesBuffer(old(buffer[..]), leds);
    }
  }
}
