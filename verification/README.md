# LED frame buffer and flora client checks, modelled in Dafny

This project models two JavaScript packages of the YodaRT runtime.

**`light`** (packages/light/index.js) keeps one module-level byte buffer of
`leds * (format || 3)` bytes. Its operations change that buffer in place and
return the module object so calls chain:

- `_pixel(index, r, g, b, alpha)` writes bytes `3*index .. 3*index+2`. When
  `alpha` is a number in `[0, 1)` it first scales each component to
  `floor(alpha * c)`.
- `pixel(index, r, g, b, alpha, shading)` is one `_pixel`. With `shading` it
  then writes the LED before `index` at 0.3 and the LED before that at 0.1.
  LED 0 wraps to the last LED.
- `fill(r, g, b, alpha)` takes a whole-buffer shortcut when the three
  components are equal. Otherwise it calls `_pixel` on every LED.
- `clear()` is `fill(0, 0, 0)`.

The model is the class `Light.Light`. It holds the profile, the buffer as an
`array<int>`, the `enabled` flag and a log of the requests handed to the
native addon. Each method is proved against a function on the buffer's
contents (`PixelAt`, `Shaded`, `FillSpec`). Lemmas state what those functions
mean: which bytes change, to what, and that nothing else changes.

The alpha argument is an exact rational `num/den`. The scaled component is
`num*c/den`, which equals the floor because both numbers are non-negative.

**`@yoda/flora`** (packages/@yoda/flora/index.js) wraps a native message-bus
addon. Module `Flora` models:

- the argument checks of `Agent.prototype.get`;
- how `get` turns the addon's return code into the state of its Promise;
- the fault guard that `subscribe` puts around a handler;
- the `Reply` constructor;
- the exported message-type and error-code constants.

The addon's `nativeGet` and the user's handler are function parameters.

Behaviour of the code as written, each point proved by the member named:

- The grey shortcut of `fill` ignores `alpha`. By the contracts,
  `fill(20, 20, 20, 0.7)` gives 20 in every byte (`Light.FillShortcutIgnoresAlpha`).
  `fill(20, 20, 21, 0.7)` gives 14, 14, 14 in every LED (`Light.FillPaintsEveryLed`
  with `Light.Scale`).
- `enable` and `disable` never change the `enabled` flag. Once the package
  has loaded, `enable` adds no hardware request and `disable` always adds one
  (`Light.Light.Enable`, `Light.Light.Disable`, and the flag in `Light.Light.Valid`).
- The pixel stride is hard-coded to 3, but the buffer is sized with `format`.
  Per-LED writes therefore need `3 * leds` bytes (the preconditions of
  `Light.Light.Pixel` and `Light.Light.Fill`). The shortcut does not, so `clear`
  works on every profile (`Light.Light.Clear` requires only `Valid()`).
- The shortcut is written `buffer.fill(red, length)`. It is modelled as
  filling all `length` bytes with `red`, which is what `clear` needs
  (`Light.ClearZeroesBuffer`). Under Node's `Buffer.fill(value, offset)` the
  second argument is an offset, so that call would fill nothing. The model
  follows the reading that the runtime's buffer ignores the extra argument.

## Model

| member | source | states |
|---|---|---|
| `Light.Scale` | packages/light/index.js:141-145 | the component never exceeds the original; unchanged unless alpha is a number in [0,1); otherwise it is floor(alpha·c), stated as r·den ≤ num·c < (r+1)·den |
| `Light.PixelAt` | packages/light/index.js:140-149 | LED i holds the scaled triple, every byte outside bytes 3i..3i+2 is unchanged, the length is kept and the buffer still holds bytes only |
| `Light.PrevIsModularPredecessor` | packages/light/index.js:126-128 | the shading step from `index` is the predecessor modulo `leds` and stays on the strip |
| `Light.Shaded` | packages/light/index.js:124-130 | the frame after a shaded `pixel` has the buffer's length; its contents are stated by `ShadingTrail` and `ShadingSmallStrip` |
| `Light.PaintRange` | packages/light/index.js:103-105 | the frame after `_pixel` on LEDs 0..n-1 has the buffer's length; its contents are stated by `PaintRangeEffect` |
| `Light.FillSpec` | packages/light/index.js:99-108 | the frame after `fill` has the buffer's length; its contents are stated by `FillPaintsEveryLed` and `FillShortcutIgnoresAlpha` |
| `Light.PaintRangeEffect` | packages/light/index.js:103-105 | after painting LEDs 0..n-1 every one of them holds the scaled triple, and every byte from offset 3n on is unchanged |
| `Light.FillPaintsEveryLed` | packages/light/index.js:102-105 | with components that are not all equal, `fill` gives every LED 0..leds-1 the same scaled triple and leaves the bytes after them alone |
| `Light.FillShortcutIgnoresAlpha` | packages/light/index.js:100-101 | with equal components every byte of the buffer becomes `red`, and the result is the same whatever alpha is |
| `Light.ClearZeroesBuffer` | packages/light/index.js:156-158 | `fill(0, 0, 0)` leaves every byte 0 |
| `Light.ShadingTrail` | packages/light/index.js:123-131 | on a strip of at least 3 LEDs, shading changes exactly three distinct LEDs: index at alpha, its predecessor at 0.3, the one before at 0.1; every other byte is unchanged |
| `Light.ShadingSmallStrip` | packages/light/index.js:125-130 | on a strip of 1 or 2 LEDs the trail wraps onto `index`, which ends at 0.1 and loses the requested colour; on 2 LEDs the other LED ends at 0.3; no byte after the strip's LEDs changes |
| `Light.Light.constructor` | packages/light/index.js:33-41 | the buffer is fresh with `leds * (format or 3)` bytes, the flag is set and exactly one enable request went to the hardware |
| `Light.Light.Enable` | packages/light/index.js:51-55 | asks the hardware only while the flag is false; since the flag stays true, no request is added |
| `Light.Light.Disable` | packages/light/index.js:63-67 | asks the hardware while the flag is true, which is always, and does not clear the flag |
| `Light.Light.Write` | packages/light/index.js:75-78 | hands the explicit frame when one is given and the current buffer otherwise; returns the module object |
| `Light.Light.SetPixel` | packages/light/index.js:140-149 | bytes 3i, 3i+1 and 3i+2 become the scaled red, green and blue, and every other byte keeps its old value |
| `Light.Light.Pixel` | packages/light/index.js:123-132 | without shading the buffer is exactly one `_pixel` at index; with shading it is the three-write trail `Shaded`; returns the module object |
| `Light.Light.Fill` | packages/light/index.js:99-108 | the buffer becomes `FillSpec` of its old contents: the loop's invariant is that LEDs 0..i-1 are painted; returns the module object |
| `Light.Light.Clear` | packages/light/index.js:156-159 | every byte of the buffer is 0 afterwards; returns the module object |
| `Flora.MsgType.Code` | packages/@yoda/flora/index.js:134-144 | each message type's code is one of 0, 1, 2 |
| `Flora.MsgTypeOf` | packages/@yoda/flora/index.js:134-144 | an integer names a message type exactly when it is 0, 1 or 2, and then that type's code is the integer |
| `Flora.MsgTypeCodeRoundTrip` | packages/@yoda/flora/index.js:134-144 | code then decode gives the type back, so the three codes are pairwise distinct |
| `Flora.FloraError.Code` | packages/@yoda/flora/index.js:149-159 | each error code is one of -1, -2, -3, so it is negative and never the success value 0 |
| `Flora.ErrorOf` | packages/@yoda/flora/index.js:149-159 | an integer names an error kind exactly when it is -1, -2 or -3, and then that kind's code is the integer |
| `Flora.ErrorCodeRoundTrip` | packages/@yoda/flora/index.js:149-159 | code then decode gives the kind back, so the three error codes are pairwise distinct |
| `Flora.Reply` | packages/@yoda/flora/index.js:123-126 | the reply object has exactly the properties `retCode` and `msg`, holding the arguments unchanged |
| `Flora.ReplyReadBack` | packages/@yoda/flora/index.js:123-126 | every reply is an answer, and rebuilding it from its own fields gives the same object |
| `Flora.Get` | packages/@yoda/flora/index.js:100-113 | a non-string name or a msg other than undefined, null or an array rejects with ERROR_INVALID_PARAM and never calls the addon; valid arguments call it exactly once with (name, msg); the Promise is left to `resolve` exactly when the addon returns 0 without resolving; when the addon resolves before returning, the Promise holds that value whatever code follows |
| `Flora.GetRejection` | packages/@yoda/flora/index.js:101-112 | `get` rejects with `reason` exactly when the arguments are invalid and `reason` is -2, or the addon returned the non-zero `reason` without resolving first |
| `Flora.GetCallsNativeOnlyWhenValid` | packages/@yoda/flora/index.js:100-108 | the addon is called at most once, and not at all exactly when the arguments are invalid |
| `Flora.GetPassesNativeErrors` | packages/@yoda/flora/index.js:107-112 | an exported error code returned by the addon rejects the Promise with that same code, never success |
| `Flora.Guard` | packages/@yoda/flora/index.js:81-88 | a handler that returns gives back its value and schedules nothing; a handler that throws gives back undefined and schedules that same fault |
| `Flora.Subscribe` | packages/@yoda/flora/index.js:80-90 | registers the name unchanged, and its callback behaves as the guard around the handler for every message and type |
| `Flora.GuardKeepsFaults` | packages/@yoda/flora/index.js:80-90 | a fault is scheduled exactly when the handler throws, is never turned into a Reply, and is the thrown value itself; otherwise the handler's value is returned |

## Left out

- The native addons `./light.node` and `./flora-cli.node` are not part of this model. Their calls are either logged requests (`EnableHw`, `DisableHw`, `WriteFrame`) or function parameters (`nativeGet`, the handler).
- The Agent's connection state machine, reconnect timer, subscription table, `post`, `unsubscribe`, `start` and `close` all live inside the native addon, so they are left out.
- `getProfile` (packages/light/index.js:86) re-exports the native call. The profile is a constructor parameter instead.
- IEEE-754 rounding of `Math.floor(alpha * c)` is not modelled. Alpha is an exact rational, so a float product that rounds across an integer could differ by one.
- Light.Light.constructor: promises nothing about the buffer's initial bytes beyond their being bytes. `new Buffer(length)` does not promise zeroed memory on every runtime.
- Light.Light.SetPixel: components outside 0..255 and offsets outside the buffer are preconditions. `writeUInt8` would throw there, leaving a partly written LED, and that path is not modelled.
- Light.Light.Fill: the per-LED branch requires `3 * leds` bytes of buffer. With a `format` below 3 the source throws part-way through, and that case is not modelled.
- Light.Alpha: arguments that are not numbers are one case, `Missing`. NaN is a zero denominator. `+Infinity` is treated as a number of at least 1, and `-Infinity` as a negative number. Neither of them scales.
- Flora.Get: the addon's return value is an integer. If the addon throws inside the Promise executor, the Promise rejects with the thrown value, and that case is not modelled. Settlement after `get` returns belongs to the addon.
- Flora.JsValue: numbers are integers. This layer only tests them for identity with 0 and passes them on.
- `process.nextTick` and the Promise machinery are reduced to their outcome. The deferred fault is the `deferredThrow` field, and the Promise state is `Settlement`.
- runtime/lib/app/activity-test-descriptor.js is not part of this model. It only forwards calls to a runtime object that is not shown.
