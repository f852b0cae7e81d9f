# Sky palette cycling, cloud spin and label toggling — a Dafny model

The landing page of the showcase site, which presents a web-development framework bundle, draws a cloudy sky behind its
content. On every rendered frame the `Sky` component:

- swings a value `colorCycle` in [0, 1] with time;
- picks a pair of neighbouring palettes out of a fixed table of five (each
  palette is a primary, a secondary and an accent `#RRGGBB` colour) and a blend
  factor between them;
- blends the three colours of the pair channel by channel (`blendColor`), and
  stores the result in the component's `colors` state;
- turns the first cloud a little further around its vertical axis, by the
  frame's duration times 0.1.

Separately, the page keeps a set of highlighted technology labels. Clicking a
label switches it on or off (`toggleLabel`).

The model is split into five modules:

- `JsBuiltins` (`js_builtins.dfy`) states the JavaScript built-ins the colour
  code relies on over exact values: `parseInt(_, 16)` with its white-space,
  sign and `0x` handling and its longest-digit-run rule, `toString(16)`,
  `padStart`, `substr`, `replace` of the first `#`, `Math.round`, `Math.floor`,
  and `%` on numbers, which truncates towards zero.
- `ColorBlend` (`color_blend.dfy`) is `blendColor`. Decoding and encoding are
  separate functions (`ParseColor`, `FormatColor`), and the lemmas prove that they
  are inverse on bytes. A NaN channel is written as the text `NaN`, as JavaScript
  does.
- `PaletteCycle` (`palette_cycle.dfy`) holds the palette table, the
  index/next-index/blend computation (`Cycle`, generic in the number of
  palettes) and the three blended colours of a frame (`FrameColors`).
- `SkyFrame` (`sky.dfy`) is a class `Sky` holding the `colors` state and the
  cloud's yaw. A ghost history of frame times ties the yaw to a left fold
  (`SpinAfter`) of those frame times.
- `Labels` (`labels.dfy`) holds the toggle updater as a method on a copy of the
  set, the set-level specification `Toggled`, and a class `Home` holding the
  `activeLabels` state.

Inputs the source takes from the outside world are parameters. `Tick` takes
three of them:

- the value of `Math.sin(time * 0.1)`, a real in [-1, 1];
- the frame time `delta`;
- whether the first cloud's ref is mounted (`cloud0.current` non-null).

Three facts about the code shape the model:

- The code does not clamp the palette index. At `colorCycle == 1` it takes the
  last palette, the next index wraps to 0 and the blend is 0 (`CycleAtTop`).
- The code hard-wires five palettes. `Cycle` is stated for any count of at
  least 1, so the single-palette case is covered (`CycleSinglePalette`).
  `FrameColors` uses the table of five.
- The code does not sanitise negative or non-finite frame times. `Tick` applies
  any `delta`. The yaw is proved never to increase for frame times that are not
  negative (`SpinNeverIncreases`).

## Model

| member | source | states |
|---|---|---|
| `JsBuiltins.HexDigitValue` | showcase/app/page.tsx:567-572 | a radix-16 digit of either case has a value below 16, and writing that value back gives the digit in lower case |
| `JsBuiltins.ParseInt16` | showcase/app/page.tsx:567-572 | `parseInt(_, 16)` of a text without a single radix-16 digit is NaN; its values on digits are stated by `ParseTwoHexDigits` and `ParseEmpty` |
| `JsBuiltins.TrimStartRemovesWhiteSpace` | showcase/app/page.tsx:567-572 | the white-space skipping of `parseInt` removes a prefix made only of white space and leaves the rest of the text untouched |
| `JsBuiltins.ParseTwoHexDigits` | showcase/app/page.tsx:567-572 | `parseInt` of a two-digit slice gives `16 * high + low` |
| `JsBuiltins.ParseEmpty` | showcase/app/page.tsx:567-572 | `parseInt` of an empty slice is NaN |
| `JsBuiltins.NaturalToHexDigits` | showcase/app/page.tsx:578 | `toString(16)` writes only lower-case digits, one digit exactly for values below 16, and no leading zero |
| `JsBuiltins.NaturalToHexValue` | showcase/app/page.tsx:578 | reading back the digits `toString(16)` writes gives the number: encode/decode round trip |
| `JsBuiltins.ByteToHex` | showcase/app/page.tsx:578 | a byte is written with one digit when its high digit is 0 and with its two digits otherwise |
| `JsBuiltins.ToString16` | showcase/app/page.tsx:578 | `toString(16)` writes a non-empty text that starts with `-` exactly for negative numbers, and whose digits read back give the number's magnitude |
| `JsBuiltins.PadStart` | showcase/app/page.tsx:578 | `padStart(2, '0')` leaves a text of two or more characters alone and lengthens a shorter one to exactly two |
| `JsBuiltins.PadStartKeepsText` | showcase/app/page.tsx:578 | `padStart` only adds fill characters in front and keeps the text as its suffix |
| `JsBuiltins.Substr` | showcase/app/page.tsx:567-572 | `substr(start, 2)` is the two characters at `start` when they exist, and empty when `start` is past the end |
| `JsBuiltins.RemoveFirst` | showcase/app/page.tsx:565-566 | a text starting with `#` loses exactly that first character; the general case is `RemoveFirstRemovesOne` |
| `JsBuiltins.RemoveFirstRemovesOne` | showcase/app/page.tsx:565-566 | `replace('#', '')` leaves a text without `#` unchanged; otherwise it removes exactly the first `#`, keeping everything before and after it in order |
| `JsBuiltins.Floor` | showcase/app/page.tsx:556 | `Math.floor` gives the integer `n` with `n <= x < n + 1` |
| `JsBuiltins.Round` | showcase/app/page.tsx:574-576 | `Math.round` gives the integer within half a unit, rounding halves up |
| `JsBuiltins.IntRemainder` | showcase/app/page.tsx:557 | `%` with a positive divisor keeps the sign of the dividend and a magnitude below the divisor |
| `JsBuiltins.IntRemainderWraps` | showcase/app/page.tsx:557 | `(paletteIndex + 1) % length` keeps values below the length and wraps the length itself to 0 |
| `JsBuiltins.RealRemainder` | showcase/app/page.tsx:558 | `%` on numbers, truncating towards zero; for the cycle position `x % 1` its meaning is stated by `FractionalPart` |
| `JsBuiltins.FractionalPart` | showcase/app/page.tsx:558 | `x % 1` of a non-negative number lies in [0, 1) and adds to its floor to give `x` back |
| `ColorBlend.ParseColor` | showcase/app/page.tsx:565-572 | the decoding half of `blendColor`: a colour without any radix-16 digit decodes to three NaN channels; `#RRGGBB` colours are `ParseHexColor` |
| `ColorBlend.BlendChannel` | showcase/app/page.tsx:574-576 | a blended channel is NaN exactly when one of its two inputs is NaN; its value is stated by `BlendChannelBetween`, `BlendChannelEnds` and `BlendChannelApproaches` |
| `ColorBlend.FormatColor` | showcase/app/page.tsx:578 | the encoding half of `blendColor` writes `#` followed by at least six characters; the digits are stated by `FormatParseRoundTrip` |
| `ColorBlend.BlendColor` | showcase/app/page.tsx:564-579 | `blendColor` writes `#` followed by at least six characters; its meaning is stated by `BlendColorIsBlend`, `BlendColorAtZero`, `BlendColorAtOne` and `BlendColorMalformed` |
| `ColorBlend.ParseHexColor` | showcase/app/page.tsx:565-572 | a `#RRGGBB` colour decodes to the three bytes its digit pairs spell |
| `ColorBlend.FormatChannel` | showcase/app/page.tsx:578 | `toString(16).padStart(2, '0')` of a channel is at least two characters and the text `NaN` for a channel that did not parse; `FormatByte` states the two digits of a byte |
| `ColorBlend.FormatByte` | showcase/app/page.tsx:578 | a byte is written as exactly its two lower-case digits, zero-padded |
| `ColorBlend.FormatParseRoundTrip` | showcase/app/page.tsx:567-578 | three bytes are written as `#` and six lower-case digits, and decoding that text gives the bytes back |
| `ColorBlend.ParseFormatRoundTrip` | showcase/app/page.tsx:565-578 | decoding a `#RRGGBB` colour and encoding it again gives the colour in lower case |
| `ColorBlend.BlendChannelBetween` | showcase/app/page.tsx:574-576 | for a factor in [0, 1] each blended channel is an integer between the two input channels, so bytes stay in [0, 255] |
| `ColorBlend.BlendChannelEnds` | showcase/app/page.tsx:574-576 | factor 0 gives the first channel and factor 1 the second |
| `ColorBlend.BlendChannelApproaches` | showcase/app/page.tsx:574-576 | a blended channel is off from the second input by at most the remaining distance plus half a unit |
| `ColorBlend.BlendChannelNaN` | showcase/app/page.tsx:574-578 | a NaN channel on either side is written as the text `NaN` |
| `ColorBlend.BlendColorIsBlend` | showcase/app/page.tsx:564-579 | for `#RRGGBB` inputs and a factor in [0, 1] the output is `#` and six lower-case digits, and decoding it gives each channel as the rounded interpolation, lying between the inputs' channels |
| `ColorBlend.BlendColorAtZero` | showcase/app/page.tsx:564-579 | factor 0 returns the first colour, in lower case |
| `ColorBlend.BlendColorAtOne` | showcase/app/page.tsx:564-579 | factor 1 returns the second colour, in lower case |
| `ColorBlend.BlendColorMalformed` | showcase/app/page.tsx:564-579 | when either colour holds no radix-16 digit at all, the result is `#NaNNaNNaN`, whatever the other colour and the factor |
| `PaletteCycle.PalettesAreHex` | showcase/app/page.tsx:542-553 | the table `Palettes`, written out literally from the source, holds five palettes, each made of `#RRGGBB` colours |
| `PaletteCycle.ColorCycle` | showcase/app/page.tsx:539 | the cycle value lies in [0, 1]; sine 0 gives 0.5 and sine 1 gives 1 |
| `PaletteCycle.Cycle` | showcase/app/page.tsx:556-558 | `paletteIndex`, `nextPaletteIndex` and `blendFactor` for `count` palettes; their bounds, wrap and sum are stated by `CycleInRange`, `CycleAtTop`, `CycleSinglePalette` and `CycleAtStart` |
| `PaletteCycle.CycleAt` | showcase/app/page.tsx:556-558 | the cycle state read off a position on the palette table; stated by `PositionParts` |
| `PaletteCycle.PositionParts` | showcase/app/page.tsx:556-558 | for a position in [0, count - 1] both indices are in bounds, the next index is the current one plus one modulo the count, the blend is in [0, 1), and index plus blend gives the position back |
| `PaletteCycle.CycleInRange` | showcase/app/page.tsx:556-561 | for a cycle value in [0, 1] both indices are in bounds, the next index is the current one plus one modulo the count, the blend is in [0, 1), and index plus blend equals the cycle value times (count - 1) |
| `PaletteCycle.CycleAtTop` | showcase/app/page.tsx:556-558 | at cycle value 1 the index is the last palette, the next index wraps to 0 and the blend is 0 |
| `PaletteCycle.CycleSinglePalette` | showcase/app/page.tsx:556-558 | with one palette both indices are 0 and the blend is 0 |
| `PaletteCycle.CycleAtStart` | showcase/app/page.tsx:539-558 | at time 0 the cycle stands on palette 2 with next palette 3 and blend 0 |
| `PaletteCycle.FrameColors` | showcase/app/page.tsx:560-583 | the three blended colours of a frame; stated by `FrameColorsBlend`, `FrameColorsAtBlendZero`, `FrameColorsAtTop` and `FrameColorsAtStart` |
| `PaletteCycle.FrameColorsBlend` | showcase/app/page.tsx:556-583 | primary, secondary and accent are each the blend of the same-named colours of the same palette pair, with the same blend factor, and are well-formed lower-case colours |
| `PaletteCycle.FrameColorsAtBlendZero` | showcase/app/page.tsx:556-583 | when the blend is 0 the frame shows the current palette's colours, in lower case |
| `PaletteCycle.FrameColorsAtTop` | showcase/app/page.tsx:556-583 | at the top of the swing the frame shows the last palette's colours, in lower case |
| `PaletteCycle.FrameColorsAtStart` | showcase/app/page.tsx:539-583 | at time 0 the frame shows the middle palette's colours, in lower case |
| `SkyFrame.SpinAfter` | showcase/app/page.tsx:592 | the yaw after a sequence of frames, each subtracting `delta * 0.1`; its closed form and monotonicity are `SpinAfterClosedForm` and `SpinNeverIncreases` |
| `SkyFrame.SpinAfterAppend` | showcase/app/page.tsx:591-593 | one more frame lowers the yaw by `delta * 0.1` |
| `SkyFrame.SpinAfterClosedForm` | showcase/app/page.tsx:591-593 | after frames d1..dk the yaw is its start value minus 0.1 * (d1 + ... + dk) |
| `SkyFrame.SpinNeverIncreases` | showcase/app/page.tsx:591-593 | with frame times that are not negative the yaw never increases |
| `SkyFrame.SpinExample` | showcase/app/page.tsx:591-593 | frames of 1, 2 and 3 seconds from 0 leave the yaw at -0.6 |
| `SkyFrame.Sky.constructor` | showcase/app/page.tsx:520-521 | the colours start as `#ff8c42`, `#d2691e`, `#ff6b35`, the yaw at 0 with no frames applied |
| `SkyFrame.Sky.Tick` | showcase/app/page.tsx:536-594 | a frame overwrites the colours with the frame's blend and, when the cloud is mounted, lowers the yaw by `delta * 0.1` and records the frame; the yaw stays the fold of the recorded frames, -0.1 times their sum |
| `SkyFrame.Sky.SetColors` | showcase/app/page.tsx:586 | `setColors` replaces the colours and leaves the yaw and its history alone |
| `SkyFrame.Sky.Turn` | showcase/app/page.tsx:591-593 | one turn lowers the yaw by `delta * 0.1`, records the frame, keeps the yaw equal to the fold of the recorded frames, and leaves the colours alone |
| `Labels.Toggled` | showcase/app/page.tsx:11-21 | the toggled label is in the result exactly when it was not in the old set, and every other label's membership is unchanged |
| `Labels.ToggleUpdater` | showcase/app/page.tsx:12-19 | the updater, which copies the set and deletes or adds the label, returns the toggled set; `prev` is unchanged because a Dafny set is a value, as the source's copy `new Set(prev)` makes it |
| `Labels.ToggleTwice` | showcase/app/page.tsx:11-21 | toggling the same label twice restores the set |
| `Labels.ToggleCommutes` | showcase/app/page.tsx:11-21 | toggling two labels gives the same set in either order |
| `Labels.Home.constructor` | showcase/app/page.tsx:9 | the highlighted labels start empty |
| `Labels.Home.ToggleLabel` | showcase/app/page.tsx:11-21 | a click replaces the state by the toggled set |

## Left out

- `Math.sin` and `Math.cos` are not modelled. The sine value for the colour cycle
  (showcase/app/page.tsx:539) is a parameter in [-1, 1].
- The group's yaw and pitch, `cos(t / 8) / 4` and `sin(t / 8) / 4`
  (showcase/app/page.tsx:587-590), are left out: they are only trigonometry.
- JavaScript numbers are exact reals and unbounded integers here. IEEE-754
  rounding of `colorCycle * 4`, of the blend and of the yaw sum is not modelled.
- `JsBuiltins.ToString16` covers NaN and integral numbers only. Those are the
  only values `Math.round` gives for the finite inputs `blendColor` receives.
- `JsBuiltins.IntRemainder` covers positive divisors only. The source divides by
  the palette count, which is 5.
- `JsBuiltins.Substr` covers non-negative arguments only. The source passes the
  constants 0, 2 and 4 and the length 2.
- `JsBuiltins.ParseInt16` is `parseInt` with the radix fixed to 16, as at every
  call in the source.
- `setColors` is asynchronous in React: the new colours show on the next render.
  `Sky.Tick` writes them at once. React re-rendering, `useRef` and `useFrame`
  registration are not modelled.
- The insertion order of a JavaScript `Set` is not modelled. `activeLabels` is a
  mathematical set.
- The Three.js scene, the lights, the camera, the JSX markup and the mouse
  handlers with their `setTimeout` calls (showcase/app/page.tsx:23-515 and 596-612)
  are rendering and UI work, not logic.
- showcase/app/api/download-framework/route.ts and
  showcase/app/api/download-cursorrules/route.ts are HTTP and file-system I/O.
  showcase/app/layout.tsx and showcase/tailwind.config.ts are markup and
  styling configuration.
