# Frame timing of a Remotion video template

This project models the timing layer of a Remotion video-template app.
Remotion renders a video one frame at a time. Every component asks the host
for the current frame (`useCurrentFrame()`) and derives everything it draws
from that number: fades, slides, a typewriter reveal, line-by-line code
reveal, a terminal that prints one command every 60 frames (two seconds at the
30 fps every composition uses), bars that grow in
turn, and a delayed response panel. Here the frame is an explicit
parameter, so each hook and component is a pure function from a frame and
its props to what it draws. Each is written as a Dafny function with a
contract, and lemmas relate different frames to one another.

The modules follow the source tree:

- `Js` (`js.dfy`) — the JavaScript built-ins the code relies on, over
  unbounded integers and exact reals:
  - the truncating `%` and `Math.trunc`;
  - `slice`, including negative indices;
  - `split` and `join` on one character;
  - `String(n)` and `padStart`.
- `Remotion` (`remotion.dfy`) — the host's `interpolate` with its
  clamp/extend extrapolation, and the two easing curves in use:
  - linear;
  - `Easing.out(Easing.cubic)`, which is `t ↦ 1 - (1 - t)^3`.
- `AnimationHooks` (`animation_hooks.dfy`) — `useAnimationSequence`,
  `useStaggeredAnimation`, `useTypewriterEffect` and `useGlowEffect`.
- `CodeBlockComponent` (`code_block.dfy`) — the line reveal and the line
  labels of `CodeBlock`, and the command list of `TerminalSimulator`.
- `AnimatedTextComponent` (`animated_text.dfy`) — `AnimatedText` (text, glow
  and cursor for each effect) and `KineticText` (per-word schedule and
  placement).
- `DataVisualizationComposition` (`data_visualization.dfy`) — the
  max-normalised bars of `AnimatedBarChart` and the indicators of
  `GrowthIndicators`.
- `APIDemoComposition` (`api_demo.dfy`) — the endpoint schedule, the
  clamped response reveal and the method colours.

Numbers are exact reals, so the model does not reproduce floating-point
rounding. A window of zero or negative length is not guarded against in the
source: in the hooks the input range `[start, start + duration]` then does
not increase, and `interpolate` rejects it with an error. `CodeBlock` calls
the hook first (src/remotion/components/CodeBlock.tsx:25), so it raises the
same error before its own `duration / lines.length` is reached. The model
therefore requires `duration > 0` wherever the source builds such a window.

The frame parameter of every function is the frame the component itself
reads from `useCurrentFrame()`. Inside a `<Sequence from={f}>` the host
counts that frame from `f`. `APIDemo`, `DataVisualization`, `CodeReveal` and
`TechShowcase` also pass `start={f}` to the component each sequence wraps, so
there the offset is applied twice: a component `d` frames into its sequence
computes what this model gives at frame `d` with `start == f`. `ProductDemo`
mixes offsets: some of its components get `start` equal to their sequence's
`from`, but others get a `start` of 120 inside a sequence from 0, 1080
inside one from 1020, or, inside nested sequences, 20, 60 or `80 + 60 i`
frames after the outer sequence's `from`. Its components are therefore
shifted by different amounts. The model states the components' timing in
their own frame; it does not claim that the rendered video follows it. With
the offsets as written, each API endpoint demo sees frames `[0, 150)`
against `start == 120 + 180 i`, so its response never appears and endpoints
after the first stay at opacity 0; the growth indicators (`start == 420`)
never become visible; and the terminal (`start == 450`) sees command
indices from -8 to -6, so with a short command list it shows none.

Several behaviours of the code as written are stated and proved here,
rather than smoothed over:

- **Glow before `start`.** The glow of `AnimatedText` is not windowed, and the
  truncating `%` keeps the remainder `(frame - start) % 60` of a negative
  `frame - start` in (-60, 0] instead of wrapping it into [0, 60). The glow is
  then extrapolated below 0.5, and even below 0 (`GlowBeforeStart`,
  `GlowShadowBounds`).
- **Commands before `start`.** Before `start - 60`, the terminal's command
  index is below -1. `slice(0, index + 1)` then counts from the end of the
  list: the first `n + index + 1` of the `n` commands are shown, none once
  that is not positive, and no prompt is drawn (`TerminalSimulator`,
  `TerminalEarlySlice`).
- **Slide draws the same as fade.** The 'slide' effect of `AnimatedText`
  draws exactly what 'fade' draws (`SlideIsFade`).
- **Empty code.** The line-by-line reveal never meets an empty line list:
  `split` always yields at least one piece, so the division by the line
  count is always defined (`Lines`).

## Model

| member | source | states |
|---|---|---|
| Js.Rem | src/remotion/hooks/useAnimationSequence.ts:72 | integer `%` truncates toward zero: the remainder lies strictly between `-b` and `b`, equals the Euclidean remainder for a non-negative dividend and is never positive for a negative one |
| Js.Trunc | src/remotion/components/CodeBlock.tsx:32 | `Math.trunc` rounds toward zero: within one of `x`, on the side of zero |
| Js.RealRem | src/remotion/components/CodeBlock.tsx:32 | real `%` for a non-negative dividend and positive divisor lies in `[0, b)` and is `a - b * floor(a / b)` |
| Js.SliceIndex | src/remotion/hooks/useAnimationSequence.ts:66 | a `slice` index in `[0, len]` is kept, a negative one counts back from the end, and out-of-range ones clamp to 0 or `len` |
| Js.Slice | src/remotion/components/CodeBlock.tsx:205 | `slice(begin, end)` is never longer than its input, is the plain subsequence for in-range indices, and from 0 is the prefix up to the resolved end |
| Js.Split | src/remotion/components/CodeBlock.tsx:28 | `split` on one character yields at least one piece and no piece holds the separator |
| Js.JoinSplit | src/remotion/components/CodeBlock.tsx:28 | joining the pieces of a split gives back the original string |
| Js.SplitJoin | src/remotion/components/CodeBlock.tsx:28 | splitting a join of separator-free pieces gives back the pieces |
| Js.Decimal | src/remotion/components/CodeBlock.tsx:104 | `String(n)` is a non-empty digit string with no leading zero, one digit exactly when `n < 10` |
| Js.DecimalValue | src/remotion/components/CodeBlock.tsx:104 | the digits of `String(n)` denote `n` |
| Js.PadStart | src/remotion/components/CodeBlock.tsx:104 | `padStart` keeps the string as a suffix, reaches the requested width, and fills only in front |
| Js.LeadingZeros | src/remotion/components/CodeBlock.tsx:104 | zeros padded in front do not change the number denoted |
| Remotion.Ease | src/remotion/hooks/useAnimationSequence.ts:11 | both easing curves map [0, 1] into [0, 1], fixing 0 and 1 |
| Remotion.EaseMonotone | src/remotion/hooks/useAnimationSequence.ts:11 | both easing curves are non-decreasing on [0, 1] |
| Remotion.EaseReachesOne | src/remotion/hooks/useAnimationSequence.ts:11 | on [0, 1] an easing curve reaches 1 only at 1 |
| Remotion.FindRange | src/remotion/hooks/useAnimationSequence.ts:31 | `interpolate` picks the segment whose upper breakpoint is the first at or above the input, the outer segments extending outward |
| Remotion.Interpolate | src/remotion/hooks/useAnimationSequence.ts:13-34 | `interpolate` on a strictly increasing range: each breakpoint maps to its output, and a clamped side pins every input beyond its end breakpoint to that breakpoint's output |
| Remotion.ClampedUnit | src/remotion/hooks/useAnimationSequence.ts:13-22 | a two-point `interpolate` onto [0, 1] clamped at both ends is the eased clamped fraction of the way through the input range |
| Remotion.UnitSegment | src/remotion/hooks/useAnimationSequence.ts:32-34 | an extended two-point `interpolate` from [0, 1], at a point of [0, 1], is the eased point scaled onto the output range |
| AnimationHooks.Progress | src/remotion/hooks/useAnimationSequence.ts:13-22 | progress is the eased clamped window fraction: in [0, 1], 0 up to `start`, 1 from `start + duration` on, and 1 only there |
| AnimationHooks.ProgressMonotone | src/remotion/hooks/useAnimationSequence.ts:13-22 | progress never decreases as the frame advances |
| AnimationHooks.ProgressShift | src/remotion/hooks/useAnimationSequence.ts:13-22 | delaying the window by `k` frames delays progress by `k` frames |
| AnimationHooks.ProgressLaterStart | src/remotion/hooks/useAnimationSequence.ts:13-22 | of two equal windows, the later one is never further along |
| AnimationHooks.WindowEdges | src/remotion/hooks/useAnimationSequence.ts:15-19 | the clamped window fraction is 0 up to `start`, and 1 exactly from `start + duration` on |
| AnimationHooks.Opacity | src/remotion/hooks/useAnimationSequence.ts:31 | opacity is `10 p` over the first tenth of progress, 1 from 0.1 on, and within [0, 1] |
| AnimationHooks.OpacityMonotone | src/remotion/hooks/useAnimationSequence.ts:31 | opacity never fades back out as progress grows |
| AnimationHooks.Scale | src/remotion/hooks/useAnimationSequence.ts:32 | scale lies in [0.8, 1], starts at 0.8 and is 1 exactly at progress 1 |
| AnimationHooks.TranslateY | src/remotion/hooks/useAnimationSequence.ts:33 | translateY lies in [0, 50], starts at 50 and is 0 exactly at progress 1 |
| AnimationHooks.TranslateX | src/remotion/hooks/useAnimationSequence.ts:34 | translateX lies in [-50, 0], starts at -50 and is 0 exactly at progress 1 |
| AnimationHooks.TransformMonotone | src/remotion/hooks/useAnimationSequence.ts:32-34 | scale and translateX grow and translateY shrinks as progress grows |
| AnimationHooks.AnimationSequence | src/remotion/hooks/useAnimationSequence.ts:9-36 | every field in its range; isActive iff `start <= frame <= start + duration`; isComplete iff `frame > start + duration`; never both, both false before `start`; the start values up to `start`; progress, scale and both offsets at their end values exactly from `start + duration` on |
| AnimationHooks.AnimationMonotone | src/remotion/hooks/useAnimationSequence.ts:27-35 | as the frame advances progress, opacity, scale and translateX never decrease and translateY never increases |
| AnimationHooks.AnimationShift | src/remotion/hooks/useAnimationSequence.ts:9-36 | delaying the window by `k` frames delays the whole state by `k` frames |
| AnimationHooks.StaggeredAnimation | src/remotion/hooks/useAnimationSequence.ts:38-50 | one state per item; item `i` is active exactly over `[baseStart + i delay, +duration]` and complete in progress exactly from its end |
| AnimationHooks.StaggerShift | src/remotion/hooks/useAnimationSequence.ts:44-49 | item `i` plays the first item's animation `i * staggerDelay` frames late |
| AnimationHooks.StaggerOrder | src/remotion/hooks/useAnimationSequence.ts:44-49 | with a non-negative delay a later item is never further along than an earlier one |
| AnimationHooks.CharactersFor | src/remotion/hooks/useAnimationSequence.ts:65 | `Math.floor(share * n)`, shared with the typed line of src/remotion/components/CodeBlock.tsx:91; it has no contract of its own, its facts are `CharactersForBounds` and `CharactersForMonotone` |
| AnimationHooks.CharactersForBounds | src/remotion/hooks/useAnimationSequence.ts:65 | `floor(share * n)` for a share in [0, 1] lies in `[0, n]`: none at 0, all at 1, fewer than all of a non-empty text below 1 (also the typed length of a code line, src/remotion/components/CodeBlock.tsx:91) |
| AnimationHooks.CharactersForMonotone | src/remotion/hooks/useAnimationSequence.ts:65 | a larger share never amounts to fewer characters |
| AnimationHooks.CharactersToShow | src/remotion/hooks/useAnimationSequence.ts:58-65 | `floor(linear progress * length)`: at most the length, 0 up to `start`, the full length from `start + duration` on |
| AnimationHooks.CharactersMonotone | src/remotion/hooks/useAnimationSequence.ts:58-65 | the count of typed characters never decreases as the frame advances |
| AnimationHooks.TypewriterText | src/remotion/hooks/useAnimationSequence.ts:52-67 | the typed text is a prefix of the text of length `CharactersToShow`, empty up to `start`, the whole text from `start + duration` on |
| AnimationHooks.TypewriterMonotone | src/remotion/hooks/useAnimationSequence.ts:52-67 | the text at an earlier frame is a prefix of the text at a later frame |
| AnimationHooks.GlowIntensity | src/remotion/hooks/useAnimationSequence.ts:71-75 | from `start` on the glow lies in [0.5, 1], is 1 exactly 30 frames into each 60-frame cycle and 0.5 at each cycle start |
| AnimationHooks.GlowPeriodic | src/remotion/hooks/useAnimationSequence.ts:71-75 | from `start` on the glow repeats every 60 frames |
| AnimationHooks.GlowBeforeStart | src/remotion/hooks/useAnimationSequence.ts:71-75 | before `start` the truncating `%` gives an offset in (-60, 0] that the extended first segment maps to `0.5 + offset / 60`, in (-0.5, 0.5]; at `start - 45` the glow is -0.25 |
| AnimationHooks.GlowEffect | src/remotion/hooks/useAnimationSequence.ts:69-78 | 0 outside `[start, start + duration]`; inside, in [0.5, 1] and peaking exactly 30 frames into each cycle |
| AnimationHooks.GlowEffectPeriodic | src/remotion/hooks/useAnimationSequence.ts:69-78 | inside the window the glow effect repeats every 60 frames |
| CodeBlockComponent.Lines | src/remotion/components/CodeBlock.tsx:28 | at least one line, none holding '\n', and joined with '\n' they give back the code |
| CodeBlockComponent.FramesPerLine | src/remotion/components/CodeBlock.tsx:29 | the frames per line are positive and share the duration evenly among the lines |
| CodeBlockComponent.VisibleLines | src/remotion/components/CodeBlock.tsx:31 | the typed line index is negative before `start`, non-negative from `start`, and at least the line count from `start + duration` on |
| CodeBlockComponent.VisibleLinesMonotone | src/remotion/components/CodeBlock.tsx:31 | the typed line index never decreases as the frame advances |
| CodeBlockComponent.VisibleLinesReach | src/remotion/components/CodeBlock.tsx:31 | the typed line index reaches `m` exactly once `m * linesPerFrame` frames have passed since `start` |
| CodeBlockComponent.CurrentLineProgress | src/remotion/components/CodeBlock.tsx:32 | from `start` on the typed line's progress lies in [0, 1) and is the fractional part of the line position |
| CodeBlockComponent.Label | src/remotion/components/CodeBlock.tsx:104 | the label is at least two digits, denotes `index + 1`, is `String(index + 1)` from 10 on and has a leading '0' below 10 |
| CodeBlockComponent.RenderLine | src/remotion/components/CodeBlock.tsx:86-118 | the `lines.map` body for any inputs: a rendered line carries its label and a prefix of the line, the cursor exactly on the typed line, the whole line otherwise; lines before the typed index are rendered in full, lines after it not at all |
| CodeBlockComponent.RenderLineFacts | src/remotion/components/CodeBlock.tsx:86-118 | one call of the map body: rendered iff from `start` and at most the typed index; labelled; a prefix of the line; the cursor exactly on the typed line; other lines in full; the typed line cut to `CharactersFor` of its progress, shorter than a non-empty line |
| CodeBlockComponent.CodeBlock | src/remotion/components/CodeBlock.tsx:25-118 | one entry per line; opacity and scale from the animation; line `i` rendered iff `frame >= start` and `i <= visibleLines`; labelled `Label(i)`; a prefix of the line; the cursor exactly on the typed line; every other rendered line in full |
| CodeBlockComponent.CodeBlockPrefix | src/remotion/components/CodeBlock.tsx:86-93 | nothing before `start`, the first line from `start` on, the rendered lines a contiguous prefix, nothing rendered after the cursor line |
| CodeBlockComponent.CodeBlockPartialLine | src/remotion/components/CodeBlock.tsx:90-91 | the typed line shows `floor(progress * length)` characters, strictly fewer than a non-empty line holds |
| CodeBlockComponent.CodeBlockComplete | src/remotion/components/CodeBlock.tsx:86-118 | from `start + duration` on every line is shown in full with its label and no cursor |
| CodeBlockComponent.CodeBlockLineFull | src/remotion/components/CodeBlock.tsx:87-91 | line `k` is shown in full without a cursor exactly when the typed index has passed it |
| CodeBlockComponent.CodeBlockMonotone | src/remotion/components/CodeBlock.tsx:86-93 | a line shown at one frame is shown at every later frame, with at least as much of its text |
| CodeBlockComponent.CommandIndex | src/remotion/components/CodeBlock.tsx:180 | the command index is the floor of `(frame - start) / 60`, bracketing `frame - start` between `60 idx` and `60 (idx + 1)` |
| CodeBlockComponent.FloorOfQuotient | src/remotion/components/CodeBlock.tsx:180 | the floor of a real quotient by a positive integer is Euclidean integer division |
| CodeBlockComponent.TerminalSimulator | src/remotion/components/CodeBlock.tsx:180-216 | the shown commands are a prefix of the list; the first `min(idx + 1, n)` from `start` on; none in the 60 frames before `start`; for `idx < -1` the first `max(n + idx + 1, 0)`, without a prompt; all, without a prompt, after the last; the prompt exactly when `0 <= idx < n`, with `idx + 1` commands shown |
| CodeBlockComponent.TerminalEarlySlice | src/remotion/components/CodeBlock.tsx:205-216 | 61 frames before `start`, `slice(0, -1)` already shows every command but the last, with no prompt |
| CodeBlockComponent.TerminalMonotone | src/remotion/components/CodeBlock.tsx:180-205 | from `start` on the shown commands only grow |
| AnimatedTextComponent.AnimatedText | src/remotion/components/AnimatedText.tsx:28-58 | the text is the typewriter prefix for 'typewriter' and the whole text otherwise; the glow is 1 and there is no shadow unless 'glow'; with 'glow' the shadow radii are 10 and 20 times the glow, which lies in [0.5, 1] from `start`; the border cursor iff 'typewriter' and `start <= frame <= start + duration`; blinking iff 'typewriter' |
| AnimatedTextComponent.TypewriterCursorWhileActive | src/remotion/components/AnimatedText.tsx:54-56 | the typewriter cursor shows exactly while the animation is active, and the whole text once it is complete |
| AnimatedTextComponent.SlideIsFade | src/remotion/components/AnimatedText.tsx:33-58 | 'slide' and 'fade' draw identical views |
| AnimatedTextComponent.GlowShadowBounds | src/remotion/components/AnimatedText.tsx:35-50 | from `start` on the shadow radii stay in [5, 10] and [10, 20] and peak exactly 30 frames into each cycle; before `start` the glow can be negative |
| AnimatedTextComponent.RotateX | src/remotion/components/AnimatedText.tsx:100 | the rotation lies in [0, 90] for progress in [0, 1], is 90 at progress 0, and is 0 exactly at progress 1 |
| AnimatedTextComponent.WordAt | src/remotion/components/AnimatedText.tsx:87-105 | the word sits at `(x + 15 i, y + 2 i)`; its scale and opacity come from the 40-frame animation at its start; its rotation is within [0, 90], 90 and invisible up to its start, and 0 exactly from the end of its window |
| AnimatedTextComponent.KineticText | src/remotion/components/AnimatedText.tsx:76-115 | one view per word, word `i` animated from `start + i * staggerDelay` |
| AnimatedTextComponent.KineticIsStaggered | src/remotion/components/AnimatedText.tsx:86-91 | the words follow `useStaggeredAnimation(words, start, staggerDelay, 40)` |
| AnimatedTextComponent.KineticOrder | src/remotion/components/AnimatedText.tsx:87-100 | with a non-negative delay a later word is never turned further toward the viewer than an earlier one |
| AnimatedTextComponent.KineticMonotone | src/remotion/components/AnimatedText.tsx:88-100 | as the frame advances a word's rotation only decreases |
| DataVisualizationComposition.MaxValue | src/remotion/compositions/DataVisualization.tsx:54 | the maximum is at least every value and is one of them |
| DataVisualizationComposition.BarHeight | src/remotion/compositions/DataVisualization.tsx:78 | for a positive maximum, a positive value up to the maximum gets a height in (0, 100], the height is 100 exactly for the maximum, a non-positive value gets none, and a non-negative value gets a non-negative height |
| DataVisualizationComposition.BarHeightProportion | src/remotion/compositions/DataVisualization.tsx:78 | the height is `value * 100 / max`, and a larger value never gets a shorter bar |
| DataVisualizationComposition.Grown | src/remotion/compositions/DataVisualization.tsx:79 | the grown height is 0 at progress 0, the full height at progress 1, and between 0 and the full height in between |
| DataVisualizationComposition.BarAt | src/remotion/compositions/DataVisualization.tsx:72-118 | the bar grows over its 60-frame window: 0 up to its start, the full height from its end, never above it; the value label shows iff progress > 0.8, never before the start, and always from the end |
| DataVisualizationComposition.AnimatedBarChart | src/remotion/compositions/DataVisualization.tsx:49-137 | one bar per data point, bar `i` animated from `start + 20 i` and normalised by the maximum |
| DataVisualizationComposition.ChartSettled | src/remotion/compositions/DataVisualization.tsx:54-104 | once every bar has grown, each shows its full height and its value; the largest value fills the chart; every positive value lies in (0, 100] |
| DataVisualizationComposition.BarMonotone | src/remotion/compositions/DataVisualization.tsx:79-104 | a bar of non-negative value never shrinks, and a shown label stays shown |
| DataVisualizationComposition.IndicatorAt | src/remotion/compositions/DataVisualization.tsx:171-201 | fade and slide from the 60-frame animation at its start; '↗' in green iff growth > 0; '↘' in red iff growth <= 0; the figure is the non-negative magnitude of the growth |
| DataVisualizationComposition.GrowthIndicators | src/remotion/compositions/DataVisualization.tsx:170-175 | one indicator per data point, indicator `i` animated from `start + 30 i` |
| DataVisualizationComposition.GrowthRecovered | src/remotion/compositions/DataVisualization.tsx:177-201 | the arrow together with the figure gives back the signed growth |
| DataVisualizationComposition.IndicatorOrder | src/remotion/compositions/DataVisualization.tsx:171-189 | an earlier indicator is never less visible than a later one |
| APIDemoComposition.MethodColor | src/remotion/compositions/APIDemo.tsx:56-61 | every method has a seven-character '#' colour |
| APIDemoComposition.MethodColorsDistinct | src/remotion/compositions/APIDemo.tsx:56-61 | two methods share a colour only if they are the same method |
| APIDemoComposition.EndpointSlot | src/remotion/compositions/APIDemo.tsx:36-40 | endpoint `i`'s sequence and start are at `120 + 180 i` for 150 frames, at `(10, 30 + 35 i)` |
| APIDemoComposition.SlotsDisjoint | src/remotion/compositions/APIDemo.tsx:36-40 | each `Sequence` window ends 30 frames before the next one starts, so no two endpoint demos are mounted together, and each row is below the one before |
| APIDemoComposition.RequestAnimation | src/remotion/compositions/APIDemo.tsx:63-68 | the request animation is `clamp((frame - start - 30) / 60)`: 0 exactly up to 30 frames after `start`, 1 exactly from 90 |
| APIDemoComposition.RequestMonotone | src/remotion/compositions/APIDemo.tsx:63-68 | the request animation never decreases |
| APIDemoComposition.EndpointDemo | src/remotion/compositions/APIDemo.tsx:52-145 | the badge carries the method's colour; fade and slide from the 150-frame animation; the response panel shows iff `frame - start > 30`, with opacity the request animation and offset in [0, 20), 0 exactly from 90 frames on |
| APIDemoComposition.ResponseMonotone | src/remotion/compositions/APIDemo.tsx:123-132 | once shown, the response panel stays, only brightens and only moves up |
| APIDemoComposition.APIDemo | src/remotion/compositions/APIDemo.tsx:35-43 | one entry per endpoint, with its slot and the view its demo computes for a given component frame with `start` set to the slot's `from` (the host's rebasing of that frame is not modelled) |

## Left out

- `highlightSyntax` (src/remotion/components/CodeBlock.tsx:127-173): regular-expression substitutions producing HTML. This is presentation, and the model keeps the line text it would colour.
- The terminal header's `new Date().toLocaleTimeString()`: it reads the wall clock.
- The API response body, rendered through `JSON.stringify`, a library serialiser. `Endpoint` carries no response.
- Remotion's `Sequence` frame rebasing: what `useCurrentFrame()` returns inside `<Sequence from=…>` is defined by the host. The model takes the component's frame as a parameter. `APIDemoComposition.Shows` only states which frames a sequence mounts its children for.
- The error Remotion's `interpolate` raises for malformed ranges: every literal range in these files is well formed, and the hook windows `[start, start + duration]` are well formed under the `duration > 0` requirement of the next item, so `Remotion.Interpolate` requires well-formed ranges.
- Custom easing passed to `useAnimationSequence`: no caller in these files passes one, so `AnimationSequence` always uses `Easing.out(Easing.cubic)`.
- A window whose duration is zero or negative, and bar data whose largest value is zero: the source does not guard against them (a non-increasing `interpolate` range, which the library rejects, also in `CodeBlock` through its hook call; the division by the maximum). The model requires `duration > 0` and a non-zero maximum.
- Text length: `String.prototype.length` and `slice` count UTF-16 code units, while the model's strings are sequences of Unicode scalar values. Outside the Basic Multilingual Plane the counts differ, so the typed prefix of `useTypewriterEffect` and of a code line can be shorter here than in the source, which can also cut a surrogate pair in half.
- Default prop values (a `duration` of 120 for `CodeBlock` and 60 for `AnimatedText`, a word stagger of 10 for `KineticText`, a stagger of 5 and duration of 30 for `useStaggeredAnimation`): every function takes these as explicit parameters.
- Floating-point rounding: all arithmetic is over exact reals.
- Js.Rem: does not state the quotient identity `a == b * trunc(a / b) + r`; it states only the range and the sign of the remainder, which is what the glow relies on.
- CodeBlockComponent.CodeBlock: states the per-line text facts by relation to the line (a prefix, or the whole line). The exact length of the typed line is stated separately, by `CodeBlockPartialLine`.
- AnimatedTextComponent.KineticText: states only the per-word schedule; what each word draws is stated by `WordAt`.
- DataVisualizationComposition.AnimatedBarChart: states only the per-bar schedule and normalisation; what each bar draws is stated by `BarAt`.
- DataVisualizationComposition.GrowthIndicators: states only the per-indicator schedule; what each indicator draws is stated by `IndicatorAt`.
- APIDemoComposition.APIDemo: states only the per-endpoint schedule; what each endpoint draws is stated by `EndpointDemo`.
- Styling constants (fonts, sizes, borders, the CSS `blink` animation): presentation only.
- `LogoAnimation` and `GeometricShapes`: their timing is spring physics (`spring`), a frame-modulo glitch and trigonometric motion (sines and cosines of the frame), outside this model. The remaining compositions only place the modelled components at constant offsets.
