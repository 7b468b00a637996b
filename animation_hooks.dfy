/** The frame-driven timing hooks of src/remotion/hooks/useAnimationSequence.ts.
    Each hook reads the current frame from the host; here the frame is an
    explicit parameter, so every hook is a pure function of (frame, config). */
module AnimationHooks {
  import opened Remotion
  import Js

  /** What `useAnimationSequence` returns for one frame. */
  datatype AnimationState = AnimationState(
    progress: real,
    isActive: bool,
    isComplete: bool,
    opacity: real,
    scale: real,
    translateY: real,
    translateX: real)

  /** The share of the window `[start, start + duration]` that has elapsed at
      `frame`, clamped to [0, 1]: the reference the hooks are measured against. */
  function WindowFraction(frame: int, start: int, duration: int): real
    requires duration > 0
  {
    Clamp01((frame - start) as real / duration as real)
  }

  lemma WindowEdges(frame: int, start: int, duration: int)
    requires duration > 0
    ensures frame <= start ==> WindowFraction(frame, start, duration) == 0.0
    ensures frame >= start + duration ==> WindowFraction(frame, start, duration) == 1.0
    ensures WindowFraction(frame, start, duration) == 1.0 ==> frame >= start + duration
  {
    var n, d := (frame - start) as real, duration as real;
    DivSign(n, d);
    DivVersusOne(n, d);
  }

  lemma WindowFractionMonotone(f1: int, f2: int, start: int, duration: int)
    requires duration > 0 && f1 <= f2
    ensures WindowFraction(f1, start, duration) <= WindowFraction(f2, start, duration)
  {
    FractionMonotone((f1 - start) as real, (f2 - start) as real, duration as real);
  }

  /** `interpolate(frame, [start, start + duration], [0, 1])`, clamped on both
      sides, through `easing`. */
  function Progress(frame: int, start: int, duration: int, easing: Easing): (p: real)
    requires duration > 0
    ensures p == Ease(easing, WindowFraction(frame, start, duration))
    ensures 0.0 <= p <= 1.0
    ensures frame <= start ==> p == 0.0
    ensures frame >= start + duration ==> p == 1.0
    ensures p == 1.0 ==> frame >= start + duration
  {
    ClampedUnit(frame as real, start as real, (start + duration) as real, easing);
    WindowEdges(frame, start, duration);
    EaseReachesOne(easing, WindowFraction(frame, start, duration));
    Interpolate(frame as real, [start as real, (start + duration) as real], [0.0, 1.0], Options(easing, Clamp, Clamp))
  }

  /** Progress never goes backwards as the frame advances. */
  lemma {:induction false} ProgressMonotone(f1: int, f2: int, start: int, duration: int, easing: Easing)
    requires duration > 0 && f1 <= f2
    ensures Progress(f1, start, duration, easing) <= Progress(f2, start, duration, easing)
  {
    WindowFractionMonotone(f1, f2, start, duration);
    EaseMonotone(easing, WindowFraction(f1, start, duration), WindowFraction(f2, start, duration));
  }

  /** Delaying a window by `k` frames delays its progress by `k` frames. */
  lemma ProgressShift(frame: int, start: int, k: int, duration: int, easing: Easing)
    requires duration > 0
    ensures Progress(frame, start + k, duration, easing) == Progress(frame - k, start, duration, easing)
  {
    assert WindowFraction(frame, start + k, duration) == WindowFraction(frame - k, start, duration);
  }

  /** `interpolate(progress, [0, 0.1, 0.9, 1], [0, 1, 1, 1])`: a fade-in over
      the first tenth of the progress, with no fade-out. */
  function Opacity(p: real): (o: real)
    ensures 0.0 <= p <= 0.1 ==> o == 10.0 * p
    ensures p >= 0.1 ==> o == 1.0
    ensures 0.0 <= p <= 1.0 ==> 0.0 <= o <= 1.0
  {
    OpacityRange();
    Interpolate(p, OpacityInput, [0.0, 1.0, 1.0, 1.0], Defaults)
  }

  const OpacityInput: seq<real> := [0.0, 0.1, 0.9, 1.0]

  lemma OpacityRange()
    ensures StrictlyIncreasing(OpacityInput)
  {
  }

  /** Once visible, an element stays visible: opacity never decreases as the
      progress grows. */
  lemma OpacityMonotone(p: real, q: real)
    requires 0.0 <= p <= q <= 1.0
    ensures Opacity(p) <= Opacity(q)
  {
  }

  /** `interpolate(progress, [0, 1], [0.8, 1], {easing})`. */
  function Scale(p: real): (s: real)
    ensures 0.0 <= p <= 1.0 ==> 0.8 <= s <= 1.0
    ensures 0.0 <= p <= 1.0 ==> (s == 1.0 <==> p == 1.0)
    ensures p == 0.0 ==> s == 0.8
  {
    UnitRange();
    var v := Interpolate(p, [0.0, 1.0], [0.8, 1.0], Options(CubicOut, Extend, Extend));
    if 0.0 <= p <= 1.0 then UnitSegment(p, 0.8, 1.0, CubicOut); EaseReachesOne(CubicOut, p); v else v
  }

  /** `interpolate(progress, [0, 1], [50, 0], {easing})`. */
  function TranslateY(p: real): (y: real)
    ensures 0.0 <= p <= 1.0 ==> 0.0 <= y <= 50.0
    ensures 0.0 <= p <= 1.0 ==> (y == 0.0 <==> p == 1.0)
    ensures p == 0.0 ==> y == 50.0
  {
    UnitRange();
    var v := Interpolate(p, [0.0, 1.0], [50.0, 0.0], Options(CubicOut, Extend, Extend));
    if 0.0 <= p <= 1.0 then UnitSegment(p, 50.0, 0.0, CubicOut); EaseReachesOne(CubicOut, p); v else v
  }

  /** `interpolate(progress, [0, 1], [-50, 0], {easing})`. */
  function TranslateX(p: real): (x: real)
    ensures 0.0 <= p <= 1.0 ==> -50.0 <= x <= 0.0
    ensures 0.0 <= p <= 1.0 ==> (x == 0.0 <==> p == 1.0)
    ensures p == 0.0 ==> x == -50.0
  {
    UnitRange();
    var v := Interpolate(p, [0.0, 1.0], [-50.0, 0.0], Options(CubicOut, Extend, Extend));
    if 0.0 <= p <= 1.0 then UnitSegment(p, -50.0, 0.0, CubicOut); EaseReachesOne(CubicOut, p); v else v
  }

  lemma UnitRange()
    ensures StrictlyIncreasing([0.0, 1.0])
  {
  }

  /** Scale and the two offsets move monotonically toward their end values
      as the progress grows. */
  lemma {:induction false} TransformMonotone(p: real, q: real)
    requires 0.0 <= p <= q <= 1.0
    ensures Scale(p) <= Scale(q)
    ensures TranslateY(p) >= TranslateY(q)
    ensures TranslateX(p) <= TranslateX(q)
  {
    UnitSegment(p, 0.8, 1.0, CubicOut);
    UnitSegment(q, 0.8, 1.0, CubicOut);
    UnitSegment(p, 50.0, 0.0, CubicOut);
    UnitSegment(q, 50.0, 0.0, CubicOut);
    UnitSegment(p, -50.0, 0.0, CubicOut);
    UnitSegment(q, -50.0, 0.0, CubicOut);
    EaseMonotone(CubicOut, p, q);
  }

  /** `useAnimationSequence({start, duration})` at `frame`, with the default
      easing `Easing.out(Easing.cubic)`. The eased progress is eased once
      more by scale and the two offsets. */
  function AnimationSequence(frame: int, start: int, duration: int): (s: AnimationState)
    requires duration > 0
    ensures 0.0 <= s.progress <= 1.0 && 0.0 <= s.opacity <= 1.0
    ensures 0.8 <= s.scale <= 1.0 && 0.0 <= s.translateY <= 50.0 && -50.0 <= s.translateX <= 0.0
    ensures s.isActive <==> start <= frame <= start + duration
    ensures s.isComplete <==> frame > start + duration
    ensures !(s.isActive && s.isComplete)
    ensures frame < start <==> !s.isActive && !s.isComplete
    ensures s.isComplete ==> s.progress == 1.0
    ensures frame <= start ==> s.progress == 0.0 && s.opacity == 0.0
    ensures frame <= start ==> s.scale == 0.8 && s.translateY == 50.0 && s.translateX == -50.0
    ensures s.progress == 1.0 <==> frame >= start + duration
    ensures s.scale == 1.0 <==> frame >= start + duration
    ensures s.translateY == 0.0 <==> frame >= start + duration
    ensures s.translateX == 0.0 <==> frame >= start + duration
  {
    var progress := Progress(frame, start, duration, CubicOut);
    AnimationState(
      progress,
      frame >= start && frame <= start + duration,
      frame > start + duration,
      Opacity(progress),
      Scale(progress),
      TranslateY(progress),
      TranslateX(progress))
  }

  /** As the frame advances, progress, opacity, scale and translateX never
      decrease and translateY never increases. */
  lemma {:induction false} AnimationMonotone(f1: int, f2: int, start: int, duration: int)
    requires duration > 0 && f1 <= f2
    ensures AnimationSequence(f1, start, duration).progress <= AnimationSequence(f2, start, duration).progress
    ensures AnimationSequence(f1, start, duration).opacity <= AnimationSequence(f2, start, duration).opacity
    ensures AnimationSequence(f1, start, duration).scale <= AnimationSequence(f2, start, duration).scale
    ensures AnimationSequence(f1, start, duration).translateY >= AnimationSequence(f2, start, duration).translateY
    ensures AnimationSequence(f1, start, duration).translateX <= AnimationSequence(f2, start, duration).translateX
  {
    var p, q := Progress(f1, start, duration, CubicOut), Progress(f2, start, duration, CubicOut);
    ProgressMonotone(f1, f2, start, duration, CubicOut);
    OpacityMonotone(p, q);
    TransformMonotone(p, q);
  }

  /** Delaying a window by `k` frames delays the whole animation by `k` frames. */
  lemma AnimationShift(frame: int, start: int, k: int, duration: int)
    requires duration > 0
    ensures AnimationSequence(frame, start + k, duration) == AnimationSequence(frame - k, start, duration)
  {
    ProgressShift(frame, start, k, duration, CubicOut);
  }

  /** `useStaggeredAnimation(items, baseStart, staggerDelay, duration)`: one
      animation per item, item `i` starting `i * staggerDelay` frames after
      `baseStart`, all of the same duration. */
  function StaggeredAnimation<T>(items: seq<T>, frame: int, baseStart: int, staggerDelay: int, duration: int)
    : (states: seq<AnimationState>)
    requires duration > 0
    ensures |states| == |items|
    ensures forall i :: 0 <= i < |states| ==>
      (states[i].isActive <==> baseStart + i * staggerDelay <= frame <= baseStart + i * staggerDelay + duration)
    ensures forall i :: 0 <= i < |states| ==>
      (states[i].progress == 1.0 <==> frame >= baseStart + i * staggerDelay + duration)
  {
    seq(|items|, i requires 0 <= i < |items| => AnimationSequence(frame, baseStart + i * staggerDelay, duration))
  }

  /** Item `i` of a stagger plays the first item's animation `i * staggerDelay`
      frames late. */
  lemma StaggerShift<T>(items: seq<T>, frame: int, baseStart: int, staggerDelay: int, duration: int, i: nat)
    requires duration > 0 && i < |items|
    ensures StaggeredAnimation(items, frame, baseStart, staggerDelay, duration)[i]
         == AnimationSequence(frame - i * staggerDelay, baseStart, duration)
  {
    AnimationShift(frame, baseStart, i * staggerDelay, duration);
  }

  /** With a non-negative delay, a later item is never further along than an
      earlier one. */
  lemma {:induction false} StaggerOrder<T>(items: seq<T>, frame: int, baseStart: int, staggerDelay: int,
                                           duration: int, i: nat, j: nat)
    requires duration > 0 && staggerDelay >= 0 && i <= j < |items|
    ensures StaggeredAnimation(items, frame, baseStart, staggerDelay, duration)[j].progress
         <= StaggeredAnimation(items, frame, baseStart, staggerDelay, duration)[i].progress
  {
    var states := StaggeredAnimation(items, frame, baseStart, staggerDelay, duration);
    var si, sj := baseStart + i * staggerDelay, baseStart + j * staggerDelay;
    assert si <= sj by { MulMonotone(i, j, staggerDelay); }
    assert states[i] == AnimationSequence(frame, si, duration);
    assert states[j] == AnimationSequence(frame, sj, duration);
    ProgressLaterStart(frame, si, sj, duration, CubicOut);
  }

  lemma MulMonotone(i: int, j: int, k: int)
    requires i <= j && k >= 0
    ensures i * k <= j * k
  {
    assert j * k - i * k == (j - i) * k;
  }

  /** Of two windows of one length, the one that starts later is never
      further along. */
  lemma ProgressLaterStart(frame: int, s1: int, s2: int, duration: int, easing: Easing)
    requires duration > 0 && s1 <= s2
    ensures Progress(frame, s2, duration, easing) <= Progress(frame, s1, duration, easing)
  {
    FractionMonotone((frame - s2) as real, (frame - s1) as real, duration as real);
    EaseMonotone(easing, WindowFraction(frame, s2, duration), WindowFraction(frame, s1, duration));
  }

  /** `Math.floor(share * n)`: how many of `n` characters a share of the
      way through amounts to. */
  function CharactersFor(share: real, n: nat): int
  {
    (share * n as real).Floor
  }

  /** A share in [0, 1] amounts to between none and all of the characters,
      none at 0, all at 1, and fewer than all of a non-empty text below 1. */
  lemma CharactersForBounds(share: real, n: nat)
    requires 0.0 <= share <= 1.0
    ensures 0 <= CharactersFor(share, n) <= n
    ensures share == 0.0 ==> CharactersFor(share, n) == 0
    ensures share == 1.0 ==> CharactersFor(share, n) == n
    ensures share < 1.0 && n > 0 ==> CharactersFor(share, n) < n
  {
    ScaleUnit(share, n);
    if share < 1.0 && n > 0 {
      assert share * n as real < 1.0 * n as real;
    }
  }

  lemma ScaleUnit(p: real, n: nat)
    requires 0.0 <= p <= 1.0
    ensures 0.0 <= p * n as real <= n as real
  {
    assert p * n as real <= 1.0 * n as real;
  }

  /** A larger share never amounts to fewer characters. */
  lemma CharactersForMonotone(p: real, q: real, n: nat)
    requires p <= q
    ensures CharactersFor(p, n) <= CharactersFor(q, n)
  {
    ScaledFloorMonotone(p, q, n as real);
  }

  /** `Math.floor(progress * text.length)` for the linear progress through
      `[start, start + duration]`: how many characters the typewriter shows. */
  function CharactersToShow(frame: int, length: nat, start: int, duration: int): (k: nat)
    requires duration > 0
    ensures k == CharactersFor(WindowFraction(frame, start, duration), length)
    ensures k <= length
    ensures frame <= start ==> k == 0
    ensures frame >= start + duration ==> k == length
  {
    var progress := Progress(frame, start, duration, Linear);
    CharactersForBounds(progress, length);
    CharactersFor(progress, length)
  }

  lemma {:induction false} CharactersMonotone(f1: int, f2: int, length: nat, start: int, duration: int)
    requires duration > 0 && f1 <= f2
    ensures CharactersToShow(f1, length, start, duration) <= CharactersToShow(f2, length, start, duration)
  {
    WindowFractionMonotone(f1, f2, start, duration);
    CharactersForMonotone(WindowFraction(f1, start, duration), WindowFraction(f2, start, duration), length);
  }

  /** `useTypewriterEffect(text, start, duration)`: the first
      `floor(progress * |text|)` characters of `text`, with linear progress. */
  function TypewriterText(frame: int, text: string, start: int, duration: int): (r: string)
    requires duration > 0
    ensures r <= text
    ensures |r| == CharactersToShow(frame, |text|, start, duration)
    ensures frame <= start ==> r == []
    ensures frame >= start + duration ==> r == text
  {
    var charactersToShow := CharactersToShow(frame, |text|, start, duration);
    Js.Slice(text, 0, charactersToShow)
  }

  /** The typed text only grows: an earlier frame shows a prefix of what a
      later frame shows. */
  lemma {:induction false} TypewriterMonotone(f1: int, f2: int, text: string, start: int, duration: int)
    requires duration > 0 && f1 <= f2
    ensures TypewriterText(f1, text, start, duration) <= TypewriterText(f2, text, start, duration)
  {
    var r1, r2 := TypewriterText(f1, text, start, duration), TypewriterText(f2, text, start, duration);
    CharactersMonotone(f1, f2, |text|, start, duration);
    assert r1 == text[..|r1|];
    assert r2 == text[..|r2|];
  }

  lemma ScaledFloorMonotone(p: real, q: real, n: real)
    requires p <= q && n >= 0.0
    ensures (p * n).Floor <= (q * n).Floor
  {
    assert q * n - p * n == (q - p) * n;
  }

  /** `interpolate((frame - start) % 60, [0, 30, 60], [0.5, 1, 0.5])`, with the
      truncating `%` and the default extrapolation. */
  function GlowIntensity(frame: int, start: int): (g: real)
    ensures frame >= start ==> 0.5 <= g <= 1.0
    ensures frame >= start ==> (g == 1.0 <==> (frame - start) % 60 == 30)
    ensures frame >= start && (frame - start) % 60 == 0 ==> g == 0.5
  {
    GlowRange();
    Interpolate(Js.Rem(frame - start, 60) as real, GlowInput, [0.5, 1.0, 0.5], Defaults)
  }

  const GlowInput: seq<real> := [0.0, 30.0, 60.0]

  lemma GlowRange()
    ensures StrictlyIncreasing(GlowInput)
  {
  }

  /** From `start` on, the glow repeats every 60 frames. */
  lemma GlowPeriodic(frame: int, start: int)
    requires frame >= start
    ensures GlowIntensity(frame + 60, start) == GlowIntensity(frame, start)
  {
    var d := frame - start;
    assert (d + 60) % 60 == d % 60;
  }

  /** Before `start` the truncating `%` yields an offset in (-60, 0], which
      the default extrapolation carries along the rising first segment: the
      glow is `0.5 + offset / 60`, in (-0.5, 0.5], and at `start - 45` it is
      already negative. */
  lemma GlowBeforeStart(frame: int, start: int)
    requires frame < start
    ensures GlowIntensity(frame, start) == 0.5 + Js.Rem(frame - start, 60) as real / 60.0
    ensures -0.5 < GlowIntensity(frame, start) <= 0.5
    ensures GlowIntensity(start - 45, start) == -0.25
  {
    var x := Js.Rem(frame - start, 60) as real;
    assert FindRange(x, GlowInput) == 0;
    assert x / 30.0 * 0.5 == x / 60.0;
    assert Js.Rem(-45, 60) == -45;
    assert FindRange(-45.0, GlowInput) == 0;
  }

  /** `useGlowEffect(start, duration)`: the glow inside the window
      `[start, start + duration]`, 0 outside it. */
  function GlowEffect(frame: int, start: int, duration: int): (g: real)
    ensures !(start <= frame <= start + duration) ==> g == 0.0
    ensures start <= frame <= start + duration ==> 0.5 <= g <= 1.0
    ensures start <= frame <= start + duration ==> (g == 1.0 <==> (frame - start) % 60 == 30)
  {
    var glowIntensity := GlowIntensity(frame, start);
    if frame >= start && frame <= start + duration then glowIntensity else 0.0
  }

  /** Inside its window the glow effect repeats every 60 frames. */
  lemma GlowEffectPeriodic(frame: int, start: int, duration: int)
    requires start <= frame && frame + 60 <= start + duration
    ensures GlowEffect(frame + 60, start, duration) == GlowEffect(frame, start, duration)
  {
    GlowPeriodic(frame, start);
  }
}
