/** The frame arithmetic of src/remotion/components/AnimatedText.tsx: the
    text, glow and typing cursor of `AnimatedText`, and the per-word
    schedule and placement of `KineticText`. */
module AnimatedTextComponent {
  import opened Wrappers
  import opened AnimationHooks

  /** The `effect` prop; `Fade` when none is given. */
  datatype Effect = Fade | Slide | Typewriter | Glow

  /** The two blur radii of the glowing text shadow, in pixels. */
  datatype Shadow = Shadow(inner: real, outer: real)

  /** What `AnimatedText` draws: the text, the animated container values,
      the glow multiplier, the text shadow (none unless glowing), and for the
      typewriter effect whether the right-border cursor is drawn and whether
      the container blinks. */
  datatype TextView = TextView(
    text: string,
    opacity: real,
    scale: real,
    translateY: real,
    glow: real,
    shadow: Option<Shadow>,
    borderCursor: bool,
    blink: bool)

  /** `AnimatedText` at `frame`. */
  function AnimatedText(frame: int, text: string, start: int, duration: int, effect: Effect): (view: TextView)
    requires duration > 0
    ensures view.text <= text
    ensures effect != Typewriter ==> view.text == text
    ensures effect == Typewriter ==> view.text == TypewriterText(frame, text, start, duration)
    ensures effect != Glow ==> view.glow == 1.0 && view.shadow == None
    ensures effect == Glow ==> view.glow == GlowIntensity(frame, start)
    ensures effect == Glow ==> view.shadow == Some(Shadow(10.0 * view.glow, 20.0 * view.glow))
    ensures effect == Glow && frame >= start ==> 0.5 <= view.glow <= 1.0
    ensures view.borderCursor <==> effect == Typewriter && start <= frame <= start + duration
    ensures view.blink <==> effect == Typewriter
    ensures view.opacity == AnimationSequence(frame, start, duration).opacity
    ensures view.scale == AnimationSequence(frame, start, duration).scale
    ensures view.translateY == AnimationSequence(frame, start, duration).translateY
  {
    var animation := AnimationSequence(frame, start, duration);
    var typewriterText := TypewriterText(frame, text, start, duration);
    var displayText := if effect == Typewriter then typewriterText else text;
    var glowEffect := if effect == Glow then GlowIntensity(frame, start) else 1.0;
    TextView(
      displayText,
      animation.opacity,
      animation.scale,
      animation.translateY,
      glowEffect,
      if effect == Glow then Some(Shadow(10.0 * glowEffect, 20.0 * glowEffect)) else None,
      effect == Typewriter && frame >= start && frame <= start + duration,
      effect == Typewriter)
  }

  /** The typewriter's border cursor is drawn exactly while the animation is
      active, and the whole text is shown once it is complete. */
  lemma TypewriterCursorWhileActive(frame: int, text: string, start: int, duration: int)
    requires duration > 0
    ensures AnimatedText(frame, text, start, duration, Typewriter).borderCursor
        <==> AnimationSequence(frame, start, duration).isActive
    ensures AnimationSequence(frame, start, duration).isComplete
        ==> AnimatedText(frame, text, start, duration, Typewriter).text == text
  {
  }

  /** The 'slide' effect draws exactly what 'fade' draws: neither changes
      anything beyond the shared animation. */
  lemma SlideIsFade(frame: int, text: string, start: int, duration: int)
    requires duration > 0
    ensures AnimatedText(frame, text, start, duration, Slide) == AnimatedText(frame, text, start, duration, Fade)
  {
  }

  /** From `start` on the glowing shadow's radii stay within [5, 10] and
      [10, 20] pixels and peak 30 frames into every 60-frame cycle; before
      `start` the glow multiplier can be negative. */
  lemma GlowShadowBounds(frame: int, text: string, start: int, duration: int)
    requires duration > 0 && frame >= start
    ensures var view := AnimatedText(frame, text, start, duration, Glow);
      && 5.0 <= view.shadow.value.inner <= 10.0
      && 10.0 <= view.shadow.value.outer <= 20.0
      && (view.shadow.value.outer == 20.0 <==> (frame - start) % 60 == 30)
    ensures AnimatedText(start - 45, text, start, duration, Glow).glow < 0.0
  {
    GlowBeforeStart(start - 45, start);
  }

  /** The length of each word's animation in `KineticText`. */
  const WordDuration: int := 40

  /** One word of `KineticText`: its text, its position (percent of the
      frame), and its scale, rotation about the x axis (degrees) and opacity. */
  datatype WordView = WordView(word: string, left: real, top: real, scale: real, rotateX: real, opacity: real)

  /** `(1 - progress) * 90`: the word's rotation about the x axis, from 90
      degrees at progress 0 to facing the viewer at progress 1. */
  function RotateX(progress: real): (degrees: real)
    ensures 0.0 <= progress <= 1.0 ==> 0.0 <= degrees <= 90.0
    ensures degrees == 0.0 <==> progress == 1.0
    ensures progress == 0.0 ==> degrees == 90.0
  {
    (1.0 - progress) * 90.0
  }

  /** Word `index` of `KineticText`, whose animation starts at `wordStart`. */
  function WordAt(frame: int, word: string, index: nat, wordStart: int, x: real, y: real): (view: WordView)
    ensures view.word == word && view.left == x + 15.0 * index as real && view.top == y + 2.0 * index as real
    ensures view.scale == AnimationSequence(frame, wordStart, WordDuration).scale
    ensures view.opacity == AnimationSequence(frame, wordStart, WordDuration).opacity
    ensures view.rotateX == RotateX(AnimationSequence(frame, wordStart, WordDuration).progress)
    ensures 0.0 <= view.rotateX <= 90.0
    ensures view.rotateX == 0.0 <==> frame >= wordStart + WordDuration
    ensures frame <= wordStart ==> view.rotateX == 90.0 && view.opacity == 0.0
  {
    var animation := AnimationSequence(frame, wordStart, WordDuration);
    WordView(word, x + 15.0 * index as real, y + 2.0 * index as real,
             animation.scale, RotateX(animation.progress), animation.opacity)
  }

  /** `KineticText` at `frame`: word `i` animates for 40 frames from
      `start + i * staggerDelay`, sits `15 i` percent right of and `2 i`
      percent below `(x, y)`, and turns from 90 degrees to face the viewer. */
  function KineticText(frame: int, words: seq<string>, start: int, staggerDelay: int, x: real, y: real)
    : (views: seq<WordView>)
    ensures |views| == |words|
    ensures forall i :: 0 <= i < |views| ==> views[i] == WordAt(frame, words[i], i, start + i * staggerDelay, x, y)
  {
    seq(|words|, i requires 0 <= i < |words| => WordAt(frame, words[i], i, start + i * staggerDelay, x, y))
  }

  /** Each word follows the schedule of
      `useStaggeredAnimation(words, start, staggerDelay, 40)`. */
  lemma KineticIsStaggered(frame: int, words: seq<string>, start: int, staggerDelay: int, x: real, y: real, i: nat)
    requires i < |words|
    ensures var state := StaggeredAnimation(words, frame, start, staggerDelay, WordDuration)[i];
      var view := KineticText(frame, words, start, staggerDelay, x, y)[i];
      && view.scale == state.scale
      && view.opacity == state.opacity
      && view.rotateX == RotateX(state.progress)
  {
  }

  /** With a non-negative stagger, a later word is never turned further
      toward the viewer than an earlier one. */
  lemma {:induction false} KineticOrder(frame: int, words: seq<string>, start: int, staggerDelay: int,
                                        x: real, y: real, i: nat, j: nat)
    requires staggerDelay >= 0 && i <= j < |words|
    ensures KineticText(frame, words, start, staggerDelay, x, y)[i].rotateX
         <= KineticText(frame, words, start, staggerDelay, x, y)[j].rotateX
  {
    var states := StaggeredAnimation(words, frame, start, staggerDelay, WordDuration);
    KineticIsStaggered(frame, words, start, staggerDelay, x, y, i);
    KineticIsStaggered(frame, words, start, staggerDelay, x, y, j);
    StaggerOrder(words, frame, start, staggerDelay, WordDuration, i, j);
  }

  /** As the frame advances every word's rotation only decreases. */
  lemma {:induction false} KineticMonotone(f1: int, f2: int, words: seq<string>, start: int, staggerDelay: int,
                                           x: real, y: real, i: nat)
    requires f1 <= f2 && i < |words|
    ensures KineticText(f2, words, start, staggerDelay, x, y)[i].rotateX
         <= KineticText(f1, words, start, staggerDelay, x, y)[i].rotateX
  {
    var wordStart := start + i * staggerDelay;
    assert KineticText(f1, words, start, staggerDelay, x, y)[i] == WordAt(f1, words[i], i, wordStart, x, y);
    assert KineticText(f2, words, start, staggerDelay, x, y)[i] == WordAt(f2, words[i], i, wordStart, x, y);
    AnimationMonotone(f1, f2, wordStart, WordDuration);
  }
}
