/** The reveal arithmetic of src/remotion/components/CodeBlock.tsx: the
    line-by-line code reveal of `CodeBlock`, its line-number labels, and the
    command list of `TerminalSimulator`. */
module CodeBlockComponent {
  import opened Wrappers
  import opened Js
  import opened Remotion
  import opened AnimationHooks

  /** `code.split('\n')`. */
  function Lines(code: string): (lines: seq<string>)
    ensures |lines| >= 1
    ensures forall i :: 0 <= i < |lines| ==> '\n' !in lines[i]
    ensures Join(lines, '\n') == code
  {
    JoinSplit(code, '\n');
    Split(code, '\n')
  }

  /** `duration / lines.length`: the frames given to each line (the source
      names it `linesPerFrame`). */
  function FramesPerLine(duration: int, lineCount: int): (l: real)
    requires duration > 0 && lineCount > 0
    ensures l > 0.0
    ensures l * lineCount as real == duration as real
  {
    duration as real / lineCount as real
  }

  /** `Math.floor((frame - start) / linesPerFrame)`: the index of the line
      being typed; every line before it is complete. */
  function VisibleLines(frame: int, start: int, duration: int, lineCount: int): (v: int)
    requires duration > 0 && lineCount > 0
    ensures frame < start ==> v < 0
    ensures frame >= start ==> v >= 0
    ensures frame >= start + duration ==> v >= lineCount
  {
    var l := FramesPerLine(duration, lineCount);
    var q := (frame - start) as real / l;
    DivSign((frame - start) as real, l);
    if frame >= start + duration then
      FractionMonotone(duration as real, (frame - start) as real, l);
      WholeWindow(duration as real, lineCount as real, l);
      q.Floor
    else q.Floor
  }

  lemma WholeWindow(d: real, n: real, l: real)
    requires l > 0.0 && l * n == d
    ensures d / l == n
  {
    var q := d / l;
    assert q * l == d;
    assert (q - n) * l == 0.0;
  }

  /** The typed line index never moves backwards as the frame advances. */
  lemma {:induction false} VisibleLinesMonotone(f1: int, f2: int, start: int, duration: int, lineCount: int)
    requires duration > 0 && lineCount > 0 && f1 <= f2
    ensures VisibleLines(f1, start, duration, lineCount) <= VisibleLines(f2, start, duration, lineCount)
  {
    FractionMonotone((f1 - start) as real, (f2 - start) as real, FramesPerLine(duration, lineCount));
  }

  /** `((frame - start) % linesPerFrame) / linesPerFrame`: how far the typed
      line has got. From `start` on it is the fractional part of the line
      position, so it lies in [0, 1). */
  function CurrentLineProgress(frame: int, start: int, duration: int, lineCount: int): (c: real)
    requires duration > 0 && lineCount > 0
    ensures frame >= start ==> 0.0 <= c < 1.0
    ensures frame >= start ==>
      c == (frame - start) as real / FramesPerLine(duration, lineCount)
           - VisibleLines(frame, start, duration, lineCount) as real
  {
    var l := FramesPerLine(duration, lineCount);
    var a := (frame - start) as real;
    var r := RealRem(a, l);
    if frame >= start then
      var f := (a / l).Floor;
      FractionOfRemainder(a, l, f);
      assert r / l == a / l - f as real;
      assert f as real <= a / l < f as real + 1.0;
      r / l
    else r / l
  }

  lemma FractionOfRemainder(a: real, l: real, f: int)
    requires l > 0.0
    ensures (a - l * f as real) / l == a / l - f as real
  {
    var q := a / l;
    assert a == l * q;
    assert a - l * f as real == l * (q - f as real);
  }

  /** `String(index + 1).padStart(2, '0')`. */
  function Label(index: nat): (number: string)
    ensures |number| >= 2 && IsDigits(number)
    ensures DigitsValue(number) == index + 1
    ensures index + 1 >= 10 ==> number == Decimal(index + 1)
    ensures index + 1 < 10 ==> |number| == 2 && number[0] == '0'
  {
    var s := Decimal(index + 1);
    DecimalValue(index + 1);
    var padded := PadStart(s, 2, '0');
    assert padded == Repeat('0', |padded| - |s|) + s;
    LeadingZeros(|padded| - |s|, s);
    padded
  }

  /** One rendered line: its number label, its (possibly partial) text, and
      whether the blinking '|' cursor follows it. */
  datatype LineView = LineView(number: string, text: string, cursor: bool)

  /** What `CodeBlock` draws: the container's opacity and scale and, for each
      line of the code, the line as rendered or nothing. */
  datatype CodeBlockView = CodeBlockView(opacity: real, scale: real, lines: seq<Option<LineView>>)

  /** The body of `lines.map(...)` for the line at `index`. */
  function RenderLine(line: string, index: nat, frame: int, start: int,
                      visibleLines: int, currentLineProgress: real): (r: Option<LineView>)
    ensures r.Some? ==> r.value.number == Label(index) && r.value.text <= line
    ensures r.Some? ==> (r.value.cursor <==> index == visibleLines)
    ensures r.Some? && !r.value.cursor ==> r.value.text == line
    ensures index < visibleLines ==> r == Some(LineView(Label(index), line, false))
    ensures index > visibleLines ==> r.None?
  {
    var isVisible := index < visibleLines || (index == visibleLines && frame >= start);
    var lineText :=
      if index == visibleLines then Slice(line, 0, CharactersFor(currentLineProgress, |line|)) else line;
    if !isVisible then None
    else Some(LineView(Label(index), lineText, index == visibleLines && frame >= start))
  }

  /** What one call of the `lines.map` body yields, given that the typed
      line index is negative before `start` and the typed line's progress lies
      in [0, 1) from `start` on. */
  lemma RenderLineFacts(line: string, index: nat, frame: int, start: int, visibleLines: int, c: real)
    requires frame < start ==> visibleLines < 0
    requires frame >= start ==> 0.0 <= c < 1.0
    ensures var r := RenderLine(line, index, frame, start, visibleLines, c);
      && (r.Some? <==> frame >= start && index <= visibleLines)
      && (r.Some? ==> r.value.number == Label(index) && r.value.text <= line)
      && (r.Some? ==> (r.value.cursor <==> index == visibleLines))
      && (r.Some? && !r.value.cursor ==> r.value.text == line)
      && (r.Some? && r.value.cursor ==> |r.value.text| == CharactersFor(c, |line|))
      && (r.Some? && r.value.cursor && |line| > 0 ==> |r.value.text| < |line|)
  {
    var r := RenderLine(line, index, frame, start, visibleLines, c);
    if frame >= start && index == visibleLines {
      var k := CharactersFor(c, |line|);
      CharactersForBounds(c, |line|);
      assert Slice(line, 0, k) == line[..k];
      assert r == Some(LineView(Label(index), line[..k], true));
    } else if frame >= start && index < visibleLines {
      assert r == Some(LineView(Label(index), line, false));
    } else {
      assert r.None?;
    }
  }

  /** `CodeBlock` at `frame`: from `start` on, line `i` is rendered exactly
      when `i` is at most the typed line index; lines before it are shown in
      full and the typed line carries the cursor. */
  function CodeBlock(frame: int, code: string, start: int, duration: int): (view: CodeBlockView)
    requires duration > 0
    ensures |view.lines| == |Lines(code)|
    ensures view.opacity == AnimationSequence(frame, start, duration).opacity
    ensures view.scale == AnimationSequence(frame, start, duration).scale
    ensures forall i :: 0 <= i < |view.lines| ==>
      (view.lines[i].Some? <==> frame >= start && i <= VisibleLines(frame, start, duration, |Lines(code)|))
    ensures forall i :: 0 <= i < |view.lines| && view.lines[i].Some? ==>
      (view.lines[i].value.cursor <==> i == VisibleLines(frame, start, duration, |Lines(code)|))
    ensures forall i :: 0 <= i < |view.lines| && view.lines[i].Some? ==>
      view.lines[i].value.number == Label(i) && view.lines[i].value.text <= Lines(code)[i]
    ensures forall i :: 0 <= i < |view.lines| && view.lines[i].Some? && !view.lines[i].value.cursor ==>
      view.lines[i].value.text == Lines(code)[i]
  {
    var animation := AnimationSequence(frame, start, duration);
    var lines := Lines(code);
    var visibleLines := VisibleLines(frame, start, duration, |lines|);
    var currentLineProgress := CurrentLineProgress(frame, start, duration, |lines|);
    var rendered := seq(|lines|, i requires 0 <= i < |lines| =>
      RenderLine(lines[i], i, frame, start, visibleLines, currentLineProgress));
    assert forall i :: 0 <= i < |lines| ==>
      && (rendered[i].Some? <==> frame >= start && i <= visibleLines)
      && (rendered[i].Some? ==> rendered[i].value.number == Label(i) && rendered[i].value.text <= lines[i])
      && (rendered[i].Some? ==> (rendered[i].value.cursor <==> i == visibleLines))
      && (rendered[i].Some? && !rendered[i].value.cursor ==> rendered[i].value.text == lines[i])
    by {
      forall i | 0 <= i < |lines| {
        RenderLineFacts(lines[i], i, frame, start, visibleLines, currentLineProgress);
      }
    }
    CodeBlockView(animation.opacity, animation.scale, rendered)
  }

  /** The rendered lines form a prefix of the code's lines, empty before
      `start` and holding at least the first line from `start` on, and the
      cursor line is the last of them. */
  lemma {:induction false} CodeBlockPrefix(frame: int, code: string, start: int, duration: int)
    requires duration > 0
    ensures var view := CodeBlock(frame, code, start, duration);
      && (frame < start ==> forall i :: 0 <= i < |view.lines| ==> view.lines[i].None?)
      && (frame >= start ==> view.lines[0].Some?)
      && (forall i, j :: 0 <= i <= j < |view.lines| && view.lines[j].Some? ==> view.lines[i].Some?)
      && (forall i, j :: 0 <= i < j < |view.lines| && view.lines[i].Some? && view.lines[i].value.cursor ==>
            view.lines[j].None?)
  {
    var view := CodeBlock(frame, code, start, duration);
    var n := |Lines(code)|;
    var v := VisibleLines(frame, start, duration, n);
    assert forall i :: 0 <= i < |view.lines| ==> (view.lines[i].Some? <==> frame >= start && i <= v);
  }

  /** The typed line shows `floor(progress * length)` characters, strictly
      fewer than a non-empty line holds. */
  lemma {:induction false} CodeBlockPartialLine(frame: int, code: string, start: int, duration: int, i: nat)
    requires duration > 0
    requires i < |CodeBlock(frame, code, start, duration).lines|
    requires CodeBlock(frame, code, start, duration).lines[i].Some?
    requires CodeBlock(frame, code, start, duration).lines[i].value.cursor
    ensures var text := CodeBlock(frame, code, start, duration).lines[i].value.text;
      && |text| == CharactersFor(CurrentLineProgress(frame, start, duration, |Lines(code)|), |Lines(code)[i]|)
      && (|Lines(code)[i]| > 0 ==> |text| < |Lines(code)[i]|)
  {
    var lines := Lines(code);
    var v := VisibleLines(frame, start, duration, |lines|);
    var c := CurrentLineProgress(frame, start, duration, |lines|);
    assert CodeBlock(frame, code, start, duration).lines[i] == RenderLine(lines[i], i, frame, start, v, c);
    RenderLineFacts(lines[i], i, frame, start, v, c);
  }

  /** Once the window is over every line is shown in full and no cursor is
      drawn. */
  lemma {:induction false} CodeBlockComplete(frame: int, code: string, start: int, duration: int)
    requires duration > 0 && frame >= start + duration
    ensures var view := CodeBlock(frame, code, start, duration);
      forall i :: 0 <= i < |view.lines| ==> view.lines[i] == Some(LineView(Label(i), Lines(code)[i], false))
  {
    var view := CodeBlock(frame, code, start, duration);
    var n := |Lines(code)|;
    assert VisibleLines(frame, start, duration, n) >= n;
  }

  /** Line `k` is shown in full, without the cursor, exactly when the
      typed line index has passed it. */
  lemma {:induction false} CodeBlockLineFull(frame: int, code: string, start: int, duration: int, k: nat)
    requires duration > 0 && k < |Lines(code)|
    ensures var line := CodeBlock(frame, code, start, duration).lines[k];
      (line.Some? && !line.value.cursor) <==> VisibleLines(frame, start, duration, |Lines(code)|) > k
  {
    var n := |Lines(code)|;
    var line := CodeBlock(frame, code, start, duration).lines[k];
    var v := VisibleLines(frame, start, duration, n);
    assert line.Some? <==> frame >= start && k <= v;
    assert line.Some? ==> (line.value.cursor <==> k == v);
  }

  /** The typed line index reaches `m` exactly once `m * linesPerFrame`
      frames have passed since `start`; with `CodeBlockLineFull`, line `k`
      is complete from `start + (k + 1) * linesPerFrame` on. */
  lemma VisibleLinesReach(frame: int, start: int, duration: int, lineCount: int, m: int)
    requires duration > 0 && lineCount > 0
    ensures VisibleLines(frame, start, duration, lineCount) >= m
        <==> (frame - start) as real >= m as real * FramesPerLine(duration, lineCount)
  {
    FloorVersusProduct((frame - start) as real, FramesPerLine(duration, lineCount), m);
  }

  /** For a positive `l`, the floor of `a / l` reaches `m` exactly when `a`
      reaches `m * l`. */
  lemma FloorVersusProduct(a: real, l: real, m: int)
    requires l > 0.0
    ensures (a / l).Floor >= m <==> a >= m as real * l
  {
    var q := a / l;
    assert q * l == a;
    if q >= m as real {
      assert q * l >= m as real * l;
    } else {
      assert q * l < m as real * l;
    }
  }

  /** The revealed code only grows: a line shown at one frame is shown at
      every later frame, with at least as much of its text. */
  lemma {:induction false} CodeBlockMonotone(f1: int, f2: int, code: string, start: int, duration: int, i: nat)
    requires duration > 0 && f1 <= f2
    requires i < |Lines(code)|
    requires CodeBlock(f1, code, start, duration).lines[i].Some?
    ensures CodeBlock(f2, code, start, duration).lines[i].Some?
    ensures CodeBlock(f1, code, start, duration).lines[i].value.text
         <= CodeBlock(f2, code, start, duration).lines[i].value.text
  {
    var lines := Lines(code);
    var n := |lines|;
    var v1, v2 := VisibleLines(f1, start, duration, n), VisibleLines(f2, start, duration, n);
    VisibleLinesMonotone(f1, f2, start, duration, n);
    var t1 := CodeBlock(f1, code, start, duration).lines[i].value.text;
    var t2 := CodeBlock(f2, code, start, duration).lines[i].value.text;
    if i == v2 {
      assert v1 == v2;
      var c1, c2 := CurrentLineProgress(f1, start, duration, n), CurrentLineProgress(f2, start, duration, n);
      var l := FramesPerLine(duration, n);
      FractionMonotone((f1 - start) as real, (f2 - start) as real, l);
      assert c1 <= c2;
      CodeBlockPartialLine(f1, code, start, duration, i);
      CodeBlockPartialLine(f2, code, start, duration, i);
      CharactersForMonotone(c1, c2, |lines[i]|);
      assert t1 == lines[i][..|t1|] && t2 == lines[i][..|t2|];
    }
  }

  /** One entry of the `commands` prop of `TerminalSimulator`. */
  datatype Command = Command(command: string, output: string, delay: int)

  /** What `TerminalSimulator` draws below its header: the commands shown,
      each with its output, and whether the blinking '_' prompt follows. */
  datatype TerminalView = TerminalView(shown: seq<Command>, prompt: bool)

  /** The frames each command holds the screen before the next one appears. */
  const FramesPerCommand: int := 60

  /** `Math.floor((frame - start) / 60)`: the index of the current command,
      one step every 60 frames, negative before `start`. */
  function CommandIndex(frame: int, start: int): (idx: int)
    ensures idx == (frame - start) / FramesPerCommand
    ensures idx * FramesPerCommand <= frame - start < (idx + 1) * FramesPerCommand
  {
    var a := frame - start;
    FloorOfQuotient(a, FramesPerCommand);
    (a as real / FramesPerCommand as real).Floor
  }

  /** Over the reals, the floor of `a / d` is Euclidean integer division. */
  lemma FloorOfQuotient(a: int, d: int)
    requires d > 0
    ensures (a as real / d as real).Floor == a / d
  {
    var q, r := a / d, a % d;
    assert a == d * q + r && 0 <= r < d;
    var x := a as real / d as real;
    assert x * d as real == a as real;
    assert (x - q as real) * d as real == r as real;
    FractionBounds(x - q as real, d as real, r as real);
  }

  lemma FractionBounds(f: real, d: real, r: real)
    requires d > 0.0 && f * d == r && 0.0 <= r < d
    ensures 0.0 <= f < 1.0
  {
    assert f == r / d;
    DivSign(r, d);
    DivSign(d - r, d);
    assert d / d == 1.0;
    assert (d - r) / d == d / d - r / d;
  }

  /** `TerminalSimulator` at `frame`: `commands.slice(0, index + 1)` with
      their outputs, and the prompt exactly when `commands[index]` exists.
      The header's wall-clock time is not modelled. */
  function TerminalSimulator(frame: int, commands: seq<Command>, start: int): (view: TerminalView)
    ensures view.shown <= commands
    ensures view.prompt <==> 0 <= CommandIndex(frame, start) < |commands|
    ensures frame >= start ==> |view.shown| == Min(CommandIndex(frame, start) + 1, |commands|)
    ensures view.prompt ==> |view.shown| == CommandIndex(frame, start) + 1
    ensures start - FramesPerCommand <= frame < start ==> view.shown == []
    ensures frame >= start + FramesPerCommand * |commands| ==> view.shown == commands && !view.prompt
    ensures CommandIndex(frame, start) < -1 ==>
      !view.prompt && view.shown == commands[..Max0(|commands| + CommandIndex(frame, start) + 1)]
  {
    var index := CommandIndex(frame, start);
    TerminalView(Slice(commands, 0, index + 1), 0 <= index < |commands|)
  }

  function Min(a: int, b: int): int
  {
    if a <= b then a else b
  }

  function Max0(a: int): nat
  {
    if a > 0 then a else 0
  }

  /** Before `start - 60` the index is below -1 and `slice` counts it from
      the end: at `start - 61` every command but the last is already shown,
      while no prompt is drawn. */
  lemma TerminalEarlySlice(commands: seq<Command>, start: int)
    requires |commands| >= 2
    ensures var view := TerminalSimulator(start - 61, commands, start);
      && view.shown == commands[..|commands| - 1]
      && |view.shown| > 0
      && !view.prompt
  {
    assert CommandIndex(start - 61, start) == -2;
  }

  /** From `start` on, the shown commands only grow as the frame advances. */
  lemma {:induction false} TerminalMonotone(f1: int, f2: int, commands: seq<Command>, start: int)
    requires start <= f1 <= f2
    ensures TerminalSimulator(f1, commands, start).shown <= TerminalSimulator(f2, commands, start).shown
  {
    var i1, i2 := CommandIndex(f1, start), CommandIndex(f2, start);
    assert i1 <= i2;
  }
}
