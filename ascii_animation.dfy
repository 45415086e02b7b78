/**
  The browser player, ASCIIAnimationPlayer in js/ascii-animation.js.

  The container's `clientWidth` and the "a frame interval has elapsed"
  test of `animate` are parameters; `fps`, `performance.now()` and the
  requestAnimationFrame chain are represented by a sequence of ticks,
  one per call of `animate`. Frame widths count characters.
*/
module WebPlayer {
  import opened Text
  import opened Sampling
  import opened Wrappers
  import TerminalUtils

  // ---------------------------------------------------------------- resizeFrame

  /** `Math.floor((containerWidth - 40) / 6)`: padding and borders off, about six pixels a character. */
  function AvailableWidth(containerWidth: int): int
  {
    (containerWidth - 40) / 6
  }

  /** One output line: `availableWidth` characters, character x sampled from column `x * frameWidth / availableWidth`. */
  function WebRow(line: string, frameWidth: nat, availableWidth: nat): (row: string)
    requires availableWidth > 0
  {
    seq(availableWidth,
        x requires 0 <= x < availableWidth => TerminalUtils.SampleChar(line, SourceIndex(x, frameWidth, availableWidth)))
  }

  /**
    The number of lines a too-wide frame keeps, `floor(frameHeight * scale)`
    with `scale = availableWidth / frameWidth`; no line at all when the
    available width is not positive.
  */
  function TargetHeight(frameHeight: nat, frameWidth: nat, availableWidth: int): nat
    requires frameWidth > availableWidth
  {
    if availableWidth <= 0 then 0 else frameHeight * availableWidth / frameWidth
  }

  /** The lines of a too-wide frame after resampling: line y comes from source line `y * frameWidth / availableWidth`. */
  function WebRows(lines: seq<string>, frameWidth: nat, availableWidth: int): (rows: seq<string>)
    requires frameWidth > availableWidth
  {
    if availableWidth <= 0 then []
    else
      seq(TargetHeight(|lines|, frameWidth, availableWidth),
          y requires 0 <= y < TargetHeight(|lines|, frameWidth, availableWidth) =>
            ScaledRowInRange(y, |lines|, frameWidth, availableWidth);
            WebRow(lines[SourceIndex(y, frameWidth, availableWidth)], frameWidth, availableWidth))
  }

  /** resizeFrame, as a value: the frame itself (not stripped) when it fits, the resampled lines joined otherwise. */
  function WebResized(frame: string, containerWidth: int): string
  {
    var lines := Split(frame, '\n');
    var frameWidth := MaxWidth(lines);
    var availableWidth := AvailableWidth(containerWidth);
    if frameWidth <= availableWidth then frame
    else Join(WebRows(lines, frameWidth, availableWidth), '\n')
  }

  /** The inner `for` loop of resizeFrame: one line built character by character. */
  method ResizeLine(sourceLine: string, frameWidth: nat, availableWidth: nat) returns (resizedLine: string)
    requires availableWidth > 0
    ensures resizedLine == WebRow(sourceLine, frameWidth, availableWidth)
  {
    resizedLine := "";
    var x := 0;
    while x < availableWidth
      invariant 0 <= x <= availableWidth
      invariant |resizedLine| == x
      invariant forall c :: 0 <= c < x ==>
                  resizedLine[c] == TerminalUtils.SampleChar(sourceLine, SourceIndex(c, frameWidth, availableWidth))
    {
      var sourceX := x * frameWidth / availableWidth;
      if sourceX < |sourceLine| {
        resizedLine := resizedLine + [sourceLine[sourceX]];
      } else {
        resizedLine := resizedLine + [' '];
      }
      x := x + 1;
    }
  }

  /** resizeFrame: the nested loops, with the `sourceY < lines.length` guard kept as written. */
  method ResizeFrame(frame: string, containerWidth: int) returns (r: string)
    ensures r == WebResized(frame, containerWidth)
  {
    var lines := Split(frame, '\n');
    var frameWidth := MaxWidth(lines);
    var frameHeight := |lines|;
    var availableWidth := AvailableWidth(containerWidth);
    if frameWidth <= availableWidth {
      return frame;
    }
    var targetHeight := TargetHeight(frameHeight, frameWidth, availableWidth);
    var resizedLines: seq<string> := [];
    var y := 0;
    while y < targetHeight
      invariant 0 <= y <= targetHeight
      invariant targetHeight > 0 ==> availableWidth > 0
      invariant |resizedLines| == y
      invariant forall k :: 0 <= k < y ==> resizedLines[k] == WebRows(lines, frameWidth, availableWidth)[k]
    {
      var sourceY := y * frameWidth / availableWidth;
      ScaledRowInRange(y, frameHeight, frameWidth, availableWidth);
      if sourceY < frameHeight {
        var resizedLine := ResizeLine(lines[sourceY], frameWidth, availableWidth);
        resizedLines := resizedLines + [resizedLine];
      }
      y := y + 1;
    }
    assert resizedLines == WebRows(lines, frameWidth, availableWidth);
    r := Join(resizedLines, '\n');
  }

  /** A frame whose longest line fits the available width is returned as it is, surrounding blanks included. */
  lemma WebResizeKeepsFittingFrame(frame: string, containerWidth: int)
    requires MaxWidth(Split(frame, '\n')) <= AvailableWidth(containerWidth)
    ensures WebResized(frame, containerWidth) == frame
  {
  }

  /** Every resampled line is free of newlines, so splitting the joined text gives the lines back. */
  lemma WebRowsSplitBack(lines: seq<string>, frameWidth: nat, availableWidth: int)
    requires frameWidth > availableWidth
    requires forall k :: 0 <= k < |lines| ==> '\n' !in lines[k]
    requires |WebRows(lines, frameWidth, availableWidth)| > 0
    ensures Split(Join(WebRows(lines, frameWidth, availableWidth), '\n'), '\n') == WebRows(lines, frameWidth, availableWidth)
  {
    var rows := WebRows(lines, frameWidth, availableWidth);
    forall k | 0 <= k < |rows| ensures '\n' !in rows[k] {
      var line := lines[SourceIndex(k, frameWidth, availableWidth)];
      forall c | 0 <= c < |rows[k]| ensures rows[k][c] != '\n' {
        var col := SourceIndex(c, frameWidth, availableWidth);
        if col < |line| {
          assert line[col] in line;
        }
      }
    }
    SplitJoin(rows, '\n');
  }

  /**
    A frame wider than the available width w > 0 is shown as exactly the
    resampled lines: splitting the result at newlines gives WebRows back.
  */
  lemma WebResizeLines(frame: string, containerWidth: int)
    requires MaxWidth(Split(frame, '\n')) > AvailableWidth(containerWidth) > 0
    requires TargetHeight(|Split(frame, '\n')|, MaxWidth(Split(frame, '\n')), AvailableWidth(containerWidth)) > 0
    ensures Split(WebResized(frame, containerWidth), '\n')
            == WebRows(Split(frame, '\n'), MaxWidth(Split(frame, '\n')), AvailableWidth(containerWidth))
  {
    WebRowsSplitBack(Split(frame, '\n'), MaxWidth(Split(frame, '\n')), AvailableWidth(containerWidth));
  }

  /**
    The resampled lines of h source lines of width fw, for available width
    w > 0: floor(h * w / fw) of them, so both axes use the same scale; each
    exactly w characters; character (y, x) is source character
    (y * fw / w, x * fw / w), or a space past the end of that line, and that
    source line always exists.
  */
  lemma {:induction false} WebRowsShape(lines: seq<string>, frameWidth: nat, availableWidth: int)
    requires frameWidth > availableWidth > 0
    ensures var rows := WebRows(lines, frameWidth, availableWidth);
            && |rows| * frameWidth <= |lines| * availableWidth < (|rows| + 1) * frameWidth
            && forall y :: 0 <= y < |rows| ==>
                 && y * frameWidth / availableWidth < |lines|
                 && |rows[y]| == availableWidth
                 && forall x :: 0 <= x < availableWidth ==>
                      rows[y][x] == TerminalUtils.SampleChar(lines[y * frameWidth / availableWidth],
                                                              x * frameWidth / availableWidth)
  {
    DivIsFloor(|lines| * availableWidth, frameWidth);
    var rows := WebRows(lines, frameWidth, availableWidth);
    forall y | 0 <= y < |rows| ensures y * frameWidth / availableWidth < |lines| {
      ScaledRowInRange(y, |lines|, frameWidth, availableWidth);
    }
  }

  /** After resizing, no line is wider than the available width (nothing at all when that width is not positive). */
  lemma WebResizedFits(frame: string, containerWidth: int)
    ensures var w := AvailableWidth(containerWidth);
            MaxWidth(Split(WebResized(frame, containerWidth), '\n')) <= (if w > 0 then w else 0)
  {
    var lines := Split(frame, '\n');
    var fw := MaxWidth(lines);
    var w := AvailableWidth(containerWidth);
    if fw > w {
      var rows := WebRows(lines, fw, w);
      if |rows| > 0 {
        WebRowsSplitBack(lines, fw, w);
        var out := Split(Join(rows, '\n'), '\n');
        assert forall k :: 0 <= k < |out| ==> |out[k]| == w;
      } else {
        assert Split("", '\n') == [""];
      }
    }
  }

  /** Resizing a resized frame for the same container changes nothing more. */
  lemma WebResizeIdempotent(frame: string, containerWidth: int)
    ensures WebResized(WebResized(frame, containerWidth), containerWidth) == WebResized(frame, containerWidth)
  {
    var once := WebResized(frame, containerWidth);
    var w := AvailableWidth(containerWidth);
    WebResizedFits(frame, containerWidth);
    if w < 0 {
      var fw := MaxWidth(Split(frame, '\n'));
      assert once == Join(WebRows(Split(frame, '\n'), fw, w), '\n') == "";
      assert Split("", '\n') == [""];
    }
  }

  // ---------------------------------------------------------------- playback state

  /** What a call to displayFrame does to the page. */
  datatype Display =
    | Unchanged                 // no frames: displayFrame returns at once
    | ShowsFrame(frame: string) // textContent is set to this frame, resized when autoResize is on
    | ShowsUndefined            // frames[currentFrame] is undefined and is assigned as it is
    | ThrowsTypeError           // resizeFrame(undefined) fails on `.split`
    | ShowsMessage(message: string)

  /** The fields animate, play, pause and stop read and write; `loop` and `autoResize` are the options. */
  datatype WebState = WebState(frames: seq<string>, currentFrame: nat, isPlaying: bool, loop: bool, autoResize: bool)

  /** One frame as it appears on the page: resized to the container when autoResize is on. */
  function View(frame: string, autoResize: bool, containerWidth: int): string
  {
    if autoResize then WebResized(frame, containerWidth) else frame
  }

  /** displayFrame. */
  function Shown(st: WebState): Display
  {
    if |st.frames| == 0 then Unchanged
    else if st.currentFrame < |st.frames| then ShowsFrame(st.frames[st.currentFrame])
    else if st.autoResize then ThrowsTypeError
    else ShowsUndefined
  }

  /**
    One call of animate: nothing unless playing and the interval has
    elapsed; otherwise show the frame, advance, and at the end either wrap
    to 0 (loop) or pause leaving currentFrame at frames.length. A throwing
    displayFrame aborts the call before anything changes.
  */
  function AnimateStep(st: WebState, elapsed: bool): (WebState, Display)
  {
    if !st.isPlaying || !elapsed then (st, Unchanged)
    else
      var d := Shown(st);
      if d.ThrowsTypeError? then (st, d)
      else
        var next := st.currentFrame + 1;
        if next < |st.frames| then (st.(currentFrame := next), d)
        else if st.loop then (st.(currentFrame := 0), d)
        else (st.(currentFrame := next, isPlaying := false), d)
  }

  /** Whether animate asks for another animation frame: it does unless it paused or threw. */
  predicate Continues(step: (WebState, Display))
  {
    step.0.isPlaying && !step.1.ThrowsTypeError?
  }

  /** play: nothing on an empty frame list; otherwise set isPlaying and run animate once. */
  function PlayStep(st: WebState, elapsed: bool): (WebState, Display)
  {
    if |st.frames| == 0 then (st, Unchanged)
    else AnimateStep(st.(isPlaying := true), elapsed)
  }

  datatype Run = Run(final: WebState, shown: seq<Display>)

  /** The requestAnimationFrame chain: one animate per tick, ending once animate stops asking for more. */
  function RunAnimation(st: WebState, ticks: seq<bool>): Run
    decreases |ticks|
  {
    if ticks == [] then Run(st, [])
    else
      var step := AnimateStep(st, ticks[0]);
      if !Continues(step) then Run(step.0, [step.1])
      else
        var rest := RunAnimation(step.0, ticks[1..]);
        Run(rest.final, [step.1] + rest.shown)
  }

  /** How many of the ticks found the frame interval elapsed. */
  function Elapsed(ticks: seq<bool>): nat
  {
    if ticks == [] then 0 else (if ticks[0] then 1 else 0) + Elapsed(ticks[1..])
  }

  /** Wrapping from the last index to 0 is the same as counting on modulo n, whether or not the tick advanced. */
  lemma LoopIndex(c: nat, advanced: bool, j: nat, n: nat)
    requires c < n
    ensures ((if !advanced then c else if c + 1 < n then c + 1 else 0) + j) % n
            == (c + (if advanced then 1 else 0) + j) % n
  {
    if advanced && c + 1 == n {
      ModUnique(n + j, j / n + 1, j % n, n);
    }
  }

  /** One tick of a looping, playing animation whose current frame c is in range. */
  lemma LoopTick(st: WebState, elapsed: bool)
    requires st.loop && st.isPlaying && st.currentFrame < |st.frames|
    ensures var c := st.currentFrame;
            var step := AnimateStep(st, elapsed);
            && Continues(step)
            && step.0 == st.(currentFrame := if !elapsed then c else if c + 1 < |st.frames| then c + 1 else 0)
            && step.1 == if elapsed then ShowsFrame(st.frames[c]) else Unchanged
  {
  }

  /** The elapsed ticks among the first k + 1 are the first one's and those among the next k. */
  lemma ElapsedPrefix(ticks: seq<bool>, k: nat)
    requires 0 < k <= |ticks|
    ensures Elapsed(ticks[..k]) == (if ticks[0] then 1 else 0) + Elapsed(ticks[1..][..k - 1])
  {
    assert ticks[..k][1..] == ticks[1..][..k - 1];
  }

  /** The frame index tick k computes from the state after the first tick is the one it computes from the start. */
  lemma LaterTickIndex(st: WebState, ticks: seq<bool>, k: nat)
    requires st.loop && st.isPlaying && st.currentFrame < |st.frames|
    requires 0 < k < |ticks|
    ensures var next := AnimateStep(st, ticks[0]).0;
            (next.currentFrame + Elapsed(ticks[1..][..k - 1])) % |st.frames|
            == (st.currentFrame + Elapsed(ticks[..k])) % |st.frames|
  {
    LoopTick(st, ticks[0]);
    ElapsedPrefix(ticks, k);
    LoopIndex(st.currentFrame, ticks[0], Elapsed(ticks[1..][..k - 1]), |st.frames|);
  }

  /**
    With loop on, a playing animation whose current frame c is in range
    keeps playing through every tick, and the current frame ends at
    (c + elapsed ticks) mod n.
  */
  lemma {:induction false} LoopingPlaysForever(st: WebState, ticks: seq<bool>)
    requires st.loop && st.isPlaying && st.currentFrame < |st.frames|
    ensures var r := RunAnimation(st, ticks);
            && |r.shown| == |ticks|
            && r.final == st.(currentFrame := (st.currentFrame + Elapsed(ticks)) % |st.frames|)
    decreases |ticks|
  {
    var n := |st.frames|;
    var c := st.currentFrame;
    if ticks == [] {
      ModUnique(c, 0, c, n);
    } else {
      LoopTick(st, ticks[0]);
      LoopingPlaysForever(AnimateStep(st, ticks[0]).0, ticks[1..]);
      LoopIndex(c, ticks[0], Elapsed(ticks[1..]), n);
    }
  }

  /** Tick k of a looping run, by induction on k. */
  lemma {:induction false} LoopShownAt(st: WebState, ticks: seq<bool>, k: nat)
    requires st.loop && st.isPlaying && st.currentFrame < |st.frames|
    requires k < |ticks|
    ensures var r := RunAnimation(st, ticks);
            && |r.shown| == |ticks|
            && r.shown[k] == if ticks[k] then ShowsFrame(st.frames[(st.currentFrame + Elapsed(ticks[..k])) % |st.frames|])
                             else Unchanged
    decreases k
  {
    LoopingPlaysForever(st, ticks);
    LoopTick(st, ticks[0]);
    var step := AnimateStep(st, ticks[0]);
    var rest := RunAnimation(step.0, ticks[1..]);
    var r := RunAnimation(st, ticks);
    assert r.shown == [step.1] + rest.shown;
    if k == 0 {
      assert ticks[..0] == [];
      ModUnique(st.currentFrame, 0, st.currentFrame, |st.frames|);
    } else {
      LoopShownAt(step.0, ticks[1..], k - 1);
      LaterTickIndex(st, ticks, k);
      assert r.shown[k] == rest.shown[k - 1];
    }
  }

  /**
    With loop on, tick k of a playing animation whose current frame c is
    in range shows nothing when the interval has not elapsed, and
    otherwise frame (c + elapsed ticks before k) mod n: the frames cycle in
    order.
  */
  lemma LoopingPlaysCyclically(st: WebState, ticks: seq<bool>)
    requires st.loop && st.isPlaying && st.currentFrame < |st.frames|
    ensures var r := RunAnimation(st, ticks);
            && |r.shown| == |ticks|
            && forall k :: 0 <= k < |ticks| ==>
                 r.shown[k] == if ticks[k] then ShowsFrame(st.frames[(st.currentFrame + Elapsed(ticks[..k])) % |st.frames|])
                               else Unchanged
  {
    LoopingPlaysForever(st, ticks);
    forall k | 0 <= k < |ticks|
      ensures RunAnimation(st, ticks).shown[k]
              == if ticks[k] then ShowsFrame(st.frames[(st.currentFrame + Elapsed(ticks[..k])) % |st.frames|]) else Unchanged
    {
      LoopShownAt(st, ticks, k);
    }
  }

  /**
    With loop off and every interval elapsed, a playing animation shows
    frames c, c+1, ... up to the last one in order, then pauses with
    currentFrame == frames.length; with fewer ticks it is still playing.
  */
  lemma {:induction false} SinglePassStops(st: WebState, ticks: seq<bool>)
    requires !st.loop && st.isPlaying && st.currentFrame < |st.frames|
    requires forall k :: 0 <= k < |ticks| ==> ticks[k]
    ensures var r := RunAnimation(st, ticks);
            var left := |st.frames| - st.currentFrame;
            var m := if |ticks| < left then |ticks| else left;
            && |r.shown| == m
            && (forall k :: 0 <= k < m ==>
                  r.shown[k] == ShowsFrame(st.frames[st.currentFrame + k]))
            && r.final == st.(currentFrame := st.currentFrame + m, isPlaying := |ticks| < left)
    decreases |ticks|
  {
    if ticks != [] {
      var step := AnimateStep(st, ticks[0]);
      if st.currentFrame + 1 < |st.frames| {
        SinglePassStops(step.0, ticks[1..]);
        var r := RunAnimation(st, ticks);
        var rest := RunAnimation(step.0, ticks[1..]);
        assert r.shown == [step.1] + rest.shown;
        forall k | 0 < k < |r.shown|
          ensures r.shown[k] == ShowsFrame(st.frames[st.currentFrame + k])
        {
          assert r.shown[k] == rest.shown[k - 1];
        }
      }
    }
  }

  /**
    Playing again after a pass without loop ended, without stop() first,
    reads one past the last frame: with autoResize the first elapsed tick
    throws and the animation stays marked as playing; without it
    `undefined` is shown and the player pauses one further along.
  */
  lemma ReplayAfterPass(st: WebState)
    requires !st.loop && |st.frames| > 0 && st.currentFrame == |st.frames|
    ensures var step := PlayStep(st, true);
            if st.autoResize then step == (st.(isPlaying := true), ThrowsTypeError) && !Continues(step)
            else step == (st.(currentFrame := |st.frames| + 1, isPlaying := false), ShowsUndefined)
  {
  }

  /** A paused animation ignores every further tick. */
  lemma PausedRunIsIdle(st: WebState, ticks: seq<bool>)
    requires !st.isPlaying
    ensures RunAnimation(st, ticks) == Run(st, if ticks == [] then [] else [Unchanged])
  {
  }

  // ---------------------------------------------------------------- the player object

  /**
    displayFrame on a state: what it does, and the text it puts on the
    page when it shows a frame (resized by the loops of ResizeFrame when
    autoResize is on).
  */
  method ShowFrame(st: WebState, containerWidth: int) returns (d: Display, text: string)
    ensures d == Shown(st)
    ensures d.ShowsFrame? ==> text == View(d.frame, st.autoResize, containerWidth)
  {
    text := "";
    if |st.frames| == 0 {
      return Unchanged, text;
    }
    if st.currentFrame >= |st.frames| {
      return if st.autoResize then ThrowsTypeError else ShowsUndefined, text;
    }
    var frame := st.frames[st.currentFrame];
    text := frame;
    if st.autoResize {
      text := ResizeFrame(frame, containerWidth);
    }
    d := ShowsFrame(frame);
  }

  class AnimationPlayer {
    var frames: seq<string>
    var currentFrame: nat
    var isPlaying: bool
    const loop: bool
    const autoResize: bool

    function State(): WebState
      reads this
    {
      WebState(frames, currentFrame, isPlaying, loop, autoResize)
    }

    /** The constructor and init: both options default to true, no frames, not playing, a loading message shown. */
    constructor (autoResizeOption: Option<bool>, loopOption: Option<bool>)
      ensures autoResize == (autoResizeOption.None? || autoResizeOption.value)
      ensures loop == (loopOption.None? || loopOption.value)
      ensures frames == [] && currentFrame == 0 && !isPlaying
    {
      autoResize := autoResizeOption.None? || autoResizeOption.value;
      loop := loopOption.None? || loopOption.value;
      frames := [];
      currentFrame := 0;
      isPlaying := false;
    }

    method DisplayFrame(containerWidth: int) returns (d: Display, text: string)
      ensures d == Shown(State())
      ensures d.ShowsFrame? ==> text == View(d.frame, autoResize, containerWidth)
    {
      d, text := ShowFrame(State(), containerWidth);
    }

    method Pause()
      modifies this`isPlaying
      ensures !isPlaying
    {
      isPlaying := false;
    }

    /** animate, one call of the chain. */
    method Animate(elapsed: bool, containerWidth: int) returns (d: Display, text: string)
      modifies this`currentFrame, this`isPlaying
      ensures (State(), d) == AnimateStep(old(State()), elapsed)
      ensures d.ShowsFrame? ==> text == View(d.frame, autoResize, containerWidth)
    {
      text := "";
      if !isPlaying || !elapsed {
        return Unchanged, text;
      }
      d, text := DisplayFrame(containerWidth);
      if d.ThrowsTypeError? {
        return;
      }
      currentFrame := currentFrame + 1;
      if currentFrame >= |frames| {
        if loop {
          currentFrame := 0;
        } else {
          Pause();
          return;
        }
      }
    }

    /** play. */
    method Play(elapsed: bool, containerWidth: int) returns (d: Display, text: string)
      modifies this`currentFrame, this`isPlaying
      ensures (State(), d) == PlayStep(old(State()), elapsed)
      ensures d.ShowsFrame? ==> text == View(d.frame, autoResize, containerWidth)
    {
      text := "";
      if |frames| == 0 {
        return Unchanged, text;
      }
      isPlaying := true;
      d, text := Animate(elapsed, containerWidth);
    }

    /** stop: pause, go back to the first frame and show it. */
    method Stop(containerWidth: int) returns (d: Display, text: string)
      modifies this`currentFrame, this`isPlaying
      ensures !isPlaying && currentFrame == 0 && frames == old(frames)
      ensures d == if frames == [] then Unchanged else ShowsFrame(frames[0])
      ensures d.ShowsFrame? ==> text == View(d.frame, autoResize, containerWidth)
    {
      Pause();
      currentFrame := 0;
      d, text := DisplayFrame(containerWidth);
    }

    /**
      loadAnimation, with the fetched JSON's `frames` as `data` (None when
      the fetch or the parse fails): replace the frames, go back to frame 0,
      show it (from handleResize) and play.
    */
    method LoadAnimation(data: Option<seq<string>>, elapsed: bool, containerWidth: int) returns (shown: seq<Display>)
      modifies this
      ensures data.None? ==> State() == old(State()) && shown == [ShowsMessage("Failed to load animation")]
      ensures data.Some? ==>
                var reset := old(State()).(frames := data.value, currentFrame := 0);
                var step := PlayStep(reset, elapsed);
                && State() == step.0
                && shown == (if data.value == [] then [] else [Shown(reset), step.1])
    {
      if data.None? {
        return [ShowsMessage("Failed to load animation")];
      }
      frames := data.value;
      currentFrame := 0;
      shown := [];
      if |frames| > 0 {
        var first, _ := DisplayFrame(containerWidth);
        shown := [first];
      }
      var d, _ := Play(elapsed, containerWidth);
      if |frames| > 0 {
        shown := shown + [d];
      }
    }
  }
}
