/**
  The terminal animation player (ascii-animation-player/src/player.py).

  Interactive playback runs a render loop and a control loop on two threads
  over one player object. The model gives each loop's step as a function of
  the player's state and proves the player's methods against those steps;
  the loops are run one at a time over finite input sequences (the size
  probes of successive ticks, the keys read), not interleaved.
*/
module Player {
  import opened Wrappers
  import opened Text
  import opened TerminalUtils
  import opened Config
  import opened Sampling

  /** The fields of the player the two loops read and write; `speed` is the config's `playback_speed`. */
  datatype PlaybackState = PlaybackState(
    isPlaying: bool,
    currentFrame: int,
    totalFrames: int,
    speed: real,
    autoResize: bool,
    centerContent: bool,
    terminalWidth: int,
    terminalHeight: int)

  /**
    One round of the control loop's input: nothing within the poll timeout,
    one character, ESC followed by a character other than '[', or ESC '['
    followed by a third character (C is the right arrow, D the left).
  */
  datatype KeyRead = Idle | Key(c: char) | Esc(second: char) | EscBracket(third: char)

  /**
    The reads _handle_controls can make: `Key(c)` never carries ESC itself,
    because after an ESC the source always reads one more character, and
    that read is what `Esc` and `EscBracket` stand for.
  */
  predicate WellFormed(k: KeyRead)
  {
    !(k.Key? && k.c == '\U{1B}')
  }

  const MinSpeed: real := 0.25
  const MaxSpeed: real := 4.0
  const SpeedStep: real := 0.25
  const SeekStep: int := 5

  /** Rows the display step keeps clear below the frame for the status line. */
  const StatusRows: int := 3

  const FullLegend: string := "[Q: Quit | Space: Pause | ←/→: Seek | +/-: Speed | R: Resize | C: Center]"
  const ShortLegend: string := "[Q|Spc|←→|+-|R|C]"

  function MinReal(a: real, b: real): real { if a <= b then a else b }
  function MaxReal(a: real, b: real): real { if a >= b then a else b }
  function MinInt(a: int, b: int): int { if a <= b then a else b }
  function MaxInt(a: int, b: int): int { if a >= b then a else b }

  /** `key.lower() == letter` for a lower-case ASCII letter. */
  predicate IsLetterKey(c: char, letter: char)
    requires 'a' <= letter <= 'z'
  {
    c == letter || c as int == letter as int - 32
  }

  // ---------------------------------------------------------------- control loop

  /** One key of _handle_controls: the new state, and whether it was the quit key. */
  function KeyStep(s: PlaybackState, k: KeyRead): (PlaybackState, bool)
  {
    match k
    case Idle => (s, false)
    case Esc(_) => (s, false)
    case EscBracket(arrow) =>
      if arrow == 'C' then (s.(currentFrame := MinInt(s.totalFrames - 1, s.currentFrame + SeekStep)), false)
      else if arrow == 'D' then (s.(currentFrame := MaxInt(0, s.currentFrame - SeekStep)), false)
      else (s, false)
    case Key(c) =>
      if IsLetterKey(c, 'q') then (s.(isPlaying := false), true)
      else if c == ' ' then (s.(isPlaying := !s.isPlaying), false)
      else if c == '+' || c == '=' then (s.(speed := MinReal(MaxSpeed, s.speed + SpeedStep)), false)
      else if c == '-' then (s.(speed := MaxReal(MinSpeed, s.speed - SpeedStep)), false)
      else if IsLetterKey(c, 'r') then (s.(autoResize := !s.autoResize), false)
      else if IsLetterKey(c, 'c') then (s.(centerContent := !s.centerContent), false)
      else (s, false)
  }

  /** One round of _handle_controls: the new state, and whether the loop ends after it. */
  function ControlStep(s: PlaybackState, k: KeyRead): (PlaybackState, bool)
  {
    var (t, quit) := KeyStep(s, k);
    (t, quit || (!t.isPlaying && t.currentFrame >= t.totalFrames - 1))
  }

  /** _handle_controls over a finite key sequence: the final state and how many rounds ran. */
  function RunControls(s: PlaybackState, keys: seq<KeyRead>): (PlaybackState, nat)
    decreases |keys|
  {
    if keys == [] then (s, 0)
    else
      var (t, stop) := ControlStep(s, keys[0]);
      if stop then (t, 1)
      else
        var (u, n) := RunControls(t, keys[1..]);
        (u, n + 1)
  }

  predicate SpeedInRange(s: PlaybackState)
  {
    MinSpeed <= s.speed <= MaxSpeed
  }

  predicate FrameInRange(s: PlaybackState)
  {
    0 <= s.currentFrame < s.totalFrames
  }

  /**
    The two clamps: the speed keys keep a speed in [0.25, 4.0] there, and
    the arrows keep a frame index in [0, total_frames - 1] there.
  */
  lemma KeyStepKeepsRanges(s: PlaybackState, k: KeyRead)
    ensures SpeedInRange(s) ==> SpeedInRange(KeyStep(s, k).0)
    ensures FrameInRange(s) ==> FrameInRange(KeyStep(s, k).0)
  {
  }

  /**
    Each key changes only its own field: the quit key and space only
    `is_playing` (quit ending the loop), `+`/`=`/`-` only the speed, the
    arrows only the frame, `r`/`R` and `c`/`C` only their flag; every other
    key, and no key, changes nothing.
  */
  lemma KeyStepChangesOnlyItsField(s: PlaybackState, k: KeyRead)
    ensures var (t, quit) := KeyStep(s, k);
      (quit <==> k.Key? && IsLetterKey(k.c, 'q'))
      && (quit ==> t == s.(isPlaying := false))
      && (k.Key? && k.c == ' ' ==> t == s.(isPlaying := !s.isPlaying))
      && (t.isPlaying != s.isPlaying ==> k.Key? && (IsLetterKey(k.c, 'q') || k.c == ' '))
      && (t.speed != s.speed ==> k.Key? && (k.c == '+' || k.c == '=' || k.c == '-'))
      && (t.currentFrame != s.currentFrame ==> k.EscBracket? && (k.third == 'C' || k.third == 'D'))
      && (t.autoResize != s.autoResize ==> k.Key? && IsLetterKey(k.c, 'r'))
      && (t.centerContent != s.centerContent ==> k.Key? && IsLetterKey(k.c, 'c'))
      && t.totalFrames == s.totalFrames && t.terminalWidth == s.terminalWidth && t.terminalHeight == s.terminalHeight
      && ((k.Idle? || k.Esc? || (k.EscBracket? && k.third != 'C' && k.third != 'D')) ==> t == s)
      && (WellFormed(k) && k.Key? && k.c !in "qQ +=-rRcC" ==> t == s)
  {
  }

  /** A speed that starts in [0.25, 4.0] stays there under any key sequence. */
  lemma {:induction false} RunControlsKeepsSpeed(s: PlaybackState, keys: seq<KeyRead>)
    requires SpeedInRange(s)
    ensures SpeedInRange(RunControls(s, keys).0)
    ensures RunControls(s, keys).1 <= |keys|
    decreases |keys|
  {
    if keys != [] {
      KeyStepKeepsRanges(s, keys[0]);
      var (t, stop) := ControlStep(s, keys[0]);
      if !stop {
        RunControlsKeepsSpeed(t, keys[1..]);
      }
    }
  }

  /** The speed after `n` presses of '+' while playing: it rises by 0.25 a press and saturates at 4.0. */
  lemma {:induction false} RepeatedSpeedUp(s: PlaybackState, n: nat)
    requires s.isPlaying && s.speed <= MaxSpeed
    ensures RunControls(s, seq(n, _ => Key('+'))).0.speed == MinReal(MaxSpeed, s.speed + SpeedStep * n as real)
    ensures RunControls(s, seq(n, _ => Key('+'))).1 == n
    decreases n
  {
    var keys := seq(n, _ => Key('+'));
    if n > 0 {
      var t := s.(speed := MinReal(MaxSpeed, s.speed + SpeedStep));
      assert ControlStep(s, keys[0]) == (t, false);
      assert keys[1..] == seq(n - 1, _ => Key('+'));
      RepeatedSpeedUp(t, n - 1);
    }
  }

  /** The control loop ends exactly on the quit key or when paused at or past the last frame. */
  lemma ControlStepEnds(s: PlaybackState, k: KeyRead)
    ensures var (t, stop) := ControlStep(s, k);
      stop <==> ((k.Key? && IsLetterKey(k.c, 'q')) || (!t.isPlaying && t.currentFrame >= t.totalFrames - 1))
  {
  }

  // ---------------------------------------------------------------- frame delay

  /** `fps or self.config.target_fps`: a missing or zero rate falls back to the target rate. */
  function EffectiveFps(fps: Option<real>, targetFps: int): (rate: real)
    ensures fps.Some? && fps.value != 0.0 ==> rate == fps.value
    ensures fps.None? || fps.value == 0.0 ==> rate == targetFps as real
  {
    if fps.Some? && fps.value != 0.0 then fps.value else targetFps as real
  }

  /**
    `1.0 / (fps * playback_speed)`, the delay play and play_simple compute
    once before playing; None where the division raises ZeroDivisionError.
  */
  function FrameDelay(fps: Option<real>, targetFps: int, speed: real): (delay: Option<real>)
    ensures delay.None? <==> EffectiveFps(fps, targetFps) == 0.0 || speed == 0.0
    ensures delay.Some? ==> delay.value * (EffectiveFps(fps, targetFps) * speed) == 1.0
    ensures delay.Some? ==> (delay.value < 0.0 <==> EffectiveFps(fps, targetFps) * speed < 0.0)
  {
    var rate := EffectiveFps(fps, targetFps) * speed;
    if rate == 0.0 then None else Some(1.0 / rate)
  }

  /** A zero speed makes the delay raise, whatever the frame rate. */
  lemma ZeroSpeedHasNoDelay(fps: Option<real>, targetFps: int)
    ensures FrameDelay(fps, targetFps, 0.0).None?
  {
  }

  /** With the default speed and a positive rate the delay is the rate's reciprocal, and positive. */
  lemma DefaultSpeedDelay(fps: real, targetFps: int)
    requires fps > 0.0
    ensures FrameDelay(Some(fps), targetFps, 1.0) == Some(1.0 / fps)
    ensures FrameDelay(Some(fps), targetFps, 1.0).value > 0.0
  {
  }

  // ---------------------------------------------------------------- render loop

  /** The settings _display_frame applies to a frame: the two toggles and the terminal size of that tick. */
  datatype View = View(autoResize: bool, centerContent: bool, width: int, height: int)

  /** A frame as the render loop hands it to _display_frame, with the view of that tick. */
  datatype Shot = Shot(frame: string, view: View)

  /**
    What one pass of _playback_loop does: shows a frame, leaves the loop, or
    ends the render thread with an exception: on a bad index, in the resize,
    or in `time.sleep` of a negative delay after the frame was written.
  */
  datatype TickResult = Shown(shot: Shot) | Exited | IndexError | ZeroDivision | SleepError(shot: Shot)

  /** The exceptions that end play_simple: in the frame delay, in the resize, or in `time.sleep`. */
  datatype SimpleError = DelayZeroDivision | ResizeZeroDivision | SleepValueError

  /** Python's `frames[i]`, negative indices counting from the end. */
  function PyIndex(frames: seq<string>, i: int): Option<string>
  {
    if 0 <= i < |frames| then Some(frames[i])
    else if -|frames| <= i < 0 then Some(frames[|frames| + i])
    else None
  }

  /**
    _display_frame's transform: with auto-resize the frame is shrunk to the
    terminal width and its height less the status rows, then, with centring,
    centred within the same bounds.
  */
  function Displayed(shot: Shot): Result<string, ResizeError>
  {
    var v := shot.view;
    var resized := Fitted(shot.frame, v.autoResize, v.width, v.height - StatusRows);
    if resized.Err? then resized
    else if v.centerContent then Ok(Centered(resized.value, v.width, Some(v.height - StatusRows)))
    else resized
  }

  /** The frame shrunk to `width` columns and `height` rows when auto-resize is on, as it is otherwise. */
  function Fitted(frame: string, autoResize: bool, width: int, height: int): Result<string, ResizeError>
  {
    if autoResize then ResizeOutcome(frame, width, Some(height)) else Ok(frame)
  }

  /**
    The case in which _display_frame raises: with auto-resize on, a frame
    that is blank once stripped and a negative terminal width make
    resize_ascii_frame divide by zero.
  */
  predicate DisplayFails(shot: Shot)
  {
    shot.view.autoResize && shot.view.width < 0 && Blank(shot.frame)
  }

  /** _display_frame raises exactly in the case `DisplayFails` names. */
  lemma DisplayFailsExactly(shot: Shot)
    ensures Displayed(shot).Err? <==> DisplayFails(shot)
  {
    ResizeFailsExactly(shot.frame, shot.view.width, Some(shot.view.height - StatusRows));
    StripEmptyIffBlank(shot.frame);
  }

  /** The view of a tick from state `s` once the terminal reports `size`. */
  function ViewAt(s: PlaybackState, size: Size): View
  {
    View(s.autoResize, s.centerContent, size.columns, size.lines)
  }

  /**
    One pass of _playback_loop's `while self.is_playing` body: at the end of
    the frames it restarts at 0 when looping and otherwise stops playing;
    it then re-reads the terminal size, shows the current frame, sleeps for
    `delay` and advances. An exception in the display, or the sleep's
    ValueError for a negative delay, ends the thread before the index advances.
  */
  function TickStep(s: PlaybackState, frames: seq<string>, loop: bool, delay: real, probes: Probes): (PlaybackState, TickResult)
  {
    TickFinish(TickStart(s, frames, loop, probes), delay)
  }

  /** The rest of a pass once the frame is looked up: display, sleep, advance. */
  function TickFinish(start: (PlaybackState, TickResult), delay: real): (PlaybackState, TickResult)
  {
    var (s2, r) := start;
    if r.Shown? && DisplayFails(r.shot) then (s2, ZeroDivision)
    else if r.Shown? && delay < 0.0 then (s2, SleepError(r.shot))
    else if r.Shown? then (s2.(currentFrame := s2.currentFrame + 1), r)
    else (s2, r)
  }

  /** A tick up to the frame lookup: the state then, and the frame to display or how the loop ended. */
  function TickStart(s: PlaybackState, frames: seq<string>, loop: bool, probes: Probes): (PlaybackState, TickResult)
  {
    if !s.isPlaying then (s, Exited)
    else if s.currentFrame >= s.totalFrames && !loop then (s.(isPlaying := false), Exited)
    else
      var s1 := if s.currentFrame >= s.totalFrames then s.(currentFrame := 0) else s;
      var size := GetTerminalSize(probes);
      var s2 := s1.(terminalWidth := size.columns, terminalHeight := size.lines);
      match PyIndex(frames, s2.currentFrame)
      case None => (s2, IndexError)
      case Some(f) => (s2, Shown(Shot(f, ViewAt(s2, size))))
  }

  /**
    _playback_loop over the size probes of successive ticks: the final state,
    the frames shown in order, and how the loop ended (None: the probes ran
    out while it was still playing).
  */
  function RunTicks(s: PlaybackState, frames: seq<string>, loop: bool, delay: real, probes: seq<Probes>): (PlaybackState, seq<Shot>, Option<TickResult>)
    decreases |probes|
  {
    if probes == [] then (s, [], None)
    else
      var (t, r) := TickStep(s, frames, loop, delay, probes[0]);
      if r.Shown? then
        var (u, more, end) := RunTicks(t, frames, loop, delay, probes[1..]);
        (u, [r.shot] + more, end)
      else (t, [], Some(r))
  }

  /** The run that `shots` were shown before `run`. */
  function After(shots: seq<Shot>, run: (PlaybackState, seq<Shot>, Option<TickResult>)): (PlaybackState, seq<Shot>, Option<TickResult>)
  {
    (run.0, shots + run.1, run.2)
  }

  lemma AfterSnoc(shots: seq<Shot>, shot: Shot, run: (PlaybackState, seq<Shot>, Option<TickResult>))
    ensures After(shots, (run.0, [shot] + run.1, run.2)) == After(shots + [shot], run)
  {
    assert shots + ([shot] + run.1) == (shots + [shot]) + run.1;
  }

  /** One tick of `RunTicks`, unfolded. */
  lemma RunTicksUnfold(s: PlaybackState, frames: seq<string>, loop: bool, delay: real, probes: seq<Probes>)
    requires probes != []
    ensures var (t, r) := TickStep(s, frames, loop, delay, probes[0]);
      var rest := RunTicks(t, frames, loop, delay, probes[1..]);
      RunTicks(s, frames, loop, delay, probes) == if r.Shown? then (rest.0, [r.shot] + rest.1, rest.2) else (t, [], Some(r))
  {
  }

  /** `texts[k]` is what _display_frame writes for `shots[k]`. */
  predicate Rendered(texts: seq<string>, shots: seq<Shot>)
  {
    |texts| == |shots| && forall k :: 0 <= k < |texts| ==> Displayed(shots[k]) == Ok(texts[k])
  }

  lemma RenderedSnoc(texts: seq<string>, shots: seq<Shot>, text: string, shot: Shot)
    requires Rendered(texts, shots) && Displayed(shot) == Ok(text)
    ensures Rendered(texts + [text], shots + [shot])
  {
    forall k | 0 <= k < |texts| + 1
      ensures Displayed((shots + [shot])[k]) == Ok((texts + [text])[k])
    {
      if k < |texts| {
        assert (texts + [text])[k] == texts[k] && (shots + [shot])[k] == shots[k];
      } else {
        assert (texts + [text])[k] == text && (shots + [shot])[k] == shot;
      }
    }
  }

  /** The shots whose frames were written: a sleep error comes after its frame was written. */
  function Written(shots: seq<Shot>, end: Option<TickResult>): seq<Shot>
  {
    if end.Some? && end.value.SleepError? then shots + [end.value.shot] else shots
  }

  /** _display_frame's transform of the frame before it is written. */
  method DisplayFrame(shot: Shot) returns (text: Result<string, ResizeError>)
    ensures text == Displayed(shot)
  {
    var v := shot.view;
    var bound := v.height - StatusRows;
    text := FitFrame(shot.frame, v.autoResize, v.width, bound);
    if text.Ok? && v.centerContent {
      var centered := Centered(text.value, v.width, Some(bound));
      assert Displayed(shot) == Ok(centered);
      text := Ok(centered);
    }
  }

  /** The resize step of _display_frame and of play_simple. */
  method FitFrame(frame: string, autoResize: bool, width: int, height: int) returns (resized: Result<string, ResizeError>)
    ensures resized == Fitted(frame, autoResize, width, height)
  {
    if !autoResize {
      return Ok(frame);
    }
    resized := ResizeAsciiFrame(frame, width, Some(height));
  }

  /**
    With auto-resize on, a tick whose terminal reports a negative width and
    whose frame is blank once stripped ends the render thread in
    resize_ascii_frame with ZeroDivisionError, after the size was re-read and
    before the index advances; every other tick on a valid index shows its
    frame and advances.
  */
  lemma ResizeErrorEndsRenderLoop(s: PlaybackState, frames: seq<string>, loop: bool, delay: real, probes: Probes)
    requires s.isPlaying && s.totalFrames == |frames| && 0 <= s.currentFrame < |frames|
    ensures var size := GetTerminalSize(probes);
      var (t, r) := TickStep(s, frames, loop, delay, probes);
      && (r == ZeroDivision <==> s.autoResize && size.columns < 0 && Strip(frames[s.currentFrame]) == "")
      && (r == ZeroDivision ==> t == s.(terminalWidth := size.columns, terminalHeight := size.lines))
      && (r != ZeroDivision && delay >= 0.0 ==>
            r == Shown(Shot(frames[s.currentFrame], ViewAt(s, size))) && t.currentFrame == s.currentFrame + 1)
  {
  }

  /**
    A negative delay makes `time.sleep` raise ValueError once the frame has
    been written: the render thread ends with the size re-read and the
    index where it was.
  */
  lemma NegativeDelayEndsRenderLoop(s: PlaybackState, frames: seq<string>, loop: bool, delay: real, probes: Probes)
    requires delay < 0.0 && s.isPlaying && s.totalFrames == |frames| && 0 <= s.currentFrame < |frames|
    ensures var size := GetTerminalSize(probes);
      var (t, r) := TickStep(s, frames, loop, delay, probes);
      r != ZeroDivision ==>
        && r == SleepError(Shot(frames[s.currentFrame], ViewAt(s, size)))
        && t == s.(terminalWidth := size.columns, terminalHeight := size.lines)
  {
  }

  /** With a negative delay the render loop never completes a frame: its first tick is its last. */
  lemma NegativeDelayShowsNothing(s: PlaybackState, frames: seq<string>, loop: bool, delay: real, probes: seq<Probes>)
    requires delay < 0.0
    ensures RunTicks(s, frames, loop, delay, probes).1 == []
    ensures |probes| > 0 ==> RunTicks(s, frames, loop, delay, probes) == (TickStep(s, frames, loop, delay, probes[0]).0, [], Some(TickStep(s, frames, loop, delay, probes[0]).1))
  {
    if |probes| > 0 {
      RunTicksUnfold(s, frames, loop, delay, probes);
    }
  }

  /**
    Without looping, with nothing pressed and a terminal that reports a
    non-negative width, playback from frame c shows
    frames c, c+1, ..., n-1 in order (each with the toggles of the state and
    the terminal size of its tick) and then stops with the index at n.
  */
  lemma {:induction false} PlaysRemainingFramesInOrder(s: PlaybackState, frames: seq<string>, delay: real, probes: seq<Probes>)
    requires delay >= 0.0
    requires s.isPlaying && s.totalFrames == |frames| && 0 <= s.currentFrame <= |frames|
    requires |probes| > |frames| - s.currentFrame
    requires forall k :: 0 <= k < |probes| ==> GetTerminalSize(probes[k]).columns >= 0
    ensures var (u, shots, end) := RunTicks(s, frames, false, delay, probes);
      && |shots| == |frames| - s.currentFrame
      && (forall k :: 0 <= k < |shots| ==>
            shots[k] == Shot(frames[s.currentFrame + k], ViewAt(s, GetTerminalSize(probes[k]))))
      && end == Some(Exited)
      && !u.isPlaying && u.currentFrame == |frames|
    decreases |frames| - s.currentFrame
  {
    if s.currentFrame < |frames| {
      var (t, r) := TickStep(s, frames, false, delay, probes[0]);
      assert r == Shown(Shot(frames[s.currentFrame], ViewAt(s, GetTerminalSize(probes[0]))));
      assert t.currentFrame == s.currentFrame + 1 && t.isPlaying && t.totalFrames == |frames|;
      assert t.autoResize == s.autoResize && t.centerContent == s.centerContent;
      PlaysRemainingFramesInOrder(t, frames, delay, probes[1..]);
      var (u, more, end) := RunTicks(t, frames, false, delay, probes[1..]);
      assert RunTicks(s, frames, false, delay, probes) == (u, [r.shot] + more, end);
      forall k | 1 <= k < 1 + |more|
        ensures ([r.shot] + more)[k] == Shot(frames[s.currentFrame + k], ViewAt(s, GetTerminalSize(probes[k])))
      {
        assert ([r.shot] + more)[k] == more[k - 1];
        assert probes[1..][k - 1] == probes[k];
      }
    }
  }

  /** With looping, the tick after the last frame shows the first frame again (when there is one). */
  lemma LoopRestarts(s: PlaybackState, frames: seq<string>, delay: real, probes: Probes)
    requires delay >= 0.0
    requires s.isPlaying && s.totalFrames == |frames| && s.currentFrame == |frames| && |frames| > 0
    requires GetTerminalSize(probes).columns >= 0
    ensures var (t, r) := TickStep(s, frames, true, delay, probes);
      r == Shown(Shot(frames[0], ViewAt(s, GetTerminalSize(probes)))) && t.currentFrame == 1 && t.isPlaying
  {
  }

  /** A paused player's render loop exits at once, changing nothing. */
  lemma PauseEndsRenderLoop(s: PlaybackState, frames: seq<string>, loop: bool, delay: real, probes: Probes)
    requires !s.isPlaying
    ensures TickStep(s, frames, loop, delay, probes) == (s, Exited)
  {
  }

  /** With looping and no frames the restart at index 0 fails: `frames[0]` raises. */
  lemma EmptyLoopFails(s: PlaybackState, delay: real, probes: Probes)
    requires s.isPlaying && s.totalFrames == 0 && s.currentFrame >= 0
    ensures TickStep(s, [], true, delay, probes).1 == IndexError
  {
  }

  // ---------------------------------------------------------------- status line

  /** The first field of _show_status's text: the 1-based frame number over the frame count. */
  function FrameCounter(s: PlaybackState): string
  {
    "[Frame " + IntToString(s.currentFrame + 1) + "/" + IntToString(s.totalFrames) + "] "
  }

  /** The status text of _show_status before the key legend; `speedText` is Python's rendering of the speed. */
  function StatusText(s: PlaybackState, speedText: string): string
  {
    FrameCounter(s) + StatusFields(s, speedText)
  }

  /** The fields of the status text after the frame counter: play state, speed and terminal size. */
  function StatusFields(s: PlaybackState, speedText: string): string
  {
    "[" + (if s.isPlaying then "PLAYING" else "PAUSED") + "] "
    + "[Speed: " + speedText + "x] "
    + "[Size: " + IntToString(s.terminalWidth) + "x" + IntToString(s.terminalHeight) + "] "
  }

  /** _show_status: the status text followed by the full legend, or the short one when both would not fit. */
  function StatusLine(s: PlaybackState, speedText: string): string
  {
    var status := StatusText(s, speedText);
    status + (if |status| + |FullLegend| > s.terminalWidth then ShortLegend else FullLegend)
  }

  lemma PrefixOfConcat(a: string, b: string, c: string)
    ensures ((a + b) + c)[..|a|] == a
  {
    assert forall i :: 0 <= i < |a| ==> ((a + b) + c)[i] == a[i];
  }

  /** The status line opens with the frame counter: the 1-based frame number over the frame count. */
  lemma StatusLineStartsWithCounter(s: PlaybackState, speedText: string)
    ensures var line := StatusLine(s, speedText);
      |line| > |FrameCounter(s)| && line[..|FrameCounter(s)|] == FrameCounter(s)
  {
    var legend := if |StatusText(s, speedText)| + |FullLegend| > s.terminalWidth then ShortLegend else FullLegend;
    assert |legend| > 0;
    PrefixOfConcat(FrameCounter(s), StatusFields(s, speedText), legend);
  }

  /**
    The status line ends with the short legend exactly when the status text
    and the 73-character full legend together exceed the terminal width.
  */
  lemma StatusLineLegend(s: PlaybackState, speedText: string)
    ensures var line := StatusLine(s, speedText);
      var status := StatusText(s, speedText);
      && (|status| + 73 > s.terminalWidth <==> line == status + ShortLegend)
      && (|status| + 73 <= s.terminalWidth <==> line == status + FullLegend)
  {
    assert |FullLegend| == 73 && |ShortLegend| == 17;
  }

  // ---------------------------------------------------------------- simple mode

  /** The frame play_simple prints: shrunk to the terminal less two rows when auto-resize is on. */
  function SimpleDisplayed(frame: string, autoResize: bool, size: Size): Result<string, ResizeError>
  {
    Fitted(frame, autoResize, size.columns, size.lines - 2)
  }

  /**
    `shown` is what play_simple prints first: the k-th frame printed is
    frame k modulo the frame count, transformed for the k-th size probe.
  */
  predicate PrintedInOrder(shown: seq<string>, frames: seq<string>, autoResize: bool, probes: seq<Probes>)
    requires |frames| > 0
  {
    |shown| <= |probes|
    && forall k :: 0 <= k < |shown| ==>
      SimpleDisplayed(frames[k % |frames|], autoResize, GetTerminalSize(probes[k])) == Ok(shown[k])
  }

  /** The print after `shown` raises: its frame cannot be resized for its size probe. */
  /**
    The probe of the last size play_simple read: the one of the print that
    raised in the resize, or else the one of the last frame printed.
  */
  function LastProbe(shown: seq<string>, error: Option<SimpleError>): int
  {
    if error == Some(ResizeZeroDivision) then |shown| else |shown| - 1
  }

  predicate NextPrintFails(shown: seq<string>, frames: seq<string>, autoResize: bool, probes: seq<Probes>)
    requires |frames| > 0
  {
    |shown| < |probes|
    && SimpleDisplayed(frames[|shown| % |frames|], autoResize, GetTerminalSize(probes[|shown|])).Err?
  }

  /** Printing the next frame keeps `PrintedInOrder`. */
  lemma PrintedSnoc(before: seq<string>, frames: seq<string>, autoResize: bool, probes: seq<Probes>, frame: string)
    requires |frames| > 0 && |before| < |probes| && PrintedInOrder(before, frames, autoResize, probes)
    requires SimpleDisplayed(frames[|before| % |frames|], autoResize, GetTerminalSize(probes[|before|])) == Ok(frame)
    ensures PrintedInOrder(before + [frame], frames, autoResize, probes)
  {
    var shown := before + [frame];
    forall k | 0 <= k < |shown|
      ensures SimpleDisplayed(frames[k % |frames|], autoResize, GetTerminalSize(probes[k])) == Ok(shown[k])
    {
      if k < |before| {
        assert shown[k] == before[k];
      } else {
        assert k == |before| && shown[k] == frame;
      }
    }
  }

  lemma ModAfterWholePasses(passes: nat, i: nat, n: nat)
    requires i < n
    ensures (passes * n + i) % n == i
  {
    ModUnique(passes * n + i, passes, i, n);
  }

  // ---------------------------------------------------------------- the player

  class AsciiPlayer {
    const config: AsciiConfig
    var isPlaying: bool
    var currentFrame: int
    var totalFrames: int
    var terminalWidth: int
    var terminalHeight: int
    var autoResize: bool
    var centerContent: bool

    function State(): PlaybackState
      reads this, config
    {
      PlaybackState(isPlaying, currentFrame, totalFrames, config.playbackSpeed, autoResize, centerContent,
                    terminalWidth, terminalHeight)
    }

    /** `ASCIIPlayer(config)`: a default config when none is given, stopped, auto-resize on, centring off. */
    constructor (cfg: AsciiConfig?, probes: Probes)
      ensures cfg != null ==> config == cfg
      ensures cfg == null ==> fresh(config) && config.HasDefaults()
      ensures !isPlaying && currentFrame == 0 && totalFrames == 0 && autoResize && !centerContent
      ensures Size(terminalWidth, terminalHeight) == GetTerminalSize(probes)
    {
      if cfg != null {
        config := cfg;
      } else {
        config := new AsciiConfig();
      }
      isPlaying := false;
      currentFrame := 0;
      totalFrames := 0;
      var size := GetTerminalSize(probes);
      terminalWidth, terminalHeight := size.columns, size.lines;
      autoResize := true;
      centerContent := false;
    }

    /**
      The start of play(): the state reset, then the frame delay the render
      thread is given (None: the division raised ZeroDivisionError, and
      nothing is started). The two loops it then starts are HandleControls
      and PlaybackLoop.
    */
    method Play(frames: seq<string>, fps: Option<real>) returns (delay: Option<real>)
      modifies this
      ensures State() == old(State()).(isPlaying := true, currentFrame := 0, totalFrames := |frames|)
      ensures delay == FrameDelay(fps, config.targetFps, config.playbackSpeed)
    {
      totalFrames := |frames|;
      currentFrame := 0;
      isPlaying := true;
      delay := FrameDelay(fps, config.targetFps, config.playbackSpeed);
    }

    /** One round of _handle_controls. */
    method HandleKey(k: KeyRead) returns (stop: bool)
      modifies this, config`playbackSpeed
      ensures (State(), stop) == ControlStep(old(State()), k)
    {
      match k {
        case Idle =>
        case Esc(_) =>
        case EscBracket(arrow) =>
          if arrow == 'C' {
            currentFrame := MinInt(totalFrames - 1, currentFrame + SeekStep);
          } else if arrow == 'D' {
            currentFrame := MaxInt(0, currentFrame - SeekStep);
          }
        case Key(c) =>
          if IsLetterKey(c, 'q') {
            isPlaying := false;
            return true;
          } else if c == ' ' {
            isPlaying := !isPlaying;
          } else if c == '+' || c == '=' {
            config.playbackSpeed := MinReal(MaxSpeed, config.playbackSpeed + SpeedStep);
          } else if c == '-' {
            config.playbackSpeed := MaxReal(MinSpeed, config.playbackSpeed - SpeedStep);
          } else if IsLetterKey(c, 'r') {
            autoResize := !autoResize;
          } else if IsLetterKey(c, 'c') {
            centerContent := !centerContent;
          }
      }
      stop := !isPlaying && currentFrame >= totalFrames - 1;
    }

    /** _handle_controls over the keys read: rounds run until the loop ends or the keys run out. */
    method HandleControls(keys: seq<KeyRead>) returns (rounds: nat)
      modifies this, config`playbackSpeed
      ensures (State(), rounds) == RunControls(old(State()), keys)
    {
      rounds := 0;
      while rounds < |keys|
        invariant rounds <= |keys|
        invariant RunControls(old(State()), keys) == (RunControls(State(), keys[rounds..]).0, rounds + RunControls(State(), keys[rounds..]).1)
      {
        ghost var before := State();
        var stop := HandleKey(keys[rounds]);
        assert keys[rounds..][0] == keys[rounds] && keys[rounds..][1..] == keys[rounds + 1..];
        rounds := rounds + 1;
        if stop {
          assert RunControls(before, keys[rounds - 1..]) == (State(), 1);
          return;
        }
      }
    }

    /** A pass of _playback_loop up to the frame lookup. */
    method StartTick(frames: seq<string>, probes: Probes) returns (result: TickResult)
      modifies this
      ensures (State(), result) == TickStart(old(State()), frames, config.loop, probes)
    {
      if !isPlaying {
        return Exited;
      }
      if currentFrame >= totalFrames {
        if config.loop {
          currentFrame := 0;
        } else {
          isPlaying := false;
          return Exited;
        }
      }
      var size := GetTerminalSize(probes);
      terminalWidth, terminalHeight := size.columns, size.lines;
      var frame := PyIndex(frames, currentFrame);
      if frame.None? {
        return IndexError;
      }
      result := Shown(Shot(frame.value, View(autoResize, centerContent, terminalWidth, terminalHeight)));
    }

    /**
      One pass of _playback_loop: what it decided, and the text _display_frame
      writes when it shows a frame (nothing is written otherwise).
    */
    method Tick(frames: seq<string>, delay: real, probes: Probes) returns (result: TickResult, text: string)
      modifies this
      ensures (State(), result) == TickStep(old(State()), frames, config.loop, delay, probes)
      ensures result.Shown? || result.SleepError? ==> Displayed(result.shot) == Ok(text)
    {
      text := "";
      result := StartTick(frames, probes);
      if result.Shown? {
        result, text := FinishTick(result.shot, delay);
      }
    }

    /** The rest of a pass that found its frame: _display_frame, `time.sleep(frame_delay)`, the advance. */
    method FinishTick(shot: Shot, delay: real) returns (result: TickResult, text: string)
      modifies this`currentFrame
      ensures (State(), result) == TickFinish((old(State()), Shown(shot)), delay)
      ensures result.Shown? || result.SleepError? ==> Displayed(result.shot) == Ok(text)
    {
      text := "";
      var written := DisplayFrame(shot);
      DisplayFailsExactly(shot);
      if written.Err? {
        return ZeroDivision, text;
      }
      text := written.value;
      if delay < 0.0 {
        return SleepError(shot), text;
      }
      currentFrame := currentFrame + 1;
      result := Shown(shot);
    }

    /** _playback_loop over the size probes of successive ticks, with the texts written in order. */
    method PlaybackLoop(frames: seq<string>, delay: real, probes: seq<Probes>) returns (shots: seq<Shot>, texts: seq<string>, end: Option<TickResult>)
      modifies this
      ensures (State(), shots, end) == RunTicks(old(State()), frames, config.loop, delay, probes)
      ensures Rendered(texts, Written(shots, end))
    {
      shots, texts := [], [];
      var i := 0;
      assert probes[i..] == probes;
      assert [] + RunTicks(State(), frames, config.loop, delay, probes).1 == RunTicks(State(), frames, config.loop, delay, probes).1;
      while i < |probes|
        invariant i <= |probes|
        invariant Rendered(texts, shots)
        invariant RunTicks(old(State()), frames, config.loop, delay, probes)
          == After(shots, RunTicks(State(), frames, config.loop, delay, probes[i..]))
      {
        ghost var before := State();
        var r, text := Tick(frames, delay, probes[i]);
        RunTicksUnfold(before, frames, config.loop, delay, probes[i..]);
        assert probes[i..][0] == probes[i] && probes[i..][1..] == probes[i + 1..];
        i := i + 1;
        if !r.Shown? {
          assert shots + [] == shots;
          if r.SleepError? {
            RenderedSnoc(texts, shots, text, r.shot);
            texts := texts + [text];
          }
          return shots, texts, Some(r);
        }
        AfterSnoc(shots, r.shot, RunTicks(State(), frames, config.loop, delay, probes[i..]));
        RenderedSnoc(texts, shots, text, r.shot);
        shots, texts := shots + [r.shot], texts + [text];
      }
      assert probes[i..] == [];
      assert shots + [] == shots;
      end := None;
    }

    /**
      play_simple: the frame delay first (a zero rate raises before anything
      is printed), then frames printed in order, pass after pass while
      looping, until the interrupt that arrives after `|probes|` frames (one
      terminal size probe per frame printed). Without looping, one pass at
      most. A frame that cannot be resized raises out of play_simple at once;
      a negative delay raises in `time.sleep` after the first frame printed.
    */
    method PlaySimple(frames: seq<string>, probes: seq<Probes>, fps: Option<real>)
      returns (shown: seq<string>, error: Option<SimpleError>)
      modifies this`terminalWidth, this`terminalHeight
      ensures var delay := FrameDelay(fps, config.targetFps, config.playbackSpeed);
        && (error == Some(DelayZeroDivision) <==> delay.None?)
        && (delay.None? ==> shown == [])
        && (error == Some(SleepValueError) <==>
              && delay.Some? && delay.value < 0.0 && |frames| > 0 && |probes| > 0
              && SimpleDisplayed(frames[0], autoResize, GetTerminalSize(probes[0])).Ok?)
        && (error == Some(SleepValueError) ==> |shown| == 1)
      ensures |frames| == 0 ==> shown == [] && error != Some(ResizeZeroDivision)
      ensures |frames| > 0 ==> PrintedInOrder(shown, frames, autoResize, probes)
      ensures |frames| > 0 && error.None? ==>
        |shown| == (if config.loop then |probes| else MinInt(|probes|, |frames|))
      ensures error == Some(ResizeZeroDivision) ==>
        |frames| > 0 && NextPrintFails(shown, frames, autoResize, probes) && (config.loop || |shown| < |frames|)
      ensures error == Some(DelayZeroDivision) || |frames| == 0 || |probes| == 0 ==>
        terminalWidth == old(terminalWidth) && terminalHeight == old(terminalHeight)
      ensures !(error == Some(DelayZeroDivision) || |frames| == 0 || |probes| == 0) ==>
        var last := LastProbe(shown, error);
        && 0 <= last < |probes|
        && terminalWidth == GetTerminalSize(probes[last]).columns
        && terminalHeight == GetTerminalSize(probes[last]).lines
    {
      shown, error := [], None;
      var delay := FrameDelay(fps, config.targetFps, config.playbackSpeed);
      if delay.None? {
        return [], Some(DelayZeroDivision);
      }
      if |frames| == 0 {
        return;
      }
      ghost var passes: nat := 0;
      while |shown| < |probes|
        invariant |shown| == passes * |frames| || |shown| == |probes|
        invariant !config.loop ==> passes == 0 && shown == []
        invariant delay.value < 0.0 ==> shown == []
        invariant PrintedInOrder(shown, frames, autoResize, probes)
        invariant error.None?
        invariant shown == [] ==> terminalWidth == old(terminalWidth) && terminalHeight == old(terminalHeight)
        invariant shown != [] ==> terminalWidth == GetTerminalSize(probes[|shown| - 1]).columns
        invariant shown != [] ==> terminalHeight == GetTerminalSize(probes[|shown| - 1]).lines
        decreases |probes| - |shown|
      {
        ghost var before := shown;
        shown, error := PlayPass(frames, probes, delay.value, shown, passes);
        if error.Some? {
          if error == Some(SleepValueError) {
            assert |probes| > 0 && |shown| == 1;
            assert SimpleDisplayed(frames[0 % |frames|], autoResize, GetTerminalSize(probes[0])) == Ok(shown[0]);
          } else if delay.value < 0.0 {
            assert error.value != DelayZeroDivision && error.value != SleepValueError;
            assert shown == [] && 0 % |frames| == 0;
            assert SimpleDisplayed(frames[0], autoResize, GetTerminalSize(probes[0])).Err?;
          }
          return;
        }
        assert passes * |frames| + |frames| == (passes + 1) * |frames|;
        passes := passes + 1;
        if !config.loop {
          break;
        }
      }
    }

    /** One pass of play_simple's `for` loop over the frames, stopped early by the interrupt or an exception. */
    method PlayPass(frames: seq<string>, probes: seq<Probes>, delay: real, before: seq<string>, ghost passes: nat)
      returns (shown: seq<string>, error: Option<SimpleError>)
      requires |frames| > 0 && |before| == passes * |frames| < |probes|
      requires PrintedInOrder(before, frames, autoResize, probes)
      modifies this`terminalWidth, this`terminalHeight
      ensures PrintedInOrder(shown, frames, autoResize, probes)
      ensures error != Some(DelayZeroDivision)
      ensures delay < 0.0 ==> error.Some?
      ensures error.None? ==> |shown| == MinInt(|probes|, |before| + |frames|)
      ensures error == Some(ResizeZeroDivision) ==>
        |before| <= |shown| < |before| + |frames| && NextPrintFails(shown, frames, autoResize, probes)
      ensures error == Some(ResizeZeroDivision) && delay < 0.0 ==> shown == before
      ensures error == Some(SleepValueError) ==> delay < 0.0 && |shown| == |before| + 1
      ensures var last := LastProbe(shown, error);
        && |before| <= last < |probes|
        && terminalWidth == GetTerminalSize(probes[last]).columns
        && terminalHeight == GetTerminalSize(probes[last]).lines
    {
      shown, error := before, None;
      var i := 0;
      while i < |frames| && |shown| < |probes|
        invariant 0 <= i <= |frames|
        invariant |shown| == passes * |frames| + i
        invariant delay < 0.0 ==> i == 0
        invariant PrintedInOrder(shown, frames, autoResize, probes)
        invariant i > 0 ==> terminalWidth == GetTerminalSize(probes[|shown| - 1]).columns
        invariant i > 0 ==> terminalHeight == GetTerminalSize(probes[|shown| - 1]).lines
      {
        ModAfterWholePasses(passes, i, |frames|);
        var next, e := PrintNext(frames, probes, delay, shown, i);
        if e.Some? {
          return next, e;
        }
        shown := next;
        i := i + 1;
      }
    }

    /**
      One iteration of play_simple's loop: probe the terminal, transform
      frame `i`, print it or raise; then sleep, which raises for a negative delay.
    */
    method PrintNext(frames: seq<string>, probes: seq<Probes>, delay: real, before: seq<string>, i: nat)
      returns (shown: seq<string>, error: Option<SimpleError>)
      requires |frames| > 0 && |before| < |probes| && i == |before| % |frames|
      requires PrintedInOrder(before, frames, autoResize, probes)
      modifies this`terminalWidth, this`terminalHeight
      ensures error == Some(ResizeZeroDivision) <==> NextPrintFails(before, frames, autoResize, probes)
      ensures error == Some(ResizeZeroDivision) ==> shown == before
      ensures error != Some(ResizeZeroDivision) ==> |shown| == |before| + 1 && PrintedInOrder(shown, frames, autoResize, probes)
      ensures error != Some(ResizeZeroDivision) ==> (error == Some(SleepValueError) <==> delay < 0.0)
      ensures error != Some(DelayZeroDivision)
      ensures terminalWidth == GetTerminalSize(probes[|before|]).columns
      ensures terminalHeight == GetTerminalSize(probes[|before|]).lines
    {
      var size := GetTerminalSize(probes[|before|]);
      terminalWidth, terminalHeight := size.columns, size.lines;
      var frame := FitFrame(frames[i], autoResize, size.columns, size.lines - 2);
      assert frame == SimpleDisplayed(frames[i], autoResize, size);
      if frame.Err? {
        return before, Some(ResizeZeroDivision);
      }
      PrintedSnoc(before, frames, autoResize, probes, frame.value);
      shown, error := before + [frame.value], None;
      if delay < 0.0 {
        error := Some(SleepValueError);
      }
    }
  }
}
