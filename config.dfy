/**
  The conversion and playback settings (ascii-animation-player/src/config.py):
  a record whose fields the program assigns in place.
*/
module Config {
  import opened Wrappers

  /** A value held in a settings or metadata mapping. */
  datatype Value =
    | IntValue(i: int)
    | RealValue(r: real)
    | StrValue(s: string)
    | BoolValue(b: bool)
    | NoneValue
    | TupleValue(items: seq<Value>)
    | ListValue(items: seq<Value>)

  /** Python's `int(x)` on a float: truncation toward zero. */
  function Truncate(x: real): (n: int)
    ensures x >= 0.0 ==> n as real <= x < n as real + 1.0
    ensures x < 0.0 ==> n as real - 1.0 < x <= n as real
  {
    if x >= 0.0 then x.Floor else -((-x).Floor)
  }

  /**
    The frame size a terminal leaves for frames: its width less the margin,
    at least 20; its height less the margin and the three status rows, at
    least 10, or 40 when the terminal reports 10 rows or fewer.
  */
  function FittedSize(termWidth: int, termHeight: int, margin: int): (r: (int, int))
    ensures r.0 >= 20 && r.1 >= 10
    ensures r.0 >= termWidth - margin && (r.0 == 20 || r.0 == termWidth - margin)
    ensures termHeight > 10 ==> r.1 >= termHeight - margin - 3 && (r.1 == 10 || r.1 == termHeight - margin - 3)
    ensures termHeight <= 10 ==> r.1 == 40
  {
    (if termWidth - margin > 20 then termWidth - margin else 20,
     if termHeight > 10 then (if termHeight - margin - 3 > 10 then termHeight - margin - 3 else 10) else 40)
  }

  class AsciiConfig {
    // video processing
    var targetFps: int
    var startTime: real
    var endTime: Option<real>
    // resolution
    var width: int
    var height: int
    var maintainAspectRatio: bool
    var autoTerminalSize: bool
    var terminalMargin: int
    // image enhancement
    var brightness: real
    var contrast: real
    var saturation: real
    var sharpness: real
    var gamma: real
    // character mapping
    var asciiChars: string
    var reverseChars: bool
    var colorMode: string
    var background: string
    var useBraille: bool
    var dithering: bool
    var edgeDetection: bool
    var edgeThreshold: real
    // storage
    var compression: string
    var storageFormat: string
    // playback
    var playbackSpeed: real
    var loop: bool
    var showProgress: bool
    var clearScreen: bool
    var autoResizePlayback: bool

    /** Every field at its declared default. */
    ghost predicate HasDefaults()
      reads this
    {
      && targetFps == 30 && startTime == 0.0 && endTime == None
      && width == 80 && height == 40 && maintainAspectRatio && !autoTerminalSize && terminalMargin == 2
      && brightness == 1.0 && contrast == 1.0 && saturation == 1.0 && sharpness == 1.0 && gamma == 1.0
      && asciiChars == " .:-=+*#%@" && !reverseChars && colorMode == "mono" && background == "black"
      && !useBraille && !dithering && !edgeDetection && edgeThreshold == 100.0
      && compression == "gzip" && storageFormat == "pickle"
      && playbackSpeed == 1.0 && !loop && showProgress && clearScreen && autoResizePlayback
    }

    /** `ASCIIConfig()`. */
    constructor ()
      ensures HasDefaults()
    {
      targetFps, startTime, endTime := 30, 0.0, None;
      width, height, maintainAspectRatio, autoTerminalSize, terminalMargin := 80, 40, true, false, 2;
      brightness, contrast, saturation, sharpness, gamma := 1.0, 1.0, 1.0, 1.0, 1.0;
      asciiChars, reverseChars, colorMode, background := " .:-=+*#%@", false, "mono", "black";
      useBraille, dithering, edgeDetection, edgeThreshold := false, false, false, 100.0;
      compression, storageFormat := "gzip", "pickle";
      playbackSpeed, loop, showProgress, clearScreen, autoResizePlayback := 1.0, false, true, true, true;
    }

    /** `self.__dict__`: every field under its Python name. */
    function AsDict(): map<string, Value>
      reads this
    {
      map[
        "target_fps" := IntValue(targetFps),
        "start_time" := RealValue(startTime),
        "end_time" := (if endTime.Some? then RealValue(endTime.value) else NoneValue),
        "width" := IntValue(width),
        "height" := IntValue(height),
        "maintain_aspect_ratio" := BoolValue(maintainAspectRatio),
        "auto_terminal_size" := BoolValue(autoTerminalSize),
        "terminal_margin" := IntValue(terminalMargin),
        "brightness" := RealValue(brightness),
        "contrast" := RealValue(contrast),
        "saturation" := RealValue(saturation),
        "sharpness" := RealValue(sharpness),
        "gamma" := RealValue(gamma),
        "ascii_chars" := StrValue(asciiChars),
        "reverse_chars" := BoolValue(reverseChars),
        "color_mode" := StrValue(colorMode),
        "background" := StrValue(background),
        "use_braille" := BoolValue(useBraille),
        "dithering" := BoolValue(dithering),
        "edge_detection" := BoolValue(edgeDetection),
        "edge_threshold" := RealValue(edgeThreshold),
        "compression" := StrValue(compression),
        "storage_format" := StrValue(storageFormat),
        "playback_speed" := RealValue(playbackSpeed),
        "loop" := BoolValue(loop),
        "show_progress" := BoolValue(showProgress),
        "clear_screen" := BoolValue(clearScreen),
        "auto_resize_playback" := BoolValue(autoResizePlayback)
      ]
    }

    /** apply_terminal_size: only `width` and `height` change, to the fitted size. */
    method ApplyTerminalSize(termWidth: int, termHeight: int)
      modifies this`width, this`height
      ensures (width, height) == FittedSize(termWidth, termHeight, terminalMargin)
      ensures width >= 20 && height >= 10
    {
      width := if 20 >= termWidth - terminalMargin then 20 else termWidth - terminalMargin;
      if termHeight > 10 {
        height := if 10 >= termHeight - terminalMargin - 3 then 10 else termHeight - terminalMargin - 3;
      } else {
        height := 40;
      }
    }
  }

  lemma RealMulMonotone(a: real, b: real, c: real)
    requires a <= b && c > 0.0
    ensures a * c <= b * c
    ensures a < b ==> a * c < b * c
  {
  }

  /** A quotient q = s / t lying in [k, k + 1) puts s in [k * t, (k + 1) * t). */
  lemma QuotientBounds(s: real, t: real, q: real, k: real)
    requires t > 0.0 && q * t == s && k <= q < k + 1.0
    ensures k * t <= s < (k + 1.0) * t
  {
    RealMulMonotone(k, q, t);
    RealMulMonotone(q, k + 1.0, t);
    calc {
      s;
    ==
      q * t;
    <
      (k + 1.0) * t;
    }
  }

  /**
    get_frame_skip, given the config's `target_fps`: 1 when the target rate
    is at least the source rate, otherwise `int(source_fps / target_fps)`;
    None where that division raises ZeroDivisionError.
  */
  function FrameSkip(targetFps: int, sourceFps: real): Option<int>
  {
    if targetFps as real >= sourceFps then Some(1)
    else if targetFps == 0 then None
    else Some(Truncate(sourceFps / targetFps as real))
  }

  /**
    With a positive target rate the skip is defined and at least 1; when the
    source is faster it is the whole number of target frames per source
    frame: `skip * target <= source < (skip + 1) * target`.
  */
  lemma FrameSkipBounds(targetFps: int, sourceFps: real)
    requires targetFps > 0
    ensures FrameSkip(targetFps, sourceFps).Some?
    ensures FrameSkip(targetFps, sourceFps).value >= 1
    ensures (targetFps as real) < sourceFps ==>
      var skip := FrameSkip(targetFps, sourceFps).value as real;
      skip * (targetFps as real) <= sourceFps < (skip + 1.0) * (targetFps as real)
  {
    var t := targetFps as real;
    if t < sourceFps {
      var q := sourceFps / t;
      assert q * t == sourceFps;
      if q <= 1.0 {
        RealMulMonotone(q, 1.0, t);
      }
      var n := Truncate(q);
      assert FrameSkip(targetFps, sourceFps) == Some(n);
      var skip := n as real;
      assert skip <= q < skip + 1.0;
      QuotientBounds(sourceFps, t, q, skip);
    }
  }
}
