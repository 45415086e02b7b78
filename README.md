# ASCII animation player — a verified model

This project models the playback and storage core of the ASCII animation
player: the terminal player (`ascii-animation-player/src`) and the browser
player (`js/ascii-animation.js`). It covers:

- **Frame transforms** (`terminal_utils.dfy`): `get_terminal_size` as a
  function of what its three size queries report, `resize_ascii_frame` (as
  nested loops proved against a value-level definition) and `center_frame`.
- **Settings** (`config.dfy`): the `ASCIIConfig` record with its defaults,
  `apply_terminal_size` and `get_frame_skip`.
- **The terminal player** (`player.dfy`): the `ASCIIPlayer` object. It has
  - one round of the control loop (`_handle_controls`);
  - one pass of the render loop (`_playback_loop` and `_display_frame`);
  - the status line (`_show_status`);
  - the state reset of `play`;
  - `play_simple`.

  Each loop step is a function on the player's state, and the class's
  methods are proved to perform exactly that step.
- **Storage** (`storage.dfy`): `save` with its format and compression
  dispatch, and the path suffixes the compressors and NumPy add. It also
  covers `load` with its suffix dispatch and its pickle → JSON → NumPy
  cascade, the opener choice from the path's ending, and the NumPy reader.
  The file system is a map from paths to stored files. `utf8.dfy` holds the
  UTF-8 codec (RFC 3629) that the NumPy archive applies to frames.
- **The browser player** (`ascii_animation.dfy`): `resizeFrame` (nested
  loops proved against a value-level definition). It also covers `play`,
  `pause`, `stop`, `displayFrame` and `animate`, plus the reset that
  `loadAnimation` performs. A requestAnimationFrame chain is modelled as a
  run over a sequence of ticks.
- **Shared pieces**: `text.dfy` models the Python and JavaScript string
  built-ins the core relies on (`split`, `join`, `strip`, `max(len(...))`,
  `str(int)`). `sampling.dfy` holds the nearest-neighbour index arithmetic
  that both resamplers share.

Behaviours of the code worth knowing, all kept in the model:

- `save` with an unknown compression under the pickle or JSON format writes
  nothing and raises nothing, so nothing signals the unknown value.
- `load` looks only at the last suffix (`Path.suffix`). A `.json.gz` file
  therefore goes through the cascade, and the pickle reader is tried first.
- Not every format × compression pair round-trips:
  - an uncompressed file whose name carries another format's suffix does
    not load;
  - JSON reads tuples back as lists (so `dimensions` changes type);
  - a frame ending in U+0000 loses that character in the NumPy archive.
- `_display_frame` keeps three rows free below the frame, although its
  comment speaks of two.
- `resize_ascii_frame` raises ZeroDivisionError for a frame that is blank
  once stripped and a negative target width. Its width pass divides by the
  frame width, which is then 0. In the player this exception ends the
  render thread before the frame index advances, and it propagates out of
  `play_simple`.
- `play` and `play_simple` compute `frame_delay = 1.0 / (fps * speed)` once,
  with `fps or target_fps`, so a zero or missing fps falls back to the
  target rate:
  - a speed of 0, or a target rate of 0 with no fps, raises
    ZeroDivisionError before anything is played;
  - a negative delay makes `time.sleep` raise ValueError after the first
    frame is written. In `play` this ends the render thread before the index
    advances. In `play_simple` it propagates, because only
    KeyboardInterrupt is caught.
- The delay is fixed when playback starts, and the render thread is given
  that value. The `+`/`-` keys therefore change the speed shown in the
  status line, not the pace of playback.

## Model

| member | source | states |
|---|---|---|
| TerminalUtils.SizeAlwaysUsable | ascii-animation-player/src/terminal_utils.py:10-44 | the size used always has at least 10 rows. A failing platform query gives (80, 40), and a platform size of 10 rows or more is used as it is. Below 10 rows, tput's size wins when it reports 10 rows or more. Otherwise stty's (rows, columns) pair is used swapped when it reports 10 rows or more. Otherwise the platform columns are kept with 40 rows |
| TerminalUtils.Rows | ascii-animation-player/src/terminal_utils.py:49 | stripping and splitting a frame yields at least one row, and no row contains a newline |
| TerminalUtils.ResizeAsciiFrame | ascii-animation-player/src/terminal_utils.py:47-95 | the loops return exactly `ResizeOutcome`. That is the frame itself when it fits, ZeroDivisionError when the width pass divides by a frame width of 0, and otherwise the rows shrunk in width and then in height, joined with newlines |
| TerminalUtils.BlankFrameHasNoColumns | ascii-animation-player/src/terminal_utils.py:49-53 | a stripped and split frame has width 0 exactly when it is empty once stripped |
| TerminalUtils.ResizeFailsExactly | ascii-animation-player/src/terminal_utils.py:47-95 | resize_ascii_frame raises ZeroDivisionError exactly when the frame is blank once stripped and the target width is negative; otherwise it returns `Resized` |
| TerminalUtils.ResizeFailsExample | ascii-animation-player/src/terminal_utils.py:56-66 | the frame `"  \n "` resized to width -1 raises ZeroDivisionError |
| TerminalUtils.SampleLines | ascii-animation-player/src/terminal_utils.py:69-84 | the width pass maps every row to its sampled row and keeps empty rows empty |
| TerminalUtils.SampleRow | ascii-animation-player/src/terminal_utils.py:75-82 | the character loop builds exactly `targetWidth` characters; character i is the row's character at `i * cw / targetWidth`, or a space past the row's end |
| TerminalUtils.ResizeKeepsFittingFrame | ascii-animation-player/src/terminal_utils.py:55-57 | a frame that already fits is returned as given, without being stripped and without an exception |
| TerminalUtils.ShrinkRowShape | ascii-animation-player/src/terminal_utils.py:60-84 | a non-empty row becomes exactly `targetWidth` characters sampled at positions below the frame width that strictly increase; empty rows stay empty |
| TerminalUtils.ShrinkHeightShape | ascii-animation-player/src/terminal_utils.py:88-93 | with a truthy target height below the row count, exactly that many rows come out, in their original order, and every sampled index is in range (so the range guard never drops a row); otherwise the rows are unchanged |
| TerminalUtils.ResizedRowsFit | ascii-animation-player/src/terminal_utils.py:59-95 | a resized frame has no row wider than the target width and, for a positive target height, no more rows than that height |
| TerminalUtils.RowsOfOneRow | ascii-animation-player/src/terminal_utils.py:49 | a single line with no surrounding whitespace is its own single row |
| TerminalUtils.ShrinkRowExample | ascii-animation-player/src/terminal_utils.py:75-82 | "ABCDEFGHIJ" shrunk from 10 to 5 columns is "ACEGI" |
| TerminalUtils.ResizedRowsExample | ascii-animation-player/src/terminal_utils.py:59-86 | the one-row frame "ABCDEFGHIJ" is 10 wide, and its rows shrunk to 5 columns are ["ACEGI"] |
| TerminalUtils.ResizeExample | ascii-animation-player/src/terminal_utils.py:47-95 | resizing the frame "ABCDEFGHIJ" to width 5 with no height gives "ACEGI" |
| TerminalUtils.CenterHorizontal | ascii-animation-player/src/terminal_utils.py:98-109 | a frame narrower than the terminal gets `(w - fw) / 2` leading spaces on every row; the right margin is then equal to the left or one more; a frame at least as wide is unchanged |
| TerminalUtils.CenterVertical | ascii-animation-player/src/terminal_utils.py:111-116 | with a truthy height above the row count, the same number of blank rows goes above and below, giving h or h - 1 rows; otherwise no rows are added |
| Text.Split | ascii-animation-player/src/terminal_utils.py:49 | `split('\n')` yields at least one piece; no piece contains the separator; joining the pieces gives the text back |
| Text.SplitJoin | ascii-animation-player/src/terminal_utils.py:95 | splitting a join of separator-free rows gives those rows back |
| Text.StripLeft | ascii-animation-player/src/terminal_utils.py:49 | the result is a suffix of the input that does not start with whitespace, and everything removed is whitespace |
| Text.StripRight | ascii-animation-player/src/terminal_utils.py:49 | the result is a prefix of the input that does not end with whitespace, and everything removed is whitespace |
| Text.StripEmptyIffBlank | ascii-animation-player/src/terminal_utils.py:49 | `str.strip()` gives the empty string exactly when every character is whitespace |
| Text.MaxWidth | ascii-animation-player/src/terminal_utils.py:53 | the result bounds every row's length and is attained by some row; it is 0 for no rows |
| Text.Spaces | ascii-animation-player/src/terminal_utils.py:108-109 | `' ' * n` has max(n, 0) characters, all spaces |
| Text.BlankRows | ascii-animation-player/src/terminal_utils.py:113-114 | `[''] * n` has max(n, 0) rows, all empty |
| Text.NatToString | ascii-animation-player/src/player.py:121 | `str(n)` is a non-empty string of decimal digits; it starts with '0' exactly for 0, so it has no leading zero |
| Text.NatToStringValue | ascii-animation-player/src/player.py:121 | reading back the digits of `str(n)` gives n |
| Text.IntToString | ascii-animation-player/src/player.py:121-124 | `str(i)` starts with '-' exactly when i is negative. Every character after the sign is a decimal digit. Those digits denote the absolute value of i and have no leading zero |
| Sampling.SourceIndexInRange | ascii-animation-player/src/terminal_utils.py:76-78 | the sampled source position `i * src / dst` for an output position below dst lies below src |
| Sampling.SourceIndexIncreasing | ascii-animation-player/src/terminal_utils.py:91-93 | when shrinking, later output positions sample strictly later source positions |
| Sampling.ScaledRowInRange | js/ascii-animation.js:144-153 | for each of the `floor(h * dst / src)` rows the web resampler keeps, the source row it samples exists |
| Config.AsciiConfig.constructor | ascii-animation-player/src/config.py:7-51 | a new config holds every declared default |
| Config.AsciiConfig.ApplyTerminalSize | ascii-animation-player/src/config.py:71-79 | only width and height change, to the fitted size; the width is at least 20 and the height at least 10 |
| Config.FittedSize | ascii-animation-player/src/config.py:71-79 | the width is the terminal width less the margin, raised to 20; the height is the terminal height less the margin and 3, raised to 10, or 40 when the terminal reports 10 rows or fewer |
| Config.Truncate | ascii-animation-player/src/config.py:69 | `int(x)` truncates toward zero: within one of x, on the side of zero |
| Config.FrameSkipBounds | ascii-animation-player/src/config.py:65-69 | with a positive target rate the skip is defined and at least 1; for a faster source it is the whole number of target frames per source frame: `skip * target <= source < (skip + 1) * target` |
| Player.KeyStepKeepsRanges | ascii-animation-player/src/player.py:145-159 | the speed keys keep the speed in [0.25, 4.0], and the arrows keep the frame index in [0, total_frames - 1] |
| Player.KeyStepChangesOnlyItsField | ascii-animation-player/src/player.py:140-159 | q/Q quits (and only q/Q does) and stops playing; space toggles playing; each other key changes only its own field; an idle round, an ESC not followed by `[C` or `[D`, and any other key read changes nothing. A key read is never a bare ESC (`WellFormed`), because the source always reads on after one |
| Player.ControlStepEnds | ascii-animation-player/src/player.py:140-162 | a control round ends the loop exactly on q/Q, or when paused at or past the last frame |
| Player.RunControlsKeepsSpeed | ascii-animation-player/src/player.py:134-162 | under any key sequence, a speed in [0.25, 4.0] stays there, and the loop runs at most one round per key |
| Player.RepeatedSpeedUp | ascii-animation-player/src/player.py:145-146 | n presses of '+' while playing raise the speed by 0.25 each, saturating at 4.0, and the loop does not end. This is the speed the status line shows; the delay the render thread uses was fixed when playback started |
| Player.AsciiPlayer.HandleKey | ascii-animation-player/src/player.py:137-162 | one round changes the player exactly as `ControlStep` says and reports whether the loop ends |
| Player.AsciiPlayer.HandleControls | ascii-animation-player/src/player.py:134-162 | the loop leaves the player in the state `RunControls` gives and runs that many rounds |
| Player.AsciiPlayer.constructor | ascii-animation-player/src/player.py:21-28 | a default config when none is given; stopped at frame 0; auto-resize on and centring off; the size the probe reports |
| Player.FrameDelay | ascii-animation-player/src/player.py:37-38 | the delay is missing (ZeroDivisionError) exactly when the effective rate or the speed is 0. Otherwise, times the rate times the speed it gives 1, and it is negative exactly when that product is |
| Player.EffectiveFps | ascii-animation-player/src/player.py:37 | `fps or target_fps`: a given non-zero fps is used, and a missing or zero one falls back to the target rate |
| Player.ZeroSpeedHasNoDelay | ascii-animation-player/src/player.py:37-38 | a speed of 0 raises ZeroDivisionError whatever the frame rate |
| Player.DefaultSpeedDelay | ascii-animation-player/src/player.py:37-38 | at speed 1 and a positive fps the delay is 1/fps and positive |
| Player.AsciiPlayer.Play | ascii-animation-player/src/player.py:31-38 | only is_playing, current_frame and total_frames change: to playing, 0 and the frame count. The delay handed to the render thread is `FrameDelay` of the fps, the target rate and the speed, or nothing when that division raises |
| Player.AsciiPlayer.Tick | ascii-animation-player/src/player.py:66-114 | one pass of the render loop changes the state as `TickStep` says. It restarts or stops at the end and re-reads the size. Then it raises IndexError on a bad index, or raises ZeroDivisionError in the resize. Otherwise it writes the frame and then raises ValueError in the sleep for a negative delay, or advances. The text written is the frame's displayed form |
| Player.AsciiPlayer.FinishTick | ascii-animation-player/src/player.py:78-82 | after the lookup: the display raises exactly in the `DisplayFails` case; otherwise the frame's displayed text is written, then a negative delay raises in the sleep with the index unchanged, and any other delay advances the index |
| Player.AsciiPlayer.StartTick | ascii-animation-player/src/player.py:66-78 | the pass up to the frame lookup changes the state as `TickStart` says: restart or stop at the end, re-read the size, then hand over the current frame or raise IndexError |
| Player.AsciiPlayer.PlaybackLoop | ascii-animation-player/src/player.py:64-82 | the loop over successive size probes ends in the state `RunTicks` gives; it shows those frames in order and writes each one's displayed text, including the frame written before a sleep error |
| Player.PlaysRemainingFramesInOrder | ascii-animation-player/src/player.py:64-82 | without looping, with no key pressed, a non-negative delay and a terminal reporting a non-negative width, frames c..n-1 are shown in order (each with its tick's size); then the loop exits, not playing, at index n |
| Player.LoopRestarts | ascii-animation-player/src/player.py:67-82 | with looping (and a non-negative delay and width), the tick after the last frame shows frame 0 again and leaves the index at 1 |
| Player.PauseEndsRenderLoop | ascii-animation-player/src/player.py:66 | a paused player's render loop exits and changes nothing |
| Player.EmptyLoopFails | ascii-animation-player/src/player.py:67-78 | looping over no frames raises IndexError at `frames[0]` |
| Player.DisplayFrame | ascii-animation-player/src/player.py:84-100 | the frame written is the frame resized to the terminal less three rows when auto-resize is on, then centred within the same bounds when centring is on; the resize's ZeroDivisionError passes through |
| Player.FitFrame | ascii-animation-player/src/player.py:92-96 | the frame is resized to the given width and height when auto-resize is on, with the resize's exception; unchanged otherwise |
| Player.DisplayFailsExactly | ascii-animation-player/src/player.py:92-96 | _display_frame raises exactly when auto-resize is on, the width is negative and the frame is blank once stripped |
| Player.ResizeErrorEndsRenderLoop | ascii-animation-player/src/player.py:66-82 | on a valid index, a tick raises ZeroDivisionError exactly when auto-resize is on, the width is negative and the frame is blank. The state then has only the new size and the index does not advance. With a non-negative delay, any other tick shows the frame and advances |
| Player.NegativeDelayEndsRenderLoop | ascii-animation-player/src/player.py:78-82 | with a negative delay, a tick on a valid index whose display does not raise writes the frame and ends in the sleep's ValueError, with only the new size in the state and the index not advanced |
| Player.NegativeDelayShowsNothing | ascii-animation-player/src/player.py:64-82 | with a negative delay the render loop completes no frame: it ends at its first tick, with that tick's result |
| Player.StatusLineStartsWithCounter | ascii-animation-player/src/player.py:116-121 | the status line begins with "[Frame k+1/n] " |
| Player.StatusLineLegend | ascii-animation-player/src/player.py:126-132 | the short legend replaces the 73-character full legend exactly when both would not fit the terminal width |
| Player.AsciiPlayer.PlaySimple | ascii-animation-player/src/player.py:168-199 | with no frames nothing is printed. Otherwise the k-th print is frame k mod n, transformed for the k-th probe. Without an exception, exactly one frame is printed per size probe until the interrupt when looping, and at most one pass otherwise. The delay raises ZeroDivisionError, before anything is printed, exactly when `FrameDelay` is missing. A resize that raises stops play_simple at that frame. The sleep raises ValueError exactly when the delay is negative and the first frame prints, and then only that frame was printed. The terminal size fields end as the last probe read gives them: the probe of the print that raised in the resize, or else that of the last frame printed. They are unchanged when no probe was read (the delay raised, or there were no frames or no probes) |
| Player.AsciiPlayer.PlayPass | ascii-animation-player/src/player.py:176-190 | one pass prints the next frames in order until the frames or the probes run out. It stops at the first frame whose resize raises, or, with a negative delay, at the sleep after its first print. It keeps the printed-in-order invariant. It leaves the terminal size fields at the size of the last probe it read |
| Player.AsciiPlayer.PrintNext | ascii-animation-player/src/player.py:177-190 | one iteration raises in the resize, printing nothing, exactly when `NextPrintFails`. Otherwise it prints frame i resized to the terminal less two rows and keeps the printed-in-order invariant, and the sleep after it raises ValueError exactly when the delay is negative. In every case the terminal size fields become the size of probe `|before|`, which is read first |
| Player.PrintedSnoc | ascii-animation-player/src/player.py:176-187 | printing the next frame, transformed for the next probe, extends a correct printed prefix |
| Storage.DocumentShape | ascii-animation-player/src/storage.py:19-34 | the saved document keeps frames and config and is version "1.0"; its metadata holds the caller's keys plus frame_count, fps and dimensions, with those three overwritten and every other key kept |
| Storage.SaveOutcomeCases | ascii-animation-player/src/storage.py:36-112 | save fails exactly on a storage format other than pickle, json and npz; pickle and JSON write to the path plus "", ".gz", ".xz" or ".bz2", and nothing under any other compression; npz ignores the compression and writes to the path with ".npz" ensured |
| Storage.NpzPath | ascii-animation-player/src/storage.py:106-112 | the archive path always ends in ".npz" |
| Storage.AsciiStorage.constructor | ascii-animation-player/src/storage.py:16-17 | the storage keeps the config it is given |
| Storage.AsciiStorage.Save | ascii-animation-player/src/storage.py:19-44 | the disk gains exactly the file `SaveOutcome` names, or the format error is returned; a non-empty caller metadata mapping is updated in place even when the format is rejected; an empty one is left alone |
| Storage.LoadAsSerialized | ascii-animation-player/src/storage.py:46-65 | for a classified suffix and a chosen opener, a pickle or JSON file loads exactly when it was written with that opener and the suffix lets load try its format; it then reads back as that format returns it |
| Storage.LoadSerialized | ascii-animation-player/src/storage.py:46-144 | a pickle or JSON file loads exactly when the path's ending selects its opener and its suffix admits its format; it then reads back as that format returns it |
| Storage.LoadArchive | ascii-animation-player/src/storage.py:46-158 | an archive loads exactly when the suffix is .npz or unknown and its frames decode; the mappings then read back as JSON returns them |
| Storage.LoadMissing | ascii-animation-player/src/storage.py:46-65 | a missing file fails to load, whatever its suffix |
| Storage.SuffixAfterExtension | ascii-animation-player/src/storage.py:48-51 | appending ".gz", ".xz", ".bz2" or ".npz" makes that extension the path's suffix, or leaves it with none |
| Storage.OpenerOfExtension | ascii-animation-player/src/storage.py:114-141 | a compressor's extension makes the readers open the file with that compressor |
| Storage.CompressedSaveLoads | ascii-animation-player/src/storage.py:67-144 | every compressed pickle or JSON save loads back from the path it was written to, through the cascade |
| Storage.PlainSaveLoads | ascii-animation-player/src/storage.py:67-144 | an uncompressed pickle or JSON save loads back exactly when the path ends in no compressor's extension and its suffix admits the format |
| Storage.JsonValueIdempotent | ascii-animation-player/src/storage.py:84-144 | reading JSON back twice gives what reading it once gives |
| Storage.JsonValueKeepsTupleFree | ascii-animation-player/src/storage.py:84-144 | a value reads back from JSON unchanged exactly when it holds no tuple |
| Storage.ArchiveFramesRoundTrip | ascii-animation-player/src/storage.py:99-158 | the archived frames decode back to the saved ones exactly when no frame ends in U+0000 |
| Storage.NpzPathIsTried | ascii-animation-player/src/storage.py:51-65 | load tries the NumPy reader on every path the archive is written to |
| Storage.NpzSaveLoads | ascii-animation-player/src/storage.py:99-158 | an archive save loads back from its path whatever the compression: the frames intact (when none ends in U+0000), the mappings as JSON reads them back |
| Utf8.EncodeChar | ascii-animation-player/src/storage.py:103 | a character takes one to four bytes, every byte after the first is a continuation byte, and the last byte is zero exactly for U+0000 |
| Utf8.Encode | ascii-animation-player/src/storage.py:103 | the encoding is at least as long as the text and is empty exactly for empty text |
| Utf8.DecodeChar | ascii-animation-player/src/storage.py:151 | a decoded character takes between 1 and 4 of the available bytes |
| Utf8.DecodeEncodeChar | ascii-animation-player/src/storage.py:151 | an encoded character decodes back, whatever follows it |
| Utf8.DecodeEncode | ascii-animation-player/src/storage.py:103-151 | decoding undoes encoding |
| Utf8.EncodeDecodeChar | ascii-animation-player/src/storage.py:151 | a well-formed sequence is the encoding of the character it decodes to |
| Utf8.EncodeDecode | ascii-animation-player/src/storage.py:103-151 | encoding undoes strict decoding: only the canonical encoding of a string decodes to it |
| Utf8.StripTrailingNul | ascii-animation-player/src/storage.py:148-151 | the archive drops exactly the trailing zero bytes: the result is a prefix, does not end in zero, and everything removed is zero |
| Utf8.ArchivedFrameRoundTrip | ascii-animation-player/src/storage.py:99-158 | a frame survives encode, store, strip and decode exactly when it does not end in U+0000 |
| WebPlayer.ResizeFrame | js/ascii-animation.js:126-169 | the nested loops return exactly `WebResized`: the frame itself when it fits the available width, otherwise the resampled lines joined with newlines |
| WebPlayer.ResizeLine | js/ascii-animation.js:154-164 | the inner loop builds exactly the available width's characters, character x being the line's character at `x * fw / w`, or a space past its end |
| WebPlayer.WebResizeKeepsFittingFrame | js/ascii-animation.js:138-141 | a frame whose longest line fits is returned as given |
| WebPlayer.WebRowsSplitBack | js/ascii-animation.js:164-168 | splitting the joined resampled lines gives them back |
| WebPlayer.WebResizeLines | js/ascii-animation.js:143-168 | a frame too wide for a positive available width is shown as exactly the resampled lines |
| WebPlayer.WebRowsShape | js/ascii-animation.js:143-166 | the output keeps `floor(h * w / fw)` lines, so both axes use the same scale; each line is exactly w characters; character (y, x) comes from source character (y * fw / w, x * fw / w), or is a space, and that source line exists |
| WebPlayer.WebResizedFits | js/ascii-animation.js:126-169 | after resizing, no line is wider than the available width, and there is nothing at all when that width is not positive |
| WebPlayer.WebResizeIdempotent | js/ascii-animation.js:126-169 | resizing a resized frame for the same container changes nothing more |
| WebPlayer.LoopTick | js/ascii-animation.js:88-111 | one tick of a looping, playing animation shows the current frame when the interval has elapsed, advances wrapping to 0, and keeps the chain going |
| WebPlayer.LoopingPlaysForever | js/ascii-animation.js:88-111 | with loop on, a playing animation keeps going through every tick, and the current frame ends at (c + elapsed ticks) mod n |
| WebPlayer.LoopShownAt | js/ascii-animation.js:88-111 | with loop on, tick k shows frame (c + elapsed ticks before k) mod n when its interval has elapsed, and nothing otherwise |
| WebPlayer.LoopingPlaysCyclically | js/ascii-animation.js:88-111 | with loop on, every tick shows the frames cycling in order (tick k as in `LoopShownAt`) |
| WebPlayer.SinglePassStops | js/ascii-animation.js:88-111 | with loop off and every interval elapsed, frames c, c+1, ... up to the last are shown in order; then it pauses with currentFrame == frames.length, and with fewer ticks it is still playing |
| WebPlayer.ReplayAfterPass | js/ascii-animation.js:67-124 | playing again after a finished pass without stop() reads past the last frame: with autoResize it throws and stays marked as playing; without autoResize `undefined` is shown and the player pauses one index further |
| WebPlayer.PausedRunIsIdle | js/ascii-animation.js:88-89 | a paused animation ignores every tick and the chain stops |
| WebPlayer.ShowFrame | js/ascii-animation.js:113-124 | displayFrame does nothing without frames and fails on an index past the end; otherwise it shows the current frame, resized when autoResize is on |
| WebPlayer.AnimationPlayer.constructor | js/ascii-animation.js:7-25 | both options default to true, with no frames, frame 0 and not playing |
| WebPlayer.AnimationPlayer.DisplayFrame | js/ascii-animation.js:113-124 | what the page shows is `Shown` of the player's state, with the text resized when autoResize is on |
| WebPlayer.AnimationPlayer.Pause | js/ascii-animation.js:75-80 | the player is no longer playing, and nothing else changes |
| WebPlayer.AnimationPlayer.Animate | js/ascii-animation.js:88-111 | one call changes the player and the page exactly as `AnimateStep` says |
| WebPlayer.AnimationPlayer.Play | js/ascii-animation.js:67-73 | play does nothing without frames; otherwise it sets playing and animates once, as `PlayStep` says |
| WebPlayer.AnimationPlayer.Stop | js/ascii-animation.js:82-86 | the player pauses at frame 0 and shows frame 0, or nothing when there are no frames |
| WebPlayer.AnimationPlayer.LoadAnimation | js/ascii-animation.js:44-65 | a failed fetch shows the failure message and changes nothing; otherwise it replaces the frames, goes back to frame 0, shows it and plays |

## Left out

- Threads, timing and the terminal: the two loops of interactive playback
  run concurrently over one object. The model runs each loop on its own
  over a finite input sequence, and does not model their interleaving. It
  also leaves out the wait in `time.sleep` (only its ValueError for a
  negative delay is modelled), the `select` poll timeout, raw mode, the
  cursor and clear-screen escape sequences, colour codes and stdout.
- Frame delay: `Player.FrameDelay` computes `1.0 / (fps * speed)` in exact
  reals. A floating-point product that underflows to zero, or a quotient
  that overflows, is not modelled.
- Floating point: sample positions are idealised as exact integer
  division.
  - Python: `int(i / (target_width / current_width))` is modelled as
    `i * current_width / target_width`.
  - JavaScript: `Math.floor(x / scale)` and `Math.floor(frameWidth * scale)`
    are modelled as `x * frameWidth / availableWidth` and `availableWidth`.
  - Rounding in the floating-point forms can differ by one at exact
    multiples.
  - `playback_speed` is a Dafny `real`, so every speed step is exact.
    In binary floating point this holds only from a speed that is a
    binary fraction. `--speed` accepts any float, and 0.1 + 0.25 gives
    0.35000000000000003 in floating point but 0.35 in the model.
  - `get_frame_skip`: `int(source_fps / target_fps)` is modelled with exact
    real division (`Config.FrameSkip`). Floating-point rounding of the
    quotient just below a whole number is not modelled.
- `Player.StatusLineLegend`: the speed's text in the status line is a
  parameter. Python's `repr` of a float is not modelled.
- `Player.AsciiPlayer.PlaySimple`: the interrupt is modelled as the end of
  the size-probe sequence. With looping on and no frames, `play_simple`
  spins forever until interrupted; the model returns at once with nothing
  printed. The per-frame status print and the "Playback interrupted." line
  are output only.
- `Player.AsciiPlayer.Tick`: the status line `_show_status` writes after
  each frame is not part of the text a tick writes. `Player.StatusLine`
  models it on its own, from the state before the index advances.
- Serializers: pickle and JSON are not modelled byte for byte. A stored
  file records its format, its opener and the document. A reader fails on
  a file of another format or behind another compressor.
  - JSON is modelled only by what it changes (tuples become lists).
  - gzip, lzma and bz2 are modelled only by which opener a file needs.
  - `pathlib` normalisation of paths (repeated or trailing slashes) is not
    modelled.
- NumPy: `savez_compressed` and `np.load` are modelled by the behaviour
  the code relies on. It appends ".npz", stores the frames as fixed-width
  byte strings (dropping trailing zero bytes on reading) and stores the
  mappings as JSON text. Array dtypes and the zip container are not
  modelled.
- `Config.AsciiConfig.AsDict`: `self.__dict__` is a plain mapping of
  every field under its Python name, with no contract of its own.
  `from_yaml` and `to_yaml` are file I/O and are not modelled.
- `get_frame_skip`: the ZeroDivisionError for a zero target rate is
  modelled as None.
- `loadAnimation`: `fetch` and `response.json()` are modelled as the
  parsed `frames` array, or None when either fails. The `fps` field, a
  JSON without `frames`, and the logging are not modelled. When
  loadAnimation is called while an animation chain is already running, a
  second chain starts; the model runs one chain.
- The browser player's `fps`, `performance.now()` and `lastFrameTime`:
  whether a frame interval has elapsed is a parameter of each tick.
  Setting `textContent` to `undefined` is modelled as `ShowsUndefined`,
  without how the DOM renders it.
- JavaScript string lengths count UTF-16 code units. The model counts
  characters, so frames with characters outside the Basic Multilingual
  Plane are measured differently.
- Not part of this model: `preview_frame`, `wrap_text`, the cursor and
  clear-screen helpers, `get_file_size_mb`, `main.py`, and the DOM parts
  of the browser player (`init`, `handleResize`, `destroy`, the resize
  listener).
