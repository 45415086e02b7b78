/**
  Terminal size detection, frame resizing and frame centring
  (ascii-animation-player/src/terminal_utils.py).

  A frame is text whose rows are separated by '\n'. Both transforms first
  strip surrounding whitespace from the whole frame and split it into rows.
*/
module TerminalUtils {
  import opened Wrappers
  import opened Text
  import opened Sampling

  // ---------------------------------------------------------------- size probe

  datatype Size = Size(columns: int, lines: int)

  /**
    What the three size queries report. `primary` is the platform query
    (None when it raises); `tput` is `tput cols` and `tput lines` (None when
    either command or its integer parse fails); `stty` is the output of
    `stty size` in its own order, (rows, columns) (None when the command fails,
    its output is not exactly two fields, or a field is not an integer).
  */
  datatype Probes = Probes(primary: Option<Size>, tput: Option<Size>, stty: Option<(int, int)>)

  /**
    get_terminal_size: the platform size when it reports at least 10 rows;
    otherwise the first alternate reporting at least 10 rows (stty's pair
    swapped into (columns, rows)); otherwise the platform columns with 40
    rows; (80, 40) when the platform query itself fails.
  */
  function GetTerminalSize(p: Probes): (r: Size)
    ensures r.lines >= 10
  {
    match p.primary
    case None => Size(80, 40)
    case Some(size) =>
      if size.lines < 10 then
        if p.tput.Some? && p.tput.value.lines >= 10 then p.tput.value
        else if p.stty.Some? && p.stty.value.0 >= 10 then
          var (lines, cols) := p.stty.value;
          Size(cols, lines)
        else Size(size.columns, 40)
      else size
  }

  /**
    Whatever the probes report, the size used has at least 10 rows and its
    columns come from a probe or the default 80. A platform size of at least
    10 rows is used as it is, and a failing platform query gives (80, 40).
    Below 10 platform rows, tput is asked first, then stty (whose pair is
    swapped into columns and rows), and when neither reports 10 rows the
    platform columns are kept with 40 rows.
  */
  lemma SizeAlwaysUsable(p: Probes)
    ensures GetTerminalSize(p).lines >= 10
    ensures p.primary.None? ==> GetTerminalSize(p) == Size(80, 40)
    ensures p.primary.Some? && p.primary.value.lines >= 10 ==> GetTerminalSize(p) == p.primary.value
    ensures p.primary.Some? && p.primary.value.lines < 10 && p.tput.Some? && p.tput.value.lines >= 10 ==>
      GetTerminalSize(p) == p.tput.value
    ensures (p.primary.Some? && p.primary.value.lines < 10 && !(p.tput.Some? && p.tput.value.lines >= 10)
             && p.stty.Some? && p.stty.value.0 >= 10) ==>
      GetTerminalSize(p) == Size(p.stty.value.1, p.stty.value.0)
    ensures (p.primary.Some? && p.primary.value.lines < 10 && !(p.tput.Some? && p.tput.value.lines >= 10)
             && !(p.stty.Some? && p.stty.value.0 >= 10)) ==>
      GetTerminalSize(p) == Size(p.primary.value.columns, 40)
    ensures var c := GetTerminalSize(p).columns;
      c == 80
      || (p.primary.Some? && c == p.primary.value.columns)
      || (p.tput.Some? && c == p.tput.value.columns)
      || (p.stty.Some? && c == p.stty.value.1)
  {
  }

  // ---------------------------------------------------------------- frame rows

  /** `frame.strip().split('\n')`: never empty, as `split` always yields a piece. */
  function Rows(frame: string): (rows: seq<string>)
    ensures |rows| >= 1
    ensures forall k :: 0 <= k < |rows| ==> '\n' !in rows[k]
  {
    Split(Strip(frame), '\n')
  }

  /** Python truthiness of an optional height: None and 0 are false. */
  predicate Truthy(h: Option<int>)
  {
    h.Some? && h.value != 0
  }

  // ---------------------------------------------------------------- resize

  /** The character at source position `col`, or a space past the row's end. */
  function SampleChar(row: string, col: nat): char
  {
    if col < |row| then row[col] else ' '
  }

  /** One row shrunk horizontally: empty rows stay empty, others become `targetWidth` sampled characters. */
  function ShrinkRow(row: string, targetWidth: int, currentWidth: nat): string
  {
    if row == "" then ""
    else seq(if targetWidth > 0 then targetWidth else 0,
             i requires 0 <= i < targetWidth => SampleChar(row, SourceIndex(i, currentWidth, targetWidth)))
  }

  function ShrinkWidth(rows: seq<string>, targetWidth: int, currentWidth: nat): (r: seq<string>)
    ensures |r| == |rows|
  {
    seq(|rows|, k requires 0 <= k < |rows| => ShrinkRow(rows[k], targetWidth, currentWidth))
  }

  /** The height pass: with a truthy target below the row count, row j becomes source row `j * n / targetHeight`. */
  function ShrinkHeight(rows: seq<string>, targetHeight: Option<int>): seq<string>
  {
    if Truthy(targetHeight) && |rows| > targetHeight.value then
      var t := targetHeight.value;
      seq(if t > 0 then t else 0,
          j requires 0 <= j < t =>
            SourceIndexInRange(j, |rows|, t);
            rows[SourceIndex(j, |rows|, t)])
    else rows
  }

  /** The early-return test of resize_ascii_frame. */
  predicate Fits(rows: seq<string>, targetWidth: int, targetHeight: Option<int>)
  {
    MaxWidth(rows) <= targetWidth && (targetHeight.None? || |rows| <= targetHeight.value)
  }

  /** The rows resize_ascii_frame joins when the frame does not fit. */
  function ResizedRows(rows: seq<string>, targetWidth: int, targetHeight: Option<int>): seq<string>
  {
    var currentWidth := MaxWidth(rows);
    ShrinkHeight(if currentWidth > targetWidth then ShrinkWidth(rows, targetWidth, currentWidth) else rows,
                 targetHeight)
  }

  /** resize_ascii_frame, as a value: the ORIGINAL text when it fits, the resampled rows joined otherwise. */
  function Resized(frame: string, targetWidth: int, targetHeight: Option<int>): string
  {
    var rows := Rows(frame);
    if Fits(rows, targetWidth, targetHeight) then frame
    else Join(ResizedRows(rows, targetWidth, targetHeight), '\n')
  }

  /** The exception resize_ascii_frame can raise. */
  datatype ResizeError = ZeroDivisionError

  /**
    The case in which resize_ascii_frame raises: a frame that does not fit
    reaches the width pass, whose scale factor divides the target width by
    the frame width, and that width is 0.
  */
  predicate ResizeFails(frame: string, targetWidth: int, targetHeight: Option<int>)
  {
    var rows := Rows(frame);
    !Fits(rows, targetWidth, targetHeight) && MaxWidth(rows) > targetWidth && MaxWidth(rows) == 0
  }

  /** resize_ascii_frame with its exception: `Resized` unless the width pass divides by zero. */
  function ResizeOutcome(frame: string, targetWidth: int, targetHeight: Option<int>): Result<string, ResizeError>
  {
    if ResizeFails(frame, targetWidth, targetHeight) then Err(ZeroDivisionError)
    else Ok(Resized(frame, targetWidth, targetHeight))
  }

  /** A stripped frame has no columns exactly when it is empty. */
  lemma BlankFrameHasNoColumns(frame: string)
    ensures MaxWidth(Rows(frame)) == 0 <==> Strip(frame) == ""
  {
    var t := Strip(frame);
    var rows := Rows(frame);
    if t != "" {
      assert t[0] == StripLeft(frame)[0];
      assert !IsSpace(t[0]);
      if |rows| == 1 {
        assert rows[0] == t;
      } else {
        assert Join(rows, '\n') == rows[0] + ['\n'] + Join(rows[1..], '\n');
        var head := rows[0] + ['\n'];
        assert t[0] == head[0];
      }
      assert |rows[0]| > 0;
    }
  }

  /**
    resize_ascii_frame raises ZeroDivisionError exactly when the frame is
    blank once stripped and the target width is negative; otherwise it
    returns `Resized`.
  */
  lemma ResizeFailsExactly(frame: string, targetWidth: int, targetHeight: Option<int>)
    ensures ResizeOutcome(frame, targetWidth, targetHeight).Err? <==> Strip(frame) == "" && targetWidth < 0
    ensures ResizeOutcome(frame, targetWidth, targetHeight).Ok? ==>
      ResizeOutcome(frame, targetWidth, targetHeight).value == Resized(frame, targetWidth, targetHeight)
  {
    BlankFrameHasNoColumns(frame);
  }

  /** A whitespace-only frame resized to a negative width reaches the division by zero. */
  lemma ResizeFailsExample()
    ensures ResizeOutcome("  \n ", -1, None) == Err(ZeroDivisionError)
  {
    var f := "  \n ";
    assert f[1..] == " \n " && f[2..] == "\n " && f[3..] == " " && f[4..] == "";
    assert StripLeft(f[3..]) == "";
    assert StripLeft(f[2..]) == "";
    assert StripLeft(f) == "";
    ResizeFailsExactly(f, -1, None);
  }

  /** The inner loop of the width pass: one non-empty row sampled character by character. */
  method SampleRow(line: string, targetWidth: int, currentWidth: nat) returns (sampledChars: string)
    requires line != ""
    ensures sampledChars == ShrinkRow(line, targetWidth, currentWidth)
  {
    sampledChars := [];
    var i := 0;
    while i < targetWidth
      invariant 0 <= i <= (if targetWidth > 0 then targetWidth else 0)
      invariant |sampledChars| == i
      invariant forall c :: 0 <= c < i ==> sampledChars[c] == SampleChar(line, SourceIndex(c, currentWidth, targetWidth))
    {
      var sourceIndex := i * currentWidth / targetWidth;
      assert sourceIndex == SourceIndex(i, currentWidth, targetWidth);
      if sourceIndex < |line| {
        sampledChars := sampledChars + [line[sourceIndex]];
      } else {
        sampledChars := sampledChars + [' '];
      }
      i := i + 1;
    }
  }

  /** The outer loop of the width pass: every row sampled, empty rows kept empty. */
  method SampleLines(lines: seq<string>, targetWidth: int, currentWidth: nat) returns (sampledLines: seq<string>)
    ensures sampledLines == ShrinkWidth(lines, targetWidth, currentWidth)
  {
    sampledLines := [];
    var k := 0;
    while k < |lines|
      invariant 0 <= k <= |lines|
      invariant |sampledLines| == k
      invariant forall j :: 0 <= j < k ==> sampledLines[j] == ShrinkRow(lines[j], targetWidth, currentWidth)
    {
      var line := lines[k];
      if line == "" {
        sampledLines := sampledLines + [""];
      } else {
        var sampledChars := SampleRow(line, targetWidth, currentWidth);
        sampledLines := sampledLines + [sampledChars];
      }
      k := k + 1;
    }
  }

  /**
    resize_ascii_frame. The width pass builds the rows one by one; the
    height pass samples whole rows.
  */
  method ResizeAsciiFrame(frame: string, targetWidth: int, targetHeight: Option<int>) returns (r: Result<string, ResizeError>)
    ensures r == ResizeOutcome(frame, targetWidth, targetHeight)
  {
    var lines := Rows(frame);
    var currentHeight := |lines|;
    var currentWidth := MaxWidth(lines);
    if currentWidth <= targetWidth && (targetHeight.None? || currentHeight <= targetHeight.value) {
      return Ok(frame);
    }
    var resizedLines := lines;
    if currentWidth > targetWidth {
      if currentWidth == 0 {
        return Err(ZeroDivisionError);
      }
      resizedLines := SampleLines(lines, targetWidth, currentWidth);
    }
    r := Ok(Join(ShrinkHeight(resizedLines, targetHeight), '\n'));
  }

  /**
    Horizontal shrink: every non-empty row becomes exactly `targetWidth`
    characters, character i being the row's character at `i * cw / targetWidth`
    (a space past the row's end); those positions lie below `cw` and strictly
    increase; empty rows stay empty.
  */
  lemma ShrinkRowShape(row: string, targetWidth: int, cw: nat)
    requires 0 < targetWidth < cw
    ensures row == "" ==> ShrinkRow(row, targetWidth, cw) == ""
    ensures row != "" ==> |ShrinkRow(row, targetWidth, cw)| == targetWidth
    ensures row != "" ==> forall i :: 0 <= i < targetWidth ==>
      SourceIndex(i, cw, targetWidth) < cw
      && ShrinkRow(row, targetWidth, cw)[i] == (if SourceIndex(i, cw, targetWidth) < |row| then row[SourceIndex(i, cw, targetWidth)] else ' ')
    ensures forall i, j :: 0 <= i < j < targetWidth ==> SourceIndex(i, cw, targetWidth) < SourceIndex(j, cw, targetWidth)
  {
    forall i | 0 <= i < targetWidth ensures SourceIndex(i, cw, targetWidth) < cw {
      SourceIndexInRange(i, cw, targetWidth);
    }
    forall i, j | 0 <= i < j < targetWidth ensures SourceIndex(i, cw, targetWidth) < SourceIndex(j, cw, targetWidth) {
      SourceIndexIncreasing(i, j, cw, targetWidth);
    }
  }

  /**
    Vertical shrink: with a truthy target height below the row count n the
    result has exactly that many rows, row j being source row `j * n / t`,
    and the chosen rows are distinct and in their original order (so the
    range guard of the source always holds); with None, 0, or a target not
    below n the rows are unchanged.
  */
  lemma ShrinkHeightShape(rows: seq<string>, targetHeight: Option<int>)
    ensures !(Truthy(targetHeight) && |rows| > targetHeight.value) ==> ShrinkHeight(rows, targetHeight) == rows
    ensures Truthy(targetHeight) && 0 < targetHeight.value < |rows| ==>
      var t := targetHeight.value;
      var out := ShrinkHeight(rows, targetHeight);
      |out| == t
      && (forall j :: 0 <= j < t ==> SourceIndex(j, |rows|, t) < |rows| && out[j] == rows[SourceIndex(j, |rows|, t)])
      && (forall i, j :: 0 <= i < j < t ==> SourceIndex(i, |rows|, t) < SourceIndex(j, |rows|, t))
  {
    if Truthy(targetHeight) && 0 < targetHeight.value < |rows| {
      var t := targetHeight.value;
      forall j | 0 <= j < t ensures SourceIndex(j, |rows|, t) < |rows| {
        SourceIndexInRange(j, |rows|, t);
      }
      forall i, j | 0 <= i < j < t ensures SourceIndex(i, |rows|, t) < SourceIndex(j, |rows|, t) {
        SourceIndexIncreasing(i, j, |rows|, t);
      }
    }
  }

  /**
    What resizing achieves: a frame that does not fit is replaced by rows no
    wider than the target width (for a non-negative target) and, for a positive
    target height, no more rows than that height.
  */
  lemma {:induction false} ResizedRowsFit(rows: seq<string>, targetWidth: int, targetHeight: Option<int>)
    requires targetWidth >= 0
    ensures forall k :: 0 <= k < |ResizedRows(rows, targetWidth, targetHeight)| ==>
      |ResizedRows(rows, targetWidth, targetHeight)[k]| <= targetWidth
    ensures targetHeight.Some? && targetHeight.value > 0 ==>
      |ResizedRows(rows, targetWidth, targetHeight)| <= targetHeight.value
  {
    var cw := MaxWidth(rows);
    var wide := if cw > targetWidth then ShrinkWidth(rows, targetWidth, cw) else rows;
    assert forall k :: 0 <= k < |wide| ==> |wide[k]| <= targetWidth by {
      forall k | 0 <= k < |wide| ensures |wide[k]| <= targetWidth {
        if cw > targetWidth {
          assert wide[k] == ShrinkRow(rows[k], targetWidth, cw);
        }
      }
    }
    var out := ShrinkHeight(wide, targetHeight);
    if Truthy(targetHeight) && |wide| > targetHeight.value {
      var t := targetHeight.value;
      forall j | 0 <= j < |out| ensures |out[j]| <= targetWidth {
        SourceIndexInRange(j, |wide|, t);
        assert out[j] == wide[SourceIndex(j, |wide|, t)];
      }
    }
  }

  /** A frame already within the target is returned as given, unstripped. */
  lemma ResizeKeepsFittingFrame(frame: string, targetWidth: int, targetHeight: Option<int>)
    requires MaxWidth(Rows(frame)) <= targetWidth
    requires targetHeight.None? || |Rows(frame)| <= targetHeight.value
    ensures ResizeOutcome(frame, targetWidth, targetHeight) == Ok(frame)
  {
  }

  /** A one-row frame with no surrounding whitespace is its own single row. */
  lemma RowsOfOneRow(f: string)
    requires f != [] && !IsSpace(f[0]) && !IsSpace(f[|f| - 1])
    requires forall i :: 0 <= i < |f| ==> f[i] != '\n'
    ensures Rows(f) == [f]
  {
    assert StripLeft(f) == f;
    assert StripRight(f) == f;
    SplitJoin([f], '\n');
  }

  /** Ten columns shrunk to five keep every other character: positions 0, 2, 4, 6 and 8. */
  lemma ShrinkRowExample()
    ensures ShrinkRow("ABCDEFGHIJ", 5, 10) == "ACEGI"
  {
    var row := ShrinkRow("ABCDEFGHIJ", 5, 10);
    assert |row| == 5;
    assert row[0] == 'A' && row[1] == 'C' && row[2] == 'E' && row[3] == 'G' && row[4] == 'I';
  }

  /** The rows of the one-row frame below, shrunk from ten columns to five. */
  lemma ResizedRowsExample()
    ensures MaxWidth(["ABCDEFGHIJ"]) == 10
    ensures ResizedRows(["ABCDEFGHIJ"], 5, None) == ["ACEGI"]
  {
    var f := "ABCDEFGHIJ";
    assert MaxWidth([f]) == 10;
    ShrinkRowExample();
    assert ShrinkWidth([f], 5, 10) == ["ACEGI"];
  }

  /** The same on a whole one-row frame with no height target. */
  lemma ResizeExample()
    ensures ResizeOutcome("ABCDEFGHIJ", 5, None) == Ok("ACEGI")
  {
    var f := "ABCDEFGHIJ";
    assert !IsSpace(f[0]) && !IsSpace(f[9]);
    assert forall i :: 0 <= i < |f| ==> f[i] != '\n';
    RowsOfOneRow(f);
    ResizedRowsExample();
  }

  // ---------------------------------------------------------------- centre

  /** The rows center_frame joins. */
  function CenteredRows(rows: seq<string>, terminalWidth: int, terminalHeight: Option<int>): seq<string>
  {
    var frameWidth := MaxWidth(rows);
    var frameHeight := |rows|;
    var padded :=
      if frameWidth < terminalWidth then
        seq(|rows|, k requires 0 <= k < |rows| => Spaces((terminalWidth - frameWidth) / 2) + rows[k])
      else rows;
    if Truthy(terminalHeight) && frameHeight < terminalHeight.value then
      var verticalPadding := (terminalHeight.value - frameHeight) / 2;
      BlankRows(verticalPadding) + padded + BlankRows(verticalPadding)
    else padded
  }

  /** center_frame. */
  function Centered(frame: string, terminalWidth: int, terminalHeight: Option<int>): string
  {
    Join(CenteredRows(Rows(frame), terminalWidth, terminalHeight), '\n')
  }

  /**
    Horizontal centring: a frame narrower than the terminal has every row
    shifted right by the same `(w - fw) / 2` spaces, so the widest row ends
    with a right margin equal to the left one or one more, within the terminal;
    a frame at least as wide as the terminal keeps its rows.
  */
  lemma CenterHorizontal(rows: seq<string>, w: int)
    requires |rows| >= 1
    ensures var fw := MaxWidth(rows);
      var out := CenteredRows(rows, w, None);
      |out| == |rows|
      && (fw >= w ==> out == rows)
      && (fw < w ==>
            var pad := (w - fw) / 2;
            (forall k :: 0 <= k < |rows| ==> out[k] == Spaces(pad) + rows[k])
            && MaxWidth(out) == pad + fw
            && (w - MaxWidth(out) == pad || w - MaxWidth(out) == pad + 1))
  {
    var fw := MaxWidth(rows);
    var out := CenteredRows(rows, w, None);
    if fw < w {
      var pad := (w - fw) / 2;
      assert out == seq(|rows|, k requires 0 <= k < |rows| => Spaces(pad) + rows[k]);
      forall k | 0 <= k < |rows| ensures |out[k]| == pad + |rows[k]| {
        assert out[k] == Spaces(pad) + rows[k];
      }
      var m := MaxWidth(out);
      var k0 :| 0 <= k0 < |rows| && |rows[k0]| == fw;
      assert |out[k0]| == pad + fw;
      var k1 :| 0 <= k1 < |out| && |out[k1]| == m;
      assert m == pad + |rows[k1]|;
    }
  }

  /**
    Vertical centring: with a truthy terminal height h above the frame's
    row count, the same number `(h - fh) / 2` of empty rows goes above and
    below, so the result has h or h - 1 rows; otherwise no rows are added.
  */
  lemma CenterVertical(rows: seq<string>, w: int, h: Option<int>)
    ensures var out := CenteredRows(rows, w, h);
      var mid := CenteredRows(rows, w, None);
      if Truthy(h) && |rows| < h.value then
        var vp := (h.value - |rows|) / 2;
        out == BlankRows(vp) + mid + BlankRows(vp)
        && (|out| == h.value || |out| == h.value - 1)
      else out == mid
  {
  }
}
