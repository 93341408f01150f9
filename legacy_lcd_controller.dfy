/** The earlier display controller `LCD` (lib/LCDController.py). It keeps
    the same line registry and cursor cache as the later one but talks to
    the patched `i2c_lcd` library, whose calls are recorded as a trace of
    device operations, and its standby and resume have no suspend flag. */
module LegacyLcdController {
  import opened TextUtil
  import opened LineController
  import opened I2cLcdPatched
  import LcdController
  import opened Wrappers

  /** A call into the `i2c_lcd` library. */
  datatype DeviceOp =
    | DisplayOn              // `command(CMD_Display_Control | OPT_Enable_Display)`
    | ClearDisplay           // `command(CMD_Clear_Display)`
    | BacklightOn
    | BacklightOff
    | Position(line: int, column: int)
    | WriteChar(c: char)     // the library's own `writeChar`, after the patch

  class LCD {
    const lines: int
    const columns: nat
    /** `lineContainer`: the registered lines by name. */
    var lineContainer: map<string, LCDLine>
    /** The cell the display's address counter is known to point at. */
    var cursor: (int, int)
    /** Every library call made so far, in order. */
    var device: seq<DeviceOp>

    ghost predicate Valid()
      reads this, lineContainer.Values
    {
      LcdController.RowsExclusive(lines, lineContainer) && LcdController.LinesValid(lineContainer)
    }

    /** `LCD.__init__`: an empty registry, the cursor at (0, 0), the display
        enabled without a cursor and the backlight on. */
    constructor (lines: int, columns: nat)
      ensures Valid()
      ensures this.lines == lines && this.columns == columns
      ensures lineContainer == map[] && cursor == (0, 0)
      ensures device == [DisplayOn, BacklightOn]
    {
      this.lines := lines;
      this.columns := columns;
      lineContainer := map[];
      cursor := (0, 0);
      device := [DisplayOn];
      new;
      Backlight(true);
    }

    /** `backlight`. */
    method Backlight(stat: bool)
      modifies this`device
      ensures device == old(device) + [if stat then BacklightOn else BacklightOff]
    {
      if stat {
        device := device + [BacklightOn];
      } else {
        device := device + [BacklightOff];
      }
    }

    /** `set_line`: rejects a row outside 1..lines, then a row some stored
        line already uses; otherwise stores the line under `name`. */
    method SetLine(name: string, line: LCDLine) returns (r: LcdController.SetLineResult)
      requires Valid() && line.Valid()
      modifies this`lineContainer
      ensures Valid()
      ensures r == (if !(1 <= line.lineNumber <= lines) then LcdController.InvalidLineNumber
                    else if !LcdController.Admits(lines, old(lineContainer), line.lineNumber) then LcdController.LineInUse
                    else LcdController.Stored)
      ensures r == LcdController.Stored ==> lineContainer == old(lineContainer)[name := line]
      ensures r != LcdController.Stored ==> lineContainer == old(lineContainer)
    {
      if line.lineNumber <= 0 || line.lineNumber > lines {
        return LcdController.InvalidLineNumber;
      }
      var unchecked := lineContainer.Keys;
      while unchecked != {}
        invariant unchecked <= lineContainer.Keys
        invariant forall n :: n in lineContainer && n !in unchecked ==> lineContainer[n].lineNumber != line.lineNumber
        decreases unchecked
      {
        var n :| n in unchecked;
        if lineContainer[n].lineNumber == line.lineNumber {
          return LcdController.LineInUse;
        }
        unchecked := unchecked - {n};
      }
      LcdController.AdmitKeepsRowsExclusive(lines, lineContainer, name, line);
      lineContainer := lineContainer[name := line];
      r := LcdController.Stored;
    }

    /** `remove_line`: blanks the row through the line's own `set_text`
        with `columns` spaces, then forgets only that name; an unknown name
        is the source's `KeyError`. */
    method RemoveLine(name: string, now: int) returns (ok: bool)
      requires Valid()
      modifies this`lineContainer, lineContainer.Values
      ensures Valid()
      ensures ok == (name in old(lineContainer))
      ensures lineContainer == old(lineContainer) - {name}
      ensures ok ==>
        var l := old(lineContainer)[name];
        && l.text == (if columns > l.columns then Spaces(columns) else FormatText(l.columns, Spaces(columns), "l"))
        && l.textPos == 0 && l.doMarquee == (columns > l.columns) && l.lastMarqueeStep == Some(now)
        && l.currentText == l.text[..l.columns] && AllSpaces(l.currentText) && l.lastUpdate == old(l.lastUpdate)
        && l.glyphs == old(l.glyphs) + DiffWrites(l.lineNumber, l.text[..l.columns], old(l.currentText), l.columns)
      ensures forall n :: n in lineContainer ==> unchanged(lineContainer[n])
    {
      if name !in lineContainer {
        return false;
      }
      var l := lineContainer[name];
      l.SetText(Spaces(columns), "l", now);
      LcdController.BlankRowShowsBlanks(l.columns, columns);
      LcdController.RemoveKeepsRowsExclusive(lines, lineContainer, name);
      lineContainer := lineContainer - {name};
      ok := true;
    }

    /** `set_position`. */
    method SetPosition(line: int, column: int)
      modifies this`cursor, this`device
      ensures cursor == (line, column)
      ensures device == old(device) + [Position(line, column)]
    {
      device := device + [Position(line, column)];
      cursor := (line, column);
    }

    /** `write_char_at`: positions only when the cursor is elsewhere, then
        one patched `writeChar`, which hands the substituted character to
        the library; the cursor ends one column further. */
    method WriteCharAt(line: int, column: int, c: char)
      modifies this`cursor, this`device
      ensures cursor == (line, column + 1)
      ensures device == old(device)
        + (if LcdController.NeedsPosition(old(cursor), line, column) then [Position(line, column)] else [])
        + [WriteChar(Substitute(c))]
    {
      if cursor.0 != line || cursor.1 != column {
        SetPosition(line, column);
      }
      device := device + [WriteChar(Substitute(c))];
      cursor := (line, column + 1);
    }

    /** `standby`, without a guard: every call clears the display and turns
        the backlight off again. */
    method Standby()
      modifies this`device
      ensures device == old(device) + [ClearDisplay, BacklightOff]
    {
      device := device + [ClearDisplay];
      Backlight(false);
    }

    /** `resume`, without a guard: every call resumes all registered lines
        and turns the backlight on. */
    method Resume()
      requires Valid()
      modifies this`device, lineContainer.Values
      ensures Valid() && lineContainer == old(lineContainer)
      ensures device == old(device) + [BacklightOn]
      ensures forall n :: n in lineContainer ==> LcdController.Resumed(lineContainer[n])
    {
      ResumeLines();
      Backlight(true);
    }

    /** The loop of `resume` over the registered lines. */
    method ResumeLines()
      requires Valid()
      modifies lineContainer.Values
      ensures Valid()
      ensures forall n :: n in lineContainer ==> LcdController.Resumed(lineContainer[n])
    {
      var pending := lineContainer.Keys;
      while pending != {}
        invariant pending <= lineContainer.Keys
        invariant LcdController.LinesValid(lineContainer)
        invariant forall n :: n in lineContainer && n !in pending ==> LcdController.Resumed(lineContainer[n])
        invariant forall n :: n in pending ==> unchanged(lineContainer[n])
        decreases pending
      {
        var n :| n in pending;
        var l := lineContainer[n];
        l.Resume();
        pending := pending - {n};
      }
    }
  }
}
