/** The display controller `LCD` (LCDController.py): a registry of named
    lines, one per row; a cursor cache that saves positioning commands; and
    a suspend flag that makes standby and resume idempotent. It drives the
    display through the byte-level `Driver`. */
module LcdController {
  import opened TextUtil
  import opened LineController
  import opened LcdDriver
  import opened Wrappers

  /** The outcome of `set_line`: the line is stored, or one of its two
      `ValueError`s. */
  datatype SetLineResult = Stored | InvalidLineNumber | LineInUse

  /** The registry invariant `set_line` keeps: every stored line sits on a
      row of the display, and no two names share a row. */
  ghost predicate RowsExclusive(lines: int, container: map<string, LCDLine>) {
    && (forall n :: n in container ==> 1 <= container[n].lineNumber <= lines)
    && (forall n, m :: n in container && m in container && n != m ==>
          container[n].lineNumber != container[m].lineNumber)
  }

  /** Whether `set_line` accepts a line for row `row`. */
  predicate Admits(lines: int, container: map<string, LCDLine>, row: int) {
    && 1 <= row <= lines
    && forall n :: n in container ==> container[n].lineNumber != row
  }

  /** Adding an admitted line under any name keeps the rows exclusive, also
      when the name was taken and its old line is replaced. */
  lemma {:induction false} AdmitKeepsRowsExclusive(lines: int, container: map<string, LCDLine>, name: string, line: LCDLine)
    requires RowsExclusive(lines, container) && Admits(lines, container, line.lineNumber)
    ensures RowsExclusive(lines, container[name := line])
  {
  }

  /** Removing an entry keeps the rows exclusive. */
  lemma {:induction false} RemoveKeepsRowsExclusive(lines: int, container: map<string, LCDLine>, name: string)
    requires RowsExclusive(lines, container)
    ensures RowsExclusive(lines, container - {name})
  {
  }

  /** A `write_char_at` repositions only when the cached cursor is not the
      target cell. */
  predicate NeedsPosition(cursor: (int, int), line: int, column: int) {
    cursor != (line, column)
  }

  /** Where the cursor cache points after `write_char_at` on each of
      `cells` in turn, starting from `cursor`. */
  function CursorAfter(cursor: (int, int), cells: seq<(int, int)>): (int, int) {
    if cells == [] then cursor else (cells[|cells| - 1].0, cells[|cells| - 1].1 + 1)
  }

  /** No write lands where the previous one left the cursor: the first cell
      is not `cursor` and no cell follows its predecessor on the same row. */
  predicate Scattered(cursor: (int, int), cells: seq<(int, int)>) {
    && (cells == [] || NeedsPosition(cursor, cells[0].0, cells[0].1))
    && forall i :: 0 < i < |cells| ==> NeedsPosition((cells[i - 1].0, cells[i - 1].1 + 1), cells[i].0, cells[i].1)
  }

  /** The number of positioning commands a series of `write_char_at`
      calls issues, starting from the cached cursor `cursor`. */
  function PositionCount(cursor: (int, int), cells: seq<(int, int)>): (k: nat)
    ensures k <= |cells|
    ensures Scattered(cursor, cells) ==> k == |cells|
    decreases |cells|
  {
    if cells == [] then 0
    else
      var init, last := cells[..|cells| - 1], cells[|cells| - 1];
      assert Scattered(cursor, cells) ==> Scattered(cursor, init) by {
        if Scattered(cursor, cells) {
          forall i | 0 < i < |init| ensures NeedsPosition((init[i - 1].0, init[i - 1].1 + 1), init[i].0, init[i].1) {
            assert init[i - 1] == cells[i - 1] && init[i] == cells[i];
          }
        }
      }
      PositionCount(cursor, init) + (if NeedsPosition(CursorAfter(cursor, init), last.0, last.1) then 1 else 0)
  }

  /** `k` cells side by side on one row, from `column` on. */
  function Run(line: int, column: int, k: nat): (r: seq<(int, int)>)
    ensures |r| == k && forall i :: 0 <= i < k ==> r[i] == (line, column + i)
  {
    seq(k, i => (line, column + i))
  }

  /** Writing a run of adjacent cells positions at most once: only before
      the first cell, and only when the cursor is not there already. */
  lemma {:induction false} RunPositionsOnce(cursor: (int, int), line: int, column: int, k: nat)
    ensures PositionCount(cursor, Run(line, column, k))
         == if k > 0 && NeedsPosition(cursor, line, column) then 1 else 0
    decreases k
  {
    if k > 0 {
      var r := Run(line, column, k);
      assert r[..k - 1] == Run(line, column, k - 1);
      RunPositionsOnce(cursor, line, column, k - 1);
    }
  }

  /** The bus bytes of one `write_char_at` of character code `code` on
      `cell`, with the cache at `cursor`. */
  function CellFrames(cursor: (int, int), cell: (int, int), code: int, bl: int): seq<int> {
    (if NeedsPosition(cursor, cell.0, cell.1) then ByteFrames(DdramCommand(cell.0, cell.1), RsOff, bl) else [])
    + ByteFrames(code, RsOn, bl)
  }

  /** The bus bytes of `write_char_at` on each cell in turn, `codes[i]`
      going to `cells[i]`. */
  function CellsFrames(cursor: (int, int), cells: seq<(int, int)>, codes: seq<int>, bl: int): (r: seq<int>)
    requires |codes| == |cells|
    ensures |r| == 4 * (|cells| + PositionCount(cursor, cells))
  {
    if cells == [] then []
    else
      var init := cells[..|cells| - 1];
      CellsFrames(cursor, init, codes[..|codes| - 1], bl)
      + CellFrames(CursorAfter(cursor, init), cells[|cells| - 1], codes[|codes| - 1], bl)
  }

  lemma {:induction false} CellsFramesSnoc(cursor: (int, int), cells: seq<(int, int)>, codes: seq<int>, i: nat, bl: int)
    requires |codes| == |cells| && i < |cells|
    ensures CellsFrames(cursor, cells[..i + 1], codes[..i + 1], bl)
         == CellsFrames(cursor, cells[..i], codes[..i], bl) + CellFrames(CursorAfter(cursor, cells[..i]), cells[i], codes[i], bl)
    ensures CursorAfter(cursor, cells[..i + 1]) == (cells[i].0, cells[i].1 + 1)
  {
    assert cells[..i + 1][..i] == cells[..i] && codes[..i + 1][..i] == codes[..i];
  }

  /** What the display should read from those writes: before each character,
      a DDRAM address instruction for its cell exactly when the cache points
      elsewhere. */
  function CellsTransfers(cursor: (int, int), cells: seq<(int, int)>, codes: seq<int>, bl: int): seq<Transfer>
    requires |codes| == |cells|
  {
    if cells == [] then []
    else
      var init, last := cells[..|cells| - 1], cells[|cells| - 1];
      CellsTransfers(cursor, init, codes[..|codes| - 1], bl)
      + (if NeedsPosition(CursorAfter(cursor, init), last.0, last.1)
         then [Transfer(false, DdramCommand(last.0, last.1) % 256, bl == BlOn)] else [])
      + [Transfer(true, codes[|codes| - 1] % 256, bl == BlOn)]
  }

  /** Round trip of a series of `write_char_at` calls: the bus is well formed
      and decodes to `CellsTransfers`. */
  lemma {:induction false} CellsFramesDecode(cursor: (int, int), cells: seq<(int, int)>, codes: seq<int>, bl: int)
    requires |codes| == |cells| && Flag(bl, BlOn)
    ensures WellFormed(CellsFrames(cursor, cells, codes, bl))
    ensures Decode(CellsFrames(cursor, cells, codes, bl)) == CellsTransfers(cursor, cells, codes, bl)
  {
    if cells != [] {
      var init, last := cells[..|cells| - 1], cells[|cells| - 1];
      var initCodes, code := codes[..|codes| - 1], codes[|codes| - 1];
      var c := CursorAfter(cursor, init);
      var prefix := CellsFrames(cursor, init, initCodes, bl);
      CellsFramesDecode(cursor, init, initCodes, bl);
      var data := ByteFrames(code, RsOn, bl);
      ByteFramesDecode(code, RsOn, bl);
      var step := CellFrames(c, last, code, bl);
      assert CellsFrames(cursor, cells, codes, bl) == prefix + step;
      if NeedsPosition(c, last.0, last.1) {
        var pos := ByteFrames(DdramCommand(last.0, last.1), RsOff, bl);
        ByteFramesDecode(DdramCommand(last.0, last.1), RsOff, bl);
        DecodeAppend(pos, data, 1);
        WellFormedAppend(pos, data);
      } else {
        assert step == data;
      }
      DecodeAppend(prefix, step, |init| + PositionCount(cursor, init));
      WellFormedAppend(prefix, step);
    }
  }

  /** The number of instructions among transfers. */
  function Instructions(ts: seq<Transfer>): nat {
    if ts == [] then 0 else Instructions(ts[..|ts| - 1]) + (if ts[|ts| - 1].isData then 0 else 1)
  }

  /** The data values among transfers, in order. */
  function DataValues(ts: seq<Transfer>): seq<int> {
    if ts == [] then [] else DataValues(ts[..|ts| - 1]) + (if ts[|ts| - 1].isData then [ts[|ts| - 1].value] else [])
  }

  lemma {:induction false} TransfersAppend(a: seq<Transfer>, b: seq<Transfer>)
    ensures Instructions(a + b) == Instructions(a) + Instructions(b)
    ensures DataValues(a + b) == DataValues(a) + DataValues(b)
    decreases |b|
  {
    if b == [] {
      assert a + b == a;
    } else {
      var init := b[..|b| - 1];
      assert (a + b)[..|a + b| - 1] == a + init;
      TransfersAppend(a, init);
    }
  }

  lemma {:induction false} OneTransfer(t: Transfer)
    ensures Instructions([t]) == (if t.isData then 0 else 1)
    ensures DataValues([t]) == (if t.isData then [t.value] else [])
  {
    assert [t][..0] == [];
  }

  /** The cursor cache at work: the writes carry exactly `PositionCount`
      instructions, and the data bytes are the character codes, in order. */
  lemma {:induction false} CellsTransfersShape(cursor: (int, int), cells: seq<(int, int)>, codes: seq<int>, bl: int)
    requires |codes| == |cells|
    ensures Instructions(CellsTransfers(cursor, cells, codes, bl)) == PositionCount(cursor, cells)
    ensures DataValues(CellsTransfers(cursor, cells, codes, bl))
         == seq(|codes|, i requires 0 <= i < |codes| => codes[i] % 256)
  {
    if cells != [] {
      var init, last := cells[..|cells| - 1], cells[|cells| - 1];
      var initCodes := codes[..|codes| - 1];
      var prefix := CellsTransfers(cursor, init, initCodes, bl);
      var pos := if NeedsPosition(CursorAfter(cursor, init), last.0, last.1)
                 then [Transfer(false, DdramCommand(last.0, last.1) % 256, bl == BlOn)] else [];
      var data := Transfer(true, codes[|codes| - 1] % 256, bl == BlOn);
      assert CellsTransfers(cursor, cells, codes, bl) == prefix + pos + [data];
      CellsTransfersShape(cursor, init, initCodes, bl);
      StepShape(prefix, pos, data);
      BytesSnoc(codes);
    }
  }

  /** The low bytes of the codes, one more code at a time. */
  lemma {:induction false} BytesSnoc(codes: seq<int>)
    requires codes != []
    ensures var initCodes := codes[..|codes| - 1];
      seq(|codes|, i requires 0 <= i < |codes| => codes[i] % 256)
      == seq(|initCodes|, i requires 0 <= i < |initCodes| => initCodes[i] % 256) + [codes[|codes| - 1] % 256]
  {
  }

  /** One `write_char_at` adds its optional instruction and one data byte. */
  lemma {:induction false} StepShape(prefix: seq<Transfer>, pos: seq<Transfer>, data: Transfer)
    requires |pos| <= 1 && (forall t :: t in pos ==> !t.isData) && data.isData
    ensures Instructions(prefix + pos + [data]) == Instructions(prefix) + |pos|
    ensures DataValues(prefix + pos + [data]) == DataValues(prefix) + [data.value]
  {
    TransfersAppend(prefix + pos, [data]);
    TransfersAppend(prefix, pos);
    OneTransfer(data);
    if pos != [] {
      assert pos == [pos[0]];
      OneTransfer(pos[0]);
    } else {
      assert Instructions(pos) == 0 && DataValues(pos) == [];
    }
  }

  /** The cells of a glyph trace. */
  function Cells(gs: seq<Glyph>): (r: seq<(int, int)>)
    ensures |r| == |gs| && forall i :: 0 <= i < |gs| ==> r[i] == (gs[i].line, gs[i].column)
  {
    seq(|gs|, i requires 0 <= i < |gs| => (gs[i].line, gs[i].column))
  }

  /** The codes the driver sends for a glyph trace's characters. */
  function Codes(localeChars: map<char, int>, gs: seq<Glyph>): (r: seq<int>)
    ensures |r| == |gs| && forall i :: 0 <= i < |gs| ==> r[i] == LocaleCode(localeChars, gs[i].ch)
  {
    seq(|gs|, i requires 0 <= i < |gs| => LocaleCode(localeChars, gs[i].ch))
  }

  class LCD {
    const lcd: Driver
    const lines: int
    const columns: nat
    /** `line_container`: the registered lines by name. */
    var lineContainer: map<string, LCDLine>
    /** The cell the display's address counter is known to point at. */
    var cursor: (int, int)
    var suspend: bool

    /** The registry invariant, the lines' own, and the driver's. */
    ghost predicate Valid()
      reads this, lineContainer.Values, lcd
    {
      RowsExclusive(lines, lineContainer) && LinesValid(lineContainer) && lcd.Valid()
    }

    /** `LCD.__init__`, given the driver it builds. */
    constructor (lines: int, columns: nat, lcd: Driver)
      requires lcd.Valid()
      ensures Valid()
      ensures this.lines == lines && this.columns == columns && this.lcd == lcd
      ensures lineContainer == map[] && cursor == (0, 0) && !suspend
    {
      this.lcd := lcd;
      this.lines := lines;
      this.columns := columns;
      lineContainer := map[];
      cursor := (0, 0);
      suspend := false;
    }

    /** `backlight`. */
    method Backlight(stat: bool)
      modifies lcd`backlightBit
      ensures lcd.backlightBit == if stat then BlOn else BlOff
      ensures lcd.Valid()
    {
      lcd.Backlight(stat);
    }

    /** `set_line`: rejects a row outside 1..lines, then a row some stored
        line already uses; otherwise stores the line under `name`, replacing
        whatever was stored under that name. */
    method SetLine(name: string, line: LCDLine) returns (r: SetLineResult)
      requires Valid() && line.Valid()
      modifies this`lineContainer
      ensures Valid()
      ensures r == (if !(1 <= line.lineNumber <= lines) then InvalidLineNumber
                    else if !Admits(lines, old(lineContainer), line.lineNumber) then LineInUse
                    else Stored)
      ensures r == Stored ==> lineContainer == old(lineContainer)[name := line]
      ensures r != Stored ==> lineContainer == old(lineContainer)
    {
      if line.lineNumber <= 0 || line.lineNumber > lines {
        return InvalidLineNumber;
      }
      var unchecked := lineContainer.Keys;
      while unchecked != {}
        invariant unchecked <= lineContainer.Keys
        invariant forall n :: n in lineContainer && n !in unchecked ==> lineContainer[n].lineNumber != line.lineNumber
        decreases unchecked
      {
        var n :| n in unchecked;
        if lineContainer[n].lineNumber == line.lineNumber {
          return LineInUse;
        }
        unchecked := unchecked - {n};
      }
      AdmitKeepsRowsExclusive(lines, lineContainer, name, line);
      lineContainer := lineContainer[name := line];
      r := Stored;
    }

    /** `remove_line`: blanks the row through the line's own `set_text`
        with `columns` spaces, then forgets only that name. An unknown name
        is the source's `KeyError`: nothing happens and `ok` is false. */
    method RemoveLine(name: string, now: int) returns (ok: bool)
      requires Valid()
      modifies this`lineContainer, lineContainer.Values
      ensures Valid()
      ensures ok == (name in old(lineContainer))
      ensures lineContainer == old(lineContainer) - {name}
      ensures ok ==>
        var l := old(lineContainer)[name];
        && l.text == (if columns > l.columns then Spaces(columns) else FormatText(l.columns, Spaces(columns), "l"))
        && l.textPos == 0 && l.doMarquee == (columns > l.columns) && l.lastMarqueeStep == Some(now)
        && l.currentText == l.text[..l.columns] && AllSpaces(l.currentText) && l.lastUpdate == old(l.lastUpdate)
        && l.glyphs == old(l.glyphs) + DiffWrites(l.lineNumber, l.text[..l.columns], old(l.currentText), l.columns)
      ensures forall n :: n in lineContainer ==> unchanged(lineContainer[n])
    {
      if name !in lineContainer {
        return false;
      }
      var l := lineContainer[name];
      l.SetText(Spaces(columns), "l", now);
      BlankRowShowsBlanks(l.columns, columns);
      RemoveKeepsRowsExclusive(lines, lineContainer, name);
      lineContainer := lineContainer - {name};
      ok := true;
    }

    /** `set_position`: one positioning command, and the cursor cache
        follows. */
    method SetPosition(line: int, column: int)
      modifies this`cursor, lcd`bus
      ensures cursor == (line, column)
      ensures lcd.bus == old(lcd.bus) + ByteFrames(DdramCommand(line, column), RsOff, lcd.backlightBit)
    {
      lcd.SetPosition(line, column);
      cursor := (line, column);
    }

    /** `write_char_at`: positions only when the cursor is elsewhere, writes
        the one character, and leaves the cursor one column further. */
    method WriteCharAt(line: int, column: int, c: char)
      modifies this`cursor, lcd`bus
      ensures cursor == (line, column + 1)
      ensures lcd.bus == old(lcd.bus) + CellFrames(old(cursor), (line, column), LocaleCode(lcd.localeChars, c), lcd.backlightBit)
    {
      if cursor.0 != line || cursor.1 != column {
        SetPosition(line, column);
      }
      ghost var before := lcd.bus;
      lcd.Write([c]);
      assert DataFrames(TextCodes(lcd.localeChars, [c]), lcd.backlightBit)
          == ByteFrames(LocaleCode(lcd.localeChars, c), RsOn, lcd.backlightBit);
      AppendAssoc(old(lcd.bus), if NeedsPosition(old(cursor), line, column)
                                then ByteFrames(DdramCommand(line, column), RsOff, lcd.backlightBit) else [],
                  ByteFrames(LocaleCode(lcd.localeChars, c), RsOn, lcd.backlightBit));
      cursor := (line, column + 1);
    }

    /** The loop of a line's `_write_string`: `write_char_at` for each glyph
        of `gs`, in order. */
    method WriteGlyphs(gs: seq<Glyph>)
      modifies this`cursor, lcd`bus
      ensures cursor == CursorAfter(old(cursor), Cells(gs))
      ensures lcd.bus == old(lcd.bus) + CellsFrames(old(cursor), Cells(gs), Codes(lcd.localeChars, gs), lcd.backlightBit)
    {
      ghost var cells, codes := Cells(gs), Codes(lcd.localeChars, gs);
      var i := 0;
      while i < |gs|
        invariant 0 <= i <= |gs|
        invariant cursor == CursorAfter(old(cursor), cells[..i])
        invariant lcd.bus == old(lcd.bus) + CellsFrames(old(cursor), cells[..i], codes[..i], lcd.backlightBit)
      {
        ghost var done := CellsFrames(old(cursor), cells[..i], codes[..i], lcd.backlightBit);
        ghost var step := CellFrames(cursor, cells[i], codes[i], lcd.backlightBit);
        CellsFramesSnoc(old(cursor), cells, codes, i, lcd.backlightBit);
        AppendAssoc(old(lcd.bus), done, step);
        assert cells[i] == (gs[i].line, gs[i].column) && codes[i] == LocaleCode(lcd.localeChars, gs[i].ch);
        WriteCharAt(gs[i].line, gs[i].column, gs[i].ch);
        assert lcd.bus == old(lcd.bus) + (done + step);
        i := i + 1;
      }
      assert cells[..|gs|] == cells && codes[..|gs|] == codes;
    }

    /** `standby`: unless already suspended, marks the display suspended,
        clears it and turns the backlight off. Calling it again changes
        nothing. The cursor cache is left as it was, although clearing the
        display moves its address counter to the first cell: a later write
        to the cached cell is then not repositioned. Nor does clearing the
        backlight bit send anything: the last byte latched on the bus still
        has the backlight bit set (`StandbyLeavesBacklightLatched`), so a lit
        display stays lit through standby until the next write. */
    method Standby()
      modifies this`suspend, lcd`bus, lcd`backlightBit
      ensures suspend && cursor == old(cursor)
      ensures old(suspend) ==> lcd.bus == old(lcd.bus) && lcd.backlightBit == old(lcd.backlightBit)
      ensures !old(suspend) ==>
        && lcd.bus == old(lcd.bus) + ByteFrames(ClearDisplayCmd, RsOff, old(lcd.backlightBit))
        && lcd.backlightBit == BlOff
      ensures !old(suspend) && old(lcd.backlightBit) == BlOn ==> lcd.bus[|lcd.bus| - 1] == 0x18
    {
      if !suspend {
        suspend := true;
        lcd.ClearDisplay();
        Backlight(false);
        StandbyLeavesBacklightLatched(old(lcd.bus), old(lcd.backlightBit));
      }
    }

    /** `resume`: only when suspended, clears the flag, resumes every
        registered line and turns the backlight on. Calling it again changes
        nothing. */
    method Resume()
      requires Valid()
      modifies this`suspend, lcd`backlightBit, lineContainer.Values
      ensures Valid() && !suspend && lineContainer == old(lineContainer)
      ensures !old(suspend) ==>
        && lcd.backlightBit == old(lcd.backlightBit)
        && forall n :: n in lineContainer ==> unchanged(lineContainer[n])
      ensures old(suspend) ==>
        && lcd.backlightBit == BlOn
        && forall n :: n in lineContainer ==> Resumed(lineContainer[n])
    {
      if suspend {
        suspend := false;
        ResumeLines();
        Backlight(true);
      }
    }

    /** The loop of `resume` over the registered lines. */
    method ResumeLines()
      requires Valid()
      modifies lineContainer.Values
      ensures Valid()
      ensures forall n :: n in lineContainer ==> Resumed(lineContainer[n])
    {
      var pending := lineContainer.Keys;
      while pending != {}
        invariant pending <= lineContainer.Keys
        invariant LinesValid(lineContainer)
        invariant forall n :: n in lineContainer && n !in pending ==> Resumed(lineContainer[n])
        invariant forall n :: n in pending ==> unchanged(lineContainer[n])
        decreases pending
      {
        var n :| n in pending;
        var l := lineContainer[n];
        l.Resume();
        pending := pending - {n};
      }
    }
  }

  /** What `resume` leaves on a line: the row forgotten, the text cleared,
      a text line due to ask its source again; the marquee flag and step
      time are kept, and nothing is written to the row. */
  twostate predicate Resumed(l: LCDLine)
    reads l
  {
    && l.currentText == Spaces(l.columns) && l.text == "" && l.textPos == 0
    && l.lastUpdate == (if l.kind.TextLine? then None else old(l.lastUpdate))
    && l.doMarquee == old(l.doMarquee) && l.lastMarqueeStep == old(l.lastMarqueeStep)
    && l.glyphs == old(l.glyphs)
  }

  ghost predicate LinesValid(container: map<string, LCDLine>)
    reads container.Values
  {
    forall n :: n in container ==> container[n].Valid()
  }

  /** What `standby` leaves latched on the bus: the last byte of the clear
      instruction, carrying the backlight bit that was set before it. With
      the backlight on that byte is 0x18 (low nibble 1, backlight bit), so
      the display stays lit. */
  lemma {:induction false} StandbyLeavesBacklightLatched(before: seq<int>, bl: int)
    ensures var b := before + ByteFrames(ClearDisplayCmd, RsOff, bl);
      b[|b| - 1] == BusByte(LowNibble(ClearDisplayCmd), EnOff, RwOff, RsOff, bl)
    ensures bl == BlOn ==> (before + ByteFrames(ClearDisplayCmd, RsOff, bl))[|before| + 3] == 0x18
  {
    var b := before + ByteFrames(ClearDisplayCmd, RsOff, bl);
    assert b[|b| - 1] == ByteFrames(ClearDisplayCmd, RsOff, bl)[3];
  }

  /** A row blanked with `columns` spaces shows only blanks, whatever width
      the line itself was given. */
  lemma {:induction false} BlankRowShowsBlanks(lineColumns: nat, columns: nat)
    ensures var t := if columns > lineColumns then Spaces(columns) else FormatText(lineColumns, Spaces(columns), "l");
      |t| >= lineColumns && AllSpaces(t[..lineColumns])
  {
  }
}
