/** One logical line of the display (lib/LineController.py): text formatting,
    two-part composition, the marquee state machine and the diffing renderer.
    Time is an integer `now` (milliseconds) passed in by the caller; the glyph
    writes that the source sends to the display's `write_char_at` are recorded
    in the line's `glyphs` trace. */
module LineController {
  import opened Wrappers
  import opened TextUtil

  // ---------------------------------------------------------------------------
  // Formatting

  /** Python's `math.ceil(n / 2)` for a non-negative `n`. */
  function CeilHalf(n: nat): nat { (n + 1) / 2 }

  /** `LCDLine.format_text`: a text shorter than the line is padded with blanks
      to exactly `columns` characters: "r" right-aligns it, "c" centres it with
      the floor of the free space before and the ceiling after, and any other
      alignment left-aligns it. A text that fills or overflows the line is
      returned as it is (it will scroll). */
  function FormatText(columns: nat, text: string, align: string): (r: string)
    ensures |text| >= columns ==> r == text
    ensures |text| < columns ==> |r| == columns
    ensures |text| < columns && align == "r" ==>
      r[columns - |text|..] == text && AllSpaces(r[..columns - |text|])
    ensures |text| < columns && align == "c" ==>
      var lead := (columns - |text|) / 2;
      && r[lead..lead + |text|] == text
      && AllSpaces(r[..lead]) && AllSpaces(r[lead + |text|..])
      && columns - (lead + |text|) == CeilHalf(columns - |text|)
    ensures |text| < columns && align != "r" && align != "c" ==>
      r[..|text|] == text && AllSpaces(r[|text|..])
  {
    if |text| < columns then
      if align == "r" then Spaces(columns - |text|) + text
      else if align == "c" then Spaces((columns - |text|) / 2) + text + Spaces(CeilHalf(columns - |text|))
      else text + Spaces(columns - |text|)
    else text
  }

  /** Stripping the padding of a formatted text gives the text back, for every
      alignment, when the text itself neither starts nor ends with a blank. */
  lemma {:induction false} FormatTextStripsBack(columns: nat, text: string, align: string)
    requires |text| < columns
    requires text == [] || (text[0] != ' ' && text[|text| - 1] != ' ')
    ensures LStrip(RStrip(FormatText(columns, text, align))) == text
  {
    if text == [] {
      var r := FormatText(columns, text, align);
      assert AllSpaces(r);
      RStripAppendBlanks([], r);
      assert [] + r == r;
    } else if align == "r" {
      RightStripsBack(columns, text);
    } else if align == "c" {
      CentreStripsBack(columns, text);
    } else {
      LeftStripsBack(columns, text, align);
    }
  }

  lemma {:induction false} RightStripsBack(columns: nat, text: string)
    requires |text| < columns && text != [] && text[0] != ' ' && text[|text| - 1] != ' '
    ensures LStrip(RStrip(FormatText(columns, text, "r"))) == text
  {
    var n := columns - |text|;
    var r := FormatText(columns, text, "r");
    assert r == Spaces(n) + text + Spaces(0);
    PaddingStrips(n, text, 0);
  }

  lemma {:induction false} CentreStripsBack(columns: nat, text: string)
    requires |text| < columns && text != [] && text[0] != ' ' && text[|text| - 1] != ' '
    ensures LStrip(RStrip(FormatText(columns, text, "c"))) == text
  {
    var n := columns - |text|;
    var r := FormatText(columns, text, "c");
    assert r == Spaces(n / 2) + text + Spaces(CeilHalf(n));
    PaddingStrips(n / 2, text, CeilHalf(n));
  }

  lemma {:induction false} LeftStripsBack(columns: nat, text: string, align: string)
    requires align != "r" && align != "c"
    requires |text| < columns && text != [] && text[0] != ' ' && text[|text| - 1] != ' '
    ensures LStrip(RStrip(FormatText(columns, text, align))) == text
  {
    var n := columns - |text|;
    var r := FormatText(columns, text, align);
    assert r == Spaces(0) + text + Spaces(n);
    PaddingStrips(0, text, n);
  }

  lemma {:induction false} PaddingStrips(a: int, text: string, b: int)
    requires text != [] && text[0] != ' ' && text[|text| - 1] != ' '
    ensures LStrip(RStrip(Spaces(a) + text + Spaces(b))) == text
  {
    var left := Spaces(a) + text;
    RStripAppendBlanks(left, Spaces(b));
    assert RStrip(left) == left by {
      assert left[|left| - 1] == text[|text| - 1];
    }
    LStripPrependBlanks(Spaces(a), text);
    StripIdentity(text);
  }


  /** `LCDLine.set_text_right`: keeps the current text without its trailing
      blanks on the left and right-justifies `fragment`; fails (None) when the
      two do not fit on one line together. */
  function JoinRight(columns: nat, current: string, fragment: string): (r: Option<string>)
    ensures r.Some? <==> |RStrip(current)| + |fragment| <= columns
    ensures r.Some? ==>
      var kept := RStrip(current);
      && |r.value| == columns
      && r.value[..|kept|] == kept
      && r.value[columns - |fragment|..] == fragment
      && AllSpaces(r.value[|kept|..columns - |fragment|])
  {
    var prev := RStrip(current);
    if |prev| + |fragment| > columns then None
    else
      var pad := Spaces(columns - |prev| - |fragment|);
      ThreeParts(prev, pad, fragment);
      Some(prev + pad + fragment)
  }

  /** `LCDLine.set_text_left`, the mirror image of `JoinRight`: keeps the current
      text without its leading blanks on the right and left-justifies
      `fragment`. */
  function JoinLeft(columns: nat, current: string, fragment: string): (r: Option<string>)
    ensures r.Some? <==> |LStrip(current)| + |fragment| <= columns
    ensures r.Some? ==>
      var kept := LStrip(current);
      && |r.value| == columns
      && r.value[..|fragment|] == fragment
      && r.value[columns - |kept|..] == kept
      && AllSpaces(r.value[|fragment|..columns - |kept|])
  {
    var prev := LStrip(current);
    if |prev| + |fragment| > columns then None
    else
      var pad := Spaces(columns - |prev| - |fragment|);
      ThreeParts(fragment, pad, prev);
      Some(fragment + pad + prev)
  }

  /** Where the three parts of `a + pad + b` sit. */
  lemma {:induction false} ThreeParts(a: string, pad: string, b: string)
    ensures var s := a + pad + b;
      && |s| == |a| + |pad| + |b|
      && s[..|a|] == a && s[|a|..|a| + |pad|] == pad && s[|a| + |pad|..] == b
  {
  }

  /** `set_text_left` on a cleared line: the fragment, then blanks. */
  lemma {:induction false} JoinLeftOnEmpty(columns: nat, left: string)
    requires |left| <= columns
    ensures JoinLeft(columns, "", left) == Some(left + Spaces(columns - |left|))
  {
    assert LStrip("") == "";
    assert left + Spaces(columns - |left|) + "" == left + Spaces(columns - |left|);
  }

  /** `set_text_right` when the fragment fits next to `kept`, the current
      text without its trailing blanks: the kept text, blanks, then the
      fragment. */
  lemma {:induction false} JoinRightFits(columns: nat, current: string, kept: string, fragment: string)
    requires RStrip(current) == kept
    requires |kept| + |fragment| <= columns
    ensures JoinRight(columns, current, fragment) == Some(kept + Spaces(columns - |kept| - |fragment|) + fragment)
  {
  }

  /** Trailing blanks after a text that does not end in a blank strip off. */
  lemma {:induction false} KeptAfterPadding(left: string, n: int)
    requires left == [] || left[|left| - 1] != ' '
    ensures RStrip(left + Spaces(n)) == left
  {
    RStripAppendBlanks(left, Spaces(n));
    assert RStrip(left) == left;
  }

  /** `TimeLine.update_time`: clearing the line, then setting a left part and a
      right part, lays the line out as left part, blanks, right part. */
  lemma {:induction false} LeftThenRight(columns: nat, left: string, right: string)
    requires |left| + |right| <= columns
    requires left == [] || left[|left| - 1] != ' '
    ensures JoinLeft(columns, "", left).Some?
    ensures JoinRight(columns, JoinLeft(columns, "", left).value, right)
            == Some(left + Spaces(columns - |left| - |right|) + right)
  {
    var l := left + Spaces(columns - |left|);
    JoinLeftOnEmpty(columns, left);
    KeptAfterPadding(left, columns - |left|);
    JoinRightFits(columns, l, left, right);
  }

  // ---------------------------------------------------------------------------
  // Diff rendering

  /** One call of the display's `write_char_at(line, column, char)`. */
  datatype Glyph = Glyph(line: int, column: int, ch: char)

  /** The writes `_write_string` issues while it scans the first `n` columns:
      one per column where the new window differs from what is shown, in
      increasing column order. */
  function DiffWrites(line: int, window: string, shown: string, n: nat): (gs: seq<Glyph>)
    requires n <= |window| && n <= |shown|
    ensures |gs| <= n
  {
    if n == 0 then []
    else
      DiffWrites(line, window, shown, n - 1)
      + (if window[n - 1] != shown[n - 1] then [Glyph(line, n - 1, window[n - 1])] else [])
  }

  /** The columns among the first `n` where the window differs from what is shown. */
  function Mismatches(window: string, shown: string, n: nat): set<int>
    requires n <= |window| && n <= |shown|
  {
    set i | 0 <= i < n && window[i] != shown[i]
  }

  /** Every write goes to a differing column of this line and carries the new
      character there; the columns strictly increase. */
  ghost predicate WritesDifferences(line: int, window: string, shown: string, n: nat, gs: seq<Glyph>)
    requires n <= |window| && n <= |shown|
  {
    && (forall k :: 0 <= k < |gs| ==>
          && gs[k].line == line && 0 <= gs[k].column < n
          && window[gs[k].column] != shown[gs[k].column]
          && gs[k].ch == window[gs[k].column])
    && (forall j, k :: 0 <= j < k < |gs| ==> gs[j].column < gs[k].column)
  }

  lemma {:induction false} DiffWritesSound(line: int, window: string, shown: string, n: nat)
    requires n <= |window| && n <= |shown|
    ensures WritesDifferences(line, window, shown, n, DiffWrites(line, window, shown, n))
  {
    if n > 0 {
      DiffWritesSound(line, window, shown, n - 1);
      var prev := DiffWrites(line, window, shown, n - 1);
      var gs := DiffWrites(line, window, shown, n);
      if window[n - 1] != shown[n - 1] {
        assert gs == prev + [Glyph(line, n - 1, window[n - 1])];
        forall k | 0 <= k < |gs|
          ensures gs[k].line == line && 0 <= gs[k].column < n
          ensures window[gs[k].column] != shown[gs[k].column] && gs[k].ch == window[gs[k].column]
        {
          if k < |prev| { assert gs[k] == prev[k]; }
        }
        forall j, k | 0 <= j < k < |gs| ensures gs[j].column < gs[k].column {
          assert gs[j] == prev[j];
          if k < |prev| { assert gs[k] == prev[k]; }
        }
      } else {
        assert gs == prev;
      }
    }
  }

  ghost predicate WritesColumn(gs: seq<Glyph>, i: int) {
    exists k :: 0 <= k < |gs| && gs[k].column == i
  }

  /** Every differing column gets a write. */
  lemma {:induction false} DiffWritesComplete(line: int, window: string, shown: string, n: nat)
    requires n <= |window| && n <= |shown|
    ensures forall i :: 0 <= i < n && window[i] != shown[i] ==> WritesColumn(DiffWrites(line, window, shown, n), i)
  {
    if n > 0 {
      DiffWritesComplete(line, window, shown, n - 1);
      var prev := DiffWrites(line, window, shown, n - 1);
      var gs := DiffWrites(line, window, shown, n);
      assert gs[..|prev|] == prev;
      assert window[n - 1] != shown[n - 1] ==> gs == prev + [Glyph(line, n - 1, window[n - 1])];
      forall i | 0 <= i < n && window[i] != shown[i]
        ensures WritesColumn(gs, i)
      {
        if i < n - 1 {
          var k :| 0 <= k < |prev| && prev[k].column == i;
          assert gs[k] == prev[k];
        } else {
          assert gs[|gs| - 1].column == i;
        }
      }
    }
  }

  /** Diff-render minimality: `k` differing columns give exactly `k` writes. */
  lemma {:induction false} DiffWritesCount(line: int, window: string, shown: string, n: nat)
    requires n <= |window| && n <= |shown|
    ensures |DiffWrites(line, window, shown, n)| == |Mismatches(window, shown, n)|
  {
    if n > 0 {
      DiffWritesCount(line, window, shown, n - 1);
      var m := Mismatches(window, shown, n - 1);
      assert n - 1 !in m;
      if window[n - 1] != shown[n - 1] {
        assert Mismatches(window, shown, n) == m + {n - 1};
      } else {
        assert Mismatches(window, shown, n) == m;
      }
    } else {
      assert Mismatches(window, shown, n) == {};
    }
  }

  /** What a row shows after the writes `gs` land on a row that showed `s`. */
  function Paint(s: string, gs: seq<Glyph>): (r: string)
    ensures |r| == |s|
  {
    if gs == [] then s
    else
      var p := Paint(s, gs[..|gs| - 1]);
      var g := gs[|gs| - 1];
      if 0 <= g.column < |p| then p[g.column := g.ch] else p
  }

  /** The writes turn the shown row into the new window: after scanning `n`
      columns the row holds the window's first `n` characters and is untouched
      beyond. */
  lemma {:induction false} DiffWritesRepaint(line: int, window: string, shown: string, n: nat)
    requires |window| == |shown| && n <= |shown|
    ensures Paint(shown, DiffWrites(line, window, shown, n)) == window[..n] + shown[n..]
  {
    if n == 0 {
      assert window[..0] + shown[0..] == shown;
    } else {
      DiffWritesRepaint(line, window, shown, n - 1);
      var prev := DiffWrites(line, window, shown, n - 1);
      var gs := DiffWrites(line, window, shown, n);
      var before := window[..n - 1] + shown[n - 1..];
      ExtendPrefix(window, shown, n);
      if window[n - 1] != shown[n - 1] {
        var g := Glyph(line, n - 1, window[n - 1]);
        assert gs == prev + [g];
        assert gs[..|gs| - 1] == prev && gs[|gs| - 1] == g;
        assert Paint(shown, gs) == before[n - 1 := window[n - 1]];
      } else {
        assert gs == prev;
        assert before[n - 1 := window[n - 1]] == before;
      }
    }
  }

  /** Replacing column `n - 1` moves the boundary between new and old by one. */
  lemma {:induction false} ExtendPrefix(window: string, shown: string, n: nat)
    requires |window| == |shown| && 0 < n <= |shown|
    ensures (window[..n - 1] + shown[n - 1..])[n - 1 := window[n - 1]] == window[..n] + shown[n..]
  {
  }

  // ---------------------------------------------------------------------------
  // Marquee state machine

  /** The marquee's timing parameters, in milliseconds. */
  datatype Timing = Timing(stepInterval: int, startDuration: int, endDuration: int)

  /** The constructor's defaults: 0.5 s per step, 3.0 s hold at the start,
      5.0 s hold at the end. */
  const DefaultTiming := Timing(500, 3000, 5000)

  /** `_marquee_step` on the offset: one column further, or back to 0 once that
      would pass the last offset `textLen - columns`. */
  function NextOffset(pos: nat, textLen: int, columns: int): (next: nat)
    ensures next == 0 || next == pos + 1
    ensures textLen >= columns ==> next <= textLen - columns
    ensures next == 0 <==> pos >= textLen - columns
  {
    if pos + 1 >= textLen - columns + 1 then 0 else pos + 1
  }

  /** The offset after `k` marquee steps from the start. */
  function OffsetAfter(k: nat, textLen: int, columns: int): nat {
    if k == 0 then 0 else NextOffset(OffsetAfter(k - 1, textLen, columns), textLen, columns)
  }

  /** A scrolling text visits the offsets 0, 1, ..., `textLen - columns` in order. */
  lemma {:induction false} MarqueeVisitsInOrder(k: nat, textLen: int, columns: int)
    requires textLen > columns && k <= textLen - columns
    ensures OffsetAfter(k, textLen, columns) == k
  {
    if k > 0 {
      MarqueeVisitsInOrder(k - 1, textLen, columns);
    }
  }

  /** One step past the last offset the marquee wraps to 0, and from then on
      repeats the same cycle. */
  lemma {:induction false} MarqueeCycle(k: nat, textLen: int, columns: int)
    requires textLen > columns
    ensures OffsetAfter(textLen - columns + 1, textLen, columns) == 0
    ensures OffsetAfter(k + (textLen - columns + 1), textLen, columns) == OffsetAfter(k, textLen, columns)
  {
    MarqueeVisitsInOrder(textLen - columns, textLen, columns);
    if k > 0 {
      MarqueeCycle(k - 1, textLen, columns);
    }
  }

  /** How long the marquee rests at offset `pos` (0 <= pos <= maxOffset) before
      it steps on: the start hold at 0, the end hold at the last offset, the
      step interval in between. */
  function Hold(pos: int, maxOffset: int, t: Timing): int
    requires 0 <= pos <= maxOffset
  {
    if pos == 0 then t.startDuration
    else if pos == maxOffset then t.endDuration
    else t.stepInterval
  }

  /** The condition under which `_time_for_marquee` steps, after `elapsed`
      milliseconds at offset `pos`. On a scrolling text it is exactly "the hold
      for this offset has passed"; outside 0..maxOffset it never steps. */
  function MarqueeDue(pos: int, maxOffset: int, elapsed: int, t: Timing): (due: bool)
    ensures 0 < maxOffset && 0 <= pos <= maxOffset ==> (due <==> elapsed >= Hold(pos, maxOffset, t))
    ensures 0 < maxOffset && (pos < 0 || pos > maxOffset) ==> !due
  {
    || (pos == 0 && elapsed >= t.startDuration)
    || (pos == maxOffset && elapsed >= t.endDuration)
    || (0 < pos < maxOffset && elapsed >= t.stepInterval)
  }

  // ---------------------------------------------------------------------------
  // The line object

  /** `LCDLine` itself, or a `TextLine` (the base of `MPDLine` and `FetchLine`)
      that asks its content source for text every `queryInterval` ms. */
  datatype LineKind = PlainLine | TextLine(align: string, queryInterval: int)

  /** `TextLine`'s default query interval (5.0 s) and `FetchLine`'s (60.0 s). */
  const TextQueryInterval := 5000
  const FetchQueryInterval := 60000

  /** The kind `TextLine.__init__` sets up before the keyword arguments:
      left-aligned, asking every 5 s (an `MPDLine` keeps these unless given
      others). */
  const TextLineDefaults := TextLine("l", TextQueryInterval)

  /** A `FetchLine` with alignment `align`: it sets its 60 s interval after
      the keyword arguments, so no argument overrides it. */
  function FetchLineKind(align: string): LineKind {
    TextLine(align, FetchQueryInterval)
  }

  /** The mutable part of a line, as a value. */
  datatype LineState = LineState(
    text: string, textPos: nat, doMarquee: bool, lastMarqueeStep: Option<int>,
    currentText: string, lastUpdate: Option<int>, glyphs: seq<Glyph>)

  /** Whether a line of kind `kind` last queried at `lastUpdate` asks its
      source at `now`: text lines only, when they never have or their query
      interval has passed. */
  predicate Asks(kind: LineKind, lastUpdate: Option<int>, now: int) {
    kind.TextLine? && (lastUpdate.None? || now - lastUpdate.value >= kind.queryInterval)
  }

  /** The query half of `run_every` on a line of `columns` cells on row
      `row`: when the line asks and `provided` formats to a new text, that
      text is set from offset 0, the marquee is re-armed at `now` and the row
      is repainted; when it asks, the query time is recorded either way. */
  function AfterQuery(row: int, columns: nat, kind: LineKind, s: LineState, now: int, provided: string): (r: LineState)
    requires |s.currentText| == columns
    ensures |r.currentText| == columns
    ensures !Asks(kind, s.lastUpdate, now) ==> r == s
    ensures Asks(kind, s.lastUpdate, now) ==> r.lastUpdate == Some(now) && r.text == FormatText(columns, provided, kind.align)
    ensures r.text != s.text ==>
      && r.textPos == 0 && r.lastMarqueeStep == Some(now) && r.doMarquee == (|r.text| > columns)
      && r.currentText == r.text[..columns]
      && r.glyphs == s.glyphs + DiffWrites(row, r.text[..columns], s.currentText, columns)
    ensures r.text == s.text ==> r.(lastUpdate := s.lastUpdate) == s
  {
    if !Asks(kind, s.lastUpdate, now) then s
    else
      var t := FormatText(columns, provided, kind.align);
      if t == s.text then s.(lastUpdate := Some(now))
      else LineState(t, 0, |t| > columns, Some(now), t[..columns], Some(now),
                     s.glyphs + DiffWrites(row, t[..columns], s.currentText, columns))
  }

  /** A second query at the same time with the same source text changes
      nothing more: either the line did not ask, or it already holds that
      text and the time is recorded again. */
  lemma {:induction false} AfterQueryIdempotent(row: int, columns: nat, kind: LineKind, s: LineState, now: int, provided: string)
    requires |s.currentText| == columns
    ensures var once := AfterQuery(row, columns, kind, s, now, provided);
      AfterQuery(row, columns, kind, once, now, provided) == once
  {
  }

  /** The query schedules of the source's line kinds: a line that never
      asked asks at once; after a query at `u`, a default text line asks again
      from 5 s on, a `FetchLine` from 60 s on, and a plain line never does. */
  lemma {:induction false} QuerySchedules(align: string, u: int, now: int)
    ensures Asks(TextLineDefaults, None, now) && Asks(FetchLineKind(align), None, now)
    ensures Asks(TextLineDefaults, Some(u), now) <==> now - u >= 5000
    ensures Asks(FetchLineKind(align), Some(u), now) <==> now - u >= 60000
    ensures !Asks(PlainLine, Some(u), now) && !Asks(PlainLine, None, now)
  {
  }

  class LCDLine {
    const lineNumber: int
    const columns: nat
    const timing: Timing
    const kind: LineKind

    /** The full text; longer than the line when it scrolls. */
    var text: string
    /** The first column of `text` that is visible. */
    var textPos: nat
    var doMarquee: bool
    var lastMarqueeStep: Option<int>
    /** The characters the row shows, as last written (`_current_text`). */
    var currentText: string
    /** `TextLine.last_update`: when the content source was last asked. */
    var lastUpdate: Option<int>
    /** Every `write_char_at` this line has issued, in order. */
    var glyphs: seq<Glyph>

    ghost predicate Valid()
      reads this
    {
      |currentText| == columns
    }

    /** The fields `run_every` changes, as a value. */
    function State(): LineState
      reads this
    {
      LineState(text, textPos, doMarquee, lastMarqueeStep, currentText, lastUpdate, glyphs)
    }

    /** The part of `text` the row should show: `text[text_pos:text_pos+columns]`. */
    function Window(): string
      reads this
    {
      Slice(text, textPos, textPos + columns)
    }

    /** The marquee invariant: while scrolling, the offset stays within
        0..len(text)-columns. */
    ghost predicate MarqueeInBounds()
      reads this
    {
      doMarquee ==> |text| > columns && textPos <= |text| - columns
    }

    constructor (lineNumber: int, columns: nat, timing: Timing := DefaultTiming, kind: LineKind := PlainLine)
      ensures Valid()
      ensures this.lineNumber == lineNumber && this.columns == columns
      ensures this.timing == timing && this.kind == kind
      ensures text == "" && textPos == 0 && !doMarquee && lastMarqueeStep == None
      ensures currentText == Spaces(columns) && lastUpdate == None && glyphs == []
    {
      this.lineNumber := lineNumber;
      this.columns := columns;
      this.timing := timing;
      this.kind := kind;
      text := "";
      textPos := 0;
      doMarquee := false;
      lastMarqueeStep := None;
      currentText := Spaces(columns);
      lastUpdate := None;
      glyphs := [];
    }

    /** `_write_string`: writes exactly the columns where the window differs
        from what the row shows, then remembers the window. When the window is
        shorter than the line the source raises IndexError at its first
        missing column: `ok` is false, the writes before that column have been
        issued and the snapshot is kept. */
    method WriteString() returns (ok: bool)
      requires Valid()
      modifies this`glyphs, this`currentText
      ensures Valid()
      ensures var w := old(Window());
        && ok == (|w| == columns)
        && glyphs == old(glyphs) + DiffWrites(lineNumber, w, old(currentText), |w|)
        && currentText == (if ok then w else old(currentText))
    {
      var w := Slice(text, textPos, textPos + columns);
      var i := 0;
      while i < columns
        invariant i <= columns && i <= |w|
        invariant currentText == old(currentText)
        invariant glyphs == old(glyphs) + DiffWrites(lineNumber, w, currentText, i)
      {
        if i >= |w| {
          return false;
        }
        if w[i] != currentText[i] {
          glyphs := glyphs + [Glyph(lineNumber, i, w[i])];
        }
        i := i + 1;
      }
      currentText := w;
      ok := true;
    }

    /** `set_text`: restarts the marquee at offset 0, scrolls a text longer
        than the line and stores it verbatim, otherwise stores it formatted to
        the line's width, and renders at once. */
    method SetText(t: string, align: string, now: int)
      requires Valid()
      modifies this`text, this`textPos, this`doMarquee, this`lastMarqueeStep, this`glyphs, this`currentText
      ensures Valid() && MarqueeInBounds()
      ensures textPos == 0 && lastMarqueeStep == Some(now)
      ensures doMarquee == (|t| > columns)
      ensures text == (if |t| > columns then t else FormatText(columns, t, align))
      ensures |text| >= columns && currentText == text[..columns]
      ensures glyphs == old(glyphs) + DiffWrites(lineNumber, text[..columns], old(currentText), columns)
    {
      textPos := 0;
      lastMarqueeStep := Some(now);
      if |t| > columns {
        doMarquee := true;
        text := t;
      } else {
        doMarquee := false;
        text := FormatText(columns, t, align);
      }
      assert Window() == text[..columns];
      var ok := WriteString();
    }

    /** `set_text_right`; `ok` is false where the source raises. Offset and
        marquee flag are left as they are, as in the source. */
    method SetTextRight(fragment: string) returns (ok: bool)
      modifies this`text
      ensures ok == JoinRight(columns, old(text), fragment).Some?
      ensures text == if ok then JoinRight(columns, old(text), fragment).value else old(text)
    {
      var prev := RStrip(text);
      if |prev| + |fragment| > columns {
        ok := false;
      } else {
        text := prev + Spaces(columns - |prev| - |fragment|) + fragment;
        ok := true;
      }
    }

    /** `set_text_left`; `ok` is false where the source raises. */
    method SetTextLeft(fragment: string) returns (ok: bool)
      modifies this`text
      ensures ok == JoinLeft(columns, old(text), fragment).Some?
      ensures text == if ok then JoinLeft(columns, old(text), fragment).value else old(text)
    {
      var prev := LStrip(text);
      if |prev| + |fragment| > columns {
        ok := false;
      } else {
        text := fragment + Spaces(columns - |prev| - |fragment|) + prev;
        ok := true;
      }
    }

    /** `clear_text`. */
    method ClearText()
      modifies this`text, this`textPos
      ensures text == "" && textPos == 0
    {
      text := "";
      textPos := 0;
    }

    /** `resume` (with `TextLine`'s override for text lines): forget what the
        row shows, clear the text, and make a text line ask its source again
        on its next tick. */
    method Resume()
      modifies this`currentText, this`text, this`textPos, this`lastUpdate
      ensures Valid()
      ensures currentText == Spaces(columns) && text == "" && textPos == 0
      ensures lastUpdate == if kind.TextLine? then None else old(lastUpdate)
    {
      currentText := Spaces(columns);
      ClearText();
      if kind.TextLine? {
        lastUpdate := None;
      }
    }

    /** `_marquee_step`: a no-op unless the text scrolls; otherwise one offset
        further (wrapping to 0) and the step time is `now`. */
    method MarqueeStep(now: int)
      modifies this`textPos, this`lastMarqueeStep
      ensures old(doMarquee) ==> textPos == NextOffset(old(textPos), |text|, columns) && lastMarqueeStep == Some(now)
      ensures !old(doMarquee) ==> textPos == old(textPos) && lastMarqueeStep == old(lastMarqueeStep)
      ensures doMarquee && |text| >= columns ==> textPos <= |text| - columns
      ensures old(MarqueeInBounds()) ==> MarqueeInBounds()
    {
      if doMarquee {
        textPos := textPos + 1;
        if textPos >= |text| - columns + 1 {
          textPos := 0;
        }
        lastMarqueeStep := Some(now);
      }
    }

    /** `_time_for_marquee`: steps when a step time is known, the text scrolls
        and the hold for the current offset has passed; otherwise nothing
        changes. */
    method TimeForMarquee(now: int)
      modifies this`textPos, this`lastMarqueeStep
      ensures var due := old(lastMarqueeStep).Some? && doMarquee
                         && MarqueeDue(old(textPos), |text| - columns, now - old(lastMarqueeStep).value, timing);
        && (due ==> textPos == NextOffset(old(textPos), |text|, columns) && lastMarqueeStep == Some(now))
        && (!due ==> textPos == old(textPos) && lastMarqueeStep == old(lastMarqueeStep))
      ensures old(MarqueeInBounds()) ==> MarqueeInBounds()
    {
      if lastMarqueeStep.Some? && doMarquee {
        var elapsed := now - lastMarqueeStep.value;
        if textPos == 0 && elapsed >= timing.startDuration {
          MarqueeStep(now);
        } else if textPos == |text| - columns && elapsed >= timing.endDuration {
          MarqueeStep(now);
        } else if 0 < textPos < |text| - columns && elapsed >= timing.stepInterval {
          MarqueeStep(now);
        }
      }
    }

    /** The `update_text` of `MPDLine` and `FetchLine`: `provided` is the
        content source's current text. The line takes its formatted form when
        that differs from what it holds, and records the query time. */
    method UpdateText(now: int, provided: string)
      requires Valid() && kind.TextLine?
      modifies this`text, this`textPos, this`doMarquee, this`lastMarqueeStep, this`glyphs, this`currentText,
               this`lastUpdate
      ensures Valid()
      ensures text == FormatText(columns, provided, kind.align)
      ensures lastUpdate == Some(now)
      ensures old(text) != text ==>
        && textPos == 0 && lastMarqueeStep == Some(now) && doMarquee == (|text| > columns)
        && currentText == text[..columns]
        && glyphs == old(glyphs) + DiffWrites(lineNumber, text[..columns], old(currentText), columns)
      ensures old(text) == text ==>
        && textPos == old(textPos) && lastMarqueeStep == old(lastMarqueeStep) && doMarquee == old(doMarquee)
        && currentText == old(currentText) && glyphs == old(glyphs)
    {
      var newText := FormatText(columns, provided, kind.align);
      if text != newText {
        SetText(newText, kind.align, now);
        textPos := 0;
      }
      lastUpdate := Some(now);
    }

    /** The query half of `run_every`. */
    method Query(now: int, provided: string)
      requires Valid()
      modifies this`text, this`textPos, this`doMarquee, this`lastMarqueeStep, this`glyphs, this`currentText,
               this`lastUpdate
      ensures Valid()
      ensures State() == AfterQuery(lineNumber, columns, kind, old(State()), now, provided)
    {
      if kind.TextLine? && (lastUpdate.None? || now - lastUpdate.value >= kind.queryInterval) {
        UpdateText(now, provided);
      }
    }

    /** The display half of `run_every`: the marquee may step, then the
        window is rendered; `ok` is false where rendering raises. */
    method Show(now: int) returns (ok: bool)
      requires Valid()
      modifies this`textPos, this`lastMarqueeStep, this`glyphs, this`currentText
      ensures Valid()
      ensures var due := old(lastMarqueeStep).Some? && doMarquee
                         && MarqueeDue(old(textPos), |text| - columns, now - old(lastMarqueeStep).value, timing);
        && (due ==> textPos == NextOffset(old(textPos), |text|, columns) && lastMarqueeStep == Some(now))
        && (!due ==> textPos == old(textPos) && lastMarqueeStep == old(lastMarqueeStep))
      ensures var w := Window();
        && ok == (|w| == columns)
        && glyphs == old(glyphs) + DiffWrites(lineNumber, w, old(currentText), |w|)
        && currentText == (if ok then w else old(currentText))
    {
      TimeForMarquee(now);
      ok := WriteString();
    }

    /** One scheduler tick, `run_every` without the timer that schedules the
        next one: the query (`AfterQuery`, with `provided` the content
        source's current text), then `Show`. The ghost result `mid`
        is the line's state between the query and the marquee step. */
    method RunEvery(now: int, provided: string) returns (ok: bool, ghost mid: LineState)
      requires Valid()
      modifies this`text, this`textPos, this`doMarquee, this`lastMarqueeStep, this`glyphs, this`currentText,
               this`lastUpdate
      ensures Valid()
      ensures mid == AfterQuery(lineNumber, columns, kind, old(State()), now, provided)
      ensures text == mid.text && doMarquee == mid.doMarquee && lastUpdate == mid.lastUpdate
      ensures var due := mid.lastMarqueeStep.Some? && mid.doMarquee
                         && MarqueeDue(mid.textPos, |text| - columns, now - mid.lastMarqueeStep.value, timing);
        && (due ==> textPos == NextOffset(mid.textPos, |text|, columns) && lastMarqueeStep == Some(now))
        && (!due ==> textPos == mid.textPos && lastMarqueeStep == mid.lastMarqueeStep)
      ensures var w := Window();
        && ok == (|w| == columns)
        && glyphs == mid.glyphs + DiffWrites(lineNumber, w, mid.currentText, |w|)
        && currentText == (if ok then w else mid.currentText)
    {
      Query(now, provided);
      mid := State();
      ok := Show(now);
    }
  }
}
