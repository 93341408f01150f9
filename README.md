# raspi-mpd-lcd in Dafny

This project models the core of raspi-mpd-lcd. The program multiplexes several text lines onto a 20x4 HD44780 character LCD driven over I2C. The core has four layers:

- **Line renderer** (`LineController`, lib/LineController.py):
  - `format_text` pads a text to the line width with left, right or centre alignment.
  - `set_text_left` and `set_text_right` join a left and a right fragment.
  - A marquee state machine scrolls a text longer than the line. It holds at the start, steps, holds at the end, then wraps.
  - `_write_string` is a diffing renderer: it writes only the columns that changed.
  - `TextLine.run_every` asks its content source again only after a query interval.
  - Time is an integer `now` in milliseconds. The renderer's `write_char_at` calls are recorded as a `Glyph` trace.
- **Display controllers**:
  - `LcdController` models LCDController.py. It has a line registry with row checks, a cursor cache that saves positioning commands, and a `suspend` flag that makes `standby`/`resume` idempotent. It drives the byte-level driver.
  - Two observations from the model, not executed. After `standby` the cursor cache still points where it was, although clearing moved the display's address counter to the first cell. `standby` also clears the backlight bit without sending a byte, so the last byte latched on the bus keeps the backlight bit set (`StandbyLeavesBacklightLatched`).
  - `LegacyLcdController` models lib/LCDController.py. It has the same registry and cursor cache, but its `standby`/`resume` are unguarded. It talks to the patched `i2c_lcd` library, whose calls are recorded as `DeviceOp`s.
- **Byte encoder** (`LcdDriver`, lcd_driver.py):
  - Each byte goes out in 4-bit mode as two nibbles. Each nibble is an EN-high and an EN-low bus byte, with the RS, RW and backlight bits in the low half.
  - The `Driver` class keeps the bus bytes in its `bus` trace.
  - A decoder (`Decode`) reads a trace back the way the display does. It is proved to read back exactly what was sent for a single byte, a series of instructions, a series of data bytes, the glyph upload, and a series of the controller's `write_char_at` calls.
  - The module also covers DDRAM addressing for the 20x4 grid, locale substitution, the CGRAM glyph upload and the initialisation sequence.
- **German tables**:
  - `I2cLcdPatched` is the umlaut substitution of i2c_lcd_patched.py.
  - `LocaleDE` holds the `locale_chars`/`custom_chars` tables of locale_de.py. Its lemmas say they pass the driver's checks and agree with the patch.

`TextUtil` gives Python's `n * " "`, `rstrip(' ')`, `lstrip(' ')` and clamping slices their exact meaning. `Wrappers` holds an `Option` type.

## Model

| member | source | states |
|---|---|---|
| LineController.FormatText | lib/LineController.py:51-61 | shorter text: exactly `columns` long, text at 0 ("l" or any other align), at `columns-len` ("r"), or after floor(free/2) blanks with ceil(free/2) blanks after ("c"), all padding blanks; longer or equal text returned unchanged |
| LineController.FormatTextStripsBack | lib/LineController.py:51-61 | for every alignment, stripping the blanks of a formatted text gives the text back (text without blank ends) |
| LineController.JoinRight | lib/LineController.py:76-82 | fails exactly when rstrip(old)+fragment exceeds the width; else `columns` long, starts with rstrip(old), ends with the fragment, blanks between |
| LineController.JoinLeft | lib/LineController.py:84-89 | mirror image: fails exactly when fragment+lstrip(old) is too long; else starts with the fragment, ends with lstrip(old), blanks between |
| LineController.LeftThenRight | lib/LineController.py:149-154 | `update_time`'s clear, set-left, set-right lays out left part, blanks, right part whenever both fit |
| LineController.DiffWrites | lib/LineController.py:121-123 | the scan of `n` columns issues at most one write per column (which columns and characters: the four lemmas below) |
| LineController.DiffWritesSound | lib/LineController.py:119-125 | every write goes to a differing column of this line with the new character, in strictly increasing column order |
| LineController.DiffWritesComplete | lib/LineController.py:119-125 | every differing column gets a write |
| LineController.DiffWritesCount | lib/LineController.py:119-125 | k differing columns give exactly k writes |
| LineController.DiffWritesRepaint | lib/LineController.py:119-125 | applying the writes to the shown row yields the new window |
| LineController.NextOffset | lib/LineController.py:112-117 | the next offset is 0 or one more; it is 0 exactly when the last offset was reached; it never passes len(text)-columns |
| LineController.MarqueeVisitsInOrder | lib/LineController.py:112-117 | from the start, step k lands on offset k up to the last offset |
| LineController.MarqueeCycle | lib/LineController.py:112-117 | one step past the last offset wraps to 0 and the offsets repeat with period len(text)-columns+1 |
| LineController.MarqueeDue | lib/LineController.py:101-110 | on a scrolling text the step is due exactly when the hold for the offset has passed: start hold at 0, end hold at the last offset, step interval between; an offset outside that range is never due |
| LineController.LCDLine.constructor | lib/LineController.py:10-36 | empty text, offset 0, no marquee, no step time, row shown as `columns` blanks, empty glyph trace; timing defaults to 0.5 s steps, 3.0 s start hold, 5.0 s end hold |
| LineController.LCDLine.WriteString | lib/LineController.py:119-125 | appends exactly the diff writes between the window `text[pos:pos+columns]` and the shown row, then the row is the window; a short window fails (IndexError) after the writes before the missing column |
| LineController.LCDLine.SetText | lib/LineController.py:63-74 | offset 0, step time now, marquee iff longer than the line, text verbatim or formatted, rendered at once, marquee bounds hold |
| LineController.LCDLine.SetTextRight | lib/LineController.py:76-82 | text becomes `JoinRight` of the old text, or is unchanged on failure |
| LineController.LCDLine.SetTextLeft | lib/LineController.py:84-89 | text becomes `JoinLeft` of the old text, or is unchanged on failure |
| LineController.LCDLine.ClearText | lib/LineController.py:91-93 | empty text, offset 0 |
| LineController.LCDLine.Resume | lib/LineController.py:47-49 | shown row is `columns` blanks, empty text, offset 0; a text line also forgets its last query time (lines 176-178) |
| LineController.LCDLine.MarqueeStep | lib/LineController.py:112-117 | no-op without marquee; else offset becomes `NextOffset`, step time now, and the offset stays within 0..len(text)-columns |
| LineController.LCDLine.TimeForMarquee | lib/LineController.py:101-110 | steps exactly when a step time exists, the text scrolls and `MarqueeDue` holds; otherwise nothing changes |
| LineController.LCDLine.UpdateText | lib/LineController.py:195-202 | text becomes the formatted provider text and the query time is now; when the text changed: offset 0, step time now, marquee iff longer than the line, row repainted by exactly the diff writes; otherwise offset, marquee, step time, row and glyph trace unchanged |
| LineController.AfterQuery | lib/LineController.py:164-170 | the query on a line's state as a value: no change unless a text line never queried or its interval passed; asking records the time and holds the formatted text; a changed text restarts the marquee at offset 0 and repaints the row by diff writes; an unchanged one changes nothing else |
| LineController.AfterQueryIdempotent | lib/LineController.py:164-170 | a second query at the same time with the same provider text changes nothing |
| LineController.LCDLine.Query | lib/LineController.py:164-170 | the line's new state is `AfterQuery` of its old state |
| LineController.LCDLine.Show | lib/LineController.py:38-42 | the marquee steps exactly when due (offset `NextOffset`, step time now), otherwise offset and step time kept; then the row gets exactly the diff writes of the window and shows it, or the render fails on a short window |
| LineController.QuerySchedules | lib/LineController.py:157-170 | a line that never asked asks at once; after a query, a default text line asks again from 5 s on, a `FetchLine` (whose 60 s interval is set after the keyword arguments, line 210) from 60 s on, a plain line never |
| LineController.LCDLine.RunEvery | lib/LineController.py:164-174 | the state after the query is `AfterQuery` of the old state (text, marquee flag and query time stay so); from there the marquee steps exactly when due and the window is rendered by diff writes as in `Show` |
| LcdDriver.NibblesAreMasks | lcd_driver.py:176-179 | the two nibbles are `byte & 0xF0` and `(byte << 4) & 0xF0` |
| LcdDriver.NibblesOfLowByte | lcd_driver.py:172-179 | the nibbles see only the low byte and rebuild it: high + low/16 == byte mod 256 |
| LcdDriver.BusByteIsOr | lcd_driver.py:182-191 | the bus byte, the bitwise or of nibble, EN, RW, RS and backlight bits, is the sum of its disjoint parts |
| LcdDriver.ByteFramesDecode | lcd_driver.py:172-191 | the four bus bytes of `write_byte` are two correct EN pulses with RW clear, and the display reads back the byte, its RS choice and the backlight state |
| LcdDriver.CommandFramesDecode | lcd_driver.py:193-194 | a series of `write_cmd` calls is read back as exactly those instructions, in order |
| LcdDriver.DataFramesDecode | lcd_driver.py:196-202 | a series of data writes is read back as exactly those data bytes, in order |
| LcdDriver.LocaleCode | lcd_driver.py:166-170 | a character in the locale table gets its entry, any other its code point |
| LcdDriver.TextCodes | lcd_driver.py:166-170 | one code per character: the locale code if mapped, else the code point |
| LcdDriver.DdramCommand | lcd_driver.py:139-158 | `0x80 + offset(line) + column` is, on the 20x4 grid, a valid instruction inside one of the two DDRAM lines; rows 3 and 4 continue rows 1 and 2 |
| LcdDriver.DdramInjective | lcd_driver.py:139-158 | distinct cells of the 20x4 grid get distinct addresses |
| LcdDriver.FirstMalformed | lcd_driver.py:121-125 | the glyphs before it are 8 rows high and the one at it (if any) is not |
| LcdDriver.ShapeFramesAreRows | lcd_driver.py:121-129 | storing the glyphs one after another is one run of data writes of all their rows in order |
| LcdDriver.ShapeFramesDecode | lcd_driver.py:121-129 | the glyph upload is well formed and the display reads back exactly the glyph rows, in order, as data bytes |
| LcdDriver.CgramAssignIndices | lcd_driver.py:130-133 | glyph i's character maps to CGRAM code i; every other character keeps its entry |
| LcdDriver.DisplayModeFlags | lcd_driver.py:96-106 | the or-ed flags are 0x28, 0x08, 0x01, 0x06 and 0x0C |
| LcdDriver.Driver.constructor | lcd_driver.py:62-72 | backlight bit BL_ON or BL_OFF, the locale's tables, empty bus |
| LcdDriver.Driver.SendNibble | lcd_driver.py:182-191 | exactly two bus bytes, EN high then EN low, with the current backlight bit |
| LcdDriver.Driver.WriteByte | lcd_driver.py:172-180 | high nibble then low nibble, RW clear |
| LcdDriver.Driver.WriteCmd | lcd_driver.py:193-194 | one byte with RS clear |
| LcdDriver.Driver.WriteChar | lcd_driver.py:196-198 | the character's locale code with RS set |
| LcdDriver.Driver.Write | lcd_driver.py:200-202 | one `write_char` per character, in order |
| LcdDriver.Driver.SetPosition | lcd_driver.py:139-158 | one instruction `DdramCommand(line, column)` |
| LcdDriver.Driver.ClearDisplay | lcd_driver.py:135-137 | one instruction 0x01 |
| LcdDriver.Driver.Backlight | lcd_driver.py:160-164 | sets the bit to BL_ON or BL_OFF and writes no bus byte |
| LcdDriver.Driver.Init4Bit | lcd_driver.py:86-94 | instructions 0x03, 0x03, 0x03, 0x02 |
| LcdDriver.Driver.InitDisplayMode | lcd_driver.py:96-106 | instructions 0x28, 0x08, 0x01, 0x06, 0x0C |
| LcdDriver.Driver.WriteShape | lcd_driver.py:128-129 | one data byte per row of the glyph |
| LcdDriver.Driver.DefCustomChars | lcd_driver.py:108-133 | more than 8 glyphs: fails with no write; else CGRAM address 0, then 8 data bytes and the next code per glyph, stopping with failure at the first glyph that is not 8 rows high |
| LcdDriver.Driver.Initialize | lcd_driver.py:77-84 | succeeds exactly when the glyph table is valid, then sends 4-bit set-up, glyphs and display mode in that order; on failure the bus holds the 4-bit set-up and, unless there are more than 8 glyphs, the CGRAM address and the glyphs before the first malformed one, and the table holds their codes |
| I2cLcdPatched.Substitute | i2c_lcd_patched.py:8-18 | changes a character exactly when it is an umlaut or sharp s, and then to one of the ROM codes 225, 226, 239, 245 |
| I2cLcdPatched.CaseFolded | i2c_lcd_patched.py:9-16 | both cases of each umlaut give the same code: 225, 239, 245; sharp s gives 226 |
| I2cLcdPatched.SubstituteIdempotent | i2c_lcd_patched.py:8-18 | substituting twice is substituting once |
| I2cLcdPatched.SubstituteMerges | i2c_lcd_patched.py:8-18 | two different characters share a written code only as the two cases of one umlaut, or as a letter and its own ROM code |
| LocaleDE.LocaleChars | locale_de.py:7-12 | exactly ä, ß, ö, ü are mapped, each to a code in the upper half 128..255 of the ROM |
| LocaleDE.CustomChars | locale_de.py:15-45 | three glyphs for Ä, Ö, Ü in that order, 8 rows each, two dots in the top row and a blank bottom row |
| LocaleDE.LocaleCharsMatchPatch | locale_de.py:7-12 | `locale_chars` uses the patch's codes; the only umlauts it lacks are the upper-case ones |
| LocaleDE.CustomCharsWellFormed | locale_de.py:15-45 | 3 glyphs (at most 8), each 8 rows, every row below 32 |
| LocaleDE.CustomKeysFresh | locale_de.py:7-45 | glyph characters are distinct and absent from `locale_chars` |
| LocaleDE.InstalledTable | locale_de.py:7-45 | after the glyph upload the table is the four ROM codes plus Ä→0, Ö→1, Ü→2 |
| LocaleDE.DriverAgreesWithPatch | locale_de.py:7-45 | the installed table writes every character as the patch does, except Ä, Ö, Ü, which show their own glyphs |
| LcdController.AdmitKeepsRowsExclusive | LCDController.py:35-47 | storing an admitted line keeps every row in 1..lines and no row shared, also when a name is replaced |
| LcdController.RemoveKeepsRowsExclusive | LCDController.py:49-52 | removing a name keeps the registry invariant |
| LcdController.PositionCount | LCDController.py:65-73 | the positioning commands a series of `write_char_at` calls issues: at most one per write, and one for every write when no write lands where the cursor was left (exactly this many on the bus by `CellsTransfersShape`) |
| LcdController.CellsFrames | LCDController.py:65-73 | the bus bytes of a series of `write_char_at` calls: four per character and four per positioning command |
| LcdController.CellsFramesDecode | LCDController.py:65-73 | those bytes are well formed and decode to each character's data byte, preceded by its cell's DDRAM address instruction exactly when the cached cursor points elsewhere |
| LcdController.CellsTransfersShape | LCDController.py:65-73 | the decoded writes hold exactly `PositionCount` instructions, and their data bytes are the character codes in order |
| LcdController.RunPositionsOnce | LCDController.py:65-73 | writes to adjacent columns position once at most, and not at all when the cursor is already there |
| LcdController.BlankRowShowsBlanks | LCDController.py:49-50 | the text `remove_line` sets shows only blanks on the line |
| LcdController.LCD.constructor | LCDController.py:9-26 | empty registry, cursor (0, 0), not suspended; the registry, line and driver invariants hold |
| LcdController.LCD.Backlight | LCDController.py:28-33 | driver backlight bit set accordingly |
| LcdController.LCD.SetLine | LCDController.py:35-47 | invalid row, then row in use, are errors leaving the registry unchanged; otherwise stored under the name; the registry invariant holds |
| LcdController.LCD.RemoveLine | LCDController.py:49-52 | blanks the line through its `set_text` (offset 0, step time now, row repainted by exactly the diff writes to blanks and showing the blank window, query time kept), removes only that name, other lines untouched; unknown name fails with nothing changed |
| LcdController.LCD.SetPosition | LCDController.py:54-63 | one positioning instruction, cursor (line, column) |
| LcdController.LCD.WriteCharAt | LCDController.py:65-73 | positioning instruction only when the cursor differs, one character, cursor (line, column+1) |
| LcdController.LCD.WriteGlyphs | lib/LineController.py:121-123 | `write_char_at` for each glyph of a line's trace in order: the bus gets exactly `CellsFrames` of the glyphs' cells and codes, and the cursor ends after the last glyph |
| LcdController.LCD.Standby | LCDController.py:75-83 | only when not suspended: suspend, clear, backlight off; otherwise nothing; the cursor is kept; from a lit display the last bus byte is 0x18, backlight bit still set |
| LcdController.StandbyLeavesBacklightLatched | LCDController.py:82-83 | the last byte on the bus after `standby` is the clear instruction's low-nibble frame with the backlight bit that was set before; no byte carries the cleared bit |
| LcdController.LCD.Resume | LCDController.py:85-93 | only when suspended: flag cleared, every line resumed, backlight on; otherwise nothing |
| LcdController.LCD.ResumeLines | LCDController.py:89-91 | every registered line is resumed: row blank, text empty, offset 0, a text line's query time forgotten; marquee flag, step time and glyph trace kept |
| LegacyLcdController.LCD.constructor | lib/LCDController.py:8-27 | empty registry, cursor (0, 0), display enabled, backlight on |
| LegacyLcdController.LCD.Backlight | lib/LCDController.py:29-41 | one backlight-on or backlight-off call |
| LegacyLcdController.LCD.SetLine | lib/LCDController.py:43-55 | same checks and outcome as the later controller |
| LegacyLcdController.LCD.RemoveLine | lib/LCDController.py:57-60 | blanks the line (offset 0, step time now, row repainted by exactly the diff writes to blanks and showing the blank window, query time kept), removes only that name; unknown name fails |
| LegacyLcdController.LCD.SetPosition | lib/LCDController.py:62-71 | one positioning call, cursor (line, column) |
| LegacyLcdController.LCD.WriteCharAt | lib/LCDController.py:73-81 | positioning only when the cursor differs, exactly one library `writeChar` of the substituted character, cursor (line, column+1) |
| LegacyLcdController.LCD.Standby | lib/LCDController.py:83-88 | every call clears and turns the backlight off: not idempotent |
| LegacyLcdController.LCD.Resume | lib/LCDController.py:90-96 | every call resumes all lines and turns the backlight on |
| LegacyLcdController.LCD.ResumeLines | lib/LCDController.py:92-94 | every registered line is resumed: row blank, text empty, offset 0, a text line's query time forgotten; marquee flag, step time and glyph trace kept |

## Left out

- Threads, `threading.RLock` and the self-rescheduling `threading.Timer` are left out. This covers `run_every`'s timer and `refresh_interval`, and the lock loops in `standby`/`resume`. A call is one atomic step.
- `sleep` calls and settling times in lcd_driver.py are left out because they have no effect on the byte sequence.
- Wall-clock time is an integer `now` in milliseconds, and the float durations are integer milliseconds. Not modelled: `strftime`/`gmtime`, `TimeLine`'s clock text, `TimeLine.start_time`, and its reset on resume. `TimeLine.update_time`'s use of `set_text_left`/`set_text_right` is `LeftThenRight`.
- MPD (`MPDClient`) and the `urllib` fetcher thread are left out. The text they deliver is the `provided` parameter of `UpdateText`/`RunEvery`.
- i2c_lib.py (smbus) is not part of this model. Bus writes are the `Driver.bus` trace. The `i2clibraries` library behind i2c_lcd_patched.py is not part of this model either: its calls are `DeviceOp` entries, without its own start-up sequence or pin mapping.
- main.py, lcd_test.py and umlaut_test.py are scripts and are not modelled.
- The dynamic `setattr` keyword arguments of `LCDLine.__init__` become explicit constructor parameters: `columns`, `timing` and `kind`. `timing` defaults to the source's 0.5 s, 3.0 s and 5.0 s, and `kind` to a plain line. `TextLineDefaults` and `FetchLineKind` are the kinds of a `TextLine` and a `FetchLine`.
- The rendering a line sends through its controller's `write_char_at` is recorded in the line's own `glyphs` trace. A line holds no reference to its controller. `LCD.WriteGlyphs` replays such a trace through `write_char_at` as a separate call.
- `LCDLine._set_position` (lib/LineController.py:95-99) is called by nothing in the core and is not modelled.
- `TextLine.update_text` only raises `NotImplementedError`. `UpdateText` models the `MPDLine`/`FetchLine` overrides. The fetcher run of a `FetchLine` is left out; its next text is the next `provided` value.
- Error outcomes are results (`ok`, `SetLineResult`), not exceptions. The error messages are left out, including those that concatenate `str + int` and so raise `TypeError` instead.
- `LcdDriver.Driver.Initialize` returns `false` where `LCD.__init__` raises. The default locale (`LocaleClass()`, lcd_driver.py:69-70) is left out because that module is not part of this model; the locale is a parameter.
- `LcdController.LCD.constructor` takes an already built `Driver` instead of building it with `LCDDriver.LCD(locale)`.
- `LegacyLcdController.LCD.Resume` does not model the `suspend = False` assignment (lib/LCDController.py:97). Nothing in that class reads the attribute.
- `LcdDriver.NibblesAreMasks` states the mask equations for byte values only. `NibblesOfLowByte` carries any other integer to its low byte.
- `LcdDriver.DdramCommand` states its address range only for rows 1-4 and columns 0-19. Outside the grid the formula is still the one computed, but the command need not be a valid address.
