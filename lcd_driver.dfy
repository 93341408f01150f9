/** The HD44780 driver behind an I2C port expander (lcd_driver.py). Every
    instruction or character byte goes out in 4-bit mode as two nibbles, and
    each nibble as two bus bytes: one with the enable line (EN) high and then
    one with it low. The low bits of each bus byte carry RS (data rather than
    command), RW and the backlight. The `Driver` class keeps the bytes it
    would put on the bus in its `bus` trace. Bytes are integers in 0..255. */
module LcdDriver {

  // ---------------------------------------------------------------------------
  // Instruction codes and flags (HD44780U instruction table)

  const ClearDisplayCmd := 0x01
  const EntryModeSetCmd := 0x04
  const DisplayControlCmd := 0x08
  const FunctionSetCmd := 0x20
  const SetCgramAddrCmd := 0x40
  const SetDdramAddrCmd := 0x80

  const EntryLeft := 0x02
  const DisplayOn := 0x04
  const DisplayOff := 0x00
  const CursorOff := 0x00
  const FourBitMode := 0x00
  const TwoLine := 0x08
  const Dots5x8 := 0x00

  // Bits of a bus byte: cccc BL EN RW RS
  const RsOn := 0x01
  const RsOff := 0x00
  const RwOn := 0x02
  const RwOff := 0x00
  const EnOn := 0x04
  const EnOff := 0x00
  const BlOn := 0x08
  const BlOff := 0x00

  /** A control bit argument is either clear or exactly its bit. */
  predicate Flag(b: int, bit: int) {
    b == 0 || b == bit
  }

  /** Python's `|` on two bytes. */
  function Or(a: int, b: int): int
    requires 0 <= a < 256 && 0 <= b < 256
  {
    ((a as bv8) | (b as bv8)) as int
  }

  /** Whether bit `k` (a power of two) is set in `b`. */
  predicate Bit(b: int, k: int)
    requires k > 0
  {
    (b / k) % 2 == 1
  }

  // ---------------------------------------------------------------------------
  // Encoding

  /** `byte & 0b11110000` on a Python int: the upper four bits of its low byte. */
  function HighNibble(v: int): int {
    16 * ((v % 256) / 16)
  }

  /** `(byte << 4) & 0b11110000`: the lower four bits, moved up. */
  function LowNibble(v: int): int {
    16 * (v % 16)
  }

  /** On a byte `b`, the two nibbles are the source's masks `b & 0b11110000`
      and `(b << 4) & 0b11110000`. */
  lemma {:induction false} NibblesAreMasks(b: bv8)
    ensures HighNibble(b as int) == (b & 0xF0) as int
    ensures LowNibble(b as int) == ((b << 4) & 0xF0) as int
  {
    MaskHigh(b);
    MaskLow(b);
  }

  lemma {:induction false} MaskHigh(b: bv8)
    ensures (b & 0xF0) as int == 16 * (b as int / 16)
  {
  }

  lemma {:induction false} MaskLow(b: bv8)
    ensures ((b << 4) & 0xF0) as int == 16 * (b as int % 16)
  {
  }

  /** On any int the nibbles only see its low byte, and they give it back. */
  lemma {:induction false} NibblesOfLowByte(v: int)
    ensures HighNibble(v) == HighNibble(v % 256) && LowNibble(v) == LowNibble(v % 256)
    ensures HighNibble(v) + LowNibble(v) / 16 == v % 256
  {
    var m := v % 256;
    assert m % 256 == m;
    assert v % 16 == m % 16 by { ModSixteen(v); }
  }

  lemma {:induction false} ModSixteen(v: int)
    ensures v % 16 == (v % 256) % 16
  {
    var q, m := v / 256, v % 256;
    assert v == 256 * q + m;
    assert m == 16 * (m / 16) + m % 16;
    ModUnique(v, 16 * q + m / 16, m % 16);
  }

  lemma {:induction false} ModUnique(v: int, a: int, r: int)
    requires v == 16 * a + r && 0 <= r < 16
    ensures v % 16 == r
  {
  }

  /** The bus byte `nibble | en | rw | rs | bl`. The operands occupy disjoint
      bits, so the source's `|` is their sum (`BusByteIsOr`). */
  function BusByte(nibble: int, en: int, rw: int, rs: int, bl: int): int {
    nibble + en + rw + rs + bl
  }

  lemma {:induction false} BusByteIsOr(nibble: bv8, en: bv8, rw: bv8, rs: bv8, bl: bv8)
    requires nibble & 0x0F == 0
    requires Flag(en as int, EnOn) && Flag(rw as int, RwOn) && Flag(rs as int, RsOn) && Flag(bl as int, BlOn)
    ensures BusByte(nibble as int, en as int, rw as int, rs as int, bl as int) == (nibble | en | rw | rs | bl) as int
  {
  }

  /** `send_nibble`: the two bus bytes that clock one nibble in. */
  function NibbleFrames(nibble: int, rw: int, rs: int, bl: int): seq<int> {
    [BusByte(nibble, EnOn, rw, rs, bl), BusByte(nibble, EnOff, rw, rs, bl)]
  }

  /** `write_byte`: the high nibble, then the low nibble, written with RW
      clear. */
  function ByteFrames(v: int, rs: int, bl: int): (r: seq<int>)
    ensures |r| == 4
  {
    NibbleFrames(HighNibble(v), RwOff, rs, bl) + NibbleFrames(LowNibble(v), RwOff, rs, bl)
  }

  /** Consecutive `write_cmd` calls, one per command. */
  function CommandFrames(cmds: seq<int>, bl: int): (r: seq<int>)
    ensures |r| == 4 * |cmds|
  {
    if cmds == [] then [] else CommandFrames(cmds[..|cmds| - 1], bl) + ByteFrames(cmds[|cmds| - 1], RsOff, bl)
  }

  /** Consecutive data writes (RS set), one per value. */
  function DataFrames(values: seq<int>, bl: int): (r: seq<int>)
    ensures |r| == 4 * |values|
  {
    if values == [] then [] else DataFrames(values[..|values| - 1], bl) + ByteFrames(values[|values| - 1], RsOn, bl)
  }

  lemma {:induction false} AppendAssoc(a: seq<int>, b: seq<int>, c: seq<int>)
    ensures (a + b) + c == a + (b + c)
  {
  }

  lemma {:induction false} CommandFramesSnoc(cmds: seq<int>, c: int, all: seq<int>, bl: int)
    requires all == cmds + [c]
    ensures CommandFrames(all, bl) == CommandFrames(cmds, bl) + ByteFrames(c, RsOff, bl)
  {
    assert all[..|cmds|] == cmds;
  }

  lemma {:induction false} DataFramesSnoc(values: seq<int>, v: int, bl: int)
    ensures DataFrames(values + [v], bl) == DataFrames(values, bl) + ByteFrames(v, RsOn, bl)
  {
    assert (values + [v])[..|values|] == values;
  }

  /** `replace_locale_chars`: the locale's code for a mapped character, its
      code point otherwise. */
  function LocaleCode(localeChars: map<char, int>, c: char): (r: int)
    ensures c in localeChars ==> r == localeChars[c]
    ensures c !in localeChars ==> r == c as int
  {
    if c in localeChars then localeChars[c] else c as int
  }

  /** The codes `write` sends for a string, one per character. */
  function TextCodes(localeChars: map<char, int>, s: string): (r: seq<int>)
    ensures |r| == |s|
    ensures forall i :: 0 <= i < |s| ==> r[i] == LocaleCode(localeChars, s[i])
  {
    if s == [] then [] else TextCodes(localeChars, s[..|s| - 1]) + [LocaleCode(localeChars, s[|s| - 1])]
  }

  // ---------------------------------------------------------------------------
  // Decoding: what the display reads off the bus

  /** One byte transferred to the display: an instruction or a data byte, the
      value it carries and whether the backlight was on. */
  datatype Transfer = Transfer(isData: bool, value: int, backlight: bool)

  /** Four bus bytes that clock in one byte correctly: EN high then low for
      each nibble with nothing else changing, RW clear (a write), and the same
      RS and backlight bits on both nibbles. */
  predicate GroupOk(g: seq<int>)
    requires |g| == 4
  {
    && Bit(g[0], EnOn) && g[1] == g[0] - EnOn
    && Bit(g[2], EnOn) && g[3] == g[2] - EnOn
    && !Bit(g[0], RwOn) && g[2] % 16 == g[0] % 16
  }

  /** A trace made of whole, correctly clocked groups of four bus bytes. */
  predicate WellFormed(bus: seq<int>) {
    bus == [] || (|bus| >= 4 && GroupOk(bus[..4]) && WellFormed(bus[4..]))
  }

  /** The byte clocked in by four bus bytes: high nibble from the first EN
      pulse, low nibble from the second; RS and the backlight from the first. */
  function DecodeGroup(g: seq<int>): Transfer
    requires |g| == 4
  {
    Transfer(Bit(g[0], RsOn), 16 * (g[0] / 16) + g[2] / 16, Bit(g[0], BlOn))
  }

  function Decode(bus: seq<int>): seq<Transfer> {
    if |bus| < 4 then [] else [DecodeGroup(bus[..4])] + Decode(bus[4..])
  }

  /** Round trip of `write_byte`: the four bus bytes are well formed and the
      display reads back the value modulo 256, the RS choice and the
      backlight state. */
  lemma {:induction false} ByteFramesDecode(v: int, rs: int, bl: int)
    requires Flag(rs, RsOn) && Flag(bl, BlOn)
    ensures WellFormed(ByteFrames(v, rs, bl))
    ensures Decode(ByteFrames(v, rs, bl)) == [Transfer(rs == RsOn, v % 256, bl == BlOn)]
  {
    var f := ByteFrames(v, rs, bl);
    var m := v % 256;
    var hi, lo := m / 16, v % 16;
    assert f == [16 * hi + EnOn + rs + bl, 16 * hi + rs + bl, 16 * lo + EnOn + rs + bl, 16 * lo + rs + bl];
    LowBits(hi, rs, bl);
    LowBits(lo, rs, bl);
    ModSixteen(v);
    assert m == 16 * hi + lo;
    assert f[4..] == [] && f[..4] == f;
  }

  /** Reading the bits of `16 * n + EN + RS + BL`. */
  lemma {:induction false} LowBits(n: int, rs: int, bl: int)
    requires 0 <= n < 16 && Flag(rs, RsOn) && Flag(bl, BlOn)
    ensures var f := 16 * n + EnOn + rs + bl;
      && Bit(f, EnOn) && !Bit(f, RwOn) && (Bit(f, RsOn) <==> rs == RsOn) && (Bit(f, BlOn) <==> bl == BlOn)
      && f / 16 == n && f % 16 == EnOn + rs + bl
  {
  }

  /** Decoding distributes over bus traces made of whole transfers. */
  lemma {:induction false} DecodeAppend(a: seq<int>, b: seq<int>, k: nat)
    requires |a| == 4 * k
    ensures Decode(a + b) == Decode(a) + Decode(b)
  {
    if k > 0 {
      var ab := a + b;
      assert ab[..4] == a[..4];
      assert ab[4..] == a[4..] + b;
      DecodeAppend(a[4..], b, k - 1);
      var t := [DecodeGroup(a[..4])];
      assert Decode(ab) == t + (Decode(a[4..]) + Decode(b));
      assert Decode(a) == t + Decode(a[4..]);
      assert t + (Decode(a[4..]) + Decode(b)) == (t + Decode(a[4..])) + Decode(b);
    } else {
      assert a + b == b;
    }
  }

  /** Well-formed traces stay well formed when joined. */
  lemma {:induction false} WellFormedAppend(a: seq<int>, b: seq<int>)
    requires WellFormed(a) && WellFormed(b)
    ensures WellFormed(a + b)
  {
    if |a| > 0 {
      var ab := a + b;
      assert ab[..4] == a[..4];
      assert ab[4..] == a[4..] + b;
      WellFormedAppend(a[4..], b);
    } else {
      assert a + b == b;
    }
  }

  /** The display reads back every command, in order. */
  lemma {:induction false} CommandFramesDecode(cmds: seq<int>, bl: int)
    requires Flag(bl, BlOn)
    ensures WellFormed(CommandFrames(cmds, bl))
    ensures Decode(CommandFrames(cmds, bl)) == seq(|cmds|, i requires 0 <= i < |cmds| => Transfer(false, cmds[i] % 256, bl == BlOn))
  {
    if cmds != [] {
      var init := cmds[..|cmds| - 1];
      CommandFramesDecode(init, bl);
      ByteFramesDecode(cmds[|cmds| - 1], RsOff, bl);
      DecodeAppend(CommandFrames(init, bl), ByteFrames(cmds[|cmds| - 1], RsOff, bl), |init|);
      WellFormedAppend(CommandFrames(init, bl), ByteFrames(cmds[|cmds| - 1], RsOff, bl));
    }
  }

  /** The display reads back every data value, in order. */
  lemma {:induction false} DataFramesDecode(values: seq<int>, bl: int)
    requires Flag(bl, BlOn)
    ensures WellFormed(DataFrames(values, bl))
    ensures Decode(DataFrames(values, bl)) == seq(|values|, i requires 0 <= i < |values| => Transfer(true, values[i] % 256, bl == BlOn))
  {
    if values != [] {
      var init := values[..|values| - 1];
      DataFramesDecode(init, bl);
      ByteFramesDecode(values[|values| - 1], RsOn, bl);
      DecodeAppend(DataFrames(init, bl), ByteFrames(values[|values| - 1], RsOn, bl), |init|);
      WellFormedAppend(DataFrames(init, bl), ByteFrames(values[|values| - 1], RsOn, bl));
    }
  }

  // ---------------------------------------------------------------------------
  // Addressing

  /** The DDRAM offset of a row's first column on a 20x4 module: rows 1 and 3
      share the first 40-character DDRAM line, rows 2 and 4 the second (which
      starts at 0x40); any other row is treated as row 1. */
  function LineOffset(line: int): int {
    if line == 1 then 0
    else if line == 2 then 64
    else if line == 3 then 20
    else if line == 4 then 84
    else 0
  }

  /** `set_position`'s command: "Set DDRAM Address" (bit 7 set) plus the
      address of the row and column. On the 20x4 grid it is a valid
      instruction whose 7-bit address lies in one of the two DDRAM lines
      (0x00-0x27 or 0x40-0x67), and row 3 continues row 1 and row 4 row 2. */
  function DdramCommand(line: int, column: int): (cmd: int)
    ensures 1 <= line <= 4 && 0 <= column < 20 ==>
      && 0x80 <= cmd < 0x100
      && (0x80 <= cmd < 0x80 + 0x28 || 0x80 + 0x40 <= cmd < 0x80 + 0x68)
      && (line == 3 ==> cmd == DdramCommand(1, column + 20))
      && (line == 4 ==> cmd == DdramCommand(2, column + 20))
  {
    SetDdramAddrCmd + LineOffset(line) + column
  }

  /** Distinct cells of the 20x4 grid get distinct DDRAM addresses. */
  lemma {:induction false} DdramInjective(l1: int, c1: int, l2: int, c2: int)
    requires 1 <= l1 <= 4 && 0 <= c1 < 20 && 1 <= l2 <= 4 && 0 <= c2 < 20
    requires DdramCommand(l1, c1) == DdramCommand(l2, c2)
    ensures l1 == l2 && c1 == c2
  {
  }

  // ---------------------------------------------------------------------------
  // Custom characters (CGRAM)

  /** A custom glyph: the character it stands for and its rows, top to bottom. */
  type CustomChar = (char, seq<int>)

  /** A locale: characters replaced by a ROM code, and custom glyphs in the
      order the dictionary lists them. */
  datatype Locale = Locale(localeChars: map<char, int>, customChars: seq<CustomChar>)

  /** The index of the first custom glyph that is not 8 rows high, or the
      number of glyphs when all of them are. */
  function FirstMalformed(cs: seq<CustomChar>): (k: nat)
    ensures k <= |cs|
    ensures forall i :: 0 <= i < k ==> |cs[i].1| == 8
    ensures k < |cs| ==> |cs[k].1| != 8
  {
    if cs == [] then 0
    else if |cs[0].1| != 8 then 0
    else 1 + FirstMalformed(cs[1..])
  }

  /** The data writes that store the glyphs' rows in CGRAM, glyph by glyph. */
  function ShapeFrames(cs: seq<CustomChar>, bl: int): seq<int> {
    if cs == [] then [] else ShapeFrames(cs[..|cs| - 1], bl) + DataFrames(cs[|cs| - 1].1, bl)
  }

  lemma {:induction false} ShapeFramesSnoc(cs: seq<CustomChar>, k: nat, bl: int)
    requires k < |cs|
    ensures ShapeFrames(cs[..k + 1], bl) == ShapeFrames(cs[..k], bl) + DataFrames(cs[k].1, bl)
  {
    assert cs[..k + 1][..k] == cs[..k];
  }

  /** All glyph rows, glyph after glyph: what `def_custom_chars` writes into
      CGRAM from address 0 on. */
  function Rows(cs: seq<CustomChar>): seq<int> {
    if cs == [] then [] else Rows(cs[..|cs| - 1]) + cs[|cs| - 1].1
  }

  lemma {:induction false} DataFramesAppend(a: seq<int>, b: seq<int>, bl: int)
    ensures DataFrames(a + b, bl) == DataFrames(a, bl) + DataFrames(b, bl)
    decreases |b|
  {
    if b == [] {
      assert a + b == a;
    } else {
      var init := b[..|b| - 1];
      assert (a + b)[..|a + b| - 1] == a + init;
      DataFramesAppend(a, init, bl);
      AppendAssoc(DataFrames(a, bl), DataFrames(init, bl), ByteFrames(b[|b| - 1], RsOn, bl));
    }
  }

  /** Storing the glyphs one after another is one run of data writes of all
      their rows in order. */
  lemma {:induction false} ShapeFramesAreRows(cs: seq<CustomChar>, bl: int)
    ensures ShapeFrames(cs, bl) == DataFrames(Rows(cs), bl)
  {
    if cs != [] {
      var init := cs[..|cs| - 1];
      ShapeFramesAreRows(init, bl);
      DataFramesAppend(Rows(init), cs[|cs| - 1].1, bl);
    }
  }

  /** Round trip of the glyph upload: the display reads exactly the glyph
      rows, in order, as data bytes. */
  lemma {:induction false} ShapeFramesDecode(cs: seq<CustomChar>, bl: int)
    requires Flag(bl, BlOn)
    ensures WellFormed(ShapeFrames(cs, bl))
    ensures var rows := Rows(cs);
      Decode(ShapeFrames(cs, bl)) == seq(|rows|, i requires 0 <= i < |rows| => Transfer(true, rows[i] % 256, bl == BlOn))
  {
    ShapeFramesAreRows(cs, bl);
    DataFramesDecode(Rows(cs), bl);
  }

  /** The locale table after the glyphs `cs` got CGRAM codes 0, 1, ... in order. */
  function CgramAssign(m: map<char, int>, cs: seq<CustomChar>): map<char, int> {
    if cs == [] then m else CgramAssign(m, cs[..|cs| - 1])[cs[|cs| - 1].0 := |cs| - 1]
  }

  lemma {:induction false} CgramAssignSnoc(m: map<char, int>, cs: seq<CustomChar>, k: nat)
    requires k < |cs|
    ensures CgramAssign(m, cs[..k + 1]) == CgramAssign(m, cs[..k])[cs[k].0 := k]
  {
    assert cs[..k + 1][..k] == cs[..k];
  }

  predicate DistinctKeys(cs: seq<CustomChar>) {
    forall i, j :: 0 <= i < j < |cs| ==> cs[i].0 != cs[j].0
  }

  /** Each glyph's character is mapped to its position, which is its CGRAM
      code; every other character keeps its entry. */
  lemma {:induction false} CgramAssignIndices(m: map<char, int>, cs: seq<CustomChar>)
    requires DistinctKeys(cs)
    ensures forall i :: 0 <= i < |cs| ==> cs[i].0 in CgramAssign(m, cs) && CgramAssign(m, cs)[cs[i].0] == i
    ensures forall c :: (forall i :: 0 <= i < |cs| ==> cs[i].0 != c) ==>
      (c in CgramAssign(m, cs) <==> c in m) && (c in m ==> CgramAssign(m, cs)[c] == m[c])
  {
    if cs != [] {
      var init := cs[..|cs| - 1];
      CgramAssignIndices(m, init);
      forall i | 0 <= i < |cs| - 1 ensures cs[i].0 != cs[|cs| - 1].0 && init[i] == cs[i] {
      }
    }
  }

  // ---------------------------------------------------------------------------
  // The initialisation sequence

  /** The four instructions of `init_4_bit`. */
  function FourBitCommands(): seq<int> {
    [0x03, 0x03, 0x03, 0x02]
  }

  /** The five instructions of `init_display_mode`, in order. */
  function DisplayModeCommands(): seq<int> {
    [0x28, 0x08, 0x01, 0x06, 0x0C]
  }

  /** The instruction bytes `init_display_mode` builds by or-ing the flags:
      function set for a 4-bit bus, two lines and 5x8 dots is 0x28; display
      control with the display off is 0x08; entry mode with the cursor moving
      right and no shift is 0x06; display control with the display on and the
      cursor off is 0x0C. */
  lemma DisplayModeFlags()
    ensures Or(Or(Or(FunctionSetCmd, TwoLine), Dots5x8), FourBitMode) == DisplayModeCommands()[0]
    ensures Or(DisplayControlCmd, DisplayOff) == DisplayModeCommands()[1]
    ensures ClearDisplayCmd == DisplayModeCommands()[2]
    ensures Or(EntryModeSetCmd, EntryLeft) == DisplayModeCommands()[3]
    ensures Or(Or(DisplayControlCmd, DisplayOn), CursorOff) == DisplayModeCommands()[4]
  {
  }

  /** One more `write_cmd` extends the command frames on the bus. */
  lemma {:induction false} CommandFramesStep(b0: seq<int>, b: seq<int>, b': seq<int>, cmds: seq<int>, c: int, all: seq<int>, bl: int)
    requires all == cmds + [c]
    requires b == b0 + CommandFrames(cmds, bl) && b' == b + ByteFrames(c, RsOff, bl)
    ensures b' == b0 + CommandFrames(all, bl)
  {
    CommandFramesSnoc(cmds, c, all, bl);
    AppendAssoc(b0, CommandFrames(cmds, bl), ByteFrames(c, RsOff, bl));
  }

  // ---------------------------------------------------------------------------
  // The driver

  class Driver {
    /** `backlight_bit`, carried by every later bus byte. */
    var backlightBit: int
    /** The locale's `locale_chars`; `def_custom_chars` adds CGRAM codes to it. */
    var localeChars: map<char, int>
    /** The locale's `custom_chars`, in dictionary order. */
    const customChars: seq<CustomChar>
    /** Every byte written to the I2C port expander, in order. */
    var bus: seq<int>

    ghost predicate Valid()
      reads this
    {
      Flag(backlightBit, BlOn)
    }

    /** The field set-up of `LCD.__init__`; the initialisation sequence it
        then sends is `Initialize`. */
    constructor (backlight: bool, locale: Locale)
      ensures Valid()
      ensures backlightBit == (if backlight then BlOn else BlOff)
      ensures localeChars == locale.localeChars && customChars == locale.customChars
      ensures bus == []
    {
      backlightBit := if backlight then BlOn else BlOff;
      localeChars := locale.localeChars;
      customChars := locale.customChars;
      bus := [];
    }

    /** `send_nibble`. Every caller passes a high nibble (a multiple of 16
        below 256) and the RW and RS flag values, so the sum `BusByte` is the
        source's bitwise OR (`BusByteIsOr`). */
    method SendNibble(nibble: int, rw: int, rs: int)
      modifies this`bus
      ensures bus == old(bus) + NibbleFrames(nibble, rw, rs, backlightBit)
    {
      bus := bus + [BusByte(nibble, EnOn, rw, rs, backlightBit)];
      bus := bus + [BusByte(nibble, EnOff, rw, rs, backlightBit)];
    }

    /** `write_byte` (the settling sleep is not modelled). */
    method WriteByte(v: int, rs: int)
      modifies this`bus
      ensures bus == old(bus) + ByteFrames(v, rs, backlightBit)
    {
      SendNibble(HighNibble(v), RwOff, rs);
      SendNibble(LowNibble(v), RwOff, rs);
    }

    /** `write_cmd`: an instruction, RS clear. */
    method WriteCmd(cmd: int)
      modifies this`bus
      ensures bus == old(bus) + ByteFrames(cmd, RsOff, backlightBit)
    {
      WriteByte(cmd, RsOff);
    }

    /** `write_char`: the character's locale code as data, RS set. */
    method WriteChar(c: char)
      modifies this`bus
      ensures bus == old(bus) + ByteFrames(LocaleCode(localeChars, c), RsOn, backlightBit)
    {
      var code := LocaleCode(localeChars, c);
      WriteByte(code, RsOn);
    }

    /** `write`: one `write_char` per character, in order. */
    method Write(s: string)
      modifies this`bus
      ensures bus == old(bus) + DataFrames(TextCodes(localeChars, s), backlightBit)
    {
      var i := 0;
      while i < |s|
        invariant i <= |s|
        invariant bus == old(bus) + DataFrames(TextCodes(localeChars, s[..i]), backlightBit)
      {
        ghost var codes := TextCodes(localeChars, s[..i]);
        ghost var code := LocaleCode(localeChars, s[i]);
        WriteChar(s[i]);
        assert s[..i + 1] == s[..i] + [s[i]];
        assert TextCodes(localeChars, s[..i + 1]) == codes + [code];
        DataFramesSnoc(codes, code, backlightBit);
        AppendAssoc(old(bus), DataFrames(codes, backlightBit), ByteFrames(code, RsOn, backlightBit));
        i := i + 1;
      }
      assert s[..i] == s;
    }

    /** `set_position`. */
    method SetPosition(line: int, column: int)
      modifies this`bus
      ensures bus == old(bus) + ByteFrames(DdramCommand(line, column), RsOff, backlightBit)
    {
      WriteCmd(DdramCommand(line, column));
    }

    /** `clear_display` (the longer settling sleep is not modelled). */
    method ClearDisplay()
      modifies this`bus
      ensures bus == old(bus) + ByteFrames(ClearDisplayCmd, RsOff, backlightBit)
    {
      WriteCmd(ClearDisplayCmd);
    }

    /** `backlight`: no bus byte now; every later bus byte carries the bit. */
    method Backlight(state: bool)
      modifies this`backlightBit
      ensures Valid()
      ensures backlightBit == if state then BlOn else BlOff
    {
      backlightBit := if state then BlOn else BlOff;
    }

    /** `init_4_bit`: three times 0x03, then 0x02 (the waits are not
        modelled). */
    method Init4Bit()
      modifies this`bus
      ensures bus == old(bus) + CommandFrames(FourBitCommands(), backlightBit)
    {
      WriteCmd(0x03);
      CommandFramesStep(old(bus), old(bus), bus, [], 0x03, [0x03], backlightBit);
      ghost var b1 := bus;
      WriteCmd(0x03);
      CommandFramesStep(old(bus), b1, bus, [0x03], 0x03, [0x03, 0x03], backlightBit);
      ghost var b2 := bus;
      WriteCmd(0x03);
      CommandFramesStep(old(bus), b2, bus, [0x03, 0x03], 0x03, [0x03, 0x03, 0x03], backlightBit);
      ghost var b3 := bus;
      WriteCmd(0x02);
      CommandFramesStep(old(bus), b3, bus, [0x03, 0x03, 0x03], 0x02, FourBitCommands(), backlightBit);
    }

    /** `init_display_mode`: 4-bit bus, two lines, 5x8 dots; display off;
        clear; cursor moves right without shifting; display on, cursor
        off. */
    method InitDisplayMode()
      modifies this`bus
      ensures bus == old(bus) + CommandFrames(DisplayModeCommands(), backlightBit)
    {
      DisplayModeFlags();
      WriteCmd(Or(Or(Or(FunctionSetCmd, TwoLine), Dots5x8), FourBitMode));
      CommandFramesStep(old(bus), old(bus), bus, [], 0x28, [0x28], backlightBit);
      ghost var b1 := bus;
      WriteCmd(Or(DisplayControlCmd, DisplayOff));
      CommandFramesStep(old(bus), b1, bus, [0x28], 0x08, [0x28, 0x08], backlightBit);
      ghost var b2 := bus;
      ClearDisplay();
      CommandFramesStep(old(bus), b2, bus, [0x28, 0x08], 0x01, [0x28, 0x08, 0x01], backlightBit);
      ghost var b3 := bus;
      WriteCmd(Or(EntryModeSetCmd, EntryLeft));
      CommandFramesStep(old(bus), b3, bus, [0x28, 0x08, 0x01], 0x06, [0x28, 0x08, 0x01, 0x06], backlightBit);
      ghost var b4 := bus;
      WriteCmd(Or(Or(DisplayControlCmd, DisplayOn), CursorOff));
      CommandFramesStep(old(bus), b4, bus, [0x28, 0x08, 0x01, 0x06], 0x0C, DisplayModeCommands(), backlightBit);
    }

    /** The inner loop of `def_custom_chars`: one glyph's rows as data. */
    method WriteShape(shape: seq<int>)
      modifies this`bus
      ensures bus == old(bus) + DataFrames(shape, backlightBit)
    {
      var j := 0;
      while j < |shape|
        invariant j <= |shape|
        invariant bus == old(bus) + DataFrames(shape[..j], backlightBit)
      {
        WriteByte(shape[j], RsOn);
        assert shape[..j + 1] == shape[..j] + [shape[j]];
        DataFramesSnoc(shape[..j], shape[j], backlightBit);
        AppendAssoc(old(bus), DataFrames(shape[..j], backlightBit), ByteFrames(shape[j], RsOn, backlightBit));
        j := j + 1;
      }
      assert shape[..j] == shape;
    }

    /** `def_custom_chars`. More than 8 glyphs: fails before any write.
        Otherwise sets the CGRAM address to 0, then stores each glyph's rows
        and maps its character to the next CGRAM code; a glyph that is not 8
        rows high makes it fail at that glyph, after the earlier ones were
        stored and mapped. */
    method DefCustomChars() returns (ok: bool)
      modifies this`bus, this`localeChars
      ensures |customChars| > 8 ==> !ok && bus == old(bus) && localeChars == old(localeChars)
      ensures |customChars| <= 8 ==>
        var k := FirstMalformed(customChars);
        && ok == (k == |customChars|)
        && bus == old(bus) + ByteFrames(SetCgramAddrCmd, RsOff, backlightBit)
                          + ShapeFrames(customChars[..k], backlightBit)
        && localeChars == CgramAssign(old(localeChars), customChars[..k])
    {
      if |customChars| > 8 {
        return false;
      }
      WriteCmd(Or(SetCgramAddrCmd, 0x00));
      ghost var start := bus;
      ghost var k := FirstMalformed(customChars);
      var index := 0;
      while index < |customChars|
        invariant index <= k
        invariant bus == start + ShapeFrames(customChars[..index], backlightBit)
        invariant localeChars == CgramAssign(old(localeChars), customChars[..index])
      {
        var c := customChars[index].0;
        var shape := customChars[index].1;
        if |shape| != 8 {
          assert k == index;
          return false;
        }
        assert index < k;
        WriteShape(shape);
        ShapeFramesSnoc(customChars, index, backlightBit);
        AppendAssoc(start, ShapeFrames(customChars[..index], backlightBit), DataFrames(shape, backlightBit));
        CgramAssignSnoc(old(localeChars), customChars, index);
        localeChars := localeChars[c := index];
        index := index + 1;
      }
      assert k == |customChars| && customChars[..index] == customChars;
      ok := true;
    }

    /** The initialisation `LCD.__init__` sends after setting its fields:
        4-bit set-up, custom glyphs, display mode. When the glyphs are
        rejected the source raises and no display mode is sent. */
    method Initialize() returns (ok: bool)
      modifies this`bus, this`localeChars
      ensures ok == (|customChars| <= 8 && FirstMalformed(customChars) == |customChars|)
      ensures ok ==> bus == old(bus) + CommandFrames(FourBitCommands(), backlightBit)
                        + ByteFrames(SetCgramAddrCmd, RsOff, backlightBit)
                        + ShapeFrames(customChars, backlightBit)
                        + CommandFrames(DisplayModeCommands(), backlightBit)
      ensures ok ==> localeChars == CgramAssign(old(localeChars), customChars)
      ensures !ok ==>
        var k := FirstMalformed(customChars);
        && bus == old(bus) + CommandFrames(FourBitCommands(), backlightBit)
                + (if |customChars| > 8 then []
                   else ByteFrames(SetCgramAddrCmd, RsOff, backlightBit) + ShapeFrames(customChars[..k], backlightBit))
        && localeChars == (if |customChars| > 8 then old(localeChars) else CgramAssign(old(localeChars), customChars[..k]))
    {
      Init4Bit();
      ghost var setUp := bus;
      ok := DefCustomChars();
      if |customChars| > 8 {
        assert bus == setUp + [];
      } else {
        AppendAssoc(setUp, ByteFrames(SetCgramAddrCmd, RsOff, backlightBit),
                    ShapeFrames(customChars[..FirstMalformed(customChars)], backlightBit));
      }
      if ok {
        assert customChars[..|customChars|] == customChars;
        InitDisplayMode();
      }
    }
  }
}
