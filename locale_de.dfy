/** The German locale `LocaleDE`: lower-case umlauts and sharp s map to
    the display ROM's codes, and the upper-case umlauts get custom 5x8
    glyphs stored in CGRAM. */
module LocaleDE {
  import opened LcdDriver
  import opened I2cLcdPatched

  /** `locale_chars`: characters replaced by a ROM code. */
  function LocaleChars(): (m: map<char, int>)
    ensures m.Keys == {'ä', 'ß', 'ö', 'ü'}
    ensures forall c :: c in m ==> 128 <= m[c] < 256
  {
    map['ä' := 225, 'ß' := 226, 'ö' := 239, 'ü' := 245]
  }

  /** `custom_chars`, in the order the dictionary lists them: A, O and U
      with two dots above, one row of five pixels per entry. */
  function CustomChars(): (cs: seq<CustomChar>)
    ensures |cs| == 3 && cs[0].0 == 'Ä' && cs[1].0 == 'Ö' && cs[2].0 == 'Ü'
    ensures forall i :: 0 <= i < |cs| ==> |cs[i].1| == 8 && cs[i].1[0] == 0x0A && cs[i].1[7] == 0
  {
    [('Ä', [0x0A, 0x00, 0x0E, 0x11, 0x1F, 0x11, 0x11, 0x00]),
     ('Ö', [0x0A, 0x00, 0x0E, 0x11, 0x11, 0x11, 0x0E, 0x00]),
     ('Ü', [0x0A, 0x00, 0x11, 0x11, 0x11, 0x11, 0x0E, 0x00])]
  }

  function DE(): Locale {
    Locale(LocaleChars(), CustomChars())
  }

  /** The lower-case letters use the codes the patched `writeChar` uses. */
  lemma {:induction false} LocaleCharsMatchPatch()
    ensures forall c :: c in LocaleChars() ==> LocaleChars()[c] == Substitute(c) as int
    ensures forall c :: IsUmlaut(c) ==> c in LocaleChars() || c in {'Ä', 'Ö', 'Ü'}
  {
  }

  /** The glyph table passes `def_custom_chars`' checks: at most 8 glyphs,
      each exactly 8 rows, and every row fits the 5 pixel columns. */
  lemma {:induction false} CustomCharsWellFormed()
    ensures |CustomChars()| == 3 <= 8
    ensures FirstMalformed(CustomChars()) == |CustomChars()|
    ensures forall i, j :: 0 <= i < |CustomChars()| && 0 <= j < |CustomChars()[i].1| ==>
      0 <= CustomChars()[i].1[j] < 32
  {
    var cs := CustomChars();
    assert cs[1..] == [cs[1], cs[2]] && cs[1..][1..] == [cs[2]] && cs[1..][1..][1..] == [];
  }

  /** The glyph characters are distinct and none of them is already in
      `locale_chars`, so storing them adds entries and overwrites none. */
  lemma {:induction false} CustomKeysFresh()
    ensures DistinctKeys(CustomChars())
    ensures forall i :: 0 <= i < |CustomChars()| ==> CustomChars()[i].0 !in LocaleChars()
  {
  }

  /** The table the driver uses once `def_custom_chars` has run: the
      original four entries plus CGRAM codes 0, 1 and 2 for the upper-case
      umlauts, in dictionary order. */
  lemma {:induction false} InstalledTable()
    ensures CgramAssign(LocaleChars(), CustomChars())
         == map['ä' := 225, 'ß' := 226, 'ö' := 239, 'ü' := 245, 'Ä' := 0, 'Ö' := 1, 'Ü' := 2]
  {
    var cs, m := CustomChars(), LocaleChars();
    assert cs[..3] == cs && cs[..0] == [];
    CgramAssignSnoc(m, cs, 0);
    CgramAssignSnoc(m, cs, 1);
    CgramAssignSnoc(m, cs, 2);
    assert CgramAssign(m, cs) == m['Ä' := 0]['Ö' := 1]['Ü' := 2];
  }

  /** Once the glyphs are installed, the driver writes every character but
      the three upper-case umlauts as the patched `writeChar` would; those
      three show their own CGRAM glyph instead of the lower-case letter. */
  lemma {:induction false} DriverAgreesWithPatch(c: char)
    ensures var table := CgramAssign(LocaleChars(), CustomChars());
      && (c !in {'Ä', 'Ö', 'Ü'} ==> LocaleCode(table, c) == Substitute(c) as int)
      && (c == 'Ä' ==> LocaleCode(table, c) == 0)
      && (c == 'Ö' ==> LocaleCode(table, c) == 1)
      && (c == 'Ü' ==> LocaleCode(table, c) == 2)
  {
    InstalledTable();
  }
}
