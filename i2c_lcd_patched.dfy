/** The patched `i2c_lcd.writeChar`: German letters the display's ROM
    (character set A00 of the HD44780U) holds under another code are
    replaced before the single underlying `writeChar`. */
module I2cLcdPatched {

  /** ROM codes of the replacements: a-umlaut, sharp s, o-umlaut, u-umlaut. */
  const AUmlautCode := 225
  const SharpSCode := 226
  const OUmlautCode := 239
  const UUmlautCode := 245

  /** The letters the patch rewrites. */
  predicate IsUmlaut(c: char) {
    c == 'ä' || c == 'Ä' || c == 'ß' || c == 'ö' || c == 'Ö' || c == 'ü' || c == 'Ü'
  }

  /** The character handed to the library's `writeChar`: both cases of an
      umlaut share the lower-case letter's ROM code, sharp s has its own,
      anything else is passed on unchanged. */
  function Substitute(c: char): (r: char)
    ensures IsUmlaut(c) <==> r != c
    ensures IsUmlaut(c) ==> r as int in {AUmlautCode, SharpSCode, OUmlautCode, UUmlautCode}
  {
    if c == 'ä' || c == 'Ä' then AUmlautCode as char
    else if c == 'ß' then SharpSCode as char
    else if c == 'ö' || c == 'Ö' then OUmlautCode as char
    else if c == 'ü' || c == 'Ü' then UUmlautCode as char
    else c
  }

  /** Upper- and lower-case umlauts end up as the same ROM code. */
  lemma {:induction false} CaseFolded()
    ensures Substitute('Ä') == Substitute('ä') == AUmlautCode as char
    ensures Substitute('Ö') == Substitute('ö') == OUmlautCode as char
    ensures Substitute('Ü') == Substitute('ü') == UUmlautCode as char
    ensures Substitute('ß') == SharpSCode as char
  {
  }

  /** The replacement codes are no umlauts themselves, so substituting twice
      changes nothing more. */
  lemma {:induction false} SubstituteIdempotent(c: char)
    ensures Substitute(Substitute(c)) == Substitute(c)
  {
    if IsUmlaut(c) {
      assert !IsUmlaut(Substitute(c));
    }
  }

  /** Different letters stay apart: two characters share a written code only
      when they are the two cases of one umlaut, or were equal. */
  lemma {:induction false} SubstituteMerges(a: char, b: char)
    requires a != b && Substitute(a) == Substitute(b)
    ensures {a, b} == {'ä', 'Ä'} || {a, b} == {'ö', 'Ö'} || {a, b} == {'ü', 'Ü'}
      || (IsUmlaut(a) && !IsUmlaut(b) && b == Substitute(a))
      || (IsUmlaut(b) && !IsUmlaut(a) && a == Substitute(b))
  {
  }
}
