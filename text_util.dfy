/** String helpers with Python's meaning: `n * " "`, `str.rstrip(' ')`,
    `str.lstrip(' ')` and the clamping slice `s[a:b]`. */
module TextUtil {

  predicate AllSpaces(s: string) {
    forall i :: 0 <= i < |s| ==> s[i] == ' '
  }

  /** Python's `n * " "`: `n` blanks, and the empty string when `n <= 0`. */
  function Spaces(n: int): (s: string)
    ensures |s| == if n < 0 then 0 else n
    ensures AllSpaces(s)
  {
    if n <= 0 then "" else Spaces(n - 1) + " "
  }

  /** `s.rstrip(' ')`: the longest prefix of `s` that does not end in a blank. */
  function RStrip(s: string): (r: string)
    ensures |r| <= |s| && r == s[..|r|]
    ensures AllSpaces(s[|r|..])
    ensures r == [] || r[|r| - 1] != ' '
  {
    if |s| > 0 && s[|s| - 1] == ' ' then
      var t := s[..|s| - 1];
      var r := RStrip(t);
      assert s[..|r|] == t[..|r|];
      assert s[|r|..] == t[|r|..] + [' '];
      r
    else s
  }

  /** `s.lstrip(' ')`: the longest suffix of `s` that does not start with a blank. */
  function LStrip(s: string): (r: string)
    ensures |r| <= |s| && r == s[|s| - |r|..]
    ensures AllSpaces(s[..|s| - |r|])
    ensures r == [] || r[0] != ' '
  {
    if |s| > 0 && s[0] == ' ' then
      var t := s[1..];
      var r := LStrip(t);
      assert s[|s| - |r|..] == t[|t| - |r|..];
      assert s[..|s| - |r|] == [' '] + t[..|t| - |r|];
      r
    else s
  }

  function Min(a: int, b: int): int { if a <= b then a else b }

  /** Python's `s[a:b]` for non-negative bounds: both bounds are clamped to `|s|`. */
  function Slice(s: string, a: nat, b: nat): (r: string)
    ensures |r| == if a <= Min(b, |s|) then Min(b, |s|) - a else 0
    ensures forall i :: 0 <= i < |r| ==> a + i < |s| && r[i] == s[a + i]
  {
    var hi := Min(b, |s|);
    var lo := if a <= hi then a else hi;
    s[lo..hi]
  }

  /** Stripping trailing blanks ignores blanks that were appended. */
  lemma {:induction false} RStripAppendBlanks(s: string, p: string)
    requires AllSpaces(p)
    ensures RStrip(s + p) == RStrip(s)
  {
    if p == [] {
      assert s + p == s;
    } else {
      var t := s + p;
      assert t[|t| - 1] == p[|p| - 1] == ' ';
      assert t[..|t| - 1] == s + p[..|p| - 1];
      RStripAppendBlanks(s, p[..|p| - 1]);
    }
  }

  /** Stripping leading blanks ignores blanks that were prepended. */
  lemma {:induction false} LStripPrependBlanks(p: string, s: string)
    requires AllSpaces(p)
    ensures LStrip(p + s) == LStrip(s)
  {
    if p == [] {
      assert p + s == s;
    } else {
      var t := p + s;
      assert t[0] == p[0] == ' ';
      assert t[1..] == p[1..] + s;
      LStripPrependBlanks(p[1..], s);
    }
  }

  /** A string that neither starts nor ends with a blank is its own strip. */
  lemma {:induction false} StripIdentity(s: string)
    requires s == [] || (s[0] != ' ' && s[|s| - 1] != ' ')
    ensures RStrip(s) == s && LStrip(s) == s
  {
  }
}
