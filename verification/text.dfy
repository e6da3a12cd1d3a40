/**
 Character-level helpers standing in for the Python string methods the word
 grid relies on: `str.isalpha`, `str.lower`, the whitespace set of
 `str.split()` and `", ".join`.
 Letters are the ASCII letters; see README for what that leaves out.
 */
module Text {

  /** `c.isalpha()` for one character (ASCII letters). */
  predicate IsLetter(c: char) {
    ('a' <= c <= 'z') || ('A' <= c <= 'Z')
  }

  predicate IsLowerLetter(c: char) {
    'a' <= c <= 'z'
  }

  /** The separators of Python's argument-less `str.split()`. */
  predicate IsSpace(c: char) {
    || ('\t' <= c <= '\r')                 // \t \n \v \f \r
    || ('\U{1c}' <= c <= '\U{1f}')
    || c == ' ' || c == '\U{85}' || c == '\U{a0}' || c == '\U{1680}'
    || ('\U{2000}' <= c <= '\U{200a}')
    || c == '\U{2028}' || c == '\U{2029}' || c == '\U{202f}' || c == '\U{205f}'
    || c == '\U{3000}'
  }

  /** `c.lower()` for one character. */
  function Lower(c: char): (d: char)
    ensures IsLetter(c) ==> IsLowerLetter(d) && IsLetter(d)
    ensures !('A' <= c <= 'Z') ==> d == c
    ensures IsSpace(d) <==> IsSpace(c)
  {
    if 'A' <= c <= 'Z' then (c as int + 32) as char else c
  }

  /** `s.lower()`: lower-cases every character, keeps the length. */
  function LowerStr(s: string): string {
    seq(|s|, i requires 0 <= i < |s| => Lower(s[i]))
  }

  /** `s.isalpha()`: non-empty and made of letters only. */
  predicate IsAlphaStr(s: string) {
    |s| > 0 && forall i :: 0 <= i < |s| ==> IsLetter(s[i])
  }

  /** A normalised cell: empty, or a non-empty run of lower-case letters. */
  predicate IsNormalCell(s: string) {
    s == "" || (|s| > 0 && forall i :: 0 <= i < |s| ==> IsLowerLetter(s[i]))
  }

  /**
   The cell normalisation used when a grid is built from positions or
   strings: `letter.lower() if letter.isalpha() else ""`.
   */
  function Normalize(s: string): (r: string)
    ensures IsNormalCell(r)
    ensures r != "" <==> IsAlphaStr(s)
    ensures r != "" ==> |r| == |s| && forall i :: 0 <= i < |s| ==> Lower(s[i]) == r[i]
  {
    if IsAlphaStr(s) then LowerStr(s) else ""
  }

  /** On a one-character string normalisation is `c.lower() if c.isalpha() else ""`. */
  lemma NormalizeSingle()
    ensures forall c: char :: Normalize([c]) == (if IsLetter(c) then [Lower(c)] else "")
  {
    forall c: char
      ensures Normalize([c]) == (if IsLetter(c) then [Lower(c)] else "")
    {
      if IsLetter(c) {
        assert IsAlphaStr([c]);
        assert LowerStr([c]) == [Lower(c)];
      } else {
        assert [c][0] == c;
      }
    }
  }

  /** Normalisation is idempotent: a normalised cell is its own normal form. */
  lemma NormalizeIdempotent(s: string)
    ensures Normalize(Normalize(s)) == Normalize(s)
  {
    var r := Normalize(s);
    if r != "" {
      assert IsAlphaStr(r);
      assert LowerStr(r) == r;
    }
  }

  /** `sep.join(xs)`. */
  function JoinWith(sep: string, xs: seq<string>): string {
    if |xs| == 0 then ""
    else if |xs| == 1 then xs[0]
    else xs[0] + sep + JoinWith(sep, xs[1..])
  }
}
