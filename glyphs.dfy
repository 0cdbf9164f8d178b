/** The compiled-in glyph table of the clock: each symbol is three row
    segments of three bits; bit 2 is the left LED of the segment, bit 0 the
    right one. Symbols 0..9 are the decimal digits, symbol 10 the colon. */
module Glyphs {

  datatype Option<T> = None | Some(value: T)

  /** `charset[11][3]` of the firmware. */
  const CHARSET: seq<seq<bv16>> := [
    [7, 5, 7], // 0
    [6, 2, 7], // 1
    [6, 2, 3], // 2
    [7, 3, 7], // 3
    [5, 7, 1], // 4
    [3, 2, 6], // 5
    [4, 7, 7], // 6
    [7, 1, 1], // 7
    [7, 7, 7], // 8
    [7, 7, 1], // 9
    [2, 0, 2]  // :
  ]

  /** Index of the colon glyph. */
  const COLON: int := 10

  /** A valid first index into the table. */
  predicate IsSymbol(sym: int) {
    0 <= sym < 11
  }

  /** Segment `k` of symbol `sym`: every segment is a 3-bit value. */
  function Glyph(sym: int, k: int): bv16
    requires IsSymbol(sym) && 0 <= k < 3
  {
    CHARSET[sym][k]
  }

  /** The segments of every symbol, row by row of the table. */
  lemma GlyphTable()
    ensures Glyph(0, 0) == 7 && Glyph(0, 1) == 5 && Glyph(0, 2) == 7
    ensures Glyph(1, 0) == 6 && Glyph(1, 1) == 2 && Glyph(1, 2) == 7
    ensures Glyph(2, 0) == 6 && Glyph(2, 1) == 2 && Glyph(2, 2) == 3
    ensures Glyph(3, 0) == 7 && Glyph(3, 1) == 3 && Glyph(3, 2) == 7
    ensures Glyph(4, 0) == 5 && Glyph(4, 1) == 7 && Glyph(4, 2) == 1
    ensures Glyph(5, 0) == 3 && Glyph(5, 1) == 2 && Glyph(5, 2) == 6
    ensures Glyph(6, 0) == 4 && Glyph(6, 1) == 7 && Glyph(6, 2) == 7
    ensures Glyph(7, 0) == 7 && Glyph(7, 1) == 1 && Glyph(7, 2) == 1
    ensures Glyph(8, 0) == 7 && Glyph(8, 1) == 7 && Glyph(8, 2) == 7
    ensures Glyph(9, 0) == 7 && Glyph(9, 1) == 7 && Glyph(9, 2) == 1
    ensures Glyph(10, 0) == 2 && Glyph(10, 1) == 0 && Glyph(10, 2) == 2
  {
  }

  /** Every segment is a 3-bit value. */
  lemma GlyphBounded(sym: int, k: int)
    requires IsSymbol(sym) && 0 <= k < 3
    ensures Glyph(sym, k) <= 7
  {
    GlyphTable();
    if k == 0 {
      if sym == 0 {} else if sym == 1 {} else if sym == 2 {} else if sym == 3 {} else if sym == 4 {} else if sym == 5 {}
      else if sym == 6 {} else if sym == 7 {} else if sym == 8 {} else if sym == 9 {} else {}
    } else if k == 1 {
      if sym == 0 {} else if sym == 1 {} else if sym == 2 {} else if sym == 3 {} else if sym == 4 {} else if sym == 5 {}
      else if sym == 6 {} else if sym == 7 {} else if sym == 8 {} else if sym == 9 {} else {}
    } else {
      if sym == 0 {} else if sym == 1 {} else if sym == 2 {} else if sym == 3 {} else if sym == 4 {} else if sym == 5 {}
      else if sym == 6 {} else if sym == 7 {} else if sym == 8 {} else if sym == 9 {} else {}
    }
  }

  /** The digit whose three segments are (a, b, c), searched from `from` upwards. */
  function FindDigit(a: bv16, b: bv16, c: bv16, from: int): Option<int>
    requires 0 <= from <= 10
    decreases 10 - from
  {
    if from == 10 then None
    else if Glyph(from, 0) == a && Glyph(from, 1) == b && Glyph(from, 2) == c then Some(from)
    else FindDigit(a, b, c, from + 1)
  }

  /** Reads a digit back from its three segments. */
  function DecodeDigit(a: bv16, b: bv16, c: bv16): Option<int> {
    FindDigit(a, b, c, 0)
  }

  /** What the search finds is a digit with exactly those segments. */
  lemma {:induction false} FindDigitSound(a: bv16, b: bv16, c: bv16, from: int)
    requires 0 <= from <= 10
    ensures var r := FindDigit(a, b, c, from);
      r.Some? ==> from <= r.value < 10 && Glyph(r.value, 0) == a && Glyph(r.value, 1) == b && Glyph(r.value, 2) == c
    decreases 10 - from
  {
    if from == 10 {
      assert FindDigit(a, b, c, from) == None;
    } else if Glyph(from, 0) == a && Glyph(from, 1) == b && Glyph(from, 2) == c {
      assert FindDigit(a, b, c, from) == Some(from);
    } else {
      FindDigitSound(a, b, c, from + 1);
      assert FindDigit(a, b, c, from) == FindDigit(a, b, c, from + 1);
    }
  }

  /** A decoded digit's glyph is the three segments it was read from. */
  lemma DecodeDigitSound(a: bv16, b: bv16, c: bv16)
    ensures var r := DecodeDigit(a, b, c);
      r.Some? ==> 0 <= r.value < 10 && Glyph(r.value, 0) == a && Glyph(r.value, 1) == b && Glyph(r.value, 2) == c
  {
    FindDigitSound(a, b, c, 0);
  }

  /** No two digits share a glyph, so a digit's segments decode to that digit. */
  lemma DecodeDigitOfGlyph(d: int)
    requires 0 <= d < 10
    ensures DecodeDigit(Glyph(d, 0), Glyph(d, 1), Glyph(d, 2)) == Some(d)
  {
    GlyphTable();
    if d == 0 { assert DecodeDigit(7, 5, 7) == Some(0); }
    else if d == 1 { assert DecodeDigit(6, 2, 7) == Some(1); }
    else if d == 2 { assert DecodeDigit(6, 2, 3) == Some(2); }
    else if d == 3 { assert DecodeDigit(7, 3, 7) == Some(3); }
    else if d == 4 { assert DecodeDigit(5, 7, 1) == Some(4); }
    else if d == 5 { assert DecodeDigit(3, 2, 6) == Some(5); }
    else if d == 6 { assert DecodeDigit(4, 7, 7) == Some(6); }
    else if d == 7 { assert DecodeDigit(7, 1, 1) == Some(7); }
    else if d == 8 { assert DecodeDigit(7, 7, 7) == Some(8); }
    else { assert DecodeDigit(7, 7, 1) == Some(9); }
  }
}
