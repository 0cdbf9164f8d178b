/** The frame the display shows: twelve 16-bit rows. Rows 0-2 carry the
    hour, rows 4-6 the minute and rows 8-10 the second; in each band the tens
    digit sits at bits 7-9 and the units digit at bits 3-5. Bits 0-2 of the
    hour and minute bands carry the blinking colon, bit 0 of row 0 or 1 the
    set-mode marker, row 11 the idle bar and bit 1 of rows 8.. the idle
    column. This module is the reference definition the frame builder is
    proved against. */
module FrameLayout {
  import opened Glyphs

  const ROWS: int := 12

  /** A `firstline`/`secondline`/`thirdline` argument: two valid table indices. */
  predicate ValidLine(line: seq<int>) {
    |line| == 2 && IsSymbol(line[0]) && IsSymbol(line[1])
  }

  /** What the frame builder can render without indexing past `charset` or
      past the twelve rows: every tens digit a table index, and at most
      four idle columns. */
  predicate Renderable(hour: int, min: int, sec: int, sleepcounter: int) {
    0 <= hour < 110 && 0 <= min < 110 && 0 <= sec < 110 && 0 <= sleepcounter < 50
  }

  /** The digit pair `refreshFrame` hands over for a counter. */
  function DigitPair(n: int): seq<int> {
    [n / 10, n % 10]
  }

  /** Segment `k` of both digits of a band, tens at bits 7-9, units at bits 3-5. */
  function DigitRow(line: seq<int>, k: int): bv16
    requires ValidLine(line) && 0 <= k < 3
  {
    (Glyph(line[0], k) << 7) | (Glyph(line[1], k) << 3)
  }

  /** The colon segment, lit on even seconds only. */
  function ColonRow(sec: int, k: int): bv16
    requires 0 <= k < 3
  {
    if sec % 2 == 0 then Glyph(COLON, k) else 0
  }

  /** The three digit bands; rows 3, 7 and 11 get nothing here. */
  function BandPart(first: seq<int>, second: seq<int>, third: seq<int>, sec: int, i: int): bv16
    requires ValidLine(first) && ValidLine(second) && ValidLine(third)
  {
    if 0 <= i < 3 then DigitRow(first, i) | ColonRow(sec, i)
    else if 4 <= i < 7 then DigitRow(second, i - 4) | ColonRow(sec, i - 4)
    else if 8 <= i < 11 then DigitRow(third, i - 8)
    else 0
  }

  /** The firmware's `1 << n`. */
  function Bit(n: int): bv16
    requires 0 <= n < 16
  {
    (1 as bv16) << n
  }

  /** The lowest `n` bits set: what `n` passes of the bar loop OR in. */
  function LowBits(n: int): bv16
    requires 0 <= n <= 16
  {
    if n == 0 then 0 else LowBits(n - 1) | Bit(n - 1)
  }

  /** The idle bar: bits 0 .. sleepcounter % 10 of row 11. */
  function BarPart(sleepcounter: int, i: int): bv16
    requires 0 <= sleepcounter
  {
    if i == 11 then LowBits(sleepcounter % 10 + 1) else 0
  }

  /** The idle column: bit 1 of rows 8 .. 8 + sleepcounter / 10 - 1. */
  function ColumnPart(sleepcounter: int, i: int): bv16 {
    if 8 <= i < 8 + sleepcounter / 10 then 2 else 0
  }

  /** The set-mode marker: bit 0 of row 0 while setting the hour, else of
      row 1 while setting the minute. */
  function MarkerPart(hourset: bool, minset: bool, i: int): bv16 {
    if i == 0 && hourset then 1
    else if i == 1 && !hourset && minset then 1
    else 0
  }

  /** Everything `prepareFrame` ORs into row `i`. */
  function Layer(first: seq<int>, second: seq<int>, third: seq<int>, sec: int,
                 sleepcounter: int, hourset: bool, minset: bool, i: int): bv16
    requires ValidLine(first) && ValidLine(second) && ValidLine(third)
    requires 0 <= sleepcounter
  {
    BandPart(first, second, third, sec, i) | BarPart(sleepcounter, i)
      | ColumnPart(sleepcounter, i) | MarkerPart(hourset, minset, i)
  }

  /** Valid digit pairs for every renderable counter. */
  lemma DigitsValid(n: int)
    requires 0 <= n < 110
    ensures ValidLine(DigitPair(n))
  {
  }

  /** The frame for a time, modes and idle count, built on an all-zero buffer. */
  function Frame(hour: int, min: int, sec: int, sleepcounter: int, hourset: bool, minset: bool): (f: seq<bv16>)
    requires Renderable(hour, min, sec, sleepcounter)
    ensures |f| == ROWS
  {
    DigitsValid(hour); DigitsValid(min); DigitsValid(sec);
    seq(ROWS, i requires 0 <= i < ROWS =>
      Layer(DigitPair(hour), DigitPair(min), DigitPair(sec), sec, sleepcounter, hourset, minset, i))
  }

  // ---------------------------------------------------------------------
  // What the frame says

  /** A time of day with an idle count the main loop lets through. */
  predicate SaneDisplayState(hour: int, min: int, sec: int, sleepcounter: int) {
    0 <= hour < 24 && 0 <= min < 60 && 0 <= sec < 60 && 0 <= sleepcounter < 50
  }

  /** Every valid time of day can be rendered: all `charset` and row
      indices the builder uses stay in range. */
  lemma SaneStateRenderable(hour: int, min: int, sec: int, sleepcounter: int)
    requires SaneDisplayState(hour, min, sec, sleepcounter)
    ensures Renderable(hour, min, sec, sleepcounter)
    ensures 8 + sleepcounter / 10 <= ROWS && sleepcounter % 10 + 1 <= 10
  {
  }

  /** Rows 3 and 7 are dark, bit 6 is dark in every band row, and every
      row fits in the ten bits the ports carry. */
  lemma FrameShape(hour: int, min: int, sec: int, sleepcounter: int, hourset: bool, minset: bool)
    requires Renderable(hour, min, sec, sleepcounter)
    ensures var f := Frame(hour, min, sec, sleepcounter, hourset, minset);
      f[3] == 0 && f[7] == 0 &&
      (forall i :: 0 <= i < ROWS ==> f[i] < 1024) &&
      (forall i :: 0 <= i < 11 ==> f[i] & 0x40 == 0)
  {
    var f := Frame(hour, min, sec, sleepcounter, hourset, minset);
    forall i | 0 <= i < ROWS
      ensures f[i] < 1024 && (i < 11 ==> f[i] & 0x40 == 0)
    {
      RowShape(hour, min, sec, sleepcounter, hourset, minset, i);
    }
  }

  lemma RowShape(hour: int, min: int, sec: int, sleepcounter: int, hourset: bool, minset: bool, i: int)
    requires Renderable(hour, min, sec, sleepcounter) && 0 <= i < ROWS
    ensures var r := Frame(hour, min, sec, sleepcounter, hourset, minset)[i];
      r < 1024 && (i < 11 ==> r & 0x40 == 0)
  {
    if i == 3 || i == 7 {
      GapRowsDark(hour, min, sec, sleepcounter, hourset, minset);
    } else if i == 11 {
      BarRowShape(hour, min, sec, sleepcounter, hourset, minset);
    } else {
      var band, k := i / 4, i % 4;
      var n := BandCounter(hour, min, sec, band);
      BandRowForm(hour, min, sec, sleepcounter, hourset, minset, band, k);
      GlyphBounded(n / 10, k);
      GlyphBounded(n % 10, k);
      SegmentsShape(Glyph(n / 10, k), Glyph(n % 10, k), BandLow(sec, sleepcounter, hourset, minset, band, k));
    }
  }

  lemma GapRowsDark(hour: int, min: int, sec: int, sleepcounter: int, hourset: bool, minset: bool)
    requires Renderable(hour, min, sec, sleepcounter)
    ensures Frame(hour, min, sec, sleepcounter, hourset, minset)[3] == 0
    ensures Frame(hour, min, sec, sleepcounter, hourset, minset)[7] == 0
  {
    FrameRowIsLayer(hour, min, sec, sleepcounter, hourset, minset, 3);
    FrameRowIsLayer(hour, min, sec, sleepcounter, hourset, minset, 7);
  }

  lemma BarRowShape(hour: int, min: int, sec: int, sleepcounter: int, hourset: bool, minset: bool)
    requires Renderable(hour, min, sec, sleepcounter)
    ensures Frame(hour, min, sec, sleepcounter, hourset, minset)[11] < 1024
  {
    FrameRowIsLayer(hour, min, sec, sleepcounter, hourset, minset, 11);
    LowBitsBelow(sleepcounter % 10 + 1);
    BarShape(LowBits(sleepcounter % 10 + 1), ColumnPart(sleepcounter, 11));
  }

  lemma BarShape(bar: bv16, col: bv16)
    requires bar < 1024 && col <= 2
    ensures bar | 0 | col | 0 < 1024
  {
  }

  lemma SegmentsShape(tens: bv16, units: bv16, low: bv16)
    requires tens <= 7 && units <= 7 && low <= 7
    ensures (tens << 7) | (units << 3) | low < 1024
    ensures ((tens << 7) | (units << 3) | low) & 0x40 == 0
  {
  }

  lemma LowBitsBelow(n: int)
    requires 1 <= n <= 10
    ensures LowBits(n) < 1024
  {
    if n == 1 {} else if n == 2 {} else if n == 3 {} else if n == 4 {} else if n == 5 {}
    else if n == 6 {} else if n == 7 {} else if n == 8 {} else if n == 9 {} else {}
  }

  /** Bits 0-2 of band row `k` of band `band`: the colon (hour and minute
      bands), the idle column and the set-mode marker. */
  function BandLow(sec: int, sleepcounter: int, hourset: bool, minset: bool, band: int, k: int): (low: bv16)
    requires 0 <= k < 3
    ensures low <= 7
  {
    var i := 4 * band + k;
    GlyphBounded(COLON, k);
    SmallOr(BandColon(sec, band, k), ColumnPart(sleepcounter, i), MarkerPart(hourset, minset, i));
    BandColon(sec, band, k) | ColumnPart(sleepcounter, i) | MarkerPart(hourset, minset, i)
  }

  /** The counter band `band` shows: 0 the hour, 1 the minute, 2 the second. */
  function BandCounter(hour: int, min: int, sec: int, band: int): int {
    if band == 0 then hour else if band == 1 then min else sec
  }

  lemma FrameRowIsLayer(hour: int, min: int, sec: int, sleepcounter: int, hourset: bool, minset: bool, i: int)
    requires Renderable(hour, min, sec, sleepcounter) && 0 <= i < ROWS
    ensures ValidLine(DigitPair(hour)) && ValidLine(DigitPair(min)) && ValidLine(DigitPair(sec))
    ensures Frame(hour, min, sec, sleepcounter, hourset, minset)[i]
      == Layer(DigitPair(hour), DigitPair(min), DigitPair(sec), sec, sleepcounter, hourset, minset, i)
  {
    DigitsValid(hour); DigitsValid(min); DigitsValid(sec);
  }

  /** The line of digits band `band` takes. */
  function BandLine(first: seq<int>, second: seq<int>, third: seq<int>, band: int): seq<int> {
    if band == 0 then first else if band == 1 then second else third
  }

  /** The colon part of band row `k` of band `band`. */
  function BandColon(sec: int, band: int, k: int): bv16
    requires 0 <= k < 3
  {
    if band < 2 then ColonRow(sec, k) else 0
  }

  lemma BandPartRow(first: seq<int>, second: seq<int>, third: seq<int>, sec: int, band: int, k: int)
    requires ValidLine(first) && ValidLine(second) && ValidLine(third)
    requires 0 <= band < 3 && 0 <= k < 3
    ensures ValidLine(BandLine(first, second, third, band))
    ensures BandPart(first, second, third, sec, 4 * band + k)
      == DigitRow(BandLine(first, second, third, band), k) | BandColon(sec, band, k)
  {
    if band == 0 {
      BandPartOf(first, second, third, sec, 0, k);
    } else if band == 1 {
      BandPartOf(first, second, third, sec, 1, k);
    } else {
      BandPartOf(first, second, third, sec, 2, k);
    }
  }

  lemma BandPartOf(first: seq<int>, second: seq<int>, third: seq<int>, sec: int, band: int, k: int)
    requires ValidLine(first) && ValidLine(second) && ValidLine(third)
    requires 0 <= k < 3
    ensures band == 0 ==> BandPart(first, second, third, sec, k) == DigitRow(first, k) | ColonRow(sec, k)
    ensures band == 1 ==> BandPart(first, second, third, sec, 4 + k) == DigitRow(second, k) | ColonRow(sec, k)
    ensures band == 2 ==> BandPart(first, second, third, sec, 8 + k) == DigitRow(third, k)
  {
  }

  /** Band row `k` of band `band` is that band's digit row over its low part. */
  lemma LayerBandRow(first: seq<int>, second: seq<int>, third: seq<int>, sec: int,
                     sleepcounter: int, hourset: bool, minset: bool, band: int, k: int)
    requires ValidLine(first) && ValidLine(second) && ValidLine(third)
    requires 0 <= sleepcounter && 0 <= band < 3 && 0 <= k < 3
    ensures ValidLine(BandLine(first, second, third, band))
    ensures Layer(first, second, third, sec, sleepcounter, hourset, minset, 4 * band + k)
      == DigitRow(BandLine(first, second, third, band), k) | BandLow(sec, sleepcounter, hourset, minset, band, k)
  {
    var i := 4 * band + k;
    BandPartRow(first, second, third, sec, band, k);
    var d := DigitRow(BandLine(first, second, third, band), k);
    var colon, col, mark := BandColon(sec, band, k), ColumnPart(sleepcounter, i), MarkerPart(hourset, minset, i);
    assert BarPart(sleepcounter, i) == 0;
    OrOfParts(BandPart(first, second, third, sec, i), BarPart(sleepcounter, i), col, mark, d, colon);
  }

  lemma OrOfParts(band: bv16, bar: bv16, col: bv16, mark: bv16, d: bv16, colon: bv16)
    requires band == d | colon && bar == 0
    ensures band | bar | col | mark == d | (colon | col | mark)
  {
  }

  /** A band row is its digit segments over a low part of at most three bits. */
  lemma BandRowForm(hour: int, min: int, sec: int, sleepcounter: int, hourset: bool, minset: bool,
                    band: int, k: int)
    requires Renderable(hour, min, sec, sleepcounter) && 0 <= band < 3 && 0 <= k < 3
    ensures var n := BandCounter(hour, min, sec, band);
      Frame(hour, min, sec, sleepcounter, hourset, minset)[4 * band + k]
        == (Glyph(n / 10, k) << 7) | (Glyph(n % 10, k) << 3) | BandLow(sec, sleepcounter, hourset, minset, band, k)
  {
    FrameRowIsLayer(hour, min, sec, sleepcounter, hourset, minset, 4 * band + k);
    LayerBandRow(DigitPair(hour), DigitPair(min), DigitPair(sec), sec, sleepcounter, hourset, minset, band, k);
    var n := BandCounter(hour, min, sec, band);
    assert BandLine(DigitPair(hour), DigitPair(min), DigitPair(sec), band) == DigitPair(n);
    assert DigitPair(n)[0] == n / 10 && DigitPair(n)[1] == n % 10;
  }

  lemma SmallOr(a: bv16, b: bv16, c: bv16)
    requires a <= 7 && b <= 7 && c <= 7
    ensures a | b | c <= 7
  {
  }

  /** Two 3-bit segments at bits 7-9 and 3-5 over a 3-bit low part come back out unchanged. */
  lemma SegmentsDecode(tens: bv16, units: bv16, low: bv16)
    requires tens <= 7 && units <= 7 && low <= 7
    ensures (((tens << 7) | (units << 3) | low) >> 7) & 7 == tens
    ensures (((tens << 7) | (units << 3) | low) >> 3) & 7 == units
  {
  }

  /** Band `band` (0 hour, 1 minute, 2 second) decodes, segment by segment,
      to the glyphs of the counter's tens and units digits. */
  lemma FrameDecodesDigits(hour: int, min: int, sec: int, sleepcounter: int, hourset: bool, minset: bool,
                           band: int, k: int)
    requires Renderable(hour, min, sec, sleepcounter) && 0 <= band < 3 && 0 <= k < 3
    ensures var n := BandCounter(hour, min, sec, band);
      var r := Frame(hour, min, sec, sleepcounter, hourset, minset)[4 * band + k];
      (r >> 7) & 7 == Glyph(n / 10, k) && (r >> 3) & 7 == Glyph(n % 10, k)
  {
    var n := BandCounter(hour, min, sec, band);
    BandRowForm(hour, min, sec, sleepcounter, hourset, minset, band, k);
    GlyphBounded(n / 10, k);
    GlyphBounded(n % 10, k);
    SegmentsDecode(Glyph(n / 10, k), Glyph(n % 10, k), BandLow(sec, sleepcounter, hourset, minset, band, k));
  }

  /** Bits 0-2 of the hour and minute bands hold exactly the colon (on even
      seconds) and the set-mode marker; bits 0-2 of the second band hold
      exactly the idle column. */
  lemma FrameLowBits(hour: int, min: int, sec: int, sleepcounter: int, hourset: bool, minset: bool, k: int)
    requires Renderable(hour, min, sec, sleepcounter) && 0 <= k < 3
    ensures var f := Frame(hour, min, sec, sleepcounter, hourset, minset);
      f[k] & 7 == ColonRow(sec, k) | MarkerPart(hourset, minset, k) &&
      f[4 + k] & 7 == ColonRow(sec, k) &&
      f[8 + k] & 7 == (if k < sleepcounter / 10 then 2 else 0)
  {
    DigitsValid(hour); DigitsValid(min); DigitsValid(sec);
  }

  /** The marker shows the active set mode, on row 0 for the hour and on
      row 1 for the minute, and no other band row has bit 0 lit. */
  lemma FrameMarkers(hour: int, min: int, sec: int, sleepcounter: int, hourset: bool, minset: bool)
    requires Renderable(hour, min, sec, sleepcounter)
    ensures var f := Frame(hour, min, sec, sleepcounter, hourset, minset);
      (f[0] & 1 == 1 <==> hourset) &&
      (f[1] & 1 == 1 <==> minset && !hourset) &&
      (forall i :: 2 <= i < 11 ==> f[i] & 1 == 0)
  {
    DigitsValid(hour); DigitsValid(min); DigitsValid(sec);
    assert Glyph(COLON, 0) == 2 && Glyph(COLON, 1) == 0 && Glyph(COLON, 2) == 2;
  }

  /** 2 to the power n. */
  function Pow2(n: nat): nat {
    if n == 0 then 1 else 2 * Pow2(n - 1)
  }

  /** The bars of one to ten bits, each from the one before. */
  lemma LowBitsTable()
    ensures LowBits(1) == 1 && LowBits(2) == 3 && LowBits(3) == 7 && LowBits(4) == 0xF
    ensures LowBits(5) == 0x1F && LowBits(6) == 0x3F && LowBits(7) == 0x7F
    ensures LowBits(8) == 0xFF && LowBits(9) == 0x1FF && LowBits(10) == 0x3FF
  {
    assert LowBits(1) == 1;
    assert LowBits(2) == 3;
    assert LowBits(3) == 7;
    assert LowBits(4) == 0xF;
    assert LowBits(5) == 0x1F;
    assert LowBits(6) == 0x3F;
    assert LowBits(7) == 0x7F;
    assert LowBits(8) == 0xFF;
    assert LowBits(9) == 0x1FF;
  }

  /** `n` low bits are the number 2^n - 1 (for the bar lengths 1..10). */
  lemma LowBitsValue(n: int)
    requires 1 <= n <= 10
    ensures LowBits(n) as int == Pow2(n) - 1
  {
    LowBitsTable();
    assert Pow2(1) == 2 && Pow2(2) == 4 && Pow2(3) == 8 && Pow2(4) == 16 && Pow2(5) == 32;
    assert Pow2(6) == 64 && Pow2(7) == 128 && Pow2(8) == 256 && Pow2(9) == 512 && Pow2(10) == 1024;
    if n == 1 {} else if n == 2 {} else if n == 3 {} else if n == 4 {} else if n == 5 {}
    else if n == 6 {} else if n == 7 {} else if n == 8 {} else if n == 9 {} else {}
  }

  /** The idle bar lights sleepcounter % 10 + 1 bits in row 11 (the bar
      loop runs while `ct <= sleepcounter % 10`); from sleepcounter 40 on
      the idle column reaches row 11 as well and adds bit 1. */
  lemma FrameIdleBar(hour: int, min: int, sec: int, sleepcounter: int, hourset: bool, minset: bool)
    requires Renderable(hour, min, sec, sleepcounter)
    ensures Frame(hour, min, sec, sleepcounter, hourset, minset)[11]
      == LowBits(sleepcounter % 10 + 1) | (if sleepcounter >= 40 then 2 else 0)
  {
    FrameRowIsLayer(hour, min, sec, sleepcounter, hourset, minset, 11);
    var bar := LowBits(sleepcounter % 10 + 1);
    assert BandPart(DigitPair(hour), DigitPair(min), DigitPair(sec), sec, 11) == 0;
    assert BarPart(sleepcounter, 11) == bar;
    assert MarkerPart(hourset, minset, 11) == 0;
    if sleepcounter >= 40 {
      assert ColumnPart(sleepcounter, 11) == 2;
      BarLayer(bar, 2);
    } else {
      assert ColumnPart(sleepcounter, 11) == 0;
      BarLayer(bar, 0);
    }
  }

  /** Row 11 reads 2^(sleepcounter % 10 + 1) - 1 at every idle count but 40:
      from 41 on the column's bit 1 falls inside the bar; at 40 the one-bit
      bar and the column bit read 3. */
  lemma FrameIdleBarValue(hour: int, min: int, sec: int, sleepcounter: int, hourset: bool, minset: bool)
    requires Renderable(hour, min, sec, sleepcounter) && sleepcounter != 40
    ensures Frame(hour, min, sec, sleepcounter, hourset, minset)[11] as int == Pow2(sleepcounter % 10 + 1) - 1
  {
    FrameIdleBar(hour, min, sec, sleepcounter, hourset, minset);
    var n := sleepcounter % 10 + 1;
    if sleepcounter >= 40 {
      LowBitsHasBit1(n);
    } else {
      BarLayer(LowBits(n), 0);
    }
    LowBitsValue(n);
  }

  /** A bar of two or more bits already has bit 1 lit. */
  lemma {:induction false} LowBitsHasBit1(n: int)
    requires 2 <= n <= 16
    ensures LowBits(n) | 2 == LowBits(n)
  {
    if n == 2 {
      assert LowBits(2) == 3;
    } else {
      LowBitsHasBit1(n - 1);
    }
  }

  /** Row 11 is the bar ORed with the column bit, nothing else. */
  lemma BarLayer(bar: bv16, col: bv16)
    ensures 0 | bar | col | 0 == bar | col
    ensures bar | 0 == bar
  {
  }

  /** The idle column lights bit 1 of row 8 + j exactly for j < sleepcounter / 10. */
  lemma FrameIdleColumn(hour: int, min: int, sec: int, sleepcounter: int, hourset: bool, minset: bool, i: int)
    requires Renderable(hour, min, sec, sleepcounter) && 8 <= i < 11
    ensures Frame(hour, min, sec, sleepcounter, hourset, minset)[i] & 2 == 2 <==> i < 8 + sleepcounter / 10
  {
    FrameRowIsLayer(hour, min, sec, sleepcounter, hourset, minset, i);
    DigitsValid(sec);
    var d := DigitRow(DigitPair(sec), i - 8);
    assert BandPart(DigitPair(hour), DigitPair(min), DigitPair(sec), sec, i) == d;
    assert BarPart(sleepcounter, i) == 0;
    assert MarkerPart(hourset, minset, i) == 0;
    GlyphBounded(sec / 10, i - 8);
    GlyphBounded(sec % 10, i - 8);
    if i < 8 + sleepcounter / 10 {
      assert ColumnPart(sleepcounter, i) == 2;
      DigitRowBit1(Glyph(sec / 10, i - 8), Glyph(sec % 10, i - 8), 2);
    } else {
      assert ColumnPart(sleepcounter, i) == 0;
      DigitRowBit1(Glyph(sec / 10, i - 8), Glyph(sec % 10, i - 8), 0);
    }
  }

  /** Bit 1 of a digit row with the column bit ORed in is the column bit. */
  lemma DigitRowBit1(tens: bv16, units: bv16, col: bv16)
    requires tens <= 7 && units <= 7 && (col == 0 || col == 2)
    ensures (((tens << 7) | (units << 3)) | 0 | col | 0) & 2 == col
  {
  }

  /** Reads a counter back from the three rows of its band. */
  function DecodeBand(r0: bv16, r1: bv16, r2: bv16): Option<int> {
    match (DecodeDigit((r0 >> 7) & 7, (r1 >> 7) & 7, (r2 >> 7) & 7),
           DecodeDigit((r0 >> 3) & 7, (r1 >> 3) & 7, (r2 >> 3) & 7))
    case (Some(tens), Some(units)) => Some(10 * tens + units)
    case _ => None
  }

  /** Reads hour, minute and second back from a frame. */
  function DecodeTime(f: seq<bv16>): Option<(int, int, int)>
    requires |f| == ROWS
  {
    match (DecodeBand(f[0], f[1], f[2]), DecodeBand(f[4], f[5], f[6]), DecodeBand(f[8], f[9], f[10]))
    case (Some(h), Some(m), Some(s)) => Some((h, m, s))
    case _ => None
  }

  /** Three rows carrying the glyphs of a two-digit number read back as that number. */
  lemma DecodeBandOfGlyphs(r0: bv16, r1: bv16, r2: bv16, n: int)
    requires 0 <= n < 100
    requires (r0 >> 7) & 7 == Glyph(n / 10, 0) && (r0 >> 3) & 7 == Glyph(n % 10, 0)
    requires (r1 >> 7) & 7 == Glyph(n / 10, 1) && (r1 >> 3) & 7 == Glyph(n % 10, 1)
    requires (r2 >> 7) & 7 == Glyph(n / 10, 2) && (r2 >> 3) & 7 == Glyph(n % 10, 2)
    ensures DecodeBand(r0, r1, r2) == Some(n)
  {
    DecodeDigitOfGlyph(n / 10);
    DecodeDigitOfGlyph(n % 10);
  }

  /** One band of the frame reads back as its counter. */
  lemma DecodeBandOfFrame(hour: int, min: int, sec: int, sleepcounter: int, hourset: bool, minset: bool, band: int)
    requires 0 <= hour < 100 && 0 <= min < 100 && 0 <= sec < 100 && 0 <= sleepcounter < 50
    requires 0 <= band < 3
    ensures var f := Frame(hour, min, sec, sleepcounter, hourset, minset);
      DecodeBand(f[4 * band], f[4 * band + 1], f[4 * band + 2]) == Some(BandCounter(hour, min, sec, band))
  {
    var f := Frame(hour, min, sec, sleepcounter, hourset, minset);
    FrameDecodesDigits(hour, min, sec, sleepcounter, hourset, minset, band, 0);
    FrameDecodesDigits(hour, min, sec, sleepcounter, hourset, minset, band, 1);
    FrameDecodesDigits(hour, min, sec, sleepcounter, hourset, minset, band, 2);
    DecodeBandOfGlyphs(f[4 * band], f[4 * band + 1], f[4 * band + 2], BandCounter(hour, min, sec, band));
  }

  /** The frame shows the time it was built from: decoding it gives back
      hour, minute and second, whatever the modes and the idle count. */
  lemma DecodeTimeOfFrame(hour: int, min: int, sec: int, sleepcounter: int, hourset: bool, minset: bool)
    requires 0 <= hour < 100 && 0 <= min < 100 && 0 <= sec < 100 && 0 <= sleepcounter < 50
    ensures DecodeTime(Frame(hour, min, sec, sleepcounter, hourset, minset)) == Some((hour, min, sec))
  {
    DecodeBandOfFrame(hour, min, sec, sleepcounter, hourset, minset, 0);
    DecodeBandOfFrame(hour, min, sec, sleepcounter, hourset, minset, 1);
    DecodeBandOfFrame(hour, min, sec, sleepcounter, hourset, minset, 2);
  }

  /** The glyph of a units digit 9 reads 111, 111, 001 in the second band. */
  lemma NineDecodes(hour: int, min: int, sec: int, sleepcounter: int, hourset: bool, minset: bool)
    requires Renderable(hour, min, sec, sleepcounter) && sec % 10 == 9
    ensures var f := Frame(hour, min, sec, sleepcounter, hourset, minset);
      (f[8] >> 3) & 7 == 7 && (f[9] >> 3) & 7 == 7 && (f[10] >> 3) & 7 == 1
  {
    FrameDecodesDigits(hour, min, sec, sleepcounter, hourset, minset, 2, 0);
    FrameDecodesDigits(hour, min, sec, sleepcounter, hourset, minset, 2, 1);
    FrameDecodesDigits(hour, min, sec, sleepcounter, hourset, minset, 2, 2);
    GlyphTable();
  }
}
