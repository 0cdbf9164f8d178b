/** The firmware's globals as one object, and each routine of the core as a
    method on it: the frame builder works in place on the twelve-row
    display buffer, the timer-2 interrupt on the counters and the static
    drift accumulator, the main loop on the mode flags. Each interrupt and
    each main-loop iteration is one atomic call. */
module ClockDevice {
  import opened Glyphs
  import opened DigitSplit
  import opened FrameLayout
  import opened Ports
  import opened Timekeeping

  // Facts about single rows, over plain bit-vector values; the frame
  // builder's loops combine them.

  /** Row `k` of a band with the colon after the loop's three ORs. */
  lemma ColonBandRowOr(r: bv16, line: seq<int>, sec: int, k: int)
    requires ValidLine(line) && 0 <= k < 3
    ensures r | (DigitRow(line, k) | ColonRow(sec, k))
      == ((r | (Glyph(line[0], k) << 7)) | (Glyph(line[1], k) << 3)) | ColonRow(sec, k)
  {
  }

  /** The three digit loops, one after another, OR each row's band part
      onto what it held. */
  lemma BandsCompose(b0: seq<bv16>, b1: seq<bv16>, b2: seq<bv16>, b3: seq<bv16>,
                     first: seq<int>, second: seq<int>, third: seq<int>, sec: int)
    requires ValidLine(first) && ValidLine(second) && ValidLine(third)
    requires |b0| == ROWS && |b1| == ROWS && |b2| == ROWS && |b3| == ROWS
    requires forall i :: 0 <= i < 3 ==> b1[i] == b0[i] | (DigitRow(first, i) | ColonRow(sec, i))
    requires forall i :: 3 <= i < ROWS ==> b1[i] == b0[i]
    requires forall i :: 4 <= i < 7 ==> b2[i] == b1[i] | (DigitRow(second, i - 4) | ColonRow(sec, i - 4))
    requires forall i :: 0 <= i < ROWS && !(4 <= i < 7) ==> b2[i] == b1[i]
    requires forall i :: 8 <= i < 11 ==> b3[i] == b2[i] | DigitRow(third, i - 8)
    requires forall i :: 0 <= i < ROWS && !(8 <= i < 11) ==> b3[i] == b2[i]
    ensures forall i :: 0 <= i < ROWS ==> b3[i] == b0[i] | BandPart(first, second, third, sec, i)
  {
    forall i | 0 <= i < ROWS
      ensures b3[i] == b0[i] | BandPart(first, second, third, sec, i)
    {
      if 0 <= i < 3 {
        assert b3[i] == b1[i];
        assert BandPart(first, second, third, sec, i) == DigitRow(first, i) | ColonRow(sec, i);
      } else if 4 <= i < 7 {
        assert b3[i] == b2[i] && b1[i] == b0[i];
        assert BandPart(first, second, third, sec, i) == DigitRow(second, i - 4) | ColonRow(sec, i - 4);
      } else if 8 <= i < 11 {
        assert b2[i] == b0[i];
        assert BandPart(first, second, third, sec, i) == DigitRow(third, i - 8);
      } else {
        assert b3[i] == b0[i];
        assert BandPart(first, second, third, sec, i) == 0;
      }
    }
  }

  /** Row `k` of a band without the colon after the loop's two ORs. */
  lemma DigitBandRowOr(r: bv16, line: seq<int>, k: int)
    requires ValidLine(line) && 0 <= k < 3
    ensures r | DigitRow(line, k) == (r | (Glyph(line[0], k) << 7)) | (Glyph(line[1], k) << 3)
  {
  }

  /** One more pass of the bar loop sets one more bit. */
  lemma BarStep(r: bv16, ct: int)
    requires 0 <= ct < 16
    ensures (r | LowBits(ct)) | Bit(ct) == r | LowBits(ct + 1)
  {
    assert LowBits(ct + 1) == LowBits(ct) | Bit(ct);
  }

  /** The bar part of row `i`. */
  lemma BarRowOr(r: bv16, sleepcounter: int, i: int)
    requires 0 <= sleepcounter
    ensures i == 11 ==> r | BarPart(sleepcounter, i) == r | LowBits(sleepcounter % 10 + 1)
    ensures i != 11 ==> r | BarPart(sleepcounter, i) == r
  {
    if i == 11 {
      assert BarPart(sleepcounter, i) == LowBits(sleepcounter % 10 + 1);
    } else {
      assert BarPart(sleepcounter, i) == 0;
    }
  }

  /** The column part of row `i`. */
  lemma ColumnRowOr(r: bv16, sleepcounter: int, i: int)
    ensures 8 <= i < 8 + sleepcounter / 10 ==> r | ColumnPart(sleepcounter, i) == r | 2
    ensures !(8 <= i < 8 + sleepcounter / 10) ==> r | ColumnPart(sleepcounter, i) == r
  {
    if 8 <= i < 8 + sleepcounter / 10 {
      assert ColumnPart(sleepcounter, i) == 2;
    } else {
      assert ColumnPart(sleepcounter, i) == 0;
    }
  }

  /** The marker part of row `i`. */
  lemma MarkerRowOr(r: bv16, hourset: bool, minset: bool, i: int)
    ensures (i == 0 && hourset) || (i == 1 && !hourset && minset) ==> r | MarkerPart(hourset, minset, i) == r | 1
    ensures !((i == 0 && hourset) || (i == 1 && !hourset && minset)) ==> r | MarkerPart(hourset, minset, i) == r
  {
    if (i == 0 && hourset) || (i == 1 && !hourset && minset) {
      assert MarkerPart(hourset, minset, i) == 1;
    } else {
      assert MarkerPart(hourset, minset, i) == 0;
    }
  }

  /** The subtraction loop of the timer-2 interrupt ends with the quotient
      and the remainder of one second. */
  lemma LoopQuotient(u0: int, g: int, u: int)
    requires 0 <= g && 0 <= u < ONE_SECOND && g * ONE_SECOND + u == FireTotal(u0)
    ensures g == FireGain(u0) && u == FireResidue(u0)
  {
  }

  /** A fire keeps every nanosecond of the fires so far accounted for. */
  lemma AccountStep(u: int, gained: int, fires: int)
    requires 0 <= u < ONE_SECOND && u + ONE_SECOND * gained == ONE_INTERRUPT * fires
    ensures FireResidue(u) + ONE_SECOND * (gained + FireGain(u)) == ONE_INTERRUPT * (fires + 1)
  {
    FireAccounting(u);
  }

  /** The hold loop of `main`: counts the samples the button reads pressed,
      and stops counting once the count has passed 125. */
  method HoldLoop(samples: seq<bool>) returns (btntimer: int)
    ensures btntimer == HoldLength(samples)
  {
    btntimer := 0;
    var i := 0;
    while i < |samples| && samples[i] && btntimer <= 125
      invariant 0 <= i <= |samples| && btntimer == i && i <= HOLD_CAP
      invariant forall j :: 0 <= j < i ==> samples[j]
    {
      btntimer := btntimer + 1;
      i := i + 1;
    }
    HoldLoopExit(samples, i);
  }

  /** Four layers ORed in turn onto a row are the row ORed with all four at once. */
  lemma OrChain(r: bv16, band: bv16, bar: bv16, col: bv16, mark: bv16)
    ensures (((r | band) | bar) | col) | mark == r | (((band | bar) | col) | mark)
  {
  }

  /** As written, the missed carry runs the seconds past what the frame
      builder can draw: from second 109 the next fire outside set mode
      leaves a state whose tens digit 11 would index past `charset`. */
  lemma MissedCarryOutrunsFrame(s: Snapshot)
    requires Inv(s) && !InSetMode(s) && s.sec == 109
    ensures Timer2Fire(s).sec >= 110
    ensures !Renderable(Timer2Fire(s).hour, Timer2Fire(s).min, Timer2Fire(s).sec, Timer2Fire(s).sleepcounter)
  {
    StuckPastSixty(s);
  }

  class Clock {
    var hour: int
    var sleepcounter: int
    var min: int
    var sec: int
    var showdisplay: bool
    var minset: bool
    var hourset: bool
    /** The `static uint32_t unaccounted_time` of the timer-2 interrupt. */
    var unaccountedTime: int
    /** The twelve rows the display shows. */
    const displaybuffer: array<bv16>

    /** Timer-2 fires outside set mode, and the seconds they released. */
    ghost var fires: nat
    ghost var gained: nat

    /** The counters as a value. */
    function State(): Snapshot
      reads this
    {
      Snapshot(hour, min, sec, sleepcounter, showdisplay, minset, hourset, unaccountedTime)
    }

    /** Between steps: the invariant of the counters, and every nanosecond of every fire accounted for by the released
        seconds and the residual. */
    ghost predicate Valid()
      reads this
    {
      displaybuffer.Length == ROWS && Inv(State())
      && unaccountedTime + ONE_SECOND * gained == ONE_INTERRUPT * fires
    }

    /** Power-up: 11:59:50, display on, no set mode, empty buffer and accumulator. */
    constructor ()
      ensures Valid() && fresh(displaybuffer)
      ensures State() == Snapshot(11, 59, 50, 0, true, false, false, 0)
      ensures forall i :: 0 <= i < ROWS ==> displaybuffer[i] == 0
    {
      hour, sleepcounter, min, sec := 11, 0, 59, 50;
      showdisplay, minset, hourset := true, false, false;
      unaccountedTime := 0;
      displaybuffer := new bv16[ROWS](_ => 0);
      fires, gained := 0, 0;
    }

    // -------------------------------------------------------------------
    // Frame builder

    /** `resetDisplayBuffer`: every row dark. */
    method ResetDisplayBuffer()
      requires displaybuffer.Length == ROWS
      modifies displaybuffer
      ensures forall i :: 0 <= i < ROWS ==> displaybuffer[i] == 0
    {
      var x := 0;
      while x < ROWS
        invariant 0 <= x <= ROWS
        invariant forall i :: 0 <= i < x ==> displaybuffer[i] == 0
      {
        displaybuffer[x] := 0;
        x := x + 1;
      }
    }

    /** The hour loop of `prepareFrame`: rows 0-2 get both digit segments
        of `firstline` and, on even seconds, the colon. */
    method DrawHourBand(firstline: seq<int>)
      requires ValidLine(firstline) && displaybuffer.Length == ROWS
      modifies displaybuffer
      ensures forall i :: 0 <= i < 3 ==>
        displaybuffer[i] == old(displaybuffer[i]) | (DigitRow(firstline, i) | ColonRow(sec, i))
      ensures forall i :: 3 <= i < ROWS ==> displaybuffer[i] == old(displaybuffer[i])
    {
      ghost var b0 := displaybuffer[..];
      var s := sec;
      var x := 0;
      while x < 3
        invariant 0 <= x <= 3
        invariant forall i :: 0 <= i < x ==> displaybuffer[i] == b0[i] | (DigitRow(firstline, i) | ColonRow(s, i))
        invariant forall i :: x <= i < ROWS ==> displaybuffer[i] == b0[i]
      {
        var row := displaybuffer[x];
        row := row | (Glyph(firstline[0], x) << 7);
        row := row | (Glyph(firstline[1], x) << 3);
        row := row | ColonRow(s, x);
        ColonBandRowOr(b0[x], firstline, s, x);
        displaybuffer[x] := row;
        x := x + 1;
      }
    }

    /** The minute loop of `prepareFrame`: rows 4-6 get both digit segments
        of `secondline` and, on even seconds, the colon. */
    method DrawMinuteBand(secondline: seq<int>)
      requires ValidLine(secondline) && displaybuffer.Length == ROWS
      modifies displaybuffer
      ensures forall i :: 4 <= i < 7 ==>
        displaybuffer[i] == old(displaybuffer[i]) | (DigitRow(secondline, i - 4) | ColonRow(sec, i - 4))
      ensures forall i :: 0 <= i < ROWS && !(4 <= i < 7) ==> displaybuffer[i] == old(displaybuffer[i])
    {
      ghost var b0 := displaybuffer[..];
      var s := sec;
      var y := 0;
      var x := 4;
      while x < 7
        invariant 4 <= x <= 7 && y == x - 4
        invariant forall i :: 4 <= i < x ==> displaybuffer[i] == b0[i] | (DigitRow(secondline, i - 4) | ColonRow(s, i - 4))
        invariant forall i :: 0 <= i < ROWS && !(4 <= i < x) ==> displaybuffer[i] == b0[i]
      {
        var row := displaybuffer[x];
        row := row | (Glyph(secondline[0], y) << 7);
        row := row | (Glyph(secondline[1], y) << 3);
        row := row | ColonRow(s, y);
        ColonBandRowOr(b0[x], secondline, s, y);
        displaybuffer[x] := row;
        y := y + 1;
        x := x + 1;
      }
    }

    /** The second loop of `prepareFrame`: rows 8-10 get both digit segments
        of `thirdline`, never a colon. */
    method DrawSecondBand(thirdline: seq<int>)
      requires ValidLine(thirdline) && displaybuffer.Length == ROWS
      modifies displaybuffer
      ensures forall i :: 8 <= i < 11 ==> displaybuffer[i] == old(displaybuffer[i]) | DigitRow(thirdline, i - 8)
      ensures forall i :: 0 <= i < ROWS && !(8 <= i < 11) ==> displaybuffer[i] == old(displaybuffer[i])
    {
      ghost var b0 := displaybuffer[..];
      var y := 0;
      var x := 8;
      while x < 11
        invariant 8 <= x <= 11 && y == x - 8
        invariant forall i :: 8 <= i < x ==> displaybuffer[i] == b0[i] | DigitRow(thirdline, i - 8)
        invariant forall i :: 0 <= i < ROWS && !(8 <= i < x) ==> displaybuffer[i] == b0[i]
      {
        var row := displaybuffer[x];
        row := row | (Glyph(thirdline[0], y) << 7);
        row := row | (Glyph(thirdline[1], y) << 3);
        DigitBandRowOr(b0[x], thirdline, y);
        displaybuffer[x] := row;
        y := y + 1;
        x := x + 1;
      }
    }

    /** The three digit loops of `prepareFrame`: the hour band with the
        colon in rows 0-2, the minute band with the colon in rows 4-6 and the
        second band in rows 8-10, each ORed onto what the row held. */
    method DrawBands(firstline: seq<int>, secondline: seq<int>, thirdline: seq<int>)
      requires ValidLine(firstline) && ValidLine(secondline) && ValidLine(thirdline)
      requires displaybuffer.Length == ROWS
      modifies displaybuffer
      ensures forall i :: 0 <= i < ROWS ==>
        displaybuffer[i] == old(displaybuffer[i]) | BandPart(firstline, secondline, thirdline, sec, i)
    {
      ghost var b0 := displaybuffer[..];
      DrawHourBand(firstline);
      ghost var b1 := displaybuffer[..];
      DrawMinuteBand(secondline);
      ghost var b2 := displaybuffer[..];
      DrawSecondBand(thirdline);
      BandsCompose(b0, b1, b2, displaybuffer[..], firstline, secondline, thirdline, sec);
    }

    /** The idle-bar loop of `prepareFrame`: bits 0 .. sleepcounter % 10 of row 11. */
    method DrawIdleBar()
      requires displaybuffer.Length == ROWS && 0 <= sleepcounter
      modifies displaybuffer
      ensures forall i :: 0 <= i < ROWS ==> displaybuffer[i] == old(displaybuffer[i]) | BarPart(sleepcounter, i)
    {
      ghost var b3 := displaybuffer[..];
      var sc := sleepcounter;
      var ct := 0;
      while ct <= sc % 10
        invariant 0 <= ct <= sc % 10 + 1
        invariant displaybuffer[11] == b3[11] | LowBits(ct)
        invariant forall i :: 0 <= i < 11 ==> displaybuffer[i] == b3[i]
      {
        BarStep(b3[11], ct);
        displaybuffer[11] := displaybuffer[11] | Bit(ct);
        ct := ct + 1;
      }
      forall i | 0 <= i < ROWS
        ensures displaybuffer[i] == old(displaybuffer[i]) | BarPart(sleepcounter, i)
      {
        BarRowOr(b3[i], sc, i);
      }
    }

    /** The idle-column loop of `prepareFrame`: bit 1 of the rows from 8 on,
        one row per ten idle seconds. */
    method DrawIdleColumn()
      requires displaybuffer.Length == ROWS && 0 <= sleepcounter < 50
      modifies displaybuffer
      ensures forall i :: 0 <= i < ROWS ==> displaybuffer[i] == old(displaybuffer[i]) | ColumnPart(sleepcounter, i)
    {
      var line := 8;
      ghost var b4 := displaybuffer[..];
      var ct := 0;
      while ct < sleepcounter / 10
        invariant 0 <= ct <= sleepcounter / 10 && line == 8 + ct
        invariant forall i :: 8 <= i < line ==> displaybuffer[i] == b4[i] | 2
        invariant forall i :: 0 <= i < ROWS && !(8 <= i < line) ==> displaybuffer[i] == b4[i]
      {
        displaybuffer[line] := displaybuffer[line] | ((1 as bv16) << 1);
        line := line + 1;
        ct := ct + 1;
      }
      forall i | 0 <= i < ROWS
        ensures displaybuffer[i] == b4[i] | ColumnPart(sleepcounter, i)
      {
        ColumnRowOr(b4[i], sleepcounter, i);
      }
    }

    /** The set-mode marker of `prepareFrame`: bit 0 of row 0 while setting
        the hour, of row 1 while setting the minute. */
    method DrawMarker()
      requires displaybuffer.Length == ROWS
      modifies displaybuffer
      ensures forall i :: 0 <= i < ROWS ==> displaybuffer[i] == old(displaybuffer[i]) | MarkerPart(hourset, minset, i)
    {
      if hourset {
        MarkerRowOr(displaybuffer[0], hourset, minset, 0);
        displaybuffer[0] := displaybuffer[0] | 1;
      } else if minset {
        MarkerRowOr(displaybuffer[1], hourset, minset, 1);
        displaybuffer[1] := displaybuffer[1] | 1;
      }
      forall i | 0 <= i < ROWS && !((i == 0 && hourset) || (i == 1 && !hourset && minset))
        ensures MarkerPart(hourset, minset, i) == 0
      {
      }
    }

    /** `prepareFrame`: ORs the digit bands, the colon, the idle bar, the
        idle column and the set-mode marker into the rows, whatever they held. */
    method PrepareFrame(firstline: seq<int>, secondline: seq<int>, thirdline: seq<int>)
      requires ValidLine(firstline) && ValidLine(secondline) && ValidLine(thirdline)
      requires displaybuffer.Length == ROWS && 0 <= sleepcounter < 50
      modifies displaybuffer
      ensures forall i :: 0 <= i < ROWS ==>
        displaybuffer[i] == old(displaybuffer[i])
          | Layer(firstline, secondline, thirdline, sec, sleepcounter, hourset, minset, i)
    {
      ghost var b0 := displaybuffer[..];
      DrawBands(firstline, secondline, thirdline);
      ghost var b3 := displaybuffer[..];
      DrawIdleBar();
      ghost var b4 := displaybuffer[..];
      DrawIdleColumn();
      ghost var b5 := displaybuffer[..];
      DrawMarker();
      forall i | 0 <= i < ROWS
        ensures displaybuffer[i] == b0[i] | Layer(firstline, secondline, thirdline, sec, sleepcounter, hourset, minset, i)
      {
        OrChain(b0[i], BandPart(firstline, secondline, thirdline, sec, i), BarPart(sleepcounter, i),
          ColumnPart(sleepcounter, i), MarkerPart(hourset, minset, i));
      }
    }

    /** `refreshFrame`: the rows are rebuilt from scratch, so they depend on
        the counters and the modes only, never on what the buffer held. */
    method RefreshFrame()
      requires displaybuffer.Length == ROWS && Renderable(hour, min, sec, sleepcounter)
      modifies displaybuffer
      ensures displaybuffer[..] == Frame(hour, min, sec, sleepcounter, hourset, minset)
    {
      GetDigitOfNat(hour); GetDigitOfNat(min); GetDigitOfNat(sec);
      var firstline := [GetDigit(hour, 0), GetDigit(hour, 1)];
      var secondline := [GetDigit(min, 0), GetDigit(min, 1)];
      var thirdline := [GetDigit(sec, 0), GetDigit(sec, 1)];
      ResetDisplayBuffer();
      PrepareFrame(firstline, secondline, thirdline);
      assert firstline == DigitPair(hour) && secondline == DigitPair(min) && thirdline == DigitPair(sec);
    }

    /** The row split of `multiplex`: rows 0 to 10 are written to the ports
        one after another (row 11 never is); the LED pins carry each row's
        ten low bits. */
    method Multiplex(ports: PortImage) returns (latched: seq<PortImage>)
      requires displaybuffer.Length == ROWS
      ensures |latched| == 11
      ensures forall i :: 0 <= i < 11 ==> ShownRow(latched[i]) == displaybuffer[i] & 0x3FF
    {
      var p := ports;
      latched := [];
      var i := 0;
      while i < 11
        invariant 0 <= i <= 11 && |latched| == i
        invariant forall j :: 0 <= j < i ==> ShownRow(latched[j]) == displaybuffer[j] & 0x3FF
      {
        p := WriteRow(displaybuffer[i], p);
        WriteRowShows(displaybuffer[i], p);
        latched := latched + [p];
        i := i + 1;
      }
    }

    /** The timer-0 interrupt: while the display is on, scan the current
        rows out, then rebuild them for the next scan. */
    method Timer0Overflow(ports: PortImage) returns (latched: seq<PortImage>)
      requires displaybuffer.Length == ROWS && (showdisplay ==> Renderable(hour, min, sec, sleepcounter))
      modifies displaybuffer
      ensures showdisplay ==> (
        |latched| == 11
        && (forall i :: 0 <= i < 11 ==> ShownRow(latched[i]) == old(displaybuffer[i]) & 0x3FF)
        && displaybuffer[..] == Frame(hour, min, sec, sleepcounter, hourset, minset))
      ensures !showdisplay ==> latched == [] && displaybuffer[..] == old(displaybuffer[..])
    {
      latched := [];
      if showdisplay {
        latched := Multiplex(ports);
        RefreshFrame();
      }
    }

    // -------------------------------------------------------------------
    // Manual set

    /** `incrementMinute`. */
    method IncrementMinute()
      modifies this`min, this`sec
      ensures State() == BumpMinute(old(State()))
    {
      min := min + 1;
      if min == 60 {
        min := 0;
      }
      sec := 0;
    }

    /** `incrementHour`. */
    method IncrementHour()
      modifies this`hour, this`sec
      ensures State() == BumpHour(old(State()))
    {
      hour := hour + 1;
      if hour == 24 {
        hour := 0;
      }
      sec := 0;
    }

    // -------------------------------------------------------------------
    // Interrupts and the main loop

    /** The time-keeping block of the timer-2 interrupt, run outside set
        mode: the accumulator gains one interrupt period and releases whole
        seconds, then the carries follow. The interrupt runs with interrupts
        disabled, so the block works on copies of the counters and stores
        them back at its end. */
    method AdvanceTime()
      requires Valid() && !InSetMode(State())
      modifies this`hour, this`min, this`sec, this`unaccountedTime, this`fires, this`gained
      ensures State() == FireCounters(old(State()))
      ensures fires == old(fires) + 1
      ensures Valid()
    {
      ghost var s0 := State();
      var s, m, h, u := sec, min, hour, unaccountedTime;
      FireAccounting(u);
      ghost var u0 := u;
      u := U32Add(u, ONE_INTERRUPT);
      ghost var g := 0;
      while u >= ONE_SECOND
        invariant 0 <= g && 0 <= u
        invariant s == s0.sec + g && g * ONE_SECOND + u == FireTotal(u0)
        decreases u
      {
        s := s + 1;
        u := u - ONE_SECOND;
        g := g + 1;
      }
      LoopQuotient(u0, g, u);

      if s == 60 {
        s := 0;
        m := m + 1;
      }

      if m == 60 {
        m := 0;
        h := h + 1;
      }

      if h == 24 {
        h := 0;
      }
      FireCountersOf(s0, s, m, h, u);
      AccountStep(u0, gained, fires);
      FireCountersInv(s0);
      sec, min, hour, unaccountedTime := s, m, h, u;
      fires, gained := fires + 1, gained + g;
    }

    /** The timer-2 interrupt (the counter reload is left out). */
    method Timer2Overflow()
      requires Valid()
      modifies this`hour, this`min, this`sec, this`sleepcounter, this`unaccountedTime, this`fires, this`gained
      ensures Valid()
      ensures State() == Timer2Fire(old(State()))
      ensures fires == old(fires) + (if InSetMode(old(State())) then 0 else 1)
    {
      if !hourset && !minset {
        AdvanceTime();
      }

      if showdisplay && !hourset && !minset {
        sleepcounter := sleepcounter + 1;
      }
    }

    /** `powersave_sleep`, up to the halt: the display goes off. The main
        loop resumes after any interrupt, a timer-2 overflow included, and
        goes back to sleep while the idle count stands at 30; only the wake
        interrupt turns the display on. */
    method PowersaveSleep()
      modifies this`showdisplay
      ensures !showdisplay
    {
      showdisplay := false;
    }

    /** One iteration of the main loop, the button reading pressed for the
        leading `samples` (and released after them). `main`'s `btntimer`
        is 0 whenever an iteration starts, so it is a local here. */
    method MainIteration(samples: seq<bool>)
      requires Valid()
      modifies this`hourset, this`minset, this`hour, this`min, this`sec, this`sleepcounter, this`showdisplay
      ensures Valid()
      ensures State() == MainStep(old(State()), HoldLength(samples))
    {
      ghost var s0 := State();
      var btntimer := HoldLoop(samples);

      if btntimer >= 125 && (!hourset && !minset) {
        hourset := true;
      } else if btntimer >= 125 && hourset {
        hourset := false;
        minset := true;
      } else if btntimer >= 125 && (minset && !hourset) {
        minset := false;
      }

      if hourset && (btntimer > 1 && btntimer < 30) {
        IncrementHour();
        sleepcounter := 0;
      } else if minset && (btntimer > 1 && btntimer < 30) {
        IncrementMinute();
        sleepcounter := 0;
      }

      btntimer := 0;

      if sleepcounter == 30 {
        PowersaveSleep();
      }
      StepPreservesInv(s0, Loop(HoldLength(samples)));
    }

    /** The `INT0` interrupt: the button wakes the clock. */
    method Int0Wake()
      requires Valid()
      modifies this`showdisplay, this`sleepcounter
      ensures Valid()
      ensures State() == Wake(old(State()))
    {
      showdisplay := true;
      sleepcounter := 0;
    }
  }
}
