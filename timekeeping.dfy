/** The clock's shared counters as a value, and each interrupt and each
    main-loop iteration as one function on it: the reference definitions the
    `Clock` class is proved against, with what they promise. */
module Timekeeping {

  /** Nanoseconds in a second. */
  const ONE_SECOND: int := 1000000000
  /** Nanoseconds between two timer-2 overflows of the crystal (a 40 ppm long tick). */
  const ONE_INTERRUPT: int := 1000040000
  /** The range of the `uint32_t` drift accumulator. */
  const U32: int := 0x1_0000_0000
  /** A hold at least this long switches the set mode. */
  const LONG_HOLD: int := 125
  /** The hold loop stops counting after this many samples. */
  const HOLD_CAP: int := 126
  /** The idle count at which the main loop puts the clock to sleep. */
  const SLEEP_AT: int := 30

  /** The globals shared by the two interrupts and the main loop, and the
      static accumulator of the timer-2 interrupt. */
  datatype Snapshot = Snapshot(
    hour: int, min: int, sec: int, sleepcounter: int,
    showdisplay: bool, minset: bool, hourset: bool,
    unaccountedTime: int)

  /** What every step keeps: hour and minute in range, non-negative counters,
      at most one set mode, and a residual below one second. */
  predicate Inv(s: Snapshot) {
    0 <= s.hour < 24 && 0 <= s.min < 60 && 0 <= s.sec && 0 <= s.sleepcounter
    && !(s.hourset && s.minset) && 0 <= s.unaccountedTime < ONE_SECOND
  }

  /** A valid time of day besides. */
  predicate SaneTime(s: Snapshot) {
    Inv(s) && s.sec < 60
  }

  /** Seconds since midnight. */
  function SecondsOfDay(s: Snapshot): int {
    s.hour * 3600 + s.min * 60 + s.sec
  }

  predicate InSetMode(s: Snapshot) {
    s.hourset || s.minset
  }

  // ---------------------------------------------------------------------
  // The drift accumulator

  /** `uint32_t` addition: wraps at 2^32. */
  function U32Add(a: int, b: int): int {
    (a + b) % U32
  }

  /** The accumulator after `unaccounted_time += ONE_INTERRUPT`. */
  function FireTotal(u: int): int {
    U32Add(u, ONE_INTERRUPT)
  }

  /** Seconds one fire adds: the number of times the `while` loop subtracts a second. */
  function FireGain(u: int): int {
    FireTotal(u) / ONE_SECOND
  }

  /** What the accumulator keeps after the loop. */
  function FireResidue(u: int): int {
    FireTotal(u) % ONE_SECOND
  }

  /** The add never wraps, since the residual stays below one second; a
      fire adds one second, or two when it carries the residual past a whole
      second; the nanoseconds are conserved. */
  lemma FireAccounting(u: int)
    requires 0 <= u < ONE_SECOND
    ensures u + ONE_INTERRUPT < U32 && FireTotal(u) == u + ONE_INTERRUPT
    ensures FireGain(u) == 1 || FireGain(u) == 2
    ensures FireGain(u) == 2 <==> u >= 2 * ONE_SECOND - ONE_INTERRUPT
    ensures 0 <= FireResidue(u) < ONE_SECOND
    ensures FireResidue(u) + ONE_SECOND * FireGain(u) == u + ONE_INTERRUPT
  {
  }

  /** The residual after `n` fires. */
  function ResidueAfter(u: int, n: nat): int {
    if n == 0 then u else FireResidue(ResidueAfter(u, n - 1))
  }

  /** The seconds `n` fires add. */
  function GainAfter(u: int, n: nat): int {
    if n == 0 then 0 else GainAfter(u, n - 1) + FireGain(ResidueAfter(u, n - 1))
  }

  /** No nanosecond is lost: after any number of fires the residual is below
      a second and, with the seconds added, accounts for every fire. */
  lemma {:induction false} Conservation(u: int, n: nat)
    requires 0 <= u < ONE_SECOND
    ensures 0 <= ResidueAfter(u, n) < ONE_SECOND
    ensures ResidueAfter(u, n) + ONE_SECOND * GainAfter(u, n) == u + n * ONE_INTERRUPT
  {
    if n > 0 {
      Conservation(u, n - 1);
      FireAccounting(ResidueAfter(u, n - 1));
    }
  }

  /** 25,000 fires from an empty accumulator add exactly 25,001 seconds and
      leave the accumulator empty again. */
  lemma DriftCycle()
    ensures GainAfter(0, 25000) == 25001 && ResidueAfter(0, 25000) == 0
  {
    Conservation(0, 25000);
  }

  // ---------------------------------------------------------------------
  // The timer-2 interrupt

  /** The carries after the loop, as written: each test is an equality. */
  function Rollover(sec: int, min: int, hour: int): (int, int, int) {
    var (sec1, min1) := if sec == 60 then (0, min + 1) else (sec, min);
    var (min2, hour1) := if min1 == 60 then (0, hour + 1) else (min1, hour);
    (sec1, min2, if hour1 == 24 then 0 else hour1)
  }

  /** One timer-2 overflow: outside set mode the accumulator advances the
      seconds and the carries follow; the idle count advances while the
      display is on and no set mode is active. */
  function Timer2Fire(s: Snapshot): Snapshot {
    var t := if !s.hourset && !s.minset then FireCounters(s) else s;
    if t.showdisplay && !t.hourset && !t.minset then t.(sleepcounter := t.sleepcounter + 1) else t
  }

  /** The time-keeping block of the interrupt: the seconds the accumulator
      releases, then the carries; nothing but the time and the accumulator
      changes. */
  function FireCounters(s: Snapshot): Snapshot {
    var (sec, min, hour) := Rollover(s.sec + FireGain(s.unaccountedTime), s.min, s.hour);
    s.(sec := sec, min := min, hour := hour, unaccountedTime := FireResidue(s.unaccountedTime))
  }

  /** In set mode a fire changes nothing at all: the time is frozen and the
      idle count stands still. */
  lemma FireFrozenInSetMode(s: Snapshot)
    requires InSetMode(s)
    ensures Timer2Fire(s) == s
  {
  }

  /** A fire touches the idle count exactly when the display is on and no
      set mode is active, and never touches the modes or the display flag. */
  lemma FireIdleCount(s: Snapshot)
    ensures var t := Timer2Fire(s);
      t.sleepcounter == s.sleepcounter + (if s.showdisplay && !InSetMode(s) then 1 else 0) &&
      t.showdisplay == s.showdisplay && t.hourset == s.hourset && t.minset == s.minset
  {
  }

  /** The block's result, given the carries and the residual it computes. */
  lemma FireCountersOf(s: Snapshot, sec: int, min: int, hour: int, u: int)
    requires (sec, min, hour) == Rollover(s.sec + FireGain(s.unaccountedTime), s.min, s.hour)
    requires u == FireResidue(s.unaccountedTime)
    ensures FireCounters(s) == s.(sec := sec, min := min, hour := hour, unaccountedTime := u)
  {
  }

  /** The time-keeping block keeps the invariant and leaves the modes, the
      display flag and the idle count alone. */
  lemma FireCountersInv(s: Snapshot)
    requires Inv(s)
    ensures Inv(FireCounters(s))
    ensures FireCounters(s).(sec := s.sec, min := s.min, hour := s.hour, unaccountedTime := s.unaccountedTime) == s
  {
    FireAccounting(s.unaccountedTime);
  }

  /** A fire keeps the invariant; outside set mode it moves the accumulator
      by exactly one interrupt period. */
  lemma FirePreservesInv(s: Snapshot)
    requires Inv(s)
    ensures Inv(Timer2Fire(s))
    ensures !InSetMode(s) ==>
      Timer2Fire(s).unaccountedTime == FireResidue(s.unaccountedTime) &&
      Timer2Fire(s).unaccountedTime + ONE_SECOND * FireGain(s.unaccountedTime)
        == s.unaccountedTime + ONE_INTERRUPT
  {
    FireAccounting(s.unaccountedTime);
  }

  /** Provided the seconds a fire adds do not step past 60, the fire keeps a
      valid time of day and advances it by exactly those seconds, rolling
      over at midnight. */
  lemma FireAdvancesTime(s: Snapshot)
    requires SaneTime(s) && !InSetMode(s)
    requires s.sec + FireGain(s.unaccountedTime) <= 60
    ensures SaneTime(Timer2Fire(s))
    ensures SecondsOfDay(Timer2Fire(s)) == (SecondsOfDay(s) + FireGain(s.unaccountedTime)) % 86400
  {
    FireAccounting(s.unaccountedTime);
  }

  /** 23:59:59 plus one second is 00:00:00, in one fire. */
  lemma MidnightRollover(s: Snapshot)
    requires Inv(s) && !InSetMode(s)
    requires s.hour == 23 && s.min == 59 && s.sec == 59
    requires s.unaccountedTime < 2 * ONE_SECOND - ONE_INTERRUPT
    ensures var t := Timer2Fire(s); t.hour == 0 && t.min == 0 && t.sec == 0
  {
    FireAccounting(s.unaccountedTime);
  }

  /** As written, a two-second fire at second 59 jumps to second 61: the
      `sec == 60` test misses, the minute does not advance. */
  lemma SecondSkipsRollover(s: Snapshot)
    requires Inv(s) && !InSetMode(s)
    requires s.sec == 59 && s.unaccountedTime == 2 * ONE_SECOND - ONE_INTERRUPT
    ensures Timer2Fire(s).sec == 61 && Timer2Fire(s).min == s.min && Timer2Fire(s).hour == s.hour
  {
    FireAccounting(s.unaccountedTime);
  }

  /** Once past 60 the seconds only grow, and minute and hour stand still
      until the time is set by hand. */
  lemma StuckPastSixty(s: Snapshot)
    requires Inv(s) && !InSetMode(s) && s.sec > 60
    ensures Timer2Fire(s).sec > s.sec && Timer2Fire(s).min == s.min && Timer2Fire(s).hour == s.hour
  {
    FireAccounting(s.unaccountedTime);
  }

  /** The carries as evidently intended: a second count at or past 60
      wraps by 60 and carries into the minute. */
  function RolloverCorrected(sec: int, min: int, hour: int): (int, int, int) {
    var (sec1, min1) := if sec >= 60 then (sec - 60, min + 1) else (sec, min);
    var (min2, hour1) := if min1 == 60 then (0, hour + 1) else (min1, hour);
    (sec1, min2, if hour1 == 24 then 0 else hour1)
  }

  /** The timer-2 overflow with the corrected carries. */
  function Timer2FireCorrected(s: Snapshot): Snapshot {
    var t := if !s.hourset && !s.minset then FireCountersCorrected(s) else s;
    if t.showdisplay && !t.hourset && !t.minset then t.(sleepcounter := t.sleepcounter + 1) else t
  }

  /** The time-keeping block with the corrected carries. */
  function FireCountersCorrected(s: Snapshot): Snapshot {
    var (sec, min, hour) := RolloverCorrected(s.sec + FireGain(s.unaccountedTime), s.min, s.hour);
    s.(sec := sec, min := min, hour := hour, unaccountedTime := FireResidue(s.unaccountedTime))
  }

  /** The corrected fire always keeps a valid time of day and advances it by
      the seconds the accumulator releases, frozen in set mode. */
  lemma CorrectedFireAdvancesTime(s: Snapshot)
    requires SaneTime(s)
    ensures SaneTime(Timer2FireCorrected(s))
    ensures SecondsOfDay(Timer2FireCorrected(s))
      == if InSetMode(s) then SecondsOfDay(s) else (SecondsOfDay(s) + FireGain(s.unaccountedTime)) % 86400
  {
    FireAccounting(s.unaccountedTime);
  }

  /** Where the as-written carries do not miss, the two fires agree. */
  lemma CorrectedFireAgrees(s: Snapshot)
    requires SaneTime(s)
    requires s.sec + FireGain(s.unaccountedTime) <= 60
    ensures Timer2FireCorrected(s) == Timer2Fire(s)
  {
    FireAccounting(s.unaccountedTime);
  }

  /** `n` corrected fires. */
  function FiresCorrected(s: Snapshot, n: nat): Snapshot {
    if n == 0 then s else Timer2FireCorrected(FiresCorrected(s, n - 1))
  }

  /** Over any number of fires outside set mode the corrected clock advances
      by exactly the seconds the accumulator releases, modulo a day. */
  lemma {:induction false} CorrectedFiresKeepTime(s: Snapshot, n: nat)
    requires SaneTime(s) && !InSetMode(s)
    ensures SaneTime(FiresCorrected(s, n)) && !InSetMode(FiresCorrected(s, n))
    ensures FiresCorrected(s, n).unaccountedTime == ResidueAfter(s.unaccountedTime, n)
    ensures SecondsOfDay(FiresCorrected(s, n)) == (SecondsOfDay(s) + GainAfter(s.unaccountedTime, n)) % 86400
  {
    if n > 0 {
      var p := FiresCorrected(s, n - 1);
      CorrectedFiresKeepTime(s, n - 1);
      CorrectedFireAdvancesTime(p);
      var g := FireGain(p.unaccountedTime);
      assert Timer2FireCorrected(p).unaccountedTime == FireResidue(p.unaccountedTime);
      assert Timer2FireCorrected(p).hourset == p.hourset && Timer2FireCorrected(p).minset == p.minset;
      ModAddDay(SecondsOfDay(s) + GainAfter(s.unaccountedTime, n - 1), g);
    }
  }

  lemma ModAddDay(a: int, b: int)
    ensures (a % 86400 + b) % 86400 == (a + b) % 86400
  {
    assert a == (a / 86400) * 86400 + a % 86400;
  }

  /** 25,000 corrected fires from an empty accumulator move the time of day
      forward by 25,001 seconds. */
  lemma DriftCycleOnClock(s: Snapshot)
    requires SaneTime(s) && !InSetMode(s) && s.unaccountedTime == 0
    ensures SecondsOfDay(FiresCorrected(s, 25000)) == (SecondsOfDay(s) + 25001) % 86400
    ensures FiresCorrected(s, 25000).unaccountedTime == 0
  {
    CorrectedFiresKeepTime(s, 25000);
    DriftCycle();
  }

  // ---------------------------------------------------------------------
  // Manual set

  /** `incrementHour`. */
  function BumpHour(s: Snapshot): Snapshot {
    var h := s.hour + 1;
    s.(hour := if h == 24 then 0 else h, sec := 0)
  }

  /** `incrementMinute`: no carry into the hour. */
  function BumpMinute(s: Snapshot): Snapshot {
    var m := s.min + 1;
    s.(min := if m == 60 then 0 else m, sec := 0)
  }

  /** The hour steps modulo 24 and the seconds restart; nothing else changes. */
  lemma BumpHourWraps(s: Snapshot)
    requires 0 <= s.hour < 24
    ensures BumpHour(s) == s.(hour := (s.hour + 1) % 24, sec := 0)
  {
  }

  /** The minute steps modulo 60 and the seconds restart; the hour is not carried. */
  lemma BumpMinuteWraps(s: Snapshot)
    requires 0 <= s.min < 60
    ensures BumpMinute(s) == s.(min := (s.min + 1) % 60, sec := 0)
  {
  }

  // ---------------------------------------------------------------------
  // The button and the main loop

  /** How many samples at the start the button reads as pressed. */
  function LeadingPresses(samples: seq<bool>): (n: nat)
    ensures n <= |samples|
  {
    if samples == [] || !samples[0] then 0 else 1 + LeadingPresses(samples[1..])
  }

  /** What the hold loop counts: the presses, capped. */
  function HoldLength(samples: seq<bool>): int {
    if LeadingPresses(samples) < HOLD_CAP then LeadingPresses(samples) else HOLD_CAP
  }

  /** The leading presses are all pressed, and the next sample, if any, is not. */
  lemma {:induction false} LeadingPressesMeaning(samples: seq<bool>)
    ensures forall j :: 0 <= j < LeadingPresses(samples) ==> samples[j]
    ensures LeadingPresses(samples) < |samples| ==> !samples[LeadingPresses(samples)]
  {
    if samples != [] && samples[0] {
      LeadingPressesMeaning(samples[1..]);
      assert forall j :: 1 <= j < LeadingPresses(samples) ==> samples[j] == samples[1..][j - 1];
    }
  }

  /** All of the first `i` samples pressed: at least `i` leading presses. */
  lemma {:induction false} LeadingPressesOfPrefix(samples: seq<bool>, i: nat)
    requires i <= |samples| && forall j :: 0 <= j < i ==> samples[j]
    ensures LeadingPresses(samples) >= i
  {
    if i > 0 {
      assert forall j :: 0 <= j < i - 1 ==> samples[1..][j] == samples[j + 1];
      LeadingPressesOfPrefix(samples[1..], i - 1);
    }
  }

  /** A released sample at `i`: at most `i` leading presses. */
  lemma {:induction false} LeadingPressesStop(samples: seq<bool>, i: nat)
    requires i < |samples| && !samples[i]
    ensures LeadingPresses(samples) <= i
  {
    if i > 0 && samples[0] {
      assert samples[1..][i - 1] == samples[i];
      LeadingPressesStop(samples[1..], i - 1);
    }
  }

  /** Where the hold loop stops, at the first released sample, at the end
      of the samples or at the cap, it has counted the hold length. */
  lemma HoldLoopExit(samples: seq<bool>, i: nat)
    requires i <= |samples| && i <= HOLD_CAP && forall j :: 0 <= j < i ==> samples[j]
    requires i == |samples| || !samples[i] || i == HOLD_CAP
    ensures i == HoldLength(samples)
  {
    LeadingPressesOfPrefix(samples, i);
    if i < HOLD_CAP && i < |samples| {
      LeadingPressesStop(samples, i);
    }
  }

  /** The hold count never exceeds its cap, and it reaches the long-hold
      threshold exactly when the first 125 samples are all pressed. */
  lemma {:induction false} HoldLengthBounds(samples: seq<bool>)
    ensures 0 <= HoldLength(samples) <= HOLD_CAP
    ensures HoldLength(samples) >= LONG_HOLD <==>
      LONG_HOLD <= |samples| && forall j :: 0 <= j < LONG_HOLD ==> samples[j]
  {
    LeadingPressesMeaning(samples);
    if LONG_HOLD <= |samples| && (forall j :: 0 <= j < LONG_HOLD ==> samples[j]) {
      if LeadingPresses(samples) < LONG_HOLD {
        assert !samples[LeadingPresses(samples)];
      }
    }
  }

  /** The set-mode transitions of a hold of `btntimer` samples. */
  function ModeAfterHold(hourset: bool, minset: bool, btntimer: int): (bool, bool) {
    if btntimer >= LONG_HOLD && !hourset && !minset then (true, false)
    else if btntimer >= LONG_HOLD && hourset then (false, true)
    else if btntimer >= LONG_HOLD && minset && !hourset then (false, false)
    else (hourset, minset)
  }

  /** A short press: more than one and fewer than 30 samples. */
  predicate ShortPress(btntimer: int) {
    1 < btntimer < 30
  }

  /** One iteration of the main loop after a hold of `btntimer` samples:
      mode switch, then the bump of the unit being set, then the sleep test.
      Going to sleep switches the display off; the main loop halts until the
      next interrupt, a timer-2 overflow included, and at idle count 30 goes
      back to sleep; only the wake interrupt turns the display on. */
  function MainStep(s: Snapshot, btntimer: int): Snapshot {
    var (hs, ms) := ModeAfterHold(s.hourset, s.minset, btntimer);
    var t := s.(hourset := hs, minset := ms);
    var u :=
      if hs && ShortPress(btntimer) then BumpHour(t).(sleepcounter := 0)
      else if ms && ShortPress(btntimer) then BumpMinute(t).(sleepcounter := 0)
      else t;
    if u.sleepcounter == SLEEP_AT then u.(showdisplay := false) else u
  }

  /** The `INT0` wake interrupt. */
  function Wake(s: Snapshot): Snapshot {
    s.(showdisplay := true, sleepcounter := 0)
  }

  /** Long holds cycle normal -> set hour -> set minute -> normal, and a hold
      shorter than that leaves the modes alone; the modes are never both on. */
  lemma ModeCycle(hourset: bool, minset: bool, btntimer: int)
    requires !(hourset && minset)
    ensures var (hs, ms) := ModeAfterHold(hourset, minset, btntimer);
      !(hs && ms) &&
      (btntimer >= LONG_HOLD ==>
        (hs, ms) == (if !hourset && !minset then (true, false)
                     else if hourset then (false, true)
                     else (false, false))) &&
      (btntimer < LONG_HOLD ==> (hs, ms) == (hourset, minset))
  {
  }

  /** Three long holds from normal mode pass through set hour and set minute
      and return to normal mode, with one flag at most on throughout. */
  lemma ThreeLongHolds(s: Snapshot, b1: int, b2: int, b3: int)
    requires !InSetMode(s)
    requires b1 >= LONG_HOLD && b2 >= LONG_HOLD && b3 >= LONG_HOLD
    ensures var s1 := MainStep(s, b1); var s2 := MainStep(s1, b2); var s3 := MainStep(s2, b3);
      s1.hourset && !s1.minset && !s2.hourset && s2.minset && !s3.hourset && !s3.minset
  {
  }

  /** A short press while setting the hour bumps the hour (mod 24), restarts
      the seconds and the idle count, and changes nothing else. */
  lemma ShortPressSetsHour(s: Snapshot, btntimer: int)
    requires Inv(s) && s.hourset && ShortPress(btntimer)
    ensures MainStep(s, btntimer) == s.(hour := (s.hour + 1) % 24, sec := 0, sleepcounter := 0)
  {
  }

  /** A short press while setting the minute bumps the minute (mod 60, no
      carry), restarts the seconds and the idle count, and changes nothing else. */
  lemma ShortPressSetsMinute(s: Snapshot, btntimer: int)
    requires Inv(s) && s.minset && ShortPress(btntimer)
    ensures MainStep(s, btntimer) == s.(min := (s.min + 1) % 60, sec := 0, sleepcounter := 0)
  {
  }

  /** A hold that is neither short nor long, or any hold short of a long one
      in normal mode, changes nothing but possibly the display flag, which
      goes off exactly when the idle count has reached 30. */
  lemma OtherHoldsOnlySleep(s: Snapshot, btntimer: int)
    requires Inv(s) && btntimer < LONG_HOLD
    requires !ShortPress(btntimer) || !InSetMode(s)
    ensures MainStep(s, btntimer) == s.(showdisplay := s.showdisplay && s.sleepcounter != SLEEP_AT)
  {
  }

  /** The display goes off in a main-loop iteration exactly when the idle
      count it ends with is 30; nothing else touches it. */
  lemma MainStepSleeps(s: Snapshot, btntimer: int)
    ensures MainStep(s, btntimer).showdisplay
      == (s.showdisplay && MainStep(s, btntimer).sleepcounter != SLEEP_AT)
  {
  }

  /** Going to sleep and waking: the display comes back on with a fresh idle count. */
  lemma SleepThenWake(s: Snapshot, btntimer: int)
    requires s.sleepcounter == SLEEP_AT && !ShortPress(btntimer)
    ensures !MainStep(s, btntimer).showdisplay
    ensures Wake(MainStep(s, btntimer)).showdisplay && Wake(MainStep(s, btntimer)).sleepcounter == 0
  {
  }

  /** Setting the hour from 5 with a hold of 15 gives 6; a hold of 50 leaves 5. */
  lemma ShortPressExamples(s: Snapshot)
    requires Inv(s) && s.hourset && s.hour == 5
    ensures MainStep(s, 15).hour == 6 && MainStep(s, 15).sec == 0 && MainStep(s, 15).sleepcounter == 0
    ensures MainStep(s, 50).hour == 5
  {
  }

  // ---------------------------------------------------------------------
  // Runs of the whole device

  /** One atomic step of one context: a timer-2 overflow, one main-loop
      iteration after a hold, or the wake interrupt. */
  datatype Event = Tick | Loop(btntimer: int) | ButtonWake

  function Step(s: Snapshot, e: Event): Snapshot {
    match e
    case Tick => Timer2Fire(s)
    case Loop(b) => MainStep(s, b)
    case ButtonWake => Wake(s)
  }

  function Run(s: Snapshot, events: seq<Event>): Snapshot
    decreases |events|
  {
    if events == [] then s else Run(Step(s, events[0]), events[1..])
  }

  /** Every step keeps the invariant: hour and minute in range, at most one
      set mode, residual below a second. */
  lemma StepPreservesInv(s: Snapshot, e: Event)
    requires Inv(s)
    ensures Inv(Step(s, e))
  {
    match e
    case Tick => FirePreservesInv(s);
    case Loop(b) => ModeCycle(s.hourset, s.minset, b);
    case ButtonWake =>
  }

  /** Any interleaving of the three contexts keeps the invariant. */
  lemma {:induction false} RunPreservesInv(s: Snapshot, events: seq<Event>)
    requires Inv(s)
    ensures Inv(Run(s, events))
    decreases |events|
  {
    if events != [] {
      StepPreservesInv(s, events[0]);
      RunPreservesInv(Step(s, events[0]), events[1..]);
    }
  }

  /** The step with the corrected timer-2 overflow. */
  function StepCorrected(s: Snapshot, e: Event): Snapshot {
    match e
    case Tick => Timer2FireCorrected(s)
    case Loop(b) => MainStep(s, b)
    case ButtonWake => Wake(s)
  }

  function RunCorrected(s: Snapshot, events: seq<Event>): Snapshot
    decreases |events|
  {
    if events == [] then s else RunCorrected(StepCorrected(s, events[0]), events[1..])
  }

  /** With the corrected carries every interleaving keeps a valid time of day. */
  lemma {:induction false} RunCorrectedKeepsTime(s: Snapshot, events: seq<Event>)
    requires SaneTime(s)
    ensures SaneTime(RunCorrected(s, events))
    decreases |events|
  {
    if events != [] {
      var e := events[0];
      match e {
        case Tick => CorrectedFireAdvancesTime(s);
        case Loop(b) => ModeCycle(s.hourset, s.minset, b);
        case ButtonWake =>
      }
      RunCorrectedKeepsTime(StepCorrected(s, e), events[1..]);
    }
  }
}
