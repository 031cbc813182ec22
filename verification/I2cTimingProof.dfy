/**
 What the solved timings mean on the bus: exact (unwrapped) bounds, when the programmed word
 meets them, and when it does not.
 */
module I2cTimingProof {
  import opened MachineInt
  import opened I2cTimingSpec

  /** The periods for which no 32-bit expression of the two searches wraps around. */
  predicate InRange(tick: nat) {
    1 <= tick <= 32766
  }

  lemma QuotientBelow(n: nat, d: nat, k: nat)
    requires d > 0
    ensures n / d < k <==> n < k * d
  {
    var q := n / d;
    if q < k {
      MulIsMonotone(q + 1, k, d);
    } else {
      MulIsMonotone(k, q, d);
    }
  }

  /** These are the periods of the clocks from about 30.5 kHz up to 2 GHz. */
  lemma InRangeIff(clock: uint32)
    requires clock != 0
    ensures InRange(Period(clock)) <==> 30_519 <= clock <= 2_000_000_000
  {
    QuotientBelow(NSEC_PER_SEC + clock / 2, clock, 1);
    QuotientBelow(NSEC_PER_SEC + clock / 2, clock, 32767);
  }

  /**
   The figures of the bus in nanoseconds: the period of its rate, data hold and data valid, data setup, SCL low and high
   (Table 10, section 6.1 of NXP UM10204), and the rise and fall times that the driver assumes.
   */
  datatype Figures = Figures(period: nat, hdDat: nat, vdDat: nat, suDat: nat, low: nat, high: nat, rise: nat, fall: nat)

  function FiguresOf(s: Speed): Figures {
    match s
    case Standard => Figures(10000, 0, 3450, 250, 4700, 4000, 640, 20)
    case Fast => Figures(2500, 0, 900, 100, 1300, 600, 250, 100)
    case FastPlus => Figures(1000, 0, 450, 50, 500, 260, 60, 100)
  }

  /** The driver's table has these figures, and allows a fifth more or less of each rate. */
  lemma CharacIsOfTheBus(s: Speed)
    ensures var c, f := CharacOf(s), FiguresOf(s);
            && c.freq * f.period == NSEC_PER_SEC && 5 * c.freqMin == 4 * c.freq && 5 * c.freqMax == 6 * c.freq
            && f == Figures(Target(s), c.hdDatMin, c.vdDatMax, c.suDatMin, c.lsclMin, c.hsclMin, c.rise, c.fall)
            && SclMin(s) == f.period * 5 / 6 && SclMax(s) == f.period * 5 / 4
  {
  }

  /** Setup and hold, as bounds on the data delays without any clamping. */
  predicate MeetsDataBounds(tick: nat, s: Speed, presc: nat, scldel: nat, sdadel: nat) {
    var f, step := FiguresOf(s), (presc + 1) * tick;
    && (scldel + 1) * step >= f.rise + f.suDat
    && sdadel * step >= f.fall + f.hdDat - FILTER_MIN - 3 * tick
    && sdadel * step <= f.vdDat - f.rise - FILTER_MAX - 4 * tick
  }

  /** Low time, high time and a clock rate at most a fifth off. */
  predicate MeetsSclBounds(tick: nat, s: Speed, presc: nat, scll: nat, sclh: nat) {
    var f, step := FiguresOf(s), (presc + 1) * tick;
    var low := FILTER_MIN + 2 * tick + (scll + 1) * step;
    var high := FILTER_MIN + 2 * tick + (sclh + 1) * step;
    && low > f.low && high >= f.high
    && tick < (low - FILTER_MIN) / 4 && tick < high
    && f.period * 5 / 6 <= low + high + f.rise + f.fall <= f.period * 5 / 4
  }

  predicate MeetsBusTiming(tick: nat, s: Speed, t: Timings) {
    MeetsDataBounds(tick, s, t.presc, t.scldel, t.sdadel) && MeetsSclBounds(tick, s, t.presc, t.scll, t.sclh)
  }

  /** The data-valid bound leaves room for at least a zero delay. */
  predicate DataValidReachable(tick: nat, s: Speed) {
    4 * tick + FiguresOf(s).rise + FILTER_MAX <= FiguresOf(s).vdDat
  }

  /** In hertz, the data-valid bound is reachable from these clocks on. */
  lemma DataValidClock(clock: uint32)
    requires clock != 0
    ensures DataValidReachable(Period(clock), Standard) <==> clock >= 1_568_628
    ensures DataValidReachable(Period(clock), Fast) <==> clock >= 10_256_411
    ensures DataValidReachable(Period(clock), FastPlus) <==> clock >= 30_769_231
  {
    var n := NSEC_PER_SEC + clock / 2;
    QuotientBelow(n, clock, 638);
    QuotientBelow(n, clock, 98);
    QuotientBelow(n, clock, 33);
  }

  /** When it is not, no timing at all meets the bus bounds. */
  lemma UnreachableNeverMet(tick: nat, s: Speed, t: Timings)
    requires !DataValidReachable(tick, s)
    ensures !MeetsBusTiming(tick, s, t)
  {
    MulIsMonotone(0, t.sdadel, (t.presc + 1) * tick);
  }

  lemma ProductBound(a: nat, b: nat, t: nat)
    requires a <= 256 && b <= 256 && t <= 32766
    ensures 0 <= a * (b * t) <= 65536 * 32766
    ensures a * b * t == a * (b * t)
  {
    MulIsMonotone(b, 256, t);
    MulIsMonotone(a, 256, b * t);
    MulAssociates(a, b, t);
  }

  lemma PhaseTimeIsExact(tick: nat, presc: nat, value: nat)
    requires InRange(tick) && presc < 256 && value < 256
    ensures var x := (value + 1) * ((presc + 1) * tick);
            PhaseTime(tick, presc, value) == FILTER_MIN + 2 * tick + x && 0 <= x <= 65536 * 32766
  {
    ProductBound(value + 1, presc + 1, tick);
    U32Fits(FILTER_MIN + 2 * tick + (value + 1) * ((presc + 1) * tick));
  }

  /** In range, the SCL search accepts exactly the pairs that meet the SCL bounds. */
  lemma SclOkIsExact(tick: nat, s: Speed, presc: nat, scll: nat, sclh: nat)
    requires InRange(tick) && presc < 256 && scll < 256 && sclh < 256
    ensures SclOk(tick, s, presc, scll, sclh) <==> MeetsSclBounds(tick, s, presc, scll, sclh)
  {
    PhaseTimeIsExact(tick, presc, scll);
    PhaseTimeIsExact(tick, presc, sclh);
    var low, high := PhaseTime(tick, presc, scll), PhaseTime(tick, presc, sclh);
    U32Fits(low + high + CharacOf(s).rise + CharacOf(s).fall);
    CharacIsOfTheBus(s);
  }

  /** In range, what the search minimises is the distance of the SCL period from that of the bus rate. */
  lemma SclErrorIsExact(tick: nat, s: Speed, presc: nat, scll: nat, sclh: nat)
    requires InRange(tick) && presc < 256 && scll < 256 && sclh < 256
    ensures var f, step := FiguresOf(s), (presc + 1) * tick;
            var high := FILTER_MIN + 2 * tick + (sclh + 1) * step;
            var low := FILTER_MIN + 2 * tick + (scll + 1) * step;
            SclError(tick, s, presc, scll, sclh) == Abs(low + high + f.rise + f.fall - f.period)
  {
    PhaseTimeIsExact(tick, presc, scll);
    PhaseTimeIsExact(tick, presc, sclh);
    var low, high := PhaseTime(tick, presc, scll), PhaseTime(tick, presc, sclh);
    U32Fits(low + high + CharacOf(s).rise + CharacOf(s).fall);
    CharacIsOfTheBus(s);
  }

  lemma DelayTimesAreExact(tick: nat, presc: nat, scldel: nat, sdadel: nat)
    requires InRange(tick) && presc < 256 && scldel < 16 && sdadel < 16
    ensures SetupTime(tick, presc, scldel) == (scldel + 1) * ((presc + 1) * tick)
    ensures HoldTime(tick, presc, sdadel) == sdadel * ((presc + 1) * tick) >= 0
  {
    ProductBound(scldel + 1, presc + 1, tick);
    ProductBound(sdadel, presc + 1, tick);
    U32Fits((scldel + 1) * (presc + 1) * tick);
    U32Fits(sdadel * (presc + 1) * tick);
  }

  /** In range, only the clamping at 0 changes the hold bounds. */
  lemma HoldBoundsAreExact(tick: nat, s: Speed)
    requires InRange(tick)
    ensures var c := CharacOf(s);
            && HoldNeed(tick, s) == Max(0, c.fall + c.hdDatMin - FILTER_MIN - 3 * tick)
            && HoldLimit(tick, s) == Max(0, c.vdDatMax - c.rise - FILTER_MAX - 4 * tick)
  {
    var c, t := CharacOf(s), tick;
    I32Fits(3 * t);
    I32Fits(4 * t);
    I32Fits(c.fall + c.hdDatMin - FILTER_MIN - 3 * t);
    I32Fits(c.vdDatMax - c.rise - FILTER_MAX - 4 * t);
  }

  /**
   In range, the prescaler search accepts a pair of delays that meets the setup and hold bounds,
   and an accepted pair meets them exactly when the data-valid bound is reachable at all: a
   negative bound was replaced by 0.
   */
  lemma DelaysOkIsExact(tick: nat, s: Speed, presc: nat, scldel: nat, sdadel: nat)
    requires InRange(tick) && presc < 256 && scldel < 16 && sdadel < 16
    ensures MeetsDataBounds(tick, s, presc, scldel, sdadel)
       <==> DelaysOk(tick, s, presc, scldel, sdadel) && DataValidReachable(tick, s)
  {
    DelayTimesAreExact(tick, presc, scldel, sdadel);
    HoldBoundsAreExact(tick, s);
  }

  // ---- The search reads slots that were never filled ----

  /** The number of slots that the prescaler search fills. */
  ghost function Filled(tick: nat, s: Speed): (n: nat)
    ensures n <= TABLE_SIZE
  {
    Min(TABLE_SIZE, |GoodPrescs(tick, s, PRESC_MAX)|)
  }

  /** The prescalers in the table after the prescaler search, whatever the slots past the filled ones held. */
  ghost predicate Completed(tick: nat, s: Speed, prescs: seq<nat>) {
    && |prescs| == TABLE_SIZE
    && forall i :: 0 <= i < Filled(tick, s) ==> prescs[i] == GoodPrescs(tick, s, PRESC_MAX)[i]
  }

  /** The error is smaller than that of every prescaler that meets the setup and hold bounds. */
  ghost predicate BeatsGood(tick: nat, s: Speed, error: nat) {
    forall p: nat, l, h :: p < PRESC_MAX && PrescOk(tick, s, p) && SclOk(tick, s, p, l, h) ==>
                             error < SclError(tick, s, p, l, h)
  }

  /** A slot past the filled ones comes strictly closer to the wanted rate than every acceptable prescaler. */
  ghost predicate StaleBeats(tick: nat, s: Speed, prescs: seq<nat>) {
    exists p: Pick :: Filled(tick, s) <= p.slot < |prescs| && StaleAt(tick, s, prescs, p)
  }

  ghost predicate StaleAt(tick: nat, s: Speed, prescs: seq<nat>, p: Pick) {
    Feasible(tick, s, prescs, p) && BeatsGood(tick, s, PickError(tick, s, prescs, p))
  }

  /** The filled slots of a table that is not full hold all the acceptable prescalers. */
  lemma GoodIsFilled(tick: nat, s: Speed, prescs: seq<nat>, p: nat) returns (i: nat)
    requires Completed(tick, s, prescs) && Filled(tick, s) < TABLE_SIZE && p < PRESC_MAX && PrescOk(tick, s, p)
    ensures i < Filled(tick, s) && prescs[i] == p
  {
    GoodPrescsAreAll(tick, s, PRESC_MAX);
    assert p in GoodPrescs(tick, s, PRESC_MAX);
    i :| 0 <= i < |GoodPrescs(tick, s, PRESC_MAX)| && GoodPrescs(tick, s, PRESC_MAX)[i] == p;
  }

  /** And they hold nothing else. */
  lemma FilledIsGood(tick: nat, s: Speed, prescs: seq<nat>, i: nat)
    requires Completed(tick, s, prescs) && i < Filled(tick, s)
    ensures prescs[i] < PRESC_MAX && PrescOk(tick, s, prescs[i])
  {
    GoodPrescsAreAll(tick, s, PRESC_MAX);
    assert prescs[i] in GoodPrescs(tick, s, PRESC_MAX);
  }

  /** An unfilled slot wins exactly when some unfilled slot comes closer than all the acceptable prescalers. */
  lemma UnfilledSlotWins(tick: nat, s: Speed, prescs: seq<nat>, p: Pick)
    requires Completed(tick, s, prescs) && FirstBest(tick, s, prescs, p)
    ensures p.slot >= Filled(tick, s) <==> StaleBeats(tick, s, prescs)
  {
    if p.slot >= Filled(tick, s) {
      forall q: nat, l, h | q < PRESC_MAX && PrescOk(tick, s, q) && SclOk(tick, s, q, l, h)
        ensures PickError(tick, s, prescs, p) < SclError(tick, s, q, l, h)
      {
        var i := GoodIsFilled(tick, s, prescs, q);
        assert Feasible(tick, s, prescs, Pick(i, l, h)) && Before(Pick(i, l, h), p);
      }
      assert StaleAt(tick, s, prescs, p);
    } else if StaleBeats(tick, s, prescs) {
      var q: Pick :| Filled(tick, s) <= q.slot < |prescs| && StaleAt(tick, s, prescs, q);
      FilledIsGood(tick, s, prescs, p.slot);
    }
  }

  /** The prescaler of an unfilled slot that wins is never acceptable: the same one in a filled slot would win. */
  lemma UnfilledSlotIsUnsound(tick: nat, s: Speed, prescs: seq<nat>, p: Pick)
    requires Completed(tick, s, prescs) && FirstBest(tick, s, prescs, p)
    requires p.slot >= Filled(tick, s) && prescs[p.slot] < PRESC_MAX
    ensures !PrescOk(tick, s, prescs[p.slot])
  {
    if PrescOk(tick, s, prescs[p.slot]) {
      var i := GoodIsFilled(tick, s, prescs, prescs[p.slot]);
      assert Feasible(tick, s, prescs, Pick(i, p.scll, p.sclh));
    }
  }

  /**
   The winning entry of the solver, whatever the table held before, meets every setup, hold, low, high and rate
   bound exactly when the data-valid bound is reachable and no unfilled slot comes closer than the acceptable
   prescalers.
   */
  lemma WinnerMeetsBusTiming(tick: nat, s: Speed, prescs: seq<nat>, p: Pick, t: Timings)
    requires InRange(tick) && Completed(tick, s, prescs) && FirstBest(tick, s, prescs, p) && FieldsFit(t)
    requires t.presc == prescs[p.slot] && t.scll == p.scll && t.sclh == p.sclh
    requires p.slot < Filled(tick, s) ==> LeastDelays(tick, s, t.presc, t.scldel, t.sdadel)
    ensures MeetsBusTiming(tick, s, t) <==> DataValidReachable(tick, s) && !StaleBeats(tick, s, prescs)
  {
    UnfilledSlotWins(tick, s, prescs, p);
    if p.slot >= Filled(tick, s) {
      UnfilledSlotIsUnsound(tick, s, prescs, p);
    }
    SclOkIsExact(tick, s, t.presc, t.scll, t.sclh);
    DelaysOkIsExact(tick, s, t.presc, t.scldel, t.sdadel);
  }

  /** The slots past the filled ones decide, and nothing else of the table does. */
  lemma StaleBeatsDependsOnRest(tick: nat, s: Speed, a: seq<nat>, b: seq<nat>)
    requires |a| == |b| && forall i :: Filled(tick, s) <= i < |a| ==> a[i] == b[i]
    requires StaleBeats(tick, s, a)
    ensures StaleBeats(tick, s, b)
  {
    var p: Pick :| Filled(tick, s) <= p.slot < |a| && StaleAt(tick, s, a, p);
    assert StaleAt(tick, s, b, p);
  }

  // ---- The first configuration: the slots past the filled ones are zero ----

  ghost predicate ZeroPadded(tick: nat, s: Speed, prescs: seq<nat>) {
    Completed(tick, s, prescs) && forall i :: Filled(tick, s) <= i < TABLE_SIZE ==> prescs[i] == 0
  }

  /** The table is not full, and prescaler 0 comes strictly closer than every acceptable one. */
  ghost predicate StrayPrescaler(tick: nat, s: Speed) {
    && |GoodPrescs(tick, s, PRESC_MAX)| < TABLE_SIZE
    && exists l, h :: SclOk(tick, s, 0, l, h) && BeatsGood(tick, s, SclError(tick, s, 0, l, h))
  }

  /** On a table that is zero past the filled slots, the clock and the speed alone decide. */
  lemma ZeroPaddedIff(tick: nat, s: Speed, prescs: seq<nat>)
    requires ZeroPadded(tick, s, prescs)
    ensures StaleBeats(tick, s, prescs) <==> StrayPrescaler(tick, s)
  {
    if StaleBeats(tick, s, prescs) {
      var p: Pick :| Filled(tick, s) <= p.slot < |prescs| && StaleAt(tick, s, prescs, p);
      assert SclOk(tick, s, 0, p.scll, p.sclh);
    }
    if StrayPrescaler(tick, s) {
      var l, h :| SclOk(tick, s, 0, l, h) && BeatsGood(tick, s, SclError(tick, s, 0, l, h));
      assert StaleAt(tick, s, prescs, Pick(Filled(tick, s), l, h));
    }
  }

  // ---- Standard mode ----

  lemma StandardPrescOk(tick: nat, p: nat)
    requires InRange(tick) && 55 <= p < PRESC_MAX
    ensures PrescOk(tick, Standard, p)
  {
    DelayTimesAreExact(tick, p, 15, 0);
    HoldBoundsAreExact(tick, Standard);
    MulIsMonotone(1, tick, p + 1);
    assert SetupTime(tick, p, 15) == 16 * ((p + 1) * tick) >= 16 * (p + 1);
    assert DelaysOk(tick, Standard, p, 15, 0);
  }

  lemma {:induction false} StandardPrescsAreMany(tick: nat, n: nat)
    requires InRange(tick) && n <= PRESC_MAX
    ensures |GoodPrescs(tick, Standard, n)| >= n - 55
  {
    if n > 55 {
      StandardPrescsAreMany(tick, n - 1);
      StandardPrescOk(tick, n - 1);
    }
  }

  /** In standard mode the table is always full, so no slot is left to stray. */
  lemma StandardModeFillsTable(tick: nat)
    requires InRange(tick)
    ensures Filled(tick, Standard) == TABLE_SIZE
    ensures forall prescs: seq<nat> :: |prescs| == TABLE_SIZE ==> !StaleBeats(tick, Standard, prescs)
  {
    StandardPrescsAreMany(tick, PRESC_MAX);
  }

  lemma StandardStepTooShort(tick: nat, p: nat, a: nat, b: nat)
    requires InRange(tick) && p < PRESC_MAX && (p + 1) * tick < 56
    ensures !DelaysOk(tick, Standard, p, a, b)
  {
    if a < 16 && b < 16 {
      DelayTimesAreExact(tick, p, a, b);
      MulIsMonotone(a + 1, 16, (p + 1) * tick);
    }
  }

  lemma StandardStepLongEnough(tick: nat, p: nat)
    requires InRange(tick) && p < PRESC_MAX && (p + 1) * tick >= 56
    ensures PrescOk(tick, Standard, p)
  {
    HoldBoundsAreExact(tick, Standard);
    DelayTimesAreExact(tick, p, 15, 0);
    assert DelaysOk(tick, Standard, p, 15, 0);
  }

  /** In standard mode a prescaler is acceptable exactly when its step is at least 56 ns. */
  lemma StandardPrescIff(tick: nat, p: nat)
    requires InRange(tick) && p < PRESC_MAX
    ensures PrescOk(tick, Standard, p) <==> (p + 1) * tick >= 56
  {
    if (p + 1) * tick >= 56 {
      StandardStepLongEnough(tick, p);
    } else {
      forall a: nat, b: nat
        ensures !DelaysOk(tick, Standard, p, a, b)
      {
        StandardStepTooShort(tick, p, a, b);
      }
    }
  }

  lemma OneStepFurther(p: nat, tick: nat, bound: nat)
    requires p > 0 && p * tick < bound
    ensures (p + 1) * tick < 2 * bound
  {
    MulIsMonotone(1, p, tick);
    assert (p + 1) * tick == p * tick + tick;
  }

  /** The step of the least acceptable one is short enough for the SCL bounds. */
  lemma LeastStandardStep(tick: nat, p: nat)
    requires InRange(tick) && DataValidReachable(tick, Standard) && p < PRESC_MAX
    requires PrescOk(tick, Standard, p) && (p > 0 ==> !PrescOk(tick, Standard, p - 1))
    ensures 56 <= (p + 1) * tick <= 637
  {
    StandardPrescIff(tick, p);
    if p > 0 {
      StandardPrescIff(tick, p - 1);
      OneStepFurther(p, tick, 56);
    }
  }

  /** Rounding up to a multiple. */
  lemma NextMultiple(x: nat, step: nat)
    requires step > 0
    ensures x < (x / step + 1) * step <= x + step
  {
    assert (x / step + 1) * step == x / step * step + step;
  }

  /** With such a step, some pair meets the SCL bounds. */
  lemma StandardSclFeasible(tick: nat, p: nat) returns (l: nat, h: nat)
    requires InRange(tick) && DataValidReachable(tick, Standard) && p < PRESC_MAX
    requires 56 <= (p + 1) * tick <= 637
    ensures SclOk(tick, Standard, p, l, h)
  {
    var step := (p + 1) * tick;
    l, h := (4650 - 2 * tick) / step, (3949 - 2 * tick) / step;
    NextMultiple(4650 - 2 * tick, step);
    NextMultiple(3949 - 2 * tick, step);
    QuotientBelow(4650 - 2 * tick, step, 256);
    QuotientBelow(3949 - 2 * tick, step, 256);
    SclOkIsExact(tick, Standard, p, l, h);
  }

  // ---- Fast mode from an 8 MHz clock: the data-valid bound was negative ----

  const TICK_8_MHZ := Period(8_000_000)

  /** A delay of 0 and some SCL values are accepted, but the data-valid bound is not reachable. */
  lemma AcceptedAt8MHz()
    ensures TICK_8_MHZ == 125 && !DataValidReachable(TICK_8_MHZ, Fast)
    ensures DelaysOk(TICK_8_MHZ, Fast, 0, 2, 0) && SclOk(TICK_8_MHZ, Fast, 0, 10, 3)
    ensures !SclOk(TICK_8_MHZ, Fast, 0, 0, 0)
  {
    HoldBoundsAreExact(TICK_8_MHZ, Fast);
    DelayTimesAreExact(TICK_8_MHZ, 0, 2, 0);
    SclOkIsExact(TICK_8_MHZ, Fast, 0, 10, 3);
    SclOkIsExact(TICK_8_MHZ, Fast, 0, 0, 0);
  }

  // ---- Fast mode from an 84 MHz clock: an unfilled slot wins ----

  const TICK_84_MHZ := Period(84_000_000)

  lemma DelaysAt84MHz(p: nat, a: nat, b: nat)
    requires p < PRESC_MAX && a < 16 && b < 16
    ensures DelaysOk(TICK_84_MHZ, Fast, p, a, b)
       <==> (a + 1) * ((p + 1) * 12) >= 350 && 14 <= b * ((p + 1) * 12) <= 342
  {
    HoldBoundsAreExact(TICK_84_MHZ, Fast);
    DelayTimesAreExact(TICK_84_MHZ, p, a, b);
  }

  lemma PrescsAt84MHz(p: nat)
    requires p < PRESC_MAX
    ensures PrescOk(TICK_84_MHZ, Fast, p) <==> 1 <= p <= 27
  {
    DelaysAt84MHz(p, 15, 1);
    forall a: nat, b: nat | a < 16 && b < 16 && !(1 <= p <= 27)
      ensures !DelaysOk(TICK_84_MHZ, Fast, p, a, b)
    {
      DelaysAt84MHz(p, a, b);
      if b > 0 {
        MulIsMonotone(1, b, (p + 1) * 12);
      }
    }
  }

  lemma {:induction false} CountAt84MHz(n: nat)
    requires n <= PRESC_MAX
    ensures |GoodPrescs(TICK_84_MHZ, Fast, n)| == Min(27, Max(0, n - 1))
  {
    if n > 0 {
      CountAt84MHz(n - 1);
      PrescsAt84MHz(n - 1);
    }
  }

  lemma FactorOf167(d: nat, n: nat)
    requires 2 <= d <= 12
    ensures d * n != 167
  {
    if d == 2 {} else if d == 3 {} else if d == 4 {} else if d == 5 {} else if d == 6 {} else if d == 7 {}
    else if d == 8 {} else if d == 9 {} else if d == 10 {} else if d == 11 {}
  }

  /** 167 has no factor from 2 to 28. */
  lemma NoFactorOf167(q: nat, n: nat)
    requires 2 <= q <= 28 && n >= 2
    ensures q * n != 167
  {
    if q <= 12 {
      FactorOf167(q, n);
    } else if n <= 12 {
      FactorOf167(n, q);
    } else {
      MulIsMonotone(13, q, n);
    }
  }

  lemma SclTimeAt84MHz(p: nat, l: nat, h: nat)
    requires p < 256 && l < 256 && h < 256
    ensures SclTime(Fast, PhaseTime(TICK_84_MHZ, p, l), PhaseTime(TICK_84_MHZ, p, h))
         == 498 + 12 * ((p + 1) * (l + h + 2))
  {
    PhaseTimeIsExact(TICK_84_MHZ, p, l);
    PhaseTimeIsExact(TICK_84_MHZ, p, h);
    U32Fits(PhaseTime(TICK_84_MHZ, p, l) + PhaseTime(TICK_84_MHZ, p, h) + 350);
    var step := (p + 1) * 12;
    assert (l + 1) * step + (h + 1) * step == (l + h + 2) * step;
    assert (l + h + 2) * step == 12 * ((p + 1) * (l + h + 2));
  }

  /** 167 is prime, so no acceptable prescaler gets within 2 ns of 2500 ns. */
  lemma ErrorsAt84MHz(p: nat, l: nat, h: nat)
    requires 1 <= p <= 27 && l < 256 && h < 256
    ensures SclError(TICK_84_MHZ, Fast, p, l, h) > 2
  {
    SclTimeAt84MHz(p, l, h);
    NoFactorOf167(p + 1, l + h + 2);
  }

  lemma Prescaler0At84MHz()
    ensures SclOk(TICK_84_MHZ, Fast, 0, 102, 63) && SclError(TICK_84_MHZ, Fast, 0, 102, 63) == 2
  {
    PhaseTimeIsExact(TICK_84_MHZ, 0, 102);
    PhaseTimeIsExact(TICK_84_MHZ, 0, 63);
    SclTimeAt84MHz(0, 102, 63);
  }

  lemma StrayAt84MHz()
    ensures Filled(TICK_84_MHZ, Fast) == 27 && StrayPrescaler(TICK_84_MHZ, Fast)
  {
    CountAt84MHz(PRESC_MAX);
    Prescaler0At84MHz();
    forall q: nat, l, h | q < PRESC_MAX && PrescOk(TICK_84_MHZ, Fast, q) && SclOk(TICK_84_MHZ, Fast, q, l, h)
      ensures 2 < SclError(TICK_84_MHZ, Fast, q, l, h)
    {
      PrescsAt84MHz(q);
      ErrorsAt84MHz(q, l, h);
    }
    assert BeatsGood(TICK_84_MHZ, Fast, SclError(TICK_84_MHZ, Fast, 0, 102, 63));
  }

  /**
   The first configuration for 400 kHz from an 84 MHz clock picks slot 27, which was never
   filled, and so programs delays that break the setup bound.
   */
  lemma UnfilledSlotWinsAt84MHz(prescs: seq<nat>, p: Pick)
    requires ZeroPadded(TICK_84_MHZ, Fast, prescs) && FirstBest(TICK_84_MHZ, Fast, prescs, p)
    ensures p.slot == Filled(TICK_84_MHZ, Fast) == 27
    ensures !MeetsBusTiming(TICK_84_MHZ, Fast, Timings(prescs[p.slot], 0, 0, p.sclh, p.scll))
  {
    StrayAt84MHz();
    ZeroPaddedIff(TICK_84_MHZ, Fast, prescs);
    UnfilledSlotWins(TICK_84_MHZ, Fast, prescs, p);
    if p.slot > 27 {
      assert Feasible(TICK_84_MHZ, Fast, prescs, Pick(27, p.scll, p.sclh));
    }
    WinnerMeetsBusTiming(TICK_84_MHZ, Fast, prescs, p, Timings(prescs[p.slot], 0, 0, p.sclh, p.scll));
  }
}
