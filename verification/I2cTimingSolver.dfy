/** The two searches of the timing solver and the word they program, on the driver's static table. */
module I2cTimingSolver {
  import opened MachineInt
  import opened I2cTimingSpec
  import opened I2cTimingProof

  const SPEEDS := [Standard, Fast, FastPlus]

  predicate Covers(s: Speed, bitrate: uint32) {
    CharacOf(s).freqMin <= bitrate <= CharacOf(s).freqMax
  }

  /** A mode covers the rates at most a fifth off its own, and no rate is covered by two. */
  lemma CoversIff(s: Speed, bitrate: uint32, t: Speed)
    ensures Covers(s, bitrate) <==> 4 * NSEC_PER_SEC <= 5 * (bitrate * FiguresOf(s).period) <= 6 * NSEC_PER_SEC
    ensures Covers(s, bitrate) && Covers(t, bitrate) ==> s == t
  {
  }

  /** The prescalers held by the table slots. */
  ghost function PrescsOf(t: seq<Timings>): (r: seq<nat>)
    ensures |r| == |t| && forall i :: 0 <= i < |t| ==> r[i] == t[i].presc
  {
    seq(|t|, i requires 0 <= i < |t| => t[i].presc)
  }

  /** The tables agree on prescaler and delays, if not on the SCL fields. */
  ghost predicate SameDelays(t: seq<Timings>, u: seq<Timings>) {
    |t| == |u| && forall i :: 0 <= i < |t| ==> u[i] == t[i].(sclh := u[i].sclh, scll := u[i].scll)
  }

  /** What a search for the closest feasible candidate knows once it has considered every one before `cursor`. */
  ghost predicate Scanned(feasible: Pick -> bool, error: Pick -> int, cursor: Pick, found: bool, best: Pick) {
    && (found ==> feasible(best))
    && forall q :: feasible(q) && Before(q, cursor) ==>
         found && error(best) <= error(q) && (Before(q, best) ==> error(best) < error(q))
  }

  ghost function FeasibleIn(tick: nat, s: Speed, prescs: seq<nat>): Pick -> bool {
    (q: Pick) => Feasible(tick, s, prescs, q)
  }

  ghost function ErrorIn(tick: nat, s: Speed, prescs: seq<nat>): Pick -> int {
    (q: Pick) => if q.slot < |prescs| then PickError(tick, s, prescs, q) else 0
  }

  /** The candidate at the cursor replaces the best one exactly when it is strictly closer. */
  lemma ScanOne(feasible: Pick -> bool, error: Pick -> int, at: Pick, found: bool, best: Pick)
    requires Scanned(feasible, error, at, found, best)
    requires found ==> Before(best, at)
    ensures var better := feasible(at) && (found ==> error(at) < error(best));
            var next := at.(sclh := at.sclh + 1);
            && Scanned(feasible, error, next, found || better, if better then at else best)
            && (found || better ==> Before(if better then at else best, next))
  {
    var better := feasible(at) && (found ==> error(at) < error(best));
    var next := at.(sclh := at.sclh + 1);
    forall q | feasible(q) && Before(q, next)
      ensures Before(q, at) || q == at
    {
    }
  }

  /** Moving the cursor past candidates that are not feasible. */
  lemma ScanSkip(feasible: Pick -> bool, error: Pick -> int, at: Pick, next: Pick, found: bool, best: Pick)
    requires Scanned(feasible, error, at, found, best)
    requires forall q :: feasible(q) && Before(q, next) ==> Before(q, at)
    ensures Scanned(feasible, error, next, found, best)
  {
  }

  /** Once the cursor has passed the last slot, the best candidate is the first best of all. */
  lemma ScanEnd(tick: nat, s: Speed, prescs: seq<nat>, found: bool, best: Pick)
    requires Scanned(FeasibleIn(tick, s, prescs), ErrorIn(tick, s, prescs), Pick(|prescs|, 0, 0), found, best)
    ensures found ==> FirstBest(tick, s, prescs, best)
    ensures !found ==> forall q :: !Feasible(tick, s, prescs, q)
  {
    forall q | Feasible(tick, s, prescs, q)
      ensures FeasibleIn(tick, s, prescs)(q) && Before(q, Pick(|prescs|, 0, 0))
      ensures ErrorIn(tick, s, prescs)(q) == PickError(tick, s, prescs, q)
    {
    }
  }

  /** What the prescaler search has stored for the acceptable prescalers `good`. */
  ghost predicate Stored(tick: nat, s: Speed, t: seq<Timings>, good: seq<nat>, n: nat) {
    && n <= |t| && n <= |good|
    && forall i :: 0 <= i < n ==> t[i].presc == good[i] && LeastDelays(tick, s, good[i], t[i].scldel, t[i].sdadel)
  }

  /**
   When the peripheral, reading the word back, gets a timing that meets every bus bound; the prescalers that the table
   held before, past the slots that are filled now, are all of its past that matters.
   */
  ghost predicate SoundWhen(tick: nat, s: Speed, timing: uint32, before: seq<Timings>) {
    MeetsBusTiming(tick, s, Unpack(timing)) <==>
      DataValidReachable(tick, s) && !StaleBeats(tick, s, PrescsOf(before))
  }

  /**
   What one configuration leaves behind: the table filled for speed `s`, and the word of the
   winning entry, or 0 when no candidate is feasible.
   */
  ghost predicate Outcome(tick: nat, s: Speed, timing: uint32, pick: Pick, before: seq<Timings>, t: seq<Timings>,
                          n: nat)
  {
    && |t| == |before| == TABLE_SIZE && n == Filled(tick, s)
    && Stored(tick, s, t, GoodPrescs(tick, s, PRESC_MAX), n)
    && SameDelays(before[n..], t[n..])
    && if exists q :: Feasible(tick, s, PrescsOf(t), q) then
         && FirstBest(tick, s, PrescsOf(t), pick) && Unpack(timing) == t[pick.slot]
         && t[pick.slot].scll == pick.scll && t[pick.slot].sclh == pick.sclh
         && (InRange(tick) ==> SoundWhen(tick, s, timing, before))
       else
         timing == 0
  }

  lemma RestIsKept(before: seq<Timings>, t: seq<Timings>, n: nat)
    requires |t| == |before| && n <= |t| && SameDelays(before[n..], t[n..])
    ensures forall i :: n <= i < |t| ==> PrescsOf(t)[i] == PrescsOf(before)[i]
  {
    forall i | n <= i < |t|
      ensures t[i].presc == before[i].presc
    {
      assert t[i] == t[n..][i - n] && before[i] == before[n..][i - n];
    }
  }

  /** The winner of the two searches on a table whose other slots are as `before`. */
  lemma WinnerIsSound(tick: nat, s: Speed, t: seq<Timings>, before: seq<Timings>, pick: Pick, n: nat)
    requires InRange(tick) && |t| == |before| == TABLE_SIZE && n == Filled(tick, s)
    requires Stored(tick, s, t, GoodPrescs(tick, s, PRESC_MAX), n)
    requires SameDelays(before[n..], t[n..])
    requires FirstBest(tick, s, PrescsOf(t), pick)
    requires FieldsFit(t[pick.slot]) && t[pick.slot].scll == pick.scll && t[pick.slot].sclh == pick.sclh
    ensures SoundWhen(tick, s, Pack(t[pick.slot]), before)
  {
    UnpackOfPack(t[pick.slot]);
    WinnerMeetsBusTiming(tick, s, PrescsOf(t), pick, t[pick.slot]);
    RestIsKept(before, t, n);
    if StaleBeats(tick, s, PrescsOf(t)) {
      StaleBeatsDependsOnRest(tick, s, PrescsOf(t), PrescsOf(before));
    }
    if StaleBeats(tick, s, PrescsOf(before)) {
      StaleBeatsDependsOnRest(tick, s, PrescsOf(before), PrescsOf(t));
    }
  }

  /** The first slot holds the least acceptable prescaler. */
  lemma FirstSlot(tick: nat, s: Speed, t: seq<Timings>, n: nat)
    requires Stored(tick, s, t, GoodPrescs(tick, s, PRESC_MAX), n) && n > 0
    ensures t[0].presc < PRESC_MAX && PrescOk(tick, s, t[0].presc)
    ensures forall q: nat :: q < t[0].presc ==> !PrescOk(tick, s, q)
  {
    var good := GoodPrescs(tick, s, PRESC_MAX);
    GoodPrescsAreAll(tick, s, PRESC_MAX);
    assert good[0] in good;
    forall q: nat | q < good[0]
      ensures !PrescOk(tick, s, q)
    {
      assert forall i :: 0 <= i < |good| ==> good[i] >= good[0];
      assert q !in good;
    }
  }

  /**
   In standard mode, for every clock in range and every earlier content of the table: the programmed word meets all
   the bus bounds if and only if the data-valid bound is reachable.
   */
  lemma StandardModeIsSound(tick: nat, timing: uint32, pick: Pick, before: seq<Timings>, t: seq<Timings>, n: nat)
    requires InRange(tick) && Outcome(tick, Standard, timing, pick, before, t, n)
    ensures MeetsBusTiming(tick, Standard, Unpack(timing)) <==> DataValidReachable(tick, Standard)
  {
    if !DataValidReachable(tick, Standard) {
      UnreachableNeverMet(tick, Standard, Unpack(timing));
    } else {
      StandardModeFillsTable(tick);
      FirstSlot(tick, Standard, t, n);
      LeastStandardStep(tick, t[0].presc);
      var l, h := StandardSclFeasible(tick, t[0].presc);
      assert Feasible(tick, Standard, PrescsOf(t), Pick(0, l, h));
    }
  }

  lemma UnpackOfZero()
    ensures Unpack(0) == EMPTY
  {
    DigitsOfSum(0, 0, 0, 0, 0, 0, 0);
  }

  /** When prescaler 0 is acceptable and leads to some SCL values, a word other than 0 is programmed. */
  lemma WordIsProgrammed(tick: nat, s: Speed, timing: uint32, pick: Pick, before: seq<Timings>, t: seq<Timings>, n: nat,
                         l: nat, h: nat)
    requires Outcome(tick, s, timing, pick, before, t, n)
    requires PrescOk(tick, s, 0) && SclOk(tick, s, 0, l, h) && !SclOk(tick, s, 0, 0, 0)
    ensures timing != 0
  {
    GoodPrescsFrom(tick, s, 0, PRESC_MAX);
    assert GoodPrescs(tick, s, PRESC_MAX)[0] == 0 == t[0].presc;
    assert Feasible(tick, s, PrescsOf(t), Pick(0, l, h));
    var u := Unpack(timing);
    assert SclOk(tick, s, u.presc, u.scll, u.sclh);
    UnpackOfZero();
  }

  /** At 400 kHz from 8 MHz a word is programmed, and it breaks the data-valid bound. */
  lemma NegativeBoundAt8MHz(timing: uint32, pick: Pick, before: seq<Timings>, t: seq<Timings>, n: nat)
    requires Outcome(TICK_8_MHZ, Fast, timing, pick, before, t, n)
    ensures timing != 0 && !MeetsBusTiming(TICK_8_MHZ, Fast, Unpack(timing))
  {
    AcceptedAt8MHz();
    WordIsProgrammed(TICK_8_MHZ, Fast, timing, pick, before, t, n, 10, 3);
    UnreachableNeverMet(TICK_8_MHZ, Fast, Unpack(timing));
  }

  /** The table of a driver that was never configured. */
  ghost predicate NoPrescs(t: seq<Timings>) {
    forall i :: 0 <= i < |t| ==> t[i].presc == 0
  }

  class Solver {
    const table: array<Timings>
    var nbr: nat

    ghost predicate Valid()
      reads this, table
    {
      table.Length == TABLE_SIZE && nbr <= TABLE_SIZE && forall i :: 0 <= i < TABLE_SIZE ==> FieldsFit(table[i])
    }

    /** The static table starts out zeroed. */
    constructor ()
      ensures Valid() && fresh(table) && nbr == 0
      ensures forall i :: 0 <= i < TABLE_SIZE ==> table[i] == EMPTY
    {
      table := new Timings[TABLE_SIZE](_ => EMPTY);
      nbr := 0;
    }

    /** The state of the prescaler search inside prescaler `presc`, at the delays (scldel, sdadel). */
    ghost predicate Collecting(tick: nat, s: Speed, presc: nat, scldel: nat, sdadel: nat, prevPresc: nat)
      reads this, table
    {
      var good := GoodPrescs(tick, s, presc);
      && Valid()
      && if prevPresc == presc then
           PrescOk(tick, s, presc) && nbr == |good| + 1 && Stored(tick, s, table[..], good + [presc], nbr)
         else
           && nbr == |good| < TABLE_SIZE && Stored(tick, s, table[..], good, nbr)
           && forall a, b :: DelaysOk(tick, s, presc, a, b) ==> scldel < a || (scldel == a && sdadel <= b)
    }

    /** All values of SDADEL for one prescaler and one value of SCLDEL. */
    method SearchSdadel(tick: nat, s: Speed, presc: nat, scldel: nat, prevPresc0: nat) returns (prevPresc: nat)
      requires presc < PRESC_MAX && scldel < SCLDEL_MAX && nbr < TABLE_SIZE
      requires Collecting(tick, s, presc, scldel, 0, prevPresc0)
      requires SetupTime(tick, presc, scldel) >= SetupNeed(s)
      modifies this`nbr, table
      ensures nbr <= TABLE_SIZE
      ensures nbr < TABLE_SIZE ==> Collecting(tick, s, presc, scldel + 1, 0, prevPresc)
      ensures nbr == TABLE_SIZE ==> prevPresc == presc && Collecting(tick, s, presc, scldel, 0, prevPresc)
      ensures prevPresc == prevPresc0 || prevPresc == presc
      ensures forall i :: nbr <= i < TABLE_SIZE ==> table[i] == old(table[i])
    {
      prevPresc := prevPresc0;
      var sdadel: nat := 0;
      while sdadel < SDADEL_MAX
        invariant sdadel <= SDADEL_MAX && nbr < TABLE_SIZE
        invariant Collecting(tick, s, presc, scldel, sdadel, prevPresc)
        invariant prevPresc == prevPresc0 || prevPresc == presc
        invariant forall i :: nbr <= i < TABLE_SIZE ==> table[i] == old(table[i])
      {
        var hold := HoldTime(tick, presc, sdadel);
        if HoldNeed(tick, s) <= hold <= HoldLimit(tick, s) {
          assert DelaysOk(tick, s, presc, scldel, sdadel);
          if presc != prevPresc {
            table[nbr] := table[nbr].(presc := presc, scldel := scldel, sdadel := sdadel);
            prevPresc := presc;
            nbr := nbr + 1;
            if nbr >= TABLE_SIZE {
              break;
            }
          }
        }
        sdadel := sdadel + 1;
      }
    }

    /**
     Finds the acceptable prescalers with their delays. The table takes the first 128 of them;
     slots beyond the count keep what they held.
     */
    method ComputePrescalers(clock: uint32, s: Speed)
      requires Valid() && clock != 0 && nbr == 0
      modifies this`nbr, table
      ensures Valid()
      ensures nbr == Min(TABLE_SIZE, |GoodPrescs(Period(clock), s, PRESC_MAX)|)
      ensures Stored(Period(clock), s, table[..], GoodPrescs(Period(clock), s, PRESC_MAX), nbr)
      ensures forall i :: nbr <= i < TABLE_SIZE ==> table[i] == old(table[i])
    {
      var tick := Period(clock);
      var prevPresc: nat := PRESC_MAX;
      for presc := 0 to PRESC_MAX
        invariant Valid() && nbr == |GoodPrescs(tick, s, presc)| < TABLE_SIZE
        invariant prevPresc == PRESC_MAX || prevPresc < presc
        invariant Stored(tick, s, table[..], GoodPrescs(tick, s, presc), nbr)
        invariant forall i :: nbr <= i < TABLE_SIZE ==> table[i] == old(table[i])
      {
        for scldel := 0 to SCLDEL_MAX
          invariant nbr < TABLE_SIZE && Collecting(tick, s, presc, scldel, 0, prevPresc)
          invariant prevPresc == PRESC_MAX || prevPresc <= presc
          invariant forall i :: nbr <= i < TABLE_SIZE ==> table[i] == old(table[i])
        {
          if SetupTime(tick, presc, scldel) >= SetupNeed(s) {
            prevPresc := SearchSdadel(tick, s, presc, scldel, prevPresc);
            if nbr >= TABLE_SIZE {
              GoodPrescsFrom(tick, s, presc, PRESC_MAX);
              return;
            }
          }
        }
      }
    }

    /** The state of the SCL search when every candidate before `cursor` has been considered. */
    ghost predicate Searched(tick: nat, s: Speed, prescs: seq<nat>, cursor: Pick, found: bool, best: Pick,
                             ret: uint32, prevError: nat)
      reads this, table
    {
      && Valid() && PrescsOf(table[..]) == prescs
      && Scanned(FeasibleIn(tick, s, prescs), ErrorIn(tick, s, prescs), cursor, found, best)
      && if found then
           && Before(best, cursor) && ret == best.slot < TABLE_SIZE
           && prevError == ErrorIn(tick, s, prescs)(best)
           && table[ret].scll == best.scll && table[ret].sclh == best.sclh
         else
           ret == NO_CONFIG && prevError == Target(s)
    }

    /** One candidate of the SCL search: it is recorded when it is strictly closer than all before. */
    method LoopSclh(tick: nat, s: Speed, count: nat, scll: nat, sclh: nat, low: uint32, ret0: uint32, prevError0: nat,
                    ghost prescs: seq<nat>, ghost found0: bool, ghost best0: Pick)
      returns (ret: uint32, prevError: nat, ghost found: bool, ghost best: Pick)
      requires count < TABLE_SIZE && scll < SCLL_MAX && sclh < SCLH_MAX
      requires Searched(tick, s, prescs, Pick(count, scll, sclh), found0, best0, ret0, prevError0)
      requires low == PhaseTime(tick, prescs[count], scll) && LowOk(tick, s, low)
      modifies table
      ensures Searched(tick, s, prescs, Pick(count, scll, sclh + 1), found, best, ret, prevError)
      ensures SameDelays(old(table[..]), table[..])
    {
      ret, prevError, found, best := ret0, prevError0, found0, best0;
      var high := PhaseTime(tick, table[count].presc, sclh);
      ghost var here := Pick(count, scll, sclh);
      ghost var error := ErrorIn(tick, s, prescs);
      assert FeasibleIn(tick, s, prescs)(here) <==> HighOk(tick, s, low, high);
      ScanOne(FeasibleIn(tick, s, prescs), error, here, found, best);
      if HighOk(tick, s, low, high) {
        var e := Abs(SclTime(s, low, high) - Target(s));
        assert e == error(here);
        FeasibleBeatsBound(tick, s, prescs[count], scll, sclh);
        if e < prevError {
          prevError := e;
          table[count] := table[count].(scll := scll, sclh := sclh);
          ret := count;
          found, best := true, here;
        }
      }
    }

    /** All values of SCLH for one slot and one value of SCLL. */
    method SearchSclh(tick: nat, s: Speed, count: nat, scll: nat, ret0: uint32, prevError0: nat,
                      ghost prescs: seq<nat>, ghost found0: bool, ghost best0: Pick)
      returns (ret: uint32, prevError: nat, ghost found: bool, ghost best: Pick)
      requires count < TABLE_SIZE && scll < SCLL_MAX
      requires Searched(tick, s, prescs, Pick(count, scll, 0), found0, best0, ret0, prevError0)
      modifies table
      ensures Searched(tick, s, prescs, Pick(count, scll + 1, 0), found, best, ret, prevError)
      ensures SameDelays(old(table[..]), table[..])
    {
      ret, prevError, found, best := ret0, prevError0, found0, best0;
      ghost var feasible, error := FeasibleIn(tick, s, prescs), ErrorIn(tick, s, prescs);
      var low := PhaseTime(tick, table[count].presc, scll);
      if LowOk(tick, s, low) {
        for sclh := 0 to SCLH_MAX
          invariant Searched(tick, s, prescs, Pick(count, scll, sclh), found, best, ret, prevError)
          invariant SameDelays(old(table[..]), table[..])
        {
          ret, prevError, found, best :=
            LoopSclh(tick, s, count, scll, sclh, low, ret, prevError, prescs, found, best);
        }
        ScanSkip(feasible, error, Pick(count, scll, SCLH_MAX), Pick(count, scll + 1, 0), found, best);
      } else {
        ScanSkip(feasible, error, Pick(count, scll, 0), Pick(count, scll + 1, 0), found, best);
      }
    }

    /**
     Finds SCLL and SCLH: the answer is the first of the closest feasible candidates over all
     the 128 slots, whether or not the prescaler search filled them.
     */
    method ComputeSclLowHigh(clock: uint32, s: Speed) returns (ret: uint32)
      requires Valid() && clock != 0
      modifies table
      ensures Valid() && SameDelays(old(table[..]), table[..])
      ensures ret == NO_CONFIG <==> forall q :: !Feasible(Period(clock), s, PrescsOf(old(table[..])), q)
      ensures ret != NO_CONFIG ==>
                && ret < TABLE_SIZE
                && FirstBest(Period(clock), s, PrescsOf(old(table[..])), Pick(ret, table[ret].scll, table[ret].sclh))
    {
      var tick := Period(clock);
      ghost var prescs := PrescsOf(table[..]);
      ghost var feasible, error := FeasibleIn(tick, s, prescs), ErrorIn(tick, s, prescs);
      ghost var found, best := false, Pick(0, 0, 0);
      ret := NO_CONFIG;
      var prevError := Target(s);
      for count := 0 to TABLE_SIZE
        invariant Searched(tick, s, prescs, Pick(count, 0, 0), found, best, ret, prevError)
        invariant SameDelays(old(table[..]), table[..])
      {
        for scll := 0 to SCLL_MAX
          invariant Searched(tick, s, prescs, Pick(count, scll, 0), found, best, ret, prevError)
          invariant SameDelays(old(table[..]), table[..])
        {
          ret, prevError, found, best := SearchSclh(tick, s, count, scll, ret, prevError, prescs, found, best);
        }
        ScanSkip(feasible, error, Pick(count, SCLL_MAX, 0), Pick(count + 1, 0, 0), found, best);
      }
      ScanEnd(tick, s, prescs, found, best);
    }

    /** One configuration for speed `s`, from the state before it. */
    twostate predicate Configured(tick: nat, s: Speed, timing: uint32, pick: Pick)
      reads this, table
    {
      Valid() && Outcome(tick, s, timing, pick, old(table[..]), table[..], nbr)
    }

    /** Configures the bus timing: the first speed mode that covers the bit rate is solved for. */
    method ConfigureTiming(clock: uint32, bitrate: uint32) returns (timing: uint32, ghost pick: Pick)
      requires Valid()
      modifies this`nbr, table
      ensures Valid()
      ensures clock == 0 || (forall s :: !Covers(s, bitrate)) ==> timing == 0
      ensures forall s :: clock != 0 && Covers(s, bitrate) ==> Configured(Period(clock), s, timing, pick)
    {
      timing, pick := 0, Pick(0, 0, 0);
      nbr := 0;
      assert forall s :: Covers(s, bitrate) ==> s == SPEEDS[0] || s == SPEEDS[1] || s == SPEEDS[2];
      if clock != 0 && bitrate != 0 {
        for speed := 0 to 3
          invariant Valid() && nbr == 0 && timing == 0 && table[..] == old(table[..])
          invariant forall i :: 0 <= i < speed ==> !Covers(SPEEDS[i], bitrate)
        {
          if Covers(SPEEDS[speed], bitrate) {
            timing, pick := Solve(clock, SPEEDS[speed]);
            assert forall s :: Covers(s, bitrate) ==> s == SPEEDS[speed];
            break;
          }
        }
      }
    }

    method Solve(clock: uint32, s: Speed) returns (timing: uint32, ghost pick: Pick)
      requires Valid() && clock != 0 && nbr == 0
      modifies this`nbr, table
      ensures Configured(Period(clock), s, timing, pick)
    {
      timing, pick := 0, Pick(0, 0, 0);
      ComputePrescalers(clock, s);
      ghost var filled := table[..];
      var idx := ComputeSclLowHigh(clock, s);
      assert PrescsOf(table[..]) == PrescsOf(filled);
      assert forall i :: 0 <= i < TABLE_SIZE ==>
          table[i].scldel == filled[i].scldel && table[i].sdadel == filled[i].sdadel;
      if idx < TABLE_SIZE {
        timing := Pack(table[idx]);
        UnpackOfPack(table[idx]);
        pick := Pick(idx, table[idx].scll, table[idx].sclh);
        if InRange(Period(clock)) {
          WinnerIsSound(Period(clock), s, table[..], old(table[..]), pick, nbr);
        }
      }
    }

    /** On a table that holds no delays yet. */
    method ConfigureAt84MHz() returns (timing: uint32, ghost pick: Pick)
      requires Valid() && NoPrescs(table[..])
      modifies this`nbr, table
      ensures pick.slot == 27 && !MeetsBusTiming(TICK_84_MHZ, Fast, Unpack(timing))
    {
      timing, pick := ConfigureTiming(84_000_000, 400_000);
      assert Covers(Fast, 400_000);
      assert Configured(TICK_84_MHZ, Fast, timing, pick);
      FirstWinnerAt84MHz(old(table[..]), table[..], timing, pick, nbr);
    }
  }

  /** The table after the first configuration. */
  lemma FirstTable(tick: nat, s: Speed, before: seq<Timings>, t: seq<Timings>, n: nat)
    requires |t| == |before| == TABLE_SIZE && n == Filled(tick, s) && SameDelays(before[n..], t[n..])
    requires Stored(tick, s, t, GoodPrescs(tick, s, PRESC_MAX), n) && NoPrescs(before)
    ensures ZeroPadded(tick, s, PrescsOf(t))
  {
    RestIsKept(before, t, n);
  }

  /** What the first configuration leaves behind when prescaler 0 strays ahead of the acceptable ones. */
  lemma FirstOutcome(tick: nat, s: Speed, timing: uint32, pick: Pick, before: seq<Timings>, t: seq<Timings>, n: nat)
    requires Outcome(tick, s, timing, pick, before, t, n) && NoPrescs(before)
    requires InRange(tick) && StrayPrescaler(tick, s)
    ensures ZeroPadded(tick, s, PrescsOf(t)) && FirstBest(tick, s, PrescsOf(t), pick)
    ensures !MeetsBusTiming(tick, s, Unpack(timing))
  {
    var prescs := PrescsOf(t);
    FirstTable(tick, s, before, t, n);
    ZeroPaddedIff(tick, s, prescs);
    RestIsKept(before, t, n);
    StaleBeatsDependsOnRest(tick, s, prescs, PrescsOf(before));
    var q: Pick :| n <= q.slot < TABLE_SIZE && StaleAt(tick, s, prescs, q);
    assert Feasible(tick, s, prescs, q);
  }

  lemma FirstWinnerAt84MHz(before: seq<Timings>, t: seq<Timings>, timing: uint32, pick: Pick, n: nat)
    requires Outcome(TICK_84_MHZ, Fast, timing, pick, before, t, n) && NoPrescs(before)
    ensures pick.slot == 27 && !MeetsBusTiming(TICK_84_MHZ, Fast, Unpack(timing))
  {
    StrayAt84MHz();
    FirstOutcome(TICK_84_MHZ, Fast, timing, pick, before, t, n);
    UnfilledSlotWinsAt84MHz(PrescsOf(t), pick);
  }

  /**
   A driver that is configured for 100 kHz from any clock in range programs a word that meets all the bus bounds if
   and only if the clock is at least 1568628 Hz.
   */
  method ConfigureStandard(solver: Solver, clock: uint32, bitrate: uint32) returns (timing: uint32)
    requires solver.Valid() && clock != 0 && InRange(Period(clock)) && Covers(Standard, bitrate)
    modifies solver`nbr, solver.table
    ensures MeetsBusTiming(Period(clock), Standard, Unpack(timing)) <==> clock >= 1_568_628
  {
    ghost var pick, before := Pick(0, 0, 0), solver.table[..];
    timing, pick := solver.ConfigureTiming(clock, bitrate);
    assert solver.Configured(Period(clock), Standard, timing, pick);
    StandardModeIsSound(Period(clock), timing, pick, before, solver.table[..], solver.nbr);
    DataValidClock(clock);
  }

  /** Whatever its table held, a driver that is configured for 400 kHz from 8 MHz programs a word that does not. */
  method ConfigureAt8MHz(solver: Solver) returns (timing: uint32)
    requires solver.Valid()
    modifies solver`nbr, solver.table
    ensures timing != 0 && !MeetsBusTiming(Period(8_000_000), Fast, Unpack(timing))
  {
    ghost var pick, before := Pick(0, 0, 0), solver.table[..];
    timing, pick := solver.ConfigureTiming(8_000_000, 400_000);
    assert Covers(Fast, 400_000);
    assert solver.Configured(TICK_8_MHZ, Fast, timing, pick);
    NegativeBoundAt8MHz(timing, pick, before, solver.table[..], solver.nbr);
  }

  /**
   The first configuration for 400 kHz from an 84 MHz clock programs slot 27, which was never filled, and so a
   word that does not meet the bus timing.
   */
  method ConfigureFirstAt84MHz() returns (timing: uint32, ghost pick: Pick)
    ensures pick.slot == Filled(Period(84_000_000), Fast) == 27
    ensures !MeetsBusTiming(Period(84_000_000), Fast, Unpack(timing))
  {
    var solver := new Solver();
    timing, pick := solver.ConfigureAt84MHz();
    StrayAt84MHz();
  }
}
