/**
 The alarm channels of the counter driver when set_alarm is not one step: cancels, matches, interrupts and the
 set_alarm of other threads come between its registering of the alarm and its decision after the second read.
 */
module CounterInterleavings {
  import opened MachineInt
  import opened CounterTicks
  import opened CounterAlarms

  /** The channels, and the alarms whose set_alarm is still running, with their channels. */
  datatype Fine = Fine(s: State, open: map<nat, nat>)

  datatype Act =
    | Begin(chan: nat, compare: uint32)   // set_alarm finds the channel free and registers its alarm
    | End(id: nat, d: Decision)           // the set_alarm of alarm `id` decides
    | Other(e: Step)                      // a cancel, a match, or the handler's part for one channel

  predicate CanDo(f: Fine, a: Act) {
    match a
    case Begin(chan, _) => chan < |f.s.chans| && f.s.chans[chan].callback == None
    case End(id, _) => id in f.open && id < |f.s.fates| && f.open[id] < |f.s.chans|
    case Other(e) => !e.Set? && Possible(f.s, e)
  }

  function Do(f: Fine, a: Act): Fine
    requires CanDo(f, a)
  {
    match a
    case Begin(chan, compare) => Fine(Register(f.s, chan, compare), f.open[|f.s.fates| := chan])
    case End(id, d) => Fine(Finish(f.s, f.open[id], id, d), f.open - {id})
    case Other(e) => f.(s := Next(f.s, e))
  }

  /** A set_alarm without anything in between is the one step of the coarse runs. */
  lemma SetIsBeginEnd(f: Fine, chan: nat, cfg: AlarmCfg, now: uint32, later: uint32, top: uint32, guard: uint32)
    requires chan < |f.s.chans| && cfg.ticks <= top && f.s.chans[chan].callback == None
    ensures var g := Do(f, Begin(chan, CompareValue(cfg, now, top)));
            && CanDo(g, End(|f.s.fates|, Decide(cfg, now, later, top, guard)))
            && Do(g, End(|f.s.fates|, Decide(cfg, now, later, top, guard))).s
            == SetStep(f.s, chan, cfg, now, later, top, guard)
  {
  }

  // ---- The invariant ----

  /** As between the coarse steps, except that an alarm being set is not armed or pending yet. */
  predicate ChannelFine(c: Channel, open: map<nat, nat>) {
    && (c.callback.Some? && c.callback.value !in open ==> c.it || c.pending)
    && (c.it ==> c.callback.Some?)
  }

  ghost predicate OpenOk(f: Fine) {
    forall id :: id in f.open ==>
      id < |f.s.fates| && f.open[id] < |f.s.chans|
      && (f.s.fates[id].Registered? ==> f.s.fates[id] == Registered(f.open[id]))
  }

  ghost predicate FineInv(f: Fine) {
    && (forall i :: 0 <= i < |f.s.chans| ==> ChannelFine(f.s.chans[i], f.open))
    && Books(f.s) && OpenOk(f)
  }

  /** With no set_alarm running it is the invariant of the coarse runs. */
  lemma FineInvIsInv(f: Fine)
    requires f.open == map[]
    ensures FineInv(f) <==> Inv(f.s)
  {
    if FineInv(f) {
      forall i | 0 <= i < |f.s.chans|
        ensures ChannelOk(f.s.chans[i])
      {
        assert ChannelFine(f.s.chans[i], f.open);
      }
    }
    if Inv(f.s) {
      forall i | 0 <= i < |f.s.chans|
        ensures ChannelFine(f.s.chans[i], f.open)
      {
        assert ChannelOk(f.s.chans[i]);
      }
    }
  }

  /**
   The decision does no harm: to its own alarm, unless it drops it with the interrupt enabled by someone else; to a
   free channel, unless it arms it; to another alarm, unless it drops it.
   */
  predicate Harmless(f: Fine, a: Act)
    requires CanDo(f, a)
  {
    a.End? ==>
      var c := f.s.chans[f.open[a.id]];
      match c.callback
      case None => a.d != Armed
      case Some(id) => a.d == Dropped ==> id == a.id && !c.it
  }

  lemma BeginKeeps(f: Fine, chan: nat, compare: uint32)
    requires FineInv(f) && CanDo(f, Begin(chan, compare))
    ensures FineInv(Do(f, Begin(chan, compare)))
  {
    var g := Do(f, Begin(chan, compare));
    assert forall id :: 0 <= id < |f.s.fates| ==> g.s.fates[id] == f.s.fates[id];
    assert ChannelFine(f.s.chans[chan], f.open);
  }

  lemma OtherKeeps(f: Fine, e: Step)
    requires FineInv(f) && CanDo(f, Other(e))
    ensures FineInv(Do(f, Other(e)))
  {
    assert ChannelFine(f.s.chans[e.chan], f.open);
    match e
    case Cancel(chan) => CancelKeepsBooks(f.s, chan);
    case Match(_) =>
    case Irq(chan) => IrqKeepsBooks(f.s, chan);
  }

  lemma EndKeeps(f: Fine, id: nat, d: Decision)
    requires FineInv(f) && CanDo(f, End(id, d)) && Harmless(f, End(id, d))
    ensures FineInv(Do(f, End(id, d)))
  {
    var g, chan := Do(f, End(id, d)), f.open[id];
    assert ChannelFine(f.s.chans[chan], f.open);
    EndKeepsBooks(f, id, d);
    forall i | 0 <= i < |f.s.chans|
      ensures ChannelFine(g.s.chans[i], g.open)
    {
      assert ChannelFine(f.s.chans[i], f.open);
    }
  }

  lemma EndKeepsBooks(f: Fine, id: nat, d: Decision)
    requires FineInv(f) && CanDo(f, End(id, d)) && Harmless(f, End(id, d))
    ensures Books(Do(f, End(id, d)).s)
  {
    var g := Do(f, End(id, d));
    assert forall k :: 0 <= k < |f.s.fates| && k != id ==> g.s.fates[k] == f.s.fates[k];
  }

  lemma EndBreaks(f: Fine, id: nat, d: Decision)
    requires FineInv(f) && CanDo(f, End(id, d)) && !Harmless(f, End(id, d))
    ensures !FineInv(Do(f, End(id, d)))
  {
    var g, chan := Do(f, End(id, d)), f.open[id];
    var c := f.s.chans[chan];
    if c.callback.Some? && c.callback.value != id {
      assert g.s.fates[c.callback.value] == Registered(chan);
    } else {
      assert !ChannelFine(g.s.chans[chan], g.open);
    }
  }

  lemma StepKeepsFineIff(f: Fine, a: Act)
    requires FineInv(f) && CanDo(f, a)
    ensures FineInv(Do(f, a)) <==> Harmless(f, a)
  {
    match a
    case Begin(chan, compare) => BeginKeeps(f, chan, compare);
    case Other(e) => OtherKeeps(f, e);
    case End(id, d) =>
      if Harmless(f, a) {
        EndKeeps(f, id, d);
      } else {
        EndBreaks(f, id, d);
      }
  }

  // ---- Runs ----

  predicate IsFineRun(f: Fine, run: seq<Act>)
    decreases |run|
  {
    run == [] || (CanDo(f, run[0]) && IsFineRun(Do(f, run[0]), run[1..]))
  }

  function After(f: Fine, run: seq<Act>): Fine
    requires IsFineRun(f, run)
    decreases |run|
  {
    if run == [] then f else After(Do(f, run[0]), run[1..])
  }

  /** The invariant holds in every state that the run goes through. */
  ghost predicate FineThroughout(f: Fine, run: seq<Act>)
    requires IsFineRun(f, run)
    decreases |run|
  {
    FineInv(f) && (run == [] || FineThroughout(Do(f, run[0]), run[1..]))
  }

  predicate AllHarmless(f: Fine, run: seq<Act>)
    requires IsFineRun(f, run)
    decreases |run|
  {
    run == [] || (Harmless(f, run[0]) && AllHarmless(Do(f, run[0]), run[1..]))
  }

  /** Over every run, with interrupts and other threads inside set_alarm: safe exactly if every decision is harmless. */
  lemma {:induction false} FineRunsAreSafeIff(f: Fine, run: seq<Act>)
    requires FineInv(f) && IsFineRun(f, run)
    ensures FineThroughout(f, run) <==> AllHarmless(f, run)
    ensures AllHarmless(f, run) ==> FineInv(After(f, run))
    decreases |run|
  {
    if run != [] {
      var g := Do(f, run[0]);
      StepKeepsFineIff(f, run[0]);
      if FineInv(g) {
        FineRunsAreSafeIff(g, run[1..]);
      }
    }
  }

  function Start(channels: nat): Fine {
    Fine(Reset(channels), map[])
  }

  /**
   After every run of harmless decisions: an alarm that is registered and no longer being set can still be delivered,
   the alarms called back are exactly those whose fate says so, and none is called back twice.
   */
  lemma FineAlarmsAreSafe(channels: nat, run: seq<Act>)
    requires IsFineRun(Start(channels), run) && AllHarmless(Start(channels), run)
    ensures var f := After(Start(channels), run);
            var s := f.s;
            && (forall i :: 0 <= i < |s.chans| && s.chans[i].callback.Some? && s.chans[i].callback.value !in f.open ==>
                  s.chans[i].it || s.chans[i].pending)
            && (forall id :: 0 <= id < |s.fates| ==> (id in s.calls <==> s.fates[id] == Called))
            && (forall j, k :: 0 <= j < k < |s.calls| ==> s.calls[j] != s.calls[k])
  {
    FineInvIsInv(Start(channels));
    FineRunsAreSafeIff(Start(channels), run);
    var f := After(Start(channels), run);
    forall i | 0 <= i < |f.s.chans| && f.s.chans[i].callback.Some? && f.s.chans[i].callback.value !in f.open
      ensures f.s.chans[i].it || f.s.chans[i].pending
    {
      assert ChannelFine(f.s.chans[i], f.open);
    }
    forall id | 0 <= id < |f.s.fates| && id in f.s.calls
      ensures f.s.fates[id] == Called
    {
      var k :| 0 <= k < |f.s.calls| && f.s.calls[k] == id;
    }
  }

  // ---- What a harmful decision needs ----

  /** A cancel, or the handler with a pending bit left over, takes an alarm away whose set_alarm is still running. */
  predicate Disturbs(f: Fine, a: Act)
    requires CanDo(f, a)
  {
    a.Other? && (a.e.Cancel? || a.e.Irq?) &&
    var c := f.s.chans[a.e.chan];
    c.callback.Some? && c.callback.value in f.open && (a.e.Irq? ==> c.pending)
  }

  predicate Undisturbed(f: Fine, run: seq<Act>)
    requires IsFineRun(f, run)
    decreases |run|
  {
    run == [] || (!Disturbs(f, run[0]) && Undisturbed(Do(f, run[0]), run[1..]))
  }

  /** Every alarm being set is still on its channel, which is not armed yet. */
  ghost predicate OpenKept(f: Fine) {
    forall id :: id in f.open ==>
      && f.open[id] < |f.s.chans| && f.s.chans[f.open[id]].callback == Some(id) && !f.s.chans[f.open[id]].it
      && id < |f.s.fates|
  }

  lemma UndisturbedStep(f: Fine, a: Act)
    requires FineInv(f) && OpenKept(f) && CanDo(f, a) && !Disturbs(f, a)
    ensures Harmless(f, a) && OpenKept(Do(f, a))
  {
    match a
    case Begin(chan, _) => assert ChannelFine(f.s.chans[chan], f.open);
    case End(id, d) =>
    case Other(e) => UndisturbedOther(f, e);
  }

  lemma UndisturbedOther(f: Fine, e: Step)
    requires FineInv(f) && OpenKept(f) && CanDo(f, Other(e)) && !Disturbs(f, Other(e))
    ensures OpenKept(Do(f, Other(e)))
  {
    var g := Do(f, Other(e));
    forall id | id in f.open
      ensures g.s.chans[f.open[id]].callback == Some(id) && !g.s.chans[f.open[id]].it
    {
      assert f.open[id] != e.chan ==> g.s.chans[f.open[id]] == f.s.chans[f.open[id]];
    }
  }

  /** While no alarm is taken away during its own set_alarm, every decision is harmless, and every run safe. */
  lemma {:induction false} UndisturbedIsHarmless(f: Fine, run: seq<Act>)
    requires FineInv(f) && OpenKept(f) && IsFineRun(f, run) && Undisturbed(f, run)
    ensures AllHarmless(f, run) && FineThroughout(f, run)
    decreases |run|
  {
    if run != [] {
      UndisturbedStep(f, run[0]);
      StepKeepsFineIff(f, run[0]);
      UndisturbedIsHarmless(Do(f, run[0]), run[1..]);
    }
  }

  /** One that is taken away, and whose channel no other thread has set since, is harmed exactly if it was in time. */
  lemma TakenAwayIsHarmful(f: Fine, a: Act, id: nat, d: Decision)
    requires FineInv(f) && CanDo(f, a) && Disturbs(f, a) && f.s.chans[a.e.chan].callback == Some(id)
    ensures var g := Do(f, a);
            CanDo(g, End(id, d)) && (FineInv(Do(g, End(id, d))) <==> d != Armed)
  {
    assert f.s.fates[id] == Registered(a.e.chan);
    OtherKeeps(f, a.e);
    StepKeepsFineIff(Do(f, a), End(id, d));
  }
}
