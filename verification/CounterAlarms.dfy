/** The alarm channels of the counter driver: API calls, compare matches and the interrupt handler, over whole runs. */
module CounterAlarms {
  import opened MachineInt
  import opened CounterTicks

  /**
   One channel: the registered alarm, the compare register, the interrupt enable and flag, and the
   software pending bit. Alarms are told apart by the order in which they were accepted.
   */
  datatype Channel = Channel(callback: Option<nat>, compare: uint32, it: bool, flag: bool, pending: bool)

  /** What has become of an accepted alarm. */
  datatype Fate = Registered(chan: nat) | Called | Cancelled | Lost

  /** The channels, the fate of every accepted alarm, and the callbacks made, in order. */
  datatype State = State(chans: seq<Channel>, fates: seq<Fate>, calls: seq<nat>)

  datatype Step =
    | Set(chan: nat, cfg: AlarmCfg, now: uint32, later: uint32, top: uint32, guard: uint32)
    | Cancel(chan: nat)
    | Match(chan: nat)      // the counter reaches the compare value
    | Irq(chan: nat)        // the handler's part for one channel

  predicate Possible(s: State, e: Step) {
    e.chan < |s.chans|
  }

  // ---- The steps ----

  function SetResult(s: State, chan: nat, cfg: AlarmCfg, now: uint32, later: uint32, top: uint32, guard: uint32): int
    requires chan < |s.chans|
  {
    if cfg.ticks > top then EINVAL
    else if s.chans[chan].callback.Some? then EBUSY
    else if cfg.absolute && IsLate(cfg, now, later, top, guard) then ETIME
    else 0
  }

  function Accept(s: State, chan: nat, c: Channel, fate: Fate): State
    requires chan < |s.chans|
  {
    s.(chans := s.chans[chan := c], fates := s.fates + [fate])
  }

  /** The first part of set_alarm: the alarm is registered, the compare value programmed and the flag cleared. */
  function Register(s: State, chan: nat, compare: uint32): State
    requires chan < |s.chans|
  {
    var c := s.chans[chan].(callback := Some(|s.fates|), compare := compare, flag := false);
    Accept(s, chan, c, Registered(chan))
  }

  /** The second part of it, for alarm `id`, after the second read of the counter. */
  function Finish(s: State, chan: nat, id: nat, d: Decision): State
    requires chan < |s.chans| && id < |s.fates|
  {
    var c := s.chans[chan];
    match d
    case Armed => s.(chans := s.chans[chan := c.(it := true)])
    case Pending => s.(chans := s.chans[chan := c.(pending := true)])
    case Dropped =>
      s.(chans := s.chans[chan := c.(callback := None)],
         fates := if s.fates[id] == Registered(chan) then s.fates[id := Lost] else s.fates)
  }

  function SetStep(s: State, chan: nat, cfg: AlarmCfg, now: uint32, later: uint32, top: uint32, guard: uint32): State
    requires chan < |s.chans|
  {
    if cfg.ticks > top || s.chans[chan].callback.Some? then s
    else
      Finish(Register(s, chan, CompareValue(cfg, now, top)), chan, |s.fates|, Decide(cfg, now, later, top, guard))
  }

  /** The registered alarm leaves channel `chan`, which becomes `c`. */
  function Leave(s: State, chan: nat, c: Channel, fate: Fate): State
    requires chan < |s.chans|
  {
    var id := s.chans[chan].callback;
    s.(chans := s.chans[chan := c],
       fates := if id.Some? && id.value < |s.fates| then s.fates[id.value := fate] else s.fates)
  }

  function CancelStep(s: State, chan: nat): State
    requires chan < |s.chans|
  {
    Leave(s, chan, s.chans[chan].(it := false, callback := None), Cancelled)
  }

  function MatchStep(s: State, chan: nat): State
    requires chan < |s.chans|
  {
    s.(chans := s.chans[chan := s.chans[chan].(flag := true)])
  }

  /** The handler serves a channel whose enabled flag or pending bit is set. */
  predicate Serves(c: Channel) {
    (c.flag && c.it) || c.pending
  }

  function IrqStep(s: State, chan: nat): State
    requires chan < |s.chans|
  {
    var c := s.chans[chan];
    if !Serves(c) then s
    else
      var t := Leave(s, chan, c.(flag := c.flag && !c.it, pending := false, it := false, callback := None), Called);
      if c.callback.Some? then t.(calls := t.calls + [c.callback.value]) else t
  }

  function Next(s: State, e: Step): (t: State)
    requires Possible(s, e)
    ensures |t.chans| == |s.chans|
  {
    match e
    case Set(chan, cfg, now, later, top, guard) => SetStep(s, chan, cfg, now, later, top, guard)
    case Cancel(chan) => CancelStep(s, chan)
    case Match(chan) => MatchStep(s, chan)
    case Irq(chan) => IrqStep(s, chan)
  }

  // ---- Every run ----

  /** A registered alarm has its interrupt enabled or its pending bit set; a free channel is never enabled. */
  predicate ChannelOk(c: Channel) {
    (c.callback.Some? ==> c.it || c.pending) && (c.it ==> c.callback.Some?)
  }

  /** An alarm is registered on the one channel that its fate names, and nowhere else. */
  ghost predicate RegistersOk(s: State) {
    && (forall i {:trigger s.chans[i]} :: 0 <= i < |s.chans| && s.chans[i].callback.Some? ==>
          s.chans[i].callback.value < |s.fates| && s.fates[s.chans[i].callback.value] == Registered(i))
    && (forall id {:trigger s.fates[id]} :: 0 <= id < |s.fates| && s.fates[id].Registered? ==>
          s.fates[id].chan < |s.chans| && s.chans[s.fates[id].chan].callback == Some(id))
  }

  /** The callbacks made are those of the alarms whose fate says so, once each. */
  ghost predicate CallsOk(s: State) {
    && (forall k :: 0 <= k < |s.calls| ==> s.calls[k] < |s.fates| && s.fates[s.calls[k]] == Called)
    && (forall id :: 0 <= id < |s.fates| && s.fates[id] == Called ==> id in s.calls)
    && (forall j, k :: 0 <= j < k < |s.calls| ==> s.calls[j] != s.calls[k])
  }

  ghost predicate Books(s: State) {
    RegistersOk(s) && CallsOk(s)
  }

  ghost predicate Inv(s: State) {
    (forall i :: 0 <= i < |s.chans| ==> ChannelOk(s.chans[i])) && Books(s)
  }

  lemma SetKeepsInv(s: State, chan: nat, compare: uint32, d: Decision)
    requires Inv(s) && chan < |s.chans| && s.chans[chan].callback == None
    ensures Inv(Finish(Register(s, chan, compare), chan, |s.fates|, d))
  {
    var t := Finish(Register(s, chan, compare), chan, |s.fates|, d);
    assert forall id :: 0 <= id < |s.fates| ==> t.fates[id] == s.fates[id];
  }

  lemma CancelKeepsBooks(s: State, chan: nat)
    requires Books(s) && chan < |s.chans|
    ensures Books(CancelStep(s, chan))
  {
    var t := CancelStep(s, chan);
    var was := s.chans[chan].callback;
    assert forall id :: 0 <= id < |s.fates| && Some(id) != was ==> t.fates[id] == s.fates[id];
  }

  lemma IrqKeepsBooks(s: State, chan: nat)
    requires Books(s) && chan < |s.chans|
    ensures Books(IrqStep(s, chan))
  {
    var t := IrqStep(s, chan);
    var was := s.chans[chan].callback;
    assert forall id :: 0 <= id < |s.fates| && Some(id) != was ==> t.fates[id] == s.fates[id];
    if Serves(s.chans[chan]) && was.Some? {
      assert t.calls == s.calls + [was.value];
      assert t.calls[|s.calls|] == was.value;
    }
  }

  lemma StepKeepsInv(s: State, e: Step)
    requires Inv(s) && Possible(s, e)
    ensures Inv(Next(s, e))
  {
    match e
    case Set(chan, cfg, now, later, top, guard) =>
      if cfg.ticks <= top && s.chans[chan].callback == None {
        SetKeepsInv(s, chan, CompareValue(cfg, now, top), Decide(cfg, now, later, top, guard));
      }
    case Cancel(chan) => CancelKeepsBooks(s, chan);
    case Match(_) =>
    case Irq(chan) => IrqKeepsBooks(s, chan);
  }

  /** A fate other than being registered is final. */
  lemma FatesAreFinal(s: State, e: Step, id: nat)
    requires Inv(s) && Possible(s, e) && id < |s.fates| && !s.fates[id].Registered?
    ensures id < |Next(s, e).fates| && Next(s, e).fates[id] == s.fates[id]
  {
  }

  predicate OnChannels(run: seq<Step>, channels: nat) {
    forall i :: 0 <= i < |run| ==> run[i].chan < channels
  }

  function Run(s: State, run: seq<Step>): (t: State)
    requires OnChannels(run, |s.chans|)
    ensures |t.chans| == |s.chans|
  {
    if run == [] then s else Next(Run(s, run[..|run| - 1]), run[|run| - 1])
  }

  function Reset(channels: nat): State {
    State(seq(channels, _ => Channel(None, 0, false, false, false)), [], [])
  }

  lemma {:induction false} RunsKeepInv(s: State, run: seq<Step>)
    requires Inv(s) && OnChannels(run, |s.chans|)
    ensures Inv(Run(s, run))
  {
    if run != [] {
      RunsKeepInv(s, run[..|run| - 1]);
      StepKeepsInv(Run(s, run[..|run| - 1]), run[|run| - 1]);
    }
  }

  /**
   In every state that calls, matches and interrupts can reach: a registered alarm can still be
   delivered, no alarm is called back twice, and none disappears without a fate.
   */
  lemma AlarmsAreSafe(channels: nat, run: seq<Step>)
    requires OnChannels(run, channels)
    ensures var s := Run(Reset(channels), run);
            && (forall i :: 0 <= i < |s.chans| && s.chans[i].callback.Some? ==> s.chans[i].it || s.chans[i].pending)
            && (forall id :: 0 <= id < |s.fates| ==> (id in s.calls <==> s.fates[id] == Called))
            && (forall j, k :: 0 <= j < k < |s.calls| ==> s.calls[j] != s.calls[k])
  {
    RunsKeepInv(Reset(channels), run);
    var s := Run(Reset(channels), run);
    forall id | 0 <= id < |s.fates| && id in s.calls
      ensures s.fates[id] == Called
    {
      var k :| 0 <= k < |s.calls| && s.calls[k] == id;
    }
  }

  /**
   After every run, a set_alarm that is not refused finds the compare interrupt of its channel disabled, as the
   assertion in set_cc demands.
   */
  lemma {:induction false} SetFindsInterruptDisabled(channels: nat, run: seq<Step>, e: Step)
    requires OnChannels(run, channels) && e.Set? && e.chan < channels
    ensures var s := Run(Reset(channels), run);
            SetResult(s, e.chan, e.cfg, e.now, e.later, e.top, e.guard) !in {EINVAL, EBUSY} ==> !s.chans[e.chan].it
  {
    RunsKeepInv(Reset(channels), run);
    assert ChannelOk(Run(Reset(channels), run).chans[e.chan]);
  }

  // ---- What becomes of one alarm ----

  /** The target counts as less than the guard period behind the second read of the counter. */
  predicate JustMissed(cfg: AlarmCfg, later: uint32, top: uint32, guard: uint32) {
    if DistanceIsRight(cfg.ticks, top) then (later - cfg.ticks) % (top + 1) < guard
    else later < 0xFFFF_FFFF - top + guard
  }

  /**
   Alarm `id` has been set on the channel with this compare value. Armed, it is called back by the handler after a match
   and not before; pending, by the next one in any case; dropped, never, and it is gone.
   */
  predicate Awaits(t: State, chan: nat, id: nat, compare: uint32, d: Decision)
    requires chan < |t.chans|
  {
    && t.chans[chan].compare == compare
    && (id in IrqStep(t, chan).calls <==> d == Decision.Pending)
    && (id in IrqStep(MatchStep(t, chan), chan).calls <==> d != Dropped)
    && (t.chans[chan].callback == Some(id) <==> d != Dropped)
  }

  /**
   An absolute alarm on a free channel. When it was just missed, set_alarm reports that, and it is pending exactly if
   it asks to expire, otherwise dropped; when it was not, it is armed.
   */
  lemma AbsoluteAlarmFate(s: State, chan: nat, cfg: AlarmCfg, now: uint32, later: uint32, top: uint32, guard: uint32)
    requires Inv(s) && chan < |s.chans| && s.chans[chan].callback == None && !s.chans[chan].pending
    requires cfg.absolute && cfg.ticks <= top && later <= top && guard < top
    ensures var late := JustMissed(cfg, later, top, guard);
            var d := if !late then Armed else if cfg.expireWhenLate then Decision.Pending else Dropped;
            && SetResult(s, chan, cfg, now, later, top, guard) == (if late then ETIME else 0)
            && Awaits(SetStep(s, chan, cfg, now, later, top, guard), chan, |s.fates|, cfg.ticks, d)
  {
    AbsoluteDecision(cfg, now, later, top, guard);
    AbsoluteAlarm(cfg, now, later, top, guard);
    AwaitsDecision(s, chan, cfg, now, later, top, guard);
  }

  /** A new alarm on a free channel without a pending bit awaits what was decided. */
  lemma AwaitsDecision(s: State, chan: nat, cfg: AlarmCfg, now: uint32, later: uint32, top: uint32, guard: uint32)
    requires Inv(s) && chan < |s.chans| && s.chans[chan].callback == None && !s.chans[chan].pending
    requires cfg.ticks <= top
    ensures Awaits(SetStep(s, chan, cfg, now, later, top, guard), chan, |s.fates|, CompareValue(cfg, now, top),
                   Decide(cfg, now, later, top, guard))
  {
    assert |s.fates| !in s.calls;
  }

  /**
   A relative alarm likewise, with the target that far from the first read; it is never reported as late, and pending
   exactly if it is short and its target was passed between the two reads.
   */
  lemma RelativeAlarmFate(s: State, chan: nat, ticks: uint32, now: uint32, elapsed: nat, top: uint32, guard: uint32)
    requires Inv(s) && chan < |s.chans| && s.chans[chan].callback == None && !s.chans[chan].pending
    requires now <= top && ticks <= top && elapsed <= top && DistanceIsRight((now + ticks) % (top + 1), top)
    ensures var cfg, later := AlarmCfg(ticks, false, false), (now + elapsed) % (top + 1);
            var passed := ticks < top / 2 && 0 <= elapsed - ticks < top - top / 2;
            && SetResult(s, chan, cfg, now, later, top, guard) == 0
            && Awaits(SetStep(s, chan, cfg, now, later, top, guard), chan, |s.fates|, (now + ticks) % (top + 1),
                      if passed then Decision.Pending else Armed)
  {
    var cfg := AlarmCfg(ticks, false, false);
    RelativeAlarmByDistance(now, ticks, elapsed, top, guard);
    CompareValueIsTarget(cfg, now, top);
    AwaitsDecision(s, chan, cfg, now, (now + elapsed) % (top + 1), top, guard);
  }

  /**
   The handler serves a channel exactly if it is pending or its enabled flag is set; then the channel is free, no longer
   pending and disabled, and the flag is cleared if it was enabled.
   */
  lemma ServiceIsExact(s: State, chan: nat)
    requires Inv(s) && chan < |s.chans|
    ensures var c, t := s.chans[chan], IrqStep(s, chan);
            var d := t.chans[chan];
            if c.pending || (c.flag && c.it) then
              && d.callback == None && !d.pending && !d.it && d.compare == c.compare && (d.flag <==> c.flag && !c.it)
              && t.calls == s.calls + (if c.callback.Some? then [c.callback.value] else [])
            else
              t == s
  {
  }

  /** Refusals: a target above the top value before a channel in use, and neither leaves a trace. */
  lemma RefusedIff(s: State, chan: nat, cfg: AlarmCfg, now: uint32, later: uint32, top: uint32, guard: uint32)
    requires chan < |s.chans|
    ensures var rc := SetResult(s, chan, cfg, now, later, top, guard);
            && (rc == EINVAL <==> cfg.ticks > top)
            && (rc == EBUSY <==> cfg.ticks <= top && s.chans[chan].callback.Some?)
            && (rc in {EINVAL, EBUSY} <==> |SetStep(s, chan, cfg, now, later, top, guard).fates| == |s.fates|)
            && (rc in {EINVAL, EBUSY} ==> SetStep(s, chan, cfg, now, later, top, guard) == s)
  {
  }

  lemma {:induction false} FatesStay(s: State, run: seq<Step>, id: nat)
    requires Inv(s) && OnChannels(run, |s.chans|) && id < |s.fates| && !s.fates[id].Registered?
    ensures id < |Run(s, run).fates| && Run(s, run).fates[id] == s.fates[id]
  {
    if run != [] {
      var init := run[..|run| - 1];
      FatesStay(s, init, id);
      RunsKeepInv(s, init);
      FatesAreFinal(Run(s, init), run[|run| - 1], id);
    }
  }

  /** A cancelled alarm is never called back, whatever its compare value matches and however often the handler runs. */
  lemma CancelledStaysSilent(s: State, chan: nat, id: nat, run: seq<Step>)
    requires Inv(s) && chan < |s.chans| && s.chans[chan].callback == Some(id) && OnChannels(run, |s.chans|)
    ensures id !in Run(CancelStep(s, chan), run).calls
  {
    var t := CancelStep(s, chan);
    assert s.fates[id] == Registered(chan) && t.fates[id] == Cancelled;
    CancelKeepsBooks(s, chan);
    FatesStay(t, run, id);
    RunsKeepInv(t, run);
    var calls, fates := Run(t, run).calls, Run(t, run).fates;
    assert forall k :: 0 <= k < |calls| ==> fates[calls[k]] == Called;
  }

  // ---- Pending bits that outlive their alarm ----

  /** The states that a run goes through. */
  ghost predicate IsTrace(t: seq<State>, run: seq<Step>, channels: nat) {
    && |t| == |run| + 1 && OnChannels(run, channels) && t[0] == Reset(channels)
    && forall i :: 0 <= i < |run| ==> |t[i].chans| == channels && t[i + 1] == Next(t[i], run[i])
  }

  /** The step registers an alarm on the channel. */
  predicate Accepts(s: State, e: Step, chan: nat)
    requires chan < |s.chans|
  {
    && e.Set? && e.chan == chan && e.cfg.ticks <= e.top && s.chans[chan].callback == None
    && Decide(e.cfg, e.now, e.later, e.top, e.guard) != Dropped
  }

  /** The alarm that it registers came too late, and the channel is made pending. */
  predicate MakesPending(s: State, e: Step, chan: nat)
    requires chan < |s.chans|
  {
    Accepts(s, e, chan) && Decide(e.cfg, e.now, e.later, e.top, e.guard) == Decision.Pending
  }

  /** Step `i` of the run made the channel pending, and its handler has not run in the steps before `n`. */
  ghost predicate PendingFrom(t: seq<State>, run: seq<Step>, chan: nat, i: nat, n: nat)
    requires n <= |run| < |t|
  {
    && i < n && chan < |t[i].chans| && MakesPending(t[i], run[i], chan)
    && forall j :: i < j < n ==> run[j] != Irq(chan)
  }

  /** Step `j` of the run cancelled the alarm of the channel, and none was accepted on it in the steps before `n`. */
  ghost predicate CancelledAt(t: seq<State>, run: seq<Step>, chan: nat, j: nat, n: nat)
    requires n <= |run| < |t|
  {
    && j < n && run[j] == Cancel(chan)
    && forall k :: j < k < n ==> chan < |t[k].chans| && !Accepts(t[k], run[k], chan)
  }

  /** What one step does to the pending bit and the callback of a channel. */
  lemma StepOnChannel(s: State, e: Step, chan: nat)
    requires Possible(s, e) && chan < |s.chans|
    ensures var c, d := s.chans[chan], Next(s, e).chans[chan];
            && (d.pending <==> MakesPending(s, e, chan) || (c.pending && e != Irq(chan)))
            && (d.callback == None <==>
                  || e == Cancel(chan) || (e == Irq(chan) && Serves(c))
                  || (c.callback == None && !Accepts(s, e, chan)))
  {
  }

  /** A channel is pending exactly when one of its alarms came too late and no handler has run since. */
  lemma {:induction false} PendingIff(t: seq<State>, run: seq<Step>, channels: nat, chan: nat, n: nat)
    requires IsTrace(t, run, channels) && chan < channels && n <= |run|
    ensures |t[n].chans| == channels
    ensures t[n].chans[chan].pending <==> exists i: nat :: PendingFrom(t, run, chan, i, n)
  {
    if n > 0 {
      var m := n - 1;
      PendingIff(t, run, channels, chan, m);
      StepOnChannel(t[m], run[m], chan);
      if run[m] != Irq(chan) && t[m].chans[chan].pending {
        var i: nat :| PendingFrom(t, run, chan, i, m);
        assert PendingFrom(t, run, chan, i, n);
      } else if MakesPending(t[m], run[m], chan) {
        assert PendingFrom(t, run, chan, m, n);
      } else {
        forall i: nat
          ensures !PendingFrom(t, run, chan, i, n)
        {
          assert i < m && PendingFrom(t, run, chan, i, n) ==> PendingFrom(t, run, chan, i, m);
        }
      }
    }
  }

  /** Once an alarm was late and not handled, the channel is free exactly when it was cancelled and not set again. */
  lemma {:induction false} FreeIff(t: seq<State>, run: seq<Step>, channels: nat, chan: nat, i: nat, n: nat)
    requires IsTrace(t, run, channels) && chan < channels && n <= |run| && PendingFrom(t, run, chan, i, n)
    ensures |t[n].chans| == channels
    ensures t[n].chans[chan].callback == None <==> exists j: nat :: i < j && CancelledAt(t, run, chan, j, n)
  {
    var m := n - 1;
    StepOnChannel(t[m], run[m], chan);
    if i < m {
      FreeIff(t, run, channels, chan, i, m);
      if run[m] == Cancel(chan) {
        assert CancelledAt(t, run, chan, m, n);
      } else if t[m].chans[chan].callback == None && !Accepts(t[m], run[m], chan) {
        var j: nat :| i < j && CancelledAt(t, run, chan, j, m);
        assert CancelledAt(t, run, chan, j, n);
      } else {
        forall j: nat | i < j
          ensures !CancelledAt(t, run, chan, j, n)
        {
          assert CancelledAt(t, run, chan, j, n) ==> CancelledAt(t, run, chan, j, m);
        }
      }
    }
  }

  /**
   In every run: a channel is free and still pending exactly when one of its alarms came too late, was cancelled
   before a handler ran, and none was accepted since. Cancelling leaves the pending bit alone.
   */
  lemma StalePendingIff(t: seq<State>, run: seq<Step>, channels: nat, chan: nat)
    requires IsTrace(t, run, channels) && chan < channels
    ensures |t[|run|].chans| == channels
    ensures var c := t[|run|].chans[chan];
            c.pending && c.callback == None <==>
              exists i: nat, j: nat ::
                PendingFrom(t, run, chan, i, |run|) && i < j && CancelledAt(t, run, chan, j, |run|)
  {
    PendingIff(t, run, channels, chan, |run|);
    forall i: nat | PendingFrom(t, run, chan, i, |run|)
      ensures t[|run|].chans[chan].callback == None <==>
                exists j: nat :: i < j && CancelledAt(t, run, chan, j, |run|)
    {
      FreeIff(t, run, channels, chan, i, |run|);
    }
  }

  /**
   A new alarm that is armed on a free channel is called back by the next interrupt, before any compare match,
   exactly when the bit was left over.
   */
  lemma StalePendingFiresEarly(s: State, e: Step)
    requires Inv(s) && Possible(s, e) && Accepts(s, e, e.chan)
    requires Decide(e.cfg, e.now, e.later, e.top, e.guard) == Armed
    ensures |s.fates| in IrqStep(Next(s, e), e.chan).calls <==> s.chans[e.chan].pending
  {
    assert |s.fates| !in s.calls;
  }

  lemma LateAndArmed()
    ensures Decide(AlarmCfg(10, false, false), 0, 20, 1000, 0) == Decision.Pending
    ensures Decide(AlarmCfg(100, false, false), 100, 100, 1000, 0) == Armed
  {
    RelativeAlarmByDistance(0, 10, 20, 1000, 0);
    RelativeAlarmByDistance(100, 100, 0, 1000, 0);
  }

  /** For example: the second alarm of this run is called back without any match of its compare value. */
  lemma StalePendingExample() returns (t: seq<State>, run: seq<Step>)
    ensures IsTrace(t, run, 1) && |run| == 4 && t[4].calls == [1]
    ensures forall i :: 0 <= i < |run| ==> !run[i].Match?
  {
    var late, armed := AlarmCfg(10, false, false), AlarmCfg(100, false, false);
    LateAndArmed();
    run := [Set(0, late, 0, 20, 1000, 0), Cancel(0), Set(0, armed, 100, 100, 1000, 0), Irq(0)];
    var s1 := Next(Reset(1), run[0]);
    assert s1.chans[0].pending && s1.chans[0].callback == Some(0) && |s1.fates| == 1 && s1.calls == [];
    var s2 := Next(s1, run[1]);
    assert s2.chans[0].pending && s2.chans[0].callback == None && |s2.fates| == 1 && s2.calls == [];
    var s3 := Next(s2, run[2]);
    assert s3.chans[0].pending && s3.chans[0].callback == Some(1) && |s3.fates| == 2 && s3.calls == [];
    t := [Reset(1), s1, s2, s3, Next(s3, run[3])];
  }

  // ---- An interrupt inside set_alarm ----

  /** An interrupt of another channel inside set_alarm is as one after it. */
  lemma OtherInterruptInsideSet(s: State, chan: nat, compare: uint32, d: Decision, other: nat)
    requires Inv(s) && chan < |s.chans| && other < |s.chans| && other != chan && s.chans[chan].callback == None
    ensures Finish(IrqStep(Register(s, chan, compare), other), chan, |s.fates|, d)
         == IrqStep(Finish(Register(s, chan, compare), chan, |s.fates|, d), other)
  {
    var r := Register(s, chan, compare);
    var a := Finish(IrqStep(r, other), chan, |s.fates|, d);
    var b := IrqStep(Finish(r, chan, |s.fates|, d), other);
    assert r.chans[other] == s.chans[other];
    assert s.chans[other].callback.Some? ==> s.chans[other].callback.value < |s.fates|;
    assert a.chans == b.chans;
    assert a.fates == b.fates;
  }

  /** So is a match of any channel. */
  lemma MatchInsideSet(s: State, chan: nat, compare: uint32, d: Decision, other: nat)
    requires chan < |s.chans| && other < |s.chans|
    ensures Finish(MatchStep(Register(s, chan, compare), other), chan, |s.fates|, d)
         == MatchStep(Finish(Register(s, chan, compare), chan, |s.fates|, d), other)
  {
    var r := Register(s, chan, compare);
    assert Finish(MatchStep(r, other), chan, |s.fates|, d).chans
        == MatchStep(Finish(r, chan, |s.fates|, d), other).chans;
  }

  lemma RegisterKeepsInv(s: State, chan: nat, compare: uint32)
    requires Inv(s) && chan < |s.chans| && s.chans[chan].callback == None && s.chans[chan].pending
    ensures Inv(Register(s, chan, compare))
  {
    var r := Register(s, chan, compare);
    assert forall id :: 0 <= id < |s.fates| ==> r.fates[id] == s.fates[id];
  }

  lemma FinishFree(s: State, chan: nat, id: nat, d: Decision)
    requires Inv(s) && chan < |s.chans| && id < |s.fates| && s.fates[id] == Called && s.chans[chan].callback == None
    ensures Inv(Finish(s, chan, id, d)) <==> d != Armed
  {
    var t := Finish(s, chan, id, d);
    if d == Armed {
      assert !ChannelOk(t.chans[chan]);
    } else {
      assert ChannelOk(s.chans[chan]);
    }
  }

  /**
   The handler of the same channel inside set_alarm does nothing when no pending bit was left over. When one was, it
   calls the new alarm back at once, and set_alarm then enables the compare interrupt of a free channel if the alarm
   was in time: the invariant is kept if and only if no bit was left over or the alarm was late.
   */
  lemma InterruptInsideSet(s: State, chan: nat, compare: uint32, d: Decision)
    requires Inv(s) && chan < |s.chans| && s.chans[chan].callback == None
    ensures var r := Register(s, chan, compare);
            var t := Finish(IrqStep(r, chan), chan, |s.fates|, d);
            && (!s.chans[chan].pending ==> t == Finish(r, chan, |s.fates|, d))
            && (s.chans[chan].pending ==> |s.fates| in t.calls)
            && (Inv(t) <==> !s.chans[chan].pending || d != Armed)
  {
    var r := Register(s, chan, compare);
    assert ChannelOk(s.chans[chan]);
    if s.chans[chan].pending {
      var q := IrqStep(r, chan);
      RegisterKeepsInv(s, chan, compare);
      IrqKeepsBooks(r, chan);
      assert q.calls == s.calls + [|s.fates|] && q.calls[|s.calls|] == |s.fates|;
      FinishFree(q, chan, |s.fates|, d);
    } else {
      SetKeepsInv(s, chan, compare, d);
    }
  }

  // ---- The interrupt handler ----

  /** The interrupt handler's steps for the channels below `n`, the highest first. */
  function IrqAll(s: State, n: nat): State
    requires n <= |s.chans|
    decreases n
  {
    if n == 0 then s else IrqAll(IrqStep(s, n - 1), n - 1)
  }

  lemma IrqServesOne(s: State, chan: nat)
    requires chan < |s.chans|
    ensures var t, c := IrqStep(s, chan), s.chans[chan];
            && t.chans == s.chans[chan := t.chans[chan]] && !Serves(t.chans[chan])
            && (!Serves(c) ==> t == s)
            && t.calls == s.calls + if Serves(c) && c.callback.Some? then [c.callback.value] else []
  {
  }

  /** One interrupt serves every channel that wants it: each such alarm is called back, the others stay. */
  lemma {:induction false} IrqServesAll(s: State, n: nat)
    requires n <= |s.chans|
    ensures var t := IrqAll(s, n);
            && |t.chans| == |s.chans| && s.calls <= t.calls
            && (forall i :: 0 <= i < n ==> !Serves(t.chans[i]))
            && (forall i :: 0 <= i < |s.chans| && (i >= n || !Serves(s.chans[i])) ==> t.chans[i] == s.chans[i])
            && (forall i :: 0 <= i < n && Serves(s.chans[i]) && s.chans[i].callback.Some? ==>
                              s.chans[i].callback.value in t.calls)
    decreases n
  {
    if n > 0 {
      var m, u := n - 1, IrqStep(s, n - 1);
      IrqServesOne(s, m);
      IrqServesAll(u, m);
      var t := IrqAll(u, m);
      assert IrqAll(s, n) == t;
      forall i | 0 <= i < n && Serves(s.chans[i]) && s.chans[i].callback.Some?
        ensures s.chans[i].callback.value in t.calls
      {
        if i < m {
          assert u.chans[i] == s.chans[i];
        } else {
          assert t.calls[|s.calls|] == u.calls[|s.calls|] == s.chans[m].callback.value;
        }
      }
    }
  }

  // ---- One call of the handler, with the callbacks ----

  lemma RunOneMore(s: State, run: seq<Step>, e: Step)
    requires OnChannels(run, |s.chans|) && e.chan < |s.chans|
    ensures OnChannels(run + [e], |s.chans|) && Run(s, run + [e]) == Next(Run(s, run), e)
    ensures IrqChannels(run + [e]) == IrqChannels(run) + if e.Irq? then [e.chan] else []
  {
    assert (run + [e])[..|run|] == run;
  }

  /** The channels that the handler has come to, in order. */
  function IrqChannels(run: seq<Step>): seq<nat> {
    if run == [] then []
    else IrqChannels(run[..|run| - 1]) + if run[|run| - 1].Irq? then [run[|run| - 1].chan] else []
  }

  /** From the highest of `n` channels down to `k`. */
  function Downwards(n: nat, k: nat): seq<nat>
    requires k <= n
  {
    seq(n - k, i requires 0 <= i < n - k => n - 1 - i)
  }

  lemma OneFurtherDown(n: nat, k: nat)
    requires 0 < k <= n
    ensures Downwards(n, k - 1) == Downwards(n, k) + [k - 1]
  {
  }

  /** `run` goes on from `run0` with calls of the driver's interface. */
  predicate Calls(run0: seq<Step>, run: seq<Step>) {
    run0 <= run && forall i :: |run0| <= i < |run| ==> run[i].Set? || run[i].Cancel?
  }

  predicate HasMatch(run: seq<Step>) {
    exists i :: 0 <= i < |run| && run[i].Match?
  }

  /** The handler has nothing to serve. */
  predicate NoneDue(chans: seq<Channel>) {
    forall i :: 0 <= i < |chans| ==> !Serves(chans[i])
  }

  predicate Quiet(run: seq<Step>) {
    forall i :: 0 <= i < |run| ==> run[i].Irq?
  }

  lemma NoCalls(run0: seq<Step>, run: seq<Step>)
    requires Calls(run0, run)
    ensures Quiet(run) ==> run == run0
    ensures !HasMatch(run0) ==> !HasMatch(run)
  {
    if run != run0 {
      assert !run[|run0|].Irq?;
    }
  }

  // ---- The driver ----

  class Counter {
    var chans: seq<Channel>
    var accepted: nat       // tells the alarms apart
    var top: uint32
    var guard: uint32
    var overflow: bool      // the flag of the update event, with its interrupt enabled
    var topCallback: bool   // there is a callback for it
    ghost var fates: seq<Fate>
    ghost var calls: seq<nat>
    ghost var topCalls: nat

    ghost predicate Valid()
      reads this
    {
      accepted == |fates| && guard <= top
    }

    ghost function Abs(): State
      reads this
    {
      State(chans, fates, calls)
    }

    constructor (channels: nat, top: uint32)
      ensures Valid() && Abs() == Reset(channels) && this.top == top && guard == 0
      ensures !overflow && !topCallback && topCalls == 0
    {
      chans := seq(channels, _ => Channel(None, 0, false, false, false));
      accepted, fates, calls := 0, [], [];
      overflow, topCallback, topCalls := false, false, 0;
      this.top, guard := top, 0;
    }

    /** The counter register, which moves on its own. */
    method Read() returns (value: uint32)
      ensures value <= top
    {
      value :| value <= top;
    }

    method SetAlarm(chan: nat, cfg: AlarmCfg) returns (rc: int, ghost now: uint32, ghost later: uint32)
      requires Valid() && chan < |chans|
      modifies this`chans, this`accepted, this`fates
      ensures Valid() && now <= top && later <= top
      ensures Abs() == SetStep(old(Abs()), chan, cfg, now, later, top, guard)
      ensures rc == SetResult(old(Abs()), chan, cfg, now, later, top, guard)
    {
      now, later := 0, 0;
      if cfg.ticks > top {
        return EINVAL, now, later;
      }
      if chans[chan].callback.Some? {
        return EBUSY, now, later;
      }
      var c := chans[chan];
      chans := chans[chan := c.(callback := Some(accepted))];
      fates := fates + [Registered(chan)];
      accepted := accepted + 1;
      rc, now, later := SetCc(chan, cfg);
    }

    /** Programs the compare register and finds out whether the alarm came too late. */
    method SetCc(chan: nat, cfg: AlarmCfg) returns (rc: int, ghost now: uint32, ghost later: uint32)
      requires Valid() && chan < |chans| && accepted > 0
      requires chans[chan].callback == Some(accepted - 1) && fates[accepted - 1] == Registered(chan)
      modifies this`chans, this`fates
      ensures Valid() && now <= top && later <= top
      ensures rc == if cfg.absolute && IsLate(cfg, now, later, top, guard) then ETIME else 0
      ensures var d, c := Decide(cfg, now, later, top, guard),
                          old(chans[chan]).(compare := CompareValue(cfg, now, top), flag := false);
              && chans == old(chans)[chan := match d
                                             case Armed => c.(it := true)
                                             case Pending => c.(pending := true)
                                             case Dropped => c.(callback := None)]
              && fates == if d == Dropped then old(fates)[accepted - 1 := Lost] else old(fates)
    {
      rc := 0;
      var ticks := cfg.ticks;
      var first := Read();
      now := first;
      var c := chans[chan];
      c := c.(compare := first, flag := false);
      var maxRel, irqOnLate;
      if cfg.absolute {
        maxRel := U32(top - guard);
        irqOnLate := cfg.expireWhenLate;
      } else {
        irqOnLate := ticks < top / 2;
        maxRel := if irqOnLate then top / 2 else top;
        ticks := TicksAdd(first, ticks, top);
      }
      c := c.(compare := ticks);
      var second := Read();
      later := second;
      var diff := TicksSub(U32(ticks - 1), second, top);
      if diff > maxRel {
        if cfg.absolute {
          rc := ETIME;
        }
        if irqOnLate {
          c := c.(pending := true);
        } else {
          c := c.(callback := None);
          fates := fates[accepted - 1 := Lost];
        }
      } else {
        c := c.(it := true);
      }
      chans := chans[chan := c];
    }

    method CancelAlarm(chan: nat) returns (rc: int)
      requires Valid() && chan < |chans|
      modifies this`chans, this`fates
      ensures Valid() && Abs() == CancelStep(old(Abs()), chan) && rc == 0
    {
      var id := chans[chan].callback;
      chans := chans[chan := chans[chan].(it := false)];
      chans := chans[chan := chans[chan].(callback := None)];
      if id.Some? && id.value < accepted {
        fates := fates[id.value := Cancelled];
      }
      rc := 0;
    }

    /** The handler's part for one channel; `called` is the alarm called back, if any. */
    method CcIrqHandle(chan: nat) returns (called: Option<nat>)
      requires Valid() && chan < |chans|
      modifies this`chans, this`fates, this`calls
      ensures Valid() && Abs() == IrqStep(old(Abs()), chan)
      ensures called == if Serves(old(chans[chan])) then old(chans[chan]).callback else None
    {
      called := None;
      var c := chans[chan];
      if (c.flag && c.it) || c.pending {
        if c.flag && c.it {
          c := c.(flag := false);
        }
        c := c.(pending := false);
        c := c.(it := false);
        called := c.callback;
        c := c.(callback := None);
        chans := chans[chan := c];
        if called.Some? {
          if called.value < accepted {
            fates := fates[called.value := Called];
          }
          calls := calls + [called.value];
        }
      }
    }

    /** Any call of set_alarm or cancel_alarm. */
    method Call(ghost s0: State, ghost run0: seq<Step>) returns (ghost run: seq<Step>)
      requires Valid() && OnChannels(run0, |s0.chans|) && Abs() == Run(s0, run0) && |chans| > 0
      modifies this`chans, this`accepted, this`fates
      ensures Valid() && OnChannels(run, |s0.chans|) && Abs() == Run(s0, run)
      ensures Calls(run0, run) && IrqChannels(run) == IrqChannels(run0)
    {
      var chan: nat :| chan < |chans|;
      var cfg: AlarmCfg :| true;
      var sets: bool :| true;
      if sets {
        var rc;
        ghost var now, later;
        rc, now, later := SetAlarm(chan, cfg);
        run := run0 + [Set(chan, cfg, now, later, top, guard)];
        RunOneMore(s0, run0, Set(chan, cfg, now, later, top, guard));
      } else {
        var rc := CancelAlarm(chan);
        run := run0 + [Cancel(chan)];
        RunOneMore(s0, run0, Cancel(chan));
      }
    }

    /** A callback of the user: any calls of the interface. */
    method Callback(ghost s0: State, ghost run0: seq<Step>) returns (ghost run: seq<Step>)
      requires Valid() && OnChannels(run0, |s0.chans|) && Abs() == Run(s0, run0)
      modifies this`chans, this`accepted, this`fates
      ensures Valid() && OnChannels(run, |s0.chans|) && Abs() == Run(s0, run)
      ensures Calls(run0, run) && IrqChannels(run) == IrqChannels(run0)
    {
      run := run0;
      var n: nat :| true;
      while n > 0 && |chans| > 0
        invariant Valid() && OnChannels(run, |s0.chans|) && Abs() == Run(s0, run)
        invariant Calls(run0, run) && IrqChannels(run) == IrqChannels(run0)
      {
        run := Call(s0, run);
        n := n - 1;
      }
    }

    /** One channel of the handler, with the callback if it makes one. */
    method ServeOne(chan: nat, ghost s0: State, ghost run0: seq<Step>) returns (ghost run: seq<Step>)
      requires Valid() && chan < |chans| && OnChannels(run0, |s0.chans|) && Abs() == Run(s0, run0)
      modifies this`chans, this`accepted, this`fates, this`calls
      ensures Valid() && OnChannels(run, |s0.chans|) && Abs() == Run(s0, run)
      ensures Calls(run0 + [Irq(chan)], run) && IrqChannels(run) == IrqChannels(run0) + [chan]
      ensures !Serves(old(chans[chan])) ==> run == run0 + [Irq(chan)] && Abs() == old(Abs())
    {
      var called := CcIrqHandle(chan);
      run := run0 + [Irq(chan)];
      RunOneMore(s0, run0, Irq(chan));
      if called.Some? {
        run := Callback(s0, run);
      }
    }

    /** The channels from the highest to the lowest. */
    method ServeAll() returns (ghost run: seq<Step>)
      requires Valid()
      modifies this`chans, this`accepted, this`fates, this`calls
      ensures Valid() && OnChannels(run, |old(chans)|) && Abs() == Run(old(Abs()), run)
      ensures IrqChannels(run) == Downwards(|old(chans)|, 0) && !HasMatch(run)
      ensures Quiet(run) ==> Abs() == IrqAll(old(Abs()), |old(chans)|)
      ensures NoneDue(old(chans)) ==> Quiet(run) && Abs() == old(Abs())
    {
      ghost var s0 := Abs();
      var k := |chans|;
      run := [];
      while k > 0
        invariant 0 <= k <= |chans| == |s0.chans|
        invariant Valid() && OnChannels(run, |s0.chans|) && Abs() == Run(s0, run)
        invariant IrqChannels(run) == Downwards(|s0.chans|, k) && !HasMatch(run)
        invariant Quiet(run) ==> IrqAll(Abs(), k) == IrqAll(s0, |s0.chans|)
        invariant NoneDue(s0.chans) ==> Quiet(run) && Abs() == s0
      {
        OneFurtherDown(|s0.chans|, k);
        k := k - 1;
        ghost var run1 := run;
        run := ServeOne(k, s0, run1);
        RunOneMore(s0, run1, Irq(k));
        NoCalls(run1 + [Irq(k)], run);
        assert Quiet(run) ==> forall i :: 0 <= i < |run1| ==> run1[i] == run[i];
      }
    }

    /**
     The interrupt handler: the channels, then the update event. Callbacks may set and cancel alarms; `run` is all that
     happens, and one pass over the channels if they do not.
     */
    method IrqHandler() returns (ghost run: seq<Step>)
      requires Valid() && (overflow ==> topCallback)
      modifies this`chans, this`accepted, this`fates, this`calls, this`overflow, this`topCalls
      ensures Valid() && OnChannels(run, |old(chans)|) && Abs() == Run(old(Abs()), run)
      ensures IrqChannels(run) == Downwards(|old(chans)|, 0) && !HasMatch(run)
      ensures Quiet(run) ==> Abs() == IrqAll(old(Abs()), |old(chans)|)
      ensures NoneDue(old(chans)) && !old(overflow) ==> Quiet(run) && Abs() == old(Abs())
      ensures !overflow && topCalls == old(topCalls) + if old(overflow) then 1 else 0
    {
      run := ServeAll();
      if overflow {
        ghost var run1 := run;
        overflow := false;
        topCalls := topCalls + 1;
        run := Callback(old(Abs()), run1);
        NoCalls(run1, run);
      }
    }
  }
}
