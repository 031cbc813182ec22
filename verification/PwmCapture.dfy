/** PWM capture with four-channel support: the interrupt handler's state machine against the history of what it saw. */
module PwmCapture {
  import opened MachineInt

  datatype Phase = Idle | WaitForUpdateEvent | WaitForPulseStart | WaitForPeriodEnd

  /**
   What one interrupt finds: the overflow flag, the capture flag of the channel, and the captured counts of the channel
   itself, which is the period, and of its complementary channel, which is the pulse.
   */
  datatype Seen = Seen(overflow: bool, capture: bool, period: uint32, pulse: uint32)

  datatype Callback = Callback(period: uint32, pulse: uint32, status: int)

  datatype Machine = Machine(phase: Phase, overflows: uint32)

  /** The configuration: whether there is a callback, the mode, and which counts it wants. */
  datatype Config = Config(callback: bool, continuous: bool, wantPeriod: bool, wantPulse: bool)

  /** The state machine, the latched counts, the enables of the capture and overflow interrupts, and the callbacks. */
  datatype Cap = Cap(m: Machine, period: uint32, pulse: uint32, captureInt: bool, overflowInt: bool,
                     calls: seq<Callback>)

  const START := Machine(WaitForPulseStart, 0)

  /** The overflow part of the handler: the first one after the reset of the counter is taken for that reset. */
  function OverflowStep(m: Machine, overflow: bool): Machine {
    if !overflow then m
    else if m.phase == WaitForUpdateEvent then m.(phase := WaitForPeriodEnd)
    else m.(overflows := U32(m.overflows + 1))
  }

  /** The capture part. */
  function CaptureStep(m: Machine, capture: bool): Machine {
    if !capture || m.phase == Idle then m
    else m.(phase := if m.phase == WaitForPulseStart then WaitForUpdateEvent else Idle)
  }

  function MachineStep(m: Machine, s: Seen): Machine {
    CaptureStep(OverflowStep(m, s.overflow), s.capture)
  }

  function Status(overflows: uint32): int {
    if overflows != 0 then ERANGE else 0
  }

  /** The counts are latched by the capture that ends the period. */
  function LatchStep(c: Cap, s: Seen): Cap {
    var m := MachineStep(c.m, s);
    if m.phase == Idle && c.m.phase != Idle then c.(m := m, period := s.period, pulse := s.pulse) else c.(m := m)
  }

  /** The callback made with these counts, if there is one. */
  function Report(cfg: Config, period: uint32, pulse: uint32, overflows: uint32): seq<Callback> {
    if !cfg.callback then []
    else
      [Callback(if cfg.wantPeriod then period else 0, if cfg.wantPulse then pulse else 0, Status(overflows))]
  }

  function ReportStep(cfg: Config, c: Cap): Cap {
    var calls := c.calls + Report(cfg, c.period, c.pulse, c.m.overflows);
    if cfg.continuous then c.(m := START, calls := calls)
    else c.(captureInt := false, overflowInt := false, calls := calls)
  }

  /** pwm_at32_isr. */
  function IsrStep(cfg: Config, c: Cap, s: Seen): Cap {
    var d := LatchStep(c, s);
    if d.m.phase != Idle then d else ReportStep(cfg, d)
  }

  function Isrs(cfg: Config, c: Cap, h: seq<Seen>): Cap {
    if h == [] then c else IsrStep(cfg, Isrs(cfg, c, h[..|h| - 1]), h[|h| - 1])
  }

  // ---- The history ----

  function Captures(h: seq<Seen>): nat {
    if h == [] then 0 else Captures(h[..|h| - 1]) + if h[|h| - 1].capture then 1 else 0
  }

  function Overflows(h: seq<Seen>): nat {
    if h == [] then 0 else Overflows(h[..|h| - 1]) + if h[|h| - 1].overflow then 1 else 0
  }

  /** The overflows after the first interrupt that saw a capture. */
  function OverflowsAfterPulse(h: seq<Seen>): nat {
    if h == [] then 0
    else
      OverflowsAfterPulse(h[..|h| - 1])
      + if h[|h| - 1].overflow && Captures(h[..|h| - 1]) > 0 then 1 else 0
  }

  /** The overflows that count: all of them but the first after the pulse start, which stands for the reset. */
  function Counted(h: seq<Seen>): nat {
    Max(0, Overflows(h) - if OverflowsAfterPulse(h) > 0 then 1 else 0)
  }

  lemma {:induction false} AfterPulseIsSome(h: seq<Seen>)
    ensures OverflowsAfterPulse(h) <= Overflows(h)
    ensures Captures(h) == 0 ==> OverflowsAfterPulse(h) == 0
  {
    if h != [] {
      AfterPulseIsSome(h[..|h| - 1]);
    }
  }

  /** The state that a history with at most one capture leads to. */
  function MachineAfter(h: seq<Seen>): Machine {
    Machine(if Captures(h) == 0 then WaitForPulseStart
            else if OverflowsAfterPulse(h) == 0 then WaitForUpdateEvent
            else WaitForPeriodEnd,
            U32(Counted(h)))
  }

  lemma OneMoreSeen(init: seq<Seen>, s: Seen)
    ensures (init + [s])[..|init|] == init
    ensures Captures(init + [s]) == Captures(init) + if s.capture then 1 else 0
    ensures Overflows(init + [s]) == Overflows(init) + if s.overflow then 1 else 0
    ensures OverflowsAfterPulse(init + [s])
         == OverflowsAfterPulse(init) + if s.overflow && Captures(init) > 0 then 1 else 0
  {
    assert (init + [s])[..|init|] == init;
  }

  lemma CountedOneMore(init: seq<Seen>, s: Seen)
    ensures Counted(init + [s]) == Counted(init)
              + if s.overflow && (Captures(init) == 0 || OverflowsAfterPulse(init) > 0) then 1 else 0
  {
    OneMoreSeen(init, s);
    AfterPulseIsSome(init);
  }

  lemma WrapOneMore(x: nat)
    ensures U32(U32(x) + 1) == U32(x + 1)
  {
  }

  lemma MachineAfterOneMore(init: seq<Seen>, s: Seen)
    requires Captures(init + [s]) <= 1
    ensures MachineStep(MachineAfter(init), s) == MachineAfter(init + [s])
  {
    OneMoreSeen(init, s);
    AfterPulseIsSome(init);
    CountedOneMore(init, s);
    WrapOneMore(Counted(init));
  }

  /** Until the second capture the handler makes no callback, and its state tells the history. */
  lemma {:induction false} BeforeSecondCapture(cfg: Config, c: Cap, h: seq<Seen>)
    requires c.m == START && Captures(h) <= 1
    ensures Isrs(cfg, c, h) == c.(m := MachineAfter(h))
  {
    if h != [] {
      var init, s := h[..|h| - 1], h[|h| - 1];
      assert init + [s] == h;
      OneMoreSeen(init, s);
      BeforeSecondCapture(cfg, c, init);
      MachineAfterOneMore(init, s);
    }
  }

  /**
   The second capture since the start makes the one callback. Its status is an overflow error exactly when
   overflows counted (in 32 bits) in that span. A continuous capture starts afresh; a one-shot capture turns its
   interrupts off.
   */
  lemma SecondCaptureReports(cfg: Config, c: Cap, h: seq<Seen>, s: Seen)
    requires c.m == START && Captures(h) == 1 && s.capture
    ensures var d := Isrs(cfg, c, h + [s]);
            && d.calls == c.calls + Report(cfg, s.period, s.pulse, U32(Counted(h + [s])))
            && (if cfg.continuous then d.m == START && d.captureInt == c.captureInt && d.overflowInt == c.overflowInt
                else d.m.phase == Idle && !d.captureInt && !d.overflowInt)
  {
    BeforeSecondCapture(cfg, c, h);
    var b := Isrs(cfg, c, h);
    assert (h + [s])[..|h|] == h;
    assert Isrs(cfg, c, h + [s]) == IsrStep(cfg, b, s);
    MachineAtSecond(h, s);
  }

  lemma MachineAtSecond(h: seq<Seen>, s: Seen)
    requires Captures(h) == 1 && s.capture
    ensures MachineStep(MachineAfter(h), s) == Machine(Idle, U32(Counted(h + [s])))
  {
    CountedOneMore(h, s);
    WrapOneMore(Counted(h));
  }

  /** The callback gives the period as the period and the pulse as the pulse, as far as they are wanted. */
  predicate Gives(cfg: Config, call: Callback, s: Seen) {
    call.period == (if cfg.wantPeriod then s.period else 0) && call.pulse == (if cfg.wantPulse then s.pulse else 0)
  }

  /** The callback of the second capture gives the counts that this capture found. */
  lemma SecondCaptureGives(cfg: Config, c: Cap, h: seq<Seen>, s: Seen)
    requires cfg.callback && c.m == START && Captures(h) == 1 && s.capture
    ensures var d := Isrs(cfg, c, h + [s]);
            |d.calls| == |c.calls| + 1 && c.calls <= d.calls && Gives(cfg, d.calls[|c.calls|], s)
  {
    SecondCaptureReports(cfg, c, h, s);
  }

  lemma StatusAtSecond(cfg: Config, c: Cap, h: seq<Seen>, s: Seen)
    requires cfg.callback && c.m == START && Captures(h) == 1 && s.capture
    ensures var d := Isrs(cfg, c, h + [s]);
            |d.calls| == |c.calls| + 1 && d.calls[|c.calls|].status == Status(U32(Counted(h + [s])))
  {
    SecondCaptureReports(cfg, c, h, s);
  }

  /**
   The overflow flag is raised by real overflows only, so those after the pulse start are the overflows of the measured
   period. The status says whether there were any exactly when, with one of them, the other overflows since the start
   are not a multiple of 2^32, and, with none, all of them are.
   */
  lemma StatusIsRightIff(cfg: Config, c: Cap, h: seq<Seen>, s: Seen)
    requires cfg.callback && c.m == START && Captures(h) == 1 && s.capture
    ensures var d, n, measured := Isrs(cfg, c, h + [s]), Overflows(h + [s]), OverflowsAfterPulse(h + [s]);
            && |d.calls| == |c.calls| + 1 && measured <= n
            && ((d.calls[|c.calls|].status == ERANGE <==> measured > 0)
                <==> if measured > 0 then U32(n - 1) != 0 else U32(n) == 0)
  {
    StatusAtSecond(cfg, c, h, s);
    AfterPulseIsSome(h + [s]);
  }

  /**
   With fewer than 2^32 overflows: a measured period with an overflow is reported without an error exactly when it is
   the only one since the start, and one without any is reported with an error exactly when the wait for the pulse had
   one.
   */
  lemma OverflowMissedIff(cfg: Config, c: Cap, h: seq<Seen>, s: Seen)
    requires cfg.callback && c.m == START && Captures(h) == 1 && s.capture && Overflows(h + [s]) < TWO_TO_THE_32
    ensures var d, n, measured := Isrs(cfg, c, h + [s]), Overflows(h + [s]), OverflowsAfterPulse(h + [s]);
            && |d.calls| == |c.calls| + 1
            && (measured > 0 ==> (d.calls[|c.calls|].status == 0 <==> n == measured == 1))
            && (measured == 0 ==> (d.calls[|c.calls|].status == ERANGE <==> n > 0))
  {
    StatusAtSecond(cfg, c, h, s);
    AfterPulseIsSome(h + [s]);
    U32Fits(Counted(h + [s]));
  }

  /** A history from a start, cut at every second capture. */
  predicate Spans(spans: seq<seq<Seen>>) {
    forall i :: 0 <= i < |spans| ==>
      spans[i] != [] && Captures(spans[i][..|spans[i]| - 1]) == 1 && spans[i][|spans[i]| - 1].capture
  }

  function Join(spans: seq<seq<Seen>>): seq<Seen> {
    if spans == [] then [] else Join(spans[..|spans| - 1]) + spans[|spans| - 1]
  }

  lemma {:induction false} IsrsConcat(cfg: Config, c: Cap, g: seq<Seen>, h: seq<Seen>)
    ensures Isrs(cfg, c, g + h) == Isrs(cfg, Isrs(cfg, c, g), h)
  {
    if h == [] {
      assert g + h == g;
    } else {
      IsrsConcat(cfg, c, g, h[..|h| - 1]);
      assert (g + h)[..|g + h| - 1] == g + h[..|h| - 1];
    }
  }

  /** A whole span adds its one callback. */
  lemma SpanReports(cfg: Config, c: Cap, span: seq<Seen>)
    requires cfg.callback && cfg.continuous && c.m == START && Spans([span])
    ensures var d := Isrs(cfg, c, span);
            && d.m == START && |d.calls| == |c.calls| + 1 && c.calls <= d.calls
            && (d.calls[|c.calls|].status == ERANGE <==> U32(Counted(span)) != 0)
            && Gives(cfg, d.calls[|c.calls|], span[|span| - 1])
  {
    assert [span][0] == span;
    var h, s := span[..|span| - 1], span[|span| - 1];
    assert h + [s] == span;
    SecondCaptureReports(cfg, c, h, s);
    SecondCaptureGives(cfg, c, h, s);
  }

  /**
   The callbacks `after` are those `before` and one for each span, with the counts of its last capture and the status
   that its overflows call for.
   */
  predicate Reported(cfg: Config, before: seq<Callback>, after: seq<Callback>, spans: seq<seq<Seen>>)
    requires Spans(spans)
  {
    && |after| == |before| + |spans| && before <= after
    && forall i :: 0 <= i < |spans| ==>
         && (after[|before| + i].status == ERANGE <==> U32(Counted(spans[i])) != 0)
         && Gives(cfg, after[|before| + i], spans[i][|spans[i]| - 1])
  }

  lemma ReportedOneMore(cfg: Config, before: seq<Callback>, mid: seq<Callback>, after: seq<Callback>,
                        init: seq<seq<Seen>>, last: seq<Seen>)
    requires Spans(init) && Spans(init + [last])
    requires Reported(cfg, before, mid, init) && |after| == |mid| + 1 && mid <= after
    requires last != [] && Gives(cfg, after[|mid|], last[|last| - 1])
    requires after[|mid|].status == ERANGE <==> U32(Counted(last)) != 0
    ensures Reported(cfg, before, after, init + [last])
  {
  }

  lemma OneMoreSpan(cfg: Config, c: Cap, init: seq<seq<Seen>>, last: seq<Seen>)
    requires cfg.callback && cfg.continuous && Spans([last]) && Spans(init) && Spans(init + [last])
    requires Isrs(cfg, c, Join(init)).m == START && Reported(cfg, c.calls, Isrs(cfg, c, Join(init)).calls, init)
    ensures var d := Isrs(cfg, c, Join(init + [last]));
            d.m == START && Reported(cfg, c.calls, d.calls, init + [last])
  {
    var e := Isrs(cfg, c, Join(init));
    SpanReports(cfg, e, last);
    var d := Isrs(cfg, e, last);
    assert [last][0] == last;
    ReportedOneMore(cfg, c.calls, e.calls, d.calls, init, last);
    assert (init + [last])[..|init|] == init;
    assert Isrs(cfg, c, Join(init + [last])) == d by {
      IsrsConcat(cfg, c, Join(init), last);
    }
  }

  lemma {:induction false} WholeSpans(cfg: Config, c: Cap, spans: seq<seq<Seen>>)
    requires cfg.callback && cfg.continuous && c.m == START && Spans(spans)
    ensures Isrs(cfg, c, Join(spans)).m == START && Reported(cfg, c.calls, Isrs(cfg, c, Join(spans)).calls, spans)
  {
    if spans != [] {
      var init, last := spans[..|spans| - 1], spans[|spans| - 1];
      SpansSplit(spans);
      WholeSpans(cfg, c, init);
      OneMoreSpan(cfg, c, init, last);
    }
  }

  lemma SpansSplit(spans: seq<seq<Seen>>)
    requires spans != [] && Spans(spans)
    ensures var init, last := spans[..|spans| - 1], spans[|spans| - 1];
            Spans(init) && Spans([last]) && init + [last] == spans
  {
    assert forall i :: 0 <= i < |spans| - 1 ==> spans[..|spans| - 1][i] == spans[i];
  }

  /**
   Over every history of a continuous capture, cut at every second capture: one callback for each span, the
   status of each decided by the overflows of its own span, and none for the open rest.
   */
  lemma ContinuousCapture(cfg: Config, c: Cap, spans: seq<seq<Seen>>, rest: seq<Seen>)
    requires cfg.callback && cfg.continuous && c.m == START && Spans(spans) && Captures(rest) <= 1
    ensures var d := Isrs(cfg, c, Join(spans) + rest);
            d.m == MachineAfter(rest) && Reported(cfg, c.calls, d.calls, spans)
  {
    IsrsConcat(cfg, c, Join(spans), rest);
    WholeSpans(cfg, c, spans);
    BeforeSecondCapture(cfg, Isrs(cfg, c, Join(spans)), rest);
  }

  /** An interrupt comes only while one of its sources is both raised and enabled. */
  predicate Possible(c: Cap, s: Seen) {
    (s.overflow && c.overflowInt) || (s.capture && c.captureInt)
  }

  predicate IsRun(cfg: Config, c: Cap, h: seq<Seen>) {
    h == [] || (IsRun(cfg, c, h[..|h| - 1]) && Possible(Isrs(cfg, c, h[..|h| - 1]), h[|h| - 1]))
  }

  /** A one-shot capture calls back at most once: its interrupts are off from then on, so no further one comes. */
  lemma {:induction false} OneShotOnce(cfg: Config, c: Cap, h: seq<Seen>)
    requires !cfg.continuous && c.m == START && IsRun(cfg, c, h)
    ensures |Isrs(cfg, c, h).calls| == |c.calls| + (if Captures(h) >= 2 && cfg.callback then 1 else 0)
    ensures Captures(h) <= 2 && (Captures(h) == 2 ==> h[|h| - 1].capture && Captures(h[..|h| - 1]) == 1)
  {
    if h != [] {
      var init, s := h[..|h| - 1], h[|h| - 1];
      assert init + [s] == h;
      OneShotOnce(cfg, c, init);
      if Captures(init) == 2 {
        var g, t := init[..|init| - 1], init[|init| - 1];
        assert g + [t] == init;
        SecondCaptureReports(cfg, c, g, t);
      } else if Captures(h) == 2 {
        SecondCaptureReports(cfg, c, init, s);
      } else {
        BeforeSecondCapture(cfg, c, h);
      }
    }
  }

  /** Only the enables prevent it: a handler run in the idle state reports the same capture again. */
  lemma IdleHandlerReportsAgain(cfg: Config, c: Cap, s: Seen)
    requires cfg.callback && !cfg.continuous && c.m.phase == Idle
    ensures |IsrStep(cfg, c, s).calls| == |c.calls| + 1
  {
  }

  // ---- The driver ----

  /** The channel whose captures end the pulse: the driver's table. */
  function Complementary(channel: nat): nat
    requires 1 <= channel <= 4
  {
    [0, 2, 1, 4, 3][channel]
  }

  /** The channels are paired 1 with 2 and 3 with 4. */
  lemma ChannelsArePaired(channel: nat)
    requires 1 <= channel <= 4
    ensures Complementary(channel) == if channel % 2 == 1 then channel + 1 else channel - 1
  {
  }

  class Capture {
    var phase: Phase
    var overflows: uint32
    var continuous: bool
    var wantPeriod: bool
    var wantPulse: bool
    var configured: bool          // a callback has been given
    var channel: nat
    var period: uint32
    var pulse: uint32
    var captureInts: seq<bool>    // the enables of the four channels' interrupts
    var channelsOn: seq<bool>     // and of the channels themselves
    var overflowInt: bool
    var overflowOnly: bool        // the overflow request source: the counter's own overflows only
    ghost var calls: seq<Callback>

    ghost predicate Valid()
      reads this
    {
      |captureInts| == |channelsOn| == 4
    }

    ghost function Abs(): Cap
      requires Valid() && 1 <= channel <= 4
      reads this
    {
      Cap(Machine(phase, overflows), period, pulse, captureInts[channel - 1], overflowInt, calls)
    }

    function Cfg(): Config
      reads this
    {
      Config(configured, continuous, wantPeriod, wantPulse)
    }

    /** The two channels of a capture. */
    method SwitchChannels(chan: nat, on: bool)
      requires Valid() && 1 <= chan <= 4
      modifies this`channelsOn
      ensures channelsOn == old(channelsOn)[chan - 1 := on][Complementary(chan) - 1 := on]
    {
      channelsOn := channelsOn[chan - 1 := on];
      channelsOn := channelsOn[Complementary(chan) - 1 := on];
    }

    method EnableCapture(chan: nat) returns (rc: int)
      requires Valid()
      modifies this
      ensures Valid() && Cfg() == old(Cfg()) && calls == old(calls)
      ensures rc == if chan < 1 || chan > 4 then ENOTSUP
                    else if exists i :: 0 <= i < 4 && old(captureInts)[i] then EBUSY
                    else if !old(configured) then EINVAL
                    else 0
      ensures rc == 0 ==> channel == chan && Abs().m == START && Abs().captureInt && Abs().overflowInt && overflowOnly
      ensures rc == 0 ==> forall i :: 0 <= i < 4 ==> (captureInts[i] <==> i == chan - 1)
      ensures rc == 0 ==> channelsOn == old(channelsOn)[chan - 1 := true][Complementary(chan) - 1 := true]
      ensures rc != 0 ==> channel == old(channel) && captureInts == old(captureInts) && channelsOn == old(channelsOn)
                          && overflowInt == old(overflowInt) && phase == old(phase) && overflows == old(overflows)
    {
      if chan < 1 || chan > 4 {
        return ENOTSUP;
      }
      if captureInts[0] || captureInts[1] || captureInts[2] || captureInts[3] {
        return EBUSY;
      }
      if !configured {
        return EINVAL;
      }
      channel := chan;
      phase := WaitForPulseStart;
      overflows := 0;
      overflowOnly := true;
      captureInts := captureInts[chan - 1 := true];
      SwitchChannels(chan, true);
      overflowInt := true;
      return 0;
    }

    method DisableCapture(chan: nat) returns (rc: int)
      requires Valid()
      modifies this`captureInts, this`channelsOn, this`overflowInt, this`overflowOnly
      ensures Valid() && rc == if chan < 1 || chan > 4 then ENOTSUP else 0
      ensures rc == 0 ==> captureInts == old(captureInts)[chan - 1 := false] && !overflowInt && !overflowOnly
                          && channelsOn == old(channelsOn)[chan - 1 := false][Complementary(chan) - 1 := false]
      ensures rc != 0 ==> captureInts == old(captureInts) && channelsOn == old(channelsOn)
                          && overflowInt == old(overflowInt) && overflowOnly == old(overflowOnly)
    {
      if chan < 1 || chan > 4 {
        return ENOTSUP;
      }
      overflowOnly := false;
      captureInts := captureInts[chan - 1 := false];
      overflowInt := false;
      SwitchChannels(chan, false);
      return 0;
    }

    /** The handler's reading of the flags and its state machine. */
    method Track(s: Seen)
      requires Valid() && 1 <= channel <= 4
      modifies this`phase, this`overflows, this`period, this`pulse
      ensures Abs() == LatchStep(old(Abs()), s)
    {
      if s.overflow {
        if phase == WaitForUpdateEvent {
          phase := WaitForPeriodEnd;
        } else {
          overflows := U32(overflows + 1);
        }
      }
      if phase == WaitForPulseStart && s.capture {
        phase := WaitForUpdateEvent;
      } else if (phase == WaitForUpdateEvent || phase == WaitForPeriodEnd) && s.capture {
        phase := Idle;
        pulse := s.pulse;
        period := s.period;
      }
    }

    /** The capture is stopped or starts afresh, and is reported. */
    method Finish()
      requires Valid() && 1 <= channel <= 4
      modifies this
      ensures Valid() && channel == old(channel) && Cfg() == old(Cfg())
      ensures Abs() == ReportStep(Cfg(), old(Abs()))
    {
      var status := 0;
      if overflows != 0 {
        status := ERANGE;
      }
      if !continuous {
        var rc := DisableCapture(channel);
      } else {
        overflows := 0;
        phase := WaitForPulseStart;
      }
      if configured {
        calls := calls + [Callback(if wantPeriod then period else 0, if wantPulse then pulse else 0, status)];
      }
    }

    /** pwm_at32_isr. */
    method Isr(s: Seen)
      requires Valid() && 1 <= channel <= 4
      modifies this
      ensures Valid() && channel == old(channel) && Cfg() == old(Cfg())
      ensures Abs() == IsrStep(Cfg(), old(Abs()), s)
    {
      Track(s);
      if phase != Idle {
        return;
      }
      Finish();
    }
  }
}
