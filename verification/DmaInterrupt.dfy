/** The interrupt handler of the DMA driver: one status register, a nibble of flags for each channel. */
module DmaInterrupt {
  import opened MachineInt

  const CHANNELS := 7

  /** The three sources of a channel, in the order in which the handler looks at them. */
  datatype Kind = Half | Full | Err

  // ---- The bits ----

  /** A 32-bit register, bit by bit. */
  type Register = r: seq<bool> | |r| == 32 witness seq(32, _ => false)

  /** The bit of a source in a control register, and in the nibble of channel 0 in the status and clear registers. */
  function Bit(k: Kind): nat {
    match k
    case Full => 1
    case Half => 2
    case Err => 3
  }

  /** DMA_FLAG_ADD: shifted by one nibble for each channel. */
  function FlagAt(k: Kind, ch: nat): nat {
    Bit(k) + 4 * ch
  }

  /** What writing one flag to the clear register does to the status register. */
  function Clear(sts: Register, k: Kind, ch: nat): Register
    requires ch < CHANNELS
  {
    sts[FlagAt(k, ch) := false]
  }

  /** The nibble of channel `ch` in the status register. */
  function NibbleAt(sts: Register, ch: nat): Nibble
    requires ch < CHANNELS
  {
    Nibble(sts[FlagAt(Half, ch)], sts[FlagAt(Full, ch)], sts[FlagAt(Err, ch)])
  }

  /** Clearing a flag takes exactly that bit out of the nibbles. */
  lemma ClearIsExact(sts: Register, k: Kind, ch: nat, c: nat)
    requires ch < CHANNELS && c < CHANNELS
    ensures NibbleAt(Clear(sts, k, ch), c) == if c == ch then NibbleAt(sts, c).Without(k) else NibbleAt(sts, c)
  {
  }

  // ---- The channels ----

  /** One bit for each source. */
  datatype Nibble = Nibble(half: bool, full: bool, err: bool) {
    predicate Has(k: Kind) {
      match k
      case Half => half
      case Full => full
      case Err => err
    }

    function With(k: Kind): Nibble {
      match k
      case Half => this.(half := true)
      case Full => this.(full := true)
      case Err => this.(err := true)
    }

    function Without(k: Kind): Nibble {
      match k
      case Half => this.(half := false)
      case Full => this.(full := false)
      case Err => this.(err := false)
    }
  }

  /** A channel: its raised flags, its enabled interrupts, the busy mark, and whether it has a callback. */
  datatype Channel = Channel(flags: Nibble, enabled: Nibble, busy: bool, hasCallback: bool) {
    predicate Wants(k: Kind) {
      flags.Has(k) && enabled.Has(k)
    }

    /** The source that one pass of the handler serves. */
    function Served(): Option<Kind> {
      if Wants(Half) then Some(Half)
      else if Wants(Full) then Some(Full)
      else if Wants(Err) then Some(Err)
      else None
    }

    /** The pass makes its callback for this source. */
    predicate Calls(k: Kind) {
      hasCallback && Served() == Some(k)
    }

    function Serve(): Channel {
      match Served()
      case None => this
      case Some(k) => this.(flags := flags.Without(k), busy := busy && k == Half)
    }

    /** Configured: the full interrupt always, the half one for a reload, the error one never. */
    function Configured(reload: bool, callback: bool, keep: bool): Channel {
      Reset(keep).(enabled := Nibble(reload, true, false), hasCallback := callback)
    }

    function Reset(keep: bool): Channel {
      this.(flags := if keep then flags else Nibble(false, false, false), enabled := Nibble(false, false, false))
    }

    function Started(): Channel {
      this.(busy := true)
    }

    function Stopped(): Channel {
      this.(flags := flags.(half := false, full := false), enabled := enabled.(half := false, full := false),
            busy := false)
    }
  }

  /** The channels of the controller and the callbacks made, in order. */
  datatype Dma = Dma(chans: seq<Channel>, calls: seq<(nat, Kind)>)

  function ServeStep(s: Dma, ch: nat): Dma
    requires ch < |s.chans|
  {
    var c := s.chans[ch];
    Dma(s.chans[ch := c.Serve()],
        if c.Served().Some? && c.hasCallback then s.calls + [(ch, c.Served().value)] else s.calls)
  }

  /** The order in which the handler looks at the sources: half a transfer, a full one, an error. */
  function Rank(k: Kind): nat {
    match k
    case Half => 0
    case Full => 1
    case Err => 2
  }

  /** A pass serves the first wanted source in that order, and a later pass never one before it. */
  lemma ServedIsFirst(c: Channel, k: Kind)
    ensures c.Served() == Some(k) <==> c.Wants(k) && forall j :: c.Wants(j) ==> Rank(k) <= Rank(j)
    ensures c.Served() == Some(k) ==> forall j :: c.Serve().Served() == Some(j) ==> Rank(k) < Rank(j)
  {
  }

  /** The handler's pass over the channels below `n`. */
  function Pass(s: Dma, n: nat): (t: Dma)
    requires n <= |s.chans|
    ensures |t.chans| == |s.chans|
  {
    if n == 0 then s else ServeStep(Pass(s, n - 1), n - 1)
  }

  /** How often the callback of channel `ch` has been made for source `k`. */
  function Count(calls: seq<(nat, Kind)>, ch: nat, k: Kind): nat {
    multiset(calls)[(ch, k)]
  }

  function One(b: bool): nat {
    if b then 1 else 0
  }

  /**
   A pass serves exactly one wanted source of each channel, the half before the full before the error; it
   leaves the other channels alone, and makes one callback for each source that it serves.
   */
  lemma PassServesOneEach(s: Dma, n: nat)
    requires n <= |s.chans|
    ensures var t := Pass(s, n);
            && (forall i :: 0 <= i < |s.chans| ==> t.chans[i] == if i < n then s.chans[i].Serve() else s.chans[i])
            && (forall ch: nat, k :: Count(t.calls, ch, k) == Count(s.calls, ch, k)
                  + One(ch < n && s.chans[ch].Calls(k)))
  {
    PassServes(s, n);
    forall ch: nat, k
      ensures Count(Pass(s, n).calls, ch, k)
           == Count(s.calls, ch, k) + One(ch < n && s.chans[ch].Calls(k))
    {
      PassCounts(s, n, ch, k);
    }
  }

  lemma {:induction false} PassServes(s: Dma, n: nat)
    requires n <= |s.chans|
    ensures forall i :: 0 <= i < |s.chans| ==> Pass(s, n).chans[i] == if i < n then s.chans[i].Serve() else s.chans[i]
  {
    if n > 0 {
      PassServes(s, n - 1);
    }
  }

  lemma {:induction false} PassCounts(s: Dma, n: nat, ch: nat, k: Kind)
    requires n <= |s.chans|
    ensures Count(Pass(s, n).calls, ch, k)
         == Count(s.calls, ch, k) + One(ch < n && s.chans[ch].Calls(k))
  {
    if n > 0 {
      var t := Pass(s, n - 1);
      PassServes(s, n - 1);
      assert t.chans[n - 1] == s.chans[n - 1];
      PassCounts(s, n - 1, ch, k);
      ServeCounts(t, n - 1, ch, k);
    }
  }

  lemma ServeCounts(s: Dma, i: nat, ch: nat, k: Kind)
    requires i < |s.chans|
    ensures Count(ServeStep(s, i).calls, ch, k)
         == Count(s.calls, ch, k) + One(ch == i && s.chans[i].Calls(k))
  {
  }

  function Drain(s: Dma): Dma {
    var t := Pass(s, |s.chans|);
    var u := Pass(t, |t.chans|);
    Pass(u, |u.chans|)
  }

  /**
   While no new flag is raised, three passes serve every enabled flag: flags whose interrupt is off stay, and a
   channel stops being busy exactly when its full or error source was served.
   */
  lemma DrainServesAll(s: Dma)
    ensures var t := Drain(s);
            && |t.chans| == |s.chans|
            && (forall i, k :: 0 <= i < |s.chans| ==>
                  t.chans[i].flags.Has(k) == (s.chans[i].flags.Has(k) && !s.chans[i].enabled.Has(k)))
            && (forall i :: 0 <= i < |s.chans| ==>
                  t.chans[i].busy == (s.chans[i].busy && !s.chans[i].Wants(Full) && !s.chans[i].Wants(Err)))
  {
    ThreePasses(s);
    forall i, k | 0 <= i < |s.chans|
      ensures Drain(s).chans[i].flags.Has(k) == (s.chans[i].flags.Has(k) && !s.chans[i].enabled.Has(k))
    {
      ThreeServes(s.chans[i], k);
    }
    forall i | 0 <= i < |s.chans|
      ensures Drain(s).chans[i].busy == (s.chans[i].busy && !s.chans[i].Wants(Full) && !s.chans[i].Wants(Err))
    {
      ThreeServes(s.chans[i], Half);
    }
  }

  /** Each enabled flag gets exactly one callback in the three passes, if its channel has one. */
  lemma DrainCallsOnceEach(s: Dma, ch: nat, k: Kind)
    requires ch < |s.chans|
    ensures Count(Drain(s).calls, ch, k)
         == Count(s.calls, ch, k) + One(s.chans[ch].hasCallback && s.chans[ch].Wants(k))
  {
    ThreePasses(s);
    ThreeServes(s.chans[ch], k);
  }

  lemma ThreePasses(s: Dma)
    ensures var t := Drain(s);
            && |t.chans| == |s.chans|
            && (forall i :: 0 <= i < |s.chans| ==> t.chans[i] == s.chans[i].Serve().Serve().Serve())
            && (forall ch: nat, k :: ch < |s.chans| ==>
                  var c := s.chans[ch];
                  Count(t.calls, ch, k) == Count(s.calls, ch, k) + One(c.Calls(k)) + One(c.Serve().Calls(k))
                    + One(c.Serve().Serve().Calls(k)))
  {
    var n, t := |s.chans|, Pass(s, |s.chans|);
    var u := Pass(t, n);
    PassServesOneEach(s, n);
    PassServesOneEach(t, n);
    PassServesOneEach(u, n);
  }

  lemma ThreeServes(c: Channel, k: Kind)
    ensures var d, e := c.Serve(), c.Serve().Serve();
            One(c.Served() == Some(k)) + One(d.Served() == Some(k)) + One(e.Served() == Some(k)) == One(c.Wants(k))
    ensures var f := c.Serve().Serve().Serve();
            && f.flags.Has(k) == (c.flags.Has(k) && !c.enabled.Has(k))
            && f.busy == (c.busy && !c.Wants(Full) && !c.Wants(Err))
  {
  }

  // ---- Runs of any client ----

  /** What clients, the hardware and the handler do; `keep` says whether the reset of the channel keeps its flags. */
  datatype Op =
    | Configure(ch: nat, reload: bool, callback: bool, keep: bool)
    | Start(ch: nat)
    | Stop(ch: nat)
    | Raise(ch: nat, k: Kind)
    | Handle

  /** A channel that does not exist is refused. */
  function Apply(s: Dma, op: Op): (t: Dma)
    ensures |t.chans| == |s.chans|
  {
    match op
    case Handle => Pass(s, |s.chans|)
    case Configure(ch, reload, callback, keep) =>
      if ch < |s.chans| then s.(chans := s.chans[ch := s.chans[ch].Configured(reload, callback, keep)]) else s
    case Start(ch) => if ch < |s.chans| then s.(chans := s.chans[ch := s.chans[ch].Started()]) else s
    case Stop(ch) => if ch < |s.chans| then s.(chans := s.chans[ch := s.chans[ch].Stopped()]) else s
    case Raise(ch, k) =>
      if ch < |s.chans| then s.(chans := s.chans[ch := s.chans[ch].(flags := s.chans[ch].flags.With(k))]) else s
  }

  function Run(s: Dma, ops: seq<Op>): (t: Dma)
    ensures |t.chans| == |s.chans|
  {
    if ops == [] then s else Apply(Run(s, ops[..|ops| - 1]), ops[|ops| - 1])
  }

  predicate ErrorsOff(s: Dma) {
    forall i :: 0 <= i < |s.chans| ==> !s.chans[i].enabled.err
  }

  lemma {:induction false} ErrorsStayOff(s: Dma, ops: seq<Op>)
    requires ErrorsOff(s)
    ensures ErrorsOff(Run(s, ops))
  {
    if ops != [] {
      var t := Run(s, ops[..|ops| - 1]);
      ErrorsStayOff(s, ops[..|ops| - 1]);
      PassServes(t, |t.chans|);
    }
  }

  /**
   The driver never enables the error interrupt. So over every run from its reset, whatever clients ask for and
   whichever flags the hardware raises, no callback reports an error.
   */
  lemma {:induction false} ErrorsAreSilent(s: Dma, ops: seq<Op>, ch: nat)
    requires ErrorsOff(s)
    ensures Count(Run(s, ops).calls, ch, Err) == Count(s.calls, ch, Err)
  {
    if ops != [] {
      ErrorsAreSilent(s, ops[..|ops| - 1], ch);
      ErrorsStayOff(s, ops[..|ops| - 1]);
      StepIsSilent(Run(s, ops[..|ops| - 1]), ops[|ops| - 1], ch);
    }
  }

  lemma StepIsSilent(s: Dma, op: Op, ch: nat)
    requires ErrorsOff(s)
    ensures Count(Apply(s, op).calls, ch, Err) == Count(s.calls, ch, Err)
  {
    PassCounts(s, |s.chans|, ch, Err);
  }

  /** The reset of a channel turns its interrupts off; it keeps all the flags or none. */
  lemma ResetIsExact(c: Channel, keep: bool, k: Kind)
    ensures var d := c.Reset(keep);
            && !d.enabled.Has(k) && (d.flags.Has(k) <==> keep && c.flags.Has(k))
            && d.busy == c.busy && d.hasCallback == c.hasCallback
  {
  }

  /** A configured channel is interrupted by a full transfer, and by half of one exactly for a reload. */
  lemma ConfiguredWants(c: Channel, reload: bool, callback: bool, keep: bool, k: Kind)
    ensures var d := c.Configured(reload, callback, keep).(flags := c.flags.With(k));
            (d.Wants(k) <==> k == Full || (k == Half && reload)) && d.hasCallback == callback && d.busy == c.busy
    ensures c.Configured(reload, callback, false).Served() == None
  {
  }

  /** The step configures the channel. */
  predicate Configures(op: Op, ch: nat) {
    op.Configure? && op.ch == ch
  }

  /** A channel that was stopped, and not configured since, makes no callback, whatever flags are raised. */
  lemma {:induction false} StoppedIsSilent(s: Dma, ops: seq<Op>, ch: nat, k: Kind)
    requires ErrorsOff(s) && ch < |s.chans|
    requires forall i :: 0 <= i < |ops| ==> !Configures(ops[i], ch)
    ensures var t := Run(Apply(s, Op.Stop(ch)), ops);
            Count(t.calls, ch, k) == Count(s.calls, ch, k) && t.chans[ch].enabled == Nibble(false, false, false)
  {
    var u := Apply(s, Op.Stop(ch));
    if ops != [] {
      var init, op := ops[..|ops| - 1], ops[|ops| - 1];
      StoppedIsSilent(s, init, ch, k);
      assert !Configures(op, ch);
      OffIsSilent(Run(u, init), op, ch, k);
    }
  }

  lemma OffIsSilent(s: Dma, op: Op, ch: nat, k: Kind)
    requires ch < |s.chans| && s.chans[ch].enabled == Nibble(false, false, false) && !Configures(op, ch)
    ensures Count(Apply(s, op).calls, ch, k) == Count(s.calls, ch, k)
    ensures Apply(s, op).chans[ch].enabled == Nibble(false, false, false)
  {
    if op == Handle {
      HandleSkips(s, ch, k);
    }
  }

  lemma HandleSkips(s: Dma, ch: nat, k: Kind)
    requires ch < |s.chans| && s.chans[ch].enabled == Nibble(false, false, false)
    ensures var t := Pass(s, |s.chans|);
            Count(t.calls, ch, k) == Count(s.calls, ch, k) && t.chans[ch] == s.chans[ch]
  {
    PassServes(s, |s.chans|);
    PassCounts(s, |s.chans|, ch, k);
    assert s.chans[ch].Served() == None;
  }

  /** A completion from before a stop is not reported to the next transfer of the channel. */
  lemma StopForgetsFlags(c: Channel, reload: bool, callback: bool, keep: bool)
    ensures c.Stopped().Configured(reload, callback, keep).Started().Served() == None
    ensures !c.Stopped().busy && c.Stopped().Started().busy
  {
  }

  /** The step is one that can end a transfer of the channel. */
  predicate Ends(op: Op, ch: nat) {
    op == Stop(ch) || op == Raise(ch, Full)
  }

  /** The channel is busy without its full flag. */
  predicate Pending(s: Dma, ch: nat) {
    ch < |s.chans| && s.chans[ch].busy && !s.chans[ch].flags.full
  }

  lemma HandleKeepsPending(s: Dma, ch: nat)
    requires ErrorsOff(s) && Pending(s, ch)
    ensures var t := Pass(s, |s.chans|);
            Pending(t, ch) && Count(t.calls, ch, Full) == Count(s.calls, ch, Full)
  {
    PassServes(s, |s.chans|);
    PassCounts(s, |s.chans|, ch, Full);
  }

  lemma OtherKeepsPending(s: Dma, op: Op, ch: nat)
    requires Pending(s, ch) && op != Handle && !Ends(op, ch)
    ensures Pending(Apply(s, op), ch) && Apply(s, op).calls == s.calls
  {
  }

  /**
   A channel that an error has stopped raises no full flag any more: until a client stops it, it is reported busy and
   no callback tells anyone that its transfer is over.
   */
  lemma {:induction false} FailedChannelStaysBusy(s: Dma, ops: seq<Op>, ch: nat)
    requires ErrorsOff(s) && Pending(s, ch)
    requires forall i :: 0 <= i < |ops| ==> !Ends(ops[i], ch)
    ensures var t := Run(s, ops);
            && Pending(t, ch) && Count(t.calls, ch, Full) == Count(s.calls, ch, Full)
            && Count(t.calls, ch, Err) == Count(s.calls, ch, Err)
  {
    ErrorsAreSilent(s, ops, ch);
    if ops != [] {
      var init, op := ops[..|ops| - 1], ops[|ops| - 1];
      FailedChannelStaysBusy(s, init, ch);
      if op == Handle {
        ErrorsStayOff(s, init);
        HandleKeepsPending(Run(s, init), ch);
      } else {
        assert !Ends(op, ch);
        OtherKeepsPending(Run(s, init), op, ch);
      }
    }
  }

  // ---- The driver ----

  class Controller {
    var sts: Register
    var ctrl: seq<Register>
    var busy: seq<bool>
    var hasCallback: seq<bool>
    const resetKeeps: bool          // whether the reset of a channel keeps its flags
    ghost var calls: seq<(nat, Kind)>

    ghost predicate Valid()
      reads this
    {
      |ctrl| == |busy| == |hasCallback| <= CHANNELS
    }

    ghost function ChannelOf(ch: nat): Channel
      requires Valid() && ch < |ctrl|
      reads this
    {
      var e := ctrl[ch];
      Channel(NibbleAt(sts, ch), Nibble(e[Bit(Half)], e[Bit(Full)], e[Bit(Err)]), busy[ch], hasCallback[ch])
    }

    /** The registers and marks show the abstract state `s`. */
    ghost predicate Shows(s: Dma)
      reads this
    {
      && Valid() && |s.chans| == |ctrl| && s.calls == calls
      && forall i :: 0 <= i < |ctrl| ==> s.chans[i] == ChannelOf(i)
    }

    /** at32_dma_interrupt_flag_get: the flag counts only while its interrupt is enabled. */
    method FlagGet(ch: nat, k: Kind) returns (f: bool)
      requires Valid() && ch < |ctrl|
      ensures f <==> ChannelOf(ch).Wants(k)
    {
      var ret := ctrl[ch];
      if !ret[Bit(k)] {
        return false;
      }
      return sts[FlagAt(k, ch)];
    }

    /** at32_dma_interrupt_flag_clear. */
    method FlagClear(ch: nat, k: Kind)
      requires Valid() && ch < |ctrl|
      modifies this`sts
      ensures forall c :: 0 <= c < |ctrl| ==>
                NibbleAt(sts, c) == if c == ch then NibbleAt(old(sts), c).Without(k) else NibbleAt(old(sts), c)
    {
      sts := Clear(sts, k, ch);
      forall c: nat | c < |ctrl|
        ensures NibbleAt(sts, c) == if c == ch then NibbleAt(old(sts), c).Without(k) else NibbleAt(old(sts), c)
      {
        ClearIsExact(old(sts), k, ch, c);
      }
    }

    /** The part of the handler for one channel. */
    method ServeChannel(ch: nat, ghost s: Dma)
      requires Shows(s) && ch < |ctrl|
      modifies this
      ensures Shows(ServeStep(s, ch))
    {
      var errFlag := FlagGet(ch, Err);
      var halfFlag := FlagGet(ch, Half);
      var fullFlag := FlagGet(ch, Full);
      if !errFlag && !fullFlag && !halfFlag {
        assert s.chans[ch].Serve() == s.chans[ch];
        return;
      }
      if halfFlag {
        FlagClear(ch, Half);
        if hasCallback[ch] {
          calls := calls + [(ch, Half)];
        }
      } else if fullFlag {
        busy := busy[ch := false];
        FlagClear(ch, Full);
        if hasCallback[ch] {
          calls := calls + [(ch, Full)];
        }
      } else {
        busy := busy[ch := false];
        FlagClear(ch, Err);
        if hasCallback[ch] {
          calls := calls + [(ch, Err)];
        }
      }
    }

    /** The reset of a channel clears its control register. */
    method Reset(ch: nat, ghost s: Dma)
      requires Shows(s) && ch < |ctrl|
      modifies this
      ensures hasCallback == old(hasCallback) && Shows(s.(chans := s.chans[ch := s.chans[ch].Reset(resetKeeps)]))
    {
      ctrl := ctrl[ch := seq(32, _ => false)];
      if !resetKeeps {
        FlagClear(ch, Half);
        FlagClear(ch, Full);
        FlagClear(ch, Err);
      }
    }

    /** dma_at32_configure, as far as the interrupts go. */
    method Configure(ch: nat, reload: bool, callback: bool, ghost s: Dma) returns (rc: int)
      requires Shows(s)
      modifies this
      ensures rc == if ch < |s.chans| then 0 else EINVAL
      ensures Shows(Apply(s, Op.Configure(ch, reload, callback, resetKeeps)))
    {
      if ch >= |ctrl| {
        return EINVAL;
      }
      Reset(ch, s);
      ghost var t := s.(chans := s.chans[ch := s.chans[ch].Reset(resetKeeps)]);
      if reload {
        ctrl := ctrl[ch := ctrl[ch][Bit(Half) := true]];
      }
      ctrl := ctrl[ch := ctrl[ch][Bit(Full) := true]];
      hasCallback := hasCallback[ch := callback];
      forall i: nat | i < |ctrl|
        ensures ChannelOf(i) == if i == ch then s.chans[i].Configured(reload, callback, resetKeeps) else s.chans[i]
      {
        assert t.chans[i] == if i == ch then s.chans[i].Reset(resetKeeps) else s.chans[i];
      }
      return 0;
    }

    /** dma_at32_start. */
    method Start(ch: nat, ghost s: Dma) returns (rc: int)
      requires Shows(s)
      modifies this`busy
      ensures rc == if ch < |s.chans| then 0 else EINVAL
      ensures Shows(Apply(s, Op.Start(ch)))
    {
      if ch >= |ctrl| {
        return EINVAL;
      }
      busy := busy[ch := true];
      return 0;
    }

    /** dma_at32_stop: the flags and the enables of half and full only. */
    method Stop(ch: nat, ghost s: Dma) returns (rc: int)
      requires Shows(s)
      modifies this
      ensures rc == if ch < |s.chans| then 0 else EINVAL
      ensures Shows(Apply(s, Op.Stop(ch)))
    {
      if ch >= |ctrl| {
        return EINVAL;
      }
      ctrl := ctrl[ch := ctrl[ch][Bit(Full) := false][Bit(Half) := false]];
      FlagClear(ch, Full);
      FlagClear(ch, Half);
      busy := busy[ch := false];
      return 0;
    }

    /** dma_at32_isr. */
    method Isr(ghost s: Dma)
      requires Shows(s)
      modifies this
      ensures Shows(Pass(s, |s.chans|))
    {
      var i: nat := 0;
      while i < |ctrl|
        invariant i <= |ctrl| == |s.chans|
        invariant Shows(Pass(s, i))
      {
        ServeChannel(i, Pass(s, i));
        i := i + 1;
      }
    }
  }
}
