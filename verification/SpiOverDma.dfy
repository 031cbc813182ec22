/**
 The SPI driver on the interrupts of the DMA driver: what the flags of the two channels make of a transfer. A served
 completion is a step of the SPI protocol that never fails, and an error of the DMA is no step at all.
 */
module SpiOverDma {
  import opened MachineInt
  import D = DmaInterrupt
  import opened SpiDma

  /** The channels that a transfer uses, and whether the reset of a channel keeps its flags. */
  datatype Wiring = Wiring(rx: nat, tx: nat, keep: bool) {
    function Of(dir: Dir): nat {
      if dir == RX then rx else tx
    }
  }

  /** Both drivers, and the channels whose transfer an error has stopped. */
  datatype Joint = Joint(d: D.Dma, s: Spi, failed: set<Dir>)

  /** What the callback is told for a source. */
  function StatusOf(k: D.Kind): int {
    match k
    case Half => 1    // a block is done
    case Full => 0    // all is done
    case Err => EIO
  }

  /**
   The hardware raises a flag, or the handler of the DMA driver comes to a channel: its pass over the channels is some
   of these steps in ascending order, with the callback and what it sets up between them.
   */
  datatype Act = Raise(dir: Dir, k: D.Kind) | Serve(dir: Dir)

  /** A channel raises its full flag only at work, and not after an error. */
  predicate Lawful(j: Joint, a: Act) {
    a.Raise? && a.k == D.Full ==> j.s.Get(a.dir).busy && a.dir !in j.failed
  }

  /** What the SPI driver has had the DMA driver do for one channel. */
  function Follow(d: D.Dma, w: Wiring, before: Spi, after: Spi, dir: Dir): D.Dma {
    if |after.completions| > |before.completions| then D.Apply(d, D.Stop(w.Of(dir)))
    else if |after.Get(dir).programmed| > |before.Get(dir).programmed| then Program(d, w, dir)
    else d
  }

  /** The set-up of a channel asks for no reload. */
  function Program(d: D.Dma, w: Wiring, dir: Dir): D.Dma {
    D.Apply(D.Apply(d, D.Configure(w.Of(dir), false, true, w.keep)), D.Start(w.Of(dir)))
  }

  function ChanOf(d: D.Dma, w: Wiring, dir: Dir): D.Channel
    requires w.Of(dir) < |d.chans|
  {
    d.chans[w.Of(dir)]
  }

  /** The channel of the DMA driver stands for that of the SPI driver; only its full interrupt can be enabled. */
  predicate ChannelLinked(c: D.Channel, busy: bool, failed: bool) {
    && c.busy == busy && c.hasCallback && !c.enabled.half && !c.enabled.err && (busy ==> c.enabled.full)
    && (c.flags.full ==> busy && !failed) && (failed ==> busy)
  }

  predicate WiringOk(d: D.Dma, w: Wiring) {
    w.rx != w.tx && w.rx < |d.chans| && w.tx < |d.chans|
  }

  predicate Linked(j: Joint, w: Wiring, b0: Bufs) {
    && WiringOk(j.d, w) && (InTransfer(j.s, b0) || Finished(j.s, b0))
    && ChannelLinked(ChanOf(j.d, w, RX), j.s.rx.busy, RX in j.failed)
    && ChannelLinked(ChanOf(j.d, w, TX), j.s.tx.busy, TX in j.failed)
  }

  /** The step of the SPI protocol that an act is, if it is one. */
  function StepOf(j: Joint, w: Wiring, a: Act): Option<Step>
    requires WiringOk(j.d, w)
  {
    if a.Serve? && ChanOf(j.d, w, a.dir).Served().Some? then
      Some(Step(a.dir, StatusOf(ChanOf(j.d, w, a.dir).Served().value), FINE))
    else None
  }

  function Next(j: Joint, w: Wiring, b0: Bufs, a: Act): Joint
    requires Linked(j, w, b0)
  {
    match a
    case Raise(dir, k) =>
      var c := ChanOf(j.d, w, dir);
      Joint(D.Apply(j.d, D.Op.Raise(w.Of(dir), k)), j.s,
            if k == D.Err && c.busy && !c.flags.full then j.failed + {dir} else j.failed)
    case Serve(dir) =>
      var d := D.ServeStep(j.d, w.Of(dir));
      if StepOf(j, w, a).None? then j.(d := d)
      else
        var s := Completed(j.s, StepOf(j, w, a).value);
        Joint(Both(d, w, j.s, s), s, j.failed)
  }

  /** Only a full flag is ever served, so the step never fails. */
  lemma OnlyFullIsServed(j: Joint, w: Wiring, b0: Bufs, a: Act)
    requires Linked(j, w, b0) && StepOf(j, w, a).Some?
    ensures ChanOf(j.d, w, a.dir).Served() == Some(D.Full) && a.dir !in j.failed
    ensures StepOf(j, w, a) == Some(Step(a.dir, 0, FINE))
    ensures InTransfer(j.s, b0) && Enabled(j.s, StepOf(j, w, a).value)
  {
  }

  lemma RaiseKeepsLinked(j: Joint, w: Wiring, b0: Bufs, a: Act)
    requires Linked(j, w, b0) && Lawful(j, a) && a.Raise?
    ensures Linked(Next(j, w, b0, a), w, b0)
  {
    RaiseSets(j.d, w, a.dir, a.k);
    assert ChanOf(Next(j, w, b0, a).d, w, Other(a.dir)) == ChanOf(j.d, w, Other(a.dir));
  }

  /** The handler takes the full flag of one channel. */
  lemma FullServed(d: D.Dma, w: Wiring, dir: Dir)
    requires WiringOk(d, w) && ChanOf(d, w, dir).Served() == Some(D.Full)
    ensures var t, c := D.ServeStep(d, w.Of(dir)), ChanOf(d, w, dir);
            && WiringOk(t, w) && ChanOf(t, w, Other(dir)) == ChanOf(d, w, Other(dir))
            && ChanOf(t, w, dir) == c.(flags := c.flags.(full := false), busy := false)
  {
  }

  /** A channel that is served while the other one is at work becomes idle, and nothing else changes. */
  lemma FirstServed(j: Joint, w: Wiring, b0: Bufs, dir: Dir)
    requires Linked(j, w, b0) && StepOf(j, w, Serve(dir)).Some? && j.s.Get(Other(dir)).busy
    ensures Linked(Next(j, w, b0, Serve(dir)), w, b0)
  {
    var e := Step(dir, 0, FINE);
    OnlyFullIsServed(j, w, b0, Serve(dir));
    FirstOfChunk(j.s, e, b0);
    FirstKeepsTransfer(j.s, e, b0);
    FullServed(j.d, w, dir);
    FollowsNot(D.ServeStep(j.d, w.Of(dir)), w, j.s, Completed(j.s, e));
  }

  /** When the second one is served, both are programmed anew, or both are stopped. */
  lemma SecondServed(j: Joint, w: Wiring, b0: Bufs, dir: Dir)
    requires Linked(j, w, b0) && StepOf(j, w, Serve(dir)).Some? && !j.s.Get(Other(dir)).busy
    ensures Linked(Next(j, w, b0, Serve(dir)), w, b0)
  {
    var e := Step(dir, 0, FINE);
    OnlyFullIsServed(j, w, b0, Serve(dir));
    SecondOfChunk(j.s, e, b0);
    SecondKeepsTransfer(j.s, e, b0);
    FullServed(j.d, w, dir);
    var d, s := D.ServeStep(j.d, w.Of(dir)), Completed(j.s, e);
    if s.completions == [] {
      FollowsProgrammed(d, w, j.s, s);
    } else {
      FollowsStopped(d, w, j.s, s);
    }
  }

  function Both(d: D.Dma, w: Wiring, before: Spi, after: Spi): D.Dma {
    Follow(Follow(d, w, before, after, RX), w, before, after, TX)
  }

  lemma FollowsNot(d: D.Dma, w: Wiring, before: Spi, after: Spi)
    requires after.completions == before.completions
    requires after.rx.programmed == before.rx.programmed && after.tx.programmed == before.tx.programmed
    ensures Both(d, w, before, after) == d
  {
  }

  lemma FollowsStopped(d: D.Dma, w: Wiring, before: Spi, after: Spi)
    requires WiringOk(d, w) && |after.completions| > |before.completions|
    ensures var t := Both(d, w, before, after);
            && WiringOk(t, w) && ChanOf(t, w, RX) == ChanOf(d, w, RX).Stopped()
            && ChanOf(t, w, TX) == ChanOf(d, w, TX).Stopped()
  {
  }

  lemma FollowsProgrammed(d: D.Dma, w: Wiring, before: Spi, after: Spi)
    requires WiringOk(d, w) && after.completions == before.completions
    requires |after.rx.programmed| > |before.rx.programmed| && |after.tx.programmed| > |before.tx.programmed|
    ensures var t := Both(d, w, before, after);
            && WiringOk(t, w) && ChanOf(t, w, RX) == ChanOf(d, w, RX).Configured(false, true, w.keep).Started()
            && ChanOf(t, w, TX) == ChanOf(d, w, TX).Configured(false, true, w.keep).Started()
  {
  }

  lemma NextKeepsLinked(j: Joint, w: Wiring, b0: Bufs, a: Act)
    requires Linked(j, w, b0) && Lawful(j, a)
    ensures Linked(Next(j, w, b0, a), w, b0)
  {
    if a.Raise? {
      RaiseKeepsLinked(j, w, b0, a);
    } else if StepOf(j, w, a).Some? {
      if j.s.Get(Other(a.dir)).busy {
        FirstServed(j, w, b0, a.dir);
      } else {
        SecondServed(j, w, b0, a.dir);
      }
    }
  }

  /** A channel at work that no error has stopped can raise its full flag, and the handler then finds it. */
  lemma WorkIsServed(j: Joint, w: Wiring, b0: Bufs, dir: Dir)
    requires Linked(j, w, b0) && j.s.Get(dir).busy && dir !in j.failed
    ensures Lawful(j, Raise(dir, D.Full))
    ensures StepOf(Next(j, w, b0, Raise(dir, D.Full)), w, Serve(dir)) == Some(Step(dir, 0, FINE))
  {
    RaisedIsServed(ChanOf(j.d, w, dir));
    RaiseSets(j.d, w, dir, D.Full);
  }

  lemma RaiseSets(d: D.Dma, w: Wiring, dir: Dir, k: D.Kind)
    requires WiringOk(d, w)
    ensures var t, c := D.Apply(d, D.Op.Raise(w.Of(dir), k)), ChanOf(d, w, dir);
            WiringOk(t, w) && ChanOf(t, w, dir) == c.(flags := c.flags.With(k))
  {
  }

  lemma RaisedIsServed(c: D.Channel)
    requires ChannelLinked(c, true, false)
    ensures c.(flags := c.flags.With(D.Full)).Served() == Some(D.Full)
  {
  }

  // ---- Runs ----

  predicate IsJointRun(j: Joint, w: Wiring, b0: Bufs, acts: seq<Act>)
    requires Linked(j, w, b0)
    decreases |acts|
  {
    acts == []
    || (Lawful(j, acts[0])
        && (NextKeepsLinked(j, w, b0, acts[0]); IsJointRun(Next(j, w, b0, acts[0]), w, b0, acts[1..])))
  }

  function JointAfter(j: Joint, w: Wiring, b0: Bufs, acts: seq<Act>): (r: Joint)
    requires Linked(j, w, b0) && IsJointRun(j, w, b0, acts)
    ensures Linked(r, w, b0)
    decreases |acts|
  {
    if acts == [] then j
    else
      NextKeepsLinked(j, w, b0, acts[0]);
      JointAfter(Next(j, w, b0, acts[0]), w, b0, acts[1..])
  }

  /** The steps of the SPI protocol in a run. */
  function StepsOf(j: Joint, w: Wiring, b0: Bufs, acts: seq<Act>): seq<Step>
    requires Linked(j, w, b0) && IsJointRun(j, w, b0, acts)
    decreases |acts|
  {
    if acts == [] then []
    else
      NextKeepsLinked(j, w, b0, acts[0]);
      var rest := StepsOf(Next(j, w, b0, acts[0]), w, b0, acts[1..]);
      match StepOf(j, w, acts[0])
      case None => rest
      case Some(e) => [e] + rest
  }

  /** From `s`, the steps `run` lead to `t`, and none of them fails. */
  predicate Leads(s: Spi, b0: Bufs, run: seq<Step>, t: Spi) {
    && (InTransfer(s, b0) || Finished(s, b0)) && IsRun(s, b0, run) && After(s, b0, run) == t
    && forall i :: 0 <= i < |run| ==> !Fails(run[i])
  }

  lemma LeadsFrom(s: Spi, b0: Bufs, e: Step, rest: seq<Step>, t: Spi)
    requires InTransfer(s, b0) && Enabled(s, e) && !Fails(e) && Leads(Completed(s, e), b0, rest, t)
    ensures Leads(s, b0, [e] + rest, t)
  {
    var run := [e] + rest;
    assert run[0] == e && run[1..] == rest;
    StepKeepsTransfer(s, e, b0);
    AfterFirst(s, b0, run);
  }

  /** Whatever the hardware does, the SPI driver goes through a run of its protocol in which nothing fails. */
  lemma {:induction false} JointRefines(j: Joint, w: Wiring, b0: Bufs, acts: seq<Act>)
    requires Linked(j, w, b0) && IsJointRun(j, w, b0, acts)
    ensures Leads(j.s, b0, StepsOf(j, w, b0, acts), JointAfter(j, w, b0, acts).s)
    decreases |acts|
  {
    if acts != [] {
      var k := Next(j, w, b0, acts[0]);
      NextKeepsLinked(j, w, b0, acts[0]);
      JointRefines(k, w, b0, acts[1..]);
      var rest, t := StepsOf(k, w, b0, acts[1..]), JointAfter(k, w, b0, acts[1..]).s;
      if StepOf(j, w, acts[0]).Some? {
        OnlyFullIsServed(j, w, b0, acts[0]);
        LeadsFrom(j.s, b0, StepOf(j, w, acts[0]).value, rest, t);
      } else {
        assert k.s == j.s;
      }
    }
  }

  /** The start of a transfer: both channels idle and without an old full flag, then programmed with the first chunk. */
  function Begun(d: D.Dma, w: Wiring, b: Bufs): Joint
    requires NoEmpty(b)
  {
    Joint(Program(Program(d, w, RX), w, TX), BeginStep(b), {})
  }

  lemma ProgramsBoth(d: D.Dma, w: Wiring)
    requires WiringOk(d, w)
    ensures var t := Program(Program(d, w, RX), w, TX);
            && WiringOk(t, w) && ChanOf(t, w, RX) == ChanOf(d, w, RX).Configured(false, true, w.keep).Started()
            && ChanOf(t, w, TX) == ChanOf(d, w, TX).Configured(false, true, w.keep).Started()
  {
  }

  lemma BegunIsLinked(d: D.Dma, w: Wiring, b: Bufs)
    requires NoEmpty(b) && Ongoing(b) && WiringOk(d, w)
    requires !ChanOf(d, w, RX).flags.full && !ChanOf(d, w, TX).flags.full
    ensures Linked(Begun(d, w, b), w, b)
  {
    BeginIsInTransfer(b);
    AdvanceByChunk(b);
    StartBoth(Fresh(b));
    ProgramsBoth(d, w);
  }

  /**
   Over every run of both drivers, half and error flags at any time included: the end of a transfer is never signalled
   with an error. It is signalled after two served full flags for each chunk, and everything has been transferred
   then; until then it is not signalled at all.
   */
  lemma JointTransfersAll(d: D.Dma, w: Wiring, b: Bufs, acts: seq<Act>)
    requires NoEmpty(b) && Ongoing(b) && WiringOk(d, w)
    requires !ChanOf(d, w, RX).flags.full && !ChanOf(d, w, TX).flags.full
    requires (BegunIsLinked(d, w, b); IsJointRun(Begun(d, w, b), w, b, acts))
    ensures (BegunIsLinked(d, w, b);
             var s, n := JointAfter(Begun(d, w, b), w, b, acts).s, |StepsOf(Begun(d, w, b), w, b, acts)|;
             && n <= 2 * |Chunks(b)|
             && if n == 2 * |Chunks(b)| then Transferred(s, b) else s.completions == [])
  {
    BegunIsLinked(d, w, b);
    JointRefines(Begun(d, w, b), w, b, acts);
    EveryOrderTransfersAll(b, StepsOf(Begun(d, w, b), w, b, acts));
  }

  /** A channel that an error has stopped stays so. */
  lemma NextKeepsFailed(j: Joint, w: Wiring, b0: Bufs, a: Act, dir: Dir)
    requires Linked(j, w, b0) && Lawful(j, a) && dir in j.failed
    ensures dir in Next(j, w, b0, a).failed
  {
  }

  /**
   An error of a channel before its full flag is the end of the transfer without anyone being told: over every run from
   there, the channel stays busy and no completion is signalled. The error completion of the SPI driver is never made.
   */
  lemma {:induction false} ErrorHangsTransfer(j: Joint, w: Wiring, b0: Bufs, acts: seq<Act>, dir: Dir)
    requires Linked(j, w, b0) && IsJointRun(j, w, b0, acts) && dir in j.failed
    ensures var t := JointAfter(j, w, b0, acts);
            dir in t.failed && t.s.Get(dir).busy && t.s.completions == []
    decreases |acts|
  {
    if acts != [] {
      NextKeepsLinked(j, w, b0, acts[0]);
      NextKeepsFailed(j, w, b0, acts[0], dir);
      ErrorHangsTransfer(Next(j, w, b0, acts[0]), w, b0, acts[1..], dir);
    }
  }

  /** Such an error is possible whenever a channel is at work. */
  lemma ErrorFails(j: Joint, w: Wiring, b0: Bufs, dir: Dir)
    requires Linked(j, w, b0) && j.s.Get(dir).busy && !ChanOf(j.d, w, dir).flags.full
    ensures Lawful(j, Raise(dir, D.Err)) && dir in Next(j, w, b0, Raise(dir, D.Err)).failed
  {
  }
}
