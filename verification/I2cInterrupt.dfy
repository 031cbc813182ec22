/**
 The interrupt-driven version-2 transfer of one message at a time: the event and error handlers,
 the semaphore between them and the waiting thread, and every run they can take together.
 */
module I2cInterrupt {
  import opened MachineInt

  /** The status flags that the event handler finds, and the byte in the receive register. */
  datatype Status = Status(tdbe: bool, rdbf: bool, rx: byte, ackFail: bool, stopf: bool, tdc: bool, tcrld: bool)

  /**
   The bytes of a message: its buffer, the position in it, the bytes to go, what was put into the transmit register,
   and what was taken from the receive register.
   */
  datatype Cursor = Cursor(buf: seq<byte>, off: nat, len: nat, sent: seq<byte>, got: seq<byte>)

  /**
   The rest of the state: whether the message ends with a STOP, the two groups of interrupt enables (events and errors,
   data), the reload bit, the enable of the peripheral, the count of the sync semaphore, the error marks, and the
   STOP conditions sent.
   */
  datatype Control = Control(stop: bool, ctl: bool, data: bool, reload: bool, on: bool, sem: nat,
                             nack: bool, arlo: bool, err: bool, stops: nat)

  datatype Xfer = Xfer(c: Cursor, k: Control)

  // ---- The handlers as steps on the state ----

  predicate InMessage(c: Cursor) {
    c.off + c.len == |c.buf|
  }

  /** The byte part of the event handler: while bytes remain it advances on every event. */
  function ByteStep(c: Cursor, f: Status): (r: Cursor)
    requires InMessage(c)
    ensures InMessage(r)
  {
    if c.len == 0 then c
    else
      Cursor(if f.rdbf then c.buf[c.off := f.rx] else c.buf, c.off + 1, c.len - 1,
             if f.tdbe then c.sent + [c.buf[c.off]] else c.sent, if f.rdbf then c.got + [f.rx] else c.got)
  }

  function EndStep(k: Control): Control {
    k.(ctl := false, data := false, reload := false, on := false, sem := k.sem + 1)
  }

  function SignalStep(k: Control, f: Status): Control {
    if f.ackFail then k.(nack := true, stops := k.stops + 1)
    else if f.stopf then EndStep(k)
    else if !f.tdc && !f.tcrld then k
    else if k.stop then k.(stops := k.stops + 1)
    else k.(ctl := false, data := false, sem := k.sem + 1)
  }

  function EventStep(x: Xfer, f: Status): Xfer
    requires InMessage(x.c)
  {
    Xfer(ByteStep(x.c, f), SignalStep(x.k, f))
  }

  function ErrorStep(k: Control, arbitrationLost: bool, busError: bool): Control {
    if arbitrationLost then EndStep(k.(arlo := true))
    else if busError then EndStep(k.(err := true))
    else k
  }

  // ---- Runs ----

  /** The thread is between messages, between the two enables of a message, or waits for it. */
  datatype Phase = Idle | Starting | Waiting

  datatype System = System(x: Xfer, phase: Phase)

  datatype Step =
    | Begin(buf: seq<byte>, stop: bool, joins: bool, read: bool)   // msg_init and the enabling of events and errors
    | EnableData                                                   // the enabling of the data interrupt
    | Event(f: Status)
    | Error(arbitrationLost: bool, busError: bool)
    | Take                                                         // the thread gets the semaphore in time
    | Timeout                                                      // it does not, and ends the transfer itself

  /** msg_init sets the reload bit for a message that is joined to the next one; once set, it stays. */
  function BeginStep(k: Control, buf: seq<byte>, stop: bool, joins: bool, read: bool): Xfer {
    Xfer(Cursor(buf, 0, |buf|, [], []),
         Control(stop, true, k.data, k.reload || (!stop && joins), k.on || !k.reload, k.sem, false, !read && k.arlo,
                 false, 0))
  }

  predicate IsHandler(e: Step) {
    e.Event? || e.Error?
  }

  /** A handler runs only while some transfer interrupt is enabled. */
  predicate Enabled(s: System, e: Step) {
    match e
    case Begin(_, _, _, _) => s.phase == Idle
    case EnableData => s.phase == Starting
    case Event(_) => s.x.k.ctl || s.x.k.data
    case Error(_, _) => s.x.k.ctl || s.x.k.data
    case Take => s.phase == Waiting && s.x.k.sem > 0
    case Timeout => s.phase == Waiting && s.x.k.sem == 0
  }

  /** On return to the caller the error marks have been looked at and, if any was set, cleared. */
  function Returned(k: Control): Control {
    k.(nack := false, arlo := false, err := false)
  }

  function Next(s: System, e: Step): (r: System)
    requires InMessage(s.x.c) && Enabled(s, e)
    ensures InMessage(r.x.c)
  {
    match e
    case Begin(buf, stop, joins, read) => System(BeginStep(s.x.k, buf, stop, joins, read), Starting)
    case EnableData => System(Xfer(s.x.c, s.x.k.(data := true)), Waiting)
    case Event(f) => s.(x := EventStep(s.x, f))
    case Error(a, b) => s.(x := Xfer(s.x.c, ErrorStep(s.x.k, a, b)))
    case Take => System(Xfer(s.x.c, Returned(s.x.k.(sem := s.x.k.sem - 1))), Idle)
    case Timeout => System(Xfer(s.x.c, Returned(EndStep(s.x.k).(sem := s.x.k.sem))), Idle)
  }

  /**
   The position is in the message, and the peripheral is on while the reload bit is. Between messages the interrupts
   are off, the semaphore is down and no error mark is left over; during a message the interrupts are off exactly
   when its one give is outstanding.
   */
  predicate Safe(s: System) {
    InMessage(s.x.c) && SafeSignals(s.phase, s.x.k)
  }

  predicate SafeSignals(phase: Phase, k: Control) {
    && (k.reload ==> k.on)
    && match phase
       case Idle => k.sem == 0 && !k.ctl && !k.data && !k.nack && !k.arlo && !k.err
       case Starting => k.sem <= 1 && !k.data && (k.sem == 1 <==> !k.ctl)
       case Waiting => k.sem <= 1 && k.data == k.ctl && (k.sem == 1 <==> !k.ctl)
  }

  /** `run` is a run of the system from `s`: each step is enabled where it is taken. */
  predicate IsRun(s: System, run: seq<Step>)
    requires InMessage(s.x.c)
    decreases |run|
  {
    run == [] || (Enabled(s, run[0]) && IsRun(Next(s, run[0]), run[1..]))
  }

  function After(s: System, run: seq<Step>): (r: System)
    requires InMessage(s.x.c) && IsRun(s, run)
    ensures InMessage(r.x.c)
    decreases |run|
  {
    if run == [] then s else After(Next(s, run[0]), run[1..])
  }

  /** Every state that the run goes through is safe. */
  predicate SafeThroughout(s: System, run: seq<Step>)
    requires InMessage(s.x.c) && IsRun(s, run)
    decreases |run|
  {
    Safe(s) && (run == [] || SafeThroughout(Next(s, run[0]), run[1..]))
  }

  /** No handler gives the semaphore between the two enables of a message. */
  predicate StartsUndisturbed(s: System, run: seq<Step>)
    requires InMessage(s.x.c) && IsRun(s, run)
    decreases |run|
  {
    run == [] || ((run[0].EnableData? ==> s.x.k.sem == 0) && StartsUndisturbed(Next(s, run[0]), run[1..]))
  }

  lemma SignalIsSafe(phase: Phase, k: Control, f: Status)
    requires SafeSignals(phase, k) && (k.ctl || k.data)
    ensures SafeSignals(phase, SignalStep(k, f))
  {
  }

  lemma ErrorIsSafe(phase: Phase, k: Control, arbitrationLost: bool, busError: bool)
    requires SafeSignals(phase, k) && (k.ctl || k.data)
    ensures SafeSignals(phase, ErrorStep(k, arbitrationLost, busError))
  {
  }

  /** One step from a safe state is safe unless it enables the data interrupt of a message that was given already. */
  lemma StepIsSafe(s: System, e: Step)
    requires Safe(s) && Enabled(s, e)
    ensures Safe(Next(s, e)) <==> (e.EnableData? ==> s.x.k.sem == 0)
  {
    match e
    case Event(f) => SignalIsSafe(s.phase, s.x.k, f);
    case Error(a, b) => ErrorIsSafe(s.phase, s.x.k, a, b);
    case Begin(_, _, _, _) =>
    case EnableData =>
    case Take =>
    case Timeout =>
  }

  /**
   Every run from a safe state stays safe if and only if no handler gives between the two enables of a message: then
   no access leaves the buffer and no give is lost or doubled.
   */
  lemma {:induction false} RunsAreSafe(s: System, run: seq<Step>)
    requires Safe(s) && IsRun(s, run)
    ensures SafeThroughout(s, run) <==> StartsUndisturbed(s, run)
    ensures StartsUndisturbed(s, run) ==> Safe(After(s, run))
    decreases |run|
  {
    if run != [] {
      StepIsSafe(s, run[0]);
      if Safe(Next(s, run[0])) {
        RunsAreSafe(Next(s, run[0]), run[1..]);
      }
    }
  }

  /** A waiting thread is never stuck: it can take the semaphore, or time out, in every reachable state. */
  lemma WaitingEnds(s: System)
    requires Safe(s) && s.phase == Waiting
    ensures exists e :: (e == Take || e == Timeout) && Enabled(s, e) && Next(s, e).phase == Idle && Safe(Next(s, e))
  {
    var e := if s.x.k.sem > 0 then Take else Timeout;
    assert Enabled(s, e) && Next(s, e).phase == Idle;
  }

  // ---- What disturbs a message ----

  predicate SignalGives(stop: bool, f: Status) {
    !f.ackFail && (f.stopf || ((f.tdc || f.tcrld) && !stop))
  }

  /** The handler gives the semaphore. */
  predicate Gives(k: Control, e: Step) {
    match e
    case Event(f) => SignalGives(k.stop, f)
    case Error(arbitrationLost, busError) => arbitrationLost || busError
    case _ => false
  }

  lemma SignalCounts(k: Control, f: Status)
    ensures SignalGives(k.stop, f) ==>
              SignalStep(k, f).sem == k.sem + 1 && !SignalStep(k, f).ctl && !SignalStep(k, f).data
    ensures !SignalGives(k.stop, f) ==> SignalStep(k, f).sem == k.sem
  {
  }

  lemma ErrorCounts(k: Control, arbitrationLost: bool, busError: bool)
    ensures var d := ErrorStep(k, arbitrationLost, busError);
            if arbitrationLost || busError then d.sem == k.sem + 1 && !d.ctl && !d.data else d == k
  {
  }

  /** A handler gives at most once, and turns the interrupts off with it. */
  lemma HandlerGives(s: System, e: Step)
    requires InMessage(s.x.c) && Enabled(s, e) && IsHandler(e)
    ensures Next(s, e).x.k.sem == s.x.k.sem + if Gives(s.x.k, e) then 1 else 0
    ensures Gives(s.x.k, e) ==> !Next(s, e).x.k.ctl && !Next(s, e).x.k.data
  {
    if e.Event? {
      SignalCounts(s.x.k, e.f);
    } else {
      ErrorCounts(s.x.k, e.arbitrationLost, e.busError);
    }
  }

  /** No step of the run gives. */
  predicate NoneGives(s: System, run: seq<Step>)
    requires InMessage(s.x.c) && IsRun(s, run)
    decreases |run|
  {
    run == [] || (!Gives(s.x.k, run[0]) && NoneGives(Next(s, run[0]), run[1..]))
  }

  /**
   The handlers that run between the two enables of a message, or during its wait, leave it safe, and the semaphore
   down exactly when none of them gives.
   */
  lemma {:induction false} HandlersInMessage(s: System, run: seq<Step>)
    requires Safe(s) && s.phase != Idle && IsRun(s, run)
    requires forall i :: 0 <= i < |run| ==> IsHandler(run[i])
    ensures Safe(After(s, run)) && After(s, run).phase == s.phase
    ensures s.x.k.sem == 0 ==> (After(s, run).x.k.sem == 0 <==> NoneGives(s, run))
    ensures s.x.k.sem == 1 ==> run == []
    decreases |run|
  {
    if run != [] {
      assert IsHandler(run[0]);
      StepIsSafe(s, run[0]);
      HandlerGives(s, run[0]);
      HandlersInMessage(Next(s, run[0]), run[1..]);
    }
  }

  /** The handlers `run` between a timed-out take and the disabling of the interrupts, which then follows. */
  function RacedTimeout(s: System, run: seq<Step>): System
    requires InMessage(s.x.c) && IsRun(s, run)
  {
    var t := After(s, run);
    System(Xfer(t.x.c, Returned(EndStep(t.x.k).(sem := t.x.k.sem))), Idle)
  }

  /** The race is harmless exactly when none of the late handlers gives the semaphore itself. */
  lemma RaceIsSafe(s: System, run: seq<Step>)
    requires Safe(s) && s.phase == Waiting && s.x.k.sem == 0 && IsRun(s, run)
    requires forall i :: 0 <= i < |run| ==> IsHandler(run[i])
    ensures Safe(RacedTimeout(s, run)) <==> NoneGives(s, run)
  {
    HandlersInMessage(s, run);
  }

  /** If one does, the next message is reported complete before its first byte. */
  lemma StrayGiveEndsNextMessage(s: System, run: seq<Step>, buf: seq<byte>, stop: bool, joins: bool)
    requires Safe(s) && s.phase == Waiting && s.x.k.sem == 0 && IsRun(s, run)
    requires forall i :: 0 <= i < |run| ==> IsHandler(run[i])
    requires !NoneGives(s, run)
    ensures var begun := Next(Next(RacedTimeout(s, run), Begin(buf, stop, joins, false)), EnableData);
            Enabled(begun, Take) && begun.x.c.off == 0 && begun.x.c.sent == [] && Next(begun, Take).phase == Idle
  {
    HandlersInMessage(s, run);
  }

  /**
   What a disturbed start does: an arbitration loss between the two enables ends the message, the data interrupt is
   enabled all the same and stays so after the return, and its handler then stores into the buffer of the message.
   */
  lemma DisturbedStartStoresAfterReturn(s: System, buf: seq<byte>, stop: bool, joins: bool, f: Status)
    requires Safe(s) && s.phase == Idle && buf != [] && f.rdbf
    ensures var lost := Next(Next(s, Begin(buf, stop, joins, true)), Error(true, false));
            var done := Next(Next(lost, EnableData), Take);
            && done.phase == Idle && !Safe(done) && Enabled(done, Event(f))
            && Next(done, Event(f)).x.c.buf == buf[0 := f.rx]
  {
  }

  // ---- Which bytes are moved ----

  /** The bytes moved so far, in the direction of the message. */
  function Moved(c: Cursor, read: bool): seq<byte> {
    if read then c.got else c.sent
  }

  /** The data register is ready for the next byte in that direction. */
  predicate Ready(f: Status, read: bool) {
    if read then f.rdbf else f.tdbe
  }

  function Events(c: Cursor, fs: seq<Status>): (r: Cursor)
    requires InMessage(c)
    ensures InMessage(r)
  {
    if fs == [] then c else ByteStep(Events(c, fs[..|fs| - 1]), fs[|fs| - 1])
  }

  /** The events that arrive while bytes remain and the data register is not ready. */
  function Gaps(c: Cursor, fs: seq<Status>, read: bool): nat
    requires InMessage(c)
  {
    if fs == [] then 0
    else
      Gaps(c, fs[..|fs| - 1], read)
      + if Events(c, fs[..|fs| - 1]).len > 0 && !Ready(fs[|fs| - 1], read) then 1 else 0
  }

  /** The bytes moved are at most those before the position, and if no gap is among them exactly these. */
  predicate InOrder(c: Cursor, read: bool)
    requires InMessage(c)
  {
    |Moved(c, read)| <= c.off && (|Moved(c, read)| == c.off ==> Moved(c, read) == c.buf[..c.off])
  }

  lemma ByteKeepsOrder(c: Cursor, f: Status, read: bool)
    requires InMessage(c) && InOrder(c, read) && (read || !f.rdbf)
    ensures var d := ByteStep(c, f);
            && InOrder(d, read) && |d.buf| == |c.buf| && (read || d.buf == c.buf)
            && (|Moved(c, read)| == |c.buf| ==> d == c)
  {
  }

  lemma {:induction false} EventsMoveInOrder(c: Cursor, fs: seq<Status>, read: bool)
    requires InMessage(c) && c.off == 0 && c.sent == c.got == []
    requires read || forall i :: 0 <= i < |fs| ==> !fs[i].rdbf
    ensures var d := Events(c, fs);
            && InOrder(d, read) && |d.buf| == |c.buf| && (read || d.buf == c.buf)
            && |Moved(d, read)| + Gaps(c, fs, read) == d.off
  {
    if fs != [] {
      var init := fs[..|fs| - 1];
      EventsMoveInOrder(c, init, read);
      ByteKeepsOrder(Events(c, init), fs[|fs| - 1], read);
    }
  }

  /**
   A write has sent exactly the bytes before its position, and a read has filled these with the bytes received, if and
   only if no event came with bytes remaining and the data register not ready: the handler moves on without looking.
   */
  lemma MessageIsCompleteIff(c: Cursor, fs: seq<Status>, read: bool)
    requires InMessage(c) && c.off == 0 && c.sent == c.got == []
    requires read || forall i :: 0 <= i < |fs| ==> !fs[i].rdbf
    ensures Moved(Events(c, fs), read) == Events(c, fs).buf[..Events(c, fs).off] <==> Gaps(c, fs, read) == 0
  {
    EventsMoveInOrder(c, fs, read);
  }

  // ---- A message that succeeds ----

  /**
   What the device keeps to during a message: in a write it receives nothing, it reports the transfer complete only
   when all bytes were moved, and a STOP only after one was requested.
   */
  predicate Lawful(s: System, e: Step, read: bool)
    requires InMessage(s.x.c)
  {
    e.Event? ==>
      && (read || !e.f.rdbf)
      && (e.f.tdc || e.f.tcrld ==> |Moved(ByteStep(s.x.c, e.f), read)| == |s.x.c.buf|)
      && (e.f.stopf ==> s.x.k.stops > 0)
  }

  predicate LawfulRun(s: System, run: seq<Step>, read: bool)
    requires InMessage(s.x.c) && IsRun(s, run)
    decreases |run|
  {
    run == [] || (Lawful(s, run[0], read) && LawfulRun(Next(s, run[0]), run[1..], read))
  }

  predicate Unmarked(k: Control) {
    !k.nack && !k.arlo && !k.err
  }

  /** During a message whose buffer held `buf` at the start. */
  predicate Moving(s: System, buf: seq<byte>, read: bool) {
    var c, k := s.x.c, s.x.k;
    && InMessage(c) && InOrder(c, read) && |c.buf| == |buf| && (read || c.buf == buf)
    && (Unmarked(k) ==>
          && (k.sem > 0 || k.stops > 0 ==> |Moved(c, read)| == |buf|)
          && (k.stops > 0 ==> k.stop) && (k.sem > 0 && k.stop ==> k.stops > 0))
  }

  lemma StepKeepsMoving(s: System, e: Step, buf: seq<byte>, read: bool)
    requires Moving(s, buf, read) && Enabled(s, e) && Lawful(s, e, read) && (IsHandler(e) || e.EnableData?)
    ensures Moving(Next(s, e), buf, read)
  {
    if e.Event? {
      ByteKeepsOrder(s.x.c, e.f, read);
    }
  }

  lemma {:induction false} RunKeepsMoving(s: System, run: seq<Step>, buf: seq<byte>, read: bool)
    requires Moving(s, buf, read) && IsRun(s, run) && LawfulRun(s, run, read)
    requires forall i :: 0 <= i < |run| ==> IsHandler(run[i]) || run[i].EnableData?
    ensures Moving(After(s, run), buf, read)
    decreases |run|
  {
    if run != [] {
      assert IsHandler(run[0]) || run[0].EnableData?;
      StepKeepsMoving(s, run[0], buf, read);
      RunKeepsMoving(Next(s, run[0]), run[1..], buf, read);
    }
  }

  /** The bytes that events of the run found in the receive register. */
  function Arrived(run: seq<Step>): seq<byte> {
    if run == [] then [] else ArrivedWith(run[0]) + Arrived(run[1..])
  }

  function ArrivedWith(e: Step): seq<byte> {
    if e.Event? && e.f.rdbf then [e.f.rx] else []
  }

  lemma TakenWith(s: System, e: Step)
    requires InMessage(s.x.c) && Enabled(s, e) && (IsHandler(e) || e.EnableData?)
    ensures var t := Next(s, e);
            && t.x.c.got == s.x.c.got + (if s.x.c.len > 0 then ArrivedWith(e) else [])
            && (s.x.c.len == 0 ==> t.x.c.len == 0)
  {
  }

  lemma PrefixRegrouped(all: seq<byte>, got: seq<byte>, first: seq<byte>, rest: seq<byte>)
    requires all <= got + first + rest
    ensures all <= got + (first + rest)
  {
    assert got + first + rest == got + (first + rest);
  }

  /** The bytes taken are the first of those, for a run of any handlers. */
  lemma {:induction false} TakenInOrder(s: System, run: seq<Step>)
    requires InMessage(s.x.c) && IsRun(s, run)
    requires forall i :: 0 <= i < |run| ==> IsHandler(run[i]) || run[i].EnableData?
    ensures After(s, run).x.c.got <= s.x.c.got + Arrived(run)
    ensures s.x.c.len == 0 ==> After(s, run).x.c.got == s.x.c.got
    decreases |run|
  {
    if run != [] {
      assert IsHandler(run[0]) || run[0].EnableData?;
      TakenWith(s, run[0]);
      TakenInOrder(Next(s, run[0]), run[1..]);
      if s.x.c.len > 0 {
        PrefixRegrouped(After(s, run).x.c.got, s.x.c.got, ArrivedWith(run[0]), Arrived(run[1..]));
      }
    }
  }

  /**
   A message that gets its semaphore without an error mark, on a device that keeps to the law, was moved completely,
   and a STOP was requested exactly if it asks for one.
   */
  lemma SuccessMeansMoved(s: System, buf: seq<byte>, stop: bool, joins: bool, read: bool, run: seq<Step>)
    requires Safe(s) && s.phase == Idle
    requires var begun := Next(s, Begin(buf, stop, joins, read)); IsRun(begun, run) && LawfulRun(begun, run, read)
    requires forall i :: 0 <= i < |run| ==> IsHandler(run[i]) || run[i].EnableData?
    ensures var t := After(Next(s, Begin(buf, stop, joins, read)), run);
            Enabled(t, Take) && Unmarked(t.x.k) ==>
              Moved(t.x.c, read) == t.x.c.buf && |t.x.c.buf| == |buf| && (t.x.k.stop <==> t.x.k.stops > 0)
  {
    var begun := Next(s, Begin(buf, stop, joins, read));
    RunKeepsMoving(begun, run, buf, read);
    var c := After(begun, run).x.c;
    assert c.buf[..|c.buf|] == c.buf;
  }

  /** Such a write has sent every byte of the message in order. */
  lemma SuccessMeansSent(s: System, buf: seq<byte>, stop: bool, joins: bool, run: seq<Step>)
    requires Safe(s) && s.phase == Idle
    requires var begun := Next(s, Begin(buf, stop, joins, false)); IsRun(begun, run) && LawfulRun(begun, run, false)
    requires forall i :: 0 <= i < |run| ==> IsHandler(run[i]) || run[i].EnableData?
    ensures var t := After(Next(s, Begin(buf, stop, joins, false)), run);
            Enabled(t, Take) && Unmarked(t.x.k) ==>
              t.x.c.sent == t.x.c.buf == buf && (t.x.k.stop <==> t.x.k.stops > 0)
  {
    var begun := Next(s, Begin(buf, stop, joins, false));
    RunKeepsMoving(begun, run, buf, false);
    SuccessMeansMoved(s, buf, stop, joins, false, run);
  }

  /** Such a read has stored in its buffer the first bytes that arrived, in order, as many as it asked for. */
  lemma SuccessMeansReceived(s: System, buf: seq<byte>, stop: bool, joins: bool, run: seq<Step>)
    requires Safe(s) && s.phase == Idle
    requires var begun := Next(s, Begin(buf, stop, joins, true)); IsRun(begun, run) && LawfulRun(begun, run, true)
    requires forall i :: 0 <= i < |run| ==> IsHandler(run[i]) || run[i].EnableData?
    ensures var t := After(Next(s, Begin(buf, stop, joins, true)), run);
            Enabled(t, Take) && Unmarked(t.x.k) ==>
              |t.x.c.buf| == |buf| && t.x.c.buf <= Arrived(run) && (t.x.k.stop <==> t.x.k.stops > 0)
  {
    var begun := Next(s, Begin(buf, stop, joins, true));
    SuccessMeansMoved(s, buf, stop, joins, true, run);
    TakenInOrder(begun, run);
    assert begun.x.c.got + Arrived(run) == Arrived(run);
  }

  // ---- What each event does to the signals ----

  /** The event handler takes an event for the end of the transfer. */
  predicate Completes(f: Status) {
    !f.ackFail && !f.stopf && (f.tdc || f.tcrld)
  }

  /**
   One STOP is requested for a NACK, and one for a completed transfer exactly if the message asks for it; a completion
   without a STOP, and the STOP itself, end the message; the STOP turns the peripheral and the reload bit off.
   */
  predicate Signals(k: Control, f: Status, d: Control) {
    var stopped, ended := !f.ackFail && f.stopf, Completes(f) && !k.stop;
    && d.stops == k.stops + (if f.ackFail || (Completes(f) && k.stop) then 1 else 0)
    && d.sem == k.sem + (if stopped || ended then 1 else 0)
    && (d.ctl <==> k.ctl && !stopped && !ended) && (d.data <==> k.data && !stopped && !ended)
    && (d.on <==> k.on && !stopped) && (d.reload <==> k.reload && !stopped)
    && (d.nack <==> k.nack || f.ackFail) && d.arlo == k.arlo && d.err == k.err && d.stop == k.stop
  }

  lemma EventIsExact(s: System, f: Status)
    requires InMessage(s.x.c) && Enabled(s, Event(f))
    ensures Signals(s.x.k, f, Next(s, Event(f)).x.k)
  {
    SignalIsExact(s.x.k, f);
  }

  lemma SignalIsExact(k: Control, f: Status)
    ensures Signals(k, f, SignalStep(k, f))
  {
  }

  /**
   The first enable begins the message at its first byte without a STOP or a mark, but for an old loss of arbitration,
   which a write does not clear. The reload bit is as msg_init leaves it, and the peripheral is on.
   */
  lemma BeginIsExact(s: System, buf: seq<byte>, stop: bool, joins: bool, read: bool)
    requires InMessage(s.x.c) && s.phase == Idle && (s.x.k.reload ==> s.x.k.on)
    ensures var t := Next(s, Begin(buf, stop, joins, read));
            var c, k := t.x.c, t.x.k;
            && c.buf == buf && c.off == 0 && c.len == |buf| && Moved(c, read) == []
            && k.stop == stop && k.stops == 0 && !k.nack && !k.err && (k.arlo <==> s.x.k.arlo && !read)
            && k.ctl && k.data == s.x.k.data && k.sem == s.x.k.sem && k.on
            && (k.reload <==> s.x.k.reload || (joins && !stop))
  {
  }

  /** A loss of arbitration is marked before a bus error is looked at; either ends the message. */
  lemma ErrorIsExact(s: System, arbitrationLost: bool, busError: bool)
    requires InMessage(s.x.c) && Enabled(s, Error(arbitrationLost, busError))
    ensures var k, d := s.x.k, Next(s, Error(arbitrationLost, busError)).x.k;
            var ends := arbitrationLost || busError;
            && (d.arlo <==> k.arlo || arbitrationLost) && (d.err <==> k.err || (busError && !arbitrationLost))
            && d.sem == k.sem + (if ends then 1 else 0) && d.stops == k.stops && d.nack == k.nack
            && (d.ctl <==> k.ctl && !ends) && (d.data <==> k.data && !ends)
            && (d.on <==> k.on && !ends) && (d.reload <==> k.reload && !ends)
  {
  }

  // ---- A message on a bus without trouble ----

  /** The steps `run` lead from `s` to `t`, and the device keeps to the law in them. */
  predicate Leads(s: System, run: seq<Step>, read: bool, t: System)
    requires InMessage(s.x.c)
  {
    IsRun(s, run) && LawfulRun(s, run, read) && After(s, run) == t
  }

  lemma {:induction false} LeadsOn(s: System, run: seq<Step>, read: bool, t: System, more: seq<Step>, u: System)
    requires InMessage(s.x.c) && InMessage(t.x.c)
    requires Leads(s, run, read, t) && Leads(t, more, read, u)
    ensures Leads(s, run + more, read, u)
    decreases |run|
  {
    if run == [] {
      assert run + more == more;
    } else {
      LeadsOn(Next(s, run[0]), run[1..], read, t, more, u);
      assert (run + more)[1..] == run[1..] + more;
    }
  }

  lemma LeadsOne(s: System, e: Step, read: bool)
    requires InMessage(s.x.c) && Enabled(s, e) && Lawful(s, e, read)
    ensures Leads(s, [e], read, Next(s, e))
  {
    assert IsRun(Next(s, e), [e][1..]);
  }

  const QUIET := Status(false, false, 0, false, false, false, false)

  /** The data register is ready for a byte; in a read it holds `b`. */
  function ByteEvent(read: bool, b: byte): Step {
    Event(if read then QUIET.(rdbf := true, rx := b) else QUIET.(tdbe := true))
  }

  function ByteEvents(read: bool, data: seq<byte>): (run: seq<Step>)
    ensures |run| == |data|
  {
    if data == [] then [] else [ByteEvent(read, data[0])] + ByteEvents(read, data[1..])
  }

  /** The transfer is complete, with or without the reload bit. */
  function DoneEvent(reload: bool): Step {
    Event(if reload then QUIET.(tcrld := true) else QUIET.(tdc := true))
  }

  const STOPPED := Event(QUIET.(stopf := true))
  const NACKED := Event(QUIET.(ackFail := true))

  /** The state after `data` has been moved. */
  function MovedOn(s: System, read: bool, data: seq<byte>): System
    requires InMessage(s.x.c) && |data| <= s.x.c.len
  {
    var c, n := s.x.c, |data|;
    var d := c.(off := c.off + n, len := c.len - n);
    s.(x := s.x.(c := if read then d.(got := c.got + data, buf := c.buf[..c.off] + data + c.buf[c.off + n..])
                      else d.(sent := c.sent + c.buf[c.off..c.off + n])))
  }

  lemma MovedOne(s: System, read: bool, data: seq<byte>)
    requires InMessage(s.x.c) && 0 < |data| <= s.x.c.len && (s.x.k.ctl || s.x.k.data)
    ensures Next(s, ByteEvent(read, data[0])) == MovedOn(s, read, data[..1])
    ensures MovedOn(MovedOn(s, read, data[..1]), read, data[1..]) == MovedOn(s, read, data)
  {
    assert data[..1] == [data[0]];
    if read {
      ReadOne(s, data);
    } else {
      Taken(s.x.c.buf, s.x.c.off, |data|, s.x.c.sent);
    }
  }

  lemma ReadOne(s: System, data: seq<byte>)
    requires InMessage(s.x.c) && 0 < |data| <= s.x.c.len && (s.x.k.ctl || s.x.k.data)
    ensures Next(s, ByteEvent(true, data[0])) == MovedOn(s, true, data[..1])
    ensures MovedOn(MovedOn(s, true, data[..1]), true, data[1..]) == MovedOn(s, true, data)
  {
    var c := s.x.c;
    assert data[..1] == [data[0]];
    assert c.buf[c.off := data[0]] == c.buf[..c.off] + data[..1] + c.buf[c.off + 1..];
    Filled(c.buf, c.off, data);
    assert c.got + data == c.got + data[..1] + data[1..];
  }

  lemma Filled(buf: seq<byte>, off: nat, data: seq<byte>)
    requires data != [] && off + |data| <= |buf|
    ensures var one := buf[..off] + data[..1] + buf[off + 1..];
            one[..off + 1] + data[1..] + one[off + |data|..] == buf[..off] + data + buf[off + |data|..]
  {
    var one := buf[..off] + data[..1] + buf[off + 1..];
    assert one[..off + 1] == buf[..off] + data[..1];
    assert one[off + |data|..] == buf[off + |data|..];
    assert data == data[..1] + data[1..];
  }

  lemma Taken(buf: seq<byte>, off: nat, n: nat, sent: seq<byte>)
    requires 0 < n && off + n <= |buf|
    ensures buf[off..off + 1] == [buf[off]]
    ensures sent + buf[off..off + 1] + buf[off + 1..off + n] == sent + buf[off..off + n]
  {
    assert buf[off..off + n] == buf[off..off + 1] + buf[off + 1..off + n];
  }

  lemma {:induction false} BytesLead(s: System, read: bool, data: seq<byte>)
    requires InMessage(s.x.c) && |data| <= s.x.c.len && (s.x.k.ctl || s.x.k.data)
    ensures Leads(s, ByteEvents(read, data), read, MovedOn(s, read, data))
    decreases |data|
  {
    if data == [] {
      assert s.x.c.buf[..s.x.c.off] + s.x.c.buf[s.x.c.off..] == s.x.c.buf;
    } else {
      MovedOne(s, read, data);
      LeadsOne(s, ByteEvent(read, data[0]), read);
      BytesLead(Next(s, ByteEvent(read, data[0])), read, data[1..]);
      LeadsOn(s, [ByteEvent(read, data[0])], read, MovedOn(s, read, data[..1]), ByteEvents(read, data[1..]),
              MovedOn(s, read, data));
    }
  }

  /** The message has begun and both its groups of interrupts are enabled. */
  function Begun(s: System, buf: seq<byte>, stop: bool, joins: bool, read: bool): System
    requires Safe(s) && s.phase == Idle
  {
    Next(Next(s, Begin(buf, stop, joins, read)), EnableData)
  }

  /** The end of a message without trouble. */
  function Ending(stop: bool, reload: bool): seq<Step> {
    [DoneEvent(reload)] + if stop then [STOPPED] else []
  }

  /** Every byte, the completion, and the STOP if the message asks for one. */
  function NormalRun(read: bool, data: seq<byte>, stop: bool, reload: bool): seq<Step> {
    ByteEvents(read, data) + Ending(stop, reload)
  }

  /** Every byte was moved, and the interrupts wait for the completion. */
  predicate AllMoved(s: System, read: bool) {
    && InMessage(s.x.c) && s.phase == Waiting && s.x.k.ctl && s.x.k.data && s.x.k.stops == 0
    && |Moved(s.x.c, read)| == |s.x.c.buf| && s.x.c.len == 0
  }

  lemma CompletionLeads(s: System, read: bool, reload: bool)
    requires AllMoved(s, read)
    ensures var k := s.x.k;
            var d := if k.stop then k.(stops := 1) else k.(ctl := false, data := false, sem := k.sem + 1);
            Leads(s, [DoneEvent(reload)], read, s.(x := s.x.(k := d)))
  {
    LeadsOne(s, DoneEvent(reload), read);
  }

  lemma StopLeads(s: System, read: bool)
    requires InMessage(s.x.c) && s.x.c.len == 0 && s.x.k.ctl && s.x.k.stops > 0
    ensures Leads(s, [STOPPED], read, s.(x := s.x.(k := EndStep(s.x.k))))
  {
    LeadsOne(s, STOPPED, read);
  }

  lemma EndingLeads(s: System, read: bool, reload: bool)
    requires AllMoved(s, read)
    ensures var k := s.x.k;
            var d := if k.stop then EndStep(k.(stops := 1)) else k.(ctl := false, data := false, sem := k.sem + 1);
            Leads(s, Ending(k.stop, reload), read, s.(x := s.x.(k := d)))
  {
    CompletionLeads(s, read, reload);
    if s.x.k.stop {
      var t := s.(x := s.x.(k := s.x.k.(stops := 1)));
      StopLeads(t, read);
      LeadsOn(s, [DoneEvent(reload)], read, t, [STOPPED], t.(x := t.x.(k := EndStep(t.x.k))));
    } else {
      assert Ending(false, reload) == [DoneEvent(reload)];
    }
  }

  /**
   A message on a bus without trouble succeeds: a device that keeps to the law can move its bytes, complete it and,
   exactly if it asks for one, put one STOP on the bus; then the waiting thread can take its semaphore, finds no mark
   and all the bytes moved. After a STOP the peripheral is off, otherwise it stays on for the next message.
   */
  lemma NormalMessageSucceeds(s: System, buf: seq<byte>, stop: bool, joins: bool, read: bool, data: seq<byte>,
                              reload: bool) returns (t: System)
    requires Safe(s) && s.phase == Idle && |data| == |buf|
    ensures InMessage(t.x.c) && Leads(Begun(s, buf, stop, joins, read), NormalRun(read, data, stop, reload), read, t)
    ensures Enabled(t, Take) && Unmarked(t.x.k) && Safe(Next(t, Take))
    ensures t.x.k.stops == if stop then 1 else 0
    ensures Moved(t.x.c, read) == t.x.c.buf == if read then data else buf
    ensures t.x.k.on == !stop && t.x.k.reload == (!stop && (s.x.k.reload || joins))
  {
    var b := Begun(s, buf, stop, joins, read);
    var m := MovedOn(b, read, data);
    BytesLead(b, read, data);
    assert m.x.c.buf == if read then data else buf;
    assert Moved(m.x.c, read) == m.x.c.buf;
    EndingLeads(m, read, reload);
    t := After(m, Ending(stop, reload));
    LeadsOn(b, ByteEvents(read, data), read, m, Ending(stop, reload), t);
  }

  /** One that is not acknowledged, after any of its bytes, ends with one STOP and the mark that makes it fail. */
  lemma NackedMessageFails(s: System, buf: seq<byte>, stop: bool, joins: bool, read: bool, data: seq<byte>)
    returns (t: System)
    requires Safe(s) && s.phase == Idle && |data| <= |buf|
    ensures InMessage(t.x.c)
    ensures Leads(Begun(s, buf, stop, joins, read), ByteEvents(read, data) + [NACKED] + [STOPPED], read, t)
    ensures Enabled(t, Take) && t.x.k.nack && t.x.k.stops == 1 && !t.x.k.on && !t.x.k.reload && Safe(Next(t, Take))
  {
    var b := Begun(s, buf, stop, joins, read);
    var m := MovedOn(b, read, data);
    BytesLead(b, read, data);
    var n := Next(m, NACKED);
    LeadsOne(m, NACKED, read);
    LeadsOn(b, ByteEvents(read, data), read, m, [NACKED], n);
    t := Next(n, STOPPED);
    LeadsOne(n, STOPPED, read);
    LeadsOn(b, ByteEvents(read, data) + [NACKED], read, n, [STOPPED], t);
  }

  // ---- The driver ----

  class Driver {
    var buf: array<byte>
    var off: nat
    var len: nat
    var sent: seq<byte>
    var got: seq<byte>
    var k: Control          // the enables and registers, the semaphore and the marks

    ghost function Position(): Cursor
      reads this, buf
    {
      Cursor(buf[..], off, len, sent, got)
    }

    ghost function State(): Xfer
      reads this, buf
    {
      Xfer(Position(), k)
    }

    method DisableTransferInterrupts()
      modifies this`k
      ensures k == old(k).(ctl := false, data := false)
    {
      k := k.(ctl := false, data := false);
    }

    /** Events and errors; the data interrupt is enabled by a separate write. */
    method EnableTransferInterrupts()
      modifies this`k
      ensures k == old(k).(ctl := true)
    {
      k := k.(ctl := true);
    }

    /** The event interrupt. */
    method EventHandler(f: Status)
      requires InMessage(Position())
      modifies this, buf
      ensures buf == old(buf) && State() == EventStep(old(State()), f)
    {
      MoveByte(f);
      if f.ackFail {
        k := k.(nack := true);
        k := k.(stops := k.stops + 1);
        return;
      }
      if f.stopf {
        k := k.(reload := false);
        MasterModeEnd();
        return;
      }
      if f.tdc || f.tcrld {
        if k.stop {
          k := k.(stops := k.stops + 1);
        } else {
          DisableTransferInterrupts();
          k := k.(sem := k.sem + 1);
        }
      }
    }

    method MoveByte(f: Status)
      requires InMessage(Position())
      modifies this`sent, this`got, this`off, this`len, buf
      ensures buf == old(buf) && Position() == ByteStep(old(Position()), f)
    {
      if len > 0 {
        if f.tdbe {
          sent := sent + [buf[off]];
        }
        if f.rdbf {
          buf[off] := f.rx;
          got := got + [f.rx];
        }
        off := off + 1;
        len := len - 1;
      }
    }

    /** The error interrupt. */
    method ErrorHandler(arbitrationLost: bool, busError: bool) returns (rc: int)
      requires InMessage(Position())
      modifies this
      ensures buf == old(buf) && State() == Xfer(old(Position()), ErrorStep(old(k), arbitrationLost, busError))
      ensures rc == if arbitrationLost || busError then EIO else 0
    {
      if arbitrationLost {
        k := k.(arlo := true);
        MasterModeEnd();
        return EIO;
      }
      if busError {
        k := k.(err := true);
        MasterModeEnd();
        return EIO;
      }
      return 0;
    }

    method MasterModeEnd()
      modifies this
      ensures buf == old(buf) && Position() == old(Position()) && k == EndStep(old(k))
    {
      DisableTransferInterrupts();
      if k.reload {
        k := k.(reload := false);
      }
      k := k.(on := false);
      k := k.(sem := k.sem + 1);
    }

    /** msg_init, as far as it concerns the reload bit and the enable of the peripheral. */
    method MsgInit(joins: bool)
      modifies this`k
      ensures k == old(k).(reload := old(k.reload) || (!old(k.stop) && joins), on := old(k.on) || !old(k.reload))
    {
      if !k.reload {
        k := k.(reload := !k.stop && joins, on := true);
      }
    }

    /** Points the driver at a message and enables events and errors; only a read clears an old arbitration mark. */
    method BeginMessage(msg: array<byte>, stop: bool, joins: bool, read: bool)
      modifies this
      ensures buf == msg && State() == BeginStep(old(k), msg[..], stop, joins, read)
    {
      len, buf := msg.Length, msg;
      if read {
        k := k.(arlo := false);
      }
      k := k.(nack := false, err := false, stop := stop, stops := 0);
      off, sent, got := 0, [], [];
      MsgInit(joins);
      EnableTransferInterrupts();
    }

    method EnableDataInterrupt()
      requires InMessage(Position())
      modifies this`k
      ensures System(State(), Waiting) == Next(System(old(State()), Starting), EnableData)
    {
      k := k.(data := true);
    }

    /** Each mark that is set is cleared. */
    method ClearMarks()
      modifies this`k
      ensures k == Returned(old(k))
    {
      if k.arlo {
        k := k.(arlo := false);
      }
      if k.nack {
        k := k.(nack := false);
      }
      if k.err {
        k := k.(err := false);
      }
    }

    /** The thread after its take: `inTime` says whether the semaphore came within the time limit. */
    method EndMessage(inTime: bool) returns (ok: bool)
      requires InMessage(Position())
      requires Enabled(System(State(), Waiting), if inTime then Take else Timeout)
      modifies this
      ensures buf == old(buf)
      ensures System(State(), Idle) == Next(System(old(State()), Waiting), if inTime then Take else Timeout)
      ensures ok <==> inTime && Unmarked(old(k))
    {
      var timeout := false;
      if inTime {
        k := k.(sem := k.sem - 1);
      } else {
        MasterModeEnd();
        k := k.(sem := k.sem - 1);
        timeout := true;
      }
      if k.nack || k.err || k.arlo || timeout {
        ClearMarks();
        return false;
      }
      return true;
    }
  }
}
