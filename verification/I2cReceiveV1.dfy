/**
 Reception of an N-byte message by the version-1 driver: the interrupt handlers over every order of
 their events, and the polled loop, against what both must do on the bus (the last byte is answered
 with a NACK: section 3.1.6 of NXP UM10204).
 */
module I2cReceiveV1 {
  import opened MachineInt

  /**
   The state of a reception: the bytes stored, the bytes to go, the ACK and POS bits, the enable of
   the data interrupt, the gives of the semaphore, and, counted in bytes stored so far, when ACK
   went off and when STOP conditions were requested.
   */
  datatype Rx = Rx(stored: seq<byte>, len: nat, ack: bool, pos: bool, dataInt: bool, gives: nat,
                   ackOff: Option<nat>, stops: seq<nat>)

  /** The message: its length and whether it ends with a STOP. */
  datatype Msg = Msg(n: nat, stop: bool)

  const EMPTY_RX := Rx([], 0, true, false, true, 0, None, [])

  /** msg_init: ACK on, POS clear, interrupts on. */
  function Init(m: Msg): Rx {
    EMPTY_RX.(len := m.n)
  }

  function AckOff(r: Rx): Rx {
    if r.ack then r.(ack := false, ackOff := Some(|r.stored|)) else r
  }

  function Stop(r: Rx): Rx {
    r.(stops := r.stops + [|r.stored|])
  }

  function StopIf(r: Rx, stop: bool): Rx {
    if stop then Stop(r) else r
  }

  function Store(r: Rx, b: byte): Rx
    requires r.len > 0
  {
    r.(stored := r.stored + [b], len := r.len - 1)
  }

  // ---- The interrupt handlers (7-bit address) ----

  /** What the data register gives, read by read. */
  type Stream = nat -> byte

  /** Reads the data register once, and stores the byte. */
  function Take(r: Rx, incoming: Stream): Rx
    requires r.len > 0
  {
    Store(r, incoming(|r.stored|))
  }

  datatype Event = Rxne | Btf

  function AddrStep(m: Msg, r: Rx): Rx {
    if r.len == 0 then Stop(r)
    else if r.len == 1 then Stop(AckOff(r))
    else if r.len == 2 then AckOff(r).(pos := true)
    else r
  }

  function RxneStep(m: Msg, r: Rx, incoming: Stream): Rx {
    if r.len == 0 then StopIf(r, m.stop).(gives := r.gives + 1)
    else if r.len == 1 then
      Take(StopIf(AckOff(r).(pos := false), m.stop).(dataInt := false), incoming).(gives := r.gives + 1)
    else if r.len == 2 then if m.n > 2 then r else AckOff(r).(pos := true, dataInt := false)
    else if r.len == 3 then r.(dataInt := false)
    else Take(r, incoming)
  }

  function BtfStep(m: Msg, r: Rx, incoming: Stream): Rx {
    if r.len == 2 then Take(Take(StopIf(r, m.stop), incoming), incoming).(gives := r.gives + 1)
    else if r.len == 3 then Take(AckOff(r), incoming)
    else RxneStep(m, r, incoming)
  }

  function Step(m: Msg, r: Rx, incoming: Stream, e: Event): Rx {
    if e == Rxne then RxneStep(m, r, incoming) else BtfStep(m, r, incoming)
  }

  /** The state after the address phase and the events `es`, in any order. */
  function Run(m: Msg, incoming: Stream, es: seq<Event>): Rx {
    if es == [] then AddrStep(m, Init(m)) else Step(m, Run(m, incoming, es[..|es| - 1]), incoming, es[|es| - 1])
  }

  /** Where ACK must go off and STOP be requested while a message of two bytes or more is received. */
  function AckOffAt(m: Msg): nat {
    if m.n <= 3 then 0 else m.n - 3
  }

  predicate OnSchedule(m: Msg, r: Rx) {
    && |r.stored| + r.len == m.n
    && (r.len == 1 ==> m.n == 1)
    && (r.ack <==> r.ackOff == None)
    && (r.len <= 2 ==> !r.ack)
    && (r.ackOff.Some? ==> r.ackOff == Some(AckOffAt(m)))
    && (r.gives > 0 <==> r.len == 0)
    && (r.len > 0 ==> r.stops == if m.n == 1 then [0] else [])
  }

  /** The bytes are the first ones that came in. */
  ghost predicate IsPrefix(stored: seq<byte>, incoming: Stream) {
    forall i :: 0 <= i < |stored| ==> stored[i] == incoming(i)
  }

  /** Nothing, one or two bytes of what comes in were stored. */
  predicate Stores(before: seq<byte>, after: seq<byte>, incoming: Stream) {
    || after == before
    || after == before + [incoming(|before|)]
    || after == before + [incoming(|before|)] + [incoming(|before| + 1)]
  }

  lemma StoresKeepsPrefix(before: seq<byte>, after: seq<byte>, incoming: Stream)
    requires IsPrefix(before, incoming) && Stores(before, after, incoming)
    ensures IsPrefix(after, incoming)
  {
  }

  lemma StepStores(m: Msg, r: Rx, incoming: Stream, e: Event)
    ensures Stores(r.stored, Step(m, r, incoming, e).stored, incoming)
  {
  }

  lemma StepOnSchedule(m: Msg, r: Rx, incoming: Stream, e: Event)
    requires m.n >= 1 && OnSchedule(m, r)
    ensures OnSchedule(m, Step(m, r, incoming, e))
  {
    if e == Rxne {
      RxneOnSchedule(m, r, incoming);
    } else if r.len != 2 && r.len != 3 {
      RxneOnSchedule(m, r, incoming);
    }
  }

  lemma RxneOnSchedule(m: Msg, r: Rx, incoming: Stream)
    requires m.n >= 1 && OnSchedule(m, r)
    ensures OnSchedule(m, RxneStep(m, r, incoming))
  {
  }

  /**
   Over every order of the events: stored and remaining bytes make up the message, one byte remains
   only of a one-byte message, ACK is off in time for the last byte, and the thread is woken
   exactly when nothing remains.
   */
  lemma {:induction false} EveryOrderIsOnSchedule(m: Msg, incoming: Stream, es: seq<Event>)
    requires m.n >= 1
    ensures OnSchedule(m, Run(m, incoming, es))
  {
    if es != [] {
      EveryOrderIsOnSchedule(m, incoming, es[..|es| - 1]);
      StepOnSchedule(m, Run(m, incoming, es[..|es| - 1]), incoming, es[|es| - 1]);
    }
  }

  lemma StepKeepsPos(m: Msg, r: Rx, incoming: Stream, e: Event)
    requires m.n >= 1 && OnSchedule(m, r) && (r.pos <==> m.n == 2)
    ensures Step(m, r, incoming, e).pos <==> m.n == 2
  {
  }

  /** Over every order of the events, POS moves the NACK to the second byte exactly for a two-byte message. */
  lemma {:induction false} PosForTwoBytes(m: Msg, incoming: Stream, es: seq<Event>)
    requires m.n >= 1
    ensures Run(m, incoming, es).pos <==> m.n == 2
  {
    if es != [] {
      var r := Run(m, incoming, es[..|es| - 1]);
      EveryOrderIsOnSchedule(m, incoming, es[..|es| - 1]);
      PosForTwoBytes(m, incoming, es[..|es| - 1]);
      StepKeepsPos(m, r, incoming, es[|es| - 1]);
    }
  }

  /**
   A handler that leaves the byte in the data register turns the data interrupt off, so that it is not called for the
   same byte again; only with two bytes left of a longer message it does not.
   */
  lemma UnreadMeansSilent(m: Msg, incoming: Stream, es: seq<Event>, e: Event)
    requires m.n >= 1
    ensures var r, d := Run(m, incoming, es), Run(m, incoming, es + [e]);
            r.len > 0 && d.len == r.len ==> !d.dataInt || (r.len == 2 < m.n && d == r)
  {
    EveryOrderIsOnSchedule(m, incoming, es);
    assert (es + [e])[..|es|] == es;
  }

  /** While it can still be called, each handler but these stores a byte: the data interrupt is on above three bytes. */
  lemma {:induction false} DataInterruptStays(m: Msg, incoming: Stream, es: seq<Event>)
    requires m.n >= 1 && Run(m, incoming, es).len > 3
    ensures Run(m, incoming, es).dataInt
  {
    if es != [] {
      EveryOrderIsOnSchedule(m, incoming, es[..|es| - 1]);
      DataInterruptStays(m, incoming, es[..|es| - 1]);
    }
  }

  /** A message without bytes asks for a STOP at its address, and again at every event if it asks for one. */
  lemma {:induction false} EmptyMessage(stop: bool, incoming: Stream, es: seq<Event>)
    ensures var r := Run(Msg(0, stop), incoming, es);
            && r.stored == [] && r.len == 0 && r.ack && !r.pos && r.gives == |es|
            && r.stops == seq(if stop then |es| + 1 else 1, _ => 0)
  {
    if es != [] {
      EmptyMessage(stop, incoming, es[..|es| - 1]);
    }
  }

  /** Over every order of the events, the bytes stored are the first ones that came in, in order and without a gap. */
  lemma {:induction false} StoredIsPrefix(m: Msg, incoming: Stream, es: seq<Event>)
    ensures IsPrefix(Run(m, incoming, es).stored, incoming)
  {
    if es != [] {
      var r := Run(m, incoming, es[..|es| - 1]);
      StoredIsPrefix(m, incoming, es[..|es| - 1]);
      StepStores(m, r, incoming, es[|es| - 1]);
      StoresKeepsPrefix(r.stored, Run(m, incoming, es).stored, incoming);
    }
  }

  /** The handler that takes a single byte has it answered by a NACK, in whatever state it finds the bits. */
  lemma SingleByteTaken(m: Msg, r: Rx, incoming: Stream, e: Event)
    requires r.len == 1
    ensures var d := Step(m, r, incoming, e);
            && !d.ack && !d.pos && !d.dataInt && d.len == 0 && d.stored == r.stored + [incoming(|r.stored|)]
            && d.gives == r.gives + 1 && d.stops == r.stops + if m.stop then [|r.stored|] else []
  {
  }

  /** The first byte of two finds the same bits as the address match leaves, in whatever state they were. */
  lemma FirstOfTwoPrepares(m: Msg, r: Rx, incoming: Stream)
    requires r.len == 2 >= m.n
    ensures var d := Step(m, r, incoming, Rxne);
            !d.ack && d.pos && !d.dataInt && d.stored == r.stored && d.stops == r.stops && d.gives == r.gives
  {
  }

  // ---- What a complete reception has done ----

  /** The bus activity of a reception of two or more bytes: NACK in time, STOP before the last two bytes. */
  predicate ReceivedWell(m: Msg, r: Rx) {
    r.len == 0 && |r.stored| == m.n && r.ackOff == Some(AckOffAt(m)) && r.stops == if m.stop then [m.n - 2] else []
  }

  /** The event that takes the last bytes completes the reception of two or more bytes as it should. */
  lemma CompletingEvent(m: Msg, incoming: Stream, es: seq<Event>, e: Event)
    requires m.n >= 2
    requires Run(m, incoming, es).len > 0 && Run(m, incoming, es + [e]).len == 0
    ensures ReceivedWell(m, Run(m, incoming, es + [e])) && Run(m, incoming, es + [e]).gives == 1
    ensures IsPrefix(Run(m, incoming, es + [e]).stored, incoming)
  {
    EveryOrderIsOnSchedule(m, incoming, es);
    StoredIsPrefix(m, incoming, es + [e]);
    assert (es + [e])[..|es|] == es;
    CompletingStep(m, Run(m, incoming, es), incoming, e);
  }

  lemma CompletingStep(m: Msg, r: Rx, incoming: Stream, e: Event)
    requires m.n >= 2 && OnSchedule(m, r) && r.len > 0 && Step(m, r, incoming, e).len == 0
    ensures ReceivedWell(m, Step(m, r, incoming, e)) && Step(m, r, incoming, e).gives == 1
  {
  }

  /** A one-byte message gets a STOP at its address in any case, and a second one if it asks for a STOP. */
  lemma OneByteMessage(stop: bool, incoming: Stream, es: seq<Event>, e: Event)
    requires Run(Msg(1, stop), incoming, es).len > 0 && Run(Msg(1, stop), incoming, es + [e]).len == 0
    ensures var r := Run(Msg(1, stop), incoming, es + [e]);
            |r.stored| == 1 && r.ackOff == Some(0) && r.gives == 1 && r.stops == if stop then [0, 0] else [0]
  {
    EveryOrderIsOnSchedule(Msg(1, stop), incoming, es);
    assert (es + [e])[..|es|] == es;
  }

  // ---- The handlers on the driver's state ----

  class Receiver {
    const m: Msg
    const buf: array<byte>
    const incoming: Stream  // the data register
    var len: nat
    var ack: bool
    var pos: bool
    var dataInt: bool
    var gives: nat
    ghost var ackOff: Option<nat>
    ghost var stops: seq<nat>

    ghost predicate Valid()
      reads this
    {
      m.n <= buf.Length && len <= m.n
    }

    ghost function State(): Rx
      requires Valid()
      reads this, buf
    {
      Rx(buf[..m.n - len], len, ack, pos, dataInt, gives, ackOff, stops)
    }

    /** msg_init: points at the message and turns ACK on. */
    constructor (m: Msg, buf: array<byte>, incoming: Stream)
      requires m.n <= buf.Length
      ensures this.m == m && this.buf == buf && this.incoming == incoming && Valid() && State() == Init(m)
    {
      this.m, this.buf, this.incoming := m, buf, incoming;
      len, ack, pos, dataInt, gives := m.n, true, false, true, 0;
      ackOff, stops := None, [];
    }

    method DisableAck()
      requires Valid()
      modifies this`ack, this`ackOff
      ensures State() == AckOff(old(State()))
    {
      if ack {
        ackOff := Some(m.n - len);
      }
      ack := false;
    }

    method GenerateStop()
      requires Valid()
      modifies this`stops
      ensures State() == Stop(old(State()))
    {
      stops := stops + [m.n - len];
    }

    /** Reads the data register and stores the byte. */
    method StoreByte()
      requires Valid() && len > 0
      modifies this`len, buf
      ensures Valid() && State() == Take(old(State()), incoming)
    {
      var b := incoming(m.n - len);
      len := len - 1;
      buf[m.n - len - 1] := b;
      assert buf[..m.n - len] == old(buf[..m.n - len]) + [b];
    }

    method HandleAddr()
      requires Valid()
      modifies this
      ensures Valid() && State() == AddrStep(m, old(State()))
    {
      if len == 0 {
        GenerateStop();
      } else if len == 1 {
        DisableAck();
        GenerateStop();
      } else if len == 2 {
        DisableAck();
        pos := true;
      }
    }

    method LastByte()
      requires Valid() && len == 1
      modifies this, buf
      ensures Valid() && State() == RxneStep(m, old(State()), incoming)
    {
      DisableAck();
      pos := false;
      if m.stop {
        GenerateStop();
      }
      dataInt := false;
      StoreByte();
      gives := gives + 1;
    }

    method HandleRxne()
      requires Valid()
      modifies this, buf
      ensures Valid() && State() == RxneStep(m, old(State()), incoming)
    {
      if len > 0 {
        match len {
          case 1 =>
            LastByte();
          case 2 =>
            if m.n <= 2 {
              DisableAck();
              pos := true;
              dataInt := false;
            }
          case 3 =>
            dataInt := false;
          case _ =>
            StoreByte();
        }
      } else {
        if m.stop {
          GenerateStop();
        }
        gives := gives + 1;
      }
    }

    method HandleBtf()
      requires Valid()
      modifies this, buf
      ensures Valid() && State() == BtfStep(m, old(State()), incoming)
    {
      match len {
        case 2 =>
          if m.stop {
            GenerateStop();
          }
          StoreByte();
          StoreByte();
          gives := gives + 1;
        case 3 =>
          DisableAck();
          StoreByte();
        case _ =>
          HandleRxne();
      }
    }
  }

  // ---- The polled loop ----

  /** The state of a polled reception at the head of its loop. */
  predicate Polling(m: Msg, addressed: bool, r: Rx) {
    && |r.stored| + r.len == m.n
    && (r.len == 1 ==> m.n == 1)
    && (r.ack <==> r.ackOff == None)
    && (r.ackOff.Some? ==> r.ackOff == Some(AckOffAt(m)))
    && (r.ackOff == None <==> r.len > 2 || m.n == 0 || (!addressed && m.n <= 2))
    && r.stops == if r.len > 0 || m.n == 0 || !m.stop then [] else if m.n == 1 then [0] else [m.n - 2]
  }

  /** One round of the loop: the last two bytes are taken together. */
  function PolledStep(m: Msg, r: Rx, incoming: Stream): Rx
    requires r.len > 0
  {
    if r.len == 1 then Take(StopIf(r, m.stop), incoming)
    else if r.len == 2 then Take(Take(StopIf(r, m.stop), incoming), incoming)
    else if r.len == 3 then Take(AckOff(r), incoming)
    else Take(r, incoming)
  }

  lemma PolledStepKeepsPolling(m: Msg, addressed: bool, r: Rx, incoming: Stream)
    requires r.len > 0 && Polling(m, addressed, r)
    ensures Polling(m, addressed, PolledStep(m, r, incoming)) && PolledStep(m, r, incoming).len < r.len
    ensures PolledStep(m, r, incoming).pos == r.pos
  {
  }

  lemma PolledStepStores(m: Msg, r: Rx, incoming: Stream)
    requires r.len > 0
    ensures Stores(r.stored, PolledStep(m, r, incoming).stored, incoming)
  {
  }

  method PolledRound(m: Msg, incoming: Stream, r0: Rx) returns (r: Rx)
    requires r0.len > 0
    ensures r == PolledStep(m, r0, incoming)
  {
    r := r0;
    match r0.len {
      case 1 =>
        if m.stop {
          r := Stop(r);
        }
        r := Take(r, incoming);
      case 2 =>
        if m.stop {
          r := Stop(r);
        }
        r := Take(r, incoming);
        r := Take(r, incoming);
      case 3 =>
        r := AckOff(r);
        r := Take(r, incoming);
      case _ =>
        r := Take(r, incoming);
    }
  }

  /** A polled reception. */
  method PolledRead(m: Msg, addressed: bool, incoming: Stream) returns (r: Rx)
    ensures r.len == 0 && |r.stored| == m.n && IsPrefix(r.stored, incoming)
    ensures m.n >= 2 && (addressed || m.n > 2) ==> ReceivedWell(m, r)
    ensures m.n == 1 ==> r.stops == if m.stop then [0] else []
    ensures r.ackOff == None <==> m.n == 0 || (!addressed && m.n <= 2)
    ensures r.pos <==> addressed && m.n == 2
  {
    r := Init(m);
    if addressed {
      if r.len == 1 {
        r := AckOff(r);
      } else if r.len == 2 {
        r := AckOff(r).(pos := true);
      }
    }
    while r.len > 0
      invariant Polling(m, addressed, r) && IsPrefix(r.stored, incoming) && (r.pos <==> addressed && m.n == 2)
    {
      ghost var before := r;
      r := PolledRound(m, incoming, r);
      PolledStepKeepsPolling(m, addressed, before, incoming);
      PolledStepStores(m, before, incoming);
      StoresKeepsPrefix(before.stored, r.stored, incoming);
    }
  }

  // ---- Addressing by interrupt ----

  /** The flag that tells the second START of a 10-bit read from the first, and the last header sent. */
  datatype Addressing = Addressing(isRestart: bool, starts: nat, readHeaders: nat)

  /** START sent: in 10-bit mode the header carries the read bit only at the second START. */
  function SbStep(a: Addressing, tenBit: bool, write: bool): Addressing {
    if tenBit then
      if !a.isRestart then a.(isRestart := true)
      else a.(isRestart := false, readHeaders := a.readHeaders + 1)
    else if write then a
    else a.(readHeaders := a.readHeaders + 1)
  }

  /** Address matched: a 10-bit read answers with another START, or goes on to receive. */
  function MatchStep(a: Addressing, tenBit: bool, write: bool): Addressing {
    if tenBit && !write && a.isRestart then a.(isRestart := false, starts := a.starts + 1) else a
  }

  /** The first START of a 10-bit address sends the header for writing, a second one that for reading. */
  lemma SecondStartReads(a: Addressing, write: bool)
    requires !a.isRestart
    ensures var once := SbStep(a, true, write);
            once.isRestart && once.readHeaders == a.readHeaders && once.starts == a.starts
    ensures SbStep(SbStep(a, true, write), true, write) == a.(readHeaders := a.readHeaders + 1)
  {
  }

  /** Only a 10-bit read asks for a second START at its address match. */
  lemma MatchAsksIff(a: Addressing, tenBit: bool, write: bool)
    ensures MatchStep(a, tenBit, write).starts == a.starts + (if tenBit && !write && a.isRestart then 1 else 0)
    ensures !tenBit ==> SbStep(a, false, write).readHeaders == a.readHeaders + (if write then 0 else 1)
  {
  }

  /** `n` rounds of START and address match in a read. */
  function Rounds(tenBit: bool, n: nat): Addressing {
    if n == 0 then Addressing(false, 1, 0)
    else MatchStep(SbStep(Rounds(tenBit, n - 1), tenBit, false), tenBit, false)
  }

  /**
   A 10-bit read by interrupt never sends its read header: the address match clears the mark that
   the second START needs, so every round asks for one more START. A 7-bit read sends it at once.
   */
  lemma {:induction false} TenBitReadNeverStarts(n: nat)
    ensures Rounds(true, n) == Addressing(false, n + 1, 0)
    ensures n > 0 ==> Rounds(false, n).readHeaders > 0
  {
    if n > 0 {
      TenBitReadNeverStarts(n - 1);
    }
  }
}
