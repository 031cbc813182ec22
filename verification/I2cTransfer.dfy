/** The polled version-2 transfer stack: transfer, chunked transaction, message write and read. */
module I2cTransfer {
  import opened MachineInt
  import opened I2cWire

  /** A message of the caller: `len` bytes of `buf` from `off` on. */
  datatype Msg = Msg(buf: array<byte>, off: nat, len: nat, flags: Flags)

  ghost predicate InBuffer(m: Msg) {
    m.off + m.len <= m.buf.Length
  }

  ghost function Bytes(m: Msg): (r: seq<byte>)
    requires InBuffer(m)
    reads m.buf
    ensures |r| == m.len
  {
    m.buf[m.off..m.off + m.len]
  }

  /** Outside [off..off + len] the two contents agree. */
  ghost predicate Untouched(before: seq<byte>, after: seq<byte>, off: nat, len: nat) {
    |before| == |after| && forall i :: 0 <= i < |before| && !(off <= i < off + len) ==> before[i] == after[i]
  }

  /** `data` was carried from or to the buffer at `off`: the buffer holds it, and only a read has changed that part. */
  ghost predicate Took(before: seq<byte>, after: seq<byte>, off: nat, read: bool, data: seq<byte>) {
    && off + |data| <= |after| && data == after[off..off + |data|]
    && Untouched(before, after, off, if read then |data| else 0)
  }

  /** What is carried after that. */
  lemma TookMore(before: seq<byte>, mid: seq<byte>, after: seq<byte>, off: nat, read: bool, data: seq<byte>,
                 more: seq<byte>)
    requires Took(before, mid, off, read, data) && Took(mid, after, off + |data|, read, more)
    ensures Took(before, after, off, read, data + more)
  {
    forall k | 0 <= k < |data + more|
      ensures (data + more)[k] == after[off + k]
    {
      if k < |data| {
        assert data[k] == mid[off + k] == after[off + k];
      } else {
        assert more[k - |data|] == after[off + k];
      }
    }
  }

  /** The bytes `data` have been carried from or to the buffer at `off`, on the wire from `open` on. */
  ghost predicate Moved(before: seq<byte>, after: seq<byte>, open: Wire, w: Wire, off: nat, read: bool,
                        data: seq<byte>)
  {
    Took(before, after, off, read, data) && w == Carry(open, read, data)
  }

  lemma ReceivedOne(before: seq<byte>, mid: seq<byte>, open: Wire, w: Wire, off: nat, data: seq<byte>, b: byte)
    requires Moved(before, mid, open, w, off, true, data) && off + |data| < |mid|
    ensures Moved(before, mid[off + |data| := b], open, w + [Got(b)], off, true, data + [b])
  {
    CarryOne(open, true, data, b);
    TookMore(before, mid, mid[off + |data| := b], off, true, data, [b]);
  }

  lemma SentOne(buf: seq<byte>, open: Wire, w: Wire, off: nat, data: seq<byte>)
    requires Moved(buf, buf, open, w, off, false, data) && off + |data| < |buf|
    ensures var b := buf[off + |data|];
            Moved(buf, buf, open, w + [Sent(b)], off, false, data + [b])
  {
    var b := buf[off + |data|];
    CarryOne(open, false, data, b);
    TookMore(buf, buf, buf, off, false, data, [b]);
  }

  /**
   How a call ends: done, with a bus error, or not at all, because it waits for a byte in the direction that the
   controller is not in.
   */
  datatype Result = Done | Failed | Stuck

  /** `able` says whether every wait can end with its flag, `clean` that no bus error comes. */
  predicate Fits(rc: Result, able: bool, clean: bool) {
    (able ==> rc != Stuck) && (!able ==> rc != Done) && (clean ==> rc != Failed)
  }

  /** How a message, or a chunk of one, ends on the wire and in the reload bit: whole, or broken off after `data`. */
  predicate Ends(rc: Result, w0: Wire, r0: bool, w: Wire, r: bool, peer: Peer, flags: Flags, next: Option<Flags>,
                 data: seq<byte>)
  {
    match rc
    case Done => w == MsgWire(w0, r0, peer, flags, data) && r == ((r0 || Joins(flags, next)) && !flags.stop)
    case Failed => w == PartWire(w0, r0, peer, flags.read, data) && !r
    case Stuck => w == PartWire(w0, r0, peer, flags.read, data) && data == []
  }

  ghost predicate AllInBuffers(ms: seq<Msg>) {
    forall i :: 0 <= i < |ms| ==> InBuffer(ms[i])
  }

  ghost function Buffers(ms: seq<Msg>): set<array<byte>> {
    set i | 0 <= i < |ms| :: ms[i].buf
  }

  ghost function Contents(ms: seq<Msg>): (r: seq<seq<byte>>)
    requires AllInBuffers(ms)
    reads Buffers(ms)
    ensures |r| == |ms| && forall i :: 0 <= i < |ms| ==> r[i] == Bytes(ms[i])
  {
    seq(|ms|, i requires 0 <= i < |ms| reads Buffers(ms) => Bytes(ms[i]))
  }

  /** The bytes of the messages to be written have not changed. */
  predicate WritesKept(ms: seq<Msg>, before: seq<seq<byte>>, after: seq<seq<byte>>) {
    && |before| == |after| == |ms|
    && forall i :: 0 <= i < |ms| && !ms[i].flags.read ==> after[i] == before[i]
  }

  lemma SameBuffers(a: seq<Msg>, b: seq<Msg>)
    requires |a| == |b| && forall i :: 0 <= i < |a| ==> b[i] == a[i].(flags := b[i].flags)
    ensures AllInBuffers(a) ==> AllInBuffers(b)
    ensures Buffers(a) == Buffers(b)
  {
    assert forall i :: 0 <= i < |a| ==> a[i].buf == b[i].buf;
  }

  /** A buffer that is read into belongs to one message only. */
  ghost predicate ReadsAlone(ms: seq<Msg>) {
    forall i, j :: 0 <= i < |ms| && 0 <= j < |ms| && i != j && ms[i].flags.read ==> ms[i].buf != ms[j].buf
  }

  /** The items are the first messages with the bytes `contents`. */
  predicate Carried(ms: seq<Msg>, items: seq<Item>, contents: seq<seq<byte>>) {
    && |items| <= |ms| == |contents|
    && forall i :: 0 <= i < |items| ==> items[i] == Item(ms[i].flags, contents[i])
  }

  /** The items have the flags and the lengths of the first messages. */
  ghost predicate Shaped(ms: seq<Msg>, items: seq<Item>) {
    |items| <= |ms| && forall i :: 0 <= i < |items| ==> items[i].flags == ms[i].flags && |items[i].data| == ms[i].len
  }

  /** The items are the first messages; without shared read buffers, with the bytes `contents`. */
  ghost predicate Held(ms: seq<Msg>, items: seq<Item>, contents: seq<seq<byte>>) {
    Shaped(ms, items) && (ReadsAlone(ms) ==> Carried(ms, items, contents))
  }

  /** Only message `k` may have changed, and only if it is read; buffers that are shared with a read are left open. */
  ghost predicate OthersKept(ms: seq<Msg>, k: nat, before: seq<seq<byte>>, after: seq<seq<byte>>)
    requires k < |ms|
  {
    && |before| == |after| == |ms|
    && (ReadsAlone(ms) ==>
          forall j :: 0 <= j < |ms| && (j != k || !ms[k].flags.read) ==> after[j] == before[j])
  }

  lemma HeldAfter(ms: seq<Msg>, items: seq<Item>, k: nat, before: seq<seq<byte>>, after: seq<seq<byte>>)
    requires Held(ms, items, before) && k == |items| < |ms| && OthersKept(ms, k, before, after)
    ensures Held(ms, items, after)
    ensures ReadsAlone(ms) ==> WritesKept(ms, before, after)
  {
  }

  lemma HeldMore(ms: seq<Msg>, items: seq<Item>, item: Item, contents: seq<seq<byte>>)
    requires Held(ms, items, contents) && |items| < |ms| == |contents|
    requires item == Item(ms[|items|].flags, contents[|items|]) && |item.data| == ms[|items|].len
    ensures Held(ms, items + [item], contents)
  {
  }

  function NextFlags(ms: seq<Msg>, k: nat): Option<Flags> {
    if k < |ms| then Some(ms[k].flags) else None
  }

  /** The state of the bus and of the controller's registers. */
  datatype Bus = Bus(wire: Wire, reload: bool, receiving: bool)

  /** The messages `items` have been sent, from the state `b0` on. */
  ghost predicate ListSent(ms: seq<Msg>, items: seq<Item>, contents: seq<seq<byte>>, b: Bus, b0: Bus, peer: Peer) {
    && Held(ms, items, contents) && b.wire == ActualWire(b0.wire, items, b0.reload, peer)
    && b.reload == EnteredWith(items, b0.reload, NextFlags(ms, |items|))
    && b.receiving == Receiving(items, b0.reload, b0.receiving) && Completes(items, b0.reload, b0.receiving)
  }

  /** How the message `m` ends: `item` is what it carried, `bytes` what its part of the buffer now holds. */
  predicate OneSent(rc: Result, m: Msg, item: Item, bytes: seq<byte>, b0: Bus, b: Bus, peer: Peer,
                    next: Option<Flags>)
  {
    && item.flags == m.flags && |item.data| <= m.len == |bytes|
    && b.receiving == (if b0.reload then b0.receiving else m.flags.read)
    && match rc
       case Done =>
         && item.data == bytes && b.wire == MsgWire(b0.wire, b0.reload, peer, m.flags, item.data)
         && b.reload == ReloadAfter(b0.reload, m.len, m.flags, next)
       case Failed => !b.reload && b.wire == PartWire(b0.wire, b0.reload, peer, m.flags.read, item.data)
       case Stuck => item.data == [] && b.wire == PartWire(b0.wire, b0.reload, peer, m.flags.read, [])
  }

  /** The message `m` has no bytes to carry, or finds its own direction. */
  predicate IsAble(m: Msg, b0: Bus) {
    m.len == 0 || (if b0.reload then b0.receiving else m.flags.read) == m.flags.read
  }

  /** How a list ends that is not done: in the message after `items`, which had carried `part`. */
  predicate BreaksOff(rc: Result, ms: seq<Msg>, items: seq<Item>, b: Bus, b0: Bus, peer: Peer, part: seq<byte>) {
    && |items| < |ms|
    && b.wire == PartWire(ActualWire(b0.wire, items, b0.reload, peer),
                          EnteredWith(items, b0.reload, Some(ms[|items|].flags)), peer, ms[|items|].flags.read, part)
    && (rc == Failed ==> !b.reload) && (rc == Stuck ==> part == [])
  }

  /** One more message, whose bytes are now `contents[k]`. */
  lemma SentMore(ms: seq<Msg>, items: seq<Item>, item: Item, contents: seq<seq<byte>>, b1: Bus, b: Bus, b0: Bus,
                 peer: Peer)
    requires ListSent(ms, items, contents, b1, b0, peer) && |items| < |ms| == |contents|
    requires OneSent(Done, ms[|items|], item, contents[|items|], b1, b, peer, NextFlags(ms, |items| + 1))
    requires IsAble(ms[|items|], b1)
    ensures ListSent(ms, items + [item], contents, b, b0, peer)
  {
    HeldMore(ms, items, item, contents);
    WireOfNext(b0.wire, items, item, b0.reload, peer, NextFlags(ms, |items| + 1));
    assert Init(items + [item]) == items;
  }

  /** A message that breaks off ends the list as the whole list is able to end. */
  lemma SentLast(rc: Result, ms: seq<Msg>, items: seq<Item>, item: Item, contents: seq<seq<byte>>, b1: Bus, b: Bus,
                 b0: Bus, peer: Peer, clean: bool)
    requires ListSent(ms, items, contents, b1, b0, peer) && |items| < |ms| == |contents| && rc != Done
    requires OneSent(rc, ms[|items|], item, contents[|items|], b1, b, peer, NextFlags(ms, |items| + 1))
    requires Fits(rc, IsAble(ms[|items|], b1), clean)
    ensures BreaksOff(rc, ms, items, b, b0, peer, item.data)
    ensures Fits(rc, Completes(Planned(ms), b0.reload, b0.receiving), clean)
  {
    NextIsAble(ms, items, b0.reload, b0.receiving);
    if Completes(Planned(ms), b0.reload, b0.receiving) {
      CompletesPrefix(Planned(ms), |items| + 1, b0.reload, b0.receiving);
    }
  }

  /** A whole list that has been sent is one that completes. */
  lemma SentIsAble(ms: seq<Msg>, items: seq<Item>, contents: seq<seq<byte>>, b: Bus, b0: Bus, peer: Peer)
    requires ListSent(ms, items, contents, b, b0, peer) && |items| == |ms|
    ensures Completes(Planned(ms), b0.reload, b0.receiving)
  {
    ShapeDecides(items, Planned(ms), b0.reload, b0.receiving, None);
  }

  /** The list with its flags and lengths, as far as they decide how it ends. */
  function Planned(ms: seq<Msg>): (items: seq<Item>)
    ensures |items| == |ms|
    ensures forall i :: 0 <= i < |ms| ==> items[i].flags == ms[i].flags && |items[i].data| == ms[i].len
  {
    seq(|ms|, i requires 0 <= i < |ms| => Item(ms[i].flags, seq(ms[i].len, _ => 0)))
  }

  /** The next message of the list finds its direction, or has no bytes to carry. */
  lemma NextIsAble(ms: seq<Msg>, items: seq<Item>, r0: bool, d0: bool)
    requires Shaped(ms, items) && |items| < |ms| && Completes(items, r0, d0)
    ensures var m := ms[|items|];
            Completes(Planned(ms)[..|items| + 1], r0, d0) <==>
              IsAble(m, Bus([], EnteredWith(items, r0, Some(m.flags)), Receiving(items, r0, d0)))
  {
    var k := |items|;
    var more := Planned(ms)[..k + 1];
    assert Last(more).flags == ms[k].flags && |Last(more).data| == ms[k].len;
    assert SameShape(items, Init(more));
    LastDecides(items, more, r0, d0);
  }

  function FlagsOf(ms: seq<Msg>): (fs: seq<Flags>)
    ensures |fs| == |ms| && forall i :: 0 <= i < |ms| ==> fs[i] == ms[i].flags
  {
    seq(|ms|, i requires 0 <= i < |ms| => ms[i].flags)
  }

  lemma StoppedWritesOf(first: Msg, second: Msg, items: seq<Item>, contents: seq<seq<byte>>, w: Wire, peer: Peer,
                        dir: bool)
    requires first.flags == second.flags == STOPPED_WRITE && first.len == second.len == 1
    requires |contents| == 2 && |contents[0]| == |contents[1]| == 1
    ensures !CheckPasses(FlagsOf([first, second])) && Completes(Planned([first, second]), false, dir)
    ensures |items| == 2 && Carried([first, second], items, contents) ==>
              ActualWire(w, items, false, peer) == TwoWrites(w, peer, contents[0][0], contents[1][0])
  {
    var b, c := contents[0][0], contents[1][0];
    StoppedWrites(w, b, c, peer, dir);
    assert FlagsOf([first, second]) == [STOPPED_WRITE, STOPPED_WRITE];
    ShapeDecides(Planned([first, second]), [Item(STOPPED_WRITE, [b]), Item(STOPPED_WRITE, [c])], false, dir, None);
    assert contents[0] == [b] && contents[1] == [c];
    if |items| == 2 && Carried([first, second], items, contents) {
      assert items[0] == Item(STOPPED_WRITE, [b]) && items[1] == Item(STOPPED_WRITE, [c]);
      assert items == [Item(STOPPED_WRITE, [b]), Item(STOPPED_WRITE, [c])];
    }
  }

  class Controller {
    var reload: bool            // the reload bit of the second control register
    var receiving: bool         // its direction bit
    var wire: Wire              // what has been on the bus
    var counts: seq<nat>        // the byte counts programmed
    var waits: nat              // the waits for a flag so far
    const tenBit: bool          // the address mode of the device configuration
    const errors: nat -> bool   // which of the waits end with a bus error

    constructor (tenBit: bool, errors: nat -> bool)
      ensures !reload && !receiving && wire == [] && counts == [] && this.tenBit == tenBit && this.errors == errors
    {
      reload, receiving, wire, counts, waits := false, false, [], [], 0;
      this.tenBit, this.errors := tenBit, errors;
    }

    /** No bus error ever comes. */
    ghost predicate Clean() {
      forall n :: !errors(n)
    }

    ghost function State(): Bus
      reads this
    {
      Bus(wire, reload, receiving)
    }

    /**
     Waits for a status flag, which can come if `able`; the wait ends with the flag, or with a bus error, which clears
     the reload bit.
     */
    method AwaitFlag(able: bool) returns (rc: Result)
      modifies this`reload, this`waits
      ensures rc == if errors(old(waits)) then Failed else if able then Done else Stuck
      ensures reload == (old(reload) && rc != Failed) && waits == old(waits) + 1
    {
      rc := if errors(waits) then Failed else if able then Done else Stuck;
      waits := waits + 1;
      if rc == Failed && reload {
        reload := false;
      }
    }

    /** Without the reload bit the direction is set and START sent; with it, only the count is programmed. */
    method MsgInit(m: Msg, next: Option<Flags>, slave: nat)
      modifies this`reload, this`receiving, this`wire, this`counts
      ensures reload == (old(reload) || Joins(m.flags, next))
      ensures receiving == if old(reload) then old(receiving) else m.flags.read
      ensures wire == Open(old(wire), old(reload), Peer(slave, tenBit), m.flags.read)
      ensures counts == old(counts) + [m.len]
    {
      if reload {
        counts := counts + [m.len];
      } else {
        if !m.flags.stop && next.Some? && !next.value.restart {
          reload := true;
        } else {
          reload := false;
        }
        receiving := m.flags.read;
        counts := counts + [m.len];
        wire := wire + [Start(slave, tenBit, m.flags.read)];
      }
    }

    method MsgDone(flags: Flags) returns (rc: Result)
      modifies this`reload, this`wire, this`waits
      ensures Fits(rc, true, Clean())
      ensures rc == Done ==> reload == (old(reload) && !flags.stop) && wire == Close(old(wire), flags.stop)
      ensures rc == Failed ==> !reload && wire == old(wire)
    {
      rc := AwaitFlag(true);
      if rc == Done && flags.stop {
        wire := wire + [Stop];
        reload := false;
      }
    }

    /** Waits until a byte is wanted and sends it; bytes leave only in the transmit direction. */
    method WriteByte(b: byte) returns (rc: Result)
      modifies this`reload, this`wire, this`waits
      ensures Fits(rc, !receiving, Clean()) && reload == (old(reload) && rc != Failed)
      ensures wire == if rc == Done then old(wire) + [Sent(b)] else old(wire)
    {
      rc := AwaitFlag(!receiving);
      if rc == Done {
        wire := wire + [Sent(b)];
      }
    }

    /** The loop of a write. */
    method WriteBytes(m: Msg, ghost open: Wire) returns (rc: Result, ghost data: seq<byte>)
      requires InBuffer(m) && wire == open
      modifies this`reload, this`wire, this`waits
      ensures Fits(rc, m.len == 0 || !receiving, Clean()) && reload == (old(reload) && rc != Failed)
      ensures |data| <= m.len && (rc == Done ==> |data| == m.len) && (rc == Stuck ==> data == [])
      ensures Moved(m.buf[..], m.buf[..], open, wire, m.off, false, data)
    {
      ghost var buf := m.buf[..];
      rc, data := Done, [];
      var len: nat, i: nat := m.len, m.off;
      while len > 0
        invariant len <= m.len && i == m.off + m.len - len && rc == Done && reload == old(reload)
        invariant |data| == m.len - len && Moved(buf, buf, open, wire, m.off, false, data)
        invariant data != [] ==> !receiving
      {
        SentOne(buf, open, wire, m.off, data);
        rc := WriteByte(m.buf[i]);
        if rc != Done {
          return;
        }
        data := data + [m.buf[i]];
        i := i + 1;
        len := len - 1;
      }
    }

    /** Sends one chunk, or on an error its first bytes: `data` is what was sent. */
    method MsgWrite(m: Msg, next: Option<Flags>, slave: nat) returns (rc: Result, ghost data: seq<byte>)
      requires InBuffer(m) && !m.flags.read
      modifies this`reload, this`receiving, this`wire, this`counts, this`waits
      ensures counts == old(counts) + [m.len] && receiving == (old(reload) && old(receiving))
      ensures Fits(rc, m.len == 0 || !receiving, Clean())
      ensures |data| <= m.len && (rc == Done ==> |data| == m.len)
      ensures Took(m.buf[..], m.buf[..], m.off, false, data)
      ensures Ends(rc, old(wire), old(reload), wire, reload, Peer(slave, tenBit), m.flags, next, data)
    {
      MsgInit(m, next, slave);
      rc, data := WriteBytes(m, wire);
      if rc == Done {
        rc := MsgDone(m.flags);
      }
    }

    /** Waits for a byte and stores it; bytes come only in the receive direction. */
    method ReadByte(buf: array<byte>, i: nat) returns (rc: Result, b: byte)
      requires i < buf.Length
      modifies this`reload, this`wire, this`waits, buf
      ensures Fits(rc, receiving, Clean()) && reload == (old(reload) && rc != Failed)
      ensures if rc == Done then wire == old(wire) + [Got(b)] && buf[..] == old(buf[..])[i := b]
              else wire == old(wire) && buf[..] == old(buf[..])
    {
      b := *;
      rc := AwaitFlag(receiving);
      if rc == Done {
        buf[i] := b;
        wire := wire + [Got(b)];
      }
    }

    /** The loop of a read. */
    method ReadBytes(m: Msg, ghost open: Wire) returns (rc: Result, ghost data: seq<byte>)
      requires InBuffer(m) && wire == open
      modifies this`reload, this`wire, this`waits, m.buf
      ensures Fits(rc, m.len == 0 || receiving, Clean()) && reload == (old(reload) && rc != Failed)
      ensures |data| <= m.len && (rc == Done ==> |data| == m.len) && (rc == Stuck ==> data == [])
      ensures Moved(old(m.buf[..]), m.buf[..], open, wire, m.off, true, data)
    {
      rc, data := Done, [];
      var len: nat, i: nat := m.len, m.off;
      while len > 0
        invariant len <= m.len && i == m.off + m.len - len && rc == Done && reload == old(reload)
        invariant |data| == m.len - len && Moved(old(m.buf[..]), m.buf[..], open, wire, m.off, true, data)
        invariant data != [] ==> receiving
      {
        ghost var before, w := m.buf[..], wire;
        var b: byte;
        rc, b := ReadByte(m.buf, i);
        if rc != Done {
          return;
        }
        ReceivedOne(old(m.buf[..]), before, open, w, m.off, data, b);
        data := data + [b];
        i := i + 1;
        len := len - 1;
      }
    }

    /** Receives one chunk, or on an error its first bytes: `data` is what was received and stored, in order. */
    method MsgRead(m: Msg, next: Option<Flags>, slave: nat) returns (rc: Result, ghost data: seq<byte>)
      requires InBuffer(m) && m.flags.read
      modifies this`reload, this`receiving, this`wire, this`counts, this`waits, m.buf
      ensures counts == old(counts) + [m.len] && receiving == (!old(reload) || old(receiving))
      ensures Fits(rc, m.len == 0 || receiving, Clean()) && |data| <= m.len && (rc == Done ==> |data| == m.len)
      ensures Took(old(m.buf[..]), m.buf[..], m.off, true, data)
      ensures Ends(rc, old(wire), old(reload), wire, reload, Peer(slave, tenBit), m.flags, next, data)
    {
      MsgInit(m, next, slave);
      rc, data := ReadBytes(m, wire);
      if rc == Done {
        rc := MsgDone(m.flags);
      }
    }

    /** Sends or receives one chunk; a write leaves the buffer alone. */
    method MsgTransfer(m: Msg, next: Option<Flags>, slave: nat) returns (rc: Result, ghost data: seq<byte>)
      requires InBuffer(m)
      modifies this`reload, this`receiving, this`wire, this`counts, this`waits, m.buf
      ensures counts == old(counts) + [m.len] && receiving == if old(reload) then old(receiving) else m.flags.read
      ensures Fits(rc, m.len == 0 || receiving == m.flags.read, Clean())
      ensures |data| <= m.len && (rc == Done ==> |data| == m.len)
      ensures Took(old(m.buf[..]), m.buf[..], m.off, m.flags.read, data)
      ensures Ends(rc, old(wire), old(reload), wire, reload, Peer(slave, tenBit), m.flags, next, data)
    {
      if m.flags.read {
        rc, data := MsgRead(m, next, slave);
      } else {
        rc, data := MsgWrite(m, next, slave);
      }
    }

    /** Of the message `msg`, `data` has been transferred in whole chunks that are not the last. */
    ghost predicate InProgress(msg: Msg, slave: nat, b0: Bus, buf0: seq<byte>, data: seq<byte>)
      reads this, msg.buf
    {
      && reload == (b0.reload || data != [])
      && wire == ChunkedWire(b0.wire, b0.reload, Peer(slave, tenBit), msg.flags.read, data)
      && (if data == [] then receiving == b0.receiving
          else receiving == msg.flags.read && (b0.reload ==> receiving == b0.receiving))
      && Took(buf0, msg.buf[..], msg.off, msg.flags.read, data)
    }

    /** One chunk `m` of the message `msg`, of which `data0` has been transferred in earlier chunks. */
    method SendChunk(msg: Msg, m: Msg, flags: Option<Flags>, slave: nat, ghost b0: Bus, ghost buf0: seq<byte>,
                     ghost data0: seq<byte>)
      returns (rc: Result, ghost data: seq<byte>)
      requires InBuffer(msg) && m.buf == msg.buf && m.off == msg.off + |data0| && |data0| + m.len <= msg.len
      requires m.flags.read == msg.flags.read
      requires InProgress(msg, slave, b0, buf0, data0)
      modifies this`reload, this`receiving, this`wire, this`counts, this`waits, msg.buf
      ensures counts == old(counts) + [m.len]
      ensures receiving == if b0.reload then b0.receiving else msg.flags.read
      ensures Fits(rc, m.len == 0 || receiving == msg.flags.read, Clean())
      ensures |data0| <= |data| <= |data0| + m.len && (rc == Done ==> |data| == |data0| + m.len)
      ensures Took(buf0, msg.buf[..], msg.off, msg.flags.read, data)
      ensures rc == Done && m.len > 0 && Joins(m.flags, flags) ==> InProgress(msg, slave, b0, buf0, data)
      ensures rc == Done ==> reload == ((b0.reload || data0 != [] || Joins(m.flags, flags)) && !m.flags.stop)
      ensures wire == Close(PartWire(b0.wire, b0.reload, Peer(slave, tenBit), msg.flags.read, data),
                            rc == Done && m.flags.stop)
      ensures rc == Failed ==> !reload
      ensures rc == Stuck ==> data == data0
    {
      ghost var before, more := msg.buf[..], [];
      rc, more := MsgTransfer(m, flags, slave);
      TookMore(buf0, before, msg.buf[..], msg.off, m.flags.read, data0, more);
      ChunkContinues(b0.wire, b0.reload, Peer(slave, tenBit), msg.flags.read, data0, more);
      data := data0 + more;
    }

    /** The next chunk of a message with `rest` bytes to go, and the flags that it is to be joined by. */
    method NextChunk(msg: Msg, m: Msg, rest: nat, next: Option<Flags>) returns (c: Msg, flags: Option<Flags>)
      requires m.len == rest
      ensures c == if rest > MAX_CHUNK then m.(len := MAX_CHUNK, flags := msg.flags.(stop := false))
                   else m.(flags := msg.flags)
      ensures flags == if rest > MAX_CHUNK then Some(msg.flags.(stop := false, restart := false)) else next
    {
      if m.len > MAX_CHUNK {
        c := m.(len := MAX_CHUNK, flags := msg.flags.(stop := false));
        flags := Some(msg.flags.(stop := false, restart := false));
      } else {
        c := m.(flags := msg.flags);
        flags := next;
      }
    }

    /** The head of the chunk loop: `m` is the rest of the message, after the bytes `data`. */
    ghost predicate AtChunk(msg: Msg, m: Msg, slave: nat, b0: Bus, buf0: seq<byte>, counts0: seq<nat>,
                            data: seq<byte>)
      reads this, msg.buf
    {
      && |data| + m.len == msg.len && m == Msg(msg.buf, msg.off + |data|, m.len, m.flags)
      && (data != [] ==> m.len > 0 && msg.len > MAX_CHUNK)
      && Chunks(counts, m.len) == Chunks(counts0, msg.len)
      && InProgress(msg, slave, b0, buf0, data)
    }

    /** How a message ends: on the wire it is a single message, whole or broken off. */
    ghost predicate MessageEnds(rc: Result, msg: Msg, next: Option<Flags>, slave: nat, b0: Bus, buf0: seq<byte>,
                                counts0: seq<nat>, data: seq<byte>)
      reads this, msg.buf
    {
      && |data| <= msg.len && Took(buf0, msg.buf[..], msg.off, msg.flags.read, data)
      && receiving == (if b0.reload then b0.receiving else msg.flags.read)
      && Fits(rc, msg.len == 0 || receiving == msg.flags.read, Clean())
      && match rc
         case Done =>
           && |data| == msg.len && counts == Chunks(counts0, msg.len)
           && wire == MsgWire(b0.wire, b0.reload, Peer(slave, tenBit), msg.flags, data)
           && reload == ReloadAfter(b0.reload, msg.len, msg.flags, next)
         case Failed =>
           !reload && wire == PartWire(b0.wire, b0.reload, Peer(slave, tenBit), msg.flags.read, data)
         case Stuck =>
           data == [] && wire == PartWire(b0.wire, b0.reload, Peer(slave, tenBit), msg.flags.read, data)
    }

    /** One round of the chunk loop. */
    method ChunkRound(msg: Msg, m0: Msg, next: Option<Flags>, slave: nat, ghost b0: Bus, ghost buf0: seq<byte>,
                      ghost counts0: seq<nat>, ghost data0: seq<byte>)
      returns (rc: Result, m: Msg, ghost data: seq<byte>)
      requires InBuffer(msg) && AtChunk(msg, m0, slave, b0, buf0, counts0, data0)
      modifies this`reload, this`receiving, this`wire, this`counts, this`waits, msg.buf
      ensures rc == Done && m.len > 0 ==> m.len < m0.len && AtChunk(msg, m, slave, b0, buf0, counts0, data)
      ensures rc != Done || m.len == 0 ==> MessageEnds(rc, msg, next, slave, b0, buf0, counts0, data)
    {
      var c, flags := NextChunk(msg, m0, m0.len, next);
      rc, data := SendChunk(msg, c, flags, slave, b0, buf0, data0);
      m := c.(off := c.off + c.len, len := m0.len - c.len);
    }

    /**
     One message of any length, in chunks of at most 255 bytes joined by the reload bit: on the
     wire it is a single message, whole or broken off.
     */
    method Transaction(msg: Msg, next: Option<Flags>, slave: nat) returns (rc: Result, ghost data: seq<byte>)
      requires InBuffer(msg)
      modifies this`reload, this`receiving, this`wire, this`counts, this`waits, msg.buf
      ensures MessageEnds(rc, msg, next, slave, old(State()), old(msg.buf[..]), old(counts), data)
    {
      var m := msg;
      data := [];
      while true
        invariant AtChunk(msg, m, slave, old(State()), old(msg.buf[..]), old(counts), data)
        decreases m.len
      {
        rc, m, data := ChunkRound(msg, m, next, slave, old(State()), old(msg.buf[..]), old(counts), data);
        if rc != Done || m.len == 0 {
          break;
        }
      }
    }

    /** Sends message `k`; the bytes of another message change only if the two share a buffer that is read into. */
    method SendOne(ms: seq<Msg>, k: nat, slave: nat) returns (rc: Result, ghost item: Item)
      requires k < |ms| && AllInBuffers(ms)
      modifies this`reload, this`receiving, this`wire, this`counts, this`waits, Buffers(ms)
      ensures OthersKept(ms, k, old(Contents(ms)), Contents(ms))
      ensures Fits(rc, IsAble(ms[k], old(State())), Clean())
      ensures OneSent(rc, ms[k], item, Contents(ms)[k], old(State()), State(), Peer(slave, tenBit),
                      NextFlags(ms, k + 1))
    {
      var next := None;
      if k + 1 < |ms| {
        next := Some(ms[k + 1].flags);
      }
      ghost var data: seq<byte>;
      rc, data := Transaction(ms[k], next, slave);
      item := Item(ms[k].flags, data);
      forall j | 0 <= j < |ms| && (j != k || !ms[k].flags.read) && ReadsAlone(ms)
        ensures Bytes(ms[j]) == old(Bytes(ms[j]))
      {
        assert ms[j].buf == ms[k].buf ==> ms[j].buf[..] == old(ms[j].buf[..]);
      }
    }

    /** The messages `items` have been sent; without shared read buffers, the buffers hold what they carried. */
    ghost predicate SentList(ms: seq<Msg>, items: seq<Item>, slave: nat, b0: Bus)
      requires AllInBuffers(ms)
      reads this, Buffers(ms)
    {
      ListSent(ms, items, Contents(ms), State(), b0, Peer(slave, tenBit))
    }

    /** Sends the next message of the list; `part` is what a message that broke off had carried. */
    method SendNext(ms: seq<Msg>, slave: nat, ghost items0: seq<Item>, ghost b0: Bus, k: nat)
      returns (rc: Result, ghost items: seq<Item>, ghost part: seq<byte>)
      requires AllInBuffers(ms) && k == |items0| < |ms|
      requires SentList(ms, items0, slave, b0)
      modifies this`reload, this`receiving, this`wire, this`counts, this`waits, Buffers(ms)
      ensures Held(ms, items, Contents(ms))
      ensures ReadsAlone(ms) ==> WritesKept(ms, old(Contents(ms)), Contents(ms))
      ensures rc == Done ==> |items| == k + 1 && SentList(ms, items, slave, b0)
      ensures rc != Done ==> BreaksOff(rc, ms, items, State(), b0, Peer(slave, tenBit), part)
      ensures rc != Done ==> Fits(rc, Completes(Planned(ms), b0.reload, b0.receiving), Clean())
    {
      ghost var item: Item;
      ghost var before, b1 := Contents(ms), State();
      rc, item := SendOne(ms, k, slave);
      HeldAfter(ms, items0, k, before, Contents(ms));
      part, items := item.data, items0;
      if rc == Done {
        items := items0 + [item];
        SentMore(ms, items0, item, Contents(ms), b1, State(), b0, Peer(slave, tenBit));
      } else {
        SentLast(rc, ms, items0, item, Contents(ms), b1, State(), b0, Peer(slave, tenBit), Clean());
      }
    }

    /**
     How a list ends that is begun in the state `b0` with the buffers' contents `before`: it can be done only if
     every message finds its own direction, and can then not hang; what is written stays in its buffers.
     */
    ghost predicate ListEnds(rc: Result, ms: seq<Msg>, items: seq<Item>, part: seq<byte>, slave: nat, b0: Bus,
                             before: seq<seq<byte>>)
      requires AllInBuffers(ms)
      reads this, Buffers(ms)
    {
      && Held(ms, items, Contents(ms)) && (ReadsAlone(ms) ==> WritesKept(ms, before, Contents(ms)))
      && Fits(rc, Completes(Planned(ms), b0.reload, b0.receiving), Clean())
      && if rc == Done then |items| == |ms| && SentList(ms, items, slave, b0)
         else BreaksOff(rc, ms, items, State(), b0, Peer(slave, tenBit), part)
    }

    /**
     Sends the messages one after the other; the items are those sent with what they carried, and
     `part` is what a message that broke off had carried.
     */
    method SendAll(ms: seq<Msg>, slave: nat) returns (rc: Result, ghost items: seq<Item>, ghost part: seq<byte>)
      requires AllInBuffers(ms)
      modifies this`reload, this`receiving, this`wire, this`counts, this`waits, Buffers(ms)
      ensures ListEnds(rc, ms, items, part, slave, old(State()), old(Contents(ms)))
    {
      ghost var before, b0 := Contents(ms), State();
      rc, items, part := Done, [], [];
      var k: nat := 0;
      while k < |ms|
        invariant k == |items| <= |ms| && rc == Done
        invariant SentList(ms, items, slave, b0)
        invariant ReadsAlone(ms) ==> WritesKept(ms, before, Contents(ms))
      {
        rc, items, part := SendNext(ms, slave, items, b0, k);
        if rc != Done {
          return;
        }
        k := k + 1;
      }
      SentIsAble(ms, items, Contents(ms), State(), b0, Peer(slave, tenBit));
    }

    /**
     The check of the flags before a transfer. It never advances its current message, so it compares only the first
     two messages, over and over. With 255 messages its 8-bit counter never passes their number, and only a bad first
     pair ends it.
     */
    method CheckFlags(ms: array<Msg>, num: uint8) returns (valid: bool, ghost rounds: nat)
      requires 1 <= ms.Length && num <= ms.Length
      requires num == 255 ==> !CheckPasses(FlagsOf(ms[..num]))
      ensures CheckAfter(FlagsOf(ms[..num]), rounds) == Ended(valid)
      ensures valid <==> CheckPasses(FlagsOf(ms[..num]))
    {
      valid := true;
      rounds := 0;
      var i: uint8 := 1;
      while i <= num
        invariant 1 <= i && valid && (i <= num + 1 <= 255 || i == 1)
        invariant i > 1 && num > 1 ==> PairOk(ms[0].flags, ms[1].flags)
        invariant CheckAfter(FlagsOf(ms[..num]), rounds) == Running(i)
        decreases num - i
      {
        rounds := rounds + 1;
        if i < num {
          if ms[0].flags.read != ms[1].flags.read {
            if !ms[1].flags.restart {
              valid := false;
              return;
            }
          }
          if ms[0].flags.stop {
            valid := false;
            return;
          }
        }
        i := (i + 1) % 256;
      }
      rounds := rounds + 1;
    }

    /** The first message is made a RESTART; the buffers stay. */
    method MarkFirst(ms: array<Msg>, num: nat)
      requires 1 <= ms.Length && num <= ms.Length && AllInBuffers(ms[..num])
      modifies ms
      ensures ms[0] == old(ms[0]).(flags := old(ms[0]).flags.(restart := true)) && ms[1..] == old(ms[1..])
      ensures AllInBuffers(ms[..num]) && Buffers(ms[..num]) == old(Buffers(ms[..num]))
      ensures (forall b :: b in old(Buffers(ms[..num])) ==> b as object != ms) ==>
                Contents(ms[..num]) == old(Contents(ms[..num]))
    {
      ghost var before := ms[..];
      ms[0] := ms[0].(flags := ms[0].flags.(restart := true));
      assert ms[1..] == before[1..];
      SameBuffers(before[..num], ms[..num]);
      if forall b :: b in old(Buffers(ms[..num])) ==> b as object != ms {
        forall i | 0 <= i < num
          ensures Bytes(ms[..num][i]) == old(Bytes(ms[..num][i]))
        {
          assert before[i].buf in old(Buffers(ms[..num]));
        }
      }
    }

    /** The check, and then the messages whatever it said. */
    method CheckAndSend(ms: array<Msg>, num: uint8, slave: nat)
      returns (rc: Result, ghost valid: bool, ghost items: seq<Item>, ghost part: seq<byte>)
      requires 1 <= ms.Length && num <= ms.Length && AllInBuffers(ms[..num])
      requires num == 255 ==> !CheckPasses(FlagsOf(ms[..num]))
      requires forall b :: b in Buffers(ms[..num]) ==> b as object != ms
      modifies this`reload, this`receiving, this`wire, this`counts, this`waits, Buffers(ms[..num])
      ensures valid <==> CheckPasses(FlagsOf(ms[..num]))
      ensures ListEnds(rc, ms[..num], items, part, slave, old(State()), old(Contents(ms[..num])))
      ensures rc == Done && num > 0 ==> (wire == IdealWire(old(wire), items, Peer(slave, tenBit))
                                         <==> !old(reload) && NoStaleReload(items))
    {
      ghost var rounds;
      var checked;
      checked, rounds := CheckFlags(ms, num);
      valid := checked;
      rc, items, part := SendAll(ms[..num], slave);
      if rc == Done && num > 0 {
        WireIsIdeal(old(wire), items, old(reload), Peer(slave, tenBit));
      }
    }

    /**
     A transfer of the first `num` messages. The first one is made a RESTART, and the outcome of the check of the
     flags is overwritten by that of the transactions. Without a bus error it is done if every message finds its own
     direction, and never returns otherwise.
     */
    method Transfer(ms: array<Msg>, num: uint8, slave: nat)
      returns (rc: Result, ghost valid: bool, ghost items: seq<Item>, ghost part: seq<byte>)
      requires 1 <= ms.Length && num <= ms.Length && AllInBuffers(ms[..num])
      requires num == 255 ==> !PairOk(ms[0].flags, ms[1].flags)
      requires forall b :: b in Buffers(ms[..num]) ==> b as object != ms  // an array of bytes is not that of messages
      modifies this`reload, this`receiving, this`wire, this`counts, this`waits, ms, Buffers(ms[..num])
      ensures ms[0] == old(ms[0]).(flags := old(ms[0]).flags.(restart := true)) && ms[1..] == old(ms[1..])
      ensures valid <==> CheckPasses(FlagsOf(ms[..num]))
      ensures AllInBuffers(ms[..num])
      ensures ListEnds(rc, ms[..num], items, part, slave, old(State()), old(Contents(ms[..num])))
      ensures rc == Done && num > 0 ==> (wire == IdealWire(old(wire), items, Peer(slave, tenBit))
                                         <==> !old(reload) && NoStaleReload(items))
    {
      MarkFirst(ms, num);
      rc, valid, items, part := CheckAndSend(ms, num, slave);
    }
  }

  /** A transfer of two messages of which the first is a RESTART. */
  method TransferPair(c: Controller, slave: nat, ms: array<Msg>, first: Msg, second: Msg)
    returns (rc: Result, ghost valid: bool, ghost items: seq<Item>, ghost part: seq<byte>)
    requires InBuffer(first) && InBuffer(second) && first.flags.restart
    requires ms[..] == [first, second] && first.buf as object != ms && second.buf as object != ms
    modifies c, ms, first.buf, second.buf
    ensures valid <==> CheckPasses(FlagsOf([first, second]))
    ensures c.ListEnds(rc, [first, second], items, part, slave, old(c.State()), old(Contents([first, second])))
  {
    assert ms[..2] == ms[..];
    rc, valid, items, part := c.Transfer(ms, 2, slave);
    assert ms[..2] == [first, second] by {
      assert ms[1] == ms[1..][0];
    }
  }

  /**
   The check rejects two writes that both ask for a STOP; without a bus error the transfer sends them all the same,
   and is done.
   */
  method TransferSendsRejected(c: Controller, slave: nat, ms: array<Msg>, first: Msg, second: Msg)
    returns (rc: Result, ghost valid: bool)
    requires InBuffer(first) && InBuffer(second) && first.len == second.len == 1
    requires first.flags == second.flags == STOPPED_WRITE && c.Clean() && !c.reload
    requires ms[..] == [first, second] && first.buf as object != ms && second.buf as object != ms
    modifies c, ms, first.buf, second.buf
    ensures !valid && rc == Done
    ensures c.wire == TwoWrites(old(c.wire), Peer(slave, c.tenBit), old(Bytes(first))[0], old(Bytes(second))[0])
  {
    ghost var items, part;
    rc, valid, items, part := TransferPair(c, slave, ms, first, second);
    StoppedWritesOf(first, second, items, Contents([first, second]), old(c.wire), Peer(slave, c.tenBit),
                    old(c.receiving));
  }

  /** Without a bus error, a read by RESTART after a write of more than 255 bytes never returns. */
  method ReadAfterLongWriteHangs(c: Controller, slave: nat, ms: array<Msg>, first: Msg, second: Msg)
    returns (rc: Result)
    requires InBuffer(first) && InBuffer(second) && first.len > MAX_CHUNK && second.len > 0
    requires first.flags == Flags(false, false, true) && second.flags == Flags(true, true, true)
    requires ms[..] == [first, second] && first.buf as object != ms && second.buf as object != ms
    requires c.Clean() && !c.reload
    modifies c, ms, first.buf, second.buf
    ensures rc == Stuck
  {
    ghost var valid, items, part;
    rc, valid, items, part := TransferPair(c, slave, ms, first, second);
    ReadAfterLongWriteNeverEnds(Planned([first, second]), old(c.receiving));
  }
}
