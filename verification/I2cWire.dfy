/**
 What a list of I2C messages puts on the wire, as the polled version-2 driver does it and as the
 message flags ask for it (START and STOP conditions: section 3.1.4 of NXP UM10204). Each function
 takes the wire so far and returns it extended.
 */
module I2cWire {
  import opened MachineInt

  datatype Flags = Flags(read: bool, stop: bool, restart: bool)

  datatype Event = Start(slave: nat, tenBit: bool, read: bool) | Sent(b: byte) | Got(b: byte) | Stop

  type Wire = seq<Event>

  /** The addressed peer. */
  datatype Peer = Peer(slave: nat, tenBit: bool)

  /** A message with the bytes that it carried. */
  datatype Item = Item(flags: Flags, data: seq<byte>)

  const MAX_CHUNK := 255

  function Open(w: Wire, reload: bool, peer: Peer, read: bool): Wire {
    if reload then w else w + [Start(peer.slave, peer.tenBit, read)]
  }

  function Transferred(read: bool, b: byte): Event {
    if read then Got(b) else Sent(b)
  }

  /** The bytes in order, one event each. */
  function Carry(w: Wire, read: bool, data: seq<byte>): Wire {
    if data == [] then w else Carry(w, read, data[..|data| - 1]) + [Transferred(read, data[|data| - 1])]
  }

  function Close(w: Wire, stop: bool): Wire {
    if stop then w + [Stop] else w
  }

  /** One message: a START unless the reload bit is set on entry, the bytes, a STOP if asked for. */
  function MsgWire(w: Wire, reload: bool, peer: Peer, flags: Flags, data: seq<byte>): Wire {
    Close(PartWire(w, reload, peer, flags.read, data), flags.stop)
  }

  /** A message that was broken off after `data`, before its STOP. */
  function PartWire(w: Wire, reload: bool, peer: Peer, read: bool, data: seq<byte>): Wire {
    Carry(Open(w, reload, peer, read), read, data)
  }

  /** The bytes are carried one by one in order, as sent or as received. */
  lemma {:induction false} CarryIsExact(w: Wire, read: bool, data: seq<byte>)
    ensures var v := Carry(w, read, data);
            && |v| == |w| + |data| && w <= v
            && forall i :: 0 <= i < |data| ==> v[|w| + i] == if read then Got(data[i]) else Sent(data[i])
  {
    if data != [] {
      CarryIsExact(w, read, data[..|data| - 1]);
    }
  }

  /**
   A message, event by event: a START with the peer's address and the direction unless the reload bit is set, then the
   bytes in order, then a STOP exactly if it asks for one.
   */
  lemma MsgWireIsExact(w: Wire, reload: bool, peer: Peer, flags: Flags, data: seq<byte>)
    ensures var v := MsgWire(w, reload, peer, flags, data);
            var n := if reload then |w| else |w| + 1;
            && |v| == n + |data| + (if flags.stop then 1 else 0) && w <= v
            && (!reload ==> v[|w|] == Start(peer.slave, peer.tenBit, flags.read))
            && (forall i :: 0 <= i < |data| ==> v[n + i] == if flags.read then Got(data[i]) else Sent(data[i]))
            && (flags.stop ==> v[n + |data|] == Stop)
  {
    CarryIsExact(Open(w, reload, peer, flags.read), flags.read, data);
  }

  lemma CarryOne(w: Wire, read: bool, data: seq<byte>, b: byte)
    ensures Carry(w, read, data + [b]) == Carry(w, read, data) + [Transferred(read, b)]
  {
    assert (data + [b])[..|data|] == data;
  }

  lemma {:induction false} CarryMore(w: Wire, read: bool, data: seq<byte>, more: seq<byte>)
    ensures Carry(Carry(w, read, data), read, more) == Carry(w, read, data + more)
  {
    if more == [] {
      assert data + more == data;
    } else {
      var init, b := more[..|more| - 1], more[|more| - 1];
      CarryMore(w, read, data, init);
      CarryOne(w, read, data + init, b);
      assert data + more == data + init + [b];
    }
  }

  /** The wire when `data` has been sent in whole chunks that are not the last. */
  function ChunkedWire(w: Wire, reload: bool, peer: Peer, read: bool, data: seq<byte>): Wire {
    if data == [] then w else PartWire(w, reload, peer, read, data)
  }

  /**
   A further chunk, sent as a message of its own that is entered with the reload bit set unless it
   is the first, continues the message on the wire.
   */
  lemma ChunkContinues(w: Wire, reload: bool, peer: Peer, read: bool, data: seq<byte>, more: seq<byte>)
    ensures PartWire(ChunkedWire(w, reload, peer, read, data), reload || data != [], peer, read, more)
         == PartWire(w, reload, peer, read, data + more)
  {
    if data == [] {
      assert data + more == more;
    } else {
      CarryMore(Open(w, reload, peer, read), read, data, more);
    }
  }

  /** The message is joined to the next one without a RESTART in between. */
  predicate Joins(flags: Flags, next: Option<Flags>) {
    !flags.stop && next.Some? && !next.value.restart
  }

  /** The reload bit after a message of `len` bytes. */
  predicate ReloadAfter(reload: bool, len: nat, flags: Flags, next: Option<Flags>) {
    (reload || len > MAX_CHUNK || Joins(flags, next)) && !flags.stop
  }

  // ---- Chunks ----

  /** The byte counts programmed for a message of `len` bytes, after those programmed before. */
  function Chunks(counts: seq<nat>, len: nat): seq<nat>
    decreases len
  {
    if len > MAX_CHUNK then Chunks(counts + [MAX_CHUNK], len - MAX_CHUNK) else counts + [len]
  }

  function Sum(s: seq<nat>): nat {
    if s == [] then 0 else Sum(s[..|s| - 1]) + s[|s| - 1]
  }

  lemma SumOneMore(s: seq<nat>, x: nat)
    ensures Sum(s + [x]) == Sum(s) + x
  {
    assert (s + [x])[..|s|] == s;
  }

  /** The counts fit the 8-bit counter, add up to the message and are as few as possible. */
  lemma {:induction false} ChunksCover(counts: seq<nat>, len: nat)
    ensures var c := Chunks(counts, len);
            && Sum(c) == Sum(counts) + len
            && |c| == |counts| + (if len == 0 then 1 else (len + 254) / 255)
            && counts <= c
            && (forall i :: |counts| <= i < |c| ==> c[i] <= MAX_CHUNK)
            && (forall i :: |counts| <= i < |c| - 1 ==> c[i] == MAX_CHUNK)
    decreases len
  {
    if len > MAX_CHUNK {
      var more := counts + [MAX_CHUNK];
      SumOneMore(counts, MAX_CHUNK);
      ChunksCover(more, len - MAX_CHUNK);
      assert Chunks(counts, len)[|counts|] == more[|counts|];
    } else {
      SumOneMore(counts, len);
    }
  }

  // ---- Message lists ----

  function Last(items: seq<Item>): Item
    requires items != []
  {
    items[|items| - 1]
  }

  function Init(items: seq<Item>): seq<Item>
    requires items != []
  {
    items[..|items| - 1]
  }

  /** The reload bit that a message with flags `next` finds after the messages `items`. */
  predicate EnteredWith(items: seq<Item>, reload: bool, next: Option<Flags>) {
    if items == [] then reload
    else
      var it := Last(items);
      ReloadAfter(EnteredWith(Init(items), reload, Some(it.flags)), |it.data|, it.flags, next)
  }

  /** What the driver puts on the wire for a list of messages. */
  function ActualWire(w: Wire, items: seq<Item>, reload: bool, peer: Peer): Wire {
    if items == [] then w
    else
      MsgWire(ActualWire(w, Init(items), reload, peer), EnteredWith(Init(items), reload, Some(Last(items).flags)), peer,
              Last(items).flags, Last(items).data)
  }

  /** The flags ask for the last message to go on without a START: it is no RESTART, and the bus is still held. */
  predicate Continues(items: seq<Item>)
    requires items != []
  {
    |items| > 1 && !Last(items).flags.restart && !Last(Init(items)).flags.stop
  }

  /** What the flags ask for: START and address before each such message, all payloads, and the STOPs. */
  function IdealWire(w: Wire, items: seq<Item>, peer: Peer): Wire {
    if items == [] then w
    else MsgWire(IdealWire(w, Init(items), peer), Continues(items), peer, Last(items).flags, Last(items).data)
  }

  /** One more message continues the list on the wire. */
  lemma WireOfNext(w: Wire, items: seq<Item>, it: Item, reload: bool, peer: Peer, next: Option<Flags>)
    ensures ActualWire(w, items + [it], reload, peer)
         == MsgWire(ActualWire(w, items, reload, peer), EnteredWith(items, reload, Some(it.flags)), peer, it.flags,
                    it.data)
    ensures EnteredWith(items + [it], reload, next)
         == ReloadAfter(EnteredWith(items, reload, Some(it.flags)), |it.data|, it.flags, next)
  {
    assert Init(items + [it]) == items;
  }

  /** The last message wants a START and finds the reload bit set. */
  predicate MissesStart(items: seq<Item>, reload: bool)
    requires items != []
  {
    !Continues(items) && EnteredWith(Init(items), reload, Some(Last(items).flags))
  }

  /** The number of START conditions on the wire. */
  function Starts(w: Wire): nat {
    if w == [] then 0 else Starts(w[..|w| - 1]) + if w[|w| - 1].Start? then 1 else 0
  }

  lemma StartsStep(w: Wire, e: Event)
    ensures Starts(w + [e]) == Starts(w) + if e.Start? then 1 else 0
  {
    assert (w + [e])[..|w|] == w;
  }

  lemma {:induction false} CarryAddsNoStart(w: Wire, read: bool, data: seq<byte>)
    ensures Starts(Carry(w, read, data)) == Starts(w)
  {
    if data != [] {
      CarryAddsNoStart(w, read, data[..|data| - 1]);
      StartsStep(Carry(w, read, data[..|data| - 1]), Transferred(read, data[|data| - 1]));
    }
  }

  lemma MsgStarts(w: Wire, reload: bool, peer: Peer, flags: Flags, data: seq<byte>)
    ensures Starts(MsgWire(w, reload, peer, flags, data)) == Starts(w) + if reload then 0 else 1
  {
    StartsStep(w, Start(peer.slave, peer.tenBit, flags.read));
    CarryAddsNoStart(Open(w, reload, peer, flags.read), flags.read, data);
    StartsStep(Carry(Open(w, reload, peer, flags.read), flags.read, data), Stop);
  }

  /** A message that wants no START always finds the reload bit set. */
  lemma ReloadWhenJoined(items: seq<Item>, reload: bool)
    requires items != [] && Continues(items)
    ensures EnteredWith(Init(items), reload, Some(Last(items).flags))
  {
  }

  /** The wanted START conditions that are missing on the wire. */
  function Missing(items: seq<Item>, reload: bool): nat {
    if items == [] then 0 else Missing(Init(items), reload) + if MissesStart(items, reload) then 1 else 0
  }

  /** The driver sends no START too many, and misses exactly those wanted ones that meet the reload bit. */
  lemma {:induction false} StartsMissing(w: Wire, items: seq<Item>, reload: bool, peer: Peer)
    ensures Starts(ActualWire(w, items, reload, peer)) + Missing(items, reload) == Starts(IdealWire(w, items, peer))
  {
    if items != [] {
      var init, it := Init(items), Last(items);
      var entered, skip := EnteredWith(init, reload, Some(it.flags)), Continues(items);
      StartsMissing(w, init, reload, peer);
      MsgStarts(ActualWire(w, init, reload, peer), entered, peer, it.flags, it.data);
      MsgStarts(IdealWire(w, init, peer), skip, peer, it.flags, it.data);
      if skip {
        ReloadWhenJoined(items, reload);
      }
    }
  }

  lemma {:induction false} WiresAgree(w: Wire, items: seq<Item>, reload: bool, peer: Peer)
    requires Missing(items, reload) == 0
    ensures ActualWire(w, items, reload, peer) == IdealWire(w, items, peer)
  {
    if items != [] {
      WiresAgree(w, Init(items), reload, peer);
      if Continues(items) {
        ReloadWhenJoined(items, reload);
      }
    }
  }

  // ---- The condition on the list of messages ----

  /** No START is wanted before message `i`. */
  predicate ContinuesAt(items: seq<Item>, i: nat)
    requires i < |items|
  {
    i > 0 && !items[i].flags.restart && !items[i - 1].flags.stop
  }

  /**
   No RESTART follows, without a STOP, a message that is longer than one chunk or was itself
   joined to the message before it.
   */
  predicate NoStaleReload(items: seq<Item>) {
    forall i :: 0 < i < |items| ==> !StaleAt(items, i)
  }

  /** The RESTART of message `i` finds the reload bit set. */
  predicate StaleAt(items: seq<Item>, i: nat)
    requires 0 < i < |items|
  {
    && items[i].flags.restart && !items[i - 1].flags.stop
    && (|items[i - 1].data| > MAX_CHUNK || ContinuesAt(items, i - 1))
  }

  lemma NoStaleReloadOfInit(items: seq<Item>)
    requires items != []
    ensures var n := |items|;
            NoStaleReload(items) <==>
              && NoStaleReload(Init(items))
              && (n > 1 && Last(items).flags.restart && !Last(Init(items)).flags.stop ==>
                    |Last(Init(items)).data| <= MAX_CHUNK && !Continues(Init(items)))
  {
    var n, init := |items|, Init(items);
    forall i | 0 < i < n - 1
      ensures StaleAt(items, i) == StaleAt(init, i)
    {
      assert init[i] == items[i] && init[i - 1] == items[i - 1] && (i > 1 ==> init[i - 2] == items[i - 2]);
    }
    if n > 1 {
      assert Last(init) == items[n - 2] && (n > 2 ==> init[n - 3] == items[n - 3]);
      assert Continues(init) == ContinuesAt(items, n - 2);
      assert StaleAt(items, n - 1) <==>
             Last(items).flags.restart && !Last(init).flags.stop && (|Last(init).data| > MAX_CHUNK || Continues(init));
    }
  }

  /** From a clear reload bit, no START is missed exactly when the list meets the condition. */
  lemma {:induction false} MissingIff(items: seq<Item>)
    ensures Missing(items, false) == 0 <==> NoStaleReload(items)
  {
    if items != [] {
      MissingIff(Init(items));
      NoStaleReloadOfInit(items);
      if |items| > 1 && Missing(Init(items), false) == 0 && Continues(Init(items)) {
        ReloadWhenJoined(Init(items), false);
      }
    }
  }

  lemma {:induction false} SetReloadMissesFirst(items: seq<Item>)
    requires items != []
    ensures Missing(items, true) > 0
  {
    if |items| > 1 {
      SetReloadMissesFirst(Init(items));
    }
  }

  /**
   The wire carries exactly what the flags ask for if and only if the reload bit is clear on entry
   and no RESTART meets a stale reload bit.
   */
  lemma WireIsIdeal(w: Wire, items: seq<Item>, reload: bool, peer: Peer)
    requires items != []
    ensures ActualWire(w, items, reload, peer) == IdealWire(w, items, peer) <==> !reload && NoStaleReload(items)
  {
    if reload {
      SetReloadMissesFirst(items);
    } else {
      MissingIff(items);
    }
    StartsMissing(w, items, reload, peer);
    if Missing(items, reload) == 0 {
      WiresAgree(w, items, reload, peer);
    }
  }

  // ---- The direction of the controller ----

  /** The direction bit after the messages: it is written only together with a START. True is for receiving. */
  predicate Receiving(items: seq<Item>, reload: bool, dir: bool) {
    if items == [] then dir
    else if EnteredWith(Init(items), reload, Some(Last(items).flags)) then Receiving(Init(items), reload, dir)
    else Last(items).flags.read
  }

  /** Every message that has bytes to carry finds the controller in its own direction. */
  predicate Completes(items: seq<Item>, reload: bool, dir: bool) {
    items == []
    || (Completes(Init(items), reload, dir)
        && (Last(items).data == [] || Receiving(items, reload, dir) == Last(items).flags.read))
  }

  /** The direction in which the bus is left by the last START on the wire. */
  predicate LastStart(w: Wire, dir: bool) {
    if w == [] then dir else if w[|w| - 1].Start? then w[|w| - 1].read else LastStart(w[..|w| - 1], dir)
  }

  /** What a bus can show: bytes go out only after a START for writing, and come in only after one for reading. */
  predicate Directed(w: Wire, dir: bool) {
    w == []
    || (Directed(w[..|w| - 1], dir)
        && (w[|w| - 1].Sent? ==> !LastStart(w[..|w| - 1], dir))
        && (w[|w| - 1].Got? ==> LastStart(w[..|w| - 1], dir)))
  }

  lemma DirectedStep(w: Wire, e: Event, dir: bool)
    ensures LastStart(w + [e], dir) == if e.Start? then e.read else LastStart(w, dir)
    ensures Directed(w + [e], dir) <==>
              Directed(w, dir) && (e.Sent? ==> !LastStart(w, dir)) && (e.Got? ==> LastStart(w, dir))
  {
    assert (w + [e])[..|w|] == w;
  }

  lemma {:induction false} CarryDirected(w: Wire, read: bool, data: seq<byte>, dir: bool)
    ensures LastStart(Carry(w, read, data), dir) == LastStart(w, dir)
    ensures Directed(Carry(w, read, data), dir) <==> Directed(w, dir) && (data == [] || LastStart(w, dir) == read)
  {
    if data != [] {
      var init, b := data[..|data| - 1], data[|data| - 1];
      CarryDirected(w, read, init, dir);
      DirectedStep(Carry(w, read, init), Transferred(read, b), dir);
    }
  }

  lemma MsgDirected(w: Wire, reload: bool, peer: Peer, flags: Flags, data: seq<byte>, dir: bool)
    ensures var d := if reload then LastStart(w, dir) else flags.read;
            && LastStart(MsgWire(w, reload, peer, flags, data), dir) == d
            && (Directed(MsgWire(w, reload, peer, flags, data), dir) <==>
                  Directed(w, dir) && (data == [] || d == flags.read))
  {
    var open := Open(w, reload, peer, flags.read);
    DirectedStep(w, Start(peer.slave, peer.tenBit, flags.read), dir);
    CarryDirected(open, flags.read, data, dir);
    DirectedStep(Carry(open, flags.read, data), Stop, dir);
  }

  /** The wire of a list is one that a bus can show if and only if every message finds its own direction. */
  lemma {:induction false} WireIsDirectedIff(w: Wire, items: seq<Item>, reload: bool, peer: Peer, dir: bool)
    ensures LastStart(ActualWire(w, items, reload, peer), dir) == Receiving(items, reload, LastStart(w, dir))
    ensures Directed(ActualWire(w, items, reload, peer), dir) <==>
              Directed(w, dir) && Completes(items, reload, LastStart(w, dir))
  {
    if items != [] {
      var init, it := Init(items), Last(items);
      WireIsDirectedIff(w, init, reload, peer, dir);
      MsgDirected(ActualWire(w, init, reload, peer), EnteredWith(init, reload, Some(it.flags)), peer, it.flags, it.data,
                  dir);
    }
  }

  /** The lists agree in flags and lengths. */
  predicate SameShape(a: seq<Item>, b: seq<Item>) {
    |a| == |b| && forall i :: 0 <= i < |a| ==> a[i].flags == b[i].flags && |a[i].data| == |b[i].data|
  }

  /** Flags and lengths alone decide. */
  lemma {:induction false} ShapeDecides(a: seq<Item>, b: seq<Item>, reload: bool, dir: bool, next: Option<Flags>)
    requires SameShape(a, b)
    ensures EnteredWith(a, reload, next) == EnteredWith(b, reload, next)
    ensures Receiving(a, reload, dir) == Receiving(b, reload, dir)
    ensures Completes(a, reload, dir) == Completes(b, reload, dir)
  {
    if a != [] {
      var last := Last(a).flags;
      assert last == Last(b).flags && |Last(a).data| == |Last(b).data|;
      ShapeDecides(Init(a), Init(b), reload, dir, Some(last));
    }
  }

  /** Whether one more message finds its direction is decided by the flags and lengths before it. */
  lemma LastDecides(a: seq<Item>, b: seq<Item>, reload: bool, dir: bool)
    requires b != [] && SameShape(a, Init(b)) && Completes(a, reload, dir)
    ensures var flags := Last(b).flags;
            Completes(b, reload, dir) <==>
              Last(b).data == []
              || (if EnteredWith(a, reload, Some(flags)) then Receiving(a, reload, dir) else flags.read) == flags.read
  {
    ShapeDecides(a, Init(b), reload, dir, Some(Last(b).flags));
  }

  /** A list that completes does so up to each of its messages. */
  lemma {:induction false} CompletesPrefix(items: seq<Item>, k: nat, reload: bool, dir: bool)
    requires k <= |items| && Completes(items, reload, dir)
    ensures Completes(items[..k], reload, dir)
  {
    if k == |items| {
      assert items[..k] == items;
    } else {
      CompletesPrefix(Init(items), k, reload, dir);
      assert Init(items)[..k] == items[..k];
    }
  }

  /** A read by RESTART after a write of more than 255 bytes misses its START, and so finds the wrong direction. */
  lemma ReadAfterLongWriteNeverEnds(items: seq<Item>, dir: bool)
    requires |items| == 2 && items[0].flags == Flags(false, false, true) && |items[0].data| > MAX_CHUNK
    requires items[1].flags == Flags(true, true, true) && items[1].data != []
    ensures MissesStart(items, false) && !Completes(items, false, dir)
  {
    assert Init(items) == [items[0]] && Init([items[0]]) == [];
    assert EnteredWith([items[0]], false, Some(items[1].flags));
    assert !Receiving([items[0]], false, dir);
  }

  // ---- The check of the flags ----

  /** What the check asks of two neighbouring messages: no STOP before the last, and a RESTART to change direction. */
  predicate PairOk(a: Flags, b: Flags) {
    !a.stop && (a.read != b.read ==> b.restart)
  }

  /** What it is meant to ask of a list. */
  predicate FlagsOk(fs: seq<Flags>) {
    forall i {:trigger fs[i]} :: 0 <= i < |fs| - 1 ==> PairOk(fs[i], fs[i + 1])
  }

  /** Two messages in one direction pass if the first asks for no STOP; a change of direction needs a RESTART too. */
  lemma PairOkIff(a: Flags, b: Flags)
    ensures a.read == b.read ==> (PairOk(a, b) <==> !a.stop)
    ensures a.read != b.read ==> (PairOk(a, b) <==> !a.stop && b.restart)
  {
  }

  /** What it asks: its current message never advances. */
  predicate CheckPasses(fs: seq<Flags>) {
    |fs| < 2 || PairOk(fs[0], fs[1])
  }

  /**
   The check rejects no good list, and it agrees with what it is meant to ask if and only if the first pair is bad
   already or the messages from the second on are in order.
   */
  lemma CheckAgreesIff(fs: seq<Flags>)
    requires fs != []
    ensures FlagsOk(fs) ==> CheckPasses(fs)
    ensures (CheckPasses(fs) <==> FlagsOk(fs)) <==> !CheckPasses(fs) || FlagsOk(fs[1..])
  {
    if FlagsOk(fs) {
      forall i | 0 <= i < |fs[1..]| - 1
        ensures PairOk(fs[1..][i], fs[1..][i + 1])
      {
        assert fs[1..][i] == fs[i + 1];
      }
    }
    if FlagsOk(fs[1..]) && CheckPasses(fs) {
      forall i | 0 <= i < |fs| - 1
        ensures PairOk(fs[i], fs[i + 1])
      {
        if i > 0 {
          assert fs[1..][i - 1] == fs[i];
        }
      }
    }
  }

  /** For example, a STOP in the second of three messages passes. */
  lemma CheckMissesLaterStop()
    ensures var fs := [Flags(false, false, true), Flags(false, true, false), Flags(false, true, false)];
            CheckPasses(fs) && !FlagsOk(fs)
  {
    var fs := [Flags(false, false, true), Flags(false, true, false), Flags(false, true, false)];
    assert !PairOk(fs[1], fs[2]);
  }

  /** The loop of the check: its 8-bit counter at the head of a round, or the end with its outcome. */
  datatype Check = Running(i: nat) | Ended(valid: bool)

  function CheckRound(fs: seq<Flags>, c: Check): Check {
    if c.Ended? then c
    else if c.i > |fs| then Ended(true)
    else if c.i < |fs| && !CheckPasses(fs) then Ended(false)
    else Running((c.i + 1) % 256)
  }

  function CheckAfter(fs: seq<Flags>, rounds: nat): Check {
    if rounds == 0 then Running(1) else CheckRound(fs, CheckAfter(fs, rounds - 1))
  }

  lemma NextCount(n: nat)
    ensures (n % 256 + 1) % 256 == (1 + n) % 256
  {
  }

  lemma {:induction false} CheckCounts(fs: seq<Flags>, rounds: nat)
    requires |fs| <= 255 && CheckPasses(fs) && (rounds <= |fs| || |fs| == 255)
    ensures CheckAfter(fs, rounds) == Running((1 + rounds) % 256)
  {
    if rounds > 0 {
      CheckCounts(fs, rounds - 1);
      NextCount(rounds);
    }
  }

  /** The check ends if and only if there are fewer than 255 messages or the first pair is bad; then as it should. */
  lemma CheckEndsIff(fs: seq<Flags>)
    requires |fs| <= 255
    ensures (exists n: nat :: CheckAfter(fs, n).Ended?) <==> |fs| < 255 || !CheckPasses(fs)
    ensures |fs| < 255 || !CheckPasses(fs) ==> exists n: nat :: CheckAfter(fs, n) == Ended(CheckPasses(fs))
  {
    if !CheckPasses(fs) {
      assert CheckAfter(fs, 0) == Running(1);
      assert CheckAfter(fs, 1) == Ended(false);
    } else if |fs| < 255 {
      CheckCounts(fs, |fs|);
      assert CheckAfter(fs, |fs| + 1) == Ended(true);
    } else {
      forall n: nat
        ensures !CheckAfter(fs, n).Ended?
      {
        CheckCounts(fs, n);
      }
    }
  }

  function ItemFlags(items: seq<Item>): (fs: seq<Flags>)
    ensures |fs| == |items| && forall i :: 0 <= i < |items| ==> fs[i] == items[i].flags
  {
    seq(|items|, i requires 0 <= i < |items| => items[i].flags)
  }

  /** From a clear reload bit, a list in order without a stale reload bit finds every message in its own direction. */
  lemma {:induction false} InOrderCompletes(items: seq<Item>, dir: bool)
    requires FlagsOk(ItemFlags(items)) && NoStaleReload(items)
    ensures Completes(items, false, dir)
    ensures items != [] ==> Receiving(items, false, dir) == Last(items).flags.read
  {
    if items != [] {
      var init, n := Init(items), |items|;
      NoStaleReloadOfInit(items);
      MissingIff(items);
      forall i | 0 <= i < |init| - 1
        ensures PairOk(ItemFlags(init)[i], ItemFlags(init)[i + 1])
      {
        assert PairOk(ItemFlags(items)[i], ItemFlags(items)[i + 1]);
      }
      InOrderCompletes(init, dir);
      if n > 1 {
        assert PairOk(ItemFlags(items)[n - 2], ItemFlags(items)[n - 1]);
      }
    }
  }

  lemma OneByteMessage(w: Wire, reload: bool, peer: Peer, flags: Flags, b: byte)
    ensures MsgWire(w, reload, peer, flags, [b])
         == Close(Open(w, reload, peer, flags.read) + [Transferred(flags.read, b)], flags.stop)
  {
    CarryOne(Open(w, reload, peer, flags.read), flags.read, [], b);
    assert [] + [b] == [b];
  }

  /** Two messages on the wire, from a clear reload bit. */
  lemma TwoMessages(w: Wire, first: Item, second: Item, peer: Peer)
    ensures ActualWire(w, [first, second], false, peer)
         == MsgWire(MsgWire(w, false, peer, first.flags, first.data),
                    ReloadAfter(false, |first.data|, first.flags, Some(second.flags)), peer, second.flags, second.data)
  {
    WireOfNext(w, [], first, false, peer, Some(second.flags));
    WireOfNext(w, [first], second, false, peer, None);
    assert [] + [first] == [first] && [first] + [second] == [first, second];
  }

  /** Two one-byte writes on the wire, each with a START of its own and a STOP. */
  function TwoWrites(w: Wire, peer: Peer, b: byte, c: byte): Wire {
    w + [Start(peer.slave, peer.tenBit, false), Sent(b), Stop] + [Start(peer.slave, peer.tenBit, false), Sent(c), Stop]
  }

  const STOPPED_WRITE := Flags(false, true, true)

  /** Two one-byte writes, each with its STOP: the check rejects them, they complete, and this is their wire. */
  lemma StoppedWrites(w: Wire, b: byte, c: byte, peer: Peer, dir: bool)
    ensures !CheckPasses([STOPPED_WRITE, STOPPED_WRITE])
    ensures var items := [Item(STOPPED_WRITE, [b]), Item(STOPPED_WRITE, [c])];
            && Completes(items, false, dir)
            && ActualWire(w, items, false, peer) == TwoWrites(w, peer, b, c)
  {
    var first, second := Item(STOPPED_WRITE, [b]), Item(STOPPED_WRITE, [c]);
    var v := w + [Start(peer.slave, peer.tenBit, false)] + [Sent(b)] + [Stop];
    TwoMessages(w, first, second, peer);
    OneByteMessage(w, false, peer, STOPPED_WRITE, b);
    OneByteMessage(v, false, peer, STOPPED_WRITE, c);
    assert v == w + [Start(peer.slave, peer.tenBit, false), Sent(b), Stop];
    assert v + [Start(peer.slave, peer.tenBit, false)] + [Sent(c)] + [Stop]
        == v + [Start(peer.slave, peer.tenBit, false), Sent(c), Stop];
    StoppedWritesComplete(first, second, dir);
  }

  lemma StoppedWritesComplete(first: Item, second: Item, dir: bool)
    requires first.flags == second.flags == STOPPED_WRITE
    ensures Completes([first, second], false, dir)
  {
    assert Init([first, second]) == [first];
    assert Init([first]) == [];
    assert !EnteredWith([], false, Some(first.flags));
    assert Completes([first], false, dir);
    assert !EnteredWith([first], false, Some(second.flags));
  }
}
