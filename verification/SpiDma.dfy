/**
 The SPI driver over two DMA channels, 8-bit words: a transfer is cut into chunks at the buffer ends of
 either side, and every order in which the two channels complete leads to the same result.
 */
module SpiDma {
  import opened MachineInt

  datatype Dir = RX | TX

  /**
   The buffers of the context still to be transferred, the first one partly: what is left to send (a missing
   buffer counts as zeros, which the dummy word sends), and how much room is left on the receive side.
   */
  datatype Bufs = Bufs(tx: seq<seq<byte>>, rx: seq<nat>)

  /** The context skips empty buffers. */
  predicate NoEmpty(b: Bufs) {
    (forall i :: 0 <= i < |b.tx| ==> b.tx[i] != []) && (forall i :: 0 <= i < |b.rx| ==> b.rx[i] > 0)
  }

  /** spi_context_max_continuous_chunk. */
  function Chunk(b: Bufs): nat {
    if b.tx == [] then if b.rx == [] then 0 else b.rx[0]
    else if b.rx == [] then |b.tx[0]|
    else Min(|b.tx[0]|, b.rx[0])
  }

  predicate Ongoing(b: Bufs) {
    b.tx != [] || b.rx != []
  }

  /** spi_context_update_tx and spi_context_update_rx for `n` frames of one byte. */
  function Advance(b: Bufs, n: nat): Bufs
    requires FitsChunk(b, n)
  {
    Bufs(if b.tx == [] then [] else if n < |b.tx[0]| then [b.tx[0][n..]] + b.tx[1..] else b.tx[1..],
         if b.rx == [] then [] else if n < b.rx[0] then [b.rx[0] - n] + b.rx[1..] else b.rx[1..])
  }

  lemma AdvanceByChunk(b: Bufs)
    requires NoEmpty(b) && Ongoing(b)
    ensures Chunk(b) > 0 && NoEmpty(Advance(b, Chunk(b)))
    ensures Size(Advance(b, Chunk(b))) < Size(b)
  {
  }

  /** A chunk of `n` frames lies within the current buffer of each side that has one. */
  predicate FitsChunk(b: Bufs, n: nat) {
    (b.tx != [] ==> n <= |b.tx[0]|) && (b.rx != [] ==> n <= b.rx[0])
  }

  /** The chunk is the longest continuous one, so it ends where a buffer ends. */
  lemma ChunkIsLongest(b: Bufs, n: nat)
    requires Ongoing(b)
    ensures FitsChunk(b, n) <==> n <= Chunk(b)
    ensures var c := Advance(b, Chunk(b));
            |c.tx| + |c.rx| < |b.tx| + |b.rx|
  {
  }

  /** So there are at most as many chunks as buffers. */
  lemma {:induction false} ChunksAreFew(b: Bufs)
    requires NoEmpty(b)
    ensures |Chunks(b)| <= |b.tx| + |b.rx|
    decreases Size(b)
  {
    if Ongoing(b) {
      AdvanceByChunk(b);
      ChunkIsLongest(b, 0);
      ChunksAreFew(Advance(b, Chunk(b)));
    }
  }

  function Size(b: Bufs): nat {
    TxSize(b.tx) + RxSize(b.rx)
  }

  function TxSize(tx: seq<seq<byte>>): nat {
    if tx == [] then 0 else |tx[0]| + TxSize(tx[1..])
  }

  function RxSize(rx: seq<nat>): nat {
    if rx == [] then 0 else rx[0] + RxSize(rx[1..])
  }

  // ---- What a transfer should do ----

  function Zeros(n: nat): seq<byte> {
    seq(n, _ => 0)
  }

  function Flatten(tx: seq<seq<byte>>): seq<byte> {
    if tx == [] then [] else tx[0] + Flatten(tx[1..])
  }

  /** The bytes that go out: the data, and zeros while only the receive side goes on. */
  function Outgoing(b: Bufs): seq<byte> {
    Flatten(b.tx) + Zeros(Max(0, RxSize(b.rx) - TxSize(b.tx)))
  }

  /** The bytes that the transmit channel takes for the current chunk. */
  function ChunkData(b: Bufs): seq<byte>
    requires b.tx != [] ==> Chunk(b) <= |b.tx[0]|
  {
    if b.tx == [] then Zeros(Chunk(b)) else b.tx[0][..Chunk(b)]
  }

  /** The sizes of the chunks of a transfer. */
  function Chunks(b: Bufs): seq<nat>
    requires NoEmpty(b)
    decreases Size(b)
  {
    if !Ongoing(b) then []
    else
      AdvanceByChunk(b);
      [Chunk(b)] + Chunks(Advance(b, Chunk(b)))
  }

  function Sum(s: seq<nat>): nat {
    if s == [] then 0 else s[0] + Sum(s[1..])
  }

  /** The chunks cover the longer of the two sides. */
  lemma {:induction false} ChunksCover(b: Bufs)
    requires NoEmpty(b)
    ensures Sum(Chunks(b)) == Max(TxSize(b.tx), RxSize(b.rx))
    decreases Size(b)
  {
    if Ongoing(b) {
      AdvanceByChunk(b);
      SizesAfter(b);
      ChunksCover(Advance(b, Chunk(b)));
    }
  }

  lemma SizesAfter(b: Bufs)
    requires NoEmpty(b) && Ongoing(b)
    ensures var c := Advance(b, Chunk(b));
            && TxSize(c.tx) == Max(0, TxSize(b.tx) - Chunk(b))
            && RxSize(c.rx) == Max(0, RxSize(b.rx) - Chunk(b))
  {
  }

  lemma FlattenAfter(b: Bufs)
    requires NoEmpty(b) && Ongoing(b)
    ensures b.tx != [] ==> Flatten(b.tx) == ChunkData(b) + Flatten(Advance(b, Chunk(b)).tx)
    ensures b.tx == [] ==> Advance(b, Chunk(b)).tx == []
  {
    if b.tx != [] {
      var n := Chunk(b);
      if n < |b.tx[0]| {
        assert b.tx[0] == b.tx[0][..n] + b.tx[0][n..];
        var rest := [b.tx[0][n..]] + b.tx[1..];
        assert rest[0] == b.tx[0][n..] && rest[1..] == b.tx[1..];
      } else {
        assert b.tx[0][..n] == b.tx[0];
      }
    }
  }

  lemma ZerosSplit(m: nat, n: nat)
    ensures Zeros(m) + Zeros(n) == Zeros(m + n)
  {
  }

  /** The data of the chunk and what goes out after it are what goes out. */
  lemma OutgoingAfter(b: Bufs)
    requires NoEmpty(b) && Ongoing(b)
    ensures ChunkData(b) + Outgoing(Advance(b, Chunk(b))) == Outgoing(b)
  {
    SizesAfter(b);
    FlattenAfter(b);
    var c := Advance(b, Chunk(b));
    if b.tx == [] {
      ZerosSplit(Chunk(b), RxSize(b.rx) - Chunk(b));
      assert Flatten(b.tx) == Flatten(c.tx) == [];
    } else {
      assert Max(0, RxSize(b.rx) - TxSize(b.tx)) == Max(0, RxSize(c.rx) - TxSize(c.tx));
      Regroup(ChunkData(b), Flatten(c.tx), Zeros(Max(0, RxSize(c.rx) - TxSize(c.tx))));
    }
  }

  /** For each frame that comes in, whether it goes to a receive buffer: the first ones do, the others are dropped. */
  function Incoming(b: Bufs): seq<bool> {
    Stored(RxSize(b.rx), TxSize(b.tx))
  }

  function Stored(room: nat, frames: nat): seq<bool> {
    Marks(true, room) + Marks(false, Max(0, frames - room))
  }

  function Marks(v: bool, n: nat): seq<bool> {
    seq(n, _ => v)
  }

  lemma MarksSplit(v: bool, m: nat, n: nat)
    ensures Marks(v, m) + Marks(v, n) == Marks(v, m + n)
  {
  }

  /** The same for the frames of the current chunk. */
  function ChunkMarks(b: Bufs): seq<bool> {
    Marks(b.rx != [], Chunk(b))
  }

  lemma IncomingAfter(b: Bufs)
    requires NoEmpty(b) && Ongoing(b)
    ensures ChunkMarks(b) + Incoming(Advance(b, Chunk(b))) == Incoming(b)
  {
    SizesAfter(b);
    var n: int, room: int, frames: int := Chunk(b), RxSize(b.rx), TxSize(b.tx);
    IncomingOf(Advance(b, n), Max(0, room - n), Max(0, frames - n));
    if b.rx != [] {
      assert n <= room;
      StoredSplit(n, room, frames);
    } else {
      assert room == 0 && n <= frames;
      DroppedSplit(n, frames);
    }
  }

  lemma IncomingOf(b: Bufs, room: nat, frames: nat)
    requires RxSize(b.rx) == room && TxSize(b.tx) == frames
    ensures Incoming(b) == Stored(room, frames)
  {
  }

  lemma StoredSplit(n: nat, r: nat, t: nat)
    requires n <= r
    ensures Marks(true, n) + Stored(r - n, Max(0, t - n)) == Stored(r, t)
  {
    assert Max(0, t - r) == Max(0, Max(0, t - n) - (r - n));
    MarksSplit(true, n, r - n);
    Regroup(Marks(true, n), Marks(true, r - n), Marks(false, Max(0, t - r)));
  }

  lemma DroppedSplit(n: nat, t: nat)
    requires n <= t
    ensures Marks(false, n) + Stored(0, t - n) == Stored(0, t)
  {
    MarksSplit(false, n, t - n);
    assert Marks(true, 0) == [];
    assert [] + Marks(false, t - n) == Marks(false, t - n) && [] + Marks(false, t) == Marks(false, t);
  }

  // ---- The protocol ----

  /** A DMA channel: the frames counted for the current chunk, the busy mark, and every size it was programmed with. */
  datatype Chan = Chan(count: nat, busy: bool, programmed: seq<nat>)

  /**
   A transfer: the context, the two channels, the bytes handed to the transmit channel, for each frame of the receive
   channel whether it is to go to a buffer, and the completions signalled.
   */
  datatype Spi = Spi(b: Bufs, rx: Chan, tx: Chan, sent: seq<byte>, stored: seq<bool>, completions: seq<int>) {
    function Get(dir: Dir): Chan {
      if dir == RX then rx else tx
    }

    function Set(dir: Dir, c: Chan): Spi {
      if dir == RX then this.(rx := c) else this.(tx := c)
    }

    /** Both channels are stopped. */
    function Halt(): Spi {
      this.(rx := rx.(busy := false), tx := tx.(busy := false))
    }
  }

  function Other(dir: Dir): Dir {
    if dir == RX then TX else RX
  }

  /** What the DMA driver returns when a channel is set up: 0, or an error. */
  datatype Setups = Setups(rx: int, tx: int) {
    predicate Fine() {
      rx >= 0 && tx >= 0
    }
  }

  const FINE := Setups(0, 0)

  /** spi_at32_dma_setup: programs the channel for the current chunk and starts it. */
  function SetupStep(s: Spi, dir: Dir): Spi
    requires NoEmpty(s.b)
  {
    var c, n := s.Get(dir), Chunk(s.b);
    var t := s.Set(dir, c.(busy := true, programmed := c.programmed + [n]));
    if dir == TX then t.(sent := t.sent + ChunkData(s.b)) else t.(stored := t.stored + ChunkMarks(s.b))
  }

  /** The channel is idle and has not done its part of the chunk. */
  predicate Wants(s: Spi, dir: Dir) {
    Chunk(s.b) != s.Get(dir).count && !s.Get(dir).busy
  }

  function StartOne(s: Spi, dir: Dir): Spi
    requires NoEmpty(s.b)
  {
    if Wants(s, dir) then SetupStep(s, dir) else s
  }

  /** What spi_at32_start_dma_transceive returns. */
  function StartRc(s: Spi, f: Setups): int {
    if Wants(s, RX) && f.rx < 0 then f.rx else if Wants(s, TX) && f.tx < 0 then f.tx else 0
  }

  /** What it does: the channels that want it are programmed, and when that fails both are stopped. */
  function StartStep(s: Spi, f: Setups): Spi
    requires NoEmpty(s.b)
  {
    if Wants(s, RX) && f.rx < 0 then s.Halt()
    else if Wants(s, TX) && f.tx < 0 then StartOne(s, RX).Halt()
    else StartOne(StartOne(s, RX), TX)
  }

  /** spi_at32_complete: both channels are stopped, the waiting thread is told. */
  function CompleteStep(s: Spi, status: int): Spi {
    s.Halt().(completions := s.completions + [status])
  }

  /** The last part of the callback: the channels go on, or the transfer ends with the error of the set-up. */
  function GoOn(s: Spi, f: Setups): Spi
    requires NoEmpty(s.b)
  {
    if StartRc(s, f) < 0 then CompleteStep(StartStep(s, f), StartRc(s, f)) else StartStep(s, f)
  }

  /** The channel has counted its part of the chunk. */
  function CountStep(s: Spi, dir: Dir): Spi {
    s.Set(dir, s.Get(dir).(busy := false, count := s.Get(dir).count + Chunk(s.b)))
  }

  /** spi_at32_dma_callback, in one step with the busy mark falling. */
  function CallbackStep(s: Spi, dir: Dir, status: int, f: Setups): Spi
    requires NoEmpty(s.b) && Ongoing(s.b)
  {
    if status < 0 then CompleteStep(s.Set(dir, s.Get(dir).(busy := false)), status)
    else CountedStep(CountStep(s, dir), f)
  }

  /** Its part after the count: when both channels have done the chunk, the context moves on. */
  function CountedStep(t: Spi, f: Setups): Spi
    requires NoEmpty(t.b) && Ongoing(t.b)
  {
    AdvanceByChunk(t.b);
    if Min(t.tx.count, t.rx.count) < Chunk(t.b) then GoOn(t, f)
    else
      var u := t.(b := Advance(t.b, Chunk(t.b)));
      if Ongoing(u.b) then GoOn(u.(rx := u.rx.(count := 0), tx := u.tx.(count := 0)), f)
      else CompleteStep(u, 0)
  }

  /** One completion, or the failure of one. */
  function Completed(s: Spi, e: Step): Spi
    requires NoEmpty(s.b) && Ongoing(s.b)
  {
    CallbackStep(s, e.dir, e.status, e.setups)
  }

  /** A transfer that is about to start. */
  function Fresh(b: Bufs): Spi {
    Spi(b, Chan(0, false, []), Chan(0, false, []), [], [], [])
  }

  function BeginStep(b: Bufs): Spi
    requires NoEmpty(b)
  {
    StartStep(Fresh(b), FINE)
  }

  // ---- Every order of completions ----

  datatype Step = Step(dir: Dir, status: int, setups: Setups)

  predicate Enabled(s: Spi, e: Step) {
    s.Get(e.dir).busy
  }

  predicate Fails(e: Step) {
    e.status < 0 || !e.setups.Fine()
  }

  /** A channel either works on the current chunk or has done it. */
  predicate ChanOk(c: Chan, n: nat) {
    c.count == if c.busy then 0 else n
  }

  /** What was programmed, sent and received, with the current chunk, and what is to come are those of `b0`. */
  predicate Conserved(b: Bufs, b0: Bufs, programmed: seq<nat>, sent: seq<byte>, stored: seq<bool>)
    requires NoEmpty(b) && Ongoing(b) && NoEmpty(b0)
  {
    AdvanceByChunk(b);
    var next := Advance(b, Chunk(b));
    && programmed + Chunks(next) == Chunks(b0)
    && sent + Outgoing(next) == Outgoing(b0)
    && stored + Incoming(next) == Incoming(b0)
  }

  /** In the middle of the transfer of `b0`. */
  predicate InTransfer(s: Spi, b0: Bufs) {
    && NoEmpty(b0) && NoEmpty(s.b) && Ongoing(s.b) && s.completions == []
    && ChanOk(s.rx, Chunk(s.b)) && ChanOk(s.tx, Chunk(s.b)) && (s.rx.busy || s.tx.busy)
    && s.rx.programmed == s.tx.programmed
    && Conserved(s.b, b0, s.rx.programmed, s.sent, s.stored)
  }

  /** Both channels stand still and the end was signalled once; without an error everything was transferred. */
  predicate Finished(s: Spi, b0: Bufs) {
    && NoEmpty(b0) && NoEmpty(s.b) && !s.rx.busy && !s.tx.busy && |s.completions| == 1
    && (s.completions[0] >= 0 ==> Transferred(s, b0))
  }

  predicate Transferred(s: Spi, b0: Bufs)
    requires NoEmpty(b0)
  {
    && !Ongoing(s.b) && s.completions == [0]
    && s.rx.programmed == s.tx.programmed == Chunks(b0)
    && s.sent == Outgoing(b0) && s.stored == Incoming(b0)
  }

  /** The completions still to come without a failure. */
  function ToCome(s: Spi, b0: Bufs): nat
    requires InTransfer(s, b0) || Finished(s, b0)
  {
    if s.completions != [] then 0
    else
      AdvanceByChunk(s.b);
      2 * |Chunks(Advance(s.b, Chunk(s.b)))| + if s.rx.busy && s.tx.busy then 2 else 1
  }

  lemma Regroup<T>(done: seq<T>, chunk: seq<T>, rest: seq<T>)
    ensures done + chunk + rest == done + (chunk + rest)
  {
  }

  /** The next chunk keeps the balance. */
  lemma ConservedNext(b0: Bufs, next: Bufs, p: seq<nat>, sent: seq<byte>, stored: seq<bool>)
    requires NoEmpty(b0) && NoEmpty(next) && Ongoing(next)
    requires p + Chunks(next) == Chunks(b0) && sent + Outgoing(next) == Outgoing(b0)
    requires stored + Incoming(next) == Incoming(b0)
    ensures Conserved(next, b0, p + [Chunk(next)], sent + ChunkData(next), stored + ChunkMarks(next))
  {
    AdvanceByChunk(next);
    OutgoingAfter(next);
    IncomingAfter(next);
    var after := Advance(next, Chunk(next));
    Regroup(p, [Chunk(next)], Chunks(after));
    Regroup(sent, ChunkData(next), Outgoing(after));
    Regroup(stored, ChunkMarks(next), Incoming(after));
  }

  /** Programming a channel: the transmit side takes the data of the chunk, the receive side the room for it. */
  lemma SetupIsExact(s: Spi)
    requires NoEmpty(s.b)
    ensures var t, n := SetupStep(s, TX), Chunk(s.b);
            t == s.(tx := Chan(s.tx.count, true, s.tx.programmed + [n]), sent := s.sent + ChunkData(s.b))
    ensures var t, n := SetupStep(s, RX), Chunk(s.b);
            t == s.(rx := Chan(s.rx.count, true, s.rx.programmed + [n]), stored := s.stored + ChunkMarks(s.b))
  {
  }

  /** The channel wants its part of the chunk and is refused. */
  predicate Refused(s: Spi, dir: Dir, f: Setups) {
    Wants(s, dir) && (if dir == RX then f.rx else f.tx) < 0
  }

  /**
   The receive channel comes first: when it is refused, its error is returned and nothing is programmed; when only the
   transmit channel is, its error is returned and the receive channel keeps the chunk that it wanted; either way both
   are stopped. Otherwise the channels that want their part get it.
   */
  lemma StartOutcome(s: Spi, f: Setups)
    requires NoEmpty(s.b)
    ensures Refused(s, RX, f) ==> StartRc(s, f) == f.rx && StartStep(s, f) == s.Halt()
    ensures !Refused(s, RX, f) && Refused(s, TX, f) ==>
              && StartRc(s, f) == f.tx
              && StartStep(s, f) == (if Wants(s, RX) then SetupStep(s, RX) else s).Halt()
    ensures !Refused(s, RX, f) && !Refused(s, TX, f) ==>
              var t := StartStep(s, f);
              && StartRc(s, f) == 0
              && t.rx == (if Wants(s, RX) then SetupStep(s, RX) else s).rx
              && t.tx == (if Wants(s, TX) then SetupStep(s, TX) else s).tx
              && t.b == s.b && t.completions == s.completions
  {
  }

  /** Both channels idle with their counts at zero: each is programmed with the chunk. */
  lemma StartBoth(s: Spi)
    requires NoEmpty(s.b) && Ongoing(s.b) && s.rx.count == s.tx.count == 0 && !s.rx.busy && !s.tx.busy
    ensures StartStep(s, FINE)
         == Spi(s.b, Chan(0, true, s.rx.programmed + [Chunk(s.b)]), Chan(0, true, s.tx.programmed + [Chunk(s.b)]),
                s.sent + ChunkData(s.b), s.stored + ChunkMarks(s.b), s.completions)
  {
    AdvanceByChunk(s.b);
  }

  lemma ConservedAtStart(b: Bufs)
    requires NoEmpty(b) && Ongoing(b)
    ensures Conserved(b, b, [Chunk(b)], ChunkData(b), ChunkMarks(b))
  {
    AdvanceByChunk(b);
    OutgoingAfter(b);
    IncomingAfter(b);
  }

  lemma SetupsThatSucceed(s: Spi, f: Setups)
    requires NoEmpty(s.b) && f.Fine()
    ensures StartStep(s, f) == StartStep(s, FINE) && StartRc(s, f) == 0
  {
  }

  lemma BeginIsInTransfer(b: Bufs)
    requires NoEmpty(b) && Ongoing(b)
    ensures InTransfer(BeginStep(b), b) && ToCome(BeginStep(b), b) == 2 * |Chunks(b)|
  {
    AdvanceByChunk(b);
    StartBoth(Fresh(b));
    ConservedAtStart(b);
    assert [] + [Chunk(b)] == [Chunk(b)] && [] + ChunkData(b) == ChunkData(b) && [] + ChunkMarks(b) == ChunkMarks(b);
    var c := Chan(0, true, [Chunk(b)]);
    assert BeginStep(b) == Spi(b, c, c, ChunkData(b), ChunkMarks(b), []);
  }

  /** The first channel to finish counts its part; the other one is still at work. */
  lemma FirstOfChunk(s: Spi, e: Step, b0: Bufs)
    requires InTransfer(s, b0) && Enabled(s, e) && e.status >= 0 && s.Get(Other(e.dir)).busy
    ensures CallbackStep(s, e.dir, e.status, e.setups)
         == s.Set(e.dir, s.Get(e.dir).(count := Chunk(s.b), busy := false))
  {
    AdvanceByChunk(s.b);
    var t := CountStep(s, e.dir);
    assert !Wants(t, RX) && !Wants(t, TX);
  }

  lemma FirstKeepsTransfer(s: Spi, e: Step, b0: Bufs)
    requires InTransfer(s, b0) && Enabled(s, e) && e.status >= 0 && s.Get(Other(e.dir)).busy
    ensures InTransfer(CallbackStep(s, e.dir, e.status, e.setups), b0)
  {
    FirstOfChunk(s, e, b0);
  }

  /** The second one moves the context on, and both are programmed with the next chunk, or the transfer ends. */
  lemma SecondOfChunk(s: Spi, e: Step, b0: Bufs)
    requires InTransfer(s, b0) && Enabled(s, e) && !Fails(e) && !s.Get(Other(e.dir)).busy
    ensures var next, p := Advance(s.b, Chunk(s.b)), s.rx.programmed;
            CallbackStep(s, e.dir, e.status, e.setups) ==
            if Ongoing(next) then
              var c := Chan(0, true, p + [Chunk(next)]);
              Spi(next, c, c, s.sent + ChunkData(next), s.stored + ChunkMarks(next), [])
            else
              Spi(next, Chan(Chunk(s.b), false, p), Chan(Chunk(s.b), false, p), s.sent, s.stored, [0])
  {
    AdvanceByChunk(s.b);
    var next := Advance(s.b, Chunk(s.b));
    var t := CountStep(s, e.dir);
    assert t.rx == Chan(Chunk(s.b), false, s.rx.programmed) && t.tx == Chan(Chunk(s.b), false, s.rx.programmed);
    if Ongoing(next) {
      var u := t.(b := next, rx := t.rx.(count := 0), tx := t.tx.(count := 0));
      SetupsThatSucceed(u, e.setups);
      StartBoth(u);
    } else {
      assert [] + [0] == [0];
    }
  }

  lemma SecondKeepsTransfer(s: Spi, e: Step, b0: Bufs)
    requires InTransfer(s, b0) && Enabled(s, e) && !Fails(e) && !s.Get(Other(e.dir)).busy
    ensures var t := CallbackStep(s, e.dir, e.status, e.setups);
            if Ongoing(Advance(s.b, Chunk(s.b))) then InTransfer(t, b0) && t.rx.busy && t.tx.busy
            else Finished(t, b0)
  {
    AdvanceByChunk(s.b);
    var next := Advance(s.b, Chunk(s.b));
    SecondOfChunk(s, e, b0);
    if Ongoing(next) {
      ConservedNext(b0, next, s.rx.programmed, s.sent, s.stored);
      AdvanceByChunk(next);
    } else {
      assert Chunks(next) == [] && Outgoing(next) == [] && Incoming(next) == [];
      assert s.rx.programmed + [] == s.rx.programmed && s.sent + [] == s.sent && s.stored + [] == s.stored;
    }
  }

  /** A completion with an error ends the transfer with it. */
  lemma FailureFinishes(s: Spi, e: Step, b0: Bufs)
    requires InTransfer(s, b0) && Enabled(s, e) && e.status < 0
    ensures Finished(CallbackStep(s, e.dir, e.status, e.setups), b0)
    ensures CallbackStep(s, e.dir, e.status, e.setups).completions == [e.status]
  {
    assert [] + [e.status] == [e.status];
  }

  /** So does a set-up that fails, with its own error. */
  lemma SetupFailureFinishes(s: Spi, e: Step, b0: Bufs)
    requires InTransfer(s, b0) && Enabled(s, e) && e.status >= 0 && !e.setups.Fine()
    requires !s.Get(Other(e.dir)).busy && Ongoing(Advance(s.b, Chunk(s.b)))
    ensures Finished(CallbackStep(s, e.dir, e.status, e.setups), b0)
    ensures CallbackStep(s, e.dir, e.status, e.setups).completions
         == [if e.setups.rx < 0 then e.setups.rx else e.setups.tx]
  {
    AdvanceByChunk(s.b);
    var next := Advance(s.b, Chunk(s.b));
    AdvanceByChunk(next);
    var t := CountStep(s, e.dir);
    var u := t.(b := next, rx := t.rx.(count := 0), tx := t.tx.(count := 0));
    assert Wants(u, RX) && Wants(u, TX);
    GoOnFails(u, e.setups);
  }

  lemma GoOnFails(s: Spi, f: Setups)
    requires NoEmpty(s.b) && Wants(s, RX) && Wants(s, TX) && !f.Fine() && s.completions == []
    ensures var t := GoOn(s, f);
            && !t.rx.busy && !t.tx.busy && t.b == s.b
            && t.completions == [if f.rx < 0 then f.rx else f.tx]
  {
    var rc := StartRc(s, f);
    assert [] + [rc] == [rc];
  }

  /** One completion keeps the transfer on its way, or ends it properly. */
  lemma StepKeepsTransfer(s: Spi, e: Step, b0: Bufs)
    requires InTransfer(s, b0) && Enabled(s, e)
    ensures var t := CallbackStep(s, e.dir, e.status, e.setups);
            InTransfer(t, b0) || Finished(t, b0)
  {
    if e.status < 0 {
      FailureFinishes(s, e, b0);
    } else if s.Get(Other(e.dir)).busy {
      FirstKeepsTransfer(s, e, b0);
    } else if e.setups.Fine() {
      SecondKeepsTransfer(s, e, b0);
    } else if Ongoing(Advance(s.b, Chunk(s.b))) {
      SetupFailureFinishes(s, e, b0);
    } else {
      LastNeedsNoSetup(s, e, b0);
    }
  }

  /** After the last chunk no channel is set up. */
  lemma LastNeedsNoSetup(s: Spi, e: Step, b0: Bufs)
    requires InTransfer(s, b0) && Enabled(s, e) && e.status >= 0
    requires !s.Get(Other(e.dir)).busy && !Ongoing(Advance(s.b, Chunk(s.b)))
    ensures Finished(CallbackStep(s, e.dir, e.status, e.setups), b0)
  {
    AdvanceByChunk(s.b);
    SecondKeepsTransfer(s, e.(setups := FINE), b0);
    assert CallbackStep(s, e.dir, e.status, e.setups) == CallbackStep(s, e.dir, e.status, FINE);
  }

  /** `run` is an order of completions: a channel completes only while it is busy. */
  predicate IsRun(s: Spi, b0: Bufs, run: seq<Step>)
    requires InTransfer(s, b0) || Finished(s, b0)
    decreases |run|
  {
    run == []
    || (InTransfer(s, b0) && Enabled(s, run[0])
        && (StepKeepsTransfer(s, run[0], b0); IsRun(Completed(s, run[0]), b0, run[1..])))
  }

  function After(s: Spi, b0: Bufs, run: seq<Step>): (t: Spi)
    requires (InTransfer(s, b0) || Finished(s, b0)) && IsRun(s, b0, run)
    ensures InTransfer(t, b0) || Finished(t, b0)
    decreases |run|
  {
    if run == [] then s
    else
      StepKeepsTransfer(s, run[0], b0);
      After(Completed(s, run[0]), b0, run[1..])
  }

  /** Every completion without a failure brings the end nearer by one, and only the end is without a next one. */
  lemma StepCountsDown(s: Spi, e: Step, b0: Bufs)
    requires InTransfer(s, b0) && Enabled(s, e) && !Fails(e)
    ensures var t := Completed(s, e);
            && (InTransfer(t, b0) || Finished(t, b0))
            && ToCome(t, b0) == ToCome(s, b0) - 1
            && (ToCome(t, b0) == 0 <==> Finished(t, b0))
  {
    AdvanceByChunk(s.b);
    if s.Get(Other(e.dir)).busy {
      FirstOfChunk(s, e, b0);
      FirstKeepsTransfer(s, e, b0);
    } else {
      SecondOfChunk(s, e, b0);
      SecondKeepsTransfer(s, e, b0);
    }
  }

  lemma AfterFirst(s: Spi, b0: Bufs, run: seq<Step>)
    requires (InTransfer(s, b0) || Finished(s, b0)) && run != [] && IsRun(s, b0, run)
    ensures InTransfer(s, b0) && Enabled(s, run[0])
    ensures var t := Completed(s, run[0]);
            && (InTransfer(t, b0) || Finished(t, b0)) && IsRun(t, b0, run[1..])
            && After(s, b0, run) == After(t, b0, run[1..])
  {
    StepKeepsTransfer(s, run[0], b0);
  }

  lemma FinishedIff(t: Spi, b0: Bufs)
    requires InTransfer(t, b0) || Finished(t, b0)
    ensures Finished(t, b0) <==> ToCome(t, b0) == 0
  {
  }

  lemma {:induction false} RunCountsDown(s: Spi, b0: Bufs, run: seq<Step>)
    requires InTransfer(s, b0) || Finished(s, b0)
    requires IsRun(s, b0, run) && forall i :: 0 <= i < |run| ==> !Fails(run[i])
    ensures ToCome(After(s, b0, run), b0) == ToCome(s, b0) - |run|
    decreases |run|
  {
    if run != [] {
      assert !Fails(run[0]);
      AfterFirst(s, b0, run);
      StepCountsDown(s, run[0], b0);
      RunCountsDown(Completed(s, run[0]), b0, run[1..]);
    }
  }

  predicate NoError(s: Spi) {
    s.completions == [] || s.completions == [0]
  }

  lemma StepHasNoError(s: Spi, e: Step, b0: Bufs)
    requires InTransfer(s, b0) && Enabled(s, e) && !Fails(e)
    ensures NoError(Completed(s, e))
  {
    AdvanceByChunk(s.b);
    var t := CountStep(s, e.dir);
    var u := t.(b := Advance(s.b, Chunk(s.b)));
    GoOnHasNoError(t, e.setups);
    GoOnHasNoError(u.(rx := u.rx.(count := 0), tx := u.tx.(count := 0)), e.setups);
  }

  lemma GoOnHasNoError(s: Spi, f: Setups)
    requires NoEmpty(s.b) && f.Fine() && s.completions == []
    ensures GoOn(s, f).completions == []
  {
  }

  lemma {:induction false} RunHasNoError(s: Spi, b0: Bufs, run: seq<Step>)
    requires (InTransfer(s, b0) || Finished(s, b0)) && NoError(s)
    requires IsRun(s, b0, run) && forall i :: 0 <= i < |run| ==> !Fails(run[i])
    ensures NoError(After(s, b0, run))
    decreases |run|
  {
    if run != [] {
      assert !Fails(run[0]);
      AfterFirst(s, b0, run);
      StepHasNoError(s, run[0], b0);
      RunHasNoError(Completed(s, run[0]), b0, run[1..]);
    }
  }

  /**
   Over every order of the completions of a non-empty transfer without a failure: after two completions for each
   chunk, and not before, the transfer ends. Then each channel was programmed exactly once for each chunk, the bytes of
   the transmit buffers and the padding zeros went out in order, the first frames that came in were stored up to the
   room of the receive buffers and the others dropped, and the end was signalled once.
   */
  lemma EveryOrderTransfersAll(b: Bufs, run: seq<Step>)
    requires NoEmpty(b) && Ongoing(b)
    requires (BeginIsInTransfer(b); IsRun(BeginStep(b), b, run))
    requires forall i :: 0 <= i < |run| ==> !Fails(run[i])
    ensures |run| <= 2 * |Chunks(b)|
    ensures (BeginIsInTransfer(b);
             var t := After(BeginStep(b), b, run);
             if |run| == 2 * |Chunks(b)| then Transferred(t, b) && !t.rx.busy && !t.tx.busy else InTransfer(t, b))
  {
    BeginIsInTransfer(b);
    RunCountsDown(BeginStep(b), b, run);
    RunHasNoError(BeginStep(b), b, run);
    FinishedIff(After(BeginStep(b), b, run), b);
  }

  /** A transfer without any data programs no channel, so no completion ever signals its end. */
  lemma EmptyTransferNeverCompletes()
    ensures var s := BeginStep(Bufs([], []));
            s.completions == [] && !s.rx.busy && !s.tx.busy
  {
  }

  // ---- The driver ----

  class Driver {
    var b: Bufs
    var count: seq<nat>             // data->dma[i].count
    var busy: seq<bool>             // as dma_get_status reports it
    ghost var programmed: seq<seq<nat>>
    ghost var sent: seq<byte>
    ghost var stored: seq<bool>
    ghost var completions: seq<int>

    ghost predicate Valid()
      reads this
    {
      |count| == |busy| == |programmed| == 2 && NoEmpty(b)
    }

    ghost function State(): Spi
      requires Valid()
      reads this
    {
      Spi(b, Chan(count[0], busy[0], programmed[0]), Chan(count[1], busy[1], programmed[1]), sent, stored, completions)
    }

    function DirOf(i: nat): Dir {
      if i == 0 then RX else TX
    }

    /** `rc` is what the DMA driver returns for the channel. */
    method DmaSetup(i: nat, rc: int)
      requires Valid() && i < 2
      modifies this`busy, this`programmed, this`sent, this`stored
      ensures Valid() && State() == if rc < 0 then old(State()) else SetupStep(old(State()), DirOf(i))
    {
      if rc < 0 {
        return;
      }
      programmed := programmed[i := programmed[i] + [Chunk(b)]];
      if i == 1 {
        sent := sent + ChunkData(b);
      } else {
        stored := stored + ChunkMarks(b);
      }
      busy := busy[i := true];
    }

    method StopBoth()
      requires Valid()
      modifies this`busy
      ensures Valid() && State() == old(State()).Halt()
    {
      for i := 0 to 2
        invariant |busy| == 2 && forall k :: 0 <= k < i ==> !busy[k]
      {
        busy := busy[i := false];
      }
    }

    method StartDmaTransceive(f: Setups) returns (ret: int)
      requires Valid()
      modifies this`busy, this`programmed, this`sent, this`stored
      ensures Valid() && ret == StartRc(old(State()), f) && State() == StartStep(old(State()), f)
    {
      ret := 0;
      var chunkLen := Chunk(b);
      for i := 0 to 2
        invariant Valid() && chunkLen == Chunk(b)
        invariant State() == if i == 0 then old(State())
                             else if i == 1 then StartOne(old(State()), RX)
                             else StartOne(StartOne(old(State()), RX), TX)
        invariant i >= 1 && Wants(old(State()), RX) ==> f.rx >= 0
        invariant i >= 2 && Wants(old(State()), TX) ==> f.tx >= 0
      {
        if chunkLen != count[i] && !busy[i] {
          ret := if i == 0 then f.rx else f.tx;
          DmaSetup(i, ret);
          if ret < 0 {
            StopBoth();
            return;
          }
        }
      }
      ret := 0;
    }

    method Complete(status: int)
      requires Valid()
      modifies this`busy, this`completions
      ensures Valid() && State() == CompleteStep(old(State()), status)
    {
      StopBoth();
      completions := completions + [status];
    }

    /** The DMA interrupt clears the busy mark of the channel, and the callback counts its part. */
    method Count(dir: Dir)
      requires Valid()
      modifies this`count
      ensures Valid()
      ensures State() == old(State()).Set(dir, old(State()).Get(dir).(count := old(State()).Get(dir).count + Chunk(b)))
    {
      var channel := if dir == RX then 0 else 1;
      count := count[channel := count[channel] + Chunk(b)];
    }

    method DmaCallback(dir: Dir, status: int, f: Setups)
      requires Valid() && Ongoing(b)
      modifies this
      ensures Valid() && State() == CallbackStep(old(State()), dir, status, f)
    {
      busy := busy[if dir == RX then 0 else 1 := false];
      if status < 0 {
        Complete(status);
        return;
      }
      var chunkLen := Chunk(b);
      Count(dir);
      assert State() == CountStep(old(State()), dir);
      GoOnAfter(chunkLen, f);
    }

    method GoOnAfter(chunkLen: nat, f: Setups)
      requires Valid() && Ongoing(b) && chunkLen == Chunk(b)
      modifies this
      ensures Valid() && State() == CountedStep(old(State()), f)
    {
      AdvanceByChunk(b);
      if Min(count[1], count[0]) >= chunkLen {
        b := Advance(b, chunkLen);
        if Ongoing(b) {
          count := [0, 0];
        } else {
          Complete(0);
          return;
        }
      }
      var err := StartDmaTransceive(f);
      if err < 0 {
        Complete(err);
      }
    }

    /** A transfer of `bufs` is started with both counts at zero; an error is returned to the caller. */
    method Transceive(bufs: Bufs, f: Setups) returns (ret: int)
      requires NoEmpty(bufs) && |busy| == 2 && !busy[0] && !busy[1]
      modifies this
      ensures Valid() && ret == StartRc(Fresh(bufs), f) && State() == StartStep(Fresh(bufs), f)
    {
      b := bufs;
      programmed, sent, stored, completions := [[], []], [], [], [];
      count := [0, 0];
      ret := StartDmaTransceive(f);
    }
  }
}
