/** The flash driver on the AT32F435: page erase and 2-byte programming over the two banks, on every device. */
module Flash {
  import opened MachineInt
  import opened FlashBanks

  // ---- Ranges ----

  predicate PageExists(offset: int) {
    0 <= offset < SIZE
  }

  /** flash_at32_valid_range, with the end of the range computed in 32 bits. */
  predicate ValidRange(offset: int, len: uint32, write: bool) {
    && (write ==> offset % BLOCK == 0 && len % BLOCK == 0)
    && PageExists(offset) && PageExists(I32(offset + len - 1))
  }

  type off_t = x: int | -TWO_TO_THE_31 <= x < TWO_TO_THE_31

  predicate Inside(offset: int, len: uint32) {
    0 <= offset < SIZE && 1 <= offset + len <= SIZE
  }

  /** The range leaves the flash, wraps around the 32-bit address space and ends inside the flash again. */
  predicate WrapsBack(offset: int, len: uint32) {
    0 <= offset < SIZE && TWO_TO_THE_32 < offset + len <= TWO_TO_THE_32 + SIZE
  }

  /** The check accepts the aligned ranges inside the flash, and those that wrap back into it. */
  lemma ValidRangeIff(offset: off_t, len: uint32, write: bool)
    ensures ValidRange(offset, len, write) <==>
              && (Inside(offset, len) || WrapsBack(offset, len))
              && (write ==> offset % BLOCK == 0 && len % BLOCK == 0)
  {
  }

  /** The pages that the erase loop goes through, its last page computed in 32 bits. */
  function PagesOf(offset: nat, len: uint32): nat {
    Max(0, PageOf(U32(offset + len - 1)) - PageOf(offset) + 1)
  }

  /**
   A range that wraps back is accepted, and its erase goes through no page at all, or through the one page in which
   it begins and ends.
   */
  lemma WrappingErase(offset: off_t, len: uint32)
    requires WrapsBack(offset, len) && offset % BLOCK == 0 && len % BLOCK == 0
    ensures ValidRange(offset, len, true)
    ensures PagesOf(offset, len) == if PageOf(offset + len - 1 - TWO_TO_THE_32) == PageOf(offset) then 1 else 0
  {
    var last := offset + len - 1 - TWO_TO_THE_32;
    assert U32(offset + len - 1) == last;
    assert last <= offset;
  }

  /** For example, almost all of the address space from page 2 on. */
  lemma WrappingEraseExample()
    ensures ValidRange(8192, 0xFFFF_F000, true) && ValidRange(8192, 0xFFFF_F000, false)
    ensures PagesOf(8192, 0xFFFF_F000) == 0
  {
    WrappingErase(8192, 0xFFFF_F000);
  }

  // ---- What the operations do to the cells ----

  /** The pages from `first` on whose erase took effect are all ones, everything else is as before. */
  ghost predicate Erased(before: seq<byte>, after: seq<byte>, first: nat, took: seq<bool>) {
    && |before| == |after|
    && forall j :: 0 <= j < |before| ==>
         after[j] == if first <= j / PAGE < first + |took| && took[j / PAGE - first] then 0xFF else before[j]
  }

  /** Programming can only clear bits. */
  function Program(cell: byte, d: byte): byte {
    cell & d
  }

  /** The words from `offset` on whose programming took effect are programmed with the data, all else is as before. */
  ghost predicate Written(before: seq<byte>, after: seq<byte>, offset: nat, data: seq<byte>, took: seq<bool>) {
    && |before| == |after| && BLOCK * |took| <= |data| && offset + BLOCK * |took| <= |before|
    && (forall j :: 0 <= j < |before| && !(offset <= j < offset + BLOCK * |took|) ==> after[j] == before[j])
    && (forall w :: 0 <= w < |took| ==>
          WordIs(before, after, offset + BLOCK * w, data[BLOCK * w], data[BLOCK * w + 1], took[w]))
  }

  ghost predicate WordIs(before: seq<byte>, after: seq<byte>, at: nat, d0: byte, d1: byte, took: bool)
    requires at + 1 < |before| == |after|
  {
    && after[at] == (if took then Program(before[at], d0) else before[at])
    && after[at + 1] == (if took then Program(before[at + 1], d1) else before[at + 1])
  }

  /** One more word of the range. */
  lemma WrittenExtends(before: seq<byte>, mid: seq<byte>, after: seq<byte>, offset: nat, data: seq<byte>,
                       took: seq<bool>, effect: bool)
    requires Written(before, mid, offset, data, took) && BLOCK * |took| + BLOCK <= |data|
    requires |mid| == |after| && offset + BLOCK * |took| + BLOCK <= |mid|
    requires var at, k := offset + BLOCK * |took|, BLOCK * |took|;
             && WordIs(mid, after, at, data[k], data[k + 1], effect)
             && forall j :: 0 <= j < |mid| && j != at && j != at + 1 ==> after[j] == mid[j]
    ensures Written(before, after, offset, data, took + [effect])
  {
    var more := took + [effect];
    forall w | 0 <= w < |more|
      ensures WordIs(before, after, offset + BLOCK * w, data[BLOCK * w], data[BLOCK * w + 1], more[w])
    {
      if w < |took| {
        assert WordIs(before, mid, offset + BLOCK * w, data[BLOCK * w], data[BLOCK * w + 1], took[w]);
      }
    }
  }

  /** One more page. */
  lemma ErasedExtends(before: seq<byte>, mid: seq<byte>, after: seq<byte>, first: nat, took: seq<bool>, effect: bool)
    requires Erased(before, mid, first, took) && Erased(mid, after, first + |took|, [effect])
    ensures Erased(before, after, first, took + [effect])
  {
    var more := took + [effect];
    forall j | 0 <= j < |before|
      ensures after[j] == if first <= j / PAGE < first + |more| && more[j / PAGE - first] then 0xFF else before[j]
    {
      if first <= j / PAGE < first + |took| {
        assert more[j / PAGE - first] == took[j / PAGE - first];
      }
    }
  }

  lemma ProgramOnes(d: byte)
    ensures Program(0xFF, d) == d
  {
  }

  /** Programming sets no bit; a cell takes the data exactly if no bit would have to be set. */
  lemma ProgramClears(cell: byte, d: byte)
    ensures Program(cell, d) | cell == cell
    ensures Program(cell, d) == d <==> d | cell == cell
  {
  }

  /** A page lies between the first and the last page of the range. */
  predicate PageInRange(page: nat, offset: nat, len: nat)
    requires len > 0
  {
    PageOf(offset) <= page <= PageOf(offset + len - 1)
  }

  /** The range of the data lies in the pages of the erased range. */
  predicate Covers(eraseOff: nat, eraseLen: nat, offset: nat, len: nat)
    requires eraseLen > 0 && len > 0
  {
    PageInRange(PageOf(offset), eraseOff, eraseLen) && PageInRange(PageOf(offset + len - 1), eraseOff, eraseLen)
  }

  /**
   Erasing a range and then writing inside the erased pages, with every page and every word taking effect, makes
   the range read as the data, leaves ones in the rest of the pages and all else as it was.
   */
  lemma EraseThenWrite(c0: seq<byte>, c1: seq<byte>, c2: seq<byte>, eraseOff: nat, eraseLen: nat, pages: seq<bool>,
                       offset: nat, data: seq<byte>, words: seq<bool>)
    requires |c0| == SIZE && 0 < eraseLen && eraseOff + eraseLen <= SIZE
    requires |pages| == PageOf(eraseOff + eraseLen - 1) - PageOf(eraseOff) + 1 && All(pages)
    requires Erased(c0, c1, PageOf(eraseOff), pages)
    requires BLOCK * |words| == |data| && All(words) && Written(c1, c2, offset, data, words)
    requires data != [] && Covers(eraseOff, eraseLen, offset, |data|)
    ensures offset + |data| <= SIZE && c2[offset..offset + |data|] == data
    ensures forall j :: 0 <= j < SIZE && !(offset <= j < offset + |data|) ==>
              c2[j] == if PageInRange(PageOf(j), eraseOff, eraseLen) then 0xFF else c0[j]
  {
    forall j | offset <= j < offset + |data|
      ensures c2[j] == data[j - offset]
    {
      assert PageOf(offset) <= PageOf(j) <= PageOf(offset + |data| - 1);
      assert c1[j] == 0xFF;
      ProgramOnes(data[j - offset]);
      var w := (j - offset) / BLOCK;
      assert WordIs(c1, c2, offset + BLOCK * w, data[BLOCK * w], data[BLOCK * w + 1], words[w]);
    }
  }

  // ---- The driver ----

  /** The registers of one bank, as get_bank points at them. */
  class Registers {
    var r: Bank

    constructor ()
      ensures r == Bank(true, false, false, false)
    {
      r := Bank(true, false, false, false);
    }

    /** The unlock keys. */
    method Unlock(works: bool)
      modifies this
      ensures r == old(r).(locked := old(r.locked) && !works)
    {
      r := r.(locked := r.locked && !works);
    }

    method Lock()
      modifies this
      ensures r == old(r).(locked := true)
    {
      r := r.(locked := true);
    }

    /** The enables; a locked control register ignores them. */
    method Enable(prgm: bool, pgers: bool)
      modifies this
      ensures r == if old(r.locked) then old(r) else old(r).(prgm := prgm, pgers := pgers)
    {
      if !r.locked {
        r := r.(prgm := prgm, pgers := pgers);
      }
    }

    /** flash_at32_check_status: the error bits are reported once and cleared. */
    method CheckStatus() returns (rc: int)
      modifies this
      ensures r == old(r).(err := false)
      ensures rc == if old(r.err) then EIO else 0
    {
      rc := 0;
      if r.err {
        rc := EIO;
      }
      r := r.(err := false);
    }

    /**
     flash_at32_wait_flash_idle: the error bits are looked at once, before BSY falls, and the status register is
     always read once more after the time limit.
     */
    method WaitIdle(w: Wait) returns (rc: int)
      modifies this
      ensures r == old(r).(err := w.late)
      ensures rc == if old(r.err) || w.Expires() then EIO else 0
    {
      rc := CheckStatus();
      if rc == 0 {
        rc := Poll(w);
      }
      r := r.(err := w.late);  // the device
    }

    /** The loop of the wait. */
    method Poll(w: Wait) returns (rc: int)
      ensures rc == if w.Expires() then EIO else 0
    {
      var i, expired := 0, false;
      while i < w.busyReads
        invariant i <= w.busyReads && i <= w.checks + 1
        invariant expired <==> i > w.checks
      {
        if expired {
          return EIO;
        }
        expired := i >= w.checks;
        i := i + 1;
      }
      return 0;
    }
  }

  class Controller {
    const cells: array<byte>
    const one: Registers
    const two: Registers

    ghost predicate Valid() {
      cells.Length == SIZE && one != two
    }

    ghost function Regs(): Banks
      reads one, two
    {
      Banks(one.r, two.r)
    }

    constructor ()
      ensures Valid() && Regs().Locked() && Regs().Clear() && fresh(cells) && fresh(one) && fresh(two)
    {
      cells := new byte[SIZE];
      one := new Registers();
      two := new Registers();
    }

    function GetBank(offset: nat): Registers {
      if BankOf(offset) == 0 then one else two
    }

    /** The registers that govern a cell in the device. */
    function Owner(offset: nat): Registers {
      if offset < BOUNDARY then one else two
    }

    /** get_bank finds them, for the whole page or word. */
    lemma GetsOwner(offset: nat)
      ensures GetBank(offset) == Owner(offset)
      ensures GetBank(PageOf(offset) * PAGE) == Owner(offset)
    {
      BankOfOwner(offset);
      PageInOneBank(offset);
    }

    // -- Writing --

    /** The device programs a word. */
    method ProgramWord(offset: nat, val: seq<byte>)
      requires Valid() && offset + BLOCK <= SIZE && |val| == BLOCK
      modifies cells
      ensures WordIs(old(cells[..]), cells[..], offset, val[0], val[1], true)
      ensures forall j :: 0 <= j < SIZE && j != offset && j != offset + 1 ==> cells[j] == old(cells[j])
    {
      cells[offset] := Program(cells[offset], val[0]);
      cells[offset + 1] := Program(cells[offset + 1], val[1]);
    }

    /** A store to the flash: without the enable of the cell's bank, or while that is locked, nothing happens. */
    method Store(offset: nat, val: seq<byte>, run: Run)
      requires Valid() && offset + BLOCK <= SIZE && |val| == BLOCK
      modifies Owner(offset), cells
      ensures var own := Owner(offset);
              var works := old(own.r.prgm) && !old(own.r.locked);
              && own.r == old(own.r).(err := old(own.r.err) || (works && run.early))
              && WordIs(old(cells[..]), cells[..], offset, val[0], val[1], works && run.takes)
      ensures forall j :: 0 <= j < SIZE && j != offset && j != offset + 1 ==> cells[j] == old(cells[j])
    {
      var own := Owner(offset);
      if own.r.prgm && !own.r.locked {
        own.r := own.r.(err := own.r.err || run.early);
        if run.takes {
          ProgramWord(offset, val);
        }
      }
    }

    /** write_value: works on the registers of the bank that the word lies in. */
    method WriteValue(offset: nat, val: seq<byte>, run: Run) returns (rc: int)
      requires Valid() && offset + BLOCK <= SIZE && |val| == BLOCK && run.Word?
      modifies Owner(offset), cells
      ensures var own := Owner(offset);
              && rc == Rc(old(own.r), run) && own.r == Step(old(own.r), run)
              && WordIs(old(cells[..]), cells[..], offset, val[0], val[1], Works(old(own.r), run))
      ensures forall j :: 0 <= j < SIZE && j != offset && j != offset + 1 ==> cells[j] == old(cells[j])
    {
      var bank := GetBank(offset);
      bank.Unlock(run.unlocks);
      if bank.r.locked {
        return EIO;
      }
      rc := bank.WaitIdle(run.before);
      if rc < 0 {
        return rc;
      }
      bank.Enable(true, bank.r.pgers);
      Store(offset, val, run);
      rc := bank.WaitIdle(run.after);
      bank.Enable(false, bank.r.pgers);
      bank.Lock();
    }

    /** The words of the range that lie inside the flash. */
    ghost function WordsInside(offset: nat, len: nat): nat
      requires offset <= SIZE
    {
      Min(len, SIZE - offset) / BLOCK
    }

    /** The next word of a range. */
    method WriteNext(offset: nat, data: seq<byte>, i: nat, dev: nat -> Run, ghost l: Loop, ghost before: seq<byte>,
                     ghost took: seq<bool>)
      returns (rc: int)
      requires Valid() && i == |took| && BLOCK * i + BLOCK <= |data| && offset + BLOCK * i + BLOCK <= SIZE
      requires l.base == offset && l.unit == BLOCK && l.dev == dev && Regs() == l.After(i) && dev(i).Word?
      requires Written(before, cells[..], offset, data, took)
      modifies one, two, cells
      ensures rc == l.RcAt(i) && Regs() == l.After(i + 1)
      ensures Written(before, cells[..], offset, data, took + [l.WorksAt(i)])
    {
      ghost var mid := cells[..];
      var value := data[BLOCK * i..BLOCK * i + BLOCK];
      rc := WriteValue(offset + BLOCK * i, value, dev(i));
      WrittenExtends(before, mid, cells[..], offset, data, took, l.WorksAt(i));
    }

    /**
     flash_at32_write_range. A range that runs past the flash is followed up to there: `outside` tells that a word
     past the flash would be next.
     */
    method WriteRange(offset: nat, data: seq<byte>, dev: nat -> Run)
      returns (rc: int, outside: bool, ghost took: seq<bool>)
      requires Valid() && |data| % BLOCK == 0 && offset % BLOCK == 0 && offset <= SIZE
      requires forall i :: dev(i).Word?
      modifies one, two, cells
      ensures var l := Loop(old(Regs()), offset, BLOCK, dev);
              l.Ran(WordsInside(offset, |data|), took, rc) && Regs() == l.After(|took|)
      ensures Written(old(cells[..]), cells[..], offset, data, took)
      ensures outside <==> rc == 0 && offset + |data| > SIZE
    {
      ghost var l := Loop(Regs(), offset, BLOCK, dev);
      rc, outside, took := 0, false, [];
      var i: nat := 0;
      while i < |data| / BLOCK
        invariant i == |took| <= WordsInside(offset, |data|) && rc == 0 && !outside
        invariant l.Ran(i, took, 0) && Regs() == l.After(i)
        invariant Written(old(cells[..]), cells[..], offset, data, took)
      {
        if offset + BLOCK * i >= SIZE {
          outside := true;
          return;
        }
        rc := WriteNext(offset, data, i, dev, l, old(cells[..]), took);
        RanMore(l, i, took, WordsInside(offset, |data|));
        took := took + [l.WorksAt(i)];
        if rc < 0 {
          return;
        }
        i := i + 1;
      }
    }

    // -- Erasing --

    /** The device sets every cell of the page. */
    method SetPage(page: nat)
      requires Valid() && (page + 1) * PAGE <= SIZE
      modifies cells
      ensures Erased(old(cells[..]), cells[..], page, [true])
    {
      forall j | page * PAGE <= j < page * PAGE + PAGE {
        cells[j] := 0xFF;
      }
    }

    /**
     Starting an erase through the registers of a bank: without the enable, on a locked bank, or for a page of the other
     bank, nothing happens.
     */
    method StartErase(bank: Registers, page: nat, run: Run)
      requires Valid() && (page + 1) * PAGE <= SIZE
      modifies bank, cells
      ensures var works := old(bank.r.pgers) && !old(bank.r.locked) && bank == Owner(page * PAGE);
              && bank.r == old(bank.r).(err := old(bank.r.err) || (works && run.early))
              && Erased(old(cells[..]), cells[..], page, [works && run.takes])
    {
      if bank.r.pgers && !bank.r.locked && bank == Owner(page * PAGE) {
        bank.r := bank.r.(err := bank.r.err || run.early);
        if run.takes {
          SetPage(page);
        }
      }
    }

    /** One round of the erase loop: whether the keys opened the bank is not looked at. */
    method ErasePage(page: nat, run: Run) returns (rc: int)
      requires Valid() && (page + 1) * PAGE <= SIZE && run.Page?
      modifies Owner(page * PAGE), cells
      ensures var own := Owner(page * PAGE);
              && rc == Rc(old(own.r), run) && own.r == Step(old(own.r), run)
              && Erased(old(cells[..]), cells[..], page, [Works(old(own.r), run)])
    {
      var bank := GetBank(page * PAGE);
      if bank.r.locked {
        bank.Unlock(run.unlocks);
      }
      bank.Enable(bank.r.prgm, true);
      StartErase(bank, page, run);
      rc := bank.WaitIdle(run.after);
      bank.Enable(bank.r.prgm, false);
      bank.Lock();
    }

    /** The next page of a range. */
    method EraseNext(first: nat, i: nat, dev: nat -> Run, ghost l: Loop, ghost before: seq<byte>, ghost took: seq<bool>)
      returns (rc: int)
      requires Valid() && i == |took| && (first + i + 1) * PAGE <= SIZE
      requires l.base == first * PAGE && l.unit == PAGE && l.dev == dev && Regs() == l.After(i) && dev(i).Page?
      requires Erased(before, cells[..], first, took)
      modifies one, two, cells
      ensures rc == l.RcAt(i) && Regs() == l.After(i + 1)
      ensures Erased(before, cells[..], first, took + [l.WorksAt(i)])
    {
      ghost var mid := cells[..];
      rc := ErasePage(first + i, dev(i));
      ErasedExtends(before, mid, cells[..], first, took, l.WorksAt(i));
    }

    /** The registers and the loop that an erase goes on with after its first wait. */
    ghost function EraseLoopOf(start: Banks, offset: nat, idle: Wait, dev: nat -> Run): Loop {
      var b := BankOf(offset);
      Loop(start.Set(b, start.Get(b).(err := idle.late)), PageOf(offset) * PAGE, PAGE, dev)
    }

    /** flash_at32_block_erase_loop. */
    method EraseLoop(offset: nat, len: uint32, idle: Wait, dev: nat -> Run) returns (rc: int, ghost took: seq<bool>)
      requires Valid() && 0 < len && offset < SIZE && U32(offset + len - 1) < SIZE
      requires forall i :: dev(i).Page?
      modifies one, two, cells
      ensures var l := EraseLoopOf(old(Regs()), offset, idle, dev);
              && Regs() == l.After(|took|)
              && if old(Regs()).Get(BankOf(offset)).err || idle.Expires() then rc == EIO && took == []
                 else l.Ran(PagesOf(offset, len), took, rc)
      ensures Erased(old(cells[..]), cells[..], PageOf(offset), took)
    {
      took := [];
      rc := GetBank(offset).WaitIdle(idle);
      ghost var l := EraseLoopOf(old(Regs()), offset, idle, dev);
      assert Regs() == l.After(0);
      if rc == 0 {
        rc, took := ErasePages(PageOf(offset), PageOf(U32(offset + len - 1)), dev, l);
      }
    }

    /** The loop over the pages from `first` to `last`. */
    method ErasePages(first: nat, last: nat, dev: nat -> Run, ghost l: Loop) returns (rc: int, ghost took: seq<bool>)
      requires Valid() && (last + 1) * PAGE <= SIZE && forall i :: dev(i).Page?
      requires l.base == first * PAGE && l.unit == PAGE && l.dev == dev && Regs() == l.start
      modifies one, two, cells
      ensures l.Ran(Max(0, last - first + 1), took, rc) && Regs() == l.After(|took|)
      ensures Erased(old(cells[..]), cells[..], first, took)
    {
      rc, took := 0, [];
      var i: nat := 0;
      while first + i <= last
        invariant i == |took| <= Max(0, last - first + 1) && rc == 0
        invariant l.Ran(i, took, 0) && Regs() == l.After(i)
        invariant Erased(old(cells[..]), cells[..], first, took)
      {
        rc := EraseNext(first, i, dev, l, old(cells[..]), took);
        RanMore(l, i, took, last - first + 1);
        took := took + [l.WorksAt(i)];
        if rc < 0 {
          break;
        }
        i := i + 1;
      }
    }

    // -- The entry points --

    /** flash_at32_read into the caller's buffer; `outside` tells that the copy runs past the flash. */
    method Read(offset: off_t, dest: array<byte>, len: uint32) returns (rc: int, outside: bool)
      requires Valid() && dest != cells && len <= dest.Length
      modifies dest
      ensures rc == if ValidRange(offset, len, false) then 0 else EINVAL
      ensures outside <==> rc == 0 && WrapsBack(offset, len)
      ensures rc == 0 && !outside ==> Inside(offset, len) && dest[..len] == cells[offset..offset + len]
      ensures var n := if rc == 0 && !outside then len else 0; dest[n..] == old(dest[n..])
    {
      ValidRangeIff(offset, len, false);
      rc, outside := 0, false;
      if !ValidRange(offset, len, false) {
        return EINVAL, false;
      }
      if len == 0 {
        return;
      }
      if offset + len > SIZE {
        return 0, true;
      }
      forall i | 0 <= i < len {
        dest[i] := cells[offset + i];
      }
    }

    /** flash_at32_erase. */
    method Erase(offset: off_t, len: uint32, idle: Wait, dev: nat -> Run) returns (rc: int, ghost took: seq<bool>)
      requires Valid() && forall i :: dev(i).Page?
      modifies one, two, cells
      ensures rc == EINVAL <==> !ValidRange(offset, len, true)
      ensures rc == EINVAL || len == 0 ==>
                took == [] && cells[..] == old(cells[..]) && Regs() == old(Regs())
      ensures rc != EINVAL && len == 0 ==> rc == 0
      ensures rc != EINVAL && len > 0 ==>
                && Erased(old(cells[..]), cells[..], PageOf(offset), took)
                && EraseEnds(old(Regs()), Regs(), offset, len, idle, dev, took, rc)
      ensures old(Regs()).Locked() ==> Regs().Locked()
      ensures rc == 0 && Regs().Clear() && old(Regs()).Locked() && (forall i :: dev(i).Honest()) ==>
                forall i: nat :: i < |took| ==> (took[i] <==> dev(i).unlocks)
      ensures rc != EINVAL && len > 0 && (forall i :: dev(i).Honest()) ==>
                FaultsShow(EraseLoopOf(old(Regs()), offset, idle, dev), took)
    {
      ValidRangeIff(offset, len, true);
      took := [];
      if !ValidRange(offset, len, true) {
        return EINVAL, [];
      }
      if len == 0 {
        return 0, [];
      }
      rc, took := EraseLoop(offset, len, idle, dev);
      ghost var l := EraseLoopOf(old(Regs()), offset, idle, dev);
      if rc == 0 || took != [] {
        PagesLock(l, PagesOf(offset, len), took, rc);
        if forall i :: dev(i).Honest() {
          LoopOutcome(l, PagesOf(offset, len), took, rc);
        }
      }
    }

    /** How an erase ends. */
    ghost predicate EraseEnds(start: Banks, end: Banks, offset: off_t, len: uint32, idle: Wait, dev: nat -> Run,
                              took: seq<bool>, rc: int)
      requires offset >= 0
    {
      var l := EraseLoopOf(start, offset, idle, dev);
      && end == l.After(|took|)
      && if start.Get(BankOf(offset)).err || idle.Expires() then rc == EIO && took == []
         else l.Ran(PagesOf(offset, len), took, rc)
    }

    /** flash_at32_write; `outside` tells that a word past the flash would be next. */
    method Write(offset: off_t, data: seq<byte>, dev: nat -> Run)
      returns (rc: int, outside: bool, ghost took: seq<bool>)
      requires Valid() && |data| < TWO_TO_THE_32 && forall i :: dev(i).Word?
      modifies one, two, cells
      ensures rc == EINVAL <==> !ValidRange(offset, |data|, true)
      ensures rc == EINVAL || data == [] ==>
                took == [] && cells[..] == old(cells[..]) && Regs() == old(Regs())
      ensures rc != EINVAL && data == [] ==> rc == 0
      ensures rc != EINVAL && data != [] ==>
                && Written(old(cells[..]), cells[..], offset, data, took)
                && var l := Loop(old(Regs()), offset, BLOCK, dev);
                   l.Ran(WordsInside(offset, |data|), took, rc) && Regs() == l.After(|took|)
      ensures outside <==> rc == 0 && WrapsBack(offset, |data|)
      ensures old(Regs()).Locked() && rc == 0 ==> Regs().Locked()
      ensures rc == 0 && Regs().Clear() && (forall i :: dev(i).Honest()) ==> All(took)
      ensures rc != EINVAL && data != [] && (forall i :: dev(i).Honest()) ==>
                FaultsShow(Loop(old(Regs()), offset, BLOCK, dev), took)
    {
      ValidRangeIff(offset, |data|, true);
      rc, outside, took := 0, false, [];
      if !ValidRange(offset, |data|, true) {
        return EINVAL, false, [];
      }
      if |data| == 0 {
        return;
      }
      rc, outside, took := WriteRange(offset, data, dev);
      WordsOutcome(Loop(old(Regs()), offset, BLOCK, dev), WordsInside(offset, |data|), took, rc);
    }
  }

  /** A write that reports success has found its bank open; without an error bit at the end it programmed every word. */
  lemma WordsOutcome(l: Loop, total: nat, took: seq<bool>, rc: int)
    requires l.Ran(total, took, rc) && forall i :: l.dev(i).Word?
    ensures l.start.Locked() && rc == 0 ==> l.After(|took|).Locked()
    ensures rc == 0 && l.After(|took|).Clear() && (forall i :: l.dev(i).Honest()) ==> All(took)
    ensures (forall i :: l.dev(i).Honest()) ==> FaultsShow(l, took)
  {
    if l.start.Locked() {
      LoopLocks(l, total, took, rc);
    }
    if forall i :: l.dev(i).Honest() {
      LoopOutcome(l, total, took, rc);
      if rc == 0 && l.After(total).Clear() {
        assert forall i: nat :: i < total ==> l.RcAt(i) == 0 && l.dev(i).Word?;
      }
    }
  }

  /** Every erase loop ends with locked banks if it began with them. */
  lemma PagesLock(l: Loop, total: nat, took: seq<bool>, rc: int)
    requires l.Ran(total, took, rc) && forall i :: l.dev(i).Page?
    ensures l.start.Locked() ==> l.After(|took|).Locked()
  {
    if l.start.Locked() {
      LoopLocks(l, total, took, rc);
      assert took != [] ==> l.dev(|took| - 1).Page?;
    }
  }

  // ---- Whole sessions ----

  /** Without a fault an erase succeeds and every page takes effect. */
  method EraseCleanly(f: Controller, offset: off_t, len: uint32, idle: Wait, dev: nat -> Run)
    returns (rc: int, ghost took: seq<bool>)
    requires f.Valid() && f.Regs().Clear() && idle.Good() && forall i :: dev(i).Page? && dev(i).Good()
    requires len > 0 && offset % BLOCK == 0 && len % BLOCK == 0 && Inside(offset, len)
    modifies f.one, f.two, f.cells
    ensures rc == 0 && f.Regs().Clear() && (old(f.Regs()).Locked() ==> f.Regs().Locked())
    ensures |took| == PageOf(offset + len - 1) - PageOf(offset) + 1 && All(took)
    ensures Erased(old(f.cells[..]), f.cells[..], PageOf(offset), took)
  {
    ValidRangeIff(offset, len, true);
    rc, took := f.Erase(offset, len, idle, dev);
    LoopFaultFree(f.EraseLoopOf(old(f.Regs()), offset, idle, dev), PagesOf(offset, len), took, rc);
    U32Fits(offset + len - 1);
  }

  /** Without a fault a write succeeds and every word takes effect. */
  method WriteCleanly(f: Controller, offset: off_t, data: seq<byte>, dev: nat -> Run)
    returns (rc: int, ghost took: seq<bool>)
    requires f.Valid() && f.Regs().Clear() && forall i :: dev(i).Word? && dev(i).Good()
    requires 0 < |data| < TWO_TO_THE_32 && offset % BLOCK == 0 && |data| % BLOCK == 0 && Inside(offset, |data|)
    modifies f.one, f.two, f.cells
    ensures rc == 0 && f.Regs().Clear() && (old(f.Regs()).Locked() ==> f.Regs().Locked())
    ensures BLOCK * |took| == |data| && All(took) && Written(old(f.cells[..]), f.cells[..], offset, data, took)
  {
    ValidRangeIff(offset, |data|, true);
    var outside;
    rc, outside, took := f.Write(offset, data, dev);
    LoopFaultFree(Loop(old(f.Regs()), offset, BLOCK, dev), f.WordsInside(offset, |data|), took, rc);
  }

  /** Without a fault, what is erased and then written reads back, and nothing else has changed. */
  method EraseWriteRead(f: Controller, eraseOff: off_t, eraseLen: uint32, offset: off_t, data: seq<byte>,
                        dest: array<byte>, idle: Wait, pages: nat -> Run, words: nat -> Run)
    requires f.Valid() && f.Regs().Clear() && dest != f.cells && idle.Good()
    requires forall i :: pages(i).Page? && pages(i).Good()
    requires forall i :: words(i).Word? && words(i).Good()
    requires eraseLen > 0 && eraseOff % BLOCK == 0 && eraseLen % BLOCK == 0 && Inside(eraseOff, eraseLen)
    requires 0 < |data| <= dest.Length && |data| < TWO_TO_THE_32 && offset % BLOCK == 0 && |data| % BLOCK == 0
    requires offset >= 0 && Covers(eraseOff, eraseLen, offset, |data|)
    modifies f.one, f.two, f.cells, dest
    ensures dest[..|data|] == data
    ensures forall j :: 0 <= j < SIZE && !(offset <= j < offset + |data|) ==>
              f.cells[j] == if PageInRange(PageOf(j), eraseOff, eraseLen) then 0xFF else old(f.cells[j])
    ensures f.Regs().Clear() && (old(f.Regs()).Locked() ==> f.Regs().Locked())
  {
    ghost var c0 := f.cells[..];
    CoveredIsInside(eraseOff, eraseLen, offset, |data|);
    var rc, tookPages := EraseCleanly(f, eraseOff, eraseLen, idle, pages);
    ghost var c1 := f.cells[..];
    ghost var tookWords;
    rc, tookWords := WriteCleanly(f, offset, data, words);
    ghost var c2 := f.cells[..];
    EraseThenWrite(c0, c1, c2, eraseOff, eraseLen, tookPages, offset, data, tookWords);
    ValidRangeIff(offset, |data|, false);
    var outside;
    rc, outside := f.Read(offset, dest, |data|);
    assert f.cells[..] == c2 && dest[..|data|] == c2[offset..offset + |data|];
  }

  lemma CoveredIsInside(eraseOff: nat, eraseLen: uint32, offset: nat, len: uint32)
    requires eraseLen > 0 && len > 0 && Inside(eraseOff, eraseLen) && Covers(eraseOff, eraseLen, offset, len)
    ensures Inside(offset, len)
  {
    assert PageOf(offset + len - 1) <= PageOf(SIZE - 1);
  }

  /** When the keys fail, an erase of locked banks changes nothing at all, and reports success. */
  method EraseWithFailingKeys(f: Controller, offset: off_t, len: uint32) returns (rc: int)
    requires f.Valid() && f.Regs().Locked() && f.Regs().Clear()
    requires ValidRange(offset, len, true) && len > 0
    modifies f.one, f.two, f.cells
    ensures rc == 0 && f.cells[..] == old(f.cells[..]) && f.Regs().Locked() && f.Regs().Clear()
  {
    var quiet := Wait(0, 0, false);
    var dev: nat -> Run := i => Page(false, false, true, quiet);
    ghost var took;
    rc, took := f.Erase(offset, len, quiet, dev);
    ghost var l := f.EraseLoopOf(old(f.Regs()), offset, quiet, dev);
    LockedEraseIsSilent(l, PagesOf(offset, len));
    assert took != [] ==> l.RcAt(|took| - 1) == 0;
  }
}
