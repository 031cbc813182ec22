/**
 The two lockable banks of the flash on the AT32F435: what one page erase or one word write does to the
 registers of its bank for every behaviour of the device, and what a loop of them amounts to.
 */
module FlashBanks {
  import opened MachineInt

  const SIZE := 4032 * 1024
  const BANK2_SIZE := 1984 * 1024
  const PAGE := 4096
  const BLOCK := 2

  /** get_bank. */
  function BankOf(offset: nat): (b: nat)
    ensures b < 2
  {
    if offset < SIZE - BANK2_SIZE then 0 else 1
  }

  /** Where the second bank of the device begins: at 2 MB. */
  const BOUNDARY := 0x20_0000

  /** get_bank points at the registers of the bank that the cell lies in. */
  lemma BankOfOwner(offset: nat)
    ensures BankOf(offset) == if offset < BOUNDARY then 0 else 1
  {
  }

  function PageOf(offset: nat): nat {
    offset / PAGE
  }

  /** The banks meet at a page boundary: a page lies in one bank, so unlocking the bank of its first byte is enough. */
  lemma PageInOneBank(offset: nat)
    ensures BankOf(offset) == BankOf(PageOf(offset) * PAGE)
  {
    assert (SIZE - BANK2_SIZE) % PAGE == 0;
  }

  /** The registers of a bank: lock, error bits and the two enables. */
  datatype Bank = Bank(locked: bool, err: bool, prgm: bool, pgers: bool)

  datatype Banks = Banks(one: Bank, two: Bank) {
    function Get(b: nat): Bank {
      if b == 0 then one else two
    }

    function Set(b: nat, x: Bank): Banks {
      if b == 0 then this.(one := x) else this.(two := x)
    }

    predicate Locked() {
      one.locked && two.locked
    }

    /** No enable is on. */
    predicate Off() {
      !one.prgm && !one.pgers && !two.prgm && !two.pgers
    }

    /** No error bit is set. */
    predicate Clear() {
      !one.err && !two.err
    }
  }

  // ---- What the device may do ----

  /**
   The device during a wait: how many readings of the status register show BSY, how many looks at the clock find
   the time limit ahead, and whether an error bit is raised after the first look at the error bits.
   */
  datatype Wait = Wait(busyReads: nat, checks: nat, late: bool) {
    /** The limit is found to be over, and the reading after that still shows BSY. */
    predicate Expires() {
      busyReads > checks + 1
    }

    /** Look `k` at the clock finds the limit over, and the status is read once more after that. */
    predicate ExpiresAt(k: nat) {
      checks <= k && k + 1 < busyReads
    }

    predicate Good() {
      !Expires() && !late
    }
  }

  /**
   The device during the erase of a page or the write of a word: whether the keys unlock the bank, the wait before
   a write, whether the operation raises an error bit at once, whether it takes effect, and the wait after it.
   */
  datatype Run =
    | Page(unlocks: bool, early: bool, takes: bool, after: Wait)
    | Word(unlocks: bool, before: Wait, early: bool, takes: bool, after: Wait)
  {
    /** Nothing goes wrong. */
    predicate Good() {
      unlocks && !early && takes && after.Good() && (Word? ==> before.Good())
    }

    /** An operation that was started and does not take effect raises an error bit or never ends. */
    predicate Honest() {
      takes || early || after.late || after.Expires()
    }
  }

  lemma ExpiresIff(w: Wait)
    ensures w.Expires() <==> exists k: nat :: w.ExpiresAt(k)
  {
    if w.Expires() {
      assert w.ExpiresAt(w.checks);
    }
  }

  // ---- One operation ----

  predicate Opens(b: Bank, r: Run) {
    !b.locked || r.unlocks
  }

  /** The bank is not idle when a write begins. */
  predicate NotIdle(b: Bank, r: Run) {
    r.Word? && Opens(b, r) && (b.err || r.before.Expires())
  }

  /** The operation takes effect. On a locked bank the erase loop goes on all the same, and nothing happens. */
  predicate Works(b: Bank, r: Run) {
    Opens(b, r) && !NotIdle(b, r) && r.takes
  }

  function Rc(b: Bank, r: Run): int {
    if r.Word? && (!Opens(b, r) || NotIdle(b, r) || r.before.late) then EIO
    else if b.err || (Opens(b, r) && r.early) || r.after.Expires() then EIO
    else 0
  }

  /** The registers afterwards. */
  function Step(b: Bank, r: Run): Bank {
    if r.Page? then b.(locked := true, err := r.after.late, pgers := b.pgers && !Opens(b, r))
    else if !Opens(b, r) then b
    else if NotIdle(b, r) then b.(locked := false, err := r.before.late)
    else b.(locked := true, err := r.after.late, prgm := false)
  }

  /**
   One page of the erase loop: it takes effect exactly on a bank that is open or opens, reports whatever the error bits
   or the waits show, and leaves the bank locked in any case.
   */
  lemma PageOutcome(b: Bank, r: Run)
    requires r.Page?
    ensures var d, open := Step(b, r), !b.locked || r.unlocks;
            && (Works(b, r) <==> open && r.takes)
            && (Rc(b, r) == 0 <==> !b.err && !(open && r.early) && !r.after.Expires()) && Rc(b, r) in {0, EIO}
            && d.locked && d.err == r.after.late && (open ==> !d.pgers) && d.prgm == b.prgm
  {
  }

  /**
   One word: refused without a change on a bank that stays locked; left open and without effect when error bits are set
   or BSY stays before it begins; otherwise it takes effect, the bank is locked and the enable off.
   */
  lemma WordOutcome(b: Bank, r: Run)
    requires r.Word?
    ensures var d := Step(b, r);
            if b.locked && !r.unlocks then !Works(b, r) && Rc(b, r) == EIO && d == b
            else if b.err || r.before.Expires() then
              !Works(b, r) && Rc(b, r) == EIO && !d.locked && d.err == r.before.late && d.prgm == b.prgm
            else
              && (Works(b, r) <==> r.takes) && d.locked && !d.prgm && d.err == r.after.late
              && (Rc(b, r) == 0 <==> !r.before.late && !r.early && !r.after.Expires()) && Rc(b, r) in {0, EIO}
  {
  }

  // ---- A loop of operations ----

  /**
   Operations on the offsets base, base + unit, base + 2 * unit and so on: the registers at its start, and what
   the device does in each of them.
   */
  datatype Loop = Loop(start: Banks, base: nat, unit: nat, dev: nat -> Run) {
    function At(i: nat): nat {
      BankOf(base + unit * i)
    }

    /** The registers after the first `n` operations. */
    function After(n: nat): Banks {
      if n == 0 then start else After(n - 1).Set(At(n - 1), Step(After(n - 1).Get(At(n - 1)), dev(n - 1)))
    }

    function Before(i: nat): Bank {
      After(i).Get(At(i))
    }

    predicate OpensAt(i: nat) {
      Opens(Before(i), dev(i))
    }

    predicate NotIdleAt(i: nat) {
      NotIdle(Before(i), dev(i))
    }

    predicate WorksAt(i: nat) {
      Works(Before(i), dev(i))
    }

    function RcAt(i: nat): int {
      Rc(Before(i), dev(i))
    }

    /** The first `n` operations report success. */
    ghost predicate Succeeds(n: nat) {
      forall i: nat :: i < n ==> RcAt(i) == 0
    }

    /** What a loop over `total` operations has done: it stops after the first one that fails. */
    ghost predicate Ran(total: nat, took: seq<bool>, rc: int) {
      && |took| <= total
      && (forall i :: 0 <= i < |took| ==> took[i] == WorksAt(i))
      && (if rc == 0 then |took| == total && Succeeds(total)
          else rc == EIO && took != [] && Succeeds(|took| - 1) && RcAt(|took| - 1) == EIO)
    }
  }

  ghost predicate All(took: seq<bool>) {
    forall i :: 0 <= i < |took| ==> took[i]
  }

  /** One more operation. */
  lemma RanMore(l: Loop, i: nat, took: seq<bool>, total: nat)
    requires l.Ran(i, took, 0) && i < total
    ensures l.RcAt(i) == 0 ==> l.Ran(i + 1, took + [l.WorksAt(i)], 0)
    ensures l.RcAt(i) != 0 ==> l.Ran(total, took + [l.WorksAt(i)], EIO)
  {
  }

  /** An operation that reports success has raised no error at once; a late error is in the error bits of its bank. */
  lemma {:induction false} LateErrorsShow(l: Loop, n: nat)
    requires l.Succeeds(n)
    ensures forall i: nat :: i < n && l.dev(i).after.late ==> l.After(n).Get(l.At(i)).err
  {
    if n > 0 {
      assert forall i: nat :: i < n - 1 ==> l.RcAt(i) == 0;
      LateErrorsShow(l, n - 1);
      assert l.RcAt(n - 1) == 0;
    }
  }

  /**
   When every operation reports success and no error bit is set at the end, each operation took effect if and only
   if its bank was open when it began.
   */
  lemma DoneIffOpen(l: Loop, n: nat)
    requires l.Succeeds(n) && l.After(n).Clear()
    requires forall i: nat :: i < n ==> l.dev(i).Honest()
    ensures forall i: nat :: i < n ==> (l.WorksAt(i) <==> l.OpensAt(i))
  {
    LateErrorsShow(l, n);
    forall i: nat | i < n
      ensures l.WorksAt(i) <==> l.OpensAt(i)
    {
      assert l.RcAt(i) == 0 && l.dev(i).Honest();
    }
  }

  /** An open operation without effect is the last one of its bank to report success, but for the one that finds it. */
  lemma FaultsStop(l: Loop, n: nat, i: nat)
    requires l.Succeeds(n) && i + 1 < n && l.At(i) == l.At(i + 1)
    requires l.dev(i).Honest() && l.OpensAt(i)
    ensures l.WorksAt(i)
  {
    assert l.RcAt(i) == 0 && l.RcAt(i + 1) == 0;
    assert l.Before(i + 1) == Step(l.Before(i), l.dev(i));
  }

  lemma StepLocks(b: Bank, r: Run)
    requires b.locked
    ensures Step(b, r).locked <==> !NotIdle(b, r)
    ensures Opens(b, r) <==> r.unlocks
    ensures Rc(b, r) == 0 ==> !NotIdle(b, r)
  {
  }

  /** From locked banks, both banks end up locked unless the last write found its bank not idle. */
  lemma {:induction false} LockedAfter(l: Loop, n: nat)
    requires l.start.Locked()
    requires n > 0 ==> l.Succeeds(n - 1)
    ensures l.After(n).Locked() <==> n == 0 || !l.NotIdleAt(n - 1)
  {
    if n > 0 {
      if n > 1 {
        assert l.RcAt(n - 2) == 0;
      }
      LockedAfter(l, n - 1);
      StepLocks(l.Before(n - 1), l.dev(n - 1));
    }
  }

  /** From locked banks the keys alone decide which operations find their bank open. */
  lemma OpenIffUnlocked(l: Loop, n: nat, i: nat)
    requires l.start.Locked()
    requires n > 0 ==> l.Succeeds(n - 1)
    requires i < n
    ensures l.OpensAt(i) <==> l.dev(i).unlocks
  {
    LockedAfter(l, i);
    if i > 0 {
      assert l.RcAt(i - 1) == 0;
    }
  }

  /** A loop that begins with both enables off leaves them off, also when an operation fails. */
  lemma {:induction false} EnablesAreOff(l: Loop, n: nat)
    requires l.start.Off()
    ensures l.After(n).Off()
  {
    if n > 0 {
      EnablesAreOff(l, n - 1);
    }
  }

  /** Without a fault every operation takes effect and reports success, and no error bit is set. */
  lemma {:induction false} FaultFree(l: Loop, n: nat)
    requires l.start.Clear()
    requires forall i: nat :: i < n ==> l.dev(i).Good()
    ensures l.After(n).Clear()
    ensures forall i: nat :: i < n ==> l.RcAt(i) == 0 && l.WorksAt(i)
  {
    if n > 0 {
      FaultFree(l, n - 1);
      assert l.dev(n - 1).Good();
    }
  }

  /** When the keys fail, the erase loop reports success and leaves no error bit, but no page is erased. */
  lemma {:induction false} LockedEraseIsSilent(l: Loop, n: nat)
    requires l.start.Locked() && l.start.Clear()
    requires forall i: nat :: i < n ==> l.dev(i).Page? && !l.dev(i).unlocks && l.dev(i).after.Good()
    ensures l.After(n).Locked() && l.After(n).Clear()
    ensures forall i: nat :: i < n ==> l.RcAt(i) == 0 && !l.WorksAt(i)
  {
    if n > 0 {
      LockedEraseIsSilent(l, n - 1);
      assert l.dev(n - 1).Page? && !l.dev(n - 1).unlocks;
    }
  }

  // ---- What a whole loop amounts to ----

  /** An open operation without effect is found by the next one in its bank, and nothing is attempted after that. */
  ghost predicate FaultsShow(l: Loop, took: seq<bool>) {
    forall k: nat :: k + 2 < |took| && l.At(k) == l.At(k + 1) && l.OpensAt(k) ==> took[k]
  }

  /**
   A loop that reports success and leaves no error bit did exactly what the locks allowed. When it fails, everything
   before the failing operation took effect that found its bank open, but for a late error that it ran into.
   */
  lemma LoopOutcome(l: Loop, total: nat, took: seq<bool>, rc: int)
    requires l.Ran(total, took, rc) && forall i :: l.dev(i).Honest()
    ensures rc == 0 && l.After(total).Clear() ==>
              forall i: nat :: i < |took| ==> (took[i] <==> l.OpensAt(i))
    ensures rc == 0 && l.After(total).Clear() && l.start.Locked() ==>
              forall i: nat :: i < |took| ==> (took[i] <==> l.dev(i).unlocks)
    ensures FaultsShow(l, took)
  {
    if rc == 0 && l.After(total).Clear() {
      DoneIffOpen(l, total);
      if l.start.Locked() {
        forall i: nat | i < total
          ensures took[i] <==> l.dev(i).unlocks
        {
          OpenIffUnlocked(l, total, i);
        }
      }
    }
    forall k: nat | k + 2 < |took| && l.At(k) == l.At(k + 1) && l.OpensAt(k)
      ensures took[k]
    {
      FaultsStop(l, |took| - 1, k);
    }
  }

  /** From locked banks, both end up locked unless the last operation was a write that found its bank not idle. */
  lemma LoopLocks(l: Loop, total: nat, took: seq<bool>, rc: int)
    requires l.Ran(total, took, rc) && l.start.Locked()
    ensures l.After(|took|).Locked() <==> took == [] || !l.NotIdleAt(|took| - 1)
    ensures rc == 0 ==> l.After(|took|).Locked()
  {
    if took != [] {
      assert forall i: nat :: i < |took| - 1 ==> l.RcAt(i) == 0;
      assert rc == 0 ==> l.RcAt(|took| - 1) == 0;
    }
    LockedAfter(l, |took|);
  }

  /** Without a fault the loop succeeds and everything takes effect. */
  lemma LoopFaultFree(l: Loop, total: nat, took: seq<bool>, rc: int)
    requires l.Ran(total, took, rc) && l.start.Clear()
    requires forall i :: l.dev(i).Good()
    ensures rc == 0 && |took| == total && All(took) && l.After(total).Clear()
  {
    FaultFree(l, total);
    assert took != [] ==> l.RcAt(|took| - 1) == 0;
  }
}
