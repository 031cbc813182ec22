/** Tick arithmetic of the counter driver and the decision it takes when an alarm is set. */
module CounterTicks {
  import opened MachineInt

  /** IS_BIT_MASK: `top` is 2^n - 1. */
  predicate IsMask(top: uint32) {
    exists n: nat :: n <= 32 && IsMaskOf(top, n)
  }

  predicate IsMaskOf(top: uint32, n: nat) {
    top == Pow2(n) - 1
  }

  /** `x & mask` for a mask of low bits. */
  function LowBits(x: uint32, mask: uint32): uint32 {
    x % (mask + 1)
  }

  /** counter_at32_ticks_add on 32-bit words. */
  function TicksAdd(val1: uint32, val2: uint32, top: uint32): uint32 {
    if IsMask(top) then LowBits(U32(val1 + val2), top)
    else
      var toTop := U32(top - val1);
      if val2 <= toTop then U32(val1 + val2) else U32(val2 - toTop - 1)
  }

  /** counter_at32_ticks_sub on 32-bit words. */
  function TicksSub(val: uint32, oldVal: uint32, top: uint32): uint32 {
    if IsMask(top) then LowBits(U32(val - oldVal), top)
    else if val >= oldVal then U32(val - oldVal)
    else U32(val + top + 1 - oldVal)
  }

  lemma Regroup(w: int, k: int, m: int, q: int, r: int)
    ensures (w * k + q) * m + r == w * (m * k) + (q * m + r)
  {
  }

  lemma ModOfMultiple(x: int, m: int, k: int)
    requires m > 0 && k > 0
    ensures x % (m * k) % m == x % m
  {
    var d := m * k;
    var w, u := x / d, x % d;
    Regroup(w, k, m, u / m, u % m);
    assert x == w * d + u && u == u / m * m + u % m;
    ModOf(x, m, w * k + u / m, u % m);
  }

  /** Wrapping at 32 bits does not disturb the remainder by a power of two. */
  lemma WrapKeepsLowBits(x: int, n: nat)
    requires n <= 32
    ensures U32(x) % Pow2(n) == x % Pow2(n)
  {
    Pow2Of32();
    Pow2Adds(n, 32 - n);
    ModOfMultiple(x, Pow2(n), Pow2(32 - n));
  }

  lemma ModOf(x: int, d: int, q: int, r: int)
    requires 0 <= r < d && x == q * d + r
    ensures x % d == r
  {
    DivModOf(q, r, d);
  }

  /** A sum that is less than one turn above or below the range, brought back into it. */
  lemma OneTurn(x: int, d: int)
    requires -d <= x < 2 * d
    ensures x % d == if x < 0 then x + d else if x < d then x else x - d
  {
    ModOf(x, d, if x < 0 then -1 else if x < d then 0 else 1, if x < 0 then x + d else if x < d then x else x - d);
  }

  /** Both paths of the addition add modulo top + 1. */
  lemma TicksAddIsModular(a: uint32, b: uint32, top: uint32)
    requires a <= top && b <= top
    ensures TicksAdd(a, b, top) == (a + b) % (top + 1)
  {
    OneTurn(a + b, top + 1);
    if IsMask(top) {
      var n: nat :| n <= 32 && IsMaskOf(top, n);
      WrapKeepsLowBits(a + b, n);
    } else {
      U32Fits(top - a);
      U32Fits(if a + b <= top then a + b else b - (top - a) - 1);
    }
  }

  /** Both paths of the subtraction subtract modulo top + 1. */
  lemma TicksSubIsModular(a: uint32, b: uint32, top: uint32)
    requires a <= top && b <= top
    ensures TicksSub(a, b, top) == (a - b) % (top + 1)
  {
    OneTurn(a - b, top + 1);
    if IsMask(top) {
      var n: nat :| n <= 32 && IsMaskOf(top, n);
      WrapKeepsLowBits(a - b, n);
    } else {
      U32Fits(if a >= b then a - b else a + top + 1 - b);
    }
  }

  lemma WrapTwice(x: int, y: int)
    ensures U32(U32(x) - y) == U32(x - y)
  {
  }

  /** 2^32 - 1 is a mask. */
  lemma FullTopIsMask()
    ensures IsMask(0xFFFF_FFFF)
  {
    Pow2Of32();
    assert IsMaskOf(0xFFFF_FFFF, 32);
  }

  /**
   The distance that the alarm code computes, from the counter to one tick before the compare
   value, with the decrement done in 32 bits.
   */
  function AlarmDistance(val: uint32, later: uint32, top: uint32): uint32 {
    TicksSub(U32(val - 1), later, top)
  }

  /** It is the distance modulo top + 1 exactly when the compare value is not 0 or `top` is a mask. */
  lemma AlarmDistanceIsModular(val: uint32, later: uint32, top: uint32)
    requires val <= top && later <= top
    ensures AlarmDistance(val, later, top) == (val - 1 - later) % (top + 1) <==> val != 0 || IsMask(top)
    ensures val == 0 && !IsMask(top) ==> AlarmDistance(val, later, top) == 0xFFFF_FFFF - later
  {
    if val != 0 {
      U32Fits(val - 1);
      TicksSubIsModular(val - 1, later, top);
    } else {
      assert U32(val - 1) == 0xFFFF_FFFF;
      if IsMask(top) {
        var n: nat :| n <= 32 && IsMaskOf(top, n);
        WrapTwice(-1, later);
        WrapKeepsLowBits(-1 - later, n);
      } else {
        FullTopIsMask();
        OneTurn(-1 - later, top + 1);
        U32Fits(0xFFFF_FFFF - later);
      }
    }
  }

  // ---- The decision ----

  datatype Decision = Armed | Pending | Dropped

  /** An alarm configuration: the ticks, whether they are absolute, and whether a late absolute alarm is to expire. */
  datatype AlarmCfg = AlarmCfg(ticks: uint32, absolute: bool, expireWhenLate: bool)

  /** The compare value of an alarm set when the counter reads `now`. */
  function CompareValue(cfg: AlarmCfg, now: uint32, top: uint32): uint32 {
    if cfg.absolute then cfg.ticks else TicksAdd(now, cfg.ticks, top)
  }

  predicate IrqOnLate(cfg: AlarmCfg, top: uint32) {
    if cfg.absolute then cfg.expireWhenLate else cfg.ticks < top / 2
  }

  function MaxRelative(cfg: AlarmCfg, top: uint32, guard: uint32): uint32 {
    if cfg.absolute then U32(top - guard) else if cfg.ticks < top / 2 then top / 2 else top
  }

  predicate IsLate(cfg: AlarmCfg, now: uint32, later: uint32, top: uint32, guard: uint32) {
    AlarmDistance(CompareValue(cfg, now, top), later, top) > MaxRelative(cfg, top, guard)
  }

  /** What set_cc does with an alarm set at `now` when the second read of the counter gives `later`. */
  function Decide(cfg: AlarmCfg, now: uint32, later: uint32, top: uint32, guard: uint32): Decision {
    if !IsLate(cfg, now, later, top, guard) then Armed
    else if IrqOnLate(cfg, top) then Pending
    else Dropped
  }

  lemma DistanceFromNow(now: nat, ticks: nat, elapsed: nat, m: nat)
    requires m > 0
    ensures ((now + ticks) % m - 1 - (now + elapsed) % m) % m == (ticks - 1 - elapsed) % m
  {
    var q := (now + ticks) / m - (now + elapsed) / m;
    var x := ticks - 1 - elapsed;
    assert now + ticks == (now + ticks) / m * m + (now + ticks) % m;
    assert now + elapsed == (now + elapsed) / m * m + (now + elapsed) % m;
    assert q * m == (now + ticks) / m * m - (now + elapsed) / m * m;
    var y := (now + ticks) % m - 1 - (now + elapsed) % m;
    assert x == y + q * m;
    assert y == y / m * m + y % m;
    assert (y / m + q) * m == y / m * m + q * m;
    ModOf(x, m, y / m + q, y % m);
  }

  /** The compare value is not 0, or the subtraction masks. */
  predicate DistanceIsRight(val: uint32, top: uint32) {
    val != 0 || IsMask(top)
  }

  /** With the right distance, a relative alarm is judged by the ticks that elapsed between the two reads. */
  lemma RelativeAlarmByDistance(now: uint32, ticks: uint32, elapsed: nat, top: uint32, guard: uint32)
    requires now <= top && ticks <= top && elapsed <= top
    requires DistanceIsRight((now + ticks) % (top + 1), top)
    ensures Decide(AlarmCfg(ticks, false, false), now, (now + elapsed) % (top + 1), top, guard)
         == if ticks >= top / 2 || elapsed < ticks || elapsed - ticks >= top - top / 2 then Armed else Pending
  {
    var m, later := top + 1, (now + elapsed) % (top + 1);
    var val := (now + ticks) % m;
    TicksAddIsModular(now, ticks, top);
    AlarmDistanceIsModular(val, later, top);
    DistanceFromNow(now, ticks, elapsed, m);
    OneTurn(ticks - 1 - elapsed, m);
  }

  /** With the wrong one, by where the counter stands at the second read. */
  lemma RelativeAlarmAtZero(now: uint32, ticks: uint32, later: uint32, top: uint32, guard: uint32)
    requires now <= top && ticks <= top && later <= top
    requires !DistanceIsRight((now + ticks) % (top + 1), top)
    ensures Decide(AlarmCfg(ticks, false, false), now, later, top, guard)
         == if ticks < top / 2 then if later < 0xFFFF_FFFF - top / 2 then Pending else Armed
            else if later < 0xFFFF_FFFF - top then Dropped else Armed
  {
    TicksAddIsModular(now, ticks, top);
    AlarmDistanceIsModular(0, later, top);
  }

  /**
   What becomes of every relative alarm; `elapsed` ticks pass between the two reads of the counter. With the right
   distance none is lost: a short alarm is armed while its target is ahead, and made pending if it passed by fewer
   than top - top / 2 ticks; a long alarm is always armed. With the wrong one, a short alarm is made pending at once
   and a long one is dropped, unless the counter is near the end of its 32 bits.
   */
  lemma RelativeAlarm(now: uint32, ticks: uint32, elapsed: nat, top: uint32, guard: uint32)
    requires now <= top && ticks <= top && elapsed <= top
    ensures var later := (now + elapsed) % (top + 1);
            Decide(AlarmCfg(ticks, false, false), now, later, top, guard) ==
            if DistanceIsRight((now + ticks) % (top + 1), top) then
              if ticks >= top / 2 || elapsed < ticks || elapsed - ticks >= top - top / 2 then Armed else Pending
            else if ticks < top / 2 then if later < 0xFFFF_FFFF - top / 2 then Pending else Armed
            else if later < 0xFFFF_FFFF - top then Dropped else Armed
  {
    if DistanceIsRight((now + ticks) % (top + 1), top) {
      RelativeAlarmByDistance(now, ticks, elapsed, top, guard);
    } else {
      RelativeAlarmAtZero(now, ticks, (now + elapsed) % (top + 1), top, guard);
    }
  }

  /** While its target is ahead, a relative alarm is armed iff the distance is right or the counter that far. */
  lemma ArmedWhileAhead(now: uint32, ticks: uint32, elapsed: nat, top: uint32, guard: uint32)
    requires now <= top && ticks <= top && elapsed < ticks
    ensures var later := (now + elapsed) % (top + 1);
            Decide(AlarmCfg(ticks, false, false), now, later, top, guard) == Armed <==>
              || DistanceIsRight((now + ticks) % (top + 1), top)
              || later >= 0xFFFF_FFFF - if ticks < top / 2 then top / 2 else top
  {
    RelativeAlarm(now, ticks, elapsed, top, guard);
  }

  /**
   An absolute alarm counts as late exactly when its target lies less than the guard period behind the second read
   of the counter; the tick 0 of a counter whose top is no mask always does, unless the counter is that far.
   */
  lemma AbsoluteAlarm(cfg: AlarmCfg, now: uint32, later: uint32, top: uint32, guard: uint32)
    requires cfg.absolute && cfg.ticks <= top && later <= top && guard < top
    ensures IsLate(cfg, now, later, top, guard) <==>
              if DistanceIsRight(cfg.ticks, top) then (later - cfg.ticks) % (top + 1) < guard
              else later < 0xFFFF_FFFF - top + guard
  {
    AlarmDistanceIsModular(cfg.ticks, later, top);
    OneTurn(cfg.ticks - 1 - later, top + 1);
    OneTurn(later - cfg.ticks, top + 1);
    U32Fits(top - guard);
  }

  /**
   So an absolute alarm is armed exactly when its target lies at least the guard period behind the counter, that is
   ahead of it on the next turn; a late one is made pending if it asks for that, and is dropped otherwise.
   */
  lemma AbsoluteDecision(cfg: AlarmCfg, now: uint32, later: uint32, top: uint32, guard: uint32)
    requires cfg.absolute && cfg.ticks <= top && later <= top && guard < top
    ensures var late := if DistanceIsRight(cfg.ticks, top) then (later - cfg.ticks) % (top + 1) < guard
                        else later < 0xFFFF_FFFF - top + guard;
            Decide(cfg, now, later, top, guard)
            == if !late then Armed else if cfg.expireWhenLate then Decision.Pending else Dropped
  {
    AbsoluteAlarm(cfg, now, later, top, guard);
  }

  /** What the compare register is given: the tick itself, or the tick that far from the counter. */
  lemma CompareValueIsTarget(cfg: AlarmCfg, now: uint32, top: uint32)
    requires cfg.ticks <= top && now <= top
    ensures CompareValue(cfg, now, top) == if cfg.absolute then cfg.ticks else (now + cfg.ticks) % (top + 1)
  {
    TicksAddIsModular(now, cfg.ticks, top);
  }

  lemma ThousandIsNoMask()
    ensures !IsMask(1000)
  {
    assert forall n: nat :: n > 0 ==> Pow2(n) == 2 * Pow2(n - 1);
  }

  /**
   For example, with top 1000: an alarm of 1000 ticks at the count 1 is dropped, one of 400 ticks at the count 601
   fires at once, and the absolute alarm at tick 0 is refused as late right after the counter wrapped to 1.
   */
  lemma AlarmsAtZeroExample()
    ensures Decide(AlarmCfg(1000, false, false), 1, 1, 1000, 0) == Dropped
    ensures Decide(AlarmCfg(400, false, false), 601, 601, 1000, 0) == Pending
    ensures IsLate(AlarmCfg(0, true, false), 1, 1, 1000, 0)
  {
    ThousandIsNoMask();
    ModOf(1001, 1001, 1, 0);
    RelativeAlarmAtZero(1, 1000, 1, 1000, 0);
    RelativeAlarmAtZero(601, 400, 601, 1000, 0);
    AbsoluteAlarm(AlarmCfg(0, true, false), 1, 1, 1000, 0);
  }
}
