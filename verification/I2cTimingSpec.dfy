/**
 The timing constraints the version-2 I2C driver solves: the characteristics table of the
 driver (the bus figures of Table 10, section 6.1 of NXP UM10204), the candidate conditions of
 its two searches with their 32-bit wrap-around, and the packed timing register.
 All times are in nanoseconds, `tick` being the period of the peripheral clock; the digital filter coefficient
 is 0 in every mode.
 */
module I2cTimingSpec {
  import opened MachineInt

  const NSEC_PER_SEC := 1_000_000_000
  const TABLE_SIZE := 128
  const PRESC_MAX := 256
  const SCLDEL_MAX := 16
  const SDADEL_MAX := 16
  const SCLL_MAX := 256
  const SCLH_MAX := 256
  const FILTER_MIN := 50
  const FILTER_MAX := 260
  const NO_CONFIG: uint32 := 0xFFFF_FFFF

  datatype Speed = Standard | Fast | FastPlus

  datatype Charac = Charac(freq: nat, freqMin: nat, freqMax: nat, hdDatMin: nat, vdDatMax: nat, suDatMin: nat,
                           lsclMin: nat, hsclMin: nat, rise: nat, fall: nat)

  function CharacOf(s: Speed): Charac {
    match s
    case Standard => Charac(100000, 80000, 120000, 0, 3450, 250, 4700, 4000, 640, 20)
    case Fast => Charac(400000, 320000, 480000, 0, 900, 100, 1300, 600, 250, 100)
    case FastPlus => Charac(1000000, 800000, 1200000, 0, 450, 50, 500, 260, 60, 100)
  }

  /** One entry of the static table of candidate timings. */
  datatype Timings = Timings(presc: nat, scldel: nat, sdadel: nat, sclh: nat, scll: nat)

  const EMPTY := Timings(0, 0, 0, 0, 0)

  ghost predicate FieldsFit(t: Timings) {
    t.presc < 256 && t.scldel < 16 && t.sdadel < 16 && t.sclh < 256 && t.scll < 256
  }

  /** The period of the peripheral tick, rounded to the nearest nanosecond. */
  function Period(clock: uint32): nat
    requires clock != 0
  {
    (NSEC_PER_SEC + clock / 2) / clock
  }

  /** The wanted SCL period. */
  function Target(s: Speed): nat {
    var freq := CharacOf(s).freq;
    (NSEC_PER_SEC + freq / 2) / freq
  }

  function SclMax(s: Speed): nat {
    NSEC_PER_SEC / CharacOf(s).freqMin
  }

  function SclMin(s: Speed): nat {
    NSEC_PER_SEC / CharacOf(s).freqMax
  }

  // ---- Data setup and hold: prescaler, SCLDEL and SDADEL ----

  function SetupTime(tick: nat, presc: nat, scldel: nat): uint32 {
    U32((scldel + 1) * (presc + 1) * tick)
  }

  function HoldTime(tick: nat, presc: nat, sdadel: nat): uint32 {
    U32(sdadel * (presc + 1) * tick)
  }

  function SetupNeed(s: Speed): nat {
    CharacOf(s).rise + CharacOf(s).suDatMin
  }

  /** The lower hold bound; a bound that is not positive is replaced by 0. */
  function HoldNeed(tick: nat, s: Speed): nat {
    var c := CharacOf(s);
    Max(0, I32(c.fall + c.hdDatMin - FILTER_MIN - I32(3 * tick)))
  }

  /** The upper hold bound; a bound that is not positive is replaced by 0. */
  function HoldLimit(tick: nat, s: Speed): nat {
    var c := CharacOf(s);
    Max(0, I32(c.vdDatMax - c.rise - FILTER_MAX - I32(4 * tick)))
  }

  predicate DelaysOk(tick: nat, s: Speed, presc: nat, scldel: nat, sdadel: nat) {
    && scldel < SCLDEL_MAX && sdadel < SDADEL_MAX
    && SetupTime(tick, presc, scldel) >= SetupNeed(s)
    && HoldNeed(tick, s) <= HoldTime(tick, presc, sdadel) <= HoldLimit(tick, s)
  }

  /** Some pair of delays meets the setup and hold bounds for this prescaler. */
  ghost predicate PrescOk(tick: nat, s: Speed, presc: nat) {
    exists a, b :: DelaysOk(tick, s, presc, a, b)
  }

  /** (scldel, sdadel) is the lexicographically least acceptable pair of delays. */
  ghost predicate LeastDelays(tick: nat, s: Speed, presc: nat, scldel: nat, sdadel: nat) {
    && DelaysOk(tick, s, presc, scldel, sdadel)
    && forall a, b :: DelaysOk(tick, s, presc, a, b) ==> scldel < a || (scldel == a && sdadel <= b)
  }

  /** The acceptable prescalers below `n`, in increasing order. */
  ghost function GoodPrescs(tick: nat, s: Speed, n: nat): (r: seq<nat>)
    ensures |r| <= n
  {
    if n == 0 then [] else GoodPrescs(tick, s, n - 1) + if PrescOk(tick, s, n - 1) then [n - 1] else []
  }

  /** The list holds exactly the acceptable prescalers, each once, in increasing order. */
  lemma {:induction false} GoodPrescsAreAll(tick: nat, s: Speed, n: nat)
    ensures var r := GoodPrescs(tick, s, n);
            && (forall p: nat :: p in r <==> p < n && PrescOk(tick, s, p))
            && (forall i, j :: 0 <= i < j < |r| ==> r[i] < r[j])
  {
    if n == 0 {
    } else {
      GoodPrescsAreAll(tick, s, n - 1);
      var r0 := GoodPrescs(tick, s, n - 1);
      assert forall i :: 0 <= i < |r0| ==> r0[i] in r0;
    }
  }

  /** The list of acceptable prescalers only grows at its end. */
  lemma {:induction false} GoodPrescsPrefix(tick: nat, s: Speed, m: nat, n: nat)
    requires m <= n
    ensures GoodPrescs(tick, s, m) <= GoodPrescs(tick, s, n)
  {
    if m < n {
      GoodPrescsPrefix(tick, s, m, n - 1);
    }
  }

  /** An acceptable prescaler comes right after the acceptable ones below it. */
  lemma GoodPrescsFrom(tick: nat, s: Speed, p: nat, n: nat)
    requires p < n && PrescOk(tick, s, p)
    ensures GoodPrescs(tick, s, p) + [p] <= GoodPrescs(tick, s, n)
  {
    assert GoodPrescs(tick, s, p + 1) == GoodPrescs(tick, s, p) + [p];
    GoodPrescsPrefix(tick, s, p + 1, n);
  }

  // ---- SCL low and high: SCLL and SCLH ----

  /** The low or high time that a register value gives. */
  function PhaseTime(tick: nat, presc: nat, value: nat): uint32 {
    U32(FILTER_MIN + 2 * tick + (value + 1) * ((presc + 1) * tick))
  }

  function SclTime(s: Speed, low: uint32, high: uint32): uint32 {
    U32(low + high + CharacOf(s).rise + CharacOf(s).fall)
  }

  predicate LowOk(tick: nat, s: Speed, low: uint32) {
    low > CharacOf(s).lsclMin && tick < (low - FILTER_MIN) / 4
  }

  predicate HighOk(tick: nat, s: Speed, low: uint32, high: uint32) {
    && SclMin(s) <= SclTime(s, low, high) <= SclMax(s)
    && high >= CharacOf(s).hsclMin
    && tick < high
  }

  predicate SclOk(tick: nat, s: Speed, presc: nat, scll: nat, sclh: nat) {
    var low, high := PhaseTime(tick, presc, scll), PhaseTime(tick, presc, sclh);
    scll < SCLL_MAX && sclh < SCLH_MAX && LowOk(tick, s, low) && HighOk(tick, s, low, high)
  }

  /** How far the SCL period is from the wanted one. */
  function SclError(tick: nat, s: Speed, presc: nat, scll: nat, sclh: nat): nat {
    Abs(SclTime(s, PhaseTime(tick, presc, scll), PhaseTime(tick, presc, sclh)) - Target(s))
  }

  /** A candidate of the SCL search: a table slot and its two register values. */
  datatype Pick = Pick(slot: nat, scll: nat, sclh: nat)

  predicate Before(a: Pick, b: Pick) {
    || a.slot < b.slot
    || (a.slot == b.slot && (a.scll < b.scll || (a.scll == b.scll && a.sclh < b.sclh)))
  }

  predicate Feasible(tick: nat, s: Speed, prescs: seq<nat>, p: Pick) {
    p.slot < |prescs| && SclOk(tick, s, prescs[p.slot], p.scll, p.sclh)
  }

  function PickError(tick: nat, s: Speed, prescs: seq<nat>, p: Pick): nat
    requires p.slot < |prescs|
  {
    SclError(tick, s, prescs[p.slot], p.scll, p.sclh)
  }

  /** `p` is the first of the feasible candidates that are closest to the wanted period. */
  ghost predicate FirstBest(tick: nat, s: Speed, prescs: seq<nat>, p: Pick) {
    && Feasible(tick, s, prescs, p)
    && forall q :: Feasible(tick, s, prescs, q) ==>
         && PickError(tick, s, prescs, p) <= PickError(tick, s, prescs, q)
         && (Before(q, p) ==> PickError(tick, s, prescs, p) < PickError(tick, s, prescs, q))
  }

  /** At most one candidate is the first best one. */
  lemma FirstBestIsUnique(tick: nat, s: Speed, prescs: seq<nat>, p: Pick, q: Pick)
    requires FirstBest(tick, s, prescs, p) && FirstBest(tick, s, prescs, q)
    ensures p == q
  {
    assert Before(p, q) || Before(q, p) || p == q;
  }

  /** Every feasible candidate is closer than the initial bound of the search. */
  lemma FeasibleBeatsBound(tick: nat, s: Speed, presc: nat, scll: nat, sclh: nat)
    requires SclOk(tick, s, presc, scll, sclh)
    ensures SclError(tick, s, presc, scll, sclh) < Target(s)
  {
  }

  // ---- The timing register ----

  /** The register word: prescaler low nibble, prescaler high nibble, SCLDEL, SDADEL, SCLH, SCLL. */
  function Pack(t: Timings): uint32 {
    (t.presc % 16) * 0x1000_0000 + (t.presc / 16 % 16) * 0x100_0000
    + (t.scldel % 16) * 0x10_0000 + (t.sdadel % 16) * 0x1_0000 + (t.sclh % 256) * 0x100 + t.scll % 256
  }

  /** How the peripheral reads the register word. */
  function Unpack(word: uint32): Timings {
    Timings(word / 0x100_0000 % 16 * 16 + word / 0x1000_0000,
            word / 0x10_0000 % 16, word / 0x1_0000 % 16, word / 0x100 % 256, word % 256)
  }

  /** Packing loses nothing: the peripheral reads back exactly the five fields. */
  lemma UnpackOfPack(t: Timings)
    requires FieldsFit(t)
    ensures Unpack(Pack(t)) == t
  {
    PackOfDigits(t.presc % 16, t.presc / 16, t.scldel, t.sdadel, t.sclh, t.scll);
    DigitsOfSum(t.presc % 16, t.presc / 16, t.scldel, t.sdadel, t.sclh, t.scll, Pack(t));
  }

  /** Every register word is the packing of the fields it unpacks to. */
  lemma PackOfUnpack(word: uint32)
    ensures FieldsFit(Unpack(word)) && Pack(Unpack(word)) == word
  {
    SumOfDigits(word);
    PackOfDigits(word / 0x1000_0000, word / 0x100_0000 % 16, word / 0x10_0000 % 16, word / 0x1_0000 % 16,
                 word / 0x100 % 256, word % 256);
  }

  lemma PackOfDigits(a: nat, b: nat, c: nat, d: nat, e: nat, f: nat)
    requires a < 16 && b < 16 && c < 16 && d < 16 && e < 256 && f < 256
    ensures Pack(Timings(b * 16 + a, c, d, e, f))
         == a * 0x1000_0000 + b * 0x100_0000 + c * 0x10_0000 + d * 0x1_0000 + e * 0x100 + f
  {
    DivModOf(b, a, 16);
    assert c % 16 == c && d % 16 == d && e % 256 == e && f % 256 == f && b % 16 == b;
  }

  lemma DigitsOfSum(a: nat, b: nat, c: nat, d: nat, e: nat, f: nat, w: nat)
    requires a < 16 && b < 16 && c < 16 && d < 16 && e < 256 && f < 256
    requires w == a * 0x1000_0000 + b * 0x100_0000 + c * 0x10_0000 + d * 0x1_0000 + e * 0x100 + f
    ensures w / 0x1000_0000 == a && w / 0x100_0000 % 16 == b && w / 0x10_0000 % 16 == c
    ensures w / 0x1_0000 % 16 == d && w / 0x100 % 256 == e && w % 256 == f
  {
    assert w / 0x100_0000 == a * 16 + b;
    assert w / 0x10_0000 == (a * 16 + b) * 16 + c;
    assert w / 0x1_0000 == ((a * 16 + b) * 16 + c) * 16 + d;
    assert w / 0x100 == (((a * 16 + b) * 16 + c) * 16 + d) * 256 + e;
  }

  lemma SumOfDigits(w: nat)
    requires w < TWO_TO_THE_32
    ensures w / 0x1000_0000 < 16
    ensures w == w / 0x1000_0000 * 0x1000_0000 + w / 0x100_0000 % 16 * 0x100_0000 + w / 0x10_0000 % 16 * 0x10_0000
                 + w / 0x1_0000 % 16 * 0x1_0000 + w / 0x100 % 256 * 0x100 + w % 256
  {
    assert w / 0x1000_0000 == w / 0x100_0000 / 16;
    assert w / 0x100_0000 == w / 0x10_0000 / 16;
    assert w / 0x10_0000 == w / 0x1_0000 / 16;
    assert w / 0x1_0000 == w / 0x100 / 256;
  }
}
