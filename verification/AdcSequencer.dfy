/** The conversion sequence of the ADC driver: a channel mask unpacked into the 5-bit slots of three registers. */
module AdcSequencer {
  import opened MachineInt

  const SLOTS := 16

  // ---- Bit fields ----

  /** The field of weight `base` and size `size` in a register. */
  function Field(r: nat, base: nat, size: nat): nat
    requires base > 0 && size > 0
  {
    r / base % size
  }

  /** Clears the field and puts `v` in its place. */
  function SetField(r: nat, base: nat, size: nat, v: nat): int
    requires base > 0 && size > 0
  {
    r - Field(r, base, size) * base + v * base
  }

  lemma DivOfDiv(x: nat, a: nat, b: nat)
    requires a > 0 && b > 0
    ensures a * b > 0 && x / (a * b) == x / a / b
  {
    var q, s, t := x / a / b, x / a % b, x % a;
    assert x / a == q * b + s && x == x / a * a + t;
    assert (q * b + s) * a + t == q * (a * b) + (s * a + t);
    assert s * a <= (b - 1) * a;
    assert (b - 1) * a == a * b - a;
    DivModOf(q, s * a + t, a * b);
  }

  /** A register, split at a field. */
  lemma SplitAt(r: nat, base: nat, size: nat)
    requires base > 0 && size > 0
    ensures r == (r / base / size * size + Field(r, base, size)) * base + r % base
  {
  }

  lemma SetFieldSplit(r: nat, base: nat, size: nat, v: nat)
    requires base > 0 && size > 0 && v < size
    ensures SetField(r, base, size, v) == (r / base / size * size + v) * base + r % base >= 0
  {
    var hi: nat, f: nat, lo: nat := r / base / size * size, Field(r, base, size), r % base;
    assert r == (hi + f) * base + lo by {
      SplitAt(r, base, size);
    }
    Replace(r, hi, f, v, base, lo);
  }

  lemma Replace(r: nat, hi: nat, f: nat, v: nat, base: nat, lo: nat)
    requires r == (hi + f) * base + lo
    ensures r - f * base + v * base == (hi + v) * base + lo >= 0
  {
    assert (hi + f) * base == hi * base + f * base;
    assert (hi + v) * base == hi * base + v * base;
  }

  /** The field reads back, */
  lemma SetFieldReads(r: nat, base: nat, size: nat, v: nat)
    requires base > 0 && size > 0 && v < size
    ensures SetField(r, base, size, v) >= 0 && Field(SetField(r, base, size, v), base, size) == v
  {
    var q: nat, lo: nat := r / base, r % base;
    var hi: nat := q / size;
    SetFieldSplit(r, base, size, v);
    FieldOf(SetField(r, base, size, v), hi, v, lo, base, size);
  }

  lemma FieldOf(x: nat, hi: nat, v: nat, lo: nat, base: nat, size: nat)
    requires v < size && lo < base && x == (hi * size + v) * base + lo
    ensures Field(x, base, size) == v
  {
    DivModOf(hi * size + v, lo, base);
    DivModOf(hi, v, size);
  }

  /** and so do the fields above it, */
  lemma SetFieldKeepsAbove(r: nat, base: nat, size: nat, v: nat, k: nat, size': nat)
    requires base > 0 && size > 0 && v < size && k > 0 && size' > 0
    ensures SetField(r, base, size, v) >= 0 && base * size * k > 0
    ensures Field(SetField(r, base, size, v), base * size * k, size') == Field(r, base * size * k, size')
  {
    var x := SetField(r, base, size, v);
    SetFieldSplit(r, base, size, v);
    DivModOf(r / base / size * size + v, r % base, base);
    DivModOf(r / base / size, v, size);
    DivOfDiv(x, base, size);
    DivOfDiv(r, base, size);
    DivOfDiv(x, base * size, k);
    DivOfDiv(r, base * size, k);
  }

  /** Adding a multiple of the divisor. */
  lemma AddMultiple(x: int, k: int, d: int)
    requires d > 0
    ensures (x + k * d) / d == x / d + k && (x + k * d) % d == x % d
  {
    var q, r := x / d, x % d;
    assert x + k * d == (q + k) * d + r by {
      MulDistributes(q, k, d);
    }
    DivModOf(q + k, r, d);
  }

  lemma SplitMultiple(v: int, base': nat, size': nat, k: nat)
    ensures v * (base' * size' * k) == v * k * size' * base'
  {
  }

  /** and those below it. */
  lemma SetFieldKeepsBelow(r: nat, base: nat, size: nat, v: nat, base': nat, size': nat, k: nat)
    requires base > 0 && size > 0 && v < size && base' > 0 && size' > 0 && base == base' * size' * k
    ensures SetField(r, base, size, v) >= 0
    ensures Field(SetField(r, base, size, v), base', size') == Field(r, base', size')
  {
    SetFieldSplit(r, base, size, v);
    var change := v - Field(r, base, size);
    assert SetField(r, base, size, v) == r + change * base;
    SplitMultiple(change, base', size', k);
    KeepsBelow(r, SetField(r, base, size, v), change * k, base', size');
  }

  lemma KeepsBelow(r: nat, x: nat, n: int, base: nat, size: nat)
    requires base > 0 && size > 0 && x == r + n * size * base
    ensures Field(x, base, size) == Field(r, base, size)
  {
    AddMultiple(r, n * size, base);
    AddMultiple(r / base, n, size);
  }

  // ---- The channel mask ----

  /** The positions of the set bits of `m`, counted from `i`, in ascending order. */
  function BitsFrom(m: nat, i: nat): seq<nat> {
    if m == 0 then [] else (if m % 2 == 1 then [i] else []) + BitsFrom(m / 2, i + 1)
  }

  function Bits(m: nat): seq<nat> {
    BitsFrom(m, 0)
  }

  /** The position of the lowest set bit. */
  function LowestBit(m: nat): nat
    requires m > 0
  {
    if m % 2 == 1 then 0 else 1 + LowestBit(m / 2)
  }

  /** The list holds exactly the set bits, each once, in ascending order. */
  lemma {:induction false} BitsAreAll(m: nat, i: nat)
    ensures forall j :: 0 <= j < |BitsFrom(m, i)| ==> BitsFrom(m, i)[j] >= i
    ensures forall j, k :: 0 <= j < k < |BitsFrom(m, i)| ==> BitsFrom(m, i)[j] < BitsFrom(m, i)[k]
    ensures forall p: nat :: i + p in BitsFrom(m, i) <==> m / Pow2(p) % 2 == 1
  {
    if m > 0 {
      BitsAreAll(m / 2, i + 1);
      forall p: nat
        ensures i + p in BitsFrom(m, i) <==> m / Pow2(p) % 2 == 1
      {
        if p > 0 {
          DivOfDiv(m, 2, Pow2(p - 1));
          assert i + p == i + 1 + (p - 1);
        } else {
          assert i !in BitsFrom(m / 2, i + 1);
        }
      }
    }
  }

  /** Taking the lowest bit out of the mask takes the first position out of the list. */
  lemma {:induction false} BitsWithoutLowest(m: nat, i: nat)
    requires m > 0
    ensures Pow2(LowestBit(m)) <= m
    ensures BitsFrom(m, i) != [] && BitsFrom(m, i)[0] == i + LowestBit(m)
    ensures BitsFrom(m - Pow2(LowestBit(m)), i) == BitsFrom(m, i)[1..]
  {
    if m % 2 == 1 {
      assert (m - 1) / 2 == m / 2;
    } else {
      BitsWithoutLowest(m / 2, i + 1);
      var x := m / 2 - Pow2(LowestBit(m / 2));
      assert m - Pow2(LowestBit(m)) == 2 * x;
      assert 2 * x / 2 == x;
    }
  }

  lemma {:induction false} LowestBitFits(m: nat, n: nat)
    requires 0 < m < Pow2(n)
    ensures LowestBit(m) < n
  {
    if m % 2 == 0 {
      LowestBitFits(m / 2, n - 1);
    }
  }

  lemma {:induction false} BitsFit(m: nat, i: nat, n: nat)
    requires m < Pow2(n)
    ensures |BitsFrom(m, i)| <= n
  {
    if m > 0 {
      BitsFit(m / 2, i + 1, n - 1);
    }
  }

  /** One round of taking the bits out of a mask. */
  lemma NextBit(mask: uint32, rest: nat, index: nat)
    requires 0 < rest <= mask && index <= |Bits(mask)| && Bits(rest) == Bits(mask)[index..]
    ensures index < |Bits(mask)| && LowestBit(rest) == Bits(mask)[index] < 32 && Pow2(LowestBit(rest)) <= rest
    ensures Bits(rest - Pow2(LowestBit(rest))) == Bits(mask)[index + 1..]
  {
    BitsWithoutLowest(rest, 0);
    Pow2Of32();
    LowestBitFits(rest, 32);
    assert Bits(mask)[index..][1..] == Bits(mask)[index + 1..];
  }

  // ---- The sequence registers ----

  /** The three registers; osq3 holds the slots 1 to 6, osq2 7 to 12, osq1 13 to 16 and the length. */
  datatype Regs = Regs(osq1: nat, osq2: nat, osq3: nat)

  /** The weight of the k-th 5-bit field of a register. */
  function Weight(k: nat): (w: nat)
    ensures w > 0
  {
    if k == 0 then 1 else 32 * Weight(k - 1)
  }

  const LENGTH_WEIGHT := 0x10_0000

  function SlotOf(r: Regs, slot: nat): nat
    requires 1 <= slot <= SLOTS
  {
    if slot >= 13 then Field(r.osq1, Weight(slot - 13), 32)
    else if slot >= 7 then Field(r.osq2, Weight(slot - 7), 32)
    else Field(r.osq3, Weight(slot - 1), 32)
  }

  function LengthOf(r: Regs): nat {
    Field(r.osq1, LENGTH_WEIGHT, 16)
  }

  lemma Regroup(a: nat, b: nat)
    ensures 32 * (a * 32 * b) == a * 32 * (32 * b)
  {
  }

  lemma {:induction false} WeightsMultiply(j: nat, k: nat)
    requires j < k
    ensures Weight(k) == Weight(j) * 32 * Weight(k - j - 1)
  {
    if j + 1 < k {
      WeightsMultiply(j, k - 1);
      Regroup(Weight(j), Weight(k - j - 2));
    }
  }

  /** Setting one slot of a register leaves the other slots alone. */
  lemma SlotsAreApart(r: nat, k: nat, v: nat, j: nat)
    requires v < 32
    ensures var x := SetField(r, Weight(k), 32, v);
            x >= 0 && Field(x, Weight(j), 32) == if j == k then v else Field(r, Weight(j), 32)
  {
    SetFieldReads(r, Weight(k), 32, v);
    if j < k {
      WeightsMultiply(j, k);
      SetFieldKeepsBelow(r, Weight(k), 32, v, Weight(j), 32, Weight(k - j - 1));
    } else if k < j {
      WeightsMultiply(k, j);
      SetFieldKeepsAbove(r, Weight(k), 32, v, Weight(j - k - 1), 32);
    }
  }

  /** The length lies above the four slots of its register. */
  lemma LengthIsApart(r: nat, k: nat, v: nat, n: nat)
    requires k < 4 && v < 32 && n < 16
    ensures var x := SetField(r, Weight(k), 32, v);
            x >= 0 && Field(x, LENGTH_WEIGHT, 16) == Field(r, LENGTH_WEIGHT, 16)
    ensures var y := SetField(r, LENGTH_WEIGHT, 16, n);
            y >= 0 && Field(y, LENGTH_WEIGHT, 16) == n && Field(y, Weight(k), 32) == Field(r, Weight(k), 32)
  {
    assert Weight(4) == LENGTH_WEIGHT;
    SetFieldReads(r, LENGTH_WEIGHT, 16, n);
    SetFieldReads(r, Weight(k), 32, v);
    WeightsMultiply(k, 4);
    SetFieldKeepsAbove(r, Weight(k), 32, v, Weight(3 - k), 16);
    SetFieldKeepsBelow(r, LENGTH_WEIGHT, 16, n, Weight(k), 32, Weight(3 - k));
  }

  /** The registers with `v` in one slot. */
  function SetSlot(r: Regs, slot: nat, v: nat): Regs
    requires 1 <= slot <= SLOTS && v < 32
  {
    if slot >= 13 then LengthIsApart(r.osq1, slot - 13, v, 0); r.(osq1 := SetField(r.osq1, Weight(slot - 13), 32, v))
    else if slot >= 7 then SlotsAreApart(r.osq2, slot - 7, v, 0); r.(osq2 := SetField(r.osq2, Weight(slot - 7), 32, v))
    else SlotsAreApart(r.osq3, slot - 1, v, 0); r.(osq3 := SetField(r.osq3, Weight(slot - 1), 32, v))
  }

  /** Exactly that slot changes. */
  lemma SetSlotIsExact(r: Regs, slot: nat, v: nat, s: nat)
    requires 1 <= slot <= SLOTS && v < 32 && 1 <= s <= SLOTS
    ensures SlotOf(SetSlot(r, slot, v), s) == if s == slot then v else SlotOf(r, s)
    ensures LengthOf(SetSlot(r, slot, v)) == LengthOf(r)
  {
    if slot >= 13 {
      LengthIsApart(r.osq1, slot - 13, v, 0);
      if s >= 13 {
        SlotsAreApart(r.osq1, slot - 13, v, s - 13);
      }
    } else if slot >= 7 {
      if 7 <= s < 13 {
        SlotsAreApart(r.osq2, slot - 7, v, s - 7);
      }
    } else if s < 7 {
      SlotsAreApart(r.osq3, slot - 1, v, s - 1);
    }
  }

  lemma SetFieldFromClear(base: nat, size: nat, v: nat)
    requires base > 0 && size > 0
    ensures SetField(0, base, size, v) == v * base
  {
    DivModOf(0, 0, base);
    DivModOf(0, 0, size);
  }

  lemma Weights()
    ensures Weight(0) == 1 && Weight(1) == 0x20 && Weight(2) == 0x400 && Weight(3) == 0x8000
    ensures Weight(4) == 0x10_0000 && Weight(5) == 0x200_0000
  {
  }

  /** From cleared registers: slot 1 is the low end of osq3, 7 of osq2, 13 of osq1, and each further slot 5 bits on. */
  lemma SlotsFromClear(v: nat, k: nat)
    requires v < 32 && k < 6
    ensures SetSlot(Regs(0, 0, 0), 1 + k, v) == Regs(0, 0, v * Weight(k))
    ensures SetSlot(Regs(0, 0, 0), 7 + k, v) == Regs(0, v * Weight(k), 0)
    ensures k < 4 ==> SetSlot(Regs(0, 0, 0), 13 + k, v) == Regs(v * Weight(k), 0, 0)
    ensures Weight(k) == [1, 0x20, 0x400, 0x8000, 0x10_0000, 0x200_0000][k]
  {
    SetFieldFromClear(Weight(k), 32, v);
    Weights();
  }

  // ---- The driver ----

  class Adc {
    var osq1: nat
    var osq2: nat
    var osq3: nat
    var sqen: bool
    var channels: uint32
    var channelCount: uint8
    var samplesCount: uint8

    ghost function Registers(): Regs
      reads this
    {
      Regs(osq1, osq2, osq3)
    }

    /** at32_adc_sequencer_channel_set: a sequence number past 16 is ignored. */
    method SequencerChannelSet(channel: nat, sequence: nat)
      requires channel < 32 && sequence >= 1
      modifies this`osq1, this`osq2, this`osq3
      ensures Registers() == if sequence > SLOTS then old(Registers()) else SetSlot(old(Registers()), sequence, channel)
    {
      if sequence > SLOTS {
        return;
      }
      if sequence >= 13 {
        LengthIsApart(osq1, sequence - 13, channel, 0);
        osq1 := SetField(osq1, Weight(sequence - 13), 32, channel);
      } else if sequence >= 7 {
        SlotsAreApart(osq2, sequence - 7, channel, 0);
        osq2 := SetField(osq2, Weight(sequence - 7), 32, channel);
      } else {
        SlotsAreApart(osq3, sequence - 1, channel, 0);
        osq3 := SetField(osq3, Weight(sequence - 1), 32, channel);
      }
    }

    /** The first `index` channels of the mask are in their slots, and the rest of the registers is as before. */
    ghost predicate Sequenced(before: Regs, bits: seq<nat>, index: nat)
      requires index <= |bits|
      reads this
    {
      && LengthOf(Registers()) == LengthOf(before)
      && forall s :: 1 <= s <= SLOTS ==>
           SlotOf(Registers(), s) == if s <= index then bits[s - 1] else SlotOf(before, s)
    }

    /** The next channel of the mask goes to the next slot. */
    method SequenceNext(ghost before: Regs, ghost bits: seq<nat>, channel: nat, index: nat)
      requires index < |bits| && channel == bits[index] < 32 && Sequenced(before, bits, index)
      modifies this`osq1, this`osq2, this`osq3
      ensures Sequenced(before, bits, index + 1)
    {
      ghost var mid := Registers();
      SequencerChannelSet(channel, index + 1);
      if index + 1 <= SLOTS {
        forall s | 1 <= s <= SLOTS
          ensures SlotOf(Registers(), s) == if s == index + 1 then channel else SlotOf(mid, s)
          ensures LengthOf(Registers()) == LengthOf(mid)
        {
          SetSlotIsExact(mid, index + 1, channel, s);
        }
        SetSlotIsExact(mid, index + 1, channel, 1);
      }
    }

    /**
     set_sequencer: the first 16 set bits of the mask go to the slots in ascending order, the other slots stay,
     and the 4-bit length is one less than the number of bits.
     */
    method SetSequencer()
      modifies this`osq1, this`osq2, this`osq3, this`sqen
      ensures sqen
      ensures var bits := Bits(channels);
              && (forall s :: 1 <= s <= SLOTS ==>
                    SlotOf(Registers(), s) == if s <= |bits| then bits[s - 1] else SlotOf(old(Registers()), s))
              && LengthOf(Registers()) == (|bits| - 1) % 16
    {
      var index: nat := 0;
      var rest: nat := channels;
      while rest != 0
        invariant rest <= channels && index <= |Bits(channels)| && Bits(rest) == Bits(channels)[index..]
        invariant Sequenced(old(Registers()), Bits(channels), index)
        decreases rest
      {
        var id := LowestBit(rest);
        NextBit(channels, rest, index);
        SequenceNext(old(Registers()), Bits(channels), id, index);
        rest := rest - Pow2(id);
        index := index + 1;
      }
      assert |Bits(channels)| == index;
      sqen := true;
      SetLength((index - 1) % 16);
    }

    method SetLength(n: nat)
      requires n < 16
      modifies this`osq1
      ensures LengthOf(Registers()) == n
      ensures forall s :: 1 <= s <= SLOTS ==> SlotOf(Registers(), s) == SlotOf(old(Registers()), s)
    {
      LengthIsApart(osq1, 0, 0, n);
      osq1 := SetField(osq1, LENGTH_WEIGHT, 16, n);
      forall s | 13 <= s <= SLOTS
        ensures SlotOf(Registers(), s) == SlotOf(old(Registers()), s)
      {
        LengthIsApart(old(osq1), s - 13, 0, n);
      }
    }

    /** set_resolution, as far as it refuses: with at most one resolution in the table, any is accepted. */
    method SetResolution(resolution: nat, table: seq<nat>) returns (rc: int)
      ensures rc == if |table| <= 1 || (resolution != 0 && resolution in table) then 0 else EINVAL
    {
      if |table| <= 1 {
        return 0;
      }
      var found := 0;
      for i := 0 to |table|
        invariant found == if resolution in table[..i] then resolution else 0
      {
        if resolution == table[i] {
          found := resolution;
        }
      }
      assert table[..|table|] == table;
      rc := if found == 0 then EINVAL else 0;
    }

    /** The part of start_read before the conversion: a mask of 1 to 16 channels is sequenced completely. */
    method StartRead(mask: uint32, resolution: nat, table: seq<nat>) returns (rc: int)
      modifies this
      ensures rc == if Bits(mask) != [] && (|table| <= 1 || (resolution != 0 && resolution in table)) then 0 else EINVAL
      ensures channels == mask && channelCount == |Bits(mask)| && samplesCount == 0
      ensures rc == 0 && |Bits(mask)| <= SLOTS ==>
                && LengthOf(Registers()) == channelCount - 1
                && (forall i :: 0 <= i < channelCount ==> SlotOf(Registers(), i + 1) == Bits(mask)[i])
                && (forall s :: channelCount < s <= SLOTS ==> SlotOf(Registers(), s) == SlotOf(old(Registers()), s))
      ensures rc != 0 ==> Registers() == old(Registers()) && sqen == old(sqen)
    {
      channels := mask;
      Pow2Of32();
      BitsFit(mask, 0, 32);
      channelCount := |Bits(mask)|;
      samplesCount := 0;
      if channelCount == 0 {
        return EINVAL;
      }
      rc := SetResolution(resolution, table);
      if rc < 0 {
        return;
      }
      SetSequencer();
    }
  }
}
