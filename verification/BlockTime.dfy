/** Slots and block times of the patched `DposSlot`, on 64-bit integers. */
module DposSlot {
  import opened JavaInts

  /** What the scheduler reads. `skip` is the number of slots to skip because the
      head is a maintenance block, zero otherwise; `override` is the one-shot
      timestamp, zero when unset. */
  datatype Schedule = Schedule(genesis: int, headNumber: nat, headTime: int, skip: nat,
                               interval: int, override: int)

  predicate Valid(c: Schedule) {
    c.interval > 0 && c.override >= 0
  }

  /** The time of a slot before any wrap-around. */
  function ExactTime(c: Schedule, slot: int): int
    requires Valid(c)
  {
    if c.headNumber == 0 then c.genesis + slot * c.interval
    else c.headTime - TruncMod(WrapLong(c.headTime - c.genesis), c.interval) + c.interval * (slot + c.skip)
  }

  function GetTime(c: Schedule, slot: int): int
    requires Valid(c)
  {
    if c.override > 0 then c.override else WrapLong(ExactTime(c, slot))
  }

  function GetSlot(c: Schedule, time: int): int
    requires Valid(c)
  {
    if c.override > 0 then 1
    else
      var first := GetTime(c, 0);
      if time < first then 1 else TruncDiv(WrapLong(time - first), c.interval)
  }

  function GetAbSlot(c: Schedule, time: int): int
    requires Valid(c)
  {
    TruncDiv(WrapLong(time - c.genesis), c.interval)
  }

  datatype Scheduled = Witness(index: nat) | NegativeSlot | NoWitnesses | IndexOutOfBounds

  function CurrentSlot(c: Schedule, slot: int): int
    requires Valid(c)
  {
    WrapLong(GetAbSlot(c, c.headTime) + slot)
  }

  /** The cast to a 32-bit int applies to the slot, before the remainder is taken. */
  function GetScheduledWitness(c: Schedule, slot: int, size: nat): Scheduled
    requires Valid(c)
  {
    var current := CurrentSlot(c, slot);
    if current < 0 then NegativeSlot
    else if size == 0 then NoWitnesses
    else
      var index := TruncMod(CastInt(current), size);
      if index < 0 then IndexOutOfBounds else Witness(index)
  }

  /** No override, the head at or after genesis (at genesis while it is the genesis
      block), and no slot time needed here past the range of a long. */
  predicate Regular(c: Schedule, lastSlot: int) {
    && Valid(c) && c.override == 0
    && 0 <= c.genesis <= c.headTime <= LONG_MAX && (c.headNumber == 0 ==> c.headTime == c.genesis)
    && ExactTime(c, lastSlot) <= LONG_MAX
  }

  /** Slot times step by the interval from the time of slot zero. */
  lemma TimesAreLinear(c: Schedule, slot: int)
    requires Valid(c)
    ensures ExactTime(c, slot) == ExactTime(c, 0) + c.interval * slot
  {
    if c.headNumber != 0 {
      assert c.interval * (slot + c.skip) == c.interval * slot + c.interval * c.skip;
    }
  }

  lemma Scale(b: int, k: int)
    requires b > 0
    ensures k >= 0 ==> b * k >= 0
    ensures k >= 1 ==> b * k >= b
    ensures k <= -1 ==> b * k <= -b
  {
  }

  lemma FirstTimeBounds(c: Schedule)
    requires Valid(c) && 0 <= c.genesis <= c.headTime <= LONG_MAX && (c.headNumber == 0 ==> c.headTime == c.genesis)
    ensures 0 <= ExactTime(c, 0) && c.headTime - c.interval < ExactTime(c, 0)
    ensures c.headNumber == 0 ==> ExactTime(c, 0) == c.headTime
    ensures c.headNumber != 0 ==>
              c.headTime - c.interval < ExactTime(c, 0) - c.interval * c.skip <= c.headTime
  {
    var d := c.headTime - c.genesis;
    Scale(c.interval, c.skip);
    assert WrapLong(d) == d;
    DivBrackets(d, c.interval);
    assert d % c.interval == d - c.interval * (d / c.interval);
    Scale(c.interval, d / c.interval);
    assert c.interval * (0 + c.skip) == c.interval * c.skip;
  }

  lemma RegularTimes(c: Schedule, lastSlot: int, slot: int)
    requires Regular(c, lastSlot) && 0 <= slot <= lastSlot
    ensures 0 <= ExactTime(c, 0) && GetTime(c, slot) == ExactTime(c, slot) == ExactTime(c, 0) + c.interval * slot
  {
    FirstTimeBounds(c);
    TimesAreLinear(c, slot);
    TimesAreLinear(c, lastSlot);
    assert c.interval * lastSlot == c.interval * slot + c.interval * (lastSlot - slot);
    Scale(c.interval, lastSlot - slot);
    Scale(c.interval, slot);
  }

  /** From the first slot time on, the slot of a time is the one whose interval
      contains it. */
  lemma SlotBracketsTime(c: Schedule, time: int)
    requires Regular(c, 0) && GetTime(c, 0) <= time && time + c.interval <= LONG_MAX
    ensures var slot := GetSlot(c, time);
            0 <= slot && GetTime(c, slot) <= time < GetTime(c, slot + 1)
  {
    var slot := GetSlot(c, time);
    RegularTimes(c, 0, 0);
    DivBrackets(time - ExactTime(c, 0), c.interval);
    TimesAreLinear(c, slot + 1);
    assert c.interval * (slot + 1) == c.interval * slot + c.interval;
    RegularTimes(c, slot + 1, slot);
    RegularTimes(c, slot + 1, slot + 1);
  }

  lemma DivBrackets(a: int, b: int)
    requires a >= 0 && b > 0
    ensures 0 <= a / b && b * (a / b) <= a < b * (a / b) + b
  {
    assert a == b * (a / b) + a % b;
  }

  /** Before the first slot time the answer is slot one, whose time is later. */
  lemma EarlyTimeGetsSlotOne(c: Schedule, time: int)
    requires Regular(c, 1) && time < GetTime(c, 0)
    ensures GetSlot(c, time) == 1 && time < GetTime(c, 1)
  {
    RegularTimes(c, 1, 0);
    RegularTimes(c, 1, 1);
  }

  /** The slot of a slot's own time is that slot. */
  lemma SlotOfSlotTime(c: Schedule, slot: nat)
    requires Regular(c, slot)
    ensures GetSlot(c, GetTime(c, slot)) == slot
  {
    RegularTimes(c, slot, slot);
    RegularTimes(c, slot, 0);
    Scale(c.interval, slot);
    DivCancel(c.interval, slot);
  }

  lemma DivCancel(b: int, q: int)
    requires b > 0
    ensures (b * q) / b == q
  {
    var d := (b * q) / b;
    assert b * q == b * d + (b * q) % b;
    assert b * (q - d) == b * q - b * d;
    Scale(b, q - d);
  }

  /** Slot times are congruent to the genesis time modulo the interval. */
  lemma SlotTimesAligned(c: Schedule, slot: nat)
    requires Regular(c, slot)
    ensures (GetTime(c, slot) - c.genesis) % c.interval == 0
  {
    var n := (c.headTime - c.genesis) / c.interval + slot + (if c.headNumber == 0 then 0 else c.skip);
    TimeInSlots(c, slot, n);
    ModOfMultiple(c.interval, n);
  }

  lemma ModOfMultiple(b: int, q: int)
    requires b > 0
    ensures (b * q) % b == 0
  {
    DivCancel(b, q);
  }

  /** Slot one is after the head block, also past skipped maintenance slots. */
  lemma SlotOneIsAfterHead(c: Schedule)
    requires Regular(c, 1)
    ensures GetTime(c, 1) > c.headTime
  {
    RegularTimes(c, 1, 1);
    FirstTimeBounds(c);
  }

  /** The absolute slot of a time is the number of whole intervals since genesis. */
  lemma AbSlotBrackets(c: Schedule, time: int)
    requires Valid(c) && 0 <= c.genesis <= time <= LONG_MAX
    ensures var k := GetAbSlot(c, time);
            0 <= k && c.genesis + c.interval * k <= time < c.genesis + c.interval * k + c.interval
  {
    DivBrackets(time - c.genesis, c.interval);
  }

  /** The absolute slot of a slot's own time: that of the head, on by the slot and
      the slots skipped. */
  lemma AbSlotOfSlotTime(c: Schedule, slot: nat)
    requires Regular(c, slot)
    ensures GetAbSlot(c, GetTime(c, slot)) ==
            GetAbSlot(c, c.headTime) + slot + (if c.headNumber == 0 then 0 else c.skip)
  {
    var q := GetAbSlot(c, c.headTime);
    var n := q + slot + (if c.headNumber == 0 then 0 else c.skip);
    DivBrackets(c.headTime - c.genesis, c.interval);
    TimeInSlots(c, slot, n);
    Scale(c.interval, n);
    DivCancel(c.interval, n);
  }

  /** A slot's time is a whole number of intervals after genesis. */
  lemma TimeInSlots(c: Schedule, slot: nat, n: int)
    requires Regular(c, slot)
    requires n == (c.headTime - c.genesis) / c.interval + slot + (if c.headNumber == 0 then 0 else c.skip)
    ensures GetTime(c, slot) - c.genesis == c.interval * n
  {
    RegularTimes(c, slot, slot);
    if c.headNumber == 0 {
      DivCancel(c.interval, 0);
      assert slot * c.interval == c.interval * slot;
    } else {
      var d := c.headTime - c.genesis;
      assert d == c.interval * (d / c.interval) + d % c.interval;
      assert c.interval * n == c.interval * (d / c.interval) + c.interval * (slot + c.skip);
    }
  }

  /** With the absolute slot of its time within 31 bits, the witness scheduled for a
      slot is the one whose turn that time falls in, exactly when the slots skipped
      make whole turns (there are none behind the genesis block). */
  lemma ScheduleFollowsTime(c: Schedule, slot: nat, size: nat)
    requires Regular(c, slot) && size > 0 && GetAbSlot(c, GetTime(c, slot)) < 0x8000_0000
    ensures GetScheduledWitness(c, slot, size) == Witness(GetAbSlot(c, GetTime(c, slot)) % size) <==>
            c.headNumber == 0 || c.skip % size == 0
  {
    AbSlotOfSlotTime(c, slot);
    DivBrackets(c.headTime - c.genesis, c.interval);
    var current := GetAbSlot(c, c.headTime) + slot;
    assert GetScheduledWitness(c, slot, size) == Witness(current % size);
    if c.headNumber != 0 {
      SameTurn(current, c.skip, size);
    }
  }

  lemma SameTurn(x: nat, skip: nat, size: nat)
    requires size > 0
    ensures x % size == (x + skip) % size <==> skip % size == 0
  {
    var a, b, q := x / size, skip / size, (x + skip) / size;
    assert x == size * a + x % size && skip == size * b + skip % size && x + skip == size * q + (x + skip) % size;
    assert size * (q - a - b) == size * q - size * a - size * b;
    assert x % size + skip % size == size * (q - a - b) + (x + skip) % size;
    Scale(size, q - a - b);
    Scale(size, q - a - b - 1);
    assert size * (q - a - b - 1) == size * (q - a - b) - size;
  }

  /** A witness is found exactly when the slot is not negative, there are witnesses,
      and the slot cut to 32 bits is non-negative or a multiple of their number. */
  lemma WitnessFoundExactly(c: Schedule, slot: int, size: nat)
    requires Valid(c)
    ensures var current := CurrentSlot(c, slot);
            GetScheduledWitness(c, slot, size).Witness? <==>
            current >= 0 && size > 0 && (CastInt(current) >= 0 || (-CastInt(current)) % size == 0)
    ensures var current := CurrentSlot(c, slot);
            0 <= current < 0x8000_0000 && size > 0 ==> GetScheduledWitness(c, slot, size) == Witness(current % size)
    ensures CurrentSlot(c, slot) >= 0 ==> GetScheduledWitness(c, slot, 1) == Witness(0)
  {
  }

  /** At an interval of one millisecond the slot passes 31 bits within 25 days of
      genesis; three witnesses are then indexed out of bounds. */
  lemma WitnessIndexCanFail()
    ensures var c := Schedule(0, 1, 0x8000_0000, 0, 1, 0);
            Valid(c) && GetScheduledWitness(c, 0, 3) == IndexOutOfBounds
  {
    var c := Schedule(0, 1, 0x8000_0000, 0, 1, 0);
    assert CurrentSlot(c, 0) == 0x8000_0000;
    assert CastInt(0x8000_0000) == -0x8000_0000;
  }
}
