/** Snowflake ids: 42 bits of milliseconds, 10 bits of machine id, 12 bits of sequence. */
module Snowflake {
  const SEQ := 4096            // ids per millisecond
  const SLOT := 0x40_0000      // 2^22: one millisecond
  const WORD := 0x1_0000_0000_0000_0000

  /** Signed 64-bit wrap-around, which the left shift performs silently. */
  function Wrap64(x: int): int {
    (x + WORD / 2) % WORD - WORD / 2
  }

  /** `(t << 22) | (machine << 12) | idx` on i64; the low 22 bits of the shifted time are zero, so
      with a machine id below 1024 the bit-or is an addition. */
  function Pack(t: int, machine: int, idx: int): int {
    Wrap64(t * SLOT) + machine * SEQ + idx
  }

  /** `id >> 22`, an arithmetic shift. */
  function ToTimestampMillis(id: int): int {
    id / SLOT
  }

  predicate Machine(m: int) {
    0 <= m < 1024
  }

  /** The last millisecond before the shift overflows. */
  const LIMIT := 0x200_0000_0000   // 2^41

  lemma WrapSmall(x: int)
    ensures -WORD / 2 <= x < WORD / 2 ==> Wrap64(x) == x
    ensures -WORD / 2 <= Wrap64(x) < WORD / 2
    ensures Wrap64(x) == x ==> -WORD / 2 <= x < WORD / 2
  {
  }

  lemma WrapSlots(t: int) returns (k: int)
    ensures Wrap64(t * SLOT) == (t - k * 0x400_0000_0000) * SLOT
  {
    k := (t * SLOT + WORD / 2) / WORD;
    assert 0x400_0000_0000 * SLOT == WORD;
    assert (t * SLOT + WORD / 2) % WORD == t * SLOT + WORD / 2 - k * WORD;
  }

  /** The time is recovered exactly when the shift does not overflow, that is until 2^41 ms. */
  lemma DecodeIff(t: int, m: int, idx: int)
    requires Machine(m) && 0 <= idx < SEQ
    ensures ToTimestampMillis(Pack(t, m, idx)) == t <==> -LIMIT <= t < LIMIT
  {
    var k := WrapSlots(t);
    var t' := t - k * 0x400_0000_0000;
    assert 0 <= m * SEQ + idx < SLOT;
    assert ToTimestampMillis(t' * SLOT + (m * SEQ + idx)) == t';
    WrapSmall(t * SLOT);
    assert -LIMIT <= t < LIMIT <==> -WORD / 2 <= t * SLOT < WORD / 2;
  }

  // ----- The bits -----

  /** Bit-or of two words. */
  function BitOr(a: nat, b: nat): nat {
    if a == 0 then b
    else if b == 0 then a
    else (if a % 2 == 1 || b % 2 == 1 then 1 else 0) + 2 * BitOr(a / 2, b / 2)
  }

  function Pow2(k: nat): nat {
    if k == 0 then 1 else 2 * Pow2(k - 1)
  }

  /** A word read as a signed number. */
  function Signed(word: nat): int {
    if word < WORD / 2 then word else word - WORD
  }

  /** `(t << 22) | (machine << 12) | idx`, as it stands, on words. */
  function PackBits(t: int, machine: nat, idx: nat): int {
    Signed(BitOr(BitOr((t * SLOT) % WORD, machine * SEQ), idx))
  }

  /** A number whose low `k` bits are zero, or-ed with a number of `k` bits, is their sum. */
  lemma {:induction false} OrOfSlots(q: nat, b: nat, k: nat)
    requires b < Pow2(k)
    ensures BitOr(q * Pow2(k), b) == q * Pow2(k) + b
    decreases k
  {
    if k > 0 && b > 0 && q > 0 {
      var a := q * Pow2(k);
      assert a == 2 * (q * Pow2(k - 1));
      assert a / 2 == q * Pow2(k - 1) && a % 2 == 0;
      OrOfSlots(q, b / 2, k - 1);
    }
  }

  lemma Powers()
    ensures Pow2(12) == SEQ && Pow2(22) == SLOT
  {
    assert Pow2(4) == 16;
    assert Pow2(8) == 256;
    assert Pow2(12) == 4096;
    assert Pow2(16) == 65536;
    assert Pow2(20) == 1048576;
  }

  /** The bit-or of the three fields is the sum that `Pack` computes, also after an overflow. */
  lemma OrIsSum(t: int, m: int, idx: int)
    requires Machine(m) && 0 <= idx < SEQ
    ensures PackBits(t, m, idx) == Pack(t, m, idx)
  {
    Powers();
    var q := t % 0x400_0000_0000;
    ShiftedWord(t);
    OrOfSlots(q, m * SEQ, 22);
    assert q * SLOT + m * SEQ == (q * 1024 + m) * SEQ;
    OrOfSlots(q * 1024 + m, idx, 12);
    SignedSum(t * SLOT, q, m * SEQ + idx);
  }

  lemma ShiftedWord(t: int)
    ensures (t * SLOT) % WORD == (t % 0x400_0000_0000) * SLOT
  {
    var k, q := t / 0x400_0000_0000, t % 0x400_0000_0000;
    assert t * SLOT == k * WORD + q * SLOT;
  }

  /** Reading a word as signed commutes with adding less than a slot. */
  lemma SignedSum(x: int, q: nat, low: nat)
    requires x % WORD == q * SLOT && low < SLOT
    ensures Signed(q * SLOT + low) == Wrap64(x) + low
  {
    assert q * SLOT < WORD / 2 ==> q < LIMIT;
  }

  /** Different machine ids never share an id, whatever their clocks do. */
  lemma MachinesDisjoint(t: int, m: int, i: int, t': int, m': int, i': int)
    requires Machine(m) && Machine(m') && m != m'
    requires 0 <= i < SEQ && 0 <= i' < SEQ
    ensures Pack(t, m, i) != Pack(t', m', i')
  {
    var k := WrapSlots(t);
    var k' := WrapSlots(t');
    var a, b := t - k * 0x400_0000_0000, t' - k' * 0x400_0000_0000;
    assert Pack(t, m, i) == (a * 1024 + m) * SEQ + i;
    assert Pack(t', m', i') == (b * 1024 + m') * SEQ + i';
  }

  /** A time and a sequence number as one number; the generators walk up these positions. */
  function PackAt(position: int, machine: int): int {
    Pack(position / SEQ, machine, position % SEQ)
  }

  lemma PackIncreases(p: int, q: int, m: int)
    requires Machine(m) && 0 <= p < q < LIMIT * SEQ
    ensures 0 <= PackAt(p, m) < PackAt(q, m)
  {
    WrapSmall(p / SEQ * SLOT);
    WrapSmall(q / SEQ * SLOT);
    assert p / SEQ <= q / SEQ < LIMIT;
  }

  /** From 2^41 ms on the ids are negative, below every id issued before. */
  lemma OverflowBreaksOrder(t: int, m: int, i: int)
    requires Machine(m) && 0 <= i < SEQ && LIMIT <= t < 2 * LIMIT
    ensures Pack(t, m, i) < 0
  {
    WrapLate(t);
    assert 2 * LIMIT * SLOT == WORD;
  }

  /** Before the wrap-around of the whole 42 bits, later ids are larger if and only if both were
      issued before 2^41 ms, or both from then on. */
  lemma PackOrderIff(p: int, q: int, m: int)
    requires Machine(m) && 0 <= p < q < 2 * LIMIT * SEQ
    ensures PackAt(p, m) < PackAt(q, m) <==> q < LIMIT * SEQ || LIMIT * SEQ <= p
  {
    var t, u := p / SEQ, q / SEQ;
    assert t < LIMIT <==> p < LIMIT * SEQ;
    assert u < LIMIT <==> q < LIMIT * SEQ;
    if u < LIMIT {
      PackIncreases(p, q, m);
    } else if t < LIMIT {
      WrapSmall(t * SLOT);
      OverflowBreaksOrder(u, m, q % SEQ);
    } else {
      WrapLate(t);
      WrapLate(u);
    }
  }

  lemma WrapLate(t: int)
    requires LIMIT <= t < 2 * LIMIT
    ensures Wrap64(t * SLOT) == t * SLOT - WORD
  {
    assert 2 * LIMIT * SLOT == WORD;
  }

  // ----- The clock -----

  /** Successive readings of the system clock in milliseconds. */
  class Clock {
    const reading: nat -> int
    var at: nat

    constructor (reading: nat -> int)
      ensures this.reading == reading && at == 0
    {
      this.reading := reading;
      at := 0;
    }

    /** Readings never go back, and time does not stop. */
    ghost predicate Sound() {
      && (forall i, j :: 0 <= i <= j ==> reading(i) <= reading(j))
      && (forall t: int :: Passes(t))
    }

    ghost predicate Passes(t: int) {
      exists k: nat :: reading(k) > t
    }

    ghost function Latest(): int
      requires at > 0
      reads this
    {
      reading(at - 1)
    }

    method Now() returns (t: int)
      requires Sound()
      modifies this
      ensures at == old(at) + 1 && t == Latest()
      ensures old(at) > 0 ==> old(Latest()) <= t
    {
      t := reading(at);
      at := at + 1;
    }
  }

  /** Spin until the clock has passed `last`. */
  method BidingTimeConditions(clock: Clock, last: int) returns (t: int)
    requires clock.Sound()
    modifies clock
    ensures clock.at > old(clock.at) && t == clock.Latest() && t > last
  {
    assert clock.Passes(last);
    ghost var k: nat :| clock.reading(k) > last;
    t := clock.Now();
    while t <= last
      invariant clock.at > old(clock.at) && t == clock.Latest()
      decreases k - clock.at
    {
      t := clock.Now();
    }
  }

  // ----- The generator -----

  lemma PositionParts(time: int, m: int, idx: nat)
    requires idx < SEQ
    ensures PackAt(time * SEQ + idx, m) == Pack(time, m, idx)
  {
    assert (time * SEQ + idx) / SEQ == time && (time * SEQ + idx) % SEQ == idx;
  }

  lemma LaterPosition(time: int, idx: nat, time': int, idx': nat)
    requires idx < SEQ && idx' < SEQ && (time < time' || (time == time' && idx < idx'))
    ensures time * SEQ + idx < time' * SEQ + idx'
  {
  }

  class SnowflakeIdGenerator {
    const machineId: int
    var lastTimeMillis: int
    var idx: nat

    ghost predicate Valid() reads this {
      Machine(machineId) && idx < SEQ
    }

    ghost function Position(): int reads this {
      lastTimeMillis * SEQ + idx
    }

    constructor (machineId: int, clock: Clock)
      requires Machine(machineId) && clock.Sound()
      modifies clock
      ensures Valid() && this.machineId == machineId && idx == 0
      ensures clock.at == old(clock.at) + 1 && lastTimeMillis == clock.Latest()
    {
      this.machineId := machineId;
      this.idx := 0;
      new;
      lastTimeMillis := clock.Now();
    }

    method RealTimeGenerate(clock: Clock) returns (id: int)
      requires Valid() && clock.Sound() && clock.at > 0 && lastTimeMillis <= clock.Latest()
      modifies this, clock
      ensures Valid() && clock.at > old(clock.at) && lastTimeMillis == clock.Latest()
      ensures Position() > old(Position()) && id == PackAt(Position(), machineId)
    {
      idx := (idx + 1) % SEQ;
      var now := clock.Now();
      if now == lastTimeMillis {
        if idx == 0 {
          now := BidingTimeConditions(clock, lastTimeMillis);
          lastTimeMillis := now;
        }
      } else {
        lastTimeMillis := now;
        idx := 0;
      }
      id := Pack(lastTimeMillis, machineId, idx);
      PositionParts(lastTimeMillis, machineId, idx);
      LaterPosition(old(lastTimeMillis), old(idx), lastTimeMillis, idx);
    }

    method Generate(clock: Clock) returns (id: int)
      requires Valid() && clock.Sound() && clock.at > 0 && lastTimeMillis <= clock.Latest()
      modifies this, clock
      ensures Valid() && clock.at >= old(clock.at) && lastTimeMillis <= clock.Latest()
      ensures Position() > old(Position()) && id == PackAt(Position(), machineId)
    {
      idx := (idx + 1) % SEQ;
      if idx == 0 {
        var now := clock.Now();
        if now == lastTimeMillis {
          now := BidingTimeConditions(clock, lastTimeMillis);
          assert now != lastTimeMillis;   // the "clock is moving backwards" panic is unreachable
        }
        lastTimeMillis := now;
      }
      id := Pack(lastTimeMillis, machineId, idx);
      PositionParts(lastTimeMillis, machineId, idx);
      LaterPosition(old(lastTimeMillis), old(idx), lastTimeMillis, idx);
    }

    /** Consumes one position per call, without looking at the clock. */
    method LazyGenerate() returns (id: int)
      requires Valid()
      modifies this
      ensures Valid() && Position() == old(Position()) + 1 && id == PackAt(Position(), machineId)
    {
      idx := (idx + 1) % SEQ;
      if idx == 0 {
        lastTimeMillis := lastTimeMillis + 1;
      }
      id := Pack(lastTimeMillis, machineId, idx);
    }
  }

  datatype Call = RealTime | Basic

  ghost predicate Ascending(ids: seq<int>) {
    forall i, j :: 0 <= i < j < |ids| ==> ids[i] < ids[j]
  }

  /** The time decoded from an id is not after the clock's time at the end of its call, and equal to
      it for a real-time call, as long as the clock has not reached 2^41 ms. */
  ghost predicate Timely(call: Call, id: int, now: int) {
    0 <= now < LIMIT ==> 0 <= ToTimestampMillis(id) <= now && (call.RealTime? ==> ToTimestampMillis(id) == now)
  }

  lemma PositionTimely(call: Call, position: int, machine: int, now: int)
    requires Machine(machine) && 0 <= position && position / SEQ <= now && (call.RealTime? ==> position / SEQ == now)
    ensures Timely(call, PackAt(position, machine), now)
  {
    DecodeIff(position / SEQ, machine, position % SEQ);
  }

  /** One call of either kind. */
  method GenerateOne(g: SnowflakeIdGenerator, clock: Clock, call: Call) returns (id: int)
    requires g.Valid() && clock.Sound() && clock.at > 0 && 0 <= g.lastTimeMillis <= clock.Latest()
    modifies g, clock
    ensures g.Valid() && clock.at >= old(clock.at) && g.lastTimeMillis <= clock.Latest()
    ensures g.Position() > old(g.Position()) && id == PackAt(g.Position(), g.machineId)
    ensures Timely(call, id, clock.Latest())
  {
    match call {
      case RealTime => id := g.RealTimeGenerate(clock);
      case Basic => id := g.Generate(clock);
    }
    PositionTimely(call, g.Position(), g.machineId, clock.Latest());
  }

  /** The clock was read `ats[i]` times by the end of call `i`. */
  ghost predicate ReadUpTo(ats: seq<nat>, first: nat, last: nat) {
    && (forall i :: 0 <= i < |ats| ==> 0 < ats[i] && first <= ats[i] <= last)
    && (forall i, j :: 0 <= i < j < |ats| ==> ats[i] <= ats[j])
  }

  lemma ReadOnce(ats: seq<nat>, first: nat, last: nat, at: nat)
    requires ReadUpTo(ats, first, last) && 0 < at && first <= last <= at
    ensures ReadUpTo(ats + [at], first, at)
  {
  }

  /** The ids are the packings of ascending positions, none of which is after `top`. */
  ghost predicate Issued(ids: seq<int>, positions: seq<int>, machine: int, top: int) {
    && |ids| == |positions|
    && (forall j :: 0 <= j < |ids| ==> ids[j] == PackAt(positions[j], machine) && 0 <= positions[j] <= top)
    && Ascending(positions)
  }

  lemma IssueOne(ids: seq<int>, positions: seq<int>, machine: int, top: int, position: int)
    requires Issued(ids, positions, machine, top) && 0 <= position && top < position
    ensures Issued(ids + [PackAt(position, machine)], positions + [position], machine, position)
  {
  }

  lemma IssuedAscending(ids: seq<int>, positions: seq<int>, machine: int, top: int)
    requires Machine(machine) && Issued(ids, positions, machine, top) && top < LIMIT * SEQ
    ensures Ascending(ids)
  {
    forall i, j | 0 <= i < j < |ids| ensures ids[i] < ids[j] {
      PackIncreases(positions[i], positions[j], machine);
    }
  }

  ghost predicate AllTimely(calls: seq<Call>, ids: seq<int>, ats: seq<nat>, reading: nat -> int) {
    && |ids| == |ats| <= |calls|
    && forall i :: 0 <= i < |ids| ==> 0 < ats[i] && Timely(calls[i], ids[i], reading(ats[i] - 1))
  }

  lemma OneTimely(calls: seq<Call>, ids: seq<int>, ats: seq<nat>, reading: nat -> int, id: int, at: nat)
    requires AllTimely(calls, ids, ats, reading) && |ids| < |calls| && 0 < at
    requires Timely(calls[|ids|], id, reading(at - 1))
    ensures AllTimely(calls, ids + [id], ats + [at], reading)
  {
  }

  /** Any mix of the two clocked generators yields strictly increasing ids, as long as the clock has
      not reached 2^41 ms, and the time of each id never exceeds the clock at its own call. */
  method GenerateMany(g: SnowflakeIdGenerator, clock: Clock, calls: seq<Call>)
    returns (ids: seq<int>, ghost ats: seq<nat>)
    requires g.Valid() && clock.Sound() && clock.at > 0 && 0 <= g.lastTimeMillis <= clock.Latest()
    modifies g, clock
    ensures g.Valid() && clock.at > 0 && g.lastTimeMillis <= clock.Latest() && |ids| == |ats| == |calls|
    ensures clock.Latest() < LIMIT ==> Ascending(ids)
    ensures ReadUpTo(ats, old(clock.at), clock.at)
    ensures AllTimely(calls, ids, ats, clock.reading)
  {
    ids, ats := [], [];
    ghost var ps: seq<int> := [];
    for i := 0 to |calls|
      invariant g.Valid() && old(clock.at) <= clock.at && 0 <= g.lastTimeMillis <= clock.Latest() && |ids| == i
      invariant ReadUpTo(ats, old(clock.at), clock.at)
      invariant AllTimely(calls, ids, ats, clock.reading)
      invariant Issued(ids, ps, g.machineId, g.Position())
    {
      ghost var top, last := g.Position(), clock.at;
      var id := GenerateOne(g, clock, calls[i]);
      IssueOne(ids, ps, g.machineId, top, g.Position());
      OneTimely(calls, ids, ats, clock.reading, id, clock.at);
      ReadOnce(ats, old(clock.at), last, clock.at);
      ids, ps, ats := ids + [id], ps + [g.Position()], ats + [clock.at];
    }
    if clock.Latest() < LIMIT {
      IssuedAscending(ids, ps, g.machineId, g.Position());
    }
  }

  // ----- The bucket -----

  const REFILL := 4091

  class SnowflakeIdBucket {
    const gen: SnowflakeIdGenerator
    var bucket: seq<int>

    /** The bucket holds the newest ids of the generator, oldest last. */
    ghost predicate Valid() reads this, gen {
      gen.Valid() && forall i :: 0 <= i < |bucket| ==> bucket[i] == PackAt(gen.Position() - i, gen.machineId)
    }

    /** The position of the last id handed out. */
    ghost function Served(): int reads this, gen {
      gen.Position() - |bucket|
    }

    constructor (machineId: int, clock: Clock)
      requires Machine(machineId) && clock.Sound()
      modifies clock
      ensures Valid() && fresh(gen) && gen.machineId == machineId && bucket == []
    {
      gen := new SnowflakeIdGenerator(machineId, clock);
      bucket := [];
    }

    method GetId() returns (id: int)
      requires Valid()
      modifies this, gen
      ensures Valid() && Served() == old(Served()) + 1 && id == PackAt(Served(), gen.machineId)
    {
      if bucket == [] {
        GenerateIds();
        bucket := Reverse(bucket);
      }
      id := bucket[|bucket| - 1];
      bucket := bucket[..|bucket| - 1];
    }

    method GenerateIds()
      requires gen.Valid() && bucket == []
      modifies this, gen
      ensures gen.Valid() && |bucket| == REFILL && gen.Position() == old(gen.Position()) + REFILL
      ensures forall i :: 0 <= i < REFILL ==> bucket[i] == PackAt(old(gen.Position()) + 1 + i, gen.machineId)
    {
      for k := 0 to REFILL
        invariant gen.Valid() && |bucket| == k && gen.Position() == old(gen.Position()) + k
        invariant forall i :: 0 <= i < k ==> bucket[i] == PackAt(old(gen.Position()) + 1 + i, gen.machineId)
      {
        var id := gen.LazyGenerate();
        bucket := bucket + [id];
      }
    }
  }

  function Reverse(s: seq<int>): (r: seq<int>)
    ensures |r| == |s| && forall i :: 0 <= i < |s| ==> r[i] == s[|s| - 1 - i]
  {
    if s == [] then [] else Reverse(s[1..]) + [s[0]]
  }

  /** Across all refills a bucket hands out exactly the ids of a plain lazy generator that starts
      at the same position. */
  method BucketEqualsLazy(b: SnowflakeIdBucket, g: SnowflakeIdGenerator, n: nat)
    returns (fromBucket: seq<int>, fromLazy: seq<int>)
    requires b.Valid() && g.Valid() && b.gen != g
    requires b.gen.machineId == g.machineId && b.Served() == g.Position()
    modifies b, b.gen, g
    ensures |fromBucket| == n && fromBucket == fromLazy
    ensures b.Valid() && g.Valid() && b.Served() == g.Position() == old(g.Position()) + n
  {
    fromBucket, fromLazy := [], [];
    for i := 0 to n
      invariant b.Valid() && g.Valid() && |fromBucket| == i && fromBucket == fromLazy
      invariant b.Served() == g.Position() == old(g.Position()) + i
    {
      var x := b.GetId();
      var y := g.LazyGenerate();
      fromBucket, fromLazy := fromBucket + [x], fromLazy + [y];
    }
  }
}
