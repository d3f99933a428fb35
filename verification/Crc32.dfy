/** The CRC-32 of the release archive: the table-driven loop, the bit-serial
    division it abbreviates, and what the checksum detects. */
module Crc32 {
  import opened Bytes

  const POLYNOMIAL: bv32 := 0xedb88320
  const ALL_ONES: bv32 := 0xffffffff

  // ---- Register machines over any word type ----

  function Iterate<W>(f: W -> W, x: W, count: nat): W
    decreases count
  {
    if count == 0 then x else Iterate(f, f(x), count - 1)
  }

  function Feed<W>(step: (W, bool) -> W, register: W, bits: seq<bool>): W
    decreases |bits|
  {
    if bits == [] then register else Feed(step, step(register, bits[0]), bits[1..])
  }

  /** The low bits of a word, least significant first. */
  function Drain<W>(low: W -> bool, down: W -> W, word: W, count: nat): (bits: seq<bool>)
    ensures |bits| == count
    decreases count
  {
    if count == 0 then [] else [low(word)] + Drain(low, down, down(word), count - 1)
  }

  lemma {:induction false} IterateLinear<W(!new)>(f: W -> W, add: (W, W) -> W, a: W, b: W, count: nat)
    requires forall x, y :: f(add(x, y)) == add(f(x), f(y))
    ensures Iterate(f, add(a, b), count) == add(Iterate(f, a, count), Iterate(f, b, count))
    decreases count
  {
    if count > 0 {
      IterateLinear(f, add, f(a), f(b), count - 1);
    }
  }

  /** If one shift of a sum feeds one bit and keeps the rest of the word, then
      many shifts of the sum feed the word's low bits in order. */
  lemma {:induction false} FeedIsIterate<W(!new)>(f: W -> W, add: (W, W) -> W, step: (W, bool) -> W,
      low: W -> bool, down: W -> W, register: W, word: W, count: nat)
    requires forall r, w :: f(add(r, w)) == add(step(r, low(w)), down(w))
    ensures Iterate(f, add(register, word), count)
         == add(Feed(step, register, Drain(low, down, word, count)), Iterate(down, word, count))
    decreases count
  {
    if count > 0 {
      var bits := Drain(low, down, word, count);
      assert bits[1..] == Drain(low, down, down(word), count - 1);
      FeedIsIterate(f, add, step, low, down, step(register, low(word)), down(word), count - 1);
    }
  }

  lemma {:induction false} FeedConcat<W>(step: (W, bool) -> W, register: W, first: seq<bool>, second: seq<bool>)
    ensures Feed(step, register, first + second) == Feed(step, Feed(step, register, first), second)
    decreases |first|
  {
    if first == [] {
      assert first + second == second;
    } else {
      assert (first + second)[1..] == first[1..] + second;
      FeedConcat(step, step(register, first[0]), first[1..], second);
    }
  }

  function FoldBytes<W>(step: (W, Byte) -> W, register: W, data: seq<Byte>): W
    decreases |data|
  {
    if data == [] then register else step(FoldBytes(step, register, data[..|data| - 1]), data[|data| - 1])
  }

  /** A word rebuilt from its bits, first bit lowest. */
  function Push<W>(push: (W, bool) -> W, zero: W, bits: seq<bool>): W
    decreases |bits|
  {
    if bits == [] then zero else push(Push(push, zero, bits[1..]), bits[0])
  }

  lemma IterateEight<W>(f: W -> W, x: W)
    ensures Iterate(f, x, 8) == f(f(f(f(f(f(f(f(x))))))))
  {
    var y := f(f(f(f(x))));
    assert Iterate(f, x, 8) == Iterate(f, f(x), 7) == Iterate(f, f(f(x)), 6) == Iterate(f, f(f(f(x))), 5);
    assert Iterate(f, y, 4) == Iterate(f, f(y), 3) == Iterate(f, f(f(y)), 2) == Iterate(f, f(f(f(y))), 1);
  }

  lemma IterateSeven<W>(f: W -> W, x: W)
    ensures Iterate(f, x, 7) == f(f(f(f(f(f(f(x)))))))
  {
    var y := f(f(f(x)));
    assert Iterate(f, x, 7) == Iterate(f, f(x), 6) == Iterate(f, f(f(x)), 5) == Iterate(f, y, 4);
    assert Iterate(f, y, 4) == Iterate(f, f(y), 3) == Iterate(f, f(f(y)), 2) == Iterate(f, f(f(f(y))), 1);
  }

  lemma DrainStep<W>(low: W -> bool, down: W -> W, word: W, rest: W, bits: seq<bool>)
    requires bits != [] && low(word) == bits[0] && down(word) == rest
    requires Drain(low, down, rest, |bits| - 1) == bits[1..]
    ensures Drain(low, down, word, |bits|) == bits
    ensures Iterate(down, word, |bits|) == Iterate(down, rest, |bits| - 1)
  {}

  // ---- Reference: reflected long division, one message bit at a time ----

  /** One division step: the outgoing register bit and the incoming message
      bit decide together whether the generator is subtracted. */
  function DivideBit(register: bv32, bit: bool): bv32 {
    if (register & 1 == 1) != bit then POLYNOMIAL ^ (register >> 1) else register >> 1
  }

  function LowBit(word: bv32): bool { word & 1 == 1 }

  function Down(word: bv32): bv32 { word >> 1 }

  function Xor(a: bv32, b: bv32): bv32 { a ^ b }

  function Widen(b: Byte): bv32 {
    b as bv8 as bv32
  }

  function MessageBits(data: seq<Byte>): (bits: seq<bool>)
    ensures |bits| == 8 * |data|
  {
    if data == [] then [] else Drain(LowBit, Down, Widen(data[0]), 8) + MessageBits(data[1..])
  }

  /** The checksum the archive format asks for. */
  function BitSerialCrc(data: seq<Byte>): bv32 {
    Register(data) ^ ALL_ONES
  }

  /** The register after the division has consumed `data`. */
  function Register(data: seq<Byte>): bv32 {
    Feed(DivideBit, ALL_ONES, MessageBits(data))
  }

  // ---- The table ----

  /** The body of the table's inner loop. */
  function Shift(c: bv32): bv32 {
    if c & 1 == 1 then POLYNOMIAL ^ (c >> 1) else c >> 1
  }

  function Entry(n: Byte): bv32 {
    Iterate(Shift, Widen(n), 8)
  }

  ghost predicate IsTable(table: seq<bv32>) {
    |table| == 256 && forall n: Byte :: table[n] == Entry(n)
  }

  method BuildTable() returns (table: seq<bv32>)
    ensures IsTable(table)
  {
    table := [];
    for n: int := 0 to 256
      invariant |table| == n
      invariant forall m: Byte :: m < n ==> table[m] == Entry(m)
    {
      var c := Widen(n);
      for k := 0 to 8
        invariant Iterate(Shift, c, 8 - k) == Entry(n)
      {
        c := if c & 1 == 1 then POLYNOMIAL ^ (c >> 1) else c >> 1;
      }
      table := table + [c];
    }
  }

  // ---- Linearity of the shift over exclusive or ----

  lemma XorShift(a: bv32, b: bv32)
    ensures (a ^ b) >> 1 == (a >> 1) ^ (b >> 1)
    ensures ((a ^ b) & 1 == 1) == ((a & 1 == 1) != (b & 1 == 1))
  {}

  lemma XorSwap(p: bv32, x: bv32, y: bv32)
    ensures (p ^ x) ^ (p ^ y) == x ^ y
    ensures p ^ (x ^ y) == (p ^ x) ^ y
    ensures p ^ (x ^ y) == x ^ (p ^ y)
  {}

  lemma ShiftLinear(a: bv32, b: bv32)
    ensures Shift(a ^ b) == Shift(a) ^ Shift(b)
  {
    XorShift(a, b);
    XorSwap(POLYNOMIAL, a >> 1, b >> 1);
  }

  lemma ShiftFeeds(register: bv32, word: bv32)
    ensures Shift(register ^ word) == DivideBit(register, LowBit(word)) ^ Down(word)
  {
    XorShift(register, word);
    XorSwap(POLYNOMIAL, register >> 1, word >> 1);
  }

  lemma ShiftsLinear(a: bv32, b: bv32, count: nat)
    ensures Iterate(Shift, Xor(a, b), count) == Xor(Iterate(Shift, a, count), Iterate(Shift, b, count))
  {
    forall x, y ensures Shift(Xor(x, y)) == Xor(Shift(x), Shift(y)) {
      ShiftLinear(x, y);
    }
    IterateLinear(Shift, Xor, a, b, count);
  }

  lemma ShiftsFeed(register: bv32, word: bv32, count: nat)
    ensures Iterate(Shift, Xor(register, word), count)
         == Xor(Feed(DivideBit, register, Drain(LowBit, Down, word, count)), Iterate(Down, word, count))
  {
    forall r, w ensures Shift(Xor(r, w)) == Xor(DivideBit(r, LowBit(w)), Down(w)) {
      ShiftFeeds(r, w);
    }
    FeedIsIterate(Shift, Xor, DivideBit, LowBit, Down, register, word, count);
  }

  // ---- The table-driven loop ----

  lemma DownEight(c: bv32)
    ensures Iterate(Down, c, 8) == c >> 8
  {
    IterateEight(Down, c);
    EightShifts(c);
  }

  lemma EightShifts(c: bv32)
    ensures c >> 1 >> 1 >> 1 >> 1 >> 1 >> 1 >> 1 >> 1 == c >> 8
  {}

  /** `& 0xff`, as the table index it becomes. */
  function LowByte(x: bv32): Byte {
    ByteOf((x & 0xff) as bv8)
  }

  function ByteOf(v: bv8): Byte {
    v as int
  }

  lemma ByteRoundTrip(v: bv8)
    ensures ByteOf(v) as bv8 == v
  {}

  lemma NarrowLow(x: bv32)
    ensures (x & 0xff) as bv8 as bv32 == x & 0xff
  {}

  lemma WidenLowByte(x: bv32)
    ensures Widen(LowByte(x)) == x & 0xff
  {
    ByteRoundTrip((x & 0xff) as bv8);
    NarrowLow(x);
  }

  /** One pass of the loop body. */
  function TableStep(crc: bv32, b: Byte): bv32 {
    Entry(LowByte(crc ^ Widen(b))) ^ (crc >> 8)
  }

  /** The byte meets the register through eight division steps... */
  lemma ByteFeeds(crc: bv32, b: Byte)
    ensures Iterate(Shift, Xor(crc, Widen(b)), 8) == Feed(DivideBit, crc, Drain(LowBit, Down, Widen(b), 8))
  {
    ShiftsFeed(crc, Widen(b), 8);
    DownEight(Widen(b));
    ByteIsLow(crc, b);
    XorZero(Feed(DivideBit, crc, Drain(LowBit, Down, Widen(b), 8)));
  }

  lemma SplitShifts(x: bv32, low: bv32, high: bv32, rest: bv32)
    requires x == Xor(low, high) && Iterate(Shift, high, 8) == rest
    ensures Iterate(Shift, x, 8) == Xor(Iterate(Shift, low, 8), rest)
  {
    ShiftsLinear(low, high, 8);
  }

  lemma EntryOfLow(x: bv32)
    ensures Entry(LowByte(x)) == Iterate(Shift, x & 0xff, 8)
  {
    WidenLowByte(x);
  }

  lemma ShiftsSplit(x: bv32)
    ensures Iterate(Shift, x, 8) == Xor(Iterate(Shift, x & 0xff, 8), x >> 8)
  {
    SplitWord(x);
    HighShifts(x & 0xffffff00);
    SplitShifts(x, x & 0xff, x & 0xffffff00, x >> 8);
  }

  /** ...and the table looks all eight up at once. */
  lemma TableLooksUp(crc: bv32, b: Byte)
    ensures Iterate(Shift, Xor(crc, Widen(b)), 8) == TableStep(crc, b)
  {
    ShiftsSplit(Xor(crc, Widen(b)));
    EntryOfLow(Xor(crc, Widen(b)));
    ByteIsLow(crc, b);
  }

  lemma TableStepDivides(crc: bv32, b: Byte)
    ensures TableStep(crc, b) == Feed(DivideBit, crc, Drain(LowBit, Down, Widen(b), 8))
  {
    ByteFeeds(crc, b);
    TableLooksUp(crc, b);
  }

  lemma XorZero(x: bv32)
    ensures Xor(x, 0) == x
  {}

  lemma SplitWord(x: bv32)
    ensures x == Xor(x & 0xff, x & 0xffffff00)
    ensures (x & 0xffffff00) >> 8 == x >> 8 && (x & 0xffffff00) & 0xff == 0
  {}

  lemma ByteIsLow(crc: bv32, b: Byte)
    ensures Xor(crc, Widen(b)) >> 8 == crc >> 8
    ensures Widen(b) >> 8 == 0
  {
    NarrowIsLow(crc, b as bv8);
  }

  lemma NarrowIsLow(crc: bv32, b: bv8)
    ensures (crc ^ (b as bv32)) >> 8 == crc >> 8
    ensures (b as bv32) >> 8 == 0
  {}

  /** With eight zero bits in front, eight shifts never meet the generator. */
  lemma HighShifts(high: bv32)
    requires high & 0xff == 0
    ensures Iterate(Shift, high, 8) == high >> 8
  {
    IterateEight(Shift, high);
    EightHighShifts(high);
  }

  lemma EightHighShifts(high: bv32)
    requires high & 0xff == 0
    ensures Shift(Shift(Shift(Shift(Shift(Shift(Shift(Shift(high)))))))) == high >> 8
  {}

  lemma {:induction false} MessageBitsConcat(first: seq<Byte>, second: seq<Byte>)
    ensures MessageBits(first + second) == MessageBits(first) + MessageBits(second)
    decreases |first|
  {
    if first == [] {
      assert first + second == second;
    } else {
      assert (first + second)[1..] == first[1..] + second;
      MessageBitsConcat(first[1..], second);
    }
  }

  lemma RegisterStep(data: seq<Byte>, b: Byte)
    ensures Register(data + [b]) == TableStep(Register(data), b)
  {
    var bits := Drain(LowBit, Down, Widen(b), 8);
    assert MessageBits([b]) == bits;
    MessageBitsConcat(data, [b]);
    FeedConcat(DivideBit, ALL_ONES, MessageBits(data), bits);
    TableStepDivides(Register(data), b);
  }

  lemma {:induction false} TableFoldDivides(data: seq<Byte>)
    ensures FoldBytes(TableStep, ALL_ONES, data) == Register(data)
    decreases |data|
  {
    if data != [] {
      var init, last := data[..|data| - 1], data[|data| - 1];
      assert data == init + [last];
      TableFoldDivides(init);
      RegisterStep(init, last);
    }
  }

  lemma FoldStep<W>(step: (W, Byte) -> W, register: W, data: seq<Byte>, i: nat, next: W)
    requires i < |data| && next == step(FoldBytes(step, register, data[..i]), data[i])
    ensures next == FoldBytes(step, register, data[..i + 1])
  {
    assert data[..i + 1][..i] == data[..i];
  }

  method LookUp(table: seq<bv32>, crc: bv32, b: Byte) returns (next: bv32)
    requires IsTable(table)
    ensures next == TableStep(crc, b)
  {
    next := table[LowByte(crc ^ Widen(b))] ^ (crc >> 8);
  }

  /** The checksum as the number a header field holds. */
  function Value(data: seq<Byte>): (n: nat)
    ensures n <= 0xffffffff
  {
    BitSerialCrc(data) as int
  }

  /** The loop of `crc32`: one table lookup a byte computes the division. */
  method Checksum(table: seq<bv32>, data: seq<Byte>) returns (sum: bv32)
    requires IsTable(table)
    ensures sum == BitSerialCrc(data)
  {
    var crc := ALL_ONES;
    for i := 0 to |data|
      invariant crc == FoldBytes(TableStep, ALL_ONES, data[..i])
    {
      var next := LookUp(table, crc, data[i]);
      FoldStep(TableStep, ALL_ONES, data, i, next);
      crc := next;
    }
    assert data[..|data|] == data;
    TableFoldDivides(data);
    sum := crc ^ ALL_ONES;
  }

  // ---- What the checksum detects ----

  lemma DivideBitInjective(r1: bv32, r2: bv32, bit: bool)
    requires DivideBit(r1, bit) == DivideBit(r2, bit)
    ensures r1 == r2
  {}

  lemma {:induction false} FeedInjective(r1: bv32, r2: bv32, bits: seq<bool>)
    requires Feed(DivideBit, r1, bits) == Feed(DivideBit, r2, bits)
    ensures r1 == r2
    decreases |bits|
  {
    if bits != [] {
      FeedInjective(DivideBit(r1, bits[0]), DivideBit(r2, bits[0]), bits[1..]);
      DivideBitInjective(r1, r2, bits[0]);
    }
  }

  lemma ShiftInjective(a: bv32, b: bv32)
    requires Shift(a) == Shift(b)
    ensures a == b
  {}

  lemma {:induction false} ShiftsInjective(a: bv32, b: bv32, count: nat)
    requires Iterate(Shift, a, count) == Iterate(Shift, b, count)
    ensures a == b
    decreases count
  {
    if count > 0 {
      ShiftsInjective(Shift(a), Shift(b), count - 1);
      ShiftInjective(a, b);
    }
  }

  function PushBit(rest: bv32, bit: bool): bv32 {
    (rest << 1) | (if bit then 1 else 0)
  }

  /** A burst of at most 32 bits as one word. */
  function Pack(bits: seq<bool>): bv32 {
    Push(PushBit, 0, bits)
  }

  lemma AppendBit(rest: bv32, bit: bool)
    requires rest >> 31 == 0
    ensures LowBit(PushBit(rest, bit)) == bit && Down(PushBit(rest, bit)) == rest
  {}

  lemma {:induction false} IterateMore<W>(f: W -> W, x: W, first: nat, more: nat)
    ensures Iterate(f, x, first + more) == Iterate(f, Iterate(f, x, first), more)
    decreases first
  {
    if first > 0 {
      IterateMore(f, f(x), first - 1, more);
    }
  }

  lemma {:induction false} DownZero(count: nat)
    ensures Iterate(Down, 0, count) == 0
    decreases count
  {
    if count > 0 {
      assert Down(0) == 0;
      DownZero(count - 1);
    }
  }

  /** 31 right shifts in three bytes and seven bits. */
  lemma DownTwentyFour(word: bv32)
    ensures Iterate(Down, word, 24) == word >> 24
  {
    IterateMore(Down, word, 16, 8);
    IterateMore(Down, word, 8, 8);
    DownEight(word);
    DownEight(word >> 8);
    DownEight(word >> 8 >> 8);
    ThreeBytes(word);
  }

  lemma ThreeBytes(word: bv32)
    ensures word >> 8 >> 8 >> 8 == word >> 24
  {}

  lemma DownSeven(x: bv32)
    ensures Iterate(Down, x, 7) == x >> 7
  {
    IterateSeven(Down, x);
    SevenShifts(x);
  }

  lemma SevenShifts(x: bv32)
    ensures x >> 1 >> 1 >> 1 >> 1 >> 1 >> 1 >> 1 == x >> 7
  {}

  lemma LastBit(word: bv32)
    ensures word >> 24 >> 7 == word >> 31
  {}

  lemma TopBitClear(word: bv32, count: nat)
    requires count <= 31 && Iterate(Down, word, count) == 0
    ensures word >> 31 == 0
  {
    IterateMore(Down, word, count, 31 - count);
    DownZero(31 - count);
    IterateMore(Down, word, 24, 7);
    DownTwentyFour(word);
    DownSeven(word >> 24);
    LastBit(word);
  }

  lemma {:induction false} PackDrains(bits: seq<bool>)
    requires |bits| <= 32
    ensures Drain(LowBit, Down, Pack(bits), |bits|) == bits
    ensures Iterate(Down, Pack(bits), |bits|) == 0
    decreases |bits|
  {
    if bits != [] {
      PackDrains(bits[1..]);
      TopBitClear(Pack(bits[1..]), |bits| - 1);
      AppendBit(Pack(bits[1..]), bits[0]);
      DrainStep(LowBit, Down, Pack(bits), Pack(bits[1..]), bits);
    }
  }

  lemma BurstFeeds(register: bv32, bits: seq<bool>)
    requires |bits| <= 32
    ensures Feed(DivideBit, register, bits) == Iterate(Shift, Xor(register, Pack(bits)), |bits|)
  {
    PackDrains(bits);
    ShiftsFeed(register, Pack(bits), |bits|);
    XorZero(Feed(DivideBit, register, bits));
  }

  lemma XorCancel(register: bv32, a: bv32, b: bv32)
    requires Xor(register, a) == Xor(register, b)
    ensures a == b
  {}

  lemma BurstInjective(register: bv32, x: seq<bool>, y: seq<bool>)
    requires |x| == |y| <= 32
    requires Feed(DivideBit, register, x) == Feed(DivideBit, register, y)
    ensures x == y
  {
    BurstFeeds(register, x);
    BurstFeeds(register, y);
    ShiftsInjective(Xor(register, Pack(x)), Xor(register, Pack(y)), |x|);
    XorCancel(register, Pack(x), Pack(y));
    PackDrains(x);
    PackDrains(y);
  }

  /** Two messages whose bits differ only inside one window of 32 bits, at any
      bit position, never share a checksum. */
  lemma DetectsBursts(a: seq<Byte>, b: seq<Byte>, before: seq<bool>, x: seq<bool>, y: seq<bool>, after: seq<bool>)
    requires |x| == |y| <= 32 && x != y
    requires MessageBits(a) == before + x + after
    requires MessageBits(b) == before + y + after
    ensures BitSerialCrc(a) != BitSerialCrc(b)
  {
    FeedConcat(DivideBit, ALL_ONES, before, x);
    FeedConcat(DivideBit, ALL_ONES, before, y);
    FeedConcat(DivideBit, ALL_ONES, before + x, after);
    FeedConcat(DivideBit, ALL_ONES, before + y, after);
    if Register(a) == Register(b) {
      FeedInjective(Feed(DivideBit, ALL_ONES, before + x), Feed(DivideBit, ALL_ONES, before + y), after);
      BurstInjective(Feed(DivideBit, ALL_ONES, before), x, y);
    }
  }

  lemma NumbersTell(x: bv32, y: bv32)
    requires x as int == y as int
    ensures x == y
  {
    assert (x as int) as bv32 == x;
    assert (y as int) as bv32 == y;
  }

  /** So does the number that the archive's headers store. */
  lemma StoredDetectsBursts(a: seq<Byte>, b: seq<Byte>, before: seq<bool>, x: seq<bool>, y: seq<bool>,
      after: seq<bool>)
    requires |x| == |y| <= 32 && x != y
    requires MessageBits(a) == before + x + after
    requires MessageBits(b) == before + y + after
    ensures Value(a) != Value(b)
  {
    DetectsBursts(a, b, before, x, y, after);
    if Value(a) == Value(b) {
      NumbersTell(BitSerialCrc(a), BitSerialCrc(b));
    }
  }
}
