/**
 The checksum of rpc/src/tinypb_codec.cc: CRC-32 by table, against the shift register of section 8
 of RFC 1952, which takes one bit at a time.
 */
module Crc32 {

  import opened NetworkOrder

  // The generator polynomial, lowest power in the highest bit.
  const POLY: bv32 := 0xEDB88320
  const ONES: bv32 := 0xFFFFFFFF

  // A byte in a register, and the low end of a register as a byte.
  function Wide(b: Byte): bv32 {
    b as bv32
  }

  function Low(c: bv32): Byte {
    Range((c & 0xFF) as bv8);
    ((c & 0xFF) as bv8) as int
  }

  lemma Range(b: bv8)
    ensures 0 <= b as int < 256
  {
  }

  lemma WideThere(b: bv8)
    ensures (b as int) as bv32 == b as bv32
  {
    assert (b as int) as bv8 == b;
    ThroughByte(b as int);
  }

  lemma ThroughByte(k: int)
    requires 0 <= k < 256
    ensures (k as bv8) as bv32 == k as bv32 && (k as bv8) as int == k
  {
  }

  lemma WideOfLow(c: bv32)
    ensures Wide(Low(c)) == c & 0xFF
  {
    Range((c & 0xFF) as bv8);
    WideThere((c & 0xFF) as bv8);
  }

  lemma LowOfWide(b: Byte)
    ensures Wide(b) & 0xFF == Wide(b) && Low(Wide(b)) == b
  {
    ThroughByte(b);
    Masked(b as bv8);
  }

  lemma Masked(b: bv8)
    ensures (b as bv32) & 0xFF == b as bv32 && ((b as bv32) & 0xFF) as bv8 == b
  {
  }

  /* ---------- one bit at a time ---------- */

  function Shift(c: bv32): bv32 {
    if c & 1 == 1 then POLY ^ (c >> 1) else c >> 1
  }

  // The register takes a bit.
  function Feed(c: bv32, bit: bool): bv32 {
    Shift(c ^ (if bit then 1 else 0))
  }

  function Register(c: bv32, bits: seq<bool>): bv32
    decreases |bits|
  {
    if bits == [] then c else Register(Feed(c, bits[0]), bits[1..])
  }

  // The `n` lowest bits, lowest first.
  function LowBits(x: bv32, n: nat): seq<bool> {
    if n == 0 then [] else [x & 1 == 1] + LowBits(x >> 1, n - 1)
  }

  function Bits(data: seq<Byte>): seq<bool> {
    if data == [] then [] else LowBits(Wide(data[0]), 8) + Bits(data[1..])
  }

  function Complement(c: bv32): bv32 {
    c ^ ONES
  }

  function Checksum(data: seq<Byte>): bv32 {
    Complement(Register(ONES, Bits(data)))
  }

  /* ---------- one byte at a time ---------- */

  function Shifts(c: bv32, n: nat): bv32
    decreases n
  {
    if n == 0 then c else Shifts(Shift(c), n - 1)
  }

  // What the table holds for index `i`.
  function Entry(i: bv32): bv32 {
    Shifts(i, 8)
  }

  // entry ^ (crc >> 8)
  function Fold(entry: bv32, c: bv32): bv32 {
    entry ^ (c >> 8)
  }

  // One step of the loop in crc32.
  function ByTable(c: bv32, b: Byte): bv32 {
    Fold(Entry((c ^ Wide(b)) & 0xFF), c)
  }

  function ByTables(c: bv32, data: seq<Byte>): bv32
    decreases |data|
  {
    if data == [] then c else ByTables(ByTable(c, data[0]), data[1..])
  }

  lemma ShiftXor(a: bv32, b: bv32)
    ensures Shift(a ^ b) == Shift(a) ^ Shift(b)
  {
    ShrXor(a, b);
    LowXor(a, b);
    LowBit(a);
    LowBit(b);
    Regroup(POLY, a >> 1, b >> 1);
  }

  lemma ShrXor(a: bv32, b: bv32)
    ensures (a ^ b) >> 1 == (a >> 1) ^ (b >> 1)
  {
  }

  lemma LowXor(a: bv32, b: bv32)
    ensures (a ^ b) & 1 == (a & 1) ^ (b & 1)
  {
  }

  lemma LowBit(a: bv32)
    ensures a & 1 == 0 || a & 1 == 1
  {
  }

  lemma Regroup(p: bv32, x: bv32, y: bv32)
    ensures p ^ (x ^ y) == (p ^ x) ^ y && p ^ (x ^ y) == x ^ (p ^ y) && (p ^ x) ^ (p ^ y) == x ^ y
  {
  }

  // Exclusive or, kept apart where only its laws matter.
  function Xor(a: bv32, b: bv32): bv32 {
    a ^ b
  }

  lemma ShiftOfXor(a: bv32, b: bv32)
    ensures Shift(Xor(a, b)) == Xor(Shift(a), Shift(b))
  {
    ShiftXor(a, b);
  }

  lemma {:induction false} ShiftsXor(a: bv32, b: bv32, n: nat)
    ensures Shifts(Xor(a, b), n) == Xor(Shifts(a, n), Shifts(b, n))
    decreases n
  {
    if n > 0 {
      ShiftOfXor(a, b);
      ShiftsXor(Shift(a), Shift(b), n - 1);
      hide Xor, Shift;
    }
  }

  lemma ShiftParts(cx: bv32, d: bv32, doubled: bv32, h: bv32)
    requires cx == Xor(d, doubled) && Shift(doubled) == h
    ensures Shift(cx) == Xor(Shift(d), h)
  {
    ShiftOfXor(d, doubled);
    hide Shift, Xor;
  }

  lemma FeedIs(c: bv32, x: bv32, bit: bv32)
    requires bit == if x & 1 == 1 then 1 else 0
    ensures Feed(c, x & 1 == 1) == Shift(c ^ bit)
  {
    hide Shift;
  }

  lemma XorParts(c: bv32, x: bv32, bit: bv32)
    requires bit == if x & 1 == 1 then 1 else 0
    ensures Xor(c, x) == Xor(c ^ bit, (x >> 1) << 1)
  {
    SplitLow(c, x, bit);
  }

  lemma FeedRest(c: bv32, x: bv32)
    ensures Shift(Xor(c, x)) == Xor(Feed(c, x & 1 == 1), x >> 1)
  {
    hide *;
    var bit: bv32 := if x & 1 == 1 then 1 else 0;
    FeedIs(c, x, bit);
    XorParts(c, x, bit);
    Doubled(x >> 1, x);
    ShiftParts(Xor(c, x), c ^ bit, (x >> 1) << 1, x >> 1);
  }

  // Taking the bits one by one is the same as taking them all and then shifting.
  lemma {:induction false} RegisterIsShifts(c: bv32, x: bv32, n: nat)
    requires Fits(x, n)
    ensures Register(c, LowBits(x, n)) == Shifts(Xor(c, x), n)
    decreases n
  {
    if n == 0 {
      assert c ^ 0 == c;
    } else {
      FeedRest(c, x);
      RegisterIsShifts(Feed(c, x & 1 == 1), x >> 1, n - 1);
      hide Shift, Feed, Xor;
      assert LowBits(x, n)[1..] == LowBits(x >> 1, n - 1);
    }
  }

  predicate Fits(x: bv32, n: nat) {
    if n == 0 then x == 0 else Fits(x >> 1, n - 1)
  }

  lemma SplitLow(c: bv32, x: bv32, bit: bv32)
    requires bit == if x & 1 == 1 then 1 else 0
    ensures c ^ x == (c ^ bit) ^ ((x >> 1) << 1)
  {
    LowBit(x);
    assert bit == x & 1;
    assert x == (x & 1) ^ ((x >> 1) << 1);
  }

  lemma Doubled(h: bv32, x: bv32)
    requires h == x >> 1
    ensures Shift(h << 1) == h
  {
    assert (h << 1) & 1 == 0;
    assert (h << 1) >> 1 == h;
  }

  lemma ByteFits(b: Byte)
    ensures Fits(Wide(b), 8)
  {
    LowOfWide(b);
    hide Wide;
    SmallFits(Wide(b));
  }

  lemma SmallFits(x: bv32)
    requires x & 0xFF == x
    ensures Fits(x, 8)
  {
    assert x >> 1 >> 1 >> 1 >> 1 >> 1 >> 1 >> 1 >> 1 == 0;
    assert Fits(x >> 1 >> 1 >> 1 >> 1 >> 1 >> 1 >> 1 >> 1, 0);
    assert Fits(x >> 1 >> 1 >> 1 >> 1 >> 1 >> 1 >> 1, 1);
    assert Fits(x >> 1 >> 1 >> 1 >> 1 >> 1 >> 1, 2);
    assert Fits(x >> 1 >> 1 >> 1 >> 1 >> 1, 3);
    assert Fits(x >> 1 >> 1 >> 1 >> 1, 4);
    assert Fits(x >> 1 >> 1 >> 1, 5);
    assert Fits(x >> 1 >> 1, 6);
    assert Fits(x >> 1, 7);
  }

  lemma BitsOfByte(c: bv32, b: Byte)
    ensures Register(c, LowBits(Wide(b), 8)) == Entry(Xor(c, Wide(b)))
  {
    ByteFits(b);
    RegisterIsShifts(c, Wide(b), 8);
  }

  // With its eight lowest bits clear, the register just moves.
  lemma HighPart(y: bv32)
    requires y & 0xFF == 0
    ensures Entry(y) == y >> 8
  {
    var y1, y2, y3, y4 := y >> 1, y >> 2, y >> 3, y >> 4;
    var y5, y6, y7, y8 := y >> 5, y >> 6, y >> 7, y >> 8;
    assert Shift(y) == y1 && Shift(y1) == y2 && Shift(y2) == y3 && Shift(y3) == y4;
    assert Shift(y4) == y5 && Shift(y5) == y6 && Shift(y6) == y7 && Shift(y7) == y8;
    hide Shift;
    assert Shifts(y7, 1) == y8 by { assert Shifts(y8, 0) == y8; }
    assert Shifts(y6, 2) == y8;
    assert Shifts(y5, 3) == y8;
    assert Shifts(y4, 4) == y8;
    assert Shifts(y3, 5) == y8;
    assert Shifts(y2, 6) == y8;
    assert Shifts(y1, 7) == y8;
  }

  // The step by table is the eight steps of the register.
  lemma TableStep(c: bv32, b: Byte)
    ensures ByTable(c, b) == Register(c, LowBits(Wide(b), 8))
  {
    hide *;
    var d := Xor(c, Wide(b));
    var low, high := d & 0xFF, d & 0xFFFFFF00;
    LowOfWide(b);
    Halves(c, Wide(b), d, low, high);
    EntryXor(low, high);
    HighPart(high);
    BitsOfByte(c, b);
    TableIs(c, b, low);
  }

  lemma Halves(c: bv32, w: bv32, d: bv32, low: bv32, high: bv32)
    requires w & 0xFF == w && d == Xor(c, w) && low == d & 0xFF && high == d & 0xFFFFFF00
    ensures d == Xor(low, high) && high & 0xFF == 0 && high >> 8 == c >> 8
  {
  }

  lemma EntryXor(low: bv32, high: bv32)
    ensures Entry(Xor(low, high)) == Xor(Entry(low), Entry(high))
  {
    ShiftsXor(low, high, 8);
    hide Shifts;
  }

  lemma TableIs(c: bv32, b: Byte, low: bv32)
    requires low == Xor(c, Wide(b)) & 0xFF
    ensures ByTable(c, b) == Xor(Entry(low), c >> 8)
  {
    hide Entry, Wide;
    assert (c ^ Wide(b)) & 0xFF == low;
  }

  lemma {:induction false} RegisterJoins(c: bv32, a: seq<bool>, b: seq<bool>)
    ensures Register(c, a + b) == Register(Register(c, a), b)
    decreases |a|
  {
    if a == [] {
      assert a + b == b;
    } else {
      assert (a + b)[1..] == a[1..] + b;
      RegisterJoins(Feed(c, a[0]), a[1..], b);
    }
  }

  // The loop by table computes the register over all the bits.
  lemma {:induction false} TablesAreBits(c: bv32, data: seq<Byte>)
    ensures ByTables(c, data) == Register(c, Bits(data))
    decreases |data|
  {
    if data != [] {
      TableStep(c, data[0]);
      RegisterJoins(c, LowBits(Wide(data[0]), 8), Bits(data[1..]));
      TablesAreBits(ByTable(c, data[0]), data[1..]);
      hide ByTable, Feed, LowBits;
    }
  }

  lemma {:induction false} ByTablesJoin(c: bv32, a: seq<Byte>, b: seq<Byte>)
    ensures ByTables(c, a + b) == ByTables(ByTables(c, a), b)
    decreases |a|
  {
    hide ByTable;
    if a == [] {
      assert a + b == b;
    } else {
      assert (a + b)[1..] == a[1..] + b;
      ByTablesJoin(ByTable(c, a[0]), a[1..], b);
    }
  }

  /* ---------- no two registers meet again ---------- */

  function Unshift(d: bv32): bv32 {
    if d & 0x80000000 != 0 then ((d ^ POLY) << 1) | 1 else d << 1
  }

  lemma ShiftUndone(c: bv32)
    ensures Unshift(Shift(c)) == c
  {
  }

  lemma {:induction false} ShiftsInjective(a: bv32, b: bv32, n: nat)
    requires Shifts(a, n) == Shifts(b, n)
    ensures a == b
    decreases n
  {
    if n > 0 {
      ShiftsInjective(Shift(a), Shift(b), n - 1);
      ShiftUndone(a);
      ShiftUndone(b);
      hide Shift, Unshift;
    }
  }

  // The same byte keeps different registers different; a different byte makes equal ones differ.
  lemma StepInjective(c: bv32, d: bv32, a: Byte, b: Byte)
    requires ByTable(c, a) == ByTable(d, b)
    ensures a == b <==> c == d
  {
    TableStep(c, a);
    TableStep(d, b);
    BitsOfByte(c, a);
    BitsOfByte(d, b);
    hide ByTable;
    ShiftsInjective(Xor(c, Wide(a)), Xor(d, Wide(b)), 8);
    hide Shifts;
    XorInjective(c, d, a, b);
  }

  lemma XorInjective(c: bv32, d: bv32, a: Byte, b: Byte)
    requires Xor(c, Wide(a)) == Xor(d, Wide(b))
    ensures a == b <==> c == d
  {
    hide *;
    if c == d {
      Cancel(c, Wide(a), Wide(b));
      LowOfWide(a);
      LowOfWide(b);
    } else if a == b {
      Cancel(Wide(a), c, d);
    }
  }

  lemma Cancel(x: bv32, y: bv32, z: bv32)
    requires Xor(x, y) == Xor(x, z) || Xor(y, x) == Xor(z, x)
    ensures y == z
  {
  }

  lemma {:induction false} TablesInjective(c: bv32, d: bv32, data: seq<Byte>)
    requires ByTables(c, data) == ByTables(d, data)
    ensures c == d
    decreases |data|
  {
    hide ByTable;
    if data != [] {
      TablesInjective(ByTable(c, data[0]), ByTable(d, data[0]), data[1..]);
      StepInjective(c, d, data[0], data[0]);
    }
  }

  // One changed byte always changes the checksum.
  lemma OneByteShows(front: seq<Byte>, a: Byte, b: Byte, back: seq<Byte>)
    requires a != b
    ensures Checksum(front + [a] + back) != Checksum(front + [b] + back)
  {
    hide *;
    var c := ByTables(ONES, front);
    Split(front, a, back);
    Split(front, b, back);
    if Checksum(front + [a] + back) == Checksum(front + [b] + back) {
      ComplementInjective(ByTables(ByTable(c, a), back), ByTables(ByTable(c, b), back));
      TablesInjective(ByTable(c, a), ByTable(c, b), back);
      StepInjective(c, c, a, b);
    }
  }

  lemma Split(front: seq<Byte>, a: Byte, back: seq<Byte>)
    ensures Checksum(front + [a] + back) == Complement(ByTables(ByTable(ByTables(ONES, front), a), back))
  {
    TablesAreBits(ONES, front + [a] + back);
    hide ByTable, Register, ByTables, Complement;
    ByTablesJoin(ONES, front + [a], back);
    ByTablesJoin(ONES, front, [a]);
    OneStep(ByTables(ONES, front), a);
  }

  lemma OneStep(c: bv32, a: Byte)
    ensures ByTables(c, [a]) == ByTable(c, a)
  {
    hide ByTable;
    assert ByTables(ByTable(c, a), []) == ByTable(c, a);
  }

  lemma ComplementInjective(c: bv32, d: bv32)
    requires Complement(c) == Complement(d)
    ensures c == d
  {
  }

  /* ---------- the program ---------- */

  function ByteEntry(k: Byte): bv32 {
    Entry(Wide(k))
  }

  // (crc ^ data[i]) & 0xFF
  function Index(c: bv32, b: Byte): Byte {
    Low(c ^ Wide(b))
  }

  // crc32_table and the flag that says it was filled.
  class Table {
    var entries: array<bv32>
    var initialized: bool

    constructor ()
      ensures Valid() && fresh(entries)
    {
      entries := new bv32[256];
      initialized := false;
    }

    ghost predicate Valid()
      reads this, entries
    {
      entries.Length == 256 && (initialized ==> FilledTo(256))
    }

    ghost predicate FilledTo(n: int)
      reads this, entries
    {
      entries.Length == 256 && forall i :: 0 <= i < 256 && i < n ==> entries[i] == ByteEntry(i)
    }

    // init_crc32_table
    method Init()
      requires Valid()
      modifies entries
      ensures FilledTo(256)
    {
      hide Entry, Shift, Wide;
      for i := 0 to 256
        invariant FilledTo(i)
      {
        var crc := Wide(i);
        EntryIs(i);
        for j := 0 to 8
          invariant FilledTo(i)
          invariant Shifts(crc, 8 - j) == ByteEntry(i)
        {
          ShiftsOnce(crc, 8 - j);
          crc := if crc & 1 == 1 then POLY ^ (crc >> 1) else crc >> 1;
        }
        entries[i] := crc;
      }
    }

    // crc32
    method Crc(data: seq<Byte>) returns (crc: bv32)
      requires Valid()
      modifies this`initialized, entries
      ensures Valid() && crc == Checksum(data)
    {
      hide ByteEntry, ByTable, Complement, Register, Index, Fold;
      if !initialized {
        Init();
        initialized := true;
      }
      crc := ONES;
      for i := 0 to |data|
        invariant initialized && FilledTo(256) && ByTables(crc, data[i..]) == ByTables(ONES, data)
      {
        assert data[i..][0] == data[i] && data[i..][1..] == data[i + 1..];
        Lookup(crc, data[i]);
        crc := Fold(entries[Index(crc, data[i])], crc);
      }
      TablesAreBits(ONES, data);
      crc := Complement(crc);
    }
  }

  lemma EntryIs(k: Byte)
    ensures ByteEntry(k) == Shifts(Wide(k), 8)
  {
  }

  lemma ShiftsOnce(c: bv32, n: nat)
    requires n > 0
    ensures Shifts(c, n) == Shifts(if c & 1 == 1 then POLY ^ (c >> 1) else c >> 1, n - 1)
  {
  }

  lemma Lookup(c: bv32, b: Byte)
    ensures ByTable(c, b) == Fold(ByteEntry(Index(c, b)), c)
  {
    EntryOfLow(c ^ Wide(b));
    hide Entry, Wide, Low, ByteEntry;
  }

  lemma EntryOfLow(x: bv32)
    ensures ByteEntry(Low(x)) == Entry(x & 0xFF)
  {
    WideOfLow(x);
    hide Entry, Wide, Low;
  }

  /* ---------- a checksum that is known ---------- */

  lemma TableOn(c: bv32, b: Byte, rest: seq<Byte>, d: bv32)
    requires ByTable(c, b) == d
    ensures ByTables(c, [b] + rest) == ByTables(d, rest)
  {
    assert ([b] + rest)[1..] == rest;
  }

  lemma CheckSteps0()
    ensures ByTable(0xFFFFFFFF, 0x31) == 0x7C231048
    ensures ByTable(0x7C231048, 0x32) == 0xB0ACBB32
    ensures ByTable(0xB0ACBB32, 0x33) == 0x77B79C2D
  {
  }

  lemma CheckSteps1()
    ensures ByTable(0x77B79C2D, 0x34) == 0x641C1F5C
    ensures ByTable(0x641C1F5C, 0x35) == 0x340AC5E3
    ensures ByTable(0x340AC5E3, 0x36) == 0xF68D2C9E
  {
  }

  lemma CheckSteps2()
    ensures ByTable(0xF68D2C9E, 0x37) == 0xAFFC9660
    ensures ByTable(0xAFFC9660, 0x38) == 0x651F2550
    ensures ByTable(0x651F2550, 0x39) == 0x340BC6D9
  {
  }

  // The check value of the code: what it gives for the digits 1 to 9.
  lemma CheckValue()
    ensures Checksum([0x31, 0x32, 0x33, 0x34, 0x35, 0x36, 0x37, 0x38, 0x39]) == 0xCBF43926
  {
    CheckSteps0();
    CheckSteps1();
    CheckSteps2();
    hide Register, Bits, ByTable, ByTables, Wide;
    TableOn(0xFFFFFFFF, 0x31, [0x32, 0x33, 0x34, 0x35, 0x36, 0x37, 0x38, 0x39], 0x7C231048);
    assert [0x31] + [0x32, 0x33, 0x34, 0x35, 0x36, 0x37, 0x38, 0x39]
      == [0x31, 0x32, 0x33, 0x34, 0x35, 0x36, 0x37, 0x38, 0x39];
    TableOn(0x7C231048, 0x32, [0x33, 0x34, 0x35, 0x36, 0x37, 0x38, 0x39], 0xB0ACBB32);
    assert [0x32] + [0x33, 0x34, 0x35, 0x36, 0x37, 0x38, 0x39] == [0x32, 0x33, 0x34, 0x35, 0x36, 0x37, 0x38, 0x39];
    TableOn(0xB0ACBB32, 0x33, [0x34, 0x35, 0x36, 0x37, 0x38, 0x39], 0x77B79C2D);
    assert [0x33] + [0x34, 0x35, 0x36, 0x37, 0x38, 0x39] == [0x33, 0x34, 0x35, 0x36, 0x37, 0x38, 0x39];
    TableOn(0x77B79C2D, 0x34, [0x35, 0x36, 0x37, 0x38, 0x39], 0x641C1F5C);
    assert [0x34] + [0x35, 0x36, 0x37, 0x38, 0x39] == [0x34, 0x35, 0x36, 0x37, 0x38, 0x39];
    TableOn(0x641C1F5C, 0x35, [0x36, 0x37, 0x38, 0x39], 0x340AC5E3);
    assert [0x35] + [0x36, 0x37, 0x38, 0x39] == [0x35, 0x36, 0x37, 0x38, 0x39];
    TableOn(0x340AC5E3, 0x36, [0x37, 0x38, 0x39], 0xF68D2C9E);
    assert [0x36] + [0x37, 0x38, 0x39] == [0x36, 0x37, 0x38, 0x39];
    TableOn(0xF68D2C9E, 0x37, [0x38, 0x39], 0xAFFC9660);
    assert [0x37] + [0x38, 0x39] == [0x37, 0x38, 0x39];
    TableOn(0xAFFC9660, 0x38, [0x39], 0x651F2550);
    assert [0x38] + [0x39] == [0x38, 0x39];
    TableOn(0x651F2550, 0x39, [], 0x340BC6D9);
    assert [0x39] + [] == [0x39];
    TablesAreBits(ONES, [0x31, 0x32, 0x33, 0x34, 0x35, 0x36, 0x37, 0x38, 0x39]);
    NoMore(0x340BC6D9);
  }

  lemma NoMore(c: bv32)
    ensures ByTables(c, []) == c
  {
  }
}
