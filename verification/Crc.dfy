/** CRC-32 by tables, against the bit-by-bit definition (section 8 of RFC 1952). */
module Crcs {

  const POLY: bv32 := 0xEDB88320
  const INIT_VAL: bv32 := 0xFFFF_FFFF
  const NUM_TABLES := 8

  function Xor(a: bv32, b: bv32): bv32 { a ^ b }

  function Half(a: bv32): bv32 { a >> 1 }

  function LowBit(a: bv32): bv32 { a & 1 }

  function Wide(b: bv8): bv32 { b as bv32 }

  function Low8(a: bv32): bv32 { a & 0xFF }

  function Down8(a: bv32): bv32 { a >> 8 }

  // ---- Bit by bit ----

  /** One bit of the message. Numbers are reflected: the low bit is the coefficient of the highest power. */
  function Bit(crc: bv32, bit: bv32): bv32 {
    if (crc ^ bit) & 1 == 1 then (crc >> 1) ^ POLY else crc >> 1
  }

  /** A byte after its first `n` bits were shifted out, low bit first. */
  function Shifted(b: bv8, n: nat): bv32 {
    if n == 0 then Wide(b) else Half(Shifted(b, n - 1))
  }

  /** The first `n` bits of a byte. */
  function Bits(crc: bv32, b: bv8, n: nat): bv32 {
    if n == 0 then crc else Bit(Bits(crc, b, n - 1), LowBit(Shifted(b, n - 1)))
  }

  /** A whole message. */
  function Message(crc: bv32, data: seq<bv8>): bv32 {
    if data == [] then crc else Bits(Message(crc, data[..|data| - 1]), data[|data| - 1], 8)
  }

  /** The checksum of a message. */
  function Checksum(data: seq<bv8>): bv32 {
    Message(INIT_VAL, data) ^ 0xFFFF_FFFF
  }

  /** A message may be processed in parts. */
  lemma {:induction false} MessageParts(crc: bv32, a: seq<bv8>, b: seq<bv8>)
    ensures Message(crc, a + b) == Message(Message(crc, a), b)
  {
    if b == [] {
      assert a + b == a;
    } else {
      MessageParts(crc, a, b[..|b| - 1]);
      assert (a + b)[..|a + b| - 1] == a + b[..|b| - 1];
    }
  }

  // ---- Bit steps of the table ----

  /** The loop body that fills the table. */
  function Step(r: bv32): bv32 {
    (r >> 1) ^ (POLY & !((r & 1) - 1))
  }

  /** `n` bit steps. */
  function Advance(r: bv32, n: nat): bv32 {
    if n == 0 then r else Step(Advance(r, n - 1))
  }

  lemma {:induction false} AdvanceMore(r: bv32, m: nat, n: nat)
    ensures Advance(r, m + n) == Advance(Advance(r, m), n)
  {
    if n > 0 {
      AdvanceMore(r, m, n - 1);
    }
  }

  function Step8(r: bv32): bv32 {
    Step(Step(Step(Step(Step(Step(Step(Step(r))))))))
  }

  lemma EightSteps(r: bv32)
    ensures Advance(r, 8) == Step8(r)
  {
    hide Step;
    assert Advance(r, 1) == Step(r) && Advance(r, 2) == Step(Step(r));
    assert Advance(r, 4) == Step(Step(Step(Step(r))));
    assert Advance(r, 6) == Step(Step(Step(Step(Step(Step(r))))));
  }

  /** Eight steps only look at the low byte; the others move down. */
  lemma LowByte(x: bv32)
    ensures Step8(x) == Xor(Step8(Low8(x)), Down8(x))
  {
    RawLowByte(x);
  }

  lemma RawLowByte(x: bv32)
    ensures Step8(x) == Step8(x & 0xFF) ^ (x >> 8)
  {
  }

  /** A step in two cases. */
  lemma StepIs(r: bv32)
    ensures Step(r) == if r & 1 == 1 then (r >> 1) ^ POLY else r >> 1
  {
    Mask(r & 1);
    AllOrNone(POLY);
    XorZero(r >> 1);
  }

  lemma Mask(b: bv32)
    requires b & 1 == b
    ensures !(b - 1) == if b == 1 then 0xFFFF_FFFF else 0
  {
  }

  lemma AllOrNone(p: bv32)
    ensures p & 0xFFFF_FFFF == p && p & 0 == 0
  {
  }

  lemma XorZero(x: bv32)
    ensures x ^ 0 == x
  {
  }

  lemma SameLowBit(c: bv32, s: bv32)
    ensures (c ^ (s & 1)) & 1 == (c ^ s) & 1
  {
  }

  lemma XorHalves(c: bv32, s: bv32)
    ensures (c >> 1) ^ (s >> 1) == (c ^ s) >> 1
  {
  }

  lemma XorSwap(a: bv32, p: bv32, b: bv32)
    ensures (a ^ p) ^ b == (a ^ b) ^ p
  {
  }

  /** A bit of the message may be added to the register before the step. */
  lemma BitStep(crc: bv32, bits: bv32)
    ensures Xor(Bit(crc, LowBit(bits)), Half(bits)) == Step(Xor(crc, bits))
  {
    hide Step;
    StepIs(crc ^ bits);
    SameLowBit(crc, bits);
    XorHalves(crc, bits);
    XorSwap(crc >> 1, POLY, bits >> 1);
  }

  /** Bits, one after the other, are steps after the whole byte was added. */
  lemma {:induction false} BitsAdvance(crc: bv32, b: bv8, n: nat)
    ensures Xor(Bits(crc, b, n), Shifted(b, n)) == Advance(Xor(crc, Wide(b)), n)
  {
    hide Bit, Step, Xor, Half, LowBit, Wide;
    if n > 0 {
      BitsAdvance(crc, b, n - 1);
      BitStep(Bits(crc, b, n - 1), Shifted(b, n - 1));
    }
  }

  lemma ShiftedOut(b: bv8)
    ensures Shifted(b, 8) == 0
  {
    hide Half, Wide;
    var s := Wide(b);
    assert Shifted(b, 1) == Half(s) && Shifted(b, 2) == Half(Half(s));
    assert Shifted(b, 4) == Half(Half(Half(Half(s))));
    assert Shifted(b, 6) == Half(Half(Half(Half(Half(Half(s))))));
    Halves(b);
  }

  lemma Halves(b: bv8)
    ensures Half(Half(Half(Half(Half(Half(Half(Half(Wide(b))))))))) == 0
  {
  }

  /** What the macro CRC_UPDATE_BYTE computes, if the table is right. */
  function Updated(crc: bv32, b: bv8): bv32 {
    Xor(Step8(Low8(Xor(crc, Wide(b)))), Down8(crc))
  }

  /** One byte of the message, by table look-up. */
  lemma ByteStep(crc: bv32, b: bv8)
    ensures Bits(crc, b, 8) == Updated(crc, b)
  {
    hide Bits, Shifted, Advance, Step8, Xor, Wide, Low8, Down8;
    BitsAdvance(crc, b, 8);
    ShiftedOut(b);
    EightSteps(Xor(crc, Wide(b)));
    LowByte(Xor(crc, Wide(b)));
    HighBytes(crc, b);
    AddNothing(Bits(crc, b, 8));
  }

  lemma HighBytes(crc: bv32, b: bv8)
    ensures Down8(Xor(crc, Wide(b))) == Down8(crc)
  {
  }

  lemma AddNothing(x: bv32)
    ensures Xor(x, 0) == x
  {
    XorZero(x);
  }

  // ---- Which checksum it is ----

  /** The check value of CRC-32, the checksum of "123456789". It tells the polynomial and the two inversions from any
      others in use. */
  lemma CheckValue()
    ensures Checksum([0x31, 0x32, 0x33, 0x34, 0x35, 0x36, 0x37, 0x38, 0x39]) == 0xCBF4_3926
  {
    hide Updated, Message;
    MessageNothing(INIT_VAL);
    CheckBytes();
    var data: seq<bv8> := [0x31, 0x32, 0x33, 0x34, 0x35, 0x36, 0x37, 0x38, 0x39];
    assert data[..0] == [];
    NextByte(data, 0, 0xFFFFFFFF, 0x7C231048);
    NextByte(data, 1, 0x7C231048, 0xB0ACBB32);
    NextByte(data, 2, 0xB0ACBB32, 0x77B79C2D);
    NextByte(data, 3, 0x77B79C2D, 0x641C1F5C);
    NextByte(data, 4, 0x641C1F5C, 0x340AC5E3);
    NextByte(data, 5, 0x340AC5E3, 0xF68D2C9E);
    NextByte(data, 6, 0xF68D2C9E, 0xAFFC9660);
    NextByte(data, 7, 0xAFFC9660, 0x651F2550);
    NextByte(data, 8, 0x651F2550, 0x340BC6D9);
    assert data[..9] == data;
  }

  lemma MessageNothing(crc: bv32)
    ensures Message(crc, []) == crc
  {
  }

  lemma CheckBytes()
    ensures Updated(0xFFFFFFFF, 0x31) == 0x7C231048
    ensures Updated(0x7C231048, 0x32) == 0xB0ACBB32
    ensures Updated(0xB0ACBB32, 0x33) == 0x77B79C2D
    ensures Updated(0x77B79C2D, 0x34) == 0x641C1F5C
    ensures Updated(0x641C1F5C, 0x35) == 0x340AC5E3
    ensures Updated(0x340AC5E3, 0x36) == 0xF68D2C9E
    ensures Updated(0xF68D2C9E, 0x37) == 0xAFFC9660
    ensures Updated(0xAFFC9660, 0x38) == 0x651F2550
    ensures Updated(0x651F2550, 0x39) == 0x340BC6D9
  {
  }

  lemma NextByte(data: seq<bv8>, i: nat, before: bv32, after: bv32)
    requires i < |data| && Message(INIT_VAL, data[..i]) == before && Updated(before, data[i]) == after
    ensures Message(INIT_VAL, data[..i + 1]) == after
  {
    hide Updated, Bits;
    ByteStep(before, data[i]);
    assert data[..i + 1][..i] == data[..i];
  }

  // ---- The tables ----

  /** Entry `b` of table `k` is byte `b` advanced by 8 * (k + 1) bits. */
  ghost predicate Entry(table: seq<bv32>, k: nat, b: bv32) {
    0x100 * k + (b as nat) < |table| && table[0x100 * k + (b as nat)] == Advance(b, 8 * (k + 1))
  }

  /** The first `n` entries are right. */
  ghost predicate Filled(table: seq<bv32>, n: nat) {
    n <= |table| && forall k: nat, b: bv32 | Low8(b) == b && 0x100 * k + (b as nat) < n :: Entry(table, k, b)
  }

  lemma Low8Facts(x: bv32)
    ensures (Low8(x) as nat) < 0x100 && Low8(Low8(x)) == Low8(x)
  {
  }

  lemma NatAndBack(b: bv32)
    ensures (b as nat) as bv32 == b
  {
  }

  /** One more entry of the first table. */
  lemma FirstEntry(table: seq<bv32>, i: nat, r: bv32)
    requires Filled(table, i) && i < 0x100 && i < |table| && r == Advance(i as bv32, 8)
    ensures Filled(table[i := r], i + 1)
  {
    hide Advance, Low8;
    var table' := table[i := r];
    forall k: nat, b: bv32 | Low8(b) == b && 0x100 * k + (b as nat) < i + 1 ensures Entry(table', k, b) {
      NatAndBack(b);
      if 0x100 * k + (b as nat) < i { assert Entry(table, k, b); }
    }
  }

  /** An entry of a later table is the entry before it, advanced by one more byte with the first table. */
  lemma LaterEntry(table: seq<bv32>, i: nat, r: bv32)
    requires Filled(table, i) && 0x100 <= i < |table| && r == table[i - 0x100]
    ensures (Low8(r) as nat) < i && Filled(table[i := Xor(table[Low8(r) as nat], Down8(r))], i + 1)
  {
    hide Step8, Xor, Down8, Low8;
    Low8Facts(r);
    var x := Xor(table[Low8(r) as nat], Down8(r));
    assert Entry(table, 0, Low8(r));
    EightSteps(Low8(r)); EightSteps(r); LowByte(r);
    hide Advance;
    var table' := table[i := x];
    forall k: nat, b: bv32 | Low8(b) == b && 0x100 * k + (b as nat) < i + 1 ensures Entry(table', k, b) {
      if 0x100 * k + (b as nat) < i {
        assert Entry(table, k, b);
      } else {
        Low8Facts(b);
        assert Entry(table, k - 1, b);
        AdvanceMore(b, 8 * k, 8);
      }
    }
  }

  /** The loop that both versions of CrcGenerateTable have. */
  method FillFirst(table: array<bv32>)
    requires table.Length >= 0x100
    modifies table
    ensures Filled(table[..], 0x100)
  {
    hide Filled, Step8;
    NoneFilled(table[..]);
    for i := 0 to 0x100
      invariant Filled(table[..], i)
    {
      var r: bv32 := i as bv32;
      for j := 0 to 8
        invariant r == Advance(i as bv32, j) && Filled(table[..], i)
      {
        r := (r >> 1) ^ (POLY & !((r & 1) - 1));
      }
      FirstEntry(table[..], i, r);
      ghost var t := table[..];
      table[i] := r;
      assert table[..] == t[i := r];
    }
  }

  lemma NoneFilled(table: seq<bv32>)
    ensures Filled(table, 0)
  {
  }

  /** CrcGenerateTable with one table. */
  method GenerateTable(table: array<bv32>)
    requires table.Length == 0x100
    modifies table
    ensures Filled(table[..], table.Length)
  {
    FillFirst(table);
  }

  /** CrcGenerateTable with eight tables. */
  method GenerateTables(table: array<bv32>)
    requires table.Length == 0x100 * NUM_TABLES
    modifies table
    ensures Filled(table[..], table.Length)
  {
    hide Filled, Advance, Step8;
    FillFirst(table);
    for i := 0x100 to 0x100 * NUM_TABLES
      invariant Filled(table[..], i)
    {
      var r := table[i - 0x100];
      ghost var t := table[..];
      LaterEntry(t, i, r);
      table[i] := Xor(table[Low8(r) as int], Down8(r));
      assert table[..] == t[i := Xor(t[Low8(r) as nat], Down8(r))];
    }
  }

  // ---- The checksum by tables ----

  /** CRC_UPDATE_BYTE */
  function UpdateByte(table: seq<bv32>, crc: bv32, b: bv8): (r: bv32)
    requires Filled(table, 0x100)
    ensures r == Bits(crc, b, 8)
  {
    hide Advance, Step8, Xor, Down8, Low8, Bits, Wide;
    var x := Low8(Xor(crc, Wide(b)));
    Low8Facts(Xor(crc, Wide(b)));
    assert Entry(table, 0, x);
    EightSteps(x);
    ByteStep(crc, b);
    Xor(table[x as nat], Down8(crc))
  }

  /** CrcUpdate: continues a checksum with more data. */
  method CrcUpdate(table: array<bv32>, v0: bv32, data: seq<bv8>) returns (v: bv32)
    requires Filled(table[..], 0x100)
    ensures v == Message(v0, data)
  {
    hide Filled, Bits;
    v := v0;
    for i := 0 to |data|
      invariant v == Message(v0, data[..i])
    {
      assert data[..i + 1][..i] == data[..i];
      v := UpdateByte(table[..], v, data[i]);
    }
    assert data[..|data|] == data;
  }

  method CrcCalc(table: array<bv32>, data: seq<bv8>) returns (v: bv32)
    requires Filled(table[..], 0x100)
    ensures v == Checksum(data)
  {
    var u := CrcUpdate(table, INIT_VAL, data);
    v := u ^ 0xFFFF_FFFF;
  }
}
