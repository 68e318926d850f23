/** Sets of pieces as strings of bits, high bit first. */
module Bitfields {
  import opened Basics

  // ---- One byte ----

  function B(b: bool): nat {
    if b then 1 else 0
  }

  /** The low `n` bits of a number, the lowest last. `lookup_table` holds them for n == 8. */
  function Bits(x: nat, n: nat): (r: seq<bool>)
    ensures |r| == n
  {
    if n == 0 then [] else Bits(x / 2, n - 1) + [x % 2 == 1]
  }

  function Power(n: nat): (p: nat)
    ensures p > 0
  {
    if n == 0 then 1 else 2 * Power(n - 1)
  }

  /** The number with the given bits, as in `reverse_lookup_table`. */
  function Value(bits: seq<bool>): nat {
    if bits == [] then 0 else 2 * Value(bits[..|bits| - 1]) + B(bits[|bits| - 1])
  }

  lemma {:induction false} BitsOfValue(bits: seq<bool>)
    ensures Bits(Value(bits), |bits|) == bits && Value(bits) < Power(|bits|)
  {
    if bits != [] {
      BitsOfValue(bits[..|bits| - 1]);
      assert bits == bits[..|bits| - 1] + [bits[|bits| - 1]];
    }
  }

  lemma {:induction false} ValueOfBits(x: nat, n: nat)
    requires x < Power(n)
    ensures Value(Bits(x, n)) == x
  {
    if n > 0 {
      ValueOfBits(x / 2, n - 1);
      assert Bits(x, n)[..n - 1] == Bits(x / 2, n - 1);
    }
  }

  function ByteBits(x: byte): (r: seq<bool>)
    ensures |r| == 8
  {
    Bits(x as nat, 8)
  }

  function ByteOf(bits: seq<bool>): (x: byte)
    requires |bits| == 8
    ensures ByteBits(x) == bits
  {
    BitsOfValue(bits);
    assert Power(8) == 2 * 2 * 2 * 2 * Power(4) == 256;
    Value(bits) as byte
  }

  lemma ByteOfBits(x: byte)
    ensures ByteOf(ByteBits(x)) == x
  {
    assert Power(8) == 2 * 2 * 2 * 2 * Power(4) == 256;
    ValueOfBits(x as nat, 8);
  }

  /** `_int_to_booleans`: tests the high bit and shifts, eight times. */
  method MakeBooleans(x0: byte) returns (r: seq<bool>)
    ensures r == ByteBits(x0)
  {
    hide ByteBits, Power;
    r := [];
    var x: nat := x0 as nat;
    ByteBitAt(x0, 0);
    for i := 0 to 8
      invariant |r| == i && r == ByteBits(x0)[..i] && x == x0 as nat * Power(i) && Power(0) == 1
    {
      ByteBitAt(x0, i);
      r := r + [x / 0x80 % 2 == 1];
      x := 2 * x;
    }
  }

  lemma ByteBitAt(x: byte, i: nat)
    requires i < 8
    ensures ByteBits(x)[i] == (x as nat * Power(i) / 0x80 % 2 == 1)
    ensures x as nat * Power(i + 1) == 2 * (x as nat * Power(i)) && Power(0) == 1
  {
    hide Bits;
    ShiftedBit(x as nat, i);
  }

  lemma ShiftedBit(x: nat, i: nat)
    requires i < 8
    ensures Bits(x, 8)[i] == (x * Power(i) / 0x80 % 2 == 1)
  {
    hide Bits, Power;
    BitAt(x, 8, i);
    PowerSum(7 - i, i);
    PowerSeven();
    DivCancel(x, Power(7 - i), Power(i));
  }

  lemma PowerSeven()
    ensures Power(7) == 0x80
  {
  }

  lemma {:induction false} PowerSum(a: nat, b: nat)
    ensures Power(a) * Power(b) == Power(a + b)
  {
    if a > 0 {
      PowerSum(a - 1, b);
      assert 2 * Power(a - 1) * Power(b) == 2 * (Power(a - 1) * Power(b));
    }
  }

  lemma {:induction false} BitAt(x: nat, n: nat, i: nat)
    requires i < n
    ensures Bits(x, n)[i] == (x / Power(n - 1 - i) % 2 == 1)
  {
    if i < n - 1 {
      BitAt(x / 2, n - 1, i);
      DivDiv(x, Power(n - 2 - i));
    }
  }

  lemma DivIs(n: nat, d: nat, q: nat, r: nat)
    requires n == d * q + r && r < d
    ensures n / d == q
  {
    var k := q - n / d;
    assert d * q - d * (n / d) == d * k;
    Multiple(d, k);
  }

  lemma Multiple(d: int, k: int)
    requires d >= 0
    ensures k >= 1 ==> d * k >= d
    ensures k <= -1 ==> d * k <= -d
  {
  }

  lemma DivCancel(x: nat, a: nat, b: nat)
    requires a > 0 && b > 0
    ensures a * b > 0 && x * b / (a * b) == x / a
  {
    var q, r := x / a, x % a;
    assert x == a * q + r;
    Scaled(a, q, r, b);
    DivIs(x * b, a * b, q, r * b);
  }

  lemma Scaled(a: nat, q: nat, r: nat, b: nat)
    requires r < a && b > 0
    ensures (a * q + r) * b == (a * b) * q + r * b && r * b < a * b
  {
    assert (a * q) * b == (a * b) * q;
    Multiple(b, a - r);
    assert a * b - r * b == b * (a - r);
  }

  lemma DivDiv(x: nat, d: nat)
    requires d > 0
    ensures x / 2 / d == x / (2 * d)
  {
    var h := x / 2;
    var q, r := h / d, h % d;
    assert x == (2 * d) * q + (2 * r + x % 2) by {
      assert h == d * q + r;
      assert 2 * (d * q) == (2 * d) * q;
    }
    DivIs(x, 2 * d, q, 2 * r + x % 2);
  }

  // ---- Strings ----

  function Expand(s: Bytes): (r: seq<bool>)
    ensures |r| == 8 * |s|
  {
    if s == [] then [] else ByteBits(s[0]) + Expand(s[1..])
  }

  function Zeros(n: nat): (r: seq<bool>)
    ensures |r| == n && forall i | 0 <= i < n :: !r[i]
  {
    seq(n, _ => false)
  }

  /** Eight bits at a time, the last ones filled up with zeros. */
  function Pack(bits: seq<bool>): (s: Bytes)
    ensures 8 * (|s| - 1) < |bits| <= 8 * |s|
  {
    if bits == [] then []
    else if |bits| < 8 then [ByteOf(bits + Zeros(8 - |bits|))]
    else [ByteOf(bits[..8])] + Pack(bits[8..])
  }

  /** A bit string of `length` bits, or None if the string does not have the right number of bytes, or a spare bit
      set. */
  function Parse(length: nat, s: Bytes): Option<seq<bool>> {
    var extra := |s| * 8 - length;
    if extra < 0 || extra >= 8 then None
    else if Expand(s)[length..] != Zeros(extra) then None
    else Some(Expand(s)[..length])
  }

  lemma {:induction false} ExpandPack(bits: seq<bool>)
    ensures Expand(Pack(bits)) == bits + Zeros(8 * |Pack(bits)| - |bits|)
    decreases |bits|
  {
    hide ByteBits, ByteOf;
    var s := Pack(bits);
    if bits == [] {
      assert bits + Zeros(0) == [];
    } else if |bits| < 8 {
      assert s[1..] == [] && Expand(s) == ByteBits(s[0]) + [];
    } else {
      ExpandPack(bits[8..]);
      assert s[1..] == Pack(bits[8..]);
      Regroup(bits[..8], bits[8..], Zeros(8 * |s| - |bits|));
      assert bits[..8] + bits[8..] == bits;
    }
  }

  lemma {:induction false} PackExpand(s: Bytes, length: nat)
    requires 0 <= |s| * 8 - length < 8 && Expand(s)[length..] == Zeros(|s| * 8 - length)
    ensures Pack(Expand(s)[..length]) == s
    decreases |s|
  {
    hide ByteBits, ByteOf;
    if s != [] {
      var all, rest := Expand(s), Expand(s[1..]);
      var bits := all[..length];
      ByteOfBits(s[0]);
      assert all == ByteBits(s[0]) + rest;
      if length < 8 {
        assert s == [s[0]] && rest == [];
        assert bits + Zeros(8 - length) == all == ByteBits(s[0]);
      } else {
        assert bits[..8] == ByteBits(s[0]) && bits[8..] == rest[..length - 8] && rest[length - 8..] == all[length..];
        PackExpand(s[1..], length - 8);
        assert s == [s[0]] + s[1..];
      }
    }
  }

  /** Printing and parsing undo each other: exactly the strings that are printed are accepted. */
  lemma ParsePack(length: nat, s: Bytes, bits: seq<bool>)
    ensures Parse(length, s) == Some(bits) <==> |bits| == length && s == Pack(bits)
  {
    hide Expand, Pack, Zeros;
    if |bits| == length && s == Pack(bits) {
      ExpandPack(bits);
      var zeros := Zeros(8 * |s| - length);
      assert (bits + zeros)[..length] == bits && (bits + zeros)[length..] == zeros;
    }
    if Parse(length, s) == Some(bits) {
      PackExpand(s, length);
    }
  }

  /** What bit `i` of a byte is worth, the highest first. */
  function Weight(i: nat): nat {
    match i
    case 0 => 0x80 case 1 => 0x40 case 2 => 0x20 case 3 => 0x10
    case 4 => 0x08 case 5 => 0x04 case 6 => 0x02 case _ => 0x01
  }

  /** Bit `k` of the list is bit `k % 8` of byte `k / 8`, and the bits that are left over are zero. */
  ghost predicate HighFirst(bits: seq<bool>, s: Bytes) {
    && 8 * (|s| - 1) < |bits| <= 8 * |s|
    && forall k | 0 <= k < 8 * |s| :: (s[k / 8] as nat / Weight(k % 8) % 2 == 1) <==> k < |bits| && bits[k]
  }

  lemma PackIs(bits: seq<bool>, s: Bytes)
    ensures s == Pack(bits) <==> HighFirst(bits, s)
  {
    hide Pack, Expand;
    if s == Pack(bits) {
      ExpandPack(bits);
      forall k | 0 <= k < 8 * |s| ensures (s[k / 8] as nat / Weight(k % 8) % 2 == 1) <==> k < |bits| && bits[k] {
        ExpandAt(s, k);
      }
    }
    if HighFirst(bits, s) {
      forall k | 0 <= k < 8 * |s| ensures Expand(s)[k] <==> k < |bits| && bits[k] {
        ExpandAt(s, k);
      }
      assert Expand(s)[..|bits|] == bits && Expand(s)[|bits|..] == Zeros(8 * |s| - |bits|);
      PackExpand(s, |bits|);
    }
  }

  lemma {:induction false} ExpandAt(s: Bytes, k: nat)
    requires k < 8 * |s|
    ensures Expand(s)[k] <==> s[k / 8] as nat / Weight(k % 8) % 2 == 1
  {
    hide Weight;
    if k < 8 {
      BitAt(s[0] as nat, 8, k);
      WeightIs(k);
    } else {
      ExpandAt(s[1..], k - 8);
      assert s[1..][k / 8 - 1] == s[k / 8];
    }
  }

  lemma WeightIs(i: nat)
    requires i < 8
    ensures Weight(i) == Power(7 - i)
  {
    assert Power(3) == 8 && Power(7) == 2 * 2 * 2 * 2 * Power(3) && Power(6) == 2 * 2 * 2 * Power(3);
    assert Power(5) == 2 * 2 * Power(3) && Power(4) == 2 * Power(3);
  }

  // ---- The object ----

  /** How many bits are not set. */
  function Missing(bits: seq<bool>): (n: nat)
    ensures n <= |bits|
  {
    if bits == [] then 0 else Missing(bits[..|bits| - 1]) + B(!bits[|bits| - 1])
  }

  lemma {:induction false} MissingUpdate(bits: seq<bool>, i: nat, b: bool)
    requires i < |bits|
    ensures Missing(bits[i := b]) == Missing(bits) + B(bits[i]) - B(b)
  {
    var last := |bits| - 1;
    if i == last {
      assert bits[i := b][..last] == bits[..last];
    } else {
      MissingUpdate(bits[..last], i, b);
      assert bits[i := b][..last] == bits[..last][i := b];
    }
  }

  lemma {:induction false} NoneMissing(bits: seq<bool>)
    ensures Missing(bits) == 0 <==> forall i | 0 <= i < |bits| :: bits[i]
  {
    if bits != [] {
      NoneMissing(bits[..|bits| - 1]);
      assert forall i | 0 <= i < |bits| - 1 :: bits[..|bits| - 1][i] == bits[i];
    }
  }

  method CountMissing(bits: seq<bool>) returns (n: nat)
    ensures n == Missing(bits)
  {
    n := 0;
    for i := 0 to |bits|
      invariant n == Missing(bits[..i])
    {
      assert bits[..i + 1][..i] == bits[..i];
      if !bits[i] {
        n := n + 1;
      }
    }
    assert bits[..|bits|] == bits;
  }

  class Bitfield {
    const length: nat
    var bits: seq<bool>
    var numfalse: int

    ghost predicate Valid()
      reads this
    {
      |bits| == length && numfalse == Missing(bits)
    }

    constructor Of(bits: seq<bool>, numfalse: nat)
      requires numfalse == Missing(bits)
      ensures Valid() && this.bits == bits
    {
      length, this.bits, this.numfalse := |bits|, bits, numfalse;
    }

    constructor (length: nat)
      ensures Valid() && bits == seq(length, _ => false)
    {
      this.length, bits, numfalse := length, seq(length, _ => false), length;
      new;
      AllMissing(bits);
    }

    /** A bit field from a string; None for the ValueError. */
    static method FromString(length: nat, s: Bytes) returns (r: Option<Bitfield>)
      ensures r.Some? ==> fresh(r.value) && r.value.Valid() && r.value.length == length
      ensures (match r case None => None case Some(b) => Some(b.bits)) == Parse(length, s)
    {
      hide ByteBits, Zeros, Missing;
      var extra := |s| * 8 - length;
      if extra < 0 || extra >= 8 {
        return None;
      }
      var bits := [];
      assert s[0..] == s && [] + Expand(s) == Expand(s);
      for i := 0 to |s|
        invariant bits + Expand(s[i..]) == Expand(s)
      {
        assert s[i..][0] == s[i] && s[i..][1..] == s[i + 1..];
        Regroup(bits, ByteBits(s[i]), Expand(s[i + 1..]));
        bits := bits + ByteBits(s[i]);
      }
      assert bits + [] == bits;
      if extra > 0 {
        if bits[length..] != Zeros(extra) {
          return None;
        }
        bits := bits[..length];
      } else {
        assert bits[..length] == bits && bits[length..] == Zeros(0);
      }
      var n := CountMissing(bits);
      var b := new Bitfield.Of(bits, n);
      r := Some(b);
    }

    method Set(index: nat, val: bool)
      requires Valid() && index < length
      modifies this
      ensures Valid() && bits == old(bits)[index := val]
    {
      MissingUpdate(bits, index, val);
      numfalse := numfalse + B(bits[index]) - B(val);
      bits := bits[index := val];
    }

    predicate Complete()
      requires Valid()
      reads this
      ensures Complete() <==> forall i | 0 <= i < |bits| :: bits[i]
    {
      NoneMissing(bits);
      numfalse == 0
    }

    method ToString() returns (r: Bytes)
      requires Valid()
      ensures r == Pack(bits)
      ensures Parse(length, r) == Some(bits)
    {
      hide Value, Bits, ByteBits, ByteOf, Parse, Pack;
      ParsePack(length, Pack(bits), bits);
      r := [];
      var s := |bits| % 8;
      var x: nat := 0;
      assert bits[0..] == bits && [] + Pack(bits) == Pack(bits);
      while x < |bits| - s
        invariant x <= |bits| - s && (|bits| - s - x) % 8 == 0 && r + Pack(bits[x..]) == Pack(bits)
      {
        assert bits[x..][..8] == bits[x..x + 8] && bits[x..][8..] == bits[x + 8..];
        PackStep(bits[x..]);
        Regroup(r, [ByteOf(bits[x..x + 8])], Pack(bits[x + 8..]));
        r := r + [ByteOf(bits[x..x + 8])];
        x := x + 8;
      }
      PackStep(bits[x..]);
      if s != 0 {
        r := r + [ByteOf(bits[|bits| - s..] + Zeros(8 - s))];
      } else {
        assert r + [] == r;
      }
    }
  }

  lemma PackStep(bits: seq<bool>)
    ensures |bits| >= 8 ==> Pack(bits) == [ByteOf(bits[..8])] + Pack(bits[8..])
    ensures 0 < |bits| < 8 ==> Pack(bits) == [ByteOf(bits + Zeros(8 - |bits|))]
    ensures bits == [] ==> Pack(bits) == []
  {
  }

  lemma {:induction false} AllMissing(bits: seq<bool>)
    requires forall i | 0 <= i < |bits| :: !bits[i]
    ensures Missing(bits) == |bits|
  {
    if bits != [] {
      AllMissing(bits[..|bits| - 1]);
    }
  }
}
