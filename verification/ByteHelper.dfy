/** ByteHelper.ByteArrayToUInt64 in 64-bit unsigned arithmetic with C#'s masked shift counts. */
module ByteHelper {
  import opened Arithmetic
  import opened Bytes

  const U64 := 0x1_0000_0000_0000_0000

  function Pow2(n: nat): nat {
    if n == 0 then 1 else if n >= 8 then 256 * Pow2(n - 8) else 2 * Pow2(n - 1)
  }

  function Pow256(n: nat): (r: nat)
    ensures r > 0
  {
    if n == 0 then 1 else 256 * Pow256(n - 1)
  }

  /** `x << count` on UInt64: the count is taken modulo 64 (two's complement, so never negative). */
  function ShiftLeft(x: byte, count: int): nat { x * Pow2(count % 64) % U64 }

  /** The shift count of the k-th byte read. */
  function ShiftCount(offset: nat, length: nat, little: bool, k: nat): int {
    if little then 8 * k else 8 * (length - offset - (offset + k) - 1)
  }

  /** myNumber after `k` bytes. */
  function Sum(data: seq<byte>, offset: nat, length: nat, little: bool, k: nat): nat
    requires k <= length && offset + length <= |data|
  {
    if k == 0 then 0
    else (Sum(data, offset, length, little, k - 1)
          + ShiftLeft(data[offset + k - 1], ShiftCount(offset, length, little, k - 1))) % U64
  }

  method ByteArrayToUInt64(data: seq<byte>, offset: nat, length: nat, useLittleEndian: bool) returns (myNumber: nat)
    requires offset + length <= |data|
    ensures myNumber == Sum(data, offset, length, useLittleEndian, length)
  {
    myNumber := 0;
    var i := offset;
    while i < offset + length
      invariant offset <= i <= offset + length
      invariant myNumber == Sum(data, offset, length, useLittleEndian, i - offset)
    {
      if useLittleEndian {
        myNumber := (myNumber + ShiftLeft(data[i], 8 * (i - offset))) % U64;
      } else {
        myNumber := (myNumber + ShiftLeft(data[i], 8 * (length - offset - i - 1))) % U64;
      }
      i := i + 1;
    }
  }

  // ---- What the number should be ----

  function BigEndian(b: seq<byte>): nat {
    if b == [] then 0 else 256 * BigEndian(b[..|b| - 1]) + b[|b| - 1]
  }

  function LittleEndian(b: seq<byte>): nat {
    if b == [] then 0 else LittleEndian(b[..|b| - 1]) + b[|b| - 1] * Pow256(|b| - 1)
  }

  /** The n low-order bytes of `v`, most significant first. */
  function ToBigEndian(v: nat, n: nat): (b: seq<byte>)
    ensures |b| == n
  {
    if n == 0 then [] else ToBigEndian(v / 256, n - 1) + [v % 256]
  }

  lemma {:induction false} BigEndianRoundTrip(v: nat, n: nat)
    requires v < Pow256(n)
    ensures BigEndian(ToBigEndian(v, n)) == v
  {
    if n > 0 {
      var b := ToBigEndian(v, n);
      assert b[..|b| - 1] == ToBigEndian(v / 256, n - 1);
      assert v / 256 < Pow256(n - 1);
      BigEndianRoundTrip(v / 256, n - 1);
    }
  }

  lemma {:induction false} BytesBack(b: seq<byte>)
    ensures ToBigEndian(BigEndian(b), |b|) == b
  {
    if b != [] {
      var n := |b| - 1;
      BytesBack(b[..n]);
      assert (256 * BigEndian(b[..n]) + b[n]) / 256 == BigEndian(b[..n]);
    }
  }

  lemma {:induction false} PowFour()
    ensures Pow256(4) == 0x1_0000_0000
  {
    assert Pow256(1) == 256 && Pow256(2) == 0x1_0000 && Pow256(3) == 0x100_0000;
  }

  lemma {:induction false} BigEndianBound(b: seq<byte>)
    ensures BigEndian(b) < Pow256(|b|)
  {
    if b != [] { BigEndianBound(b[..|b| - 1]); }
  }

  lemma {:induction false} ByteShift(k: nat)
    ensures Pow2(8 * k) == Pow256(k)
  {
    if k > 0 { ByteShift(k - 1); }
  }

  lemma {:induction false} PowGrows(k: nat)
    requires k <= 8
    ensures Pow256(k) <= U64 && (k <= 7 ==> 255 * Pow256(k) < U64) && (k >= 1 ==> Pow256(k) >= 256)
  {
    PowEight();
    assert Pow256(1) == 256 && Pow256(2) == 0x1_0000 && Pow256(3) == 0x100_0000 && Pow256(4) == 0x1_0000_0000;
    assert Pow256(5) == 0x100_0000_0000 && Pow256(6) == 0x1_0000_0000_0000 && Pow256(7) == 0x100_0000_0000_0000;
  }

  lemma {:induction false} PowEight()
    ensures Pow256(8) == U64
  {
    assert Pow256(1) == 256 && Pow256(2) == 0x1_0000 && Pow256(3) == 0x100_0000 && Pow256(4) == 0x1_0000_0000;
    assert Pow256(5) == 0x100_0000_0000 && Pow256(6) == 0x1_0000_0000_0000 && Pow256(7) == 0x100_0000_0000_0000;
  }

  /** A shift by whole bytes, whatever multiple of 64 is added to the count. */
  lemma {:induction false} ShiftBytes(x: byte, count: int, k: nat)
    requires k <= 7 && count % 64 == 8 * k
    ensures ShiftLeft(x, count) == x * Pow256(k)
  {
    hide Pow2, Pow256;
    ByteShift(k);
    PowGrows(k);
    MulLe(x, 255, Pow256(k));
    ModOfSmall(x * Pow256(k), U64);
  }

  lemma {:induction false} PowAdd(a: nat, b: nat)
    ensures Pow256(a) * Pow256(b) == Pow256(a + b)
  {
    hide Pow256;
    if a == 0 {
      PowZero();
    } else {
      PowAdd(a - 1, b);
      PowStep(a);
      PowStep(a + b);
      MulGroup(256, Pow256(a - 1), Pow256(b));
    }
  }

  lemma {:induction false} PowZero()
    ensures Pow256(0) == 1
  {
  }

  lemma {:induction false} PowStep(n: nat)
    requires n > 0
    ensures Pow256(n) == 256 * Pow256(n - 1)
  {
  }

  /** One more byte below the ones read. */
  lemma {:induction false} NextByte(v: nat, x: byte, p: nat)
    ensures v * (256 * p) + x * p == (256 * v + x) * p
  {
    assert v * (256 * p) == (256 * v) * p;
  }

  /** With offset a multiple of 4, the sum after k bytes is their big-endian value moved up. */
  lemma {:induction false} SumIsBigEndian(data: seq<byte>, offset: nat, length: nat, k: nat)
    requires k <= length <= 8 && offset + length <= |data| && offset % 4 == 0
    ensures Sum(data, offset, length, false, k) == BigEndian(data[offset..offset + k]) * Pow256(length - k)
  {
    hide ShiftLeft, Pow2, ShiftCount;
    if k > 0 {
      SumIsBigEndian(data, offset, length, k - 1);
      var before := data[offset..offset + k - 1];
      var all := data[offset..offset + k];
      var x := data[offset + k - 1];
      assert all[..|all| - 1] == before;
      Aligned(offset, length, k);
      ShiftBytes(x, ShiftCount(offset, length, false, k - 1), length - k);
      NextByte(BigEndian(before), x, Pow256(length - k));
      BigEndianBound(all);
      PowAdd(k, length - k);
      PowGrows(length);
      MulLt(BigEndian(all), Pow256(k), Pow256(length - k));
    }
  }

  lemma {:induction false} Aligned(offset: nat, length: nat, k: nat)
    requires 1 <= k <= length <= 8 && offset % 4 == 0
    ensures ShiftCount(offset, length, false, k - 1) % 64 == 8 * (length - k)
  {
    var q := offset / 4;
    assert offset == 4 * q;
    Mod64(ShiftCount(offset, length, false, k - 1), 8 * (length - k), -q);
  }

  lemma {:induction false} Mod64(v: int, m: int, q: int)
    requires v == m + 64 * q && 0 <= m < 64
    ensures v % 64 == m
  {
  }

  /** Off alignment the last byte alone goes to the wrong place. */
  lemma {:induction false} Misplaced(offset: nat, length: nat) returns (data: seq<byte>)
    requires 1 <= length <= 8 && offset % 4 != 0
    ensures |data| == offset + length
    ensures Sum(data, offset, length, false, length) != BigEndian(data[offset..offset + length])
  {
    hide ShiftLeft, Pow2;
    data := seq(offset + length - 1, _ => 0) + [1];
    var all := data[offset..offset + length];
    ZerosSum(data, offset, length, length - 1);
    ZerosBigEndian(all[..|all| - 1]);
    assert BigEndian(all) == 1;
    var r := offset % 4;
    var q := offset / 4;
    assert offset == 4 * q + r;
    var count := ShiftCount(offset, length, false, length - 1);
    assert count == -16 * offset == (64 - 16 * r) + 64 * (-q - 1);
    assert count % 64 == 8 * (8 - 2 * r);
    ShiftBytes(1, count, 8 - 2 * r);
    PowGrows(8 - 2 * r);
  }

  lemma {:induction false} ZerosSum(data: seq<byte>, offset: nat, length: nat, k: nat)
    requires k <= length && offset + length <= |data|
    requires forall i :: 0 <= i < offset + k ==> data[i] == 0
    ensures Sum(data, offset, length, false, k) == 0
  {
    hide ShiftCount, Pow2;
    if k > 0 { ZerosSum(data, offset, length, k - 1); }
  }

  lemma {:induction false} ZerosBigEndian(b: seq<byte>)
    requires forall i :: 0 <= i < |b| ==> b[i] == 0
    ensures BigEndian(b) == 0
  {
    if b != [] { ZerosBigEndian(b[..|b| - 1]); }
  }

  /** The big-endian decoder is right for every buffer exactly at the offsets that are multiples of 4:
      elsewhere the offset that the shift count subtracts twice does not vanish modulo 64. */
  lemma {:induction false} BigEndianIffAligned(offset: nat, length: nat)
    requires 1 <= length <= 8
    ensures (forall data: seq<byte> :: offset + length <= |data| ==>
               Sum(data, offset, length, false, length) == BigEndian(data[offset..offset + length]))
       <==> offset % 4 == 0
  {
    if offset % 4 == 0 {
      forall data: seq<byte> | offset + length <= |data|
        ensures Sum(data, offset, length, false, length) == BigEndian(data[offset..offset + length])
      {
        SumIsBigEndian(data, offset, length, length);
      }
    } else {
      var data := Misplaced(offset, length);
    }
  }

  /** The little-endian decoder is right at every offset. */
  lemma {:induction false} SumIsLittleEndian(data: seq<byte>, offset: nat, length: nat, k: nat)
    requires k <= length <= 8 && offset + length <= |data|
    ensures Sum(data, offset, length, true, k) == LittleEndian(data[offset..offset + k]) < Pow256(k)
  {
    hide ShiftLeft, Pow2, LittleEndian, Pow256;
    if k == 0 {
      NoBytes();
    } else {
      SumIsLittleEndian(data, offset, length, k - 1);
      var all := data[offset..offset + k];
      assert all[..|all| - 1] == data[offset..offset + k - 1];
      ShiftBytes(data[offset + k - 1], 8 * (k - 1), k - 1);
      PowGrows(k);
      var v, x, p := LittleEndian(all[..|all| - 1]), data[offset + k - 1], Pow256(k - 1);
      Carry(v, x, p);
      LittleEndianLast(all, k);
      assert v + x * p < Pow256(k) <= U64;
    }
  }

  lemma {:induction false} NoBytes()
    ensures LittleEndian([]) == 0 < Pow256(0)
  {
  }

  lemma {:induction false} LittleEndianLast(b: seq<byte>, k: nat)
    requires |b| == k > 0
    ensures LittleEndian(b) == LittleEndian(b[..k - 1]) + b[k - 1] * Pow256(k - 1)
    ensures Pow256(k) == 256 * Pow256(k - 1)
  {
  }

  lemma {:induction false} Carry(v: nat, x: byte, p: nat)
    requires v < p
    ensures v + x * p < 256 * p
  {
    MulLe(x, 255, p);
  }
}
