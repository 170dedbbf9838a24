/** Bytes and the fixed-width integers that both ends of the FUZZ protocol put on the wire. */
module Bytes {

  type byte = x: int | 0 <= x < 256

  datatype Option<+T> = None | Some(value: T)

  function Flatten<T>(chunks: seq<seq<T>>): seq<T> {
    if chunks == [] then [] else chunks[0] + Flatten(chunks[1..])
  }

  /** The value of `v` after truncation to a signed 16-bit integer. */
  function Wrap16(v: int): (r: int)
    ensures -0x8000 <= r < 0x8000
    ensures (r - v) % 0x1_0000 == 0
  {
    var m := v % 0x1_0000;
    if m < 0x8000 then m else m - 0x1_0000
  }

  /** 32-bit integers wrap around. */
  function Wrap32(v: int): (r: int)
    ensures -0x8000_0000 <= r < 0x8000_0000
    ensures (r - v) % 0x1_0000_0000 == 0
    ensures -0x8000_0000 <= v < 0x8000_0000 ==> r == v
  {
    var m := v % 0x1_0000_0000;
    if m < 0x8000_0000 then m else m - 0x1_0000_0000
  }

  predicate IsInt16(v: int) { -0x8000 <= v < 0x8000 }

  predicate IsInt32(v: int) { -0x8000_0000 <= v < 0x8000_0000 }

  /** write_int16_t, and BitConverter.GetBytes on a little-endian host: low byte first. */
  function WriteInt16(v: int): (b: seq<byte>)
    ensures |b| == 2
  {
    [v % 256, v / 256 % 256]
  }

  /** read_int16_t and BitConverter.ToInt16. */
  function ReadInt16(low: byte, high: byte): (v: int)
    ensures IsInt16(v) && (v - (low as int + 0x100 * high as int)) % 0x1_0000 == 0
  {
    Wrap16(low + 256 * high)
  }

  /** Reading a written integer gives it back up to truncation, hence exactly on the int16 range. */
  lemma {:induction false} Int16RoundTrip(v: int)
    ensures ReadInt16(WriteInt16(v)[0], WriteInt16(v)[1]) == Wrap16(v)
    ensures IsInt16(v) ==> Wrap16(v) == v
  {
    hide Wrap16;
    TwoBytes(v);
    WrapResidue(v);
    if IsInt16(v) { WrapSmall(v); }
  }

  lemma {:induction false} Residue(v: int, q: int, m: int)
    requires v == 0x1_0000 * q + m && 0 <= m < 0x1_0000
    ensures v % 0x1_0000 == m
  {
  }

  lemma {:induction false} WrapResidue(v: int)
    ensures Wrap16(v % 0x1_0000) == Wrap16(v)
  {
    Residue(v % 0x1_0000, 0, v % 0x1_0000);
  }

  lemma {:induction false} WrapSmall(v: int)
    requires IsInt16(v)
    ensures Wrap16(v) == v
  {
    if v >= 0 { Residue(v, 0, v); } else { Residue(v, -1, v + 0x1_0000); }
  }

  /** The two low-order bytes of a number make up what it leaves modulo 65536. */
  lemma {:induction false} TwoBytes(v: int)
    ensures v % 256 + 256 * (v / 256 % 256) == v % 0x1_0000
  {
    var q, r := v / 256, v % 256;
    var q2, r2 := q / 256, q % 256;
    assert v == 256 * q + r && q == 256 * q2 + r2;
    Residue(v, q2, 256 * r2 + r);
  }

  /** The C string that starts `b`: strncpy and every later reader stop at the first NUL. */
  function CString(b: seq<byte>): (s: seq<byte>)
    ensures |s| <= |b| && s == b[..|s|] && 0 !in s
    ensures |s| < |b| ==> b[|s|] == 0
  {
    if b == [] || b[0] == 0 then [] else [b[0]] + CString(b[1..])
  }

  /** A byte string survives as a C string exactly when it holds no NUL. */
  lemma {:induction false} CStringWhole(b: seq<byte>)
    ensures CString(b) == b <==> 0 !in b
  {
    if 0 !in b { assert b[..|b|] == b; }
  }
}
