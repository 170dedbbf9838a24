/** The Base64 codec of the proxy: en64 and de64 with their tables. */
module Base64 {
  import opened Arithmetic
  import opened Bytes

  // ---- Tables ----

  const CAPITALS: seq<byte> := [65, 66, 67, 68, 69, 70, 71, 72, 73, 74, 75, 76, 77] + [78, 79, 80, 81, 82, 83, 84, 85, 86, 87, 88, 89, 90]
  const SMALL: seq<byte> := [97, 98, 99, 100, 101, 102, 103, 104, 105, 106, 107, 108, 109] + [110, 111, 112, 113, 114, 115, 116, 117, 118, 119, 120, 121, 122]
  const FIGURES: seq<byte> := [48, 49, 50, 51, 52, 53, 54, 55, 56, 57, 43, 47]

  /** base64digits */
  const DIGITS: seq<byte> := CAPITALS + SMALL + FIGURES

  const BAD: byte := 255
  const NONE: seq<byte> := [BAD, BAD, BAD, BAD, BAD, BAD, BAD, BAD, BAD, BAD, BAD, BAD, BAD, BAD, BAD, BAD]

  /** base64val, sixteen characters a row. */
  const VALUES: seq<byte> :=
    NONE + NONE + ROW2 + ROW3 + ROW4 + ROW5 + ROW6 + ROW7

  const ROW2: seq<byte> := [BAD, BAD, BAD, BAD, BAD, BAD, BAD, BAD, BAD, BAD, BAD, 62, BAD, BAD, BAD, 63]
  const ROW3: seq<byte> := [52, 53, 54, 55, 56, 57, 58, 59, 60, 61, BAD, BAD, BAD, BAD, BAD, BAD]
  const ROW4: seq<byte> := [BAD, 0, 1, 2, 3, 4, 5, 6, 7, 8, 9, 10, 11, 12, 13, 14]
  const ROW5: seq<byte> := [15, 16, 17, 18, 19, 20, 21, 22, 23, 24, 25, BAD, BAD, BAD, BAD, BAD]
  const ROW6: seq<byte> := [BAD, 26, 27, 28, 29, 30, 31, 32, 33, 34, 35, 36, 37, 38, 39, 40]
  const ROW7: seq<byte> := [41, 42, 43, 44, 45, 46, 47, 48, 49, 50, 51, BAD, BAD, BAD, BAD, BAD]

  const PAD: byte := 61

  /** DECODE64 */
  function Decode1(c: byte): byte {
    if 32 < c < 127 then VALUES[c] else BAD
  }

  function Digit(v: nat): byte
    requires v < 64
  {
    DIGITS[v]
  }

  /** Table 1 of RFC 4648. */
  function RfcDigit(v: nat): byte
    requires v < 64
  {
    if v < 26 then 65 + v else if v < 52 then 97 + v - 26 else if v < 62 then 48 + v - 52 else if v == 62 then 43 else 47
  }

  function RfcValue(c: byte): byte {
    if 65 <= c <= 90 then c - 65 else if 97 <= c <= 122 then c - 71 else if 48 <= c <= 57 then c + 4
    else if c == 43 then 62 else if c == 47 then 63 else BAD
  }

  lemma {:induction false} DigitsAreRfc(v: nat)
    requires v < 64
    ensures Digit(v) == RfcDigit(v)
  {
    if v < 26 {
      assert DIGITS[v] == CAPITALS[v];
    } else if v < 52 {
      assert DIGITS[v] == SMALL[v - 26];
    } else {
      assert DIGITS[v] == FIGURES[v - 52];
    }
  }

  lemma {:induction false} Row2Value(c: byte)
    requires 32 <= c < 48
    ensures VALUES[c] == ROW2[c - 32] && (c < 127 ==> ROW2[c - 32] == RfcValue(c))
  {
    assert VALUES[32..48] == ROW2;
    assert VALUES[c] == VALUES[32..48][c - 32];
  }

  lemma {:induction false} Row3Value(c: byte)
    requires 48 <= c < 64
    ensures VALUES[c] == ROW3[c - 48] && (c < 127 ==> ROW3[c - 48] == RfcValue(c))
  {
    assert VALUES[48..64] == ROW3;
    assert VALUES[c] == VALUES[48..64][c - 48];
  }

  lemma {:induction false} Row4Value(c: byte)
    requires 64 <= c < 80
    ensures VALUES[c] == ROW4[c - 64] && (c < 127 ==> ROW4[c - 64] == RfcValue(c))
  {
    assert VALUES[64..80] == ROW4;
    assert VALUES[c] == VALUES[64..80][c - 64];
  }

  lemma {:induction false} Row5Value(c: byte)
    requires 80 <= c < 96
    ensures VALUES[c] == ROW5[c - 80] && (c < 127 ==> ROW5[c - 80] == RfcValue(c))
  {
    assert VALUES[80..96] == ROW5;
    assert VALUES[c] == VALUES[80..96][c - 80];
  }

  lemma {:induction false} Row6Value(c: byte)
    requires 96 <= c < 112
    ensures VALUES[c] == ROW6[c - 96] && (c < 127 ==> ROW6[c - 96] == RfcValue(c))
  {
    assert VALUES[96..112] == ROW6;
    assert VALUES[c] == VALUES[96..112][c - 96];
  }

  lemma {:induction false} Row7Value(c: byte)
    requires 112 <= c < 128
    ensures VALUES[c] == ROW7[c - 112] && (c < 127 ==> ROW7[c - 112] == RfcValue(c))
  {
    assert VALUES[112..128] == ROW7;
    assert VALUES[c] == VALUES[112..128][c - 112];
  }

  lemma {:induction false} ValuesAreRfc(c: byte)
    ensures Decode1(c) == RfcValue(c)
  {
    hide RfcValue;
    if 32 <= c < 48 { Row2Value(c); } else if 48 <= c < 64 { Row3Value(c); } else if 64 <= c < 80 { Row4Value(c); }
    else if 80 <= c < 96 { Row5Value(c); } else if 96 <= c < 112 { Row6Value(c); } else if 112 <= c < 127 { Row7Value(c); }
    NoValue(c);
  }

  lemma {:induction false} NoValue(c: byte)
    ensures c <= 32 || c >= 127 ==> RfcValue(c) == BAD
  {
  }

  /** The tables are inverse to each other, and no digit is the padding character or a control. */
  lemma {:induction false} DigitValue(v: nat)
    requires v < 64
    ensures Decode1(Digit(v)) == v
    ensures Digit(v) != PAD && Digit(v) > 32
  {
    DigitsAreRfc(v);
    ValuesAreRfc(Digit(v));
  }

  // ---- Encoding ----

  /** One round of en64; shifts and masks that select disjoint bits are written as arithmetic. */
  function EncodeGroup(g: seq<byte>): (q: seq<byte>)
    requires 1 <= |g| <= 3
    ensures |q| == 4
  {
    [Digit(g[0] / 4),
     Digit((g[0] % 4) * 16 + if |g| > 1 then g[1] / 16 else 0),
     if |g| > 1 then Digit((g[1] % 16) * 4 + if |g| > 2 then g[2] / 64 else 0) else PAD,
     if |g| > 2 then Digit(g[2] % 64) else PAD]
  }

  function GroupSize(b: seq<byte>): (n: nat)
    requires b != []
    ensures 1 <= n <= 3 && n <= |b|
  {
    if |b| < 3 then |b| else 3
  }

  function Encode(b: seq<byte>): (e: seq<byte>)
    ensures |e| == 4 * ((|b| + 2) / 3)
  {
    if b == [] then [] else EncodeGroup(b[..GroupSize(b)]) + Encode(b[GroupSize(b)..])
  }

  /** en64: `out` must have room for the digits and the terminating NUL. */
  method En64(input: seq<byte>, out: array<byte>) returns (end: nat)
    requires out.Length > 4 * ((|input| + 2) / 3)
    modifies out
    ensures end == |Encode(input)| && out[..end] == Encode(input) && out[end] == 0
  {
    hide EncodeGroup, Encode;
    var i, o := 0, 0;
    NothingEncoded(input);
    while i < |input|
      invariant 0 <= i <= |input| && o + |Encode(input[i..])| == |Encode(input)|
      invariant out[..o] + Encode(input[i..]) == Encode(input)
    {
      ghost var rest, sofar := input[i..], out[..o];
      EncodeFront(rest, sofar);
      var left := |input| - i;
      var g := input[i..i + if left < 3 then left else 3];
      assert g == rest[..GroupSize(rest)] && rest[GroupSize(rest)..] == input[i + |g|..];
      var q := EncodeGroup(g);
      PutGroup(out, o, q);
      i, o := i + |g|, o + 4;
    }
    assert input[i..] == [];
    out[o] := 0;
    return o;
  }

  lemma {:induction false} NothingEncoded(input: seq<byte>)
    ensures [] + Encode(input[0..]) == Encode(input) && Encode([]) == []
  {
    assert input[0..] == input;
  }

  lemma {:induction false} EncodeFront(rest: seq<byte>, sofar: seq<byte>)
    requires rest != []
    ensures var n := GroupSize(rest);
            && (sofar + EncodeGroup(rest[..n])) + Encode(rest[n..]) == sofar + Encode(rest)
            && |Encode(rest)| == 4 + |Encode(rest[n..])|
  {
  }

  /** The writes of a round. */
  method PutGroup(out: array<byte>, at: nat, b: seq<byte>)
    requires at + |b| <= out.Length
    modifies out
    ensures out[..at + |b|] == old(out[..at]) + b
    ensures forall k :: at + |b| <= k < out.Length ==> out[k] == old(out[k])
  {
    forall k | 0 <= k < |b| { out[at + k] := b[k]; }
  }

  /** Section 4 of RFC 4648: the group as a 24-bit number, filled up with zero bits, gives one digit per
      six bits; digits made of filling alone are replaced by padding. */
  function RfcGroup(g: seq<byte>): seq<byte>
    requires 1 <= |g| <= 3
  {
    var n: nat := g[0] as int * 0x1_0000 + (if |g| > 1 then g[1] as int * 0x100 else 0) + if |g| > 2 then g[2] as int else 0;
    [RfcDigit(n / 0x4_0000 % 64), RfcDigit(n / 0x1000 % 64)]
    + (if |g| > 1 then [RfcDigit(n / 64 % 64)] else [PAD])
    + if |g| > 2 then [RfcDigit(n % 64)] else [PAD]
  }

  lemma {:induction false} GroupIsRfc(g: seq<byte>)
    requires 1 <= |g| <= 3
    ensures EncodeGroup(g) == RfcGroup(g)
  {
    hide Digit, RfcDigit;
    var b1: nat, b2: nat := if |g| > 1 then g[1] else 0, if |g| > 2 then g[2] else 0;
    Sextets(g[0], b1, b2);
    DigitsAreRfc(g[0] / 4);
    DigitsAreRfc((g[0] % 4) * 16 + b1 / 16);
    DigitsAreRfc((b1 % 16) * 4 + b2 / 64);
    DigitsAreRfc(b2 % 64);
  }

  lemma {:induction false} Sextets(b0: byte, b1: byte, b2: byte)
    ensures var n: nat := b0 as int * 0x1_0000 + b1 as int * 0x100 + b2 as int;
            && n / 0x4_0000 % 64 == b0 / 4 && n / 0x1000 % 64 == (b0 % 4) * 16 + b1 / 16
            && n / 64 % 64 == (b1 % 16) * 4 + b2 / 64 && n % 64 == b2 % 64
  {
    var n: nat := b0 as int * 0x1_0000 + b1 as int * 0x100 + b2 as int;
    var q0: nat, q1: nat, q2: nat := b0 / 4, b1 / 16, b2 / 64;
    var r0: nat, r1: nat, r2: nat := b0 % 4, b1 % 16, b2 % 64;
    Divides(n, 0x4_0000, q0, r0 * 0x1_0000 + b1 as int * 0x100 + b2 as int);
    Divides(n, 0x1000, 64 * q0 + (r0 * 16 + q1), r1 * 0x100 + b2 as int);
    Divides(n, 64, 64 * (64 * q0 + (r0 * 16 + q1)) + (r1 * 4 + q2), r2);
    Divides(64 * q0 + (r0 * 16 + q1), 64, q0, r0 * 16 + q1);
    Divides(64 * (64 * q0 + (r0 * 16 + q1)) + (r1 * 4 + q2), 64, 64 * q0 + (r0 * 16 + q1), r1 * 4 + q2);
  }

  // ---- Decoding ----

  /** The character at `i` of a NUL-terminated string. */
  function At(s: seq<byte>, i: nat): byte { if i < |s| then s[i] else 0 }

  /** A quad is refused if one of its characters is neither a digit nor, in the last two places, padding. */
  predicate QuadOk(s: seq<byte>, i: nat) {
    && Decode1(At(s, i)) != BAD && Decode1(At(s, i + 1)) != BAD
    && (At(s, i + 2) == PAD || Decode1(At(s, i + 2)) != BAD)
    && (At(s, i + 3) == PAD || Decode1(At(s, i + 3)) != BAD)
  }

  function ValueIsSmall(c: byte): (v: byte)
    requires Decode1(c) != BAD
    ensures v == Decode1(c) && v < 64
  {
    ValuesAreRfc(c);
    Decode1(c)
  }

  function DecodeQuad(s: seq<byte>, i: nat): (b: seq<byte>)
    requires QuadOk(s, i)
    ensures 1 <= |b| <= 3
  {
    var v1, v2 := ValueIsSmall(At(s, i)), ValueIsSmall(At(s, i + 1));
    [v1 * 4 + v2 / 16]
    + if At(s, i + 2) == PAD then [] else
      var v3 := ValueIsSmall(At(s, i + 2));
      [(v2 % 16) * 16 + v3 / 4]
      + if At(s, i + 3) == PAD then [] else [(v3 % 4) * 64 + ValueIsSmall(At(s, i + 3))]
  }

  /** The loop of de64 from character `i` on. */
  function DecodeFrom(s: seq<byte>, i: nat, maxlen: int): Option<seq<byte>>
    requires i <= |s|
    decreases |s| - i
  {
    if !QuadOk(s, i) then None
    else if At(s, i + 4) == 0 || At(s, i + 4) == 13 || At(s, i + 3) == PAD || maxlen - 4 < 4 then Some(DecodeQuad(s, i))
    else
      match DecodeFrom(s, i + 4, maxlen - 4)
      case None => None
      case Some(rest) => Some(DecodeQuad(s, i) + rest)
  }

  /** None is the result -1. */
  function Decode(s: seq<byte>, maxlen: int): Option<seq<byte>> {
    var i := if At(s, 0) == 43 && At(s, 1) == 32 then 2 else 0;
    if At(s, i) == 13 then Some([]) else DecodeFrom(s, i, maxlen)
  }

  /** What is decoded from `i` on goes behind `sofar` and gives `result`. */
  predicate Completes(s: seq<byte>, i: nat, maxlen: int, sofar: seq<byte>, result: Option<seq<byte>>)
    requires i <= |s|
  {
    match DecodeFrom(s, i, maxlen)
    case None => result == None
    case Some(rest) => result == Some(sofar + rest)
  }

  /** Whether the loop goes on behind the quad at `i`. */
  predicate GoesOn(s: seq<byte>, i: nat, maxlen: int) {
    At(s, i + 4) != 0 && At(s, i + 4) != 13 && At(s, i + 3) != PAD && maxlen - 4 >= 4
  }

  lemma {:induction false} CompletesStarts(s: seq<byte>, i: nat, maxlen: int)
    requires i <= |s|
    ensures Completes(s, i, maxlen, [], DecodeFrom(s, i, maxlen))
  {
    hide DecodeFrom;
    var all := DecodeFrom(s, i, maxlen);
    assert all.Some? ==> [] + all.value == all.value;
  }

  lemma {:induction false} CompletesStep(s: seq<byte>, i: nat, maxlen: int, sofar: seq<byte>, result: Option<seq<byte>>)
    requires i <= |s| && Completes(s, i, maxlen, sofar, result)
    ensures !QuadOk(s, i) ==> result == None
    ensures QuadOk(s, i) ==> i + 4 <= |s|
    ensures QuadOk(s, i) && GoesOn(s, i, maxlen) ==> Completes(s, i + 4, maxlen - 4, sofar + DecodeQuad(s, i), result)
    ensures QuadOk(s, i) && !GoesOn(s, i, maxlen) ==> result == Some(sofar + DecodeQuad(s, i))
  {
    hide QuadOk, DecodeQuad;
    if QuadOk(s, i) {
      InString(s, i);
      var rest := DecodeFrom(s, i + 4, maxlen - 4);
      assert rest.Some? ==> (sofar + DecodeQuad(s, i)) + rest.value == sofar + (DecodeQuad(s, i) + rest.value);
    }
  }

  /** What de64 writes at most: three bytes for every four characters there are, and for every four that
      `maxlen` allows for, but always a first group. */
  function Room(s: seq<byte>, maxlen: int): (n: nat) { Min(3 * Max(1, maxlen / 4), 3 * |s| / 4) }

  /** de64: a longer input than the output has room for is fine as long as `maxlen` is not. */
  method De64(s: seq<byte>, out: array<byte>, maxlen: int) returns (len: int)
    requires out.Length >= Room(s, maxlen)
    modifies out
    ensures forall k :: Room(s, maxlen) <= k < out.Length ==> out[k] == old(out[k])
    ensures match Decode(s, maxlen)
            case None => len == -1
            case Some(b) => len == |b| && |b| <= Room(s, maxlen) && out[..len] == b
  {
    hide Decode1, DecodeQuad, QuadOk, Room, DecodeFrom, Completes;
    ghost var r: nat := 0;
    var i := if At(s, 0) == 43 && At(s, 1) == 32 then 2 else 0;
    if At(s, i) == 13 { return 0; }
    var max := maxlen;
    var start := i;
    len := 0;
    CompletesStarts(s, i, max);
    assert out[..len] == [];
    while true
      invariant i == start + 4 * r <= |s| && max == maxlen - 4 * r && (r > 0 ==> max >= 4)
      invariant 0 <= len <= 3 * r && len <= Room(s, maxlen)
      invariant forall k :: Room(s, maxlen) <= k < out.Length ==> out[k] == old(out[k])
      invariant Completes(s, i, max, out[..len], Decode(s, maxlen))
      decreases |s| - i
    {
      CompletesStep(s, i, max, out[..len], Decode(s, maxlen));
      if !QuadOk(s, i) { return -1; }
      AnotherGroup(s, maxlen, r);
      var b := DecodeQuad(s, i);
      PutGroup(out, len, b);
      var more := At(s, i + 4) != 0 && At(s, i + 4) != 13 && At(s, i + 3) != PAD;
      len := len + |b|;
      if !more { return; }
      i, max, r := i + 4, max - 4, r + 1;
      if max < 4 { return; }
    }
  }

  /** There is room for one group more, as long as there are four characters more and `maxlen` allows it. */
  lemma {:induction false} AnotherGroup(s: seq<byte>, maxlen: int, r: nat)
    requires 4 * (r + 1) <= |s| && (r > 0 ==> maxlen - 4 * r >= 4)
    ensures 3 * (r + 1) <= Room(s, maxlen)
  {
  }

  /** A quad that is not refused lies within the string. */
  lemma {:induction false} InString(s: seq<byte>, i: nat)
    requires QuadOk(s, i)
    ensures i + 4 <= |s|
  {
    ValuesAreRfc(0);
  }

  // ---- Round trip ----

  lemma {:induction false} GroupRoundTrip(g: seq<byte>, s: seq<byte>, i: nat)
    requires 1 <= |g| <= 3 && i + 4 <= |s| && s[i..i + 4] == EncodeGroup(g)
    ensures QuadOk(s, i) && DecodeQuad(s, i) == g
    ensures At(s, i + 3) == PAD <==> |g| < 3
    ensures At(s, i) > 32 && At(s, i + 1) > 32
  {
    hide Decode1, Digit;
    assert s[i..i + 4][0] == s[i] && s[i..i + 4][1] == s[i + 1] && s[i..i + 4][2] == s[i + 2] && s[i..i + 4][3] == s[i + 3];
    DigitValue(g[0] / 4);
    DigitValue((g[0] % 4) * 16 + if |g| > 1 then g[1] / 16 else 0);
    if |g| > 1 { DigitValue((g[1] % 16) * 4 + if |g| > 2 then g[2] / 64 else 0); }
    if |g| > 2 { DigitValue(g[2] % 64); }
  }

  /** How many of `n` bytes come back when `maxlen` characters may be read. */
  function Decoded(n: nat, maxlen: int): nat { Min(n, 3 * Max(1, maxlen / 4)) }

  /** An encoding ends with its padding, the string, or a carriage return. */
  lemma {:induction false} FromRoundTrip(x: seq<byte>, s: seq<byte>, i: nat, maxlen: int, more: seq<byte>)
    requires x != [] && i <= |s| && s[i..] == Encode(x) + more && (more == [] || more[0] == 13)
    ensures DecodeFrom(s, i, maxlen) == Some(x[..Decoded(|x|, maxlen)])
    decreases |x|
  {
    hide EncodeGroup, QuadOk, DecodeQuad, Encode;
    var n := GroupSize(x);
    var g, rest := x[..n], x[n..];
    QuadInFront(x, s, i, more);
    GroupRoundTrip(g, s, i);
    if rest != [] && maxlen - 4 >= 4 {
      QuadInFront(rest, s, i + 4, more);
      GroupRoundTrip(rest[..GroupSize(rest)], s, i + 4);
      FromRoundTrip(rest, s, i + 4, maxlen - 4, more);
      TakenTogether(x, n, Decoded(|rest|, maxlen - 4));
    } else {
      assert g == x[..Decoded(|x|, maxlen)];
      AtFront(s, i + 4, more, rest);
    }
  }

  lemma {:induction false} TakenTogether(x: seq<byte>, n: nat, k: nat)
    requires n + k <= |x|
    ensures x[..n] + x[n..][..k] == x[..n + k]
  {
  }

  /** The digits of the first group, and what follows them. */
  lemma {:induction false} QuadInFront(x: seq<byte>, s: seq<byte>, i: nat, more: seq<byte>)
    requires x != [] && i <= |s| && s[i..] == Encode(x) + more
    ensures i + 4 <= |s| && s[i..i + 4] == EncodeGroup(x[..GroupSize(x)])
    ensures s[i + 4..] == Encode(x[GroupSize(x)..]) + more
  {
    hide EncodeGroup;
    var rest := x[GroupSize(x)..];
    assert s[i..] == EncodeGroup(x[..GroupSize(x)]) + (Encode(rest) + more);
    assert s[i..i + 4] == s[i..][..4] && s[i + 4..] == s[i..][4..];
  }

  /** Behind an encoding nothing is read. */
  lemma {:induction false} AtFront(s: seq<byte>, i: nat, more: seq<byte>, rest: seq<byte>)
    requires i <= |s| && s[i..] == Encode(rest) + more && (more == [] || more[0] == 13)
    ensures rest == [] ==> At(s, i) == 0 || At(s, i) == 13
  {
    assert rest == [] ==> Encode(rest) == [] && s[i..] == more;
    assert i < |s| ==> s[i..][0] == s[i];
  }

  /** Decoding an encoding gives back the bytes that `maxlen` allows for, and -1 for the empty string. */
  lemma {:induction false} Base64RoundTrip(x: seq<byte>, maxlen: int)
    ensures Decode(Encode(x), maxlen) == if x == [] then None else Some(x[..Decoded(|x|, maxlen)])
  {
    if x == [] {
      ValuesAreRfc(0);
    } else {
      assert Encode(x) + [] == Encode(x);
      LineRoundTrip(x, [], maxlen);
    }
  }

  /** The same at the start of a line: what comes behind a carriage return does not matter. */
  lemma {:induction false} LineRoundTrip(x: seq<byte>, more: seq<byte>, maxlen: int)
    requires x != [] && (more == [] || more[0] == 13)
    ensures Decode(Encode(x) + more, maxlen) == Some(x[..Decoded(|x|, maxlen)])
  {
    hide EncodeGroup;
    var s := Encode(x) + more;
    assert s[0..] == s;
    QuadInFront(x, s, 0, more);
    GroupRoundTrip(x[..GroupSize(x)], s, 0);
    FromRoundTrip(x, s, 0, maxlen, more);
  }

  /** A plus and a blank in front are skipped, and an empty line holds nothing. */
  lemma {:induction false} FrontSkipped(x: seq<byte>, more: seq<byte>, maxlen: int)
    requires more == [] || more[0] == 13
    ensures x != [] ==> Decode([43, 32] + (Encode(x) + more), maxlen) == Some(x[..Decoded(|x|, maxlen)])
    ensures more != [] ==> Decode(more, maxlen) == Some([]) && Decode([43, 32] + more, maxlen) == Some([])
  {
    hide EncodeGroup;
    if x != [] {
      var line := Encode(x) + more;
      var s := [43, 32] + line;
      assert s[2..] == line && line[0..] == line;
      QuadInFront(x, s, 2, more);
      GroupRoundTrip(x[..GroupSize(x)], s, 2);
      FromRoundTrip(x, s, 2, maxlen, more);
    }
  }

  predicate IsDigit(c: byte) { RfcValue(c) < 64 }

  /** The first four characters are refused unless they are two digits and two digits or paddings. */
  lemma {:induction false} RefusedIff(s: seq<byte>, i: nat)
    ensures QuadOk(s, i) <==> IsDigit(At(s, i)) && IsDigit(At(s, i + 1))
                              && (At(s, i + 2) == '=' as int || IsDigit(At(s, i + 2)))
                              && (At(s, i + 3) == '=' as int || IsDigit(At(s, i + 3)))
    ensures i <= |s| && !QuadOk(s, i) ==> forall maxlen :: DecodeFrom(s, i, maxlen) == None
  {
    hide Decode1, IsDigit;
    DigitIff(At(s, i));
    DigitIff(At(s, i + 1));
    DigitIff(At(s, i + 2));
    DigitIff(At(s, i + 3));
  }

  lemma {:induction false} DigitIff(c: byte)
    ensures Decode1(c) != BAD <==> IsDigit(c)
  {
    hide Decode1;
    ValuesAreRfc(c);
  }

  /** The round trip is complete exactly for non-empty byte strings that make a single group or whose
      whole encoding `maxlen` covers. */
  lemma {:induction false} RoundTripIff(x: seq<byte>, maxlen: int)
    ensures Decode(Encode(x), maxlen) == Some(x) <==> x != [] && (|x| <= 3 || maxlen >= 4 * ((|x| + 2) / 3))
  {
    hide Decode, Encode;
    Base64RoundTrip(x, maxlen);
    if x != [] {
      assert x[..Decoded(|x|, maxlen)] == x <==> Decoded(|x|, maxlen) == |x|;
    }
  }
}
