/** The DNS question that udpresolve builds in place: the name is copied behind a free byte, and every
    dot is overwritten with the length of the label that follows it. */
module DnsQuery {
  import opened Arithmetic
  import opened Bytes

  const DOT: byte := 46

  // ---- Names ----

  /** The position of the first dot, or the length if there is none. */
  function FirstDot(s: seq<byte>): (k: nat)
    ensures k <= |s| && (k < |s| ==> s[k] == DOT)
  {
    if s == [] || s[0] == DOT then 0 else 1 + FirstDot(s[1..])
  }

  /** The labels of a dotted name. */
  function Split(s: seq<byte>): (labels: seq<seq<byte>>)
    ensures labels != []
  {
    var k := FirstDot(s);
    if k == |s| then [s] else [s[..k]] + Split(s[k + 1..])
  }

  function Join(labels: seq<seq<byte>>): seq<byte>
    requires labels != []
  {
    if |labels| == 1 then labels[0] else labels[0] + [DOT] + Join(labels[1..])
  }

  lemma {:induction false} JoinSplit(s: seq<byte>)
    ensures Join(Split(s)) == s
  {
    hide Split, Join;
    SplitFront(s);
    var k := FirstDot(s);
    if k < |s| {
      var rest := s[k + 1..];
      JoinSplit(rest);
      JoinFront(s[..k], Split(rest));
      assert s == s[..k] + [DOT] + rest;
    } else {
      JoinOne(s);
    }
  }

  lemma {:induction false} SplitFront(s: seq<byte>)
    ensures var k := FirstDot(s); Split(s) == if k == |s| then [s] else [s[..k]] + Split(s[k + 1..])
  {
  }

  lemma {:induction false} JoinFront(first: seq<byte>, rest: seq<seq<byte>>)
    requires rest != []
    ensures Join([first] + rest) == first + [DOT] + Join(rest)
  {
    assert ([first] + rest)[1..] == rest;
  }

  lemma {:induction false} JoinOne(s: seq<byte>)
    ensures Join([s]) == s
  {
  }

  /** Each label behind its length byte. */
  function LengthPrefixed(s: seq<byte>): (b: seq<byte>)
    ensures |b| == |s| + 1
  {
    var k := FirstDot(s);
    [k % 256] + s[..k] + if k == |s| then [] else LengthPrefixed(s[k + 1..])
  }

  // ---- The builder ----

  /** strchr(buf + from, '.') */
  method StrChr(buf: array<byte>, from: nat, end: nat) returns (r: Option<nat>)
    requires from <= end < buf.Length && buf[end] == 0 && 0 !in buf[from..end]
    ensures var k := FirstDot(buf[from..end]); r == if k < end - from then Some(from + k) else None
  {
    var i := from;
    while buf[i] != 0
      invariant from <= i <= end
      invariant i - from + FirstDot(buf[i..end]) == FirstDot(buf[from..end])
      decreases end - i
    {
      assert buf[i..end][0] == buf[i] && buf[i..end][1..] == buf[i + 1..end];
      if buf[i] == DOT { return Some(i); }
      i := i + 1;
    }
    return None;
  }

  /** The bytes of a query for `name` (at most 255 of them are used) with the given id. */
  function Query(id: seq<byte>, name: seq<byte>): seq<byte>
    requires |id| == 2
  {
    Header(id) + LengthPrefixed(Used(name)) + [0] + [0, 1, 0, 1]
  }

  function Used(name: seq<byte>): seq<byte> { if |name| > 255 then name[..255] else name }

  method BuildQuery(id: seq<byte>, name: seq<byte>, buf: array<byte>) returns (len: nat)
    requires |id| == 2 && 0 !in name && buf.Length == 4096
    modifies buf
    ensures len == Min(|name|, 255) + 18 && buf[..len] == Query(id, name)
    ensures ReadHeader(buf[..12]) == Asking(id)
  {
    hide LengthPrefixed, ReadHeader, Asking, Header;
    PutHeader(buf, id);
    len := |Used(name)| + 13;
    forall k | 0 <= k < |Used(name)| { buf[13 + k] := name[k]; }
    buf[len] := 0;
    assert buf[13..len] == Used(name) && buf[..12] == Header(id);
    WriteLengths(buf, len, Used(name));
    assert buf[..len] == buf[..12] + buf[12..len] && buf[..12] == Header(id);
    HeaderAsks(id);
    len := PutTrailer(buf, len);
    QueryHead(id, name);
    assert buf[..len][..12] == buf[..12];
  }

  lemma {:induction false} QueryHead(id: seq<byte>, name: seq<byte>)
    requires |id| == 2
    ensures |Query(id, name)| >= 12 && Query(id, name)[..12] == Header(id)
  {
  }

  function Header(id: seq<byte>): seq<byte>
    requires |id| == 2
  {
    id + [1, 0, 0, 1, 0, 0, 0, 0, 0, 0]
  }

  /** The id, one question, recursion wanted, nothing else. */
  method PutHeader(buf: array<byte>, id: seq<byte>)
    requires |id| == 2 && buf.Length >= 12
    modifies buf
    ensures buf[..12] == Header(id)
  {
    forall k | 0 <= k < 12 { buf[k] := Header(id)[k]; }
  }

  /** The terminating NUL becomes the root label; type A and class IN follow. */
  method PutTrailer(buf: array<byte>, len: nat) returns (end: nat)
    requires len + 5 <= buf.Length && buf[len] == 0
    modifies buf
    ensures end == len + 5 && buf[..end] == old(buf[..len]) + [0] + [0, 1, 0, 1]
  {
    buf[len + 1], buf[len + 2], buf[len + 3], buf[len + 4] := 0, 1, 0, 1;
    end := len + 5;
    assert buf[..len] == old(buf[..len]);
    assert buf[..end] == buf[..len] + buf[len..end];
  }

  /** The labels in front of position `i` are done: what follows it is still the name, and its length byte is
      missing. `b` is the stretch from the first length byte to the end of the name. */
  predicate DoneUpTo(b: seq<byte>, i: nat, name: seq<byte>) {
    && i < |b| == |name| + 1 && 0 !in b[i + 1..]
    && b[..i] + LengthPrefixed(b[i + 1..]) == LengthPrefixed(name)
  }

  lemma {:induction false} NothingDone(b: seq<byte>, name: seq<byte>)
    requires b != [] && b[1..] == name && 0 !in name
    ensures DoneUpTo(b, 0, name)
  {
    assert b[..0] + LengthPrefixed(name) == LengthPrefixed(name);
  }

  /** Writing the length of one more label; the next position is that of the dot behind it. */
  lemma {:induction false} OneMoreDone(b: seq<byte>, i: nat, name: seq<byte>)
    requires DoneUpTo(b, i, name) && FirstDot(b[i + 1..]) < |b[i + 1..]|
    ensures var k := FirstDot(b[i + 1..]); i + 1 + k < |b| && DoneUpTo(b[i := k % 256], i + 1 + k, name)
  {
    hide FirstDot, LengthPrefixed;
    var rest := b[i + 1..];
    var k := FirstDot(rest);
    var c := b[i := k % 256];
    MoreLabels(b[..i], rest);
    assert c[..i + 1 + k] == b[..i] + ([k % 256] + rest[..k]);
    assert c[i + 1 + k + 1..] == rest[k + 1..];
    assert forall x :: x in rest[k + 1..] ==> x in rest;
  }

  lemma {:induction false} AllDone(b: seq<byte>, i: nat, name: seq<byte>)
    requires DoneUpTo(b, i, name) && FirstDot(b[i + 1..]) == |b[i + 1..]|
    ensures b[i := (|b| - i - 1) % 256] == LengthPrefixed(name)
  {
    hide FirstDot, LengthPrefixed;
    var rest := b[i + 1..];
    LastLabel(rest);
    assert rest[..|rest|] == rest;
    assert b[i := |rest| % 256] == b[..i] + ([|rest| % 256] + rest);
  }

  /** The in-place loop: the search for the next dot always starts behind the byte just written. */
  method WriteLengths(buf: array<byte>, len: nat, ghost name: seq<byte>)
    requires 13 <= len < buf.Length && len <= 13 + 255 && buf[13..len] == name && buf[len] == 0 && 0 !in name
    modifies buf
    ensures buf[12..len] == LengthPrefixed(name)
    ensures forall k :: 0 <= k < buf.Length && !(12 <= k < len) ==> buf[k] == old(buf[k])
  {
    hide LengthPrefixed, FirstDot, DoneUpTo;
    var s2 := 12;
    assert buf[12..len][1..] == name;
    NothingDone(buf[12..len], name);
    Behind(buf, s2, len, name);
    var s1 := StrChr(buf, s2 + 1, len);
    while s1.Some?
      invariant 12 <= s2 < len && DoneUpTo(buf[12..len], s2 - 12, name)
      invariant var rest := buf[s2 + 1..len]; var k := FirstDot(rest);
                s1 == if k < |rest| then Some(s2 + 1 + k) else None
      invariant forall k :: 0 <= k < buf.Length && !(12 <= k < len) ==> buf[k] == old(buf[k])
      decreases len - s2
    {
      Behind(buf, s2, len, name);
      OneMoreDone(buf[12..len], s2 - 12, name);
      PutByte(buf, s2, len, (s1.value - s2 - 1) % 256);
      s2 := s1.value;
      Behind(buf, s2, len, name);
      s1 := StrChr(buf, s2 + 1, len);
    }
    Behind(buf, s2, len, name);
    AllDone(buf[12..len], s2 - 12, name);
    PutByte(buf, s2, len, (len - s2 - 1) % 256);
  }

  /** One write, as seen in the stretch from the first length byte to the end of the name. */
  method PutByte(buf: array<byte>, i: nat, len: nat, x: byte)
    requires 12 <= i < len < buf.Length
    modifies buf
    ensures buf[12..len] == old(buf[12..len])[i - 12 := x]
    ensures forall k :: 0 <= k < buf.Length && k != i ==> buf[k] == old(buf[k])
  {
    buf[i] := x;
  }

  lemma {:induction false} Behind(buf: array<byte>, i: nat, len: nat, name: seq<byte>)
    requires 12 <= i < len < buf.Length && DoneUpTo(buf[12..len], i - 12, name)
    ensures buf[12..len][i - 12 + 1..] == buf[i + 1..len] && 0 !in buf[i + 1..len]
  {
  }

  lemma {:induction false} MoreLabels(before: seq<byte>, rest: seq<byte>)
    requires FirstDot(rest) < |rest|
    ensures var k := FirstDot(rest);
            (before + ([k % 256] + rest[..k])) + LengthPrefixed(rest[k + 1..]) == before + LengthPrefixed(rest)
  {
    hide FirstDot, LengthPrefixed;
    var k := FirstDot(rest);
    LengthFront(rest);
    assert (before + ([k % 256] + rest[..k])) + LengthPrefixed(rest[k + 1..])
        == before + (([k % 256] + rest[..k]) + LengthPrefixed(rest[k + 1..]));
  }

  lemma {:induction false} LengthFront(s: seq<byte>)
    requires FirstDot(s) < |s|
    ensures var k := FirstDot(s); LengthPrefixed(s) == ([k % 256] + s[..k]) + LengthPrefixed(s[k + 1..])
  {
  }

  lemma {:induction false} LastLabel(rest: seq<byte>)
    requires FirstDot(rest) == |rest|
    ensures LengthPrefixed(rest) == [|rest| % 256] + rest[..|rest|]
  {
  }

  // ---- Reading the header back ----

  /** Section 4.1.1 of RFC 1035: the id, the flags and codes of the second 16 bits, and four counts. */
  datatype Head = Head(id: seq<byte>, qr: bool, opcode: nat, aa: bool, tc: bool, rd: bool, ra: bool, z: nat, rcode: nat,
                       qdcount: nat, ancount: nat, nscount: nat, arcount: nat)

  /** Bit `i` of a byte, the highest being number 0. */
  predicate Bit(b: byte, i: nat)
    requires i < 8
  {
    b / [128, 64, 32, 16, 8, 4, 2, 1][i] % 2 == 1
  }

  function ReadHeader(b: seq<byte>): Head
    requires |b| == 12
  {
    Head(b[..2], Bit(b[2], 0), b[2] / 8 % 16, Bit(b[2], 5), Bit(b[2], 6), Bit(b[2], 7),
         Bit(b[3], 0), b[3] / 16 % 8, b[3] % 16,
         Word(b[4], b[5]), Word(b[6], b[7]), Word(b[8], b[9]), Word(b[10], b[11]))
  }

  /** A standard query with one question and no records, for which recursion is desired. */
  function Asking(id: seq<byte>): Head { Head(id, false, 0, false, false, true, false, 0, 0, 1, 0, 0, 0) }

  lemma {:induction false} HeaderAsks(id: seq<byte>)
    requires |id| == 2
    ensures ReadHeader(Header(id)) == Asking(id)
  {
    assert Header(id)[..2] == id;
  }

  // ---- Reading the question back ----

  datatype NameRead = NameRead(labels: seq<seq<byte>>, size: nat)

  /** Section 3.1 of RFC 1035: labels of at most 63 bytes behind their lengths, up to the zero length. */
  function ReadLabels(b: seq<byte>): (r: Option<NameRead>)
    ensures r.Some? ==> r.value.size <= |b|
  {
    if b == [] || b[0] > 63 then None
    else if b[0] == 0 then Some(NameRead([], 1))
    else if |b| < 1 + b[0] then None
    else
      match ReadLabels(b[1 + b[0]..])
      case None => None
      case Some(rest) => Some(NameRead([b[1..1 + b[0]]] + rest.labels, 1 + b[0] + rest.size))
  }

  function Word(high: byte, low: byte): nat { 256 * (high as int) + low as int }

  datatype Question = Question(labels: seq<seq<byte>>, qtype: nat, qclass: nat)

  /** Section 4.1.2: a name of at most 255 bytes, a type and a class, and nothing more. */
  function ReadQuestion(b: seq<byte>): Option<Question> {
    match ReadLabels(b)
    case None => None
    case Some(name) =>
      if name.size > 255 || |b| != name.size + 4 then None else
      var t := b[name.size..];
      Some(Question(name.labels, Word(t[0], t[1]), Word(t[2], t[3])))
  }

  predicate LabelsOk(labels: seq<seq<byte>>) { forall i :: 0 <= i < |labels| ==> 1 <= |labels[i]| <= 63 }

  /** Reading one length-prefixed label off the front. */
  lemma {:induction false} ReadOne(s: seq<byte>, tail: seq<byte>)
    requires |s| <= 255
    ensures var k := FirstDot(s); var b := LengthPrefixed(s) + [0] + tail;
            && b[0] == k
            && (1 <= k ==> b[1..1 + k] == s[..k])
            && b[1 + k..] == (if k == |s| then [] else LengthPrefixed(s[k + 1..])) + [0] + tail
  {
    hide FirstDot, LengthPrefixed;
    var k := FirstDot(s);
    LengthShape(s);
    Shape(k, s[..k], if k == |s| then [] else LengthPrefixed(s[k + 1..]), [0], tail);
  }

  lemma {:induction false} LengthShape(s: seq<byte>)
    requires |s| <= 255
    ensures var k := FirstDot(s);
            LengthPrefixed(s) == [k] + s[..k] + if k == |s| then [] else LengthPrefixed(s[k + 1..])
  {
    hide FirstDot;
    ModOfSmall(FirstDot(s), 256);
  }

  lemma {:induction false} Shape(n: byte, first: seq<byte>, more: seq<byte>, zero: seq<byte>, tail: seq<byte>)
    ensures var b := ([n] + first + more) + zero + tail;
            b[0] == n && b[1..1 + |first|] == first && b[1 + |first|..] == more + zero + tail
  {
  }

  lemma {:induction false} LabelsReadBack(s: seq<byte>, tail: seq<byte>)
    requires |s| <= 255
    ensures var b := LengthPrefixed(s) + [0] + tail;
            ReadLabels(b) == Some(NameRead(Split(s), |s| + 2)) <==> LabelsOk(Split(s))
    decreases |s|
  {
    hide LengthPrefixed, FirstDot, ReadLabels, LabelsOk;
    var k := FirstDot(s);
    ReadOne(s, tail);
    if k == |s| {
      LastReadsBack(s, LengthPrefixed(s) + [0] + tail, tail);
    } else {
      LabelsReadBack(s[k + 1..], tail);
      assert Split(s)[0] == s[..k] && Split(s)[1..] == Split(s[k + 1..]);
      FirstReadsBack(Split(s), LengthPrefixed(s) + [0] + tail, k, |s|);
    }
  }

  lemma {:induction false} LastReadsBack(s: seq<byte>, b: seq<byte>, tail: seq<byte>)
    requires b != [] && b[0] == |s| && |b| >= 1 + |s| && (1 <= |s| ==> b[1..1 + |s|] == s)
    requires b[1 + |s|..] == [] + [0] + tail
    ensures ReadLabels(b) == Some(NameRead([s], |s| + 2)) <==> LabelsOk([s])
  {
    assert ReadLabels([] + [0] + tail) == Some(NameRead([], 1));
    assert [s] + [] == [s];
    if LabelsOk([s]) { assert 1 <= |[s][0]| <= 63; }
  }

  lemma {:induction false} FirstReadsBack(labels: seq<seq<byte>>, b: seq<byte>, k: nat, n: nat)
    requires k < n && |labels| > 1 && |labels[0]| == k && b != [] && b[0] == k && |b| >= 1 + k
    requires 1 <= k ==> b[1..1 + k] == labels[0]
    requires ReadLabels(b[1 + k..]) == Some(NameRead(labels[1..], n - k - 1 + 2)) <==> LabelsOk(labels[1..])
    ensures ReadLabels(b) == Some(NameRead(labels, n + 2)) <==> LabelsOk(labels)
  {
    hide LabelsOk;
    OkCons(labels);
    assert [labels[0]] + labels[1..] == labels;
    SplitCons(labels[0], labels[1..], ReadLabels(b[1 + k..]));
  }

  lemma {:induction false} OkCons(labels: seq<seq<byte>>)
    requires labels != []
    ensures LabelsOk(labels) <==> 1 <= |labels[0]| <= 63 && LabelsOk(labels[1..])
  {
    if LabelsOk(labels[1..]) { assert forall i :: 1 <= i < |labels| ==> labels[i] == labels[1..][i - 1]; }
  }

  lemma {:induction false} SplitCons(first: seq<byte>, rest: seq<seq<byte>>, r: Option<NameRead>)
    ensures r.Some? && [first] + r.value.labels == [first] + rest ==> r.value.labels == rest
  {
    if r.Some? && [first] + r.value.labels == [first] + rest {
      assert ([first] + r.value.labels)[1..] == ([first] + rest)[1..];
    }
  }

  /** The question asks for the name split at its dots, type A and class IN, exactly for names of at most
      253 bytes whose labels all have 1 to 63 bytes. Neither an empty name nor one with a trailing dot
      is among them. */
  lemma {:induction false} QuestionIffLabelsOk(id: seq<byte>, name: seq<byte>)
    requires |id| == 2
    ensures ReadQuestion(Query(id, name)[12..]) == Some(Question(Split(name), 1, 1))
       <==> LabelsOk(Split(name)) && |name| <= 253
  {
    hide LengthPrefixed, ReadLabels, Split, LabelsOk;
    var s := Used(name);
    var b := LengthPrefixed(s) + [0] + [0, 1, 0, 1];
    assert Query(id, name)[12..] == b;
    LabelsReadBack(s, [0, 1, 0, 1]);
    assert b[|s| + 2..] == [0, 1, 0, 1];
  }
}
