/** The FUZZ packet format, and what rebuilding packets from a byte buffer means. */
module Wire {
  import opened Bytes

  /** "FUZZ" */
  const MAGIC: seq<byte> := [70, 85, 90, 90]

  /** Magic word, receiver and length field. */
  const HEADER := 10

  datatype Packet = Packet(receiver: seq<byte>, data: seq<byte>)

  /** What send_packet and SendPacket can put on the wire with a non-negative length field. */
  predicate Sendable(p: Packet) { |p.receiver| == 4 && |p.data| < 0x8000 }

  predicate AllSendable(ps: seq<Packet>) { forall i :: 0 <= i < |ps| ==> Sendable(ps[i]) }

  function Encode(p: Packet): (b: seq<byte>)
    ensures |b| == 6 + |p.receiver| + |p.data|
  {
    MAGIC + p.receiver + WriteInt16(|p.data|) + p.data
  }

  /** The format: the magic word, the receiver, the length of the data with its low byte first, the data. */
  lemma {:induction false} Layout(p: Packet)
    requires Sendable(p)
    ensures var b := Encode(p);
            && |b| == 10 + |p.data| && b[4..8] == p.receiver && b[10..] == p.data
            && b[8] as int + 256 * b[9] as int == |p.data|
            && forall i :: 0 <= i < 4 ==> b[i] == "FUZZ"[i] as int
  {
    var b := Encode(p);
    assert [b[8], b[9]] == WriteInt16(|p.data|);
  }

  function EncodeAll(ps: seq<Packet>): seq<byte> {
    if ps == [] then [] else Encode(ps[0]) + EncodeAll(ps[1..])
  }

  lemma {:induction false} EncodeAllAppend(ps: seq<Packet>, qs: seq<Packet>)
    ensures EncodeAll(ps + qs) == EncodeAll(ps) + EncodeAll(qs)
  {
    if ps == [] {
      assert ps + qs == qs;
    } else {
      assert (ps + qs)[1..] == ps[1..] + qs;
      EncodeAllAppend(ps[1..], qs);
    }
  }

  // ---- Rebuilding packets from a buffer ----

  predicate MagicAt(buf: seq<byte>, i: nat) {
    i + 4 <= |buf| && buf[i] == 70 && buf[i + 1] == 85 && buf[i + 2] == 90 && buf[i + 3] == 90
  }

  /** The first magic word at or after `i` that has `look` bytes in the buffer. The target looks at
      the four bytes of the word (look 4); the host's bound leaves out the last position (look 5). */
  function FirstMagic(buf: seq<byte>, look: nat, i: nat): (r: Option<nat>)
    requires look >= 4
    ensures r.Some? ==> i <= r.value && r.value + look <= |buf| && MagicAt(buf, r.value)
    decreases |buf| - i
  {
    if i + look > |buf| then None
    else if MagicAt(buf, i) then Some(i)
    else FirstMagic(buf, look, i + 1)
  }

  /** Nothing before the position found matches. */
  lemma {:induction false} FirstMagicIsFirst(buf: seq<byte>, look: nat, i: nat)
    requires look >= 4
    ensures var r := FirstMagic(buf, look, i);
            forall j :: i <= j < (if r.Some? then r.value else |buf| - look + 1) ==> !MagicAt(buf, j)
    decreases |buf| - i
  {
    if i + look <= |buf| && !MagicAt(buf, i) { FirstMagicIsFirst(buf, look, i + 1); }
  }

  /** A magic word with nothing before it is the one found. */
  lemma {:induction false} FirstMagicIs(buf: seq<byte>, look: nat, from: nat, i: nat)
    requires look >= 4 && from <= i && MagicAt(buf, i) && i + look <= |buf|
    requires forall j :: from <= j < i ==> !MagicAt(buf, j)
    ensures FirstMagic(buf, look, from) == Some(i)
    decreases i - from
  {
    if from < i { FirstMagicIs(buf, look, from + 1, i); }
  }

  /** More bytes do not move the magic word found. */
  lemma {:induction false} FirstMagicStays(a: seq<byte>, b: seq<byte>, look: nat)
    requires look >= 4 && FirstMagic(a, look, 0).Some?
    ensures FirstMagic(a + b, look, 0) == FirstMagic(a, look, 0)
  {
    var i := FirstMagic(a, look, 0).value;
    FirstMagicIsFirst(a, look, 0);
    forall j | 0 <= j < i
      ensures !MagicAt(a + b, j)
    {
      assert !MagicAt(a, j);
    }
    FirstMagicIs(a + b, look, 0, i);
  }

  /** Outcome of draining a buffer: the packets found, what stays buffered, and whether a negative
      length field stopped the drain. */
  datatype Decoded = Decoded(packets: seq<Packet>, rest: seq<byte>, bad: bool)

  function Prepend(ps: seq<Packet>, d: Decoded): Decoded { d.(packets := ps + d.packets) }

  /** What a buffer that starts with a magic word holds at its front. */
  datatype Head = Partial | Negative | Whole(packet: Packet, size: nat)

  function HeadOf(b: seq<byte>): (h: Head)
    ensures h.Whole? ==> HEADER <= h.size <= |b|
  {
    if |b| < HEADER then Partial else
    var n := ReadInt16(b[8], b[9]);
    if n < 0 then Negative
    else if |b| < HEADER + n then Partial
    else Whole(Packet(b[4..8], b[HEADER..HEADER + n]), HEADER + n)
  }

  /** More bytes do not change a decision already taken. */
  lemma {:induction false} HeadStays(u: seq<byte>, b: seq<byte>)
    requires !HeadOf(u).Partial?
    ensures HeadOf(u + b) == HeadOf(u)
  {
    var n := ReadInt16(u[8], u[9]);
    if n >= 0 {
      assert (u + b)[4..8] == u[4..8];
      assert (u + b)[HEADER..HEADER + n] == u[HEADER..HEADER + n];
    }
  }

  /** Drains `buf`: skip to the magic word, take the packet if it is complete, and start again. */
  function Decode(buf: seq<byte>, look: nat): (d: Decoded)
    requires look >= 4
    decreases |buf|
  {
    match FirstMagic(buf, look, 0)
    case None => Decoded([], buf, false)
    case Some(i) =>
      match HeadOf(buf[i..])
      case Partial => Decoded([], buf[i..], false)
      case Negative => Decoded([], buf[i..], true)
      case Whole(p, size) => Prepend([p], Decode(buf[i..][size..], look))
  }

  /** Bytes before the first magic word do not matter. */
  lemma {:induction false} DecodeSkip(buf: seq<byte>, look: nat, i: nat)
    requires look >= 4 && FirstMagic(buf, look, 0) == Some(i)
    ensures FirstMagic(buf[i..], look, 0) == Some(0)
    ensures Decode(buf, look) == Decode(buf[i..], look)
  {
    assert buf[i..][0..] == buf[i..];
  }

  lemma {:induction false} PrependPrepend(ps: seq<Packet>, qs: seq<Packet>, d: Decoded)
    ensures Prepend(ps, Prepend(qs, d)) == Prepend(ps + qs, d)
  {
    assert ps + (qs + d.packets) == (ps + qs) + d.packets;
  }

  /** Draining early and feeding the residue back with later bytes changes nothing, for every
      byte string, garbage included. */
  lemma {:induction false} DecodeSplit(a: seq<byte>, b: seq<byte>, look: nat)
    requires look >= 4
    ensures var d := Decode(a, look);
            if d.bad then Decode(a + b, look).bad && Decode(a + b, look).packets == d.packets
            else Decode(a + b, look) == Prepend(d.packets, Decode(d.rest + b, look))
    decreases |a|
  {
    hide FirstMagic, HeadOf;
    match FirstMagic(a, look, 0)
    case None =>
    case Some(i) =>
      FirstMagicStays(a, b, look);
      var u := a[i..];
      assert (a + b)[i..] == u + b;
      DecodeSkip(a + b, look, i);
      match HeadOf(u)
      case Partial =>
      case Negative => HeadStays(u, b);
      case Whole(p, size) =>
        HeadStays(u, b);
        assert (u + b)[size..] == u[size..] + b;
        DecodeSplit(u[size..], b, look);
        var d := Decode(u[size..], look);
        PrependPrepend([p], d.packets, Decode(d.rest + b, look));
  }

  // ---- Feeding a decoder chunk by chunk ----

  const Fresh := Decoded([], [], false)

  /** One read: the residue grows by the chunk and is drained. Nothing is read after a bad length. */
  function Feed(d: Decoded, chunk: seq<byte>, look: nat): Decoded
    requires look >= 4
  {
    if d.bad then d else Prepend(d.packets, Decode(d.rest + chunk, look))
  }

  function FeedAll(d: Decoded, chunks: seq<seq<byte>>, look: nat): Decoded
    requires look >= 4
    decreases |chunks|
  {
    if chunks == [] then d else FeedAll(Feed(d, chunks[0], look), chunks[1..], look)
  }

  /** The two states report the same packets and the same failure; when nothing failed they also
      buffer the same bytes. */
  predicate Agree(d: Decoded, e: Decoded) {
    d.packets == e.packets && d.bad == e.bad && (!d.bad ==> d.rest == e.rest)
  }

  /** One more chunk after any byte string. */
  lemma {:induction false} FeedIsDecode(d: Decoded, seen: seq<byte>, chunk: seq<byte>, look: nat)
    requires look >= 4 && Agree(d, Decode(seen, look))
    ensures Agree(Feed(d, chunk, look), Decode(seen + chunk, look))
  {
    hide Decode;
    DecodeSplit(seen, chunk, look);
  }

  /** Chunking is invisible: whatever the byte stream and however it is cut into reads, the packets
      (and the failure, if any) are those of the undivided stream. */
  lemma {:induction false} ChunkingInvisible(seen: seq<byte>, d: Decoded, chunks: seq<seq<byte>>, look: nat, stream: seq<byte>)
    requires look >= 4 && Agree(d, Decode(seen, look))
    requires stream == seen + Flatten(chunks)
    ensures Agree(FeedAll(d, chunks, look), Decode(stream, look))
    decreases |chunks|
  {
    hide Decode;
    if chunks == [] {
      assert stream == seen;
    } else {
      FeedIsDecode(d, seen, chunks[0], look);
      assert stream == (seen + chunks[0]) + Flatten(chunks[1..]);
      ChunkingInvisible(seen + chunks[0], Feed(d, chunks[0], look), chunks[1..], look, stream);
    }
  }

  /** Host and target agree on every stream: the host's tighter search bound costs no packet. */
  lemma {:induction false} HostAndTargetAgree(buf: seq<byte>)
    ensures Decode(buf, 5).packets == Decode(buf, 4).packets
    ensures Decode(buf, 5).bad == Decode(buf, 4).bad
    decreases |buf|
  {
    FirstMagicIsFirst(buf, 4, 0);
    match FirstMagic(buf, 4, 0)
    case None =>
      assert FirstMagic(buf, 5, 0).None?;
    case Some(i) =>
      if i + 5 <= |buf| {
        FirstMagicIs(buf, 5, 0, i);
        match HeadOf(buf[i..])
        case Partial =>
        case Negative =>
        case Whole(p, size) => HostAndTargetAgree(buf[i..][size..]);
      } else {
        assert FirstMagic(buf, 5, 0).None?;
      }
  }

  // ---- Streams made of packets ----

  /** How many leading packets of `ps` lie completely within the first `n` bytes of their encoding. */
  function Complete(ps: seq<Packet>, n: nat): (k: nat)
    ensures k <= |ps|
  {
    if ps == [] || |Encode(ps[0])| > n then 0 else 1 + Complete(ps[1..], n - |Encode(ps[0])|)
  }

  lemma {:induction false} CompleteIsLargest(ps: seq<Packet>, n: nat)
    ensures var k := Complete(ps, n);
            && |EncodeAll(ps[..k])| <= n
            && (k < |ps| ==> n < |EncodeAll(ps[..k + 1])|)
    ensures n >= |EncodeAll(ps)| ==> Complete(ps, n) == |ps|
  {
    if ps == [] {
    } else if |Encode(ps[0])| > n {
      assert ps[..1][1..] == [];
      assert EncodeAll(ps[..1]) == Encode(ps[0]) + EncodeAll([]);
    } else {
      var m := n - |Encode(ps[0])|;
      CompleteIsLargest(ps[1..], m);
      var k := Complete(ps[1..], m);
      assert ps[..k + 1][1..] == ps[1..][..k];
      if k + 1 < |ps| { assert ps[..k + 2][1..] == ps[1..][..k + 1]; }
    }
  }

  lemma {:induction false} HeadOfPacket(p: Packet, tail: seq<byte>)
    requires Sendable(p)
    ensures HeadOf(Encode(p) + tail) == Whole(p, |Encode(p)|)
  {
    var b := Encode(p) + tail;
    Int16RoundTrip(|p.data|);
    assert [b[8], b[9]] == WriteInt16(|p.data|);
    assert b[4..8] == p.receiver;
    assert b[HEADER..HEADER + |p.data|] == p.data;
  }

  /** A proper prefix of one packet is buffered and yields nothing. */
  lemma {:induction false} PartialPacket(p: Packet, n: nat, look: nat)
    requires 4 <= look <= 5 && Sendable(p) && n < |Encode(p)|
    ensures Decode(Encode(p)[..n], look) == Decoded([], Encode(p)[..n], false)
  {
    var b := Encode(p)[..n];
    if n >= look {
      assert FirstMagic(b, look, 0) == Some(0) && b[0..] == b;
      if n >= HEADER {
        Int16RoundTrip(|p.data|);
        assert [b[8], b[9]] == WriteInt16(|p.data|);
      }
      assert HeadOf(b).Partial?;
    }
  }

  /** A whole packet is taken off the front. */
  lemma {:induction false} WholePacket(p: Packet, tail: seq<byte>, look: nat)
    requires 4 <= look <= 5 && Sendable(p)
    ensures Decode(Encode(p) + tail, look) == Prepend([p], Decode(tail, look))
  {
    var b := Encode(p) + tail;
    assert FirstMagic(b, look, 0) == Some(0) && b[0..] == b;
    HeadOfPacket(p, tail);
    assert b[|Encode(p)|..] == tail;
  }

  /** Whole packets come off in order, whatever follows them. */
  lemma {:induction false} WholePackets(ps: seq<Packet>, tail: seq<byte>, look: nat)
    requires 4 <= look <= 5 && AllSendable(ps)
    ensures Decode(EncodeAll(ps) + tail, look) == Prepend(ps, Decode(tail, look))
  {
    if ps == [] {
      assert EncodeAll(ps) + tail == tail;
    } else {
      var later := EncodeAll(ps[1..]) + tail;
      assert EncodeAll(ps) + tail == Encode(ps[0]) + later;
      WholePacket(ps[0], later, look);
      WholePackets(ps[1..], tail, look);
      PrependPrepend([ps[0]], ps[1..], Decode(tail, look));
      assert [ps[0]] + ps[1..] == ps;
    }
  }

  /** Cuts a prefix of a packet stream into its complete packets and the part of the next one. */
  lemma {:induction false} PrefixShape(ps: seq<Packet>, n: nat) returns (tail: seq<byte>)
    requires n <= |EncodeAll(ps)|
    ensures var k := Complete(ps, n);
            && EncodeAll(ps)[..n] == EncodeAll(ps[..k]) + tail
            && (if k == |ps| then tail == []
                else |tail| < |Encode(ps[k])| && tail == Encode(ps[k])[..|tail|])
  {
    hide Complete, EncodeAll, Encode;
    CompleteIsLargest(ps, n);
    tail := CutAt(ps, Complete(ps, n), n);
  }

  lemma {:induction false} CutAt(ps: seq<Packet>, k: nat, n: nat) returns (tail: seq<byte>)
    requires k <= |ps| && |EncodeAll(ps[..k])| <= n <= |EncodeAll(ps)|
    requires k < |ps| ==> n < |EncodeAll(ps[..k + 1])|
    ensures EncodeAll(ps)[..n] == EncodeAll(ps[..k]) + tail
    ensures if k == |ps| then tail == [] else |tail| < |Encode(ps[k])| && tail == Encode(ps[k])[..|tail|]
  {
    hide EncodeAll, Encode;
    var m := n - |EncodeAll(ps[..k])|;
    EncodeAllAppend(ps[..k], ps[k..]);
    assert ps[..k] + ps[k..] == ps;
    tail := EncodeAll(ps[k..])[..m];
    if k < |ps| {
      EncodeAllAppend(ps[..k], [ps[k]]);
      assert ps[..k + 1] == ps[..k] + [ps[k]];
      EncodeAllFront(ps[k..]);
      EncodeAllFront([ps[k]]);
      assert [ps[k]][1..] == [];
      NothingEncoded();
    } else {
      assert ps[..k] == ps;
    }
  }

  lemma {:induction false} EncodeAllFront(ps: seq<Packet>)
    requires ps != []
    ensures EncodeAll(ps) == Encode(ps[0]) + EncodeAll(ps[1..])
  {
  }

  lemma {:induction false} NothingEncoded()
    ensures EncodeAll([]) == []
  {
  }

  /** Any prefix of a packet stream decodes to exactly the packets complete in it, and what stays
      buffered is the part of the next packet received so far. */
  lemma {:induction false} PrefixDelivers(ps: seq<Packet>, n: nat, look: nat, got: seq<byte>)
    requires 4 <= look <= 5 && AllSendable(ps) && n <= |EncodeAll(ps)|
    requires got == EncodeAll(ps)[..n]
    ensures var k := Complete(ps, n); var d := Decode(got, look);
            && d.packets == ps[..k] && !d.bad && got == EncodeAll(ps[..k]) + d.rest
            && (if k == |ps| then d.rest == []
                else |d.rest| < |Encode(ps[k])| && d.rest == Encode(ps[k])[..|d.rest|])
  {
    var k := Complete(ps, n);
    var tail := PrefixShape(ps, n);
    WholePackets(ps[..k], tail, look);
    if k < |ps| {
      PartialPacket(ps[k], |tail|, look);
    } else {
      assert Decode(tail, look) == Fresh;
    }
    assert ps[..k] + [] == ps[..k];
  }
}
