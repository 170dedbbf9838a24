/** The target end of the FUZZ protocol: receive_packet_loop, with its 10000-byte buffer. */
module TargetReceiver {
  import opened Arithmetic
  import opened Bytes
  import opened Wire

  const TARGET_LOOK := 4
  const LIMIT := 10000

  /** The arguments of process_packet: the receiver arrives as a C string. */
  function Seen(ps: seq<Packet>): (q: seq<Packet>)
    ensures |q| == |ps|
  {
    seq(|ps|, i requires 0 <= i < |ps| => Packet(CString(ps[i].receiver), ps[i].data))
  }

  lemma {:induction false} SeenAsSent(ps: seq<Packet>)
    requires forall i :: 0 <= i < |ps| ==> 0 !in ps[i].receiver
    ensures Seen(ps) == ps
  {
    forall i | 0 <= i < |ps|
      ensures Seen(ps)[i] == ps[i]
    {
      CStringWhole(ps[i].receiver);
    }
  }

  lemma {:induction false} NoMagicNothingFound(buf: seq<byte>, look: nat, i: nat)
    requires look >= 4 && forall j :: i <= j < |buf| - look + 1 ==> !MagicAt(buf, j)
    ensures FirstMagic(buf, look, i).None?
    decreases |buf| - i
  {
    if i + look <= |buf| { NoMagicNothingFound(buf, look, i + 1); }
  }

  /** Taking a complete packet off the buffer leaves what the drain will end in. */
  lemma {:induction false} DecodeWhole(ps: seq<Packet>, buf: seq<byte>, c: nat, length: nat)
    requires FirstMagic(buf, TARGET_LOOK, 0) == Some(c) && c + HEADER + length <= |buf|
    requires ReadInt16(buf[c..][8], buf[c..][9]) == length
    ensures var u := buf[c..];
            Prepend(ps, Decode(buf, TARGET_LOOK))
            == Prepend(ps + [Packet(u[4..8], u[HEADER..HEADER + length])], Decode(u[HEADER + length..], TARGET_LOOK))
  {
    var u := buf[c..];
    var p := Packet(u[4..8], u[HEADER..HEADER + length]);
    assert HeadOf(u) == Whole(p, HEADER + length);
    PrependPrepend(ps, [p], Decode(u[HEADER + length..], TARGET_LOOK));
  }

  lemma {:induction false} SeenOneMore(ps: seq<Packet>, p: Packet)
    ensures Seen(ps + [p]) == Seen(ps) + [Packet(CString(p.receiver), p.data)]
  {
  }

  lemma {:induction false} SliceOfSlice(s: seq<byte>, w: nat, c: nat, i: nat, j: nat)
    requires i <= j && c + j <= w <= |s|
    ensures s[..w][c..][i..j] == s[c + i..c + j]
  {
    assert s[..w][c..][i..j] == s[..w][c + i..c + j];
  }

  class Receiver {
    const buffer: array<byte>
    var writePos: nat
    var processed: seq<Packet>
    /** A negative length field was read; what the program does with it lies outside the model. */
    var faulted: bool
    ghost var packets: seq<Packet>

    ghost predicate Valid()
      reads this
    {
      buffer.Length == LIMIT + 1 && writePos <= LIMIT && processed == Seen(packets)
    }

    ghost function Pending(): seq<byte>
      requires Valid()
      reads this, buffer
    {
      buffer[..writePos]
    }

    ghost function View(): Decoded
      requires Valid()
      reads this, buffer
    {
      Decoded(packets, Pending(), faulted)
    }

    /** What the drain of the current buffer will end in. */
    ghost function Outlook(): Decoded
      requires Valid()
      reads this, buffer
    {
      Prepend(packets, Decode(Pending(), TARGET_LOOK))
    }

    constructor ()
      ensures Valid() && View() == Fresh && fresh(buffer)
    {
      buffer := new byte[LIMIT + 1](_ => 0);
      writePos, processed, faulted, packets := 0, [], false, [];
    }

    /** memmove to the front of the buffer. */
    method CopyToStart(start: nat, length: nat)
      requires start + length <= buffer.Length
      modifies buffer
      ensures buffer[..length] == old(buffer[start..start + length])
    {
      var i := 0;
      while i < length
        invariant 0 <= i <= length
        invariant forall k :: 0 <= k < i ==> buffer[k] == old(buffer[start + k])
        invariant forall k :: i <= k < buffer.Length ==> buffer[k] == old(buffer[k])
      {
        buffer[i] := buffer[start + i];
        i := i + 1;
      }
    }

    /** Moves what stands from `start` on to the front. */
    method DropFront(start: nat)
      requires Valid() && start <= writePos
      modifies this`writePos, buffer
      ensures Valid() && writePos == old(writePos) - start && Pending() == old(Pending())[start..]
    {
      CopyToStart(start, writePos - start);
      writePos := writePos - start;
    }

    /** Moves an incomplete packet to the front. */
    method Keep(c: nat)
      requires Valid() && !faulted && FirstMagic(Pending(), TARGET_LOOK, 0) == Some(c)
      requires HeadOf(Pending()[c..]).Partial?
      modifies this`writePos, buffer
      ensures Valid() && View() == old(Outlook())
    {
      DropFront(c);
      assert packets + [] == packets;
    }

    /** extract_packet and the move of what follows it to the front. */
    method Extract(c: nat, length: nat)
      requires Valid() && !faulted && FirstMagic(Pending(), TARGET_LOOK, 0) == Some(c)
      requires c + HEADER + length <= writePos
      requires ReadInt16(Pending()[c..][8], Pending()[c..][9]) == length
      modifies this`writePos, this`processed, this`packets, buffer
      ensures Valid() && writePos < old(writePos) && Outlook() == old(Outlook())
    {
      hide Decode, FirstMagic, HeadOf, Prepend, Seen, CString;
      ghost var was := Pending()[c..];
      ghost var p := Packet(was[4..8], was[HEADER..HEADER + length]);
      DecodeWhole(packets, Pending(), c, length);
      SeenOneMore(packets, p);
      SliceOfSlice(buffer[..], writePos, c, 4, 8);
      SliceOfSlice(buffer[..], writePos, c, HEADER, HEADER + length);
      processed := processed + [Packet(CString(buffer[..][c + 4..c + 8]), buffer[..][c + HEADER..c + HEADER + length])];
      packets := packets + [p];
      DropFront(c + HEADER + length);
      assert Pending() == was[HEADER + length..];
    }

    /** Marks the state in which a negative length field stands at `c`. */
    method Fault(c: nat)
      requires Valid() && !faulted && FirstMagic(Pending(), TARGET_LOOK, 0) == Some(c)
      requires HeadOf(Pending()[c..]).Negative?
      modifies this`writePos, this`faulted, buffer
      ensures Valid() && View() == old(Outlook())
    {
      CopyToStart(c, writePos - c);
      writePos, faulted := writePos - c, true;
      assert Pending() == old(Pending()[c..]);
      assert packets + [] == packets;
    }

    /** The magic word stands at `c`: take the packet and ask for a rescan, or stop and wait. */
    method Found(c: nat) returns (stop: bool)
      requires Valid() && !faulted && FirstMagic(Pending(), TARGET_LOOK, 0) == Some(c)
      modifies this`writePos, this`processed, this`packets, this`faulted, buffer
      ensures Valid()
      ensures if stop then View() == old(Outlook())
              else !faulted && writePos < old(writePos) && Outlook() == old(Outlook())
    {
      if writePos - c >= HEADER {
        assert Pending()[c..][8] == buffer[c + 8] && Pending()[c..][9] == buffer[c + 9];
        var length := ReadInt16(buffer[c + 8], buffer[c + 9]);
        if length < 0 {
          Fault(c);
          return true;
        }
        if writePos - c >= HEADER + length {
          Extract(c, length);
          return false;
        }
        Keep(c);
      } else if c > 0 {
        Keep(c);
      } else {
        assert Pending()[0..] == Pending() && packets + [] == packets;
      }
      return true;
    }

    /** Looks for packets after a read; a packet found restarts the scan from the front (c = -1). */
    method Scan()
      requires Valid() && !faulted
      modifies this`writePos, this`processed, this`packets, this`faulted, buffer
      ensures Valid() && View() == old(Outlook())
    {
      var c := 0;
      while c < writePos - 3
        invariant Valid() && !faulted && 0 <= c
        invariant Outlook() == old(Outlook())
        invariant forall j :: 0 <= j < c ==> !MagicAt(Pending(), j)
        decreases writePos, writePos - c
      {
        assert Pending()[c] == buffer[c] && Pending()[c + 1] == buffer[c + 1];
        assert Pending()[c + 2] == buffer[c + 2] && Pending()[c + 3] == buffer[c + 3];
        if buffer[c] == 70 && buffer[c + 1] == 85 && buffer[c + 2] == 90 && buffer[c + 3] == 90 {
          FirstMagicIs(Pending(), TARGET_LOOK, 0, c);
          var stop := Found(c);
          if stop { return; }
          c := -1;
        }
        c := c + 1;
      }
      NoMagicNothingFound(Pending(), TARGET_LOOK, 0);
      assert packets + [] == packets;
    }

    /** One read(): it never returns more than the free space. */
    method OnRead(chunk: seq<byte>)
      requires Valid() && !faulted && 0 < |chunk| <= LIMIT - writePos
      modifies this`writePos, this`processed, this`packets, this`faulted, buffer
      ensures Valid() && View() == Feed(old(View()), chunk, TARGET_LOOK)
    {
      forall i | 0 <= i < |chunk| { buffer[writePos + i] := chunk[i]; }
      writePos := writePos + |chunk|;
      buffer[writePos] := 0;
      assert Pending() == old(Pending()) + chunk;
      Scan();
    }
  }

  // ---- The loop ----

  /** How much a read() returns that would like `want` bytes: at least one, at most what is free and there. */
  function ReadSize(d: Decoded, want: nat, left: nat): (n: nat)
    requires |d.rest| < LIMIT && left > 0
    ensures 0 < n <= left && |d.rest| + n <= LIMIT
  {
    Min(Min(if want == 0 then 1 else want, LIMIT - |d.rest|), left)
  }

  /** Where the loop ends: the state of the receiver, and what it has not read. */
  datatype End = End(state: Decoded, unread: seq<byte>)

  /** The loop as a sequence of reads of limited size: it ends with the stream, at a full buffer (whose
      next read() returns 0), at a negative length, or with the last of the reads considered. */
  function Drive(d: Decoded, stream: seq<byte>, sizes: seq<nat>): (e: End)
    decreases |sizes|
  {
    if d.bad || |d.rest| >= LIMIT || stream == [] || sizes == [] then End(d, stream) else
    var n := ReadSize(d, sizes[0], |stream|);
    Drive(Feed(d, stream[..n], TARGET_LOOK), stream[n..], sizes[1..])
  }

  /** receive_packet_loop over one connection. `stream` is what the peer sends; `sizes[i]` is how much the
      i-th read() would like to return. */
  method ReceivePacketLoop(stream: seq<byte>, sizes: seq<nat>)
    returns (processed: seq<Packet>, consumed: nat, faulted: bool, buffered: nat)
    ensures var e := Drive(Fresh, stream, sizes);
            && processed == Seen(e.state.packets) && faulted == e.state.bad && buffered == |e.state.rest|
            && consumed + |e.unread| == |stream| && stream[consumed..] == e.unread
  {
    hide Feed;
    var target := new Receiver();
    consumed := 0;
    var turn := 0;
    assert stream[0..] == stream && sizes[0..] == sizes;
    while consumed < |stream| && !target.faulted && target.writePos < LIMIT && turn < |sizes|
      invariant target.Valid() && fresh(target) && fresh(target.buffer)
      invariant consumed <= |stream| && turn <= |sizes|
      invariant Drive(target.View(), stream[consumed..], sizes[turn..]) == Drive(Fresh, stream, sizes)
    {
      ghost var d := target.View();
      DriveOne(d, stream[consumed..], sizes[turn..]);
      var n := ReadOnce(target, stream[consumed..], sizes[turn]);
      assert stream[consumed..][n..] == stream[consumed + n..] && sizes[turn..][1..] == sizes[turn + 1..];
      consumed, turn := consumed + n, turn + 1;
    }
    DriveEnds(target.View(), stream[consumed..], sizes[turn..]);
    return target.processed, consumed, target.faulted, target.writePos;
  }

  lemma {:induction false} DriveOne(d: Decoded, stream: seq<byte>, sizes: seq<nat>)
    requires !d.bad && |d.rest| < LIMIT && stream != [] && sizes != []
    ensures var n := ReadSize(d, sizes[0], |stream|);
            Drive(d, stream, sizes) == Drive(Feed(d, stream[..n], TARGET_LOOK), stream[n..], sizes[1..])
  {
  }

  lemma {:induction false} DriveEnds(d: Decoded, stream: seq<byte>, sizes: seq<nat>)
    requires d.bad || |d.rest| >= LIMIT || stream == [] || sizes == []
    ensures Drive(d, stream, sizes) == End(d, stream)
  {
  }

  /** One pass of the outer loop. */
  method ReadOnce(target: Receiver, stream: seq<byte>, want: nat) returns (n: nat)
    requires target.Valid() && !target.faulted && target.writePos < LIMIT && stream != []
    modifies target`writePos, target`processed, target`packets, target`faulted, target.buffer
    ensures n == ReadSize(old(target.View()), want, |stream|)
    ensures target.Valid() && target.View() == Feed(old(target.View()), stream[..n], TARGET_LOOK)
  {
    n := Min(Min(if want == 0 then 1 else want, LIMIT - target.writePos), |stream|);
    target.OnRead(stream[..n]);
  }

  /** For every stream, garbage included: the loop ends in the drain of the bytes it has read, and it ends
      for one of its four reasons. */
  lemma {:induction false} DriveDecodes(seen: seq<byte>, d: Decoded, stream: seq<byte>, sizes: seq<nat>)
    requires Agree(d, Decode(seen, TARGET_LOOK))
    ensures var e := Drive(d, stream, sizes); var n := |stream| - |e.unread|;
            && n >= 0 && e.unread == stream[n..] && Agree(e.state, Decode(seen + stream[..n], TARGET_LOOK))
            && (e.state.bad || |e.state.rest| >= LIMIT || e.unread == [] || n >= |sizes|)
    decreases |sizes|
  {
    hide Decode, Feed, Drive, ReadSize;
    if d.bad || |d.rest| >= LIMIT || stream == [] || sizes == [] {
      DriveEnds(d, stream, sizes);
      assert stream[..0] == [] && stream[0..] == stream && seen + [] == seen;
    } else {
      DriveOne(d, stream, sizes);
      var n := ReadSize(d, sizes[0], |stream|);
      FeedIsDecode(d, seen, stream[..n], TARGET_LOOK);
      DriveDecodes(seen + stream[..n], Feed(d, stream[..n], TARGET_LOOK), stream[n..], sizes[1..]);
      var m := |stream[n..]| - |Drive(d, stream, sizes).unread|;
      TwoReads(seen, stream, n, m);
    }
  }

  lemma {:induction false} TwoReads(seen: seq<byte>, stream: seq<byte>, n: nat, m: nat)
    requires n + m <= |stream|
    ensures stream[n..][m..] == stream[n + m..]
    ensures (seen + stream[..n]) + stream[n..][..m] == seen + stream[..n + m]
  {
  }

  // ---- Streams of well-formed packets ----

  predicate Fits(p: Packet) { HEADER + |p.data| <= LIMIT }

  /** How many leading packets have at most 9990 data bytes. */
  function Fitting(ps: seq<Packet>): (k: nat)
    ensures k <= |ps| && (k < |ps| ==> !Fits(ps[k])) && forall i :: 0 <= i < k ==> Fits(ps[i])
  {
    if ps == [] || !Fits(ps[0]) then 0 else 1 + Fitting(ps[1..])
  }

  /** How far into the stream of `ps` the loop gets: to its end, or to where the first packet that does not
      fit fills the buffer. */
  function Reach(ps: seq<Packet>): nat {
    var k := Fitting(ps);
    |EncodeAll(ps[..k])| + if k < |ps| then LIMIT else 0
  }

  lemma {:induction false} ReachShape(ps: seq<Packet>)
    requires AllSendable(ps)
    ensures Reach(ps) <= |EncodeAll(ps)| && Complete(ps, Reach(ps)) == Fitting(ps)
    ensures Fitting(ps) == |ps| ==> Reach(ps) == |EncodeAll(ps)|
  {
    var k := Fitting(ps);
    if k == |ps| {
      assert ps[..k] == ps;
      CompleteIsLargest(ps, Reach(ps));
    } else {
      assert ps == ps[..k] + ps[k..];
      EncodeAllAppend(ps[..k], ps[k..]);
      CompleteIs(ps, k, LIMIT);
    }
  }

  /** `extra` bytes of packet k complete nothing beyond the packets before it. */
  lemma {:induction false} CompleteIs(ps: seq<Packet>, k: nat, extra: nat)
    requires k < |ps| && extra < |Encode(ps[k])|
    ensures Complete(ps, |EncodeAll(ps[..k])| + extra) == k
  {
    if k > 0 {
      assert ps[..k][1..] == ps[1..][..k - 1] && ps[..k] != [];
      CompleteIs(ps[1..], k - 1, extra);
    }
  }

  /** Reading stays within reach: what is free in the buffer never suffices for more. */
  lemma {:induction false} WithinReach(ps: seq<Packet>, c: nat)
    requires AllSendable(ps) && c <= |EncodeAll(ps)| && c <= Reach(ps)
    ensures var d := Decode(EncodeAll(ps)[..c], TARGET_LOOK);
            && !d.bad && d.packets == ps[..Complete(ps, c)]
            && (|d.rest| >= LIMIT <==> c == Reach(ps) && Fitting(ps) < |ps|)
            && (c < Reach(ps) ==> Fitting(ps) < |ps| ==> c + (LIMIT - |d.rest|) <= Reach(ps))
  {
    hide Decode;
    var j, k := Complete(ps, c), Fitting(ps);
    PrefixDelivers(ps, c, TARGET_LOOK, EncodeAll(ps)[..c]);
    ReachShape(ps);
    CompleteIsLargest(ps, c);
    CompleteGrows(ps, c, Reach(ps));
    EncodeAllGrows(ps, j, k);
    if j < k { assert Fits(ps[j]); }
    assert |Decode(EncodeAll(ps)[..c], TARGET_LOOK).rest| == c - |EncodeAll(ps[..j])|;
  }

  lemma {:induction false} CompleteGrows(ps: seq<Packet>, m: nat, n: nat)
    requires m <= n
    ensures Complete(ps, m) <= Complete(ps, n)
  {
    if ps != [] && |Encode(ps[0])| <= m {
      CompleteGrows(ps[1..], m - |Encode(ps[0])|, n - |Encode(ps[0])|);
    }
  }

  lemma {:induction false} EncodeAllGrows(ps: seq<Packet>, j: nat, k: nat)
    requires j <= k <= |ps|
    ensures |EncodeAll(ps[..j])| <= |EncodeAll(ps[..k])|
  {
    assert ps[..k] == ps[..j] + ps[j..k];
    EncodeAllAppend(ps[..j], ps[j..k]);
  }

  /** The loop on the first `n` bytes of a packet stream, `c` of them already read, given enough reads: it
      reads all that is within reach and no more. */
  lemma {:induction false} DriveReaches(ps: seq<Packet>, c: nat, n: nat, sizes: seq<nat>)
    requires AllSendable(ps) && c <= n <= |EncodeAll(ps)| && c <= Reach(ps) && n - c <= |sizes|
    ensures var m := Min(n, Reach(ps));
            Drive(Decode(EncodeAll(ps)[..c], TARGET_LOOK), EncodeAll(ps)[c..n], sizes)
            == End(Decode(EncodeAll(ps)[..m], TARGET_LOOK), EncodeAll(ps)[m..n])
    decreases |sizes|
  {
    hide Decode, Feed, Reach, Drive;
    var all := EncodeAll(ps);
    var d, stream := Decode(all[..c], TARGET_LOOK), all[c..n];
    WithinReach(ps, c);
    ReachShape(ps);
    if |d.rest| >= LIMIT || stream == [] {
      DriveEnds(d, stream, sizes);
    } else {
      DriveOne(d, stream, sizes);
      var size := ReadSize(d, sizes[0], |stream|);
      FeedIsDecode(d, all[..c], stream[..size], TARGET_LOOK);
      SliceOn(all, c, n, size);
      WithinReach(ps, c + size);
      DriveReaches(ps, c + size, n, sizes[1..]);
    }
  }

  lemma {:induction false} SliceOn(all: seq<byte>, c: nat, n: nat, size: nat)
    requires c + size <= n <= |all|
    ensures all[..c] + all[c..n][..size] == all[..c + size] && all[c..n][size..] == all[c + size..n]
  {
  }

  /** Exactly the packets with at most 9990 data bytes are safe. Given enough reads, whatever their sizes,
      the loop delivers the packets before the first that does not fit; there the buffer is full and
      everything behind it stays unread. So all packets are delivered iff all of them fit. */
  lemma {:induction false} AllDeliveredIffFits(ps: seq<Packet>, sizes: seq<nat>)
    requires AllSendable(ps) && |EncodeAll(ps)| <= |sizes|
    ensures Reach(ps) <= |EncodeAll(ps)|
    ensures var e := Drive(Fresh, EncodeAll(ps), sizes);
            && e.state.packets == ps[..Fitting(ps)] && !e.state.bad && e.unread == EncodeAll(ps)[Reach(ps)..]
            && (|e.state.rest| == LIMIT <==> Fitting(ps) < |ps|)
            && (e.state.packets == ps <==> forall i :: 0 <= i < |ps| ==> Fits(ps[i]))
  {
    var all := EncodeAll(ps);
    assert Decode([], TARGET_LOOK) == Fresh && all[..0] == [];
    hide Decode, Drive, Reach;
    ReachShape(ps);
    assert all[0..|all|] == all;
    DriveReaches(ps, 0, |all|, sizes);
    WithinReach(ps, Reach(ps));
    PrefixRest(ps);
  }

  lemma {:induction false} PrefixRest(ps: seq<Packet>)
    requires AllSendable(ps)
    ensures Reach(ps) <= |EncodeAll(ps)| && |Decode(EncodeAll(ps)[..Reach(ps)], TARGET_LOOK).rest| <= LIMIT
  {
    hide Decode;
    ReachShape(ps);
    PrefixDelivers(ps, Reach(ps), TARGET_LOOK, EncodeAll(ps)[..Reach(ps)]);
  }

  /** The residue of fitting packets is always a proper prefix of the next one, so the buffer never fills up. */
  lemma {:induction false} NeverFills(ps: seq<Packet>, n: nat)
    requires AllSendable(ps) && n <= |EncodeAll(ps)|
    requires forall i :: 0 <= i < |ps| ==> Fits(ps[i])
    ensures var d := Decode(EncodeAll(ps)[..n], TARGET_LOOK);
            |d.rest| < LIMIT && d.packets == ps[..Complete(ps, n)] && !d.bad
  {
    PrefixDelivers(ps, n, TARGET_LOOK, EncodeAll(ps)[..n]);
  }

  /** The first `n` bytes of any packet stream, cut into reads in any way: process_packet sees exactly the
      packets complete within what the loop can reach, in order. */
  method ReceivePackets(ps: seq<Packet>, n: nat, sizes: seq<nat>) returns (processed: seq<Packet>, consumed: nat)
    requires AllSendable(ps) && n <= |EncodeAll(ps)| && n <= |sizes|
    ensures consumed == Min(n, Reach(ps)) && processed == Seen(ps[..Complete(ps, consumed)])
    ensures (forall i :: 0 <= i < |ps| ==> 0 !in ps[i].receiver) ==> processed == ps[..Complete(ps, consumed)]
    ensures n == |EncodeAll(ps)| ==> processed == Seen(ps[..Fitting(ps)])
  {
    assert Decode([], TARGET_LOOK) == Fresh;
    hide Decode, Drive, Reach;
    var faulted, buffered;
    ghost var all := EncodeAll(ps);
    processed, consumed, faulted, buffered := ReceivePacketLoop(EncodeAll(ps)[..n], sizes);
    assert all[..0] == [] && all[0..n] == all[..n];
    DriveReaches(ps, 0, n, sizes);
    ReachShape(ps);
    WithinReach(ps, Min(n, Reach(ps)));
    if forall i :: 0 <= i < |ps| ==> 0 !in ps[i].receiver { SeenAsSent(ps[..Complete(ps, consumed)]); }
  }
}
