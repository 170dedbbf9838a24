/** OneTimeStream: a byte queue kept in 4096-byte blocks. Each lock-protected region is one method. */
module OneTimeStream {
  import opened Arithmetic
  import opened Bytes
  import opened Wire

  const BLOCK := 4096

  /** The bytes from `from` in the first block up to `to` in the last one. */
  function Held(blocks: seq<seq<byte>>, from: nat, to: nat): seq<byte>
    requires blocks != [] && forall i :: 0 <= i < |blocks| ==> |blocks[i]| == BLOCK
    requires from <= BLOCK && to <= BLOCK && (|blocks| == 1 ==> from <= to)
  {
    if |blocks| == 1 then blocks[0][from..to] else blocks[0][from..] + Held(blocks[1..], 0, to)
  }

  lemma {:induction false} HeldLength(blocks: seq<seq<byte>>, from: nat, to: nat)
    requires blocks != [] && forall i :: 0 <= i < |blocks| ==> |blocks[i]| == BLOCK
    requires from <= BLOCK && to <= BLOCK && (|blocks| == 1 ==> from <= to)
    ensures |Held(blocks, from, to)| == (|blocks| - 1) * BLOCK + to - from
  {
    if |blocks| > 1 { HeldLength(blocks[1..], 0, to); }
  }

  /** Filling more of the last block appends. */
  lemma {:induction false} HeldAppend(blocks: seq<seq<byte>>, from: nat, to: nat, last: seq<byte>, to': nat)
    requires blocks != [] && forall i :: 0 <= i < |blocks| ==> |blocks[i]| == BLOCK
    requires from <= BLOCK && to <= to' <= BLOCK && (|blocks| == 1 ==> from <= to)
    requires |last| == BLOCK && last[..to] == blocks[|blocks| - 1][..to]
    ensures var filled := blocks[|blocks| - 1 := last];
            && (forall i :: 0 <= i < |filled| ==> |filled[i]| == BLOCK)
            && Held(filled, from, to') == Held(blocks, from, to) + last[to..to']
  {
    hide Held;
    var filled := blocks[|blocks| - 1 := last];
    if |blocks| == 1 {
      SameSlice(last, blocks[0], from, to, to');
      HeldOne(blocks, from, to);
      HeldOne(filled, from, to');
    } else {
      HeldAppend(blocks[1..], 0, to, last, to');
      HeldFront(blocks, from, to);
      HeldFront(filled, from, to');
      assert filled[1..] == blocks[1..][|blocks| - 2 := last];
    }
  }

  lemma {:induction false} HeldOne(blocks: seq<seq<byte>>, from: nat, to: nat)
    requires |blocks| == 1 && |blocks[0]| == BLOCK && from <= to <= BLOCK
    ensures Held(blocks, from, to) == blocks[0][from..to]
  {
  }

  lemma {:induction false} HeldFront(blocks: seq<seq<byte>>, from: nat, to: nat)
    requires |blocks| > 1 && forall i :: 0 <= i < |blocks| ==> |blocks[i]| == BLOCK
    requires from <= BLOCK && to <= BLOCK
    ensures Held(blocks, from, to) == blocks[0][from..] + Held(blocks[1..], 0, to)
  {
  }

  lemma {:induction false} SameSlice(a: seq<byte>, b: seq<byte>, from: nat, to: nat, to': nat)
    requires from <= to <= to' <= |a| && to <= |b| && a[..to] == b[..to]
    ensures a[from..to'] == b[from..to] + a[to..to']
  {
    assert a[..to][from..] == a[from..to] && b[..to][from..] == b[from..to];
  }

  /** A new block after a full one holds nothing yet. */
  lemma {:induction false} HeldNewBlock(blocks: seq<seq<byte>>, from: nat, block: seq<byte>)
    requires blocks != [] && forall i :: 0 <= i < |blocks| ==> |blocks[i]| == BLOCK
    requires from <= BLOCK && |block| == BLOCK
    ensures var more := blocks + [block];
            && (forall i :: 0 <= i < |more| ==> |more[i]| == BLOCK)
            && Held(more, from, 0) == Held(blocks, from, BLOCK)
  {
    if |blocks| == 1 {
      assert (blocks + [block])[1..] == [block];
    } else {
      HeldNewBlock(blocks[1..], 0, block);
      assert (blocks + [block])[1..] == blocks[1..] + [block];
    }
  }

  lemma {:induction false} AfterPrefix(a: seq<byte>, b: seq<byte>)
    ensures (a + b)[..|a|] == a && (a + b)[|a|..] == b
  {
  }

  lemma {:induction false} Middle(a: seq<byte>, b: seq<byte>, c: seq<byte>)
    ensures (a + b + c)[..|a|] == a && (a + b + c)[|a|..|a| + |b|] == b
  {
  }

  lemma {:induction false} SplitFront(a: seq<byte>, n: nat, b: seq<byte>)
    requires n <= |a|
    ensures a + b == a[..n] + (a[n..] + b)
  {
  }

  /** Reading within the first block removes a prefix. */
  lemma {:induction false} HeldTake(blocks: seq<seq<byte>>, from: nat, to: nat, n: nat)
    requires blocks != [] && forall i :: 0 <= i < |blocks| ==> |blocks[i]| == BLOCK
    requires from + n <= BLOCK && to <= BLOCK && (|blocks| == 1 ==> from + n <= to)
    ensures Held(blocks, from, to) == blocks[0][from..from + n] + Held(blocks, from + n, to)
  {
    var first := blocks[0];
    if |blocks| == 1 {
      assert first[from..to] == first[from..from + n] + first[from + n..to];
    } else {
      SplitFront(first[from..], n, Held(blocks[1..], 0, to));
      assert first[from..][..n] == first[from..from + n] && first[from..][n..] == first[from + n..];
    }
  }

  /** A block read to its end can be dropped. */
  lemma {:induction false} HeldSkip(blocks: seq<seq<byte>>, to: nat)
    requires |blocks| > 1 && forall i :: 0 <= i < |blocks| ==> |blocks[i]| == BLOCK
    requires to <= BLOCK
    ensures Held(blocks, BLOCK, to) == Held(blocks[1..], 0, to)
  {
  }

  predicate ZeroFrom(b: seq<byte>, i: nat) { forall k :: i <= k < |b| ==> b[k] == 0 }

  /** What reading `n` of the bytes `all` into at most `count` bytes of a destination from `at` on does
      to it: the bytes arrive in order, nothing outside the range changes, and what lies in the range
      behind them is unchanged or zero. */
  ghost predicate Delivered(was: seq<byte>, dest: seq<byte>, at: nat, count: nat, n: nat, all: seq<byte>) {
    && |was| == |dest| && n <= count && n <= |all| && at + count <= |dest|
    && dest[at..at + n] == all[..n]
    && (forall k :: 0 <= k < |dest| && !(at <= k < at + count) ==> dest[k] == was[k])
    && (forall k :: at + n <= k < at + count ==> dest[k] == was[k] || dest[k] == 0)
  }

  /** Copying `room` bytes of a block of which only the first `got` count is a delivery, if the rest
      of the block is zero. */
  lemma {:induction false} Copied(was: seq<byte>, dest: seq<byte>, at: nat, wanted: nat, room: nat, got: nat, block: seq<byte>, from: nat, all: seq<byte>)
    requires |was| == |dest| && got <= room <= wanted && at + wanted <= |dest| && from + room <= |block|
    requires dest[at..at + room] == block[from..from + room]
    requires forall k :: 0 <= k < |dest| && !(at <= k < at + room) ==> dest[k] == was[k]
    requires got < room ==> ZeroFrom(block, from + got)
    requires got <= |all| && all[..got] == block[from..from + got]
    ensures Delivered(was, dest, at, wanted, got, all)
  {
    assert dest[at..at + got] == dest[at..at + room][..got];
    assert block[from..from + got] == block[from..from + room][..got];
    forall k | at + got <= k < at + room
      ensures dest[k] == 0
    {
      assert dest[at..at + room][k - at] == block[from..from + room][k - at] == block[from + (k - at)];
    }
  }

  /** Two deliveries in a row are one. */
  lemma {:induction false} DeliveredTwice(was: seq<byte>, mid: seq<byte>, dest: seq<byte>, at: nat, count: nat, m: nat, n: nat, all: seq<byte>)
    requires Delivered(was, mid, at, count, m, all) && m <= n
    requires Delivered(mid, dest, at + m, count - m, n - m, all[m..])
    ensures Delivered(was, dest, at, count, n, all) && all[m..][n - m..] == all[n..]
  {
    assert dest[at..at + m] == mid[at..at + m];
    assert dest[at..at + n] == dest[at..at + m] + dest[at + m..at + n];
    assert all[..n] == all[..m] + all[m..][..n - m];
  }

  /** Array.Copy of a whole chunk into a block. */
  method CopyInto(block: array<byte>, position: nat, chunk: seq<byte>)
    requires position + |chunk| <= block.Length
    modifies block
    ensures block[..] == old(block[..position]) + chunk + old(block[position + |chunk|..])
  {
    forall k | 0 <= k < |chunk| { block[position + k] := chunk[k]; }
  }

  // ---- The queue it refines ----

  /** Where a cursor stands `n` bytes behind `from`: at the end of a block rather than the start of the next. */
  function Ahead(from: nat, n: nat): nat { if n == 0 then from else (from + n - 1) % BLOCK + 1 }

  lemma {:induction false} AheadNext(from: nat, n: nat, more: nat)
    requires from <= BLOCK && Ahead(from, n) == BLOCK && 0 < more <= BLOCK
    ensures Ahead(from, n + more) == more
  {
  }

  lemma {:induction false} AheadWithin(from: nat, n: nat)
    requires from < BLOCK && from + n <= BLOCK
    ensures Ahead(from, n) == from + n
  {
  }

  /** The byte queue with its two cursors; `begun` once something, even nothing, has been written. */
  datatype Queue = Queue(bytes: seq<byte>, begun: bool, w: nat, r: nat)

  const Empty := Queue([], false, 0, 0)

  /** A Read waits if there is nothing to read. The one exception: the reader stands at the end of a full
      block and an empty Write has already opened the next one. */
  predicate Waits(s: Queue) { !s.begun || (s.bytes == [] && !(s.r == BLOCK && s.w == 0)) }

  function PutOn(s: Queue, bytes: seq<byte>): Queue {
    Queue(s.bytes + bytes, true, Ahead(if !s.begun || s.w == BLOCK then 0 else s.w, |bytes|), s.r)
  }

  function PutAll(s: Queue, chunks: seq<seq<byte>>): Queue
    decreases |chunks|
  {
    if chunks == [] then s else PutAll(PutOn(s, chunks[0]), chunks[1..])
  }

  lemma {:induction false} PutAllBytes(s: Queue, chunks: seq<seq<byte>>)
    ensures PutAll(s, chunks).bytes == s.bytes + Flatten(chunks)
    ensures chunks != [] ==> PutAll(s, chunks).begun
    decreases |chunks|
  {
    if chunks == [] {
      assert s.bytes + [] == s.bytes;
    } else {
      PutAllBytes(PutOn(s, chunks[0]), chunks[1..]);
      assert (s.bytes + chunks[0]) + Flatten(chunks[1..]) == s.bytes + Flatten(chunks);
    }
  }

  /** A Read that does not have to wait. One that empties the queue without getting all it wants leaves
      the two cursors together. */
  function TakeOff(s: Queue, count: nat): Queue {
    var n := Min(count, |s.bytes|);
    s.(bytes := s.bytes[n..], r := if n < count then s.w else Ahead(if s.r == BLOCK then 0 else s.r, n))
  }

  /** The read cursor after `read` of `count` bytes; `stop`: everything written has been read. */
  predicate Cursor(from: nat, r: nat, w: nat, read: nat, count: nat, stop: bool) {
    && (stop ==> r == w) && (!(stop && read < count) ==> r == Ahead(from, read))
    && (!stop && read < count ==> r == BLOCK)
  }

  lemma {:induction false} CursorStarts(from: nat, r: nat, w: nat, read: nat, count: nat, stop: bool)
    requires from < BLOCK && r == from + read <= BLOCK && (if stop then r == w else read < count ==> r == BLOCK)
    ensures Cursor(from, r, w, read, count, stop)
  {
  }

  lemma {:induction false} CursorMoves(from: nat, r: nat, w: nat, before: nat, r': nat, read: nat, count: nat, stop: bool)
    requires from < BLOCK && Cursor(from, r, w, before, count, false) && before < count
    requires before <= read <= count && r' == (if r == BLOCK then 0 else r) + (read - before) <= BLOCK
    requires if stop then r' == w else read < count ==> r' == BLOCK
    ensures Cursor(from, r', w, read, count, stop)
  {
    if before < read { AheadNext(from, before, read - before); }
  }

  lemma {:induction false} CursorEnds(from: nat, r: nat, w: nat, read: nat, count: nat, stop: bool)
    requires Cursor(from, r, w, read, count, stop) && (stop || read == count) && read <= count
    ensures r == if read < count then w else Ahead(from, read)
  {
  }

  class Stream {
    var readPosition: nat
    var readIndex: nat
    var writePosition: nat
    var buffers: seq<array<byte>>
    /** What the blocks hold. */
    ghost var blocks: seq<seq<byte>>
    /** All blocks ever allocated. */
    ghost var Repr: set<array<byte>>

    /** The parts of the invariant that also hold in the middle of a read. */
    ghost predicate Shape()
      reads this, Repr
    {
      && |blocks| == |buffers|
      && (forall i :: 0 <= i < |buffers| ==> buffers[i] in Repr)
      && (forall i, j :: 0 <= i < j < |buffers| ==> buffers[i] != buffers[j])
      && (forall i :: 0 <= i < |buffers| ==> buffers[i].Length == BLOCK && blocks[i] == buffers[i][..])
      && (forall i :: 0 <= i < |blocks| ==> |blocks[i]| == BLOCK)
      && readPosition <= BLOCK && writePosition <= BLOCK
      && readIndex <= |buffers|
      && (readIndex + 1 == |buffers| ==> readPosition <= writePosition)
      && (buffers != [] ==> ZeroFrom(blocks[|blocks| - 1], writePosition))
    }

    ghost predicate Valid()
      reads this, Repr
    {
      Shape() && readIndex == 0 && (buffers == [] ==> readPosition == 0)
    }

    /** The bytes not read yet. */
    ghost function Rest(): seq<byte>
      requires Shape()
      reads this, Repr
    {
      if readIndex == |buffers| then [] else Held(blocks[readIndex..], readPosition, writePosition)
    }

    ghost function Contents(): seq<byte>
      requires Valid()
      reads this, Repr
    {
      Rest()
    }

    ghost function View(): Queue
      requires Valid()
      reads this, Repr
    {
      Queue(Contents(), buffers != [], writePosition, readPosition)
    }

    constructor ()
      ensures Valid() && View() == Empty && Repr == {}
    {
      readPosition, readIndex, writePosition, buffers, blocks, Repr := 0, 0, 0, [], [], {};
    }

    /** The condition under which Read waits for a Write (lines 54-55 of the source). */
    predicate WouldBlock()
      reads this
    {
      |buffers| == 0 || (readIndex + 1 == |buffers| && readPosition >= writePosition)
    }

    lemma {:induction false} BlocksIff()
      requires Valid()
      ensures WouldBlock() <==> Waits(View())
    {
      if buffers != [] { HeldLength(blocks[0..], readPosition, writePosition); }
    }

    method CreateNewBuffer()
      requires Valid() && (buffers == [] || writePosition == BLOCK)
      modifies this
      ensures Valid() && Contents() == old(Contents())
      ensures fresh(Repr - old(Repr))
      ensures |buffers| == |old(buffers)| + 1 && writePosition == 0 && readPosition == old(readPosition)
    {
      hide Held;
      var block := new byte[BLOCK](_ => 0);
      if buffers != [] { HeldNewBlock(blocks, readPosition, block[..]); }
      assert blocks + [block[..]] == (blocks + [block[..]])[0..] && blocks == blocks[0..];
      buffers, blocks, writePosition := buffers + [block], blocks + [block[..]], 0;
      Repr := Repr + {block};
      if |buffers| == 1 { HeldLength(blocks[0..], 0, 0); }
    }

    /** One round of Write's loop: fills the last block as far as it goes. */
    method WriteBlock(buffer: seq<byte>, offset: nat, count: nat, written: nat) returns (now: nat)
      requires Valid() && written <= count && offset + count <= |buffer|
      modifies this, Repr
      ensures Valid() && buffers != []
      ensures written <= now <= count && (written < count ==> written < now)
      ensures Contents() == old(Contents()) + buffer[offset + written..offset + now]
      ensures fresh(Repr - old(Repr))
      ensures !(|buffers| == 1 && readPosition == BLOCK) && readPosition == old(readPosition)
      ensures written < count ==> !WouldBlock()
      ensures var from := if old(buffers == [] || writePosition == BLOCK) then 0 else old(writePosition);
              from < BLOCK && writePosition == from + (now - written) && (now < count ==> writePosition == BLOCK)
    {
      hide Held;
      if |buffers| == 0 || writePosition >= buffers[0].Length {
        CreateNewBuffer();
      }
      var n := Min(count - written, BLOCK - writePosition);
      FillLast(buffer[offset + written..offset + written + n]);
      now := written + n;
    }

    /** Array.Copy into the last block, and the advance of the write cursor. */
    method FillLast(chunk: seq<byte>)
      requires Valid() && buffers != [] && writePosition + |chunk| <= BLOCK
      modifies this`writePosition, this`blocks, Repr
      ensures Valid() && Contents() == old(Contents()) + chunk
      ensures writePosition == old(writePosition) + |chunk|
    {
      hide Held;
      var last := buffers[|buffers| - 1];
      ghost var was := last[..];
      CopyInto(last, writePosition, chunk);
      Middle(was[..writePosition], chunk, was[writePosition + |chunk|..]);
      assert ZeroFrom(last[..], writePosition + |chunk|);
      HeldAppend(blocks, readPosition, writePosition, last[..], writePosition + |chunk|);
      assert blocks == blocks[0..];
      blocks, writePosition := blocks[|blocks| - 1 := last[..]], writePosition + |chunk|;
      assert blocks == blocks[0..];
    }

    /** Appends `count` bytes of `buffer`; afterwards a reader that waited can proceed. */
    method Write(buffer: seq<byte>, offset: nat, count: nat)
      requires Valid() && offset + count <= |buffer|
      modifies this, Repr
      ensures Valid() && View() == PutOn(old(View()), buffer[offset..offset + count])
      ensures fresh(Repr - old(Repr))
      ensures buffers != [] && !(|buffers| == 1 && readPosition == BLOCK)
    {
      hide Held, Ahead;
      ghost var from := if buffers == [] || writePosition == BLOCK then 0 else writePosition;
      var written := WriteBlock(buffer, offset, count, 0);
      AheadWithin(from, written);
      while written < count
        invariant Valid() && written <= count
        invariant Contents() == old(Contents()) + buffer[offset..offset + written]
        invariant readPosition == old(readPosition) && writePosition == Ahead(from, written)
        invariant written < count ==> writePosition == BLOCK
        invariant fresh(Repr - old(Repr))
        invariant buffers != [] && !(|buffers| == 1 && readPosition == BLOCK)
      {
        ghost var before := written;
        written := WriteBlock(buffer, offset, count, written);
        AheadNext(from, before, written - before);
        Pieces(old(Contents()), buffer, offset, before, written);
      }
    }

    /** The finally block of Read: drops the blocks that have been read. */
    method Reclaim()
      requires Shape() && (readIndex == |buffers| ==> readPosition == 0)
      modifies this`readIndex, this`buffers, this`blocks
      ensures Valid() && Contents() == old(Rest())
      ensures buffers == old(buffers[readIndex..])
    {
      if readIndex > 0 {
        assert blocks[readIndex..] == blocks[readIndex..][0..];
        buffers, blocks, readIndex := buffers[readIndex..], blocks[readIndex..], 0;
        assert blocks == blocks[0..];
      }
    }

    /** Read's loop. It copies exactly what is available, up to `count`. */
    method ReadLoop(dest: array<byte>, offset: nat, count: nat) returns (read: nat)
      requires Valid() && buffers != [] && offset + count <= dest.Length && dest !in Repr
      modifies this`readPosition, this`readIndex, dest
      ensures Shape() && read == Min(count, |old(Contents())|)
      ensures Delivered(old(dest[..]), dest[..], offset, count, read, old(Contents()))
      ensures Rest() == old(Contents())[read..]
      ensures readIndex == |buffers| <==> old(|buffers| == 1 && readPosition == BLOCK)
      ensures if readIndex == |buffers| then readPosition == 0
              else readPosition == if read < count then writePosition
                                   else Ahead(if old(readPosition) == BLOCK then 0 else old(readPosition), read)
    {
      hide Held, Ahead, Cursor, Delivered;
      ghost var from := if readPosition == BLOCK then 0 else readPosition;
      var stop;
      read, stop := ReadBlock(dest, offset, count, 0);
      if readIndex < |buffers| { CursorStarts(from, readPosition, writePosition, read, count, stop); }
      while !stop && read < count && readIndex < |buffers|
        invariant Shape() && (readIndex == |buffers| ==> readPosition == 0)
        invariant Delivered(old(dest[..]), dest[..], offset, count, read, old(Contents()))
        invariant read <= count && read <= |old(Contents())| && Rest() == old(Contents())[read..] && (stop ==> Rest() == [])
        invariant readIndex + 1 == |buffers| && readPosition == BLOCK ==> stop
        invariant readIndex < |buffers| ==> from < BLOCK && Cursor(from, readPosition, writePosition, read, count, stop)
        invariant readIndex == |buffers| <==> old(|buffers| == 1 && readPosition == BLOCK)
        decreases !stop, count - read
      {
        ghost var before, was, r := read, dest[..], readPosition;
        read, stop := ReadBlock(dest, offset, count, read);
        if readIndex < |buffers| { CursorMoves(from, r, writePosition, before, readPosition, read, count, stop); }
        DeliveredTwice(old(dest[..]), was, dest[..], offset, count, before, read, old(Contents()));
      }
      if readIndex < |buffers| { CursorEnds(from, readPosition, writePosition, read, count, stop); }
    }

    /** The lock-protected region of Read, once something has been written. Zeros are all that can land in
        `dest` behind the bytes returned. The block list is left empty only from a state in which a lone
        full block has been read to its end (line 90). */
    method ReadLocked(dest: array<byte>, offset: nat, count: nat) returns (read: nat)
      requires Valid() && buffers != [] && offset + count <= dest.Length && dest !in Repr
      modifies this, dest
      ensures Valid() && read == Min(count, |old(Contents())|)
      ensures Delivered(old(dest[..]), dest[..], offset, count, read, old(Contents()))
      ensures Contents() == old(Contents())[read..]
      ensures buffers == [] <==> old(|buffers| == 1 && readPosition == BLOCK)
      ensures buffers != [] ==> View() == TakeOff(old(View()), count)
      ensures Repr == old(Repr)
    {
      hide Held, Ahead, Delivered, Rest, ZeroFrom;
      read := ReadLoop(dest, offset, count);
      Reclaim();
    }

    /** Read with a single reader. `arrivals` are the Writes made while it waits (lines 54-61); when it
        waits there is at least one. The block list is never left empty: line 90 is not reached. */
    method Read(dest: array<byte>, offset: nat, count: nat, arrivals: seq<seq<byte>>) returns (read: nat)
      requires Valid() && offset + count <= dest.Length && dest !in Repr
      requires WouldBlock() ==> arrivals != []
      modifies this, Repr, dest
      ensures Valid() && buffers != [] && fresh(Repr - old(Repr))
      ensures var found := if old(WouldBlock()) then PutAll(old(View()), arrivals) else old(View());
              && read == Min(count, |found.bytes|)
              && Delivered(old(dest[..]), dest[..], offset, count, read, found.bytes)
              && View() == TakeOff(found, count)
      ensures old(WouldBlock()) ==> old(Contents()) == []
      ensures read == 0 && count > 0 && !old(WouldBlock()) ==> old(readPosition) == BLOCK && old(writePosition) == 0
    {
      hide Held, PutAll, TakeOff;
      BlocksIff();
      if WouldBlock() { WriteAll(arrivals); }
      read := ReadLocked(dest, offset, count);
    }

    method WriteAll(chunks: seq<seq<byte>>)
      requires Valid()
      modifies this, Repr
      ensures Valid() && View() == PutAll(old(View()), chunks)
      ensures fresh(Repr - old(Repr))
      ensures chunks != [] ==> buffers != [] && !(|buffers| == 1 && readPosition == BLOCK)
      decreases |chunks|
    {
      hide Held, PutOn;
      if chunks != [] {
        Write(chunks[0], 0, |chunks[0]|);
        assert chunks[0][0..|chunks[0]|] == chunks[0];
        if |chunks| > 1 { WriteAll(chunks[1..]); }
      }
    }

    /** One round of Read's loop. The copy takes the whole block, the cursor only what was written, so
        on the last block zeros can land in `dest` behind the bytes returned. */
    method ReadBlock(dest: array<byte>, offset: nat, count: nat, read: nat) returns (now: nat, stop: bool)
      requires Shape() && readIndex < |buffers|
      requires read <= count && offset + count <= dest.Length && dest !in Repr
      modifies this`readPosition, this`readIndex, dest
      ensures Shape() && read <= now <= count && now - read <= |old(Rest())|
      ensures Delivered(old(dest[..]), dest[..], offset + read, count - read, now - read, old(Rest()))
      ensures Rest() == old(Rest())[now - read..]
      ensures !stop && now < count ==> readIndex < |buffers| && read < now
      ensures stop ==> Rest() == []
      ensures readIndex + 1 == |buffers| && readPosition == BLOCK ==> stop
      ensures readIndex == |buffers| ==> readPosition == 0
      ensures readIndex == |buffers| <==> old(readIndex + 1 == |buffers| && readPosition == BLOCK)
      ensures var from := if old(readPosition) == BLOCK then 0 else old(readPosition);
              readIndex < |buffers| ==> from < BLOCK && readPosition == from + (now - read)
      ensures readIndex < |buffers| ==> if stop then readPosition == writePosition else now < count ==> readPosition == BLOCK
    {
      hide Held;
      now, stop := read, true;
      SkipFull();
      if readIndex < |buffers| {
        var currentread := TakeFromBlock(dest, offset + read, count - read);
        now := read + currentread;
        stop := readIndex == |buffers| - 1 && readPosition == writePosition;
      }
    }

    /** The copy and the advance of the read cursor within one block. */
    method TakeFromBlock(dest: array<byte>, at: nat, wanted: nat) returns (got: nat)
      requires Shape() && readIndex < |buffers| && readPosition < BLOCK
      requires at + wanted <= dest.Length && dest !in Repr
      modifies this`readPosition, dest
      ensures Shape() && Delivered(old(dest[..]), dest[..], at, wanted, got, old(Rest()))
      ensures Rest() == old(Rest())[got..]
      ensures readIndex + 1 == |buffers| ==> got == Min(wanted, |old(Rest())|)
      ensures readIndex + 1 == |buffers| ==> (Rest() == [] <==> readPosition == writePosition)
      ensures readIndex + 1 < |buffers| && wanted > 0 ==> got > 0
      ensures got <= wanted && readPosition == old(readPosition) + got
      ensures got < wanted ==> readPosition == if readIndex + 1 == |buffers| then writePosition else BLOCK
    {
      hide Held, Delivered;
      var room := Min(wanted, BLOCK - readPosition);
      CopyBlock(dest, at, room);
      var currentBufferLength := BLOCK;
      if readIndex == |buffers| - 1 {
        currentBufferLength := writePosition;
      }
      got := Min(wanted, currentBufferLength - readPosition);
      HeldLength(blocks[readIndex..], readPosition, writePosition);
      HeldTake(blocks[readIndex..], readPosition, writePosition, got);
      Copied(old(dest[..]), dest[..], at, wanted, room, got, blocks[readIndex], readPosition, old(Rest()));
      AfterPrefix(blocks[readIndex][readPosition..readPosition + got], Held(blocks[readIndex..], readPosition + got, writePosition));
      readPosition := readPosition + got;
    }

    /** Leaves a block that has been read to its end. */
    method SkipFull()
      requires Shape() && readIndex < |buffers|
      modifies this`readPosition, this`readIndex
      ensures Shape() && Rest() == old(Rest())
      ensures readIndex < |buffers| ==> readPosition < BLOCK
      ensures readIndex < |buffers| ==> readPosition == if old(readPosition) == BLOCK then 0 else old(readPosition)
      ensures readIndex == |buffers| ==> Rest() == [] && readPosition == 0
      ensures readIndex == |buffers| <==> old(readIndex + 1 == |buffers| && readPosition == BLOCK)
    {
      hide Held;
      if readPosition >= buffers[readIndex].Length {
        NextBlock();
      }
    }

    /** Moves the cursor from the end of a block to the start of the next. */
    method NextBlock()
      requires Shape() && readIndex < |buffers| && readPosition == BLOCK
      modifies this`readPosition, this`readIndex
      ensures Shape() && readIndex == old(readIndex) + 1 && readPosition == 0 && Rest() == old(Rest())
    {
      if readIndex + 1 < |buffers| {
        HeldSkip(blocks[readIndex..], writePosition);
        assert blocks[readIndex..][1..] == blocks[readIndex + 1..];
      }
      hide Held;
      readIndex, readPosition := readIndex + 1, 0;
    }

    /** Array.Copy out of the current block. */
    method CopyBlock(dest: array<byte>, at: nat, n: nat)
      requires Shape() && readIndex < |buffers| && readPosition + n <= BLOCK
      requires at + n <= dest.Length && dest !in Repr
      modifies dest
      ensures Shape()
      ensures dest[at..at + n] == blocks[readIndex][readPosition..readPosition + n]
      ensures forall k :: 0 <= k < dest.Length && !(at <= k < at + n) ==> dest[k] == old(dest[k])
    {
      var block := buffers[readIndex];
      forall k | 0 <= k < n { dest[at + k] := block[readPosition + k]; }
    }
  }

  lemma {:induction false} Pieces(before: seq<byte>, b: seq<byte>, from: nat, mid: nat, to: nat)
    requires mid <= to && from + to <= |b|
    ensures (before + b[from..from + mid]) + b[from + mid..from + to] == before + b[from..from + to]
  {
    assert b[from..from + to] == b[from..from + mid] + b[from + mid..from + to];
  }

  // ---- Sessions ----

  /** A Write, or a Read together with the Writes, at least one, that will come in should it have to wait.
      If it does not, they are not made. */
  datatype Op = Put(bytes: seq<byte>) | Get(count: nat, first: seq<byte>, more: seq<seq<byte>>)

  /** What is written in the course of an operation. */
  function Incoming(s: Queue, op: Op): seq<byte> {
    match op
    case Put(bytes) => bytes
    case Get(_, first, more) => if Waits(s) then Flatten([first] + more) else []
  }

  /** What a Read finds: what is there, or what comes in while it waits. */
  function Found(s: Queue, op: Op): Queue
    requires op.Get?
  {
    if Waits(s) then PutAll(s, [op.first] + op.more) else s
  }

  function Next(s: Queue, op: Op): Queue {
    match op
    case Put(bytes) => PutOn(s, bytes)
    case Get(count, _, _) => TakeOff(Found(s, op), count)
  }

  function Taken(s: Queue, op: Op): seq<byte> {
    if op.Put? then [] else var bytes := Found(s, op).bytes; bytes[..Min(op.count, |bytes|)]
  }

  function QueueAfter(ops: seq<Op>): Queue {
    if ops == [] then Empty else Next(QueueAfter(ops[..|ops| - 1]), ops[|ops| - 1])
  }

  /** What the Reads return, and which of them had to wait. */
  function Outputs(ops: seq<Op>): (outs: seq<seq<byte>>)
    ensures |outs| == |ops|
  {
    if ops == [] then [] else
    var n := |ops| - 1;
    Outputs(ops[..n]) + [Taken(QueueAfter(ops[..n]), ops[n])]
  }

  function WaitsOf(ops: seq<Op>): (waited: seq<bool>)
    ensures |waited| == |ops|
  {
    if ops == [] then [] else
    var n := |ops| - 1;
    WaitsOf(ops[..n]) + [ops[n].Get? && Waits(QueueAfter(ops[..n]))]
  }

  /** A Read returns at once though there is nothing to read, after a block has been filled and read to
      its end and an empty Write has come. */
  lemma {:induction false} NothingWithoutWaiting(block: seq<byte>, read: Op, last: Op)
    requires |block| == BLOCK && read.Get? && read.count == BLOCK && last.Get?
    ensures var ops := [] + [Put(block)] + [read] + [Put([])] + [last];
            Outputs(ops) == [[], block, [], []] && WaitsOf(ops) == [false, false, false, false]
  {
    hide QueueAfter, Outputs, WaitsOf;
    var s1, s2, s3 := Queue(block, true, BLOCK, 0), Queue([], true, BLOCK, BLOCK), Queue([], true, 0, BLOCK);
    NothingPlayed();
    OneMore([], Put(block));
    assert Next(Empty, Put(block)) == s1 by { assert [] + block == block; }
    OneMore([] + [Put(block)], read);
    assert Next(s1, read) == s2 && Taken(s1, read) == block;
    OneMore([] + [Put(block)] + [read], Put([]));
    assert Next(s2, Put([])) == s3;
    OneMore([] + [Put(block)] + [read] + [Put([])], last);
    assert Taken(s3, last) == [];
  }

  lemma {:induction false} OneMore(ops: seq<Op>, op: Op)
    ensures QueueAfter(ops + [op]) == Next(QueueAfter(ops), op)
    ensures Outputs(ops + [op]) == Outputs(ops) + [Taken(QueueAfter(ops), op)]
    ensures WaitsOf(ops + [op]) == WaitsOf(ops) + [op.Get? && Waits(QueueAfter(ops))]
  {
    assert (ops + [op])[..|ops|] == ops;
  }

  /** Every sequence of Writes and Reads on the block structure behaves as on the byte queue: the Reads
      return the same bytes, and the same ones wait. */
  method Play(ops: seq<Op>) returns (outs: seq<seq<byte>>, waited: seq<bool>)
    ensures outs == Outputs(ops) && waited == WaitsOf(ops)
  {
    hide QueueAfter, Outputs, WaitsOf, Held, Next, Taken, Waits;
    var stream := new Stream();
    outs, waited := [], [];
    ghost var played: seq<Op> := [];
    var i := 0;
    NothingPlayed();
    while i < |ops|
      invariant 0 <= i <= |ops| && played == ops[..i]
      invariant fresh(stream) && stream.Valid() && fresh(stream.Repr)
      invariant stream.View() == QueueAfter(played) && outs == Outputs(played) && waited == WaitsOf(played)
    {
      var out, wait := PlayOne(stream, ops[i]);
      OneMore(played, ops[i]);
      played, outs, waited := played + [ops[i]], outs + [out], waited + [wait];
      i := i + 1;
    }
    assert ops[..i] == ops;
  }

  lemma {:induction false} NothingPlayed()
    ensures QueueAfter([]) == Empty && Outputs([]) == [] && WaitsOf([]) == []
  {
  }

  method PlayOne(stream: Stream, op: Op) returns (out: seq<byte>, wait: bool)
    requires stream.Valid()
    modifies stream, stream.Repr
    ensures stream.Valid() && fresh(stream.Repr - old(stream.Repr))
    ensures stream.View() == Next(old(stream.View()), op)
    ensures out == Taken(old(stream.View()), op) && wait == (op.Get? && Waits(old(stream.View())))
  {
    hide Held, Waits, PutAll, PutOn, TakeOff;
    match op
    case Put(bytes) =>
      stream.Write(bytes, 0, |bytes|);
      out, wait := [], false;
      assert bytes[0..|bytes|] == bytes;
    case Get(count, first, more) =>
      out, wait := GetOne(stream, op);
  }

  method GetOne(stream: Stream, op: Op) returns (out: seq<byte>, wait: bool)
    requires stream.Valid() && op.Get?
    modifies stream, stream.Repr
    ensures stream.Valid() && fresh(stream.Repr - old(stream.Repr))
    ensures stream.View() == Next(old(stream.View()), op)
    ensures out == Taken(old(stream.View()), op) && wait == Waits(old(stream.View()))
  {
    hide Held, Waits, PutAll, PutOn, TakeOff;
    stream.BlocksIff();
    var arrivals := [op.first] + op.more;
    var dest := new byte[op.count](_ => 0);
    wait := stream.WouldBlock();
    var n := stream.Read(dest, 0, op.count, arrivals);
    out := dest[..n];
    assert dest[0..0 + n] == dest[..n];
  }

  function Written(ops: seq<Op>): seq<byte> {
    if ops == [] then [] else
    var n := |ops| - 1;
    Written(ops[..n]) + Incoming(QueueAfter(ops[..n]), ops[n])
  }

  /** Conservation: what was read, in order, followed by what is still queued, is what was written. */
  lemma {:induction false} NothingLostOrRepeated(ops: seq<Op>)
    ensures Flatten(Outputs(ops)) + QueueAfter(ops).bytes == Written(ops)
  {
    if ops != [] {
      hide Next, Taken, Incoming, QueueAfter, Outputs, Flatten;
      var n := |ops| - 1;
      NothingLostOrRepeated(ops[..n]);
      OneMore(ops[..n], ops[n]);
      assert ops[..n] + [ops[n]] == ops;
      var s, outs := QueueAfter(ops[..n]), Outputs(ops[..n]);
      FlattenAppend(outs, Taken(s, ops[n]));
      NextBytes(s, ops[n]);
      Regroup(Flatten(outs), Taken(s, ops[n]), Next(s, ops[n]).bytes, s.bytes, Incoming(s, ops[n]));
    } else {
      NothingPlayed();
    }
  }

  lemma {:induction false} Regroup(read: seq<byte>, out: seq<byte>, left: seq<byte>, q: seq<byte>, more: seq<byte>)
    requires out + left == q + more
    ensures (read + out) + left == (read + q) + more
  {
    assert (read + out) + left == read + (out + left);
  }

  lemma {:induction false} NextBytes(s: Queue, op: Op)
    ensures Taken(s, op) + Next(s, op).bytes == s.bytes + Incoming(s, op)
  {
    match op
    case Put(bytes) =>
    case Get(count, first, more) =>
      hide Waits, PutAll;
      PutAllBytes(s, [first] + more);
      var f := Found(s, op);
      var n := Min(count, |f.bytes|);
      assert f.bytes[..n] + f.bytes[n..] == f.bytes;
      assert s.bytes + [] == s.bytes;
  }

  lemma {:induction false} FlattenAppend(chunks: seq<seq<byte>>, last: seq<byte>)
    ensures Flatten(chunks + [last]) == Flatten(chunks) + last
  {
    if chunks == [] {
      assert chunks + [last] == [last] && Flatten([last]) == last + Flatten([]);
    } else {
      assert (chunks + [last])[1..] == chunks[1..] + [last];
      FlattenAppend(chunks[1..], last);
    }
  }
}
