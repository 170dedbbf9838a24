/** The host end of the FUZZ protocol: CBRead, ProcessBuffer and FindFirstOccurance. */
module HostReceiver {
  import opened Bytes
  import opened Wire

  /** The host's search leaves out the last position at which four bytes would fit. */
  const HOST_LOOK := 5

  /** Encoding.ASCII.GetString: bytes above 127 become '?'. */
  function AsciiString(b: seq<byte>): string {
    seq(|b|, i requires 0 <= i < |b| => if b[i] < 128 then b[i] as char else '?')
  }

  lemma {:induction false} AsciiRoundTrip(s: string, b: seq<byte>)
    requires |b| == |s| && forall i :: 0 <= i < |s| ==> b[i] == s[i] as int < 128
    ensures AsciiString(b) == s
  {
    assert forall i :: 0 <= i < |s| ==> AsciiString(b)[i] == s[i];
  }

  predicate OccursAt(buf: seq<byte>, i: nat, data: seq<byte>) {
    i + |data| <= |buf| && forall k :: 0 <= k < |data| ==> buf[i + k] == data[k]
  }

  lemma {:induction false} MagicOccurs(buf: seq<byte>, i: nat)
    ensures MagicAt(buf, i) <==> OccursAt(buf, i, MAGIC)
  {
    if OccursAt(buf, i, MAGIC) {
      assert buf[i + 0] == MAGIC[0] && buf[i + 1] == MAGIC[1] && buf[i + 2] == MAGIC[2] && buf[i + 3] == MAGIC[3];
    }
  }

  datatype Firing = Firing(receiver: string, data: seq<byte>)

  /** The handler calls that a list of complete packets gives rise to. */
  function Fire(handlers: set<string>, ps: seq<Packet>): seq<Firing> {
    if ps == [] then [] else
    var p := ps[|ps| - 1];
    var earlier := Fire(handlers, ps[..|ps| - 1]);
    if AsciiString(p.receiver) in handlers then earlier + [Firing(AsciiString(p.receiver), p.data)]
    else earlier
  }

  /** `at` lists the packets for whose receiver there is a handler, in order, and the calls `fired` pass on
      the receiver and the data of each. */
  ghost predicate FiredAt(fired: seq<Firing>, handlers: set<string>, ps: seq<Packet>, at: seq<nat>) {
    && |fired| == |at|
    && (forall i, j :: 0 <= i < j < |at| ==> at[i] < at[j])
    && (forall i :: 0 <= i < |ps| ==> (i in at <==> AsciiString(ps[i].receiver) in handlers))
    && (forall j :: 0 <= j < |at| ==> at[j] < |ps| && fired[j].data == ps[at[j]].data
                                      && fired[j].receiver == AsciiString(ps[at[j]].receiver))
  }

  lemma {:induction false} FireMeans(handlers: set<string>, ps: seq<Packet>) returns (at: seq<nat>)
    ensures FiredAt(Fire(handlers, ps), handlers, ps, at)
  {
    if ps == [] {
      at := [];
    } else {
      var n := |ps| - 1;
      at := FireMeans(handlers, ps[..n]);
      FiredMore(Fire(handlers, ps[..n]), handlers, ps, at);
      if AsciiString(ps[n].receiver) in handlers { at := at + [n]; }
    }
  }

  lemma {:induction false} FiredMore(fired: seq<Firing>, handlers: set<string>, ps: seq<Packet>, at: seq<nat>)
    requires ps != [] && FiredAt(fired, handlers, ps[..|ps| - 1], at)
    ensures var n := |ps| - 1; var receiver := AsciiString(ps[n].receiver);
            if receiver in handlers then FiredAt(fired + [Firing(receiver, ps[n].data)], handlers, ps, at + [n])
            else FiredAt(fired, handlers, ps, at)
  {
    var n := |ps| - 1;
    assert forall i :: 0 <= i < n ==> ps[..n][i] == ps[i];
    assert forall i :: i in at + [n] <==> i in at || i == n;
  }

  lemma {:induction false} FireAppend(handlers: set<string>, ps: seq<Packet>, qs: seq<Packet>)
    ensures Fire(handlers, ps + qs) == Fire(handlers, ps) + Fire(handlers, qs)
    decreases |qs|
  {
    if qs == [] {
      assert ps + qs == ps;
    } else {
      FireAppend(handlers, ps, qs[..|qs| - 1]);
      assert (ps + qs)[..|ps + qs| - 1] == ps + qs[..|qs| - 1];
    }
  }

  class RemoteControlProtocol {
    const handlers: set<string>
    var buffer: seq<byte>
    var fired: seq<Firing>
    /** The exception of `new byte[dataLength]` for a negative length: reading stops. */
    var faulted: bool
    ghost var packets: seq<Packet>

    ghost predicate Valid() reads this { fired == Fire(handlers, packets) }

    ghost function View(): Decoded reads this { Decoded(packets, buffer, faulted) }

    constructor (handlers: set<string>)
      ensures Valid() && View() == Fresh && this.handlers == handlers
    {
      this.handlers := handlers;
      buffer, fired, faulted, packets := [], [], false, [];
    }

    /** The first index from `startIndex` on at which `data` occurs with at least one byte after it. */
    method FindFirstOccurance(startIndex: nat, data: seq<byte>) returns (r: Option<nat>)
      requires data != []
      ensures r.Some? ==> startIndex <= r.value < |buffer| - |data| && OccursAt(buffer, r.value, data)
      ensures forall j :: startIndex <= j < (if r.Some? then r.value else |buffer| - |data|)
                          ==> !OccursAt(buffer, j, data)
    {
      var i := startIndex;
      while i < |buffer| - |data|
        invariant startIndex <= i
        invariant forall j :: startIndex <= j < i && j < |buffer| - |data| ==> !OccursAt(buffer, j, data)
      {
        if buffer[i] == data[0] {
          var found := true;
          var c := 1;
          while c < |data|
            invariant 1 <= c <= |data|
            invariant found ==> forall k :: 0 <= k < c ==> buffer[i + k] == data[k]
            invariant !found ==> !OccursAt(buffer, i, data)
          {
            if buffer[i + c] != data[c] { found := false; break; }
            c := c + 1;
          }
          if found { return Some(i); }
        }
        i := i + 1;
      }
      return None;
    }

    /** Finds the magic word as the specification of draining does. */
    method FindMagic() returns (r: Option<nat>)
      ensures r == FirstMagic(buffer, HOST_LOOK, 0)
    {
      r := FindFirstOccurance(0, MAGIC);
      forall j: nat | j < |buffer| - 4
        ensures MagicAt(buffer, j) <==> OccursAt(buffer, j, MAGIC)
      {
        MagicOccurs(buffer, j);
      }
      if r.Some? { FirstMagicIs(buffer, HOST_LOOK, 0, r.value); }
    }

    /** Extracts and removes the complete packets. */
    method ProcessBuffer()
      requires Valid() && !faulted
      modifies this
      ensures Valid()
      ensures View() == Prepend(old(packets), Decode(old(buffer), HOST_LOOK))
      ensures old(fired) <= fired
      ensures exists at :: FiredAt(fired[|old(fired)|..], handlers, Decode(old(buffer), HOST_LOOK).packets, at)
    {
      Drain();
      var found := Decode(old(buffer), HOST_LOOK).packets;
      FireAppend(handlers, old(packets), found);
      assert fired[|old(fired)|..] == Fire(handlers, found);
      ghost var at := FireMeans(handlers, found);
    }

    /** The loop of ProcessBuffer. */
    method Drain()
      requires Valid() && !faulted
      modifies this
      ensures Valid()
      ensures View() == Prepend(old(packets), Decode(old(buffer), HOST_LOOK))
    {
      while |buffer| > 0
        invariant Valid() && !faulted
        invariant Prepend(packets, Decode(buffer, HOST_LOOK))
               == Prepend(old(packets), Decode(old(buffer), HOST_LOOK))
        decreases |buffer|
      {
        var realStart := FindMagic();
        if realStart.None? { return; }
        DecodeSkip(buffer, HOST_LOOK, realStart.value);
        buffer := buffer[realStart.value..];
        assert buffer[0..] == buffer;
        if |buffer| < HEADER { return; }
        var dataLength := ReadInt16(buffer[8], buffer[9]);
        if |buffer| < HEADER + dataLength { return; }
        if dataLength < 0 { faulted := true; return; }
        var p := Packet(buffer[4..8], buffer[HEADER..HEADER + dataLength]);
        Take(p, HEADER + dataLength);
      }
    }

    /** Removes the packet at the front of the buffer and calls its handler, if there is one. */
    method Take(p: Packet, size: nat)
      requires Valid() && !faulted
      requires FirstMagic(buffer, HOST_LOOK, 0) == Some(0) && HeadOf(buffer) == Whole(p, size)
      modifies this
      ensures Valid() && !faulted && |buffer| < old(|buffer|)
      ensures buffer == old(buffer)[size..] && packets == old(packets) + [p]
      ensures fired == old(fired) + if AsciiString(p.receiver) in handlers then [Firing(AsciiString(p.receiver), p.data)] else []
      ensures Prepend(packets, Decode(buffer, HOST_LOOK))
           == Prepend(old(packets), Decode(old(buffer), HOST_LOOK))
    {
      assert buffer[0..] == buffer;
      PrependPrepend(packets, [p], Decode(buffer[size..], HOST_LOOK));
      assert (packets + [p])[..|packets|] == packets;
      buffer, packets := buffer[size..], packets + [p];
      if AsciiString(p.receiver) in handlers {
        fired := fired + [Firing(AsciiString(p.receiver), p.data)];
      }
    }

    /** One completed read. `again` says whether another read is started. */
    method CBRead(chunk: seq<byte>) returns (again: bool)
      requires Valid() && !faulted && |chunk| <= 1000
      modifies this
      ensures Valid() && View() == Feed(old(View()), chunk, HOST_LOOK)
      ensures again == (chunk != [] && !faulted)
    {
      hide Decode;
      buffer := buffer + chunk;
      ProcessBuffer();
      again := |chunk| > 0 && !faulted;
    }
  }

  /** A whole connection: for every sequence of reads the handlers fire on exactly the packets of the
      undivided byte stream, in order. */
  method Receive(handlers: set<string>, chunks: seq<seq<byte>>) returns (fired: seq<Firing>, faulted: bool)
    requires forall i :: 0 <= i < |chunks| ==> 0 < |chunks[i]| <= 1000
    ensures var d := Decode(Flatten(chunks), HOST_LOOK);
            (exists at :: FiredAt(fired, handlers, d.packets, at)) && faulted == d.bad
  {
    var host := new RemoteControlProtocol(handlers);
    var i := 0;
    while i < |chunks| && !host.faulted
      invariant 0 <= i <= |chunks| && host.Valid()
      invariant FeedAll(host.View(), chunks[i..], HOST_LOOK) == FeedAll(Fresh, chunks, HOST_LOOK)
    {
      assert chunks[i..][0] == chunks[i] && chunks[i..][1..] == chunks[i + 1..];
      var again := host.CBRead(chunks[i]);
      i := i + 1;
    }
    if host.faulted { FeedBad(host.View(), chunks[i..], HOST_LOOK); }
    assert Decode([], HOST_LOOK) == Fresh && [] + Flatten(chunks) == Flatten(chunks);
    ChunkingInvisible([], Fresh, chunks, HOST_LOOK, Flatten(chunks));
    ghost var at := FireMeans(handlers, host.packets);
    return host.fired, host.faulted;
  }

  lemma {:induction false} FeedBad(d: Decoded, chunks: seq<seq<byte>>, look: nat)
    requires d.bad && look >= 4
    ensures FeedAll(d, chunks, look) == d
    decreases |chunks|
  {
    if chunks != [] { FeedBad(d, chunks[1..], look); }
  }
}
