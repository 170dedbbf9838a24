/** The EXEC command: encoded by the host in C#, decoded by the target in C. */
module ExecCommand {
  import opened Bytes
  import opened Wire
  import T = TargetReceiver

  /** Encoding.ASCII.GetBytes: characters above 127 become '?'. */
  function AsciiBytes(s: string): (b: seq<byte>)
    ensures |b| == |s|
  {
    seq(|s|, i requires 0 <= i < |s| => if s[i] as int < 128 then s[i] as int else 63)
  }

  // ---- The host's encoder ----

  function EncodeString(s: string): seq<byte> { WriteInt16(|s|) + AsciiBytes(s) }

  function EncodeStrings(ss: seq<string>): seq<byte> {
    if ss == [] then [] else EncodeStrings(ss[..|ss| - 1]) + EncodeString(ss[|ss| - 1])
  }

  function EncodeList(ss: seq<string>): seq<byte> { WriteInt16(|ss|) + EncodeStrings(ss) }

  function EncodeExec(name: string, path: string, args: seq<string>, envp: seq<string>): seq<byte> {
    EncodeString(name) + EncodeString(path) + EncodeList(args) + EncodeList(envp)
  }

  /** The Data property. */
  method Data(name: string, path: string, args: seq<string>, envp: seq<string>) returns (data: seq<byte>)
    ensures data == EncodeExec(name, path, args, envp)
  {
    data := [];
    data := data + WriteInt16(|name|);
    data := data + AsciiBytes(name);
    data := data + WriteInt16(|path|);
    data := data + AsciiBytes(path);
    assert data == EncodeString(name) + EncodeString(path);
    data := AddList(data, args);
    data := AddList(data, envp);
  }

  /** The count and the strings of one list, added to `data`. */
  method AddList(data: seq<byte>, ss: seq<string>) returns (more: seq<byte>)
    ensures more == data + EncodeList(ss)
  {
    more := data + WriteInt16(|ss|);
    var i := 0;
    while i < |ss|
      invariant 0 <= i <= |ss|
      invariant more == data + (WriteInt16(|ss|) + EncodeStrings(ss[..i]))
    {
      assert ss[..i + 1][..i] == ss[..i];
      more := more + WriteInt16(|ss[i]|);
      more := more + AsciiBytes(ss[i]);
      i := i + 1;
    }
    assert ss[..i] == ss;
  }

  // ---- The target's decoder ----

  type CStr = seq<byte>

  datatype StringRead = StringRead(text: CStr, size: nat)

  /** read_string_malloc at the front of `b`. None: the string is not there as announced, which the
      source does not guard against and this model leaves open. */
  function ReadString(b: seq<byte>): (r: Option<StringRead>)
    ensures r.Some? ==> 2 <= r.value.size <= |b|
  {
    if |b| < 2 then None else
    var n := ReadInt16(b[0], b[1]);
    if n < 0 || |b| < 2 + n then None else Some(StringRead(CString(b[2..2 + n]), 2 + n))
  }

  datatype ListRead = ListRead(items: seq<CStr>, size: nat)

  /** `n` strings in a row. */
  function ReadStrings(b: seq<byte>, n: nat): (r: Option<ListRead>)
    ensures r.Some? ==> r.value.size <= |b| && |r.value.items| == n
    decreases n
  {
    if n == 0 then Some(ListRead([], 0)) else
    match ReadStrings(b, n - 1)
    case None => None
    case Some(before) =>
      match ReadString(b[before.size..])
      case None => None
      case Some(s) => Some(ListRead(before.items + [s.text], before.size + s.size))
  }

  /** read_string_list */
  function ReadList(b: seq<byte>): (r: Option<ListRead>)
    ensures r.Some? ==> r.value.size <= |b|
  {
    if |b| < 2 then None else
    var n := ReadInt16(b[0], b[1]);
    if n < 0 then None else
    match ReadStrings(b[2..], n)
    case None => None
    case Some(l) => Some(ListRead(l.items, 2 + l.size))
  }

  /** What posix_spawn is called with; a None in a vector is its NULL. */
  datatype Spawn = Spawn(name: CStr, path: CStr, argv: seq<Option<CStr>>, envp: seq<Option<CStr>>, consumed: nat)

  function Pointers(items: seq<CStr>): (r: seq<Option<CStr>>)
    ensures |r| == |items|
  {
    seq(|items|, i requires 0 <= i < |items| => Some(items[i]))
  }

  function DecodeExec(b: seq<byte>): Option<Spawn> {
    match ReadString(b)
    case None => None
    case Some(name) =>
      match ReadString(b[name.size..])
      case None => None
      case Some(path) =>
        match ReadList(b[name.size..][path.size..])
        case None => None
        case Some(args) =>
          match ReadList(b[name.size..][path.size..][args.size..])
          case None => None
          case Some(envp) =>
            Some(Spawn(name.text, path.text, [Some(path.text)] + Pointers(args.items) + [None],
                       Pointers(envp.items) + [None], name.size + path.size + args.size + envp.size))
  }

  /** read_string_list with room for `extra` items in front of the strings. */
  method ReadStringList(b: seq<byte>, extra: nat) returns (list: array?<Option<CStr>>, readBytes: nat)
    ensures ReadList(b).None? <==> list == null
    ensures list != null ==> fresh(list) && readBytes == ReadList(b).value.size
                             && list[..] == seq(extra, _ => None) + Pointers(ReadList(b).value.items) + [None]
  {
    hide ReadStrings, ReadString;
    if |b| < 2 { return null, 0; }
    var count := ReadInt16(b[0], b[1]);
    if count < 0 { return null, 0; }
    var offset := 0;
    var items := new Option<CStr>[count + extra + 1](_ => None);
    var counter := 0;
    ghost var sofar := ListRead([], 0);
    NoStringsYet(b[2..]);
    while counter < count
      invariant 0 <= counter <= count && offset == sofar.size <= |b| - 2 && |sofar.items| == counter
      invariant ReadStrings(b[2..], counter) == Some(sofar)
      invariant items[..] == seq(extra, _ => None) + Pointers(sofar.items) + seq(count + 1 - counter, _ => None)
    {
      var s := ReadString(b[2..][offset..]);
      OneMoreString(b[2..], counter, sofar);
      if s.None? {
        StaysUnread(b[2..], counter + 1, count);
        return null, 0;
      }
      items[counter + extra] := Some(s.value.text);
      sofar := ListRead(sofar.items + [s.value.text], sofar.size + s.value.size);
      offset := offset + s.value.size;
      counter := counter + 1;
    }
    return items, offset + 2;
  }

  lemma {:induction false} NoStringsYet(b: seq<byte>)
    ensures ReadStrings(b, 0) == Some(ListRead([], 0))
  {
  }

  lemma {:induction false} OneMoreString(b: seq<byte>, n: nat, before: ListRead)
    requires ReadStrings(b, n) == Some(before)
    ensures before.size <= |b|
    ensures ReadStrings(b, n + 1) == match ReadString(b[before.size..])
                                     case None => None
                                     case Some(s) => Some(ListRead(before.items + [s.text], before.size + s.size))
  {
  }

  lemma {:induction false} StaysUnread(b: seq<byte>, k: nat, n: nat)
    requires k <= n && ReadStrings(b, k).None?
    ensures ReadStrings(b, n).None?
    decreases n
  {
    if k < n { StaysUnread(b, k, n - 1); }
  }

  /** handler_exec up to the call of posix_spawn. */
  method HandlerExec(data: seq<byte>) returns (spawn: Option<Spawn>)
    ensures spawn == DecodeExec(data)
  {
    hide ReadString, ReadStrings, ReadList;
    var name := ReadString(data);
    if name.None? { return None; }
    var b := data[name.value.size..];
    var path := ReadString(b);
    if path.None? { return None; }
    b := b[path.value.size..];
    var argv, size := ReadStringList(b, 1);
    if argv == null { return None; }
    var offset := name.value.size + path.value.size + size;
    argv[0] := Some(path.value.text);
    ghost var args := ReadList(b).value;
    assert argv[..] == [Some(path.value.text)] + Pointers(args.items) + [None];
    b := b[size..];
    var envp, envSize := ReadStringList(b, 0);
    if envp == null { return None; }
    assert seq(0, _ => None) + Pointers(ReadList(b).value.items) == Pointers(ReadList(b).value.items);
    return Some(Spawn(name.value.text, path.value.text, argv[..], envp[..], offset + envSize));
  }

  // ---- Round trip ----

  /** What arrives of a string: its ASCII bytes up to the first NUL. */
  function Arrives(s: string): CStr { CString(AsciiBytes(s)) }

  function ArriveAll(ss: seq<string>): (r: seq<CStr>)
    ensures |r| == |ss|
  {
    if ss == [] then [] else ArriveAll(ss[..|ss| - 1]) + [Arrives(ss[|ss| - 1])]
  }

  lemma {:induction false} StringRoundTrip(s: string, rest: seq<byte>)
    requires |s| < 0x8000
    ensures ReadString(EncodeString(s) + rest) == Some(StringRead(Arrives(s), 2 + |s|))
    ensures (EncodeString(s) + rest)[2 + |s|..] == rest && |EncodeString(s)| == 2 + |s|
  {
    var b := EncodeString(s) + rest;
    Int16RoundTrip(|s|);
    assert [b[0], b[1]] == WriteInt16(|s|);
    assert b[2..2 + |s|] == AsciiBytes(s);
  }

  predicate Short(ss: seq<string>) { forall i :: 0 <= i < |ss| ==> |ss[i]| < 0x8000 }

  lemma {:induction false} StringsRoundTrip(ss: seq<string>, rest: seq<byte>)
    requires Short(ss)
    ensures ReadStrings(EncodeStrings(ss) + rest, |ss|) == Some(ListRead(ArriveAll(ss), |EncodeStrings(ss)|))
  {
    hide ReadString, EncodeString;
    if ss != [] {
      var n := |ss| - 1;
      var later := EncodeString(ss[n]) + rest;
      StringsRoundTrip(ss[..n], later);
      assert EncodeStrings(ss) + rest == EncodeStrings(ss[..n]) + later;
      assert (EncodeStrings(ss) + rest)[|EncodeStrings(ss[..n])|..] == later;
      StringRoundTrip(ss[n], rest);
    }
  }

  lemma {:induction false} ListRoundTrip(ss: seq<string>, rest: seq<byte>)
    requires Short(ss) && |ss| < 0x8000
    ensures ReadList(EncodeList(ss) + rest) == Some(ListRead(ArriveAll(ss), |EncodeList(ss)|))
    ensures (EncodeList(ss) + rest)[|EncodeList(ss)|..] == rest
  {
    hide ReadStrings, EncodeStrings, ArriveAll;
    var b := EncodeList(ss) + rest;
    Int16RoundTrip(|ss|);
    assert [b[0], b[1]] == WriteInt16(|ss|);
    assert b[2..] == EncodeStrings(ss) + rest;
    StringsRoundTrip(ss, rest);
  }

  /** Every string and every count is shorter than the whole encoding. */
  lemma {:induction false} PartsAreShort(ss: seq<string>)
    ensures |EncodeStrings(ss)| >= 2 * |ss|
    ensures forall i :: 0 <= i < |ss| ==> |ss[i]| <= |EncodeStrings(ss)|
  {
    if ss != [] { PartsAreShort(ss[..|ss| - 1]); }
  }

  lemma {:induction false} PartsFit(name: string, path: string, args: seq<string>, envp: seq<string>)
    requires |EncodeExec(name, path, args, envp)| < 0x8000
    ensures |name| < 0x8000 && |path| < 0x8000 && Short(args) && Short(envp) && |args| < 0x8000 && |envp| < 0x8000
    ensures |EncodeString(name)| == 2 + |name| && |EncodeString(path)| == 2 + |path|
  {
    PartsAreShort(args);
    PartsAreShort(envp);
  }

  /** What posix_spawn should be called with for a command. */
  function Wanted(name: string, path: string, args: seq<string>, envp: seq<string>): Spawn {
    Spawn(Arrives(name), Arrives(path), [Some(Arrives(path))] + Pointers(ArriveAll(args)) + [None],
          Pointers(ArriveAll(envp)) + [None], |EncodeExec(name, path, args, envp)|)
  }

  /** For every name, path, argument list and environment whose encoding fits a packet, the target
      calls posix_spawn with what arrives of each, the path first in argv, both vectors ending in NULL,
      and has read exactly the encoding. */
  lemma {:induction false} ExecRoundTrip(name: string, path: string, args: seq<string>, envp: seq<string>)
    requires |EncodeExec(name, path, args, envp)| < 0x8000
    ensures DecodeExec(EncodeExec(name, path, args, envp)) == Some(Wanted(name, path, args, envp))
  {
    hide ReadString, ReadList, EncodeStrings, EncodeString, EncodeList, Arrives, ArriveAll, Pointers;
    PartsFit(name, path, args, envp);
    var l2 := EncodeList(envp);
    var l1 := EncodeList(args) + l2;
    var tail := EncodeString(path) + l1;
    assert EncodeExec(name, path, args, envp) == EncodeString(name) + tail;
    StringRoundTrip(name, tail);
    StringRoundTrip(path, l1);
    ListRoundTrip(args, l2);
    ListRoundTrip(envp, []);
    assert l2 + [] == l2;
  }

  /** What the target's C string reads as on the host. */
  function Text(b: CStr): string { seq(|b|, i requires 0 <= i < |b| => b[i] as char) }

  predicate PlainAscii(s: string) { forall i :: 0 <= i < |s| ==> 0 < s[i] as int < 128 }

  /** A string arrives unchanged exactly if it is ASCII without NUL. */
  lemma {:induction false} ArrivesUnchangedIffPlain(s: string)
    ensures Text(Arrives(s)) == s <==> PlainAscii(s)
  {
    var b := AsciiBytes(s);
    CStringWhole(b);
    if PlainAscii(s) {
      assert 0 !in b;
      assert Text(b) == s;
    }
    if Text(Arrives(s)) == s {
      forall k | 0 <= k < |s|
        ensures 0 < s[k] as int < 128
      {
        assert Text(Arrives(s))[k] == s[k];
      }
    }
  }

  predicate AllPlain(ss: seq<string>) { forall i :: 0 <= i < |ss| ==> PlainAscii(ss[i]) }

  /** A vector for posix_spawn: the strings in order, then NULL. */
  predicate Vector(v: seq<Option<CStr>>, ss: seq<string>) {
    && |v| == |ss| + 1 && v[|ss|].None?
    && forall i :: 0 <= i < |ss| ==> v[i].Some? && Text(v[i].value) == ss[i]
  }

  /** For plain ASCII the target starts the very path that was asked for, under the very name, with the path and
      then the arguments in argv and the settings in envp. */
  lemma {:induction false} WantedWhenPlain(name: string, path: string, args: seq<string>, envp: seq<string>)
    requires PlainAscii(name) && PlainAscii(path) && AllPlain(args) && AllPlain(envp)
    ensures var w := Wanted(name, path, args, envp);
            && Text(w.name) == name && Text(w.path) == path && Vector(w.argv, [path] + args) && Vector(w.envp, envp)
            && w.consumed == |EncodeExec(name, path, args, envp)|
  {
    hide Text, Arrives, PlainAscii;
    ArrivesUnchangedIffPlain(name);
    ArrivesUnchangedIffPlain(path);
    PointersAre(args);
    PointersAre(envp);
    forall i | 0 <= i < |args|
      ensures Text(Arrives(args[i])) == args[i]
    {
      ArrivesUnchangedIffPlain(args[i]);
    }
    forall i | 0 <= i < |envp|
      ensures Text(Arrives(envp[i])) == envp[i]
    {
      ArrivesUnchangedIffPlain(envp[i]);
    }
  }

  lemma {:induction false} PointersAre(ss: seq<string>)
    ensures |Pointers(ArriveAll(ss))| == |ss|
    ensures forall i :: 0 <= i < |ss| ==> Pointers(ArriveAll(ss))[i] == Some(Arrives(ss[i]))
  {
    hide Arrives, ArriveAll;
    ArrivesEach(ss);
  }

  lemma {:induction false} ArrivesEach(ss: seq<string>)
    ensures forall i :: 0 <= i < |ss| ==> ArriveAll(ss)[i] == Arrives(ss[i])
  {
    hide Arrives;
    if ss != [] { ArrivesEach(ss[..|ss| - 1]); }
  }

  /** A command in bytes: lengths and counts with their low byte first, in front of what they count. */
  lemma {:induction false} ExecExample()
    ensures EncodeExec("a", "bc", ["d"], ["e=f", ""])
         == [1, 0, 97] + [2, 0, 98, 99] + ([1, 0] + [1, 0, 100]) + ([2, 0] + [3, 0, 101, 61, 102] + [0, 0])
  {
    hide EncodeString, EncodeStrings, EncodeList, AsciiBytes;
    ShortString("a", [97]);
    ShortString("bc", [98, 99]);
    ShortString("d", [100]);
    ShortString("e=f", [101, 61, 102]);
    ShortString("", []);
    OneString("d");
    OneString("e=f");
    StringsLast(["e=f"], "");
    ListIs(["d"]);
    ListIs(["e=f"] + [""]);
    assert ["e=f"] + [""] == ["e=f", ""];
  }

  lemma {:induction false} ShortString(s: string, b: seq<byte>)
    requires |s| == |b| < 128 && forall i :: 0 <= i < |s| ==> s[i] as int == b[i] < 128
    ensures EncodeString(s) == [|b|, 0] + b
  {
    assert AsciiBytes(s) == b;
  }

  lemma {:induction false} OneString(s: string)
    ensures EncodeStrings([s]) == EncodeString(s)
  {
    hide EncodeString;
    assert [s][..0] == [] && EncodeStrings([]) == [];
  }

  lemma {:induction false} StringsLast(ss: seq<string>, s: string)
    ensures EncodeStrings(ss + [s]) == EncodeStrings(ss) + EncodeString(s)
  {
    hide EncodeString;
    assert (ss + [s])[..|ss|] == ss;
  }

  lemma {:induction false} ListIs(ss: seq<string>)
    requires |ss| < 128
    ensures EncodeList(ss) == [|ss|, 0] + EncodeStrings(ss)
  {
    hide EncodeStrings;
  }

  /** "EXEC" */
  const EXEC: seq<byte> := [69, 88, 69, 67]

  /** Over the wire: a command is encoded, sent after the packets `before`, cut into reads in any way,
      received by the target's loop and handed to handler_exec. It arrives, as the last packet, iff it and
      all packets before it have at most 9990 data bytes; then it is started as wanted, and otherwise the
      target has seen only what comes before the first packet that is too long. */
  method ExecEndToEnd(before: seq<Packet>, name: string, path: string, args: seq<string>, envp: seq<string>, sizes: seq<nat>)
    returns (processed: seq<Packet>, spawn: Option<Spawn>)
    requires AllSendable(before) && |EncodeExec(name, path, args, envp)| < 0x8000
    requires |EncodeAll(before)| + HEADER + |EncodeExec(name, path, args, envp)| <= |sizes|
    ensures var data := EncodeExec(name, path, args, envp);
            if |data| <= 9990 && (forall i :: 0 <= i < |before| ==> |before[i].data| <= 9990)
            then processed == T.Seen(before) + [Packet(EXEC, data)] && spawn == Some(Wanted(name, path, args, envp))
            else processed == T.Seen((before + [Packet(EXEC, data)])[..T.Fitting(before + [Packet(EXEC, data)])])
                 && |processed| <= |before| && spawn == None
  {
    hide EncodeExec, DecodeExec, Wanted, T.Reach, T.Seen;
    var data := Data(name, path, args, envp);
    var all := before + [Packet(EXEC, data)];
    EncodeAllAppend(before, [Packet(EXEC, data)]);
    EncodeOne(Packet(EXEC, data));
    var consumed;
    processed, consumed := T.ReceivePackets(all, |EncodeAll(all)|, sizes);
    if |processed| == |all| {
      assert all[..|all|] == all;
      T.SeenOneMore(before, Packet(EXEC, data));
      CStringWhole(EXEC);
      spawn := HandlerExec(processed[|before|].data);
      ExecRoundTrip(name, path, args, envp);
      assert T.Fits(all[|before|]);
      forall i | 0 <= i < |before|
        ensures |before[i].data| <= 9990
      {
        assert T.Fits(all[i]);
      }
    } else {
      spawn := None;
      ghost var k := T.Fitting(all);
      assert |processed| == k < |all| && !T.Fits(all[k]);
      assert k < |before| ==> all[k] == before[k];
    }
  }

  lemma {:induction false} EncodeOne(p: Packet)
    ensures |EncodeAll([p])| == |Encode(p)|
  {
    assert EncodeAll([p]) == Encode(p) + EncodeAll([]);
  }
}
