/** The record log of a GDB core dump: GDBProcessRecordSection.Read and the format it reads. */
module RecordLog {
  import opened Bytes
  import B = ByteHelper

  const MAGIC := 0x2009_1016

  /** A target register: its number and its size in bytes. */
  datatype Register = Register(num: nat, size: nat)

  datatype MemoryChange = MemoryChange(address: nat, value: seq<byte>)

  datatype RegisterChange = RegisterChange(regnum: nat, value: seq<byte>)

  datatype Instruction = Instruction(signal: int, count: int, mems: seq<MemoryChange>, regs: seq<RegisterChange>)

  const NewInstruction := Instruction(0, 0, [], [])

  datatype Result = Parsed(instructions: seq<Instruction>) | BadMagic | EndOfStream | UnknownRegister(num: nat)

  /** FindRegisterByNum: the first register with that number. */
  function FindRegister(registers: seq<Register>, num: nat): Option<Register> {
    if registers == [] then None
    else if registers[0].num == num then Some(registers[0])
    else FindRegister(registers[1..], num)
  }

  // ---- What the reader does with a byte string ----

  function Pending(pending: Option<Instruction>): Instruction {
    if pending.Some? then pending.value else NewInstruction
  }

  function Number(b: seq<byte>, from: nat, n: nat): nat
    requires from + n <= |b|
  {
    B.BigEndian(b[from..from + n])
  }

  /** One entry off the front of `b`, which starts with its type byte. */
  datatype Taken =
    | Mem(change: MemoryChange, size: nat)
    | Reg(regChange: RegisterChange, size: nat)
    | End(signal: int, count: int, size: nat)
    | Ignored(size: nat)
    | Fail(error: Result)

  function TakeEntry(b: seq<byte>, registers: seq<Register>): (t: Taken)
    requires b != []
    ensures !t.Fail? ==> 0 < t.size <= |b|
    ensures t.Fail? ==> t.error.EndOfStream? || t.error.UnknownRegister?
  {
    if b[0] == 0 then
      if |b| < 9 then Fail(EndOfStream)
      else End(Wrap32(Number(b, 1, 4)), Wrap32(Number(b, 5, 4)), 9)
    else if b[0] == 2 then
      if |b| < 13 then Fail(EndOfStream) else
      var n := Number(b, 1, 4);
      if |b| < 13 + n then Fail(EndOfStream)
      else Mem(MemoryChange(Number(b, 5, 8), b[13..13 + n]), 13 + n)
    else if b[0] == 1 then
      if |b| < 5 then Fail(EndOfStream) else
      var num := Number(b, 1, 4);
      match FindRegister(registers, num)
      case None => Fail(UnknownRegister(num))
      case Some(r) =>
        if |b| < 5 + r.size then Fail(EndOfStream)
        else Reg(RegisterChange(num, b[5..5 + r.size]), 5 + r.size)
    else Ignored(1)
  }

  /** The reading loop from some point on. */
  function ParseEntries(b: seq<byte>, registers: seq<Register>, pending: Option<Instruction>, done: seq<Instruction>): Result
    decreases |b|
  {
    if b == [] then Parsed(done + if pending.Some? then [pending.value] else []) else
    var p := Pending(pending);
    match TakeEntry(b, registers)
    case Fail(error) => error
    case End(signal, count, size) => ParseEntries(b[size..], registers, None, done + [p.(signal := signal, count := count)])
    case Mem(change, size) => ParseEntries(b[size..], registers, Some(p.(mems := p.mems + [change])), done)
    case Reg(change, size) => ParseEntries(b[size..], registers, Some(p.(regs := p.regs + [change])), done)
    case Ignored(size) => ParseEntries(b[size..], registers, Some(p), done)
  }

  function ParseLog(b: seq<byte>, registers: seq<Register>): Result {
    if |b| < 4 then EndOfStream
    else if Wrap32(Number(b, 0, 4)) != MAGIC then BadMagic
    else ParseEntries(b[4..], registers, Some(NewInstruction), [])
  }

  // ---- The reader ----

  class Section {
    const data: seq<byte>
    var position: nat

    ghost predicate Valid() reads this { position <= |data| }

    ghost function Rest(): seq<byte>
      requires Valid()
      reads this
    {
      data[position..]
    }

    constructor (data: seq<byte>)
      ensures Valid() && this.data == data && position == 0
    {
      this.data, position := data, 0;
    }

    /** ReadWithException: all `n` bytes, or failure. */
    method ReadExactly(n: nat) returns (b: Option<seq<byte>>)
      requires Valid()
      modifies this
      ensures Valid()
      ensures if n <= |old(Rest())| then b == Some(old(Rest())[..n]) && Rest() == old(Rest())[n..] else b == None
    {
      if position + n > |data| {
        position := |data|;
        return None;
      }
      assert data[position..][..n] == data[position..position + n] && data[position..][n..] == data[position + n..];
      b := Some(data[position..position + n]);
      position := position + n;
    }
  }

  /** A number at an offset the reader uses. */
  method ReadNumber(buffer: seq<byte>, offset: nat, length: nat) returns (n: nat)
    requires offset + length <= |buffer| && length <= 8 && (offset == 0 || offset == 4)
    ensures n == Number(buffer, offset, length)
  {
    n := B.ByteArrayToUInt64(buffer, offset, length, false);
    B.SumIsBigEndian(buffer, offset, length, length);
    assert B.Pow256(0) == 1;
  }

  /** The entry at the front of the section. */
  method ReadEntry(src: Section, registers: seq<Register>) returns (t: Taken)
    requires src.Valid() && src.Rest() != []
    modifies src
    ensures src.Valid() && t == TakeEntry(old(src.Rest()), registers)
    ensures !t.Fail? ==> src.Rest() == old(src.Rest())[t.size..]
  {
    hide B.BigEndian;
    ghost var b := src.Rest();
    var head := src.ReadExactly(1);
    assert b[0] == head.value[0] && b[1..] == src.Rest();
    if head.value[0] == 0 {
      t := ReadEnd(src, b);
    } else if head.value[0] == 2 {
      t := ReadMem(src, registers, b);
    } else if head.value[0] == 1 {
      t := ReadReg(src, registers, b);
    } else {
      t := Ignored(1);
    }
  }

  method ReadEnd(src: Section, ghost b: seq<byte>) returns (t: Taken)
    requires src.Valid() && b != [] && b[0] == 0 && src.Rest() == b[1..]
    modifies src
    ensures src.Valid() && t == TakeEntry(b, []) && (!t.Fail? ==> src.Rest() == b[t.size..])
  {
    hide B.BigEndian;
    var buffer := src.ReadExactly(8);
    if buffer.None? { return Fail(EndOfStream); }
    var signal := ReadNumber(buffer.value, 0, 4);
    var count := ReadNumber(buffer.value, 4, 4);
    assert buffer.value[0..4] == b[1..5] && buffer.value[4..8] == b[5..9];
    t := End(Wrap32(signal), Wrap32(count), 9);
  }

  method ReadMem(src: Section, registers: seq<Register>, ghost b: seq<byte>) returns (t: Taken)
    requires src.Valid() && b != [] && b[0] == 2 && src.Rest() == b[1..]
    modifies src
    ensures src.Valid() && t == TakeEntry(b, registers) && (!t.Fail? ==> src.Rest() == b[t.size..])
  {
    hide B.BigEndian;
    var buffer := src.ReadExactly(4);
    if buffer.None? { return Fail(EndOfStream); }
    assert buffer.value[0..4] == b[1..5] && src.Rest() == b[5..];
    var dataLen := ReadNumber(buffer.value, 0, 4);
    buffer := src.ReadExactly(8);
    if buffer.None? { return Fail(EndOfStream); }
    assert buffer.value[0..8] == b[5..13] && src.Rest() == b[13..];
    var address := ReadNumber(buffer.value, 0, 8);
    var value := src.ReadExactly(dataLen);
    if value.None? { return Fail(EndOfStream); }
    assert value.value == b[13..13 + dataLen] && src.Rest() == b[13 + dataLen..];
    t := Mem(MemoryChange(address, value.value), 13 + dataLen);
  }

  method ReadReg(src: Section, registers: seq<Register>, ghost b: seq<byte>) returns (t: Taken)
    requires src.Valid() && b != [] && b[0] == 1 && src.Rest() == b[1..]
    modifies src
    ensures src.Valid() && t == TakeEntry(b, registers) && (!t.Fail? ==> src.Rest() == b[t.size..])
  {
    hide B.BigEndian;
    var buffer := src.ReadExactly(4);
    if buffer.None? { return Fail(EndOfStream); }
    assert buffer.value[0..4] == b[1..5] && src.Rest() == b[5..];
    var regnum := ReadNumber(buffer.value, 0, 4);
    var register := FindRegister(registers, regnum);
    if register.None? { return Fail(UnknownRegister(regnum)); }
    var value := src.ReadExactly(register.value.size);
    if value.None? { return Fail(EndOfStream); }
    assert value.value == b[5..5 + register.value.size] && src.Rest() == b[5 + register.value.size..];
    t := Reg(RegisterChange(regnum, value.value), 5 + register.value.size);
  }

  /** Read: every pass of the loop takes at least one byte off the section. */
  method Read(src: Section, registers: seq<Register>) returns (result: Result)
    requires src.Valid()
    modifies src
    ensures result == ParseLog(old(src.Rest()), registers)
  {
    hide B.BigEndian, TakeEntry;
    var magic := src.ReadExactly(4);
    if magic.None? { return EndOfStream; }
    var number := ReadNumber(magic.value, 0, 4);
    assert magic.value[0..4] == old(src.Rest())[0..4];
    if Wrap32(number) != MAGIC { return BadMagic; }
    var instructions: seq<Instruction> := [];
    var pending := Some(NewInstruction);
    while src.position != |src.data|
      invariant src.Valid()
      invariant ParseEntries(src.Rest(), registers, pending, instructions) == ParseLog(old(src.Rest()), registers)
      decreases |src.data| - src.position
    {
      if pending.None? { pending := Some(NewInstruction); }
      var t := ReadEntry(src, registers);
      match t {
        case Fail(error) => return error;
        case End(signal, count, size) =>
          instructions := instructions + [pending.value.(signal := signal, count := count)];
          pending := None;
        case Mem(change, size) =>
          pending := Some(pending.value.(mems := pending.value.mems + [change]));
        case Reg(change, size) =>
          pending := Some(pending.value.(regs := pending.value.regs + [change]));
        case Ignored(size) =>
      }
    }
    if pending.Some? { instructions := instructions + [pending.value]; }
    return Parsed(instructions);
  }

  // ---- The format ----

  datatype Entry = MemEntry(mem: MemoryChange) | RegEntry(reg: RegisterChange)

  /** One recorded instruction: its changes in the order of recording, and its end marker. */
  datatype Recorded = Recorded(entries: seq<Entry>, signal: int, count: int)

  predicate EntryOk(e: Entry, registers: seq<Register>) {
    match e
    case MemEntry(m) => m.address < B.U64 && |m.value| < 0x1_0000_0000
    case RegEntry(r) =>
      && r.regnum < 0x1_0000_0000
      && var known := FindRegister(registers, r.regnum); known.Some? && |r.value| == known.value.size
  }

  predicate EntriesOk(es: seq<Entry>, registers: seq<Register>) { forall i :: 0 <= i < |es| ==> EntryOk(es[i], registers) }

  predicate RecordedOk(rs: seq<Recorded>, registers: seq<Register>) {
    forall i :: 0 <= i < |rs| ==> EntriesOk(rs[i].entries, registers) && IsInt32(rs[i].signal) && IsInt32(rs[i].count)
  }

  function Four(v: int): (b: seq<byte>)
    ensures |b| == 4
  {
    B.ToBigEndian(v % 0x1_0000_0000, 4)
  }

  function EncodeEntry(e: Entry): (b: seq<byte>) {
    match e
    case MemEntry(m) => [2] + Four(|m.value|) + B.ToBigEndian(m.address, 8) + m.value
    case RegEntry(r) => [1] + Four(r.regnum) + r.value
  }

  function EncodeEntries(es: seq<Entry>): seq<byte> {
    if es == [] then [] else EncodeEntry(es[0]) + EncodeEntries(es[1..])
  }

  function EndMarker(signal: int, count: int): seq<byte> { [0] + Four(signal) + Four(count) }

  function EncodeRecorded(rs: seq<Recorded>): seq<byte> {
    if rs == [] then [] else EncodeEntries(rs[0].entries) + (EndMarker(rs[0].signal, rs[0].count) + EncodeRecorded(rs[1..]))
  }

  /** A log: the recorded instructions, then the entries of one that has no end marker yet. */
  function EncodeLog(rs: seq<Recorded>, trailing: seq<Entry>): seq<byte> {
    Four(MAGIC) + (EncodeRecorded(rs) + EncodeEntries(trailing))
  }

  // ---- What a log means ----

  function AddEntry(p: Instruction, e: Entry): Instruction {
    if e.MemEntry? then p.(mems := p.mems + [e.mem]) else p.(regs := p.regs + [e.reg])
  }

  function AddEntries(p: Instruction, es: seq<Entry>): Instruction
    decreases |es|
  {
    if es == [] then p else AddEntries(AddEntry(p, es[0]), es[1..])
  }

  function MemsOf(es: seq<Entry>): seq<MemoryChange> {
    if es == [] then [] else (if es[0].MemEntry? then [es[0].mem] else []) + MemsOf(es[1..])
  }

  function RegsOf(es: seq<Entry>): seq<RegisterChange> {
    if es == [] then [] else (if es[0].RegEntry? then [es[0].reg] else []) + RegsOf(es[1..])
  }

  function Meaning(r: Recorded): Instruction { Instruction(r.signal, r.count, MemsOf(r.entries), RegsOf(r.entries)) }

  function Meanings(rs: seq<Recorded>): seq<Instruction> {
    if rs == [] then [] else [Meaning(rs[0])] + Meanings(rs[1..])
  }

  lemma {:induction false} AddEntriesKeepsOrder(p: Instruction, es: seq<Entry>)
    ensures AddEntries(p, es) == p.(mems := p.mems + MemsOf(es), regs := p.regs + RegsOf(es))
    decreases |es|
  {
    if es != [] { AddEntriesKeepsOrder(AddEntry(p, es[0]), es[1..]); }
    assert p.mems + [] == p.mems && p.regs + [] == p.regs;
  }

  // ---- Round trip ----

  lemma {:induction false} FourIs(v: int)
    ensures Four(v) == B.ToBigEndian(v % 0x1_0000_0000, 4)
  {
  }

  lemma {:induction false} FourRoundTrip(v: int)
    ensures B.BigEndian(Four(v)) == v % 0x1_0000_0000
    ensures IsInt32(v) ==> Wrap32(B.BigEndian(Four(v))) == v
  {
    hide Four, B.BigEndian;
    assert Four(v) == B.ToBigEndian(v % 0x1_0000_0000, 4) by { FourIs(v); }
    assert B.Pow256(4) == 0x1_0000_0000 by { assert B.Pow256(1) == 256 && B.Pow256(2) == 0x1_0000 && B.Pow256(3) == 0x100_0000; }
    B.BigEndianRoundTrip(v % 0x1_0000_0000, 4);
  }

  lemma {:induction false} EightRoundTrip(v: nat)
    requires v < B.U64
    ensures B.BigEndian(B.ToBigEndian(v, 8)) == v
  {
    B.PowEight();
    B.BigEndianRoundTrip(v, 8);
  }

  lemma {:induction false} TakeMem(m: MemoryChange, rest: seq<byte>, registers: seq<Register>)
    requires EntryOk(MemEntry(m), registers)
    ensures var b := EncodeEntry(MemEntry(m)) + rest;
            && TakeEntry(b, registers) == Mem(m, |EncodeEntry(MemEntry(m))|)
            && b[|EncodeEntry(MemEntry(m))|..] == rest
  {
    hide B.BigEndian, B.ToBigEndian, Four;
    var b := EncodeEntry(MemEntry(m)) + rest;
    FourRoundTrip(|m.value|);
    EightRoundTrip(m.address);
    assert b[1..1 + 4] == Four(|m.value|) && b[5..5 + 8] == B.ToBigEndian(m.address, 8);
    assert b[13..13 + |m.value|] == m.value;
  }

  lemma {:induction false} TakeReg(r: RegisterChange, rest: seq<byte>, registers: seq<Register>)
    requires EntryOk(RegEntry(r), registers)
    ensures var b := EncodeEntry(RegEntry(r)) + rest;
            && TakeEntry(b, registers) == Reg(r, |EncodeEntry(RegEntry(r))|)
            && b[|EncodeEntry(RegEntry(r))|..] == rest
  {
    hide B.BigEndian, B.ToBigEndian, Four;
    var b := EncodeEntry(RegEntry(r)) + rest;
    FourRoundTrip(r.regnum);
    assert b[1..1 + 4] == Four(r.regnum) && b[5..5 + |r.value|] == r.value;
  }

  lemma {:induction false} TakeEnd(signal: int, count: int, rest: seq<byte>, registers: seq<Register>)
    requires IsInt32(signal) && IsInt32(count)
    ensures var b := EndMarker(signal, count) + rest;
            TakeEntry(b, registers) == End(signal, count, 9) && b[9..] == rest
  {
    hide B.BigEndian, B.ToBigEndian, Four;
    var b := EndMarker(signal, count) + rest;
    FourRoundTrip(signal);
    FourRoundTrip(count);
    assert b[1..1 + 4] == Four(signal) && b[5..5 + 4] == Four(count);
  }

  /** Entries are collected into the pending instruction. */
  lemma {:induction false} ParsesEntries(es: seq<Entry>, rest: seq<byte>, registers: seq<Register>,
                                         pending: Option<Instruction>, done: seq<Instruction>)
    requires EntriesOk(es, registers)
    ensures ParseEntries(EncodeEntries(es) + rest, registers, pending, done)
         == ParseEntries(rest, registers, if es == [] then pending else Some(AddEntries(Pending(pending), es)), done)
    decreases |es|
  {
    hide TakeEntry, EncodeEntry;
    if es == [] {
      assert EncodeEntries(es) + rest == rest;
    } else {
      var later := EncodeEntries(es[1..]) + rest;
      assert EncodeEntries(es) + rest == EncodeEntry(es[0]) + later;
      if es[0].MemEntry? { TakeMem(es[0].mem, later, registers); } else { TakeReg(es[0].reg, later, registers); }
      NotEmpty(es[0]);
      ParsesEntries(es[1..], rest, registers, Some(AddEntry(Pending(pending), es[0])), done);
    }
  }

  lemma {:induction false} NotEmpty(e: Entry)
    ensures EncodeEntry(e) != []
  {
  }

  /** Whole instructions are appended one by one; after each, nothing is pending. */
  lemma {:induction false} ParsesRecorded(rs: seq<Recorded>, rest: seq<byte>, registers: seq<Register>,
                                          pending: Option<Instruction>, done: seq<Instruction>)
    requires RecordedOk(rs, registers) && Pending(pending) == NewInstruction
    ensures ParseEntries(EncodeRecorded(rs) + rest, registers, pending, done)
         == ParseEntries(rest, registers, if rs == [] then pending else None, done + Meanings(rs))
    decreases |rs|
  {
    hide TakeEntry, EncodeEntries, EndMarker, MemsOf, RegsOf;
    if rs == [] {
      assert EncodeRecorded(rs) + rest == rest && done + [] == done;
    } else {
      var r := rs[0];
      var later := EncodeRecorded(rs[1..]) + rest;
      var marked := EndMarker(r.signal, r.count) + later;
      assert EncodeRecorded(rs) + rest == EncodeEntries(r.entries) + marked;
      ParsesEntries(r.entries, marked, registers, pending, done);
      ParsesEnd(r, later, registers, if r.entries == [] then pending else Some(AddEntries(NewInstruction, r.entries)), done);
      ParsesRecorded(rs[1..], rest, registers, None, done + [Meaning(r)]);
      assert (done + [Meaning(r)]) + Meanings(rs[1..]) == done + Meanings(rs);
    }
  }

  lemma {:induction false} ParsesEnd(r: Recorded, rest: seq<byte>, registers: seq<Register>,
                                     pending: Option<Instruction>, done: seq<Instruction>)
    requires IsInt32(r.signal) && IsInt32(r.count) && Pending(pending) == AddEntries(NewInstruction, r.entries)
    ensures ParseEntries(EndMarker(r.signal, r.count) + rest, registers, pending, done)
         == ParseEntries(rest, registers, None, done + [Meaning(r)])
  {
    hide TakeEntry, Four;
    TakeEnd(r.signal, r.count, rest, registers);
    AddEntriesKeepsOrder(NewInstruction, r.entries);
    assert [] + MemsOf(r.entries) == MemsOf(r.entries) && [] + RegsOf(r.entries) == RegsOf(r.entries);
  }

  /** The reader inverts the format: it gives back each instruction's signal, count and changes, in
      order within each kind, and one final instruction for entries after the last end marker. An empty
      log is the one exception: it reads as one empty instruction. */
  lemma {:induction false} LogRoundTrip(rs: seq<Recorded>, trailing: seq<Entry>, registers: seq<Register>)
    requires RecordedOk(rs, registers) && EntriesOk(trailing, registers)
    ensures ParseLog(EncodeLog(rs, trailing), registers)
         == Parsed(Meanings(rs) + if trailing != [] then [Meaning(Recorded(trailing, 0, 0))]
                                  else if rs == [] then [NewInstruction] else [])
  {
    hide TakeEntry, EncodeEntries, EncodeRecorded, Four, B.BigEndian;
    var body := EncodeRecorded(rs) + EncodeEntries(trailing);
    var log := Four(MAGIC) + body;
    FourRoundTrip(MAGIC);
    assert log[0..0 + 4] == Four(MAGIC) && log[4..] == body;
    ParsesRecorded(rs, EncodeEntries(trailing), registers, Some(NewInstruction), []);
    var pending := if rs == [] then Some(NewInstruction) else None;
    assert [] + Meanings(rs) == Meanings(rs);
    assert EncodeEntries(trailing) + [] == EncodeEntries(trailing);
    ParsesEntries(trailing, [], registers, pending, Meanings(rs));
    AddEntriesKeepsOrder(NewInstruction, trailing);
    assert [] + MemsOf(trailing) == MemsOf(trailing) && [] + RegsOf(trailing) == RegsOf(trailing);
    assert Meanings(rs) + [] == Meanings(rs);
  }

  // ---- The format, byte by byte, and logs that are not well formed ----

  /** One instruction that changes memory and a register, in bytes. */
  lemma {:induction false} LogExample()
    ensures EncodeLog([Recorded([MemEntry(MemoryChange(0x102030405060708, [9, 10])), RegEntry(RegisterChange(3, [11]))], -1, 2)], [])
         == [0x20, 0x09, 0x10, 0x16] + [2, 0, 0, 0, 2, 1, 2, 3, 4, 5, 6, 7, 8, 9, 10] + [1, 0, 0, 0, 3, 11]
            + [0, 255, 255, 255, 255, 0, 0, 0, 2]
  {
    hide B.ToBigEndian;
    var mem, reg := MemEntry(MemoryChange(0x102030405060708, [9, 10])), RegEntry(RegisterChange(3, [11]));
    FourBytes(0x2009_1016, 0x20, 0x09, 0x10, 0x16);
    FourBytes(2, 0, 0, 0, 2);
    FourBytes(3, 0, 0, 0, 3);
    FourBytes(-1, 255, 255, 255, 255);
    EightBytes();
    assert EncodeEntry(mem) == [2, 0, 0, 0, 2, 1, 2, 3, 4, 5, 6, 7, 8, 9, 10] && EncodeEntry(reg) == [1, 0, 0, 0, 3, 11];
    assert EndMarker(-1, 2) == [0, 255, 255, 255, 255, 0, 0, 0, 2];
    assert [mem, reg][1..] == [reg] && [reg][1..] == [];
    assert EncodeEntries([reg]) == EncodeEntry(reg) + [] == EncodeEntry(reg);
    assert EncodeEntries([mem, reg]) == EncodeEntry(mem) + EncodeEntry(reg);
    var r := Recorded([mem, reg], -1, 2);
    assert [r][1..] == [];
    assert EncodeRecorded([r]) == EncodeEntries([mem, reg]) + (EndMarker(-1, 2) + []);
  }

  lemma {:induction false} FourBytes(v: int, b3: byte, b2: byte, b1: byte, b0: byte)
    requires v % 0x1_0000_0000 == b3 as int * 0x100_0000 + b2 as int * 0x1_0000 + b1 as int * 0x100 + b0 as int
    ensures Four(v) == [b3, b2, b1, b0]
  {
    var w := v % 0x1_0000_0000;
    assert w / 256 == b3 as int * 0x1_0000 + b2 as int * 0x100 + b1 as int && w % 256 == b0;
    assert w / 256 / 256 == b3 as int * 0x100 + b2 as int && w / 256 % 256 == b1;
    assert w / 256 / 256 / 256 == b3 as int && w / 256 / 256 % 256 == b2;
    assert B.ToBigEndian(b3, 1) == [] + [b3];
    assert B.ToBigEndian(w / 256 / 256, 2) == [b3, b2];
    assert B.ToBigEndian(w / 256, 3) == [b3, b2, b1];
  }

  lemma {:induction false} EightBytes()
    ensures B.ToBigEndian(0x102030405060708, 8) == [1, 2, 3, 4, 5, 6, 7, 8]
  {
    assert B.ToBigEndian(0x1020304, 4) == B.ToBigEndian(0x10203, 3) + [4];
    FourBytes(0x1020304, 1, 2, 3, 4);
    assert B.ToBigEndian(0x102030405, 5) == [1, 2, 3, 4, 5];
    assert B.ToBigEndian(0x10203040506, 6) == [1, 2, 3, 4, 5, 6];
    assert B.ToBigEndian(0x1020304050607, 7) == [1, 2, 3, 4, 5, 6, 7];
  }

  /** A log is refused for its magic number iff it begins with four other bytes. */
  lemma {:induction false} BadMagicIff(b: seq<byte>, registers: seq<Register>)
    ensures ParseLog(b, registers) == BadMagic <==> |b| >= 4 && b[..4] != [0x20, 0x09, 0x10, 0x16]
  {
    hide B.BigEndian, B.ToBigEndian, ParseEntries;
    if |b| >= 4 {
      NoBadMagic(b[4..], registers, Some(NewInstruction), []);
      FourBytes(MAGIC, 0x20, 0x09, 0x10, 0x16);
      FourRoundTrip(MAGIC);
      assert b[0..0 + 4] == b[..4];
      if Wrap32(B.BigEndian(b[..4])) == MAGIC { SameMagic(b[..4]); }
    }
  }

  lemma {:induction false} SameMagic(b: seq<byte>)
    requires |b| == 4 && Wrap32(B.BigEndian(b)) == MAGIC
    ensures b == Four(MAGIC)
  {
    hide B.BigEndian, B.ToBigEndian;
    B.BytesBack(b);
    B.BigEndianBound(b);
    B.PowFour();
  }

  lemma {:induction false} NoBadMagic(b: seq<byte>, registers: seq<Register>, pending: Option<Instruction>, done: seq<Instruction>)
    ensures ParseEntries(b, registers, pending, done) != BadMagic
    decreases |b|
  {
    hide TakeEntry;
    if b != [] {
      var p, t := Pending(pending), TakeEntry(b, registers);
      match t
      case Fail(_) =>
      case End(signal, count, size) => NoBadMagic(b[size..], registers, None, done + [p.(signal := signal, count := count)]);
      case Mem(change, size) => NoBadMagic(b[size..], registers, Some(p.(mems := p.mems + [change])), done);
      case Reg(change, size) => NoBadMagic(b[size..], registers, Some(p.(regs := p.regs + [change])), done);
      case Ignored(size) => NoBadMagic(b[size..], registers, Some(p), done);
    }
  }

  /** Whatever well-formed part of a log comes before, a failing entry fails the whole log. */
  lemma {:induction false} TailFails(rs: seq<Recorded>, es: seq<Entry>, tail: seq<byte>, registers: seq<Register>)
    requires RecordedOk(rs, registers) && EntriesOk(es, registers) && tail != [] && TakeEntry(tail, registers).Fail?
    ensures ParseLog(EncodeLog(rs, es) + tail, registers) == TakeEntry(tail, registers).error
  {
    hide TakeEntry, EncodeEntries, EncodeRecorded, Four, B.BigEndian;
    var rest := EncodeEntries(es) + tail;
    var body := EncodeRecorded(rs) + rest;
    assert EncodeLog(rs, es) + tail == Four(MAGIC) + body;
    var log := Four(MAGIC) + body;
    FourRoundTrip(MAGIC);
    assert log[0..0 + 4] == Four(MAGIC) && log[4..] == body;
    ParsesRecorded(rs, rest, registers, Some(NewInstruction), []);
    ParsesEntries(es, tail, registers, if rs == [] then Some(NewInstruction) else None, [] + Meanings(rs));
  }

  /** A register that is not known ends the reading: its size is unknown. */
  lemma {:induction false} UnknownRegisterFails(rs: seq<Recorded>, es: seq<Entry>, num: nat, more: seq<byte>, registers: seq<Register>)
    requires RecordedOk(rs, registers) && EntriesOk(es, registers)
    requires num < 0x1_0000_0000 && forall i :: 0 <= i < |registers| ==> registers[i].num != num
    ensures ParseLog(EncodeLog(rs, es) + ([1] + Four(num) + more), registers) == UnknownRegister(num)
  {
    hide B.BigEndian, B.ToBigEndian, Four, ParseLog, EncodeLog;
    var tail := [1] + Four(num) + more;
    FourIs(num);
    FourRoundTrip(num);
    assert tail[1..1 + 4] == Four(num);
    NotKnown(registers, num);
    TailFails(rs, es, tail, registers);
  }

  lemma {:induction false} NotKnown(registers: seq<Register>, num: nat)
    requires forall i :: 0 <= i < |registers| ==> registers[i].num != num
    ensures FindRegister(registers, num) == None
  {
    if registers != [] { NotKnown(registers[1..], num); }
  }

  /** A log that breaks off within an entry fails. */
  lemma {:induction false} TruncatedFails(rs: seq<Recorded>, es: seq<Entry>, e: Entry, n: nat, registers: seq<Register>)
    requires RecordedOk(rs, registers) && EntriesOk(es, registers) && EntryOk(e, registers) && 0 < n < |EncodeEntry(e)|
    ensures ParseLog(EncodeLog(rs, es) + EncodeEntry(e)[..n], registers) == EndOfStream
  {
    hide ParseLog, EncodeLog;
    TruncatedEntry(e, n, registers);
    TailFails(rs, es, EncodeEntry(e)[..n], registers);
  }

  /** So does one that breaks off within an end marker. */
  lemma {:induction false} TruncatedEndFails(rs: seq<Recorded>, es: seq<Entry>, signal: int, count: int, n: nat, registers: seq<Register>)
    requires RecordedOk(rs, registers) && EntriesOk(es, registers) && 0 < n < |EndMarker(signal, count)|
    ensures ParseLog(EncodeLog(rs, es) + EndMarker(signal, count)[..n], registers) == EndOfStream
  {
    hide ParseLog, EncodeLog, Four;
    TailFails(rs, es, EndMarker(signal, count)[..n], registers);
  }

  /** Bytes that are no type of entry are passed over where an entry could begin. */
  lemma {:induction false} OtherTypesIgnored(x: byte, b: seq<byte>, registers: seq<Register>, p: Instruction, done: seq<Instruction>)
    requires x > 2
    ensures ParseEntries([x] + b, registers, Some(p), done) == ParseEntries(b, registers, Some(p), done)
  {
    assert ([x] + b)[1..] == b;
  }

  lemma {:induction false} TruncatedEntry(e: Entry, n: nat, registers: seq<Register>)
    requires EntryOk(e, registers) && 0 < n < |EncodeEntry(e)|
    ensures TakeEntry(EncodeEntry(e)[..n], registers) == Fail(EndOfStream)
  {
    hide B.BigEndian, B.ToBigEndian, Four;
    match e
    case MemEntry(m) =>
      CutNumber(2, |m.value|, B.ToBigEndian(m.address, 8) + m.value, n);
      assert EncodeEntry(e) == [2] + Four(|m.value|) + (B.ToBigEndian(m.address, 8) + m.value);
    case RegEntry(r) =>
      CutNumber(1, r.regnum, r.value, n);
  }

  /** The number behind the type byte of an entry, if it is there. */
  lemma {:induction false} CutNumber(kind: byte, v: nat, rest: seq<byte>, n: nat)
    requires v < 0x1_0000_0000 && 0 < n <= 5 + |rest|
    ensures var b := ([kind] + Four(v) + rest)[..n];
            |b| == n && b[0] == kind && (n >= 5 ==> Number(b, 1, 4) == v)
  {
    hide B.BigEndian, B.ToBigEndian, Four;
    var b := ([kind] + Four(v) + rest)[..n];
    FourIs(v);
    FourRoundTrip(v);
    if n >= 5 { assert b[1..1 + 4] == Four(v); }
  }
}
