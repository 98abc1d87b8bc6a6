/** Software breakpoints (lib/inferior-control/breakpoint.cc and breakpoint-amd64.cc). */
module Breakpoints {
  import opened Prelude

  const INT3: Byte := 0xCC

  /** The inferior's memory, and for each breakpoint the byte it replaced. */
  datatype State = State(memory: map<nat, Byte>, saved: map<nat, Byte>)

  /** Whether the kernel lets the byte be read and be written. */
  datatype Access = Access(read: bool, write: bool)

  function Insert(s: State, address: nat, kind: nat, io: Access): (bool, State) {
    if address in s.saved || kind != 1 || address !in s.memory || !io.read || !io.write then (false, s)
    else (true, State(s.memory[address := INT3], s.saved[address := s.memory[address]]))
  }

  function Remove(s: State, address: nat, io: Access): (bool, State) {
    if address !in s.saved || address !in s.memory || !io.write then (false, s)
    else (true, State(s.memory[address := s.saved[address]], s.saved - {address}))
  }

  /**
   * An insert works exactly on a free address whose byte can be read and written, for breakpoints of one byte;
   * then there is an int3 in its place and the byte is remembered. A remove puts it back.
   */
  lemma InsertAndRemove(s: State, address: nat, kind: nat, io: Access)
    ensures var (ok, s') := Insert(s, address, kind, io);
            && (ok <==> address !in s.saved && kind == 1 && address in s.memory && io.read && io.write)
            && (ok ==> s' == State(s.memory[address := 0xCC], s.saved[address := s.memory[address]]))
            && (!ok ==> s' == s)
    ensures var (ok, s') := Remove(s, address, io);
            && (ok <==> address in s.saved && address in s.memory && io.write)
            && (ok ==> s' == State(s.memory[address := s.saved[address]], s.saved - {address}))
            && (!ok ==> s' == s)
  {
  }

  /** A write that knows nothing of breakpoints: the program's own, or one made by an M packet. */
  function Poke(s: State, address: nat, byte: Byte): State {
    if address in s.memory then s.(memory := s.memory[address := byte]) else s
  }

  class Memory {
    var bytes: map<nat, Byte>

    constructor (bytes: map<nat, Byte>)
      ensures this.bytes == bytes
    {
      this.bytes := bytes;
    }

    method Read(address: nat, ok: bool) returns (r: Option<Byte>)
      ensures r == if ok && address in bytes then Some(bytes[address]) else None
    {
      return if ok && address in bytes then Some(bytes[address]) else None;
    }

    method Write(address: nat, byte: Byte, ok: bool) returns (done: bool)
      modifies this
      ensures done == (ok && address in old(bytes))
      ensures bytes == if done then old(bytes)[address := byte] else old(bytes)
    {
      done := ok && address in bytes;
      if done {
        bytes := bytes[address := byte];
      }
    }
  }

  class SoftwareBreakpoint {
    const address: nat
    const kind: nat
    const memory: Memory
    var originalBytes: seq<Byte>

    constructor (address: nat, kind: nat, memory: Memory)
      ensures this.address == address && this.kind == kind && this.memory == memory && originalBytes == []
    {
      this.address, this.kind, this.memory, originalBytes := address, kind, memory, [];
    }

    predicate IsInserted()
      reads this
    {
      originalBytes != []
    }

    /** All or nothing: the byte is only remembered once it has been replaced. */
    method Insert(io: Access) returns (ok: bool)
      modifies this, memory
      ensures ok <==> old(originalBytes) == [] && kind == 1 && io.read && io.write && address in old(memory.bytes)
      ensures ok ==> originalBytes == [old(memory.bytes)[address]] && memory.bytes == old(memory.bytes)[address := INT3]
      ensures !ok ==> originalBytes == old(originalBytes) && memory.bytes == old(memory.bytes)
    {
      if IsInserted() || kind != 1 {
        return false;
      }
      var orig := memory.Read(address, io.read);
      if orig.None? {
        return false;
      }
      ok := memory.Write(address, INT3, io.write);
      if ok {
        originalBytes := originalBytes + [orig.value];
      }
    }

    method Remove(io: Access) returns (ok: bool)
      requires |originalBytes| <= 1
      modifies this, memory
      ensures ok <==> old(originalBytes) != [] && io.write && address in old(memory.bytes)
      ensures ok ==> originalBytes == [] && memory.bytes == old(memory.bytes)[address := old(originalBytes)[0]]
      ensures !ok ==> originalBytes == old(originalBytes) && memory.bytes == old(memory.bytes)
    {
      if !IsInserted() {
        return false;
      }
      ok := memory.Write(address, originalBytes[0], io.write);
      if ok {
        originalBytes := [];
      }
    }
  }

  class ProcessBreakpointSet {
    const memory: Memory
    var breakpoints: map<nat, SoftwareBreakpoint>

    ghost function Owned(): set<object>
      reads this
    {
      set a | a in breakpoints :: breakpoints[a]
    }

    ghost predicate Valid()
      reads this, Owned()
    {
      forall a :: a in breakpoints ==>
                    && breakpoints[a].address == a && breakpoints[a].memory == memory
                    && |breakpoints[a].originalBytes| == 1
    }

    ghost function Value(): State
      requires Valid()
      reads this, memory, Owned()
    {
      State(memory.bytes, map a | a in breakpoints :: breakpoints[a].originalBytes[0])
    }

    constructor (memory: Memory)
      ensures Valid() && this.memory == memory && Value() == State(memory.bytes, map[])
    {
      this.memory, breakpoints := memory, map[];
    }

    method InsertSoftwareBreakpoint(address: nat, kind: nat, io: Access) returns (ok: bool)
      requires Valid()
      modifies this, memory
      ensures Valid() && (ok, Value()) == Insert(old(Value()), address, kind, io)
    {
      if address in breakpoints {
        return false;
      }
      var breakpoint := new SoftwareBreakpoint(address, kind, memory);
      ok := breakpoint.Insert(io);
      assert forall a :: a in breakpoints ==> breakpoints[a].originalBytes == old(breakpoints[a].originalBytes);
      if ok {
        breakpoints := breakpoints[address := breakpoint];
        assert Value().saved == old(Value().saved)[address := old(memory.bytes)[address]];
      } else {
        assert Value().saved == old(Value().saved);
      }
    }

    method RemoveSoftwareBreakpoint(address: nat, io: Access) returns (ok: bool)
      requires Valid()
      modifies this, memory, Owned()
      ensures Valid() && (ok, Value()) == Remove(old(Value()), address, io)
    {
      if address !in breakpoints {
        return false;
      }
      var breakpoint := breakpoints[address];
      assert forall a :: a in breakpoints && a != address ==> breakpoints[a] != breakpoint;
      ok := breakpoint.Remove(io);
      if ok {
        breakpoints := breakpoints - {address};
        assert Value().saved == old(Value().saved) - {address};
      } else {
        assert Value().saved == old(Value().saved);
      }
    }
  }

  // What breakpoints do to memory.

  /** Every breakpoint is armed, on memory that exists. */
  predicate Armed(s: State) {
    forall a :: a in s.saved ==> a in s.memory && s.memory[a] == 0xCC
  }

  /** The program's memory with all breakpoints lifted. */
  function Underlying(s: State): map<nat, Byte> {
    map a | a in s.memory :: if a in s.saved then s.saved[a] else s.memory[a]
  }

  datatype Op =
    | DoInsert(address: nat, kind: nat, io: Access)
    | DoRemove(address: nat, io: Access)
    | DoPoke(address: nat, byte: Byte)

  function Apply(s: State, op: Op): State {
    match op
    case DoInsert(address, kind, io) => Insert(s, address, kind, io).1
    case DoRemove(address, io) => Remove(s, address, io).1
    case DoPoke(address, byte) => Poke(s, address, byte)
  }

  function Run(s: State, ops: seq<Op>): State {
    if ops == [] then s else Apply(Run(s, ops[..|ops| - 1]), ops[|ops| - 1])
  }

  /** The same run with the breakpoint operations left out. */
  function Bare(memory: map<nat, Byte>, ops: seq<Op>): map<nat, Byte> {
    if ops == [] then memory
    else
      var before := Bare(memory, ops[..|ops| - 1]);
      var op := ops[|ops| - 1];
      if op.DoPoke? && op.address in before then before[op.address := op.byte] else before
  }

  /** No write lands on an armed breakpoint. */
  predicate Clear(s: State, ops: seq<Op>) {
    forall i :: 0 <= i < |ops| && ops[i].DoPoke? ==> ops[i].address !in Run(s, ops[..i]).saved
  }

  lemma ApplyKeeps(s: State, op: Op)
    requires Armed(s) && (op.DoPoke? ==> op.address !in s.saved)
    ensures Armed(Apply(s, op))
    ensures Underlying(Apply(s, op)) ==
            if op.DoPoke? && op.address in s.memory then Underlying(s)[op.address := op.byte] else Underlying(s)
  {
    match op {
      case DoInsert(address, kind, io) =>
        var (ok, s') := Insert(s, address, kind, io);
        assert ok ==> Underlying(s').Keys == Underlying(s).Keys;
      case DoRemove(address, io) =>
        var (ok, s') := Remove(s, address, io);
        assert ok ==> Underlying(s').Keys == Underlying(s).Keys;
      case DoPoke(address, byte) =>
        var s' := Poke(s, address, byte);
        assert address in s.memory ==> Underlying(s').Keys == Underlying(s).Keys;
    }
  }

  /**
   * However breakpoints come and go between the writes, and whatever the kernel
   * refuses: what lies under them is what memory would be without any, and every
   * one still set is an int3.
   */
  lemma {:induction false} BreakpointsAreInvisible(memory: map<nat, Byte>, ops: seq<Op>)
    requires Clear(State(memory, map[]), ops)
    ensures var s := Run(State(memory, map[]), ops);
            Armed(s) && Underlying(s) == Bare(memory, ops) && s.memory.Keys == memory.Keys
    decreases |ops|
  {
    var start := State(memory, map[]);
    if ops != [] {
      var most := ops[..|ops| - 1];
      forall i | 0 <= i < |most| && most[i].DoPoke?
        ensures most[i].address !in Run(start, most[..i]).saved
      {
        assert most[..i] == ops[..i] && most[i] == ops[i];
      }
      BreakpointsAreInvisible(memory, most);
      ApplyKeeps(Run(start, most), ops[|ops| - 1]);
    }
  }

  /** So once the last breakpoint is gone, in whatever order they went, memory holds exactly what was written to it. */
  lemma AllRemovedRestores(memory: map<nat, Byte>, ops: seq<Op>)
    requires Clear(State(memory, map[]), ops) && Run(State(memory, map[]), ops).saved == map[]
    ensures Run(State(memory, map[]), ops).memory == Bare(memory, ops)
  {
    BreakpointsAreInvisible(memory, ops);
    var s := Run(State(memory, map[]), ops);
    assert Underlying(s) == s.memory;
  }

  /**
   * A write on a breakpoint is the exception: it outlives the breakpoint exactly
   * when the address is free or the byte is the one that was there before.
   */
  lemma WriteSurvivesIff(s: State, address: nat, byte: Byte, io: Access)
    requires Armed(s) && address in s.memory && io.write
    ensures Remove(Poke(s, address, byte), address, io).1.memory[address] == byte <==>
            address !in s.saved || s.saved[address] == byte
    ensures Underlying(Poke(s, address, byte)) == Underlying(s)[address := byte] <==>
            address !in s.saved || s.saved[address] == byte
  {
    var s' := Poke(s, address, byte);
    assert Underlying(s')[address] == if address in s.saved then s.saved[address] else byte;
    assert Underlying(s).Keys == s.memory.Keys;
    if address !in s.saved || s.saved[address] == byte {
      assert Underlying(s') == Underlying(s)[address := byte];
    }
  }

  /** A read sees the program's byte exactly where no breakpoint stands, or where it replaced an int3. */
  lemma ReadSeesIff(s: State, address: nat)
    requires Armed(s) && address in s.memory
    ensures s.memory[address] == Underlying(s)[address] <==> address !in s.saved || s.saved[address] == INT3
  {
  }
}
