/** Finding the build id of an ELF file (lib/debugger-utils/elf-reader.cc). */
module BuildIds {
  import opened Prelude
  import Hex

  const PT_NOTE: nat := 4
  const NT_GNU_BUILD_ID: nat := 3
  const GNU: seq<Byte> := [0x47, 0x4E, 0x55, 0]
  const MAX_BUILD_ID_SIZE: nat := 64

  /** sizeof(Elf32_Nhdr), and the size of a note with a four-byte name. */
  const NHDR_SIZE: nat := 12
  const NOTE_SIZE: nat := 16

  /** A uint64_t. */
  type Word = w: int | 0 <= w < TWO_64

  datatype Segment = Segment(ty: nat, offset: Word, filesz: Word)

  /** What one segment, or a list of them, has to say. */
  datatype Outcome = Absent | Found(id: seq<Byte>) | TooLarge(size: nat) | IoError

  /** A byte block, small enough that addresses in it do not wrap. */
  type Block = m: seq<Byte> | |m| < TWO_63 witness []

  predicate Readable(m: Block, at: nat, len: nat) {
    len == 0 || at + len <= |m|
  }

  function Field(m: Block, at: nat): (v: nat)
    requires Readable(m, at, 4)
    ensures v < TWO_32
  {
    Power256Of4();
    FromLittleEndian(m[at..at + 4])
  }

  lemma Power256Of4()
    ensures Power256(4) == TWO_32
  {
    assert Power256(1) == 0x100;
    assert Power256(2) == 0x1_0000;
    assert Power256(3) == 0x100_0000;
  }

  /** (n + 3) & -4, computed on uint32_t. */
  function Padded(n: nat): (p: nat)
    ensures p < TWO_32
  {
    (n + 3) % TWO_32 / 4 * 4
  }

  /** The fields of the note at an address. */
  predicate IsGnuBuildId(m: Block, at: nat)
    requires Readable(m, at, NOTE_SIZE)
  {
    Field(m, at + 8) == NT_GNU_BUILD_ID && Field(m, at) == |GNU| && m[at + 12..at + 16] == GNU
  }

  function Header(m: Block, at: nat): nat
    requires Readable(m, at, NOTE_SIZE)
  {
    NHDR_SIZE + Padded(Field(m, at))
  }

  function Payload(m: Block, at: nat): nat
    requires Readable(m, at, NOTE_SIZE)
  {
    Padded(Field(m, at + 4))
  }

  /** What the note at an address says, Absent for a note of another kind. */
  function NoteAt(m: Block, at: nat): Outcome
    requires Readable(m, at, NOTE_SIZE)
  {
    if !IsGnuBuildId(m, at) then Absent
    else
      var size := Field(m, at + 4);
      var payload := at + Header(m, at);
      if size > MAX_BUILD_ID_SIZE then TooLarge(size)
      else if !Readable(m, payload, size) then IoError
      else if size == 0 then Found([])
      else Found(m[payload..payload + size])
  }

  /** What is made of a note, whatever it says: sizes are rounded up to 4, on 32 bits. */
  lemma NoteAtIs(m: Block, at: nat)
    requires at + 16 <= |m|
    ensures var name, desc, ty := Field(m, at), Field(m, at + 4), Field(m, at + 8);
            && Header(m, at) == 12 + Padded(name) && Payload(m, at) == Padded(desc)
            && NoteAt(m, at) == if !(ty == 3 && name == 4 && m[at + 12..at + 16] == [0x47, 0x4E, 0x55, 0]) then Absent
                                else if desc > 64 then TooLarge(desc)
                                else if desc > 0 && at + 16 + desc > |m| then IoError
                                else if desc == 0 then Found([])
                                else Found(m[at + 16..at + 16 + desc])
  {
    hide Field;
    PaddedIs(4);
  }

  lemma PaddedIs(n: nat)
    ensures n + 3 < 0x1_0000_0000 ==> Padded(n) % 4 == 0 && n <= Padded(n) < n + 4
    ensures 0x1_0000_0000 <= n + 3 < 0x1_0000_0003 ==> Padded(n) == 0
  {
  }

  /** The walk over one segment; `size` is what is left of it, modulo 2^64. */
  function Walk(m: Block, at: nat, size: Word): Outcome
    decreases |m| - at
  {
    if size <= NOTE_SIZE then Absent
    else if !Readable(m, at, NOTE_SIZE) then IoError
    else
      var note := NoteAt(m, at);
      if note != Absent then note
      else Walk(m, at + Header(m, at) + Payload(m, at), (size - Header(m, at) - Payload(m, at)) % TWO_64)
  }

  /** What is left of a segment at a place in it: its size less the way made, modulo 2^64. */
  function Left(at: nat, size: Word, place: nat): Word {
    (size - (place - at)) % 0x1_0000_0000_0000_0000
  }

  /** A note of another kind is passed over, with its name and its contents rounded up to 4. */
  predicate Passes(m: Block, place: nat, left: Word, next: nat) {
    && left > 16 && place + 16 <= |m| && NoteAt(m, place) == Absent
    && next == place + 12 + Padded(Field(m, place)) + Padded(Field(m, place + 4))
  }

  /** A walk ends where 16 bytes or less are left, where 16 bytes cannot be read, or at a build id. */
  predicate Ends(m: Block, place: nat, left: Word, o: Outcome) {
    if left <= 16 then o == Absent else if place + 16 > |m| then o == IoError else o == NoteAt(m, place) != Absent
  }

  /** The places a walk comes to, one for each note passed over, and the last. */
  ghost predicate Trail(m: Block, at: nat, size: Word, places: seq<nat>, o: Outcome) {
    && places != [] && places[0] == at
    && (forall i :: 0 <= i < |places| - 1 ==> Passes(m, places[i], Left(at, size, places[i]), places[i + 1]))
    && Ends(m, places[|places| - 1], Left(at, size, places[|places| - 1]), o)
  }

  lemma LeftFrom(at: nat, size: Word, next: nat, place: nat)
    ensures Left(at, size, at) == size && Left(next, Left(at, size, next), place) == Left(at, size, place)
  {
  }

  /** One step of the walk. */
  lemma OneLeg(m: Block, at: nat, size: Word, next: nat, o: Outcome)
    ensures Passes(m, at, size, next) ==> next > at && Walk(m, at, size) == Walk(m, next, Left(at, size, next))
    ensures Ends(m, at, size, o) ==> Walk(m, at, size) == o
    ensures Ends(m, at, size, Walk(m, at, size)) || exists n :: Passes(m, at, size, n)
  {
    hide NoteAt, Padded, Field;
    if size > 16 && at + 16 <= |m| && NoteAt(m, at) == Absent {
      assert Passes(m, at, size, at + 12 + Padded(Field(m, at)) + Padded(Field(m, at + 4)));
    }
  }

  /** A trail from a place passed to is one from the place before it. */
  lemma TrailOneMore(m: Block, at: nat, size: Word, next: nat, rest: seq<nat>, o: Outcome)
    requires Passes(m, at, size, next) && Trail(m, next, Left(at, size, next), rest, o)
    ensures Trail(m, at, size, [at] + rest, o)
  {
    hide Left, Passes, Ends;
    var places, left := [at] + rest, Left(at, size, next);
    LeftFrom(at, size, at, at);
    forall i | 0 <= i < |places| - 1
      ensures Passes(m, places[i], Left(at, size, places[i]), places[i + 1])
    {
      if i > 0 {
        assert places[i] == rest[i - 1] && places[i + 1] == rest[i];
        assert Passes(m, rest[i - 1], Left(next, left, rest[i - 1]), rest[i - 1 + 1]);
        LeftFrom(at, size, next, rest[i - 1]);
      }
    }
    LeftFrom(at, size, next, rest[|rest| - 1]);
  }

  lemma {:induction false} WalkLeavesTrail(m: Block, at: nat, size: Word) returns (places: seq<nat>)
    ensures Trail(m, at, size, places, Walk(m, at, size))
    decreases |m| - at
  {
    hide Walk, Left, Passes, Ends, Trail;
    OneLeg(m, at, size, at, Absent);
    if next :| Passes(m, at, size, next) {
      OneLeg(m, at, size, next, Absent);
      PassesWithin(m, at, size, next);
      var rest := WalkLeavesTrail(m, next, Left(at, size, next));
      TrailOneMore(m, at, size, next, rest, Walk(m, at, size));
      places := [at] + rest;
    } else {
      places := [at];
      assert Trail(m, at, size, [at], Walk(m, at, size)) by { TrailEnds(m, at, size, Walk(m, at, size)); }
    }
  }

  lemma TrailEnds(m: Block, at: nat, size: Word, o: Outcome)
    requires Ends(m, at, size, o)
    ensures Trail(m, at, size, [at], o)
  {
    hide Left, Passes, Ends;
    LeftFrom(at, size, at, at);
  }

  lemma PassesWithin(m: Block, place: nat, left: Word, next: nat)
    requires Passes(m, place, left, next)
    ensures place < |m|
  {
  }

  lemma {:induction false} TrailIsWalked(m: Block, at: nat, size: Word, places: seq<nat>, o: Outcome)
    requires Trail(m, at, size, places, o)
    ensures Walk(m, at, size) == o
    decreases |places|
  {
    hide Walk, Left, Passes, Ends;
    LeftFrom(at, size, at, at);
    OneLeg(m, at, size, if |places| > 1 then places[1] else at, o);
    if |places| > 1 {
      var next, rest := places[1], places[1..];
      forall i | 0 <= i < |rest|
        ensures Left(next, Left(at, size, next), rest[i]) == Left(at, size, places[i + 1])
      {
        LeftFrom(at, size, next, rest[i]);
      }
      TrailIsWalked(m, next, Left(at, size, next), rest, o);
    }
  }

  /** On any bytes, well formed or not, the outcome of a walk is the one at the end of its trail. */
  lemma WalkIff(m: Block, at: nat, size: Word, o: Outcome)
    ensures Walk(m, at, size) == o <==> exists places :: Trail(m, at, size, places, o)
  {
    hide Walk, Trail;
    var trail := WalkLeavesTrail(m, at, size);
    forall places | Trail(m, at, size, places, o)
      ensures Walk(m, at, size) == o
    {
      TrailIsWalked(m, at, size, places, o);
    }
  }

  function WalkSegment(m: Block, base: Word, s: Segment): Outcome {
    if s.ty != PT_NOTE then Absent else Walk(m, (base + s.offset) % TWO_64, s.filesz)
  }

  /** The first segment that says anything. */
  function WalkAll(m: Block, base: Word, segments: seq<Segment>): Outcome
    decreases |segments|
  {
    if segments == [] then Absent
    else
      var first := WalkSegment(m, base, segments[0]);
      if first != Absent then first else WalkAll(m, base, segments[1..])
  }

  /** The ranges the walk asks for, as address and length. */
  function Touched(m: Block, at: nat, size: Word): seq<(nat, nat)>
    decreases |m| - at
  {
    if size <= NOTE_SIZE then []
    else if !Readable(m, at, NOTE_SIZE) then [(at, NOTE_SIZE)]
    else [(at, NOTE_SIZE)] + TouchedBehind(m, at, size)
  }

  /** What follows once the note at an address has been read. */
  function TouchedBehind(m: Block, at: nat, size: Word): seq<(nat, nat)>
    requires Readable(m, at, NOTE_SIZE)
    decreases |m| - at, 0
  {
    var header, payload := Header(m, at), Payload(m, at);
    if !IsGnuBuildId(m, at) then Touched(m, at + header + payload, (size - header - payload) % TWO_64)
    else if Field(m, at + 4) > MAX_BUILD_ID_SIZE then []
    else [(at + header, Field(m, at + 4))]
  }

  function TouchedAll(m: Block, base: Word, segments: seq<Segment>): seq<(nat, nat)>
    decreases |segments|
  {
    if segments == [] then []
    else
      var s := segments[0];
      var here := if s.ty != PT_NOTE then [] else Touched(m, (base + s.offset) % TWO_64, s.filesz);
      here + if WalkSegment(m, base, s) != Absent then [] else TouchedAll(m, base, segments[1..])
  }

  /** The C string an outcome leaves in the buffer; an empty id leaves none. */
  function TextOf(o: Outcome): Option<string> {
    match o
    case Absent => Some("")
    case Found(id) => if id == [] then None else Some(Hex.EncodeBytes(id))
    case TooLarge(n) => Some("build_id_too_large_" + Decimal(n))
    case IoError => None
  }

  /** snprintf of a text that fits, with its terminator. */
  method Store(buf: array<char>, at: nat, text: string)
    requires at + |text| < buf.Length
    modifies buf
    ensures buf[at..at + |text|] == text && buf[at + |text|] == '\0'
    ensures forall i :: 0 <= i < buf.Length && !(at <= i <= at + |text|) ==> buf[i] == old(buf[i])
  {
    for i := 0 to |text|
      invariant forall k :: 0 <= k < i ==> buf[at + k] == text[k]
      invariant forall k :: 0 <= k < buf.Length && !(at <= k < at + i) ==> buf[k] == old(buf[k])
    {
      buf[at + i] := text[i];
    }
    buf[at + |text|] := '\0';
  }

  /** The id, two digits at a time: every snprintf but the last has its terminator overwritten. */
  method StoreId(buf: array<char>, id: seq<Byte>)
    requires 2 * |id| < buf.Length
    modifies buf
    ensures id == [] ==> buf[..] == old(buf[..])
    ensures id != [] ==> buf[..2 * |id|] == Hex.EncodeBytes(id) && buf[2 * |id|] == '\0'
  {
    for i := 0 to |id|
      invariant i == 0 ==> buf[..] == old(buf[..])
      invariant buf[..2 * i] == Hex.EncodeBytes(id[..i])
      invariant i > 0 ==> buf[2 * i] == '\0'
    {
      ghost var before := buf[..2 * i];
      Store(buf, 2 * i, Hex.EncodeByte(id[i]));
      assert buf[..2 * i] == before;
      assert buf[..2 * (i + 1)] == before + Hex.EncodeByte(id[i]);
      assert id[..i + 1][..i] == id[..i];
    }
    assert id[..|id|] == id;
  }

  ghost predicate Holds(buf: seq<char>, text: string) {
    |text| < |buf| && buf[..|text|] == text && buf[|text|] == '\0'
  }

  lemma NotAnId(m: Block, at: nat)
    requires Readable(m, at, NOTE_SIZE) && !IsGnuBuildId(m, at)
    ensures NoteAt(m, at) == Absent
  {
  }

  /** What is done with the build id note at an address. */
  method StoreNote(m: Block, at: nat, buf: array<char>) returns (ok: bool)
    requires Readable(m, at, NOTE_SIZE) && IsGnuBuildId(m, at) && buf.Length >= MAX_BUILD_ID_SIZE * 2 + 1
    modifies buf
    ensures var o := NoteAt(m, at);
            && o != Absent && (ok <==> o != IoError)
            && (TextOf(o).Some? ==> Holds(buf[..], TextOf(o).value))
            && (TextOf(o).None? ==> buf[..] == old(buf[..]))
  {
    hide Field, Header, Decimal, Hex.EncodeBytes;
    var idSize, payloadAt := Field(m, at + 4), at + Header(m, at);
    if idSize > MAX_BUILD_ID_SIZE {
      DecimalOf32(idSize);
      Store(buf, 0, "build_id_too_large_" + Decimal(idSize));
    } else {
      if !Readable(m, payloadAt, idSize) {
        return false;
      }
      StoreId(buf, if idSize == 0 then [] else m[payloadAt..payloadAt + idSize]);
    }
    return true;
  }

  method ReadBuildId(m: Block, base: Word, headers: Option<seq<Segment>>, buf: array<char>)
    returns (ok: bool, ghost asked: seq<(nat, nat)>)
    requires buf.Length >= MAX_BUILD_ID_SIZE * 2 + 1
    modifies buf
    ensures headers.None? ==> !ok && asked == [] && buf[..] == old(buf[..])
    ensures headers.Some? ==>
              var o := WalkAll(m, base, headers.value);
              && (ok <==> o != IoError)
              && (TextOf(o).Some? ==> Holds(buf[..], TextOf(o).value))
              && (TextOf(o).None? ==> buf[..] == old(buf[..]))
    ensures headers.Some? ==> asked == TouchedAll(m, base, headers.value)
  {
    hide Walk, WalkAll, Touched, TouchedBehind, TouchedAll, NoteAt, IsGnuBuildId, Payload, Field, Padded, Decimal,
         Hex.EncodeBytes;
    asked := [];
    if headers.None? {
      return false, asked;
    }
    var segments := headers.value;
    ghost var result, todo := WalkAll(m, base, segments), TouchedAll(m, base, segments);
    assert segments[0..] == segments;
    for i := 0 to |segments|
      invariant buf[..] == old(buf[..])
      invariant result == WalkAll(m, base, segments[i..]) && todo == TouchedAll(m, base, segments[i..])
      invariant asked + todo == TouchedAll(m, base, segments)
    {
      SegmentStep(m, base, segments, i);
      if segments[i].ty != PT_NOTE {
        continue;
      }
      var at: nat, size: Word := (base + segments[i].offset) % TWO_64, segments[i].filesz;
      ghost var here := Walk(m, at, size);
      ghost var rest := if here != Absent then [] else TouchedAll(m, base, segments[i + 1..]);
      while size > NOTE_SIZE
        invariant here == Walk(m, at, size) && todo == Touched(m, at, size) + rest
        invariant asked + todo == TouchedAll(m, base, segments)
        invariant buf[..] == old(buf[..])
        decreases |m| - at
      {
        WalkStep(m, at, size);
        TouchedStep(m, at, size, rest);
        ShiftOne(asked, todo);
        asked, todo := asked + [(at, NOTE_SIZE)], todo[1..];
        if !Readable(m, at, NOTE_SIZE) {
          NothingLeft(asked, todo);
          return false, asked;
        }
        if !IsGnuBuildId(m, at) {
          NotAnId(m, at);
          at, size := at + Header(m, at) + Payload(m, at), (size - Header(m, at) - Payload(m, at)) % TWO_64;
          continue;
        }
        if Field(m, at + 4) <= MAX_BUILD_ID_SIZE {
          ShiftOne(asked, todo);
          asked, todo := asked + [(at + Header(m, at), Field(m, at + 4))], todo[1..];
        }
        ok := StoreNote(m, at, buf);
        NothingLeft(asked, todo);
        return ok, asked;
      }
      WalkStep(m, at, size);
      NothingTouched(m, at, size, rest);
    }
    NoSegments(m, base, segments);
    NothingLeft(asked, todo);
    buf[0] := '\0';
    return true, asked;
  }

  lemma ShiftOne(asked: seq<(nat, nat)>, todo: seq<(nat, nat)>)
    requires todo != []
    ensures (asked + [todo[0]]) + todo[1..] == asked + todo
  {
  }

  lemma NothingLeft(asked: seq<(nat, nat)>, todo: seq<(nat, nat)>)
    requires todo == []
    ensures asked + todo == asked
  {
  }

  /** What segment i adds to the walk over the rest of the segments. */
  lemma SegmentStep(m: Block, base: Word, segments: seq<Segment>, i: nat)
    requires i < |segments|
    ensures var first := WalkSegment(m, base, segments[i]);
            var at := (base + segments[i].offset) % TWO_64;
            && WalkAll(m, base, segments[i..]) == (if first != Absent then first else WalkAll(m, base, segments[i + 1..]))
            && TouchedAll(m, base, segments[i..]) ==
               (if segments[i].ty != PT_NOTE then [] else Touched(m, at, segments[i].filesz)) +
               (if first != Absent then [] else TouchedAll(m, base, segments[i + 1..]))
  {
    hide Walk, Touched;
    assert segments[i..][1..] == segments[i + 1..];
  }

  lemma NoSegments(m: Block, base: Word, segments: seq<Segment>)
    ensures WalkAll(m, base, segments[|segments|..]) == Absent && TouchedAll(m, base, segments[|segments|..]) == []
  {
  }

  /** The next range of a walk that goes on, and what comes behind it. */
  lemma TouchedStep(m: Block, at: nat, size: Word, rest: seq<(nat, nat)>)
    requires size > NOTE_SIZE
    ensures var todo := Touched(m, at, size) + rest;
            && |todo| > 0 && todo[0] == (at, NOTE_SIZE)
            && (!Readable(m, at, NOTE_SIZE) ==> todo[1..] == rest)
            && (Readable(m, at, NOTE_SIZE) ==>
                  if !IsGnuBuildId(m, at) then
                    todo[1..] == Touched(m, at + Header(m, at) + Payload(m, at),
                                         (size - Header(m, at) - Payload(m, at)) % TWO_64) + rest
                  else if Field(m, at + 4) > MAX_BUILD_ID_SIZE then todo[1..] == rest
                  else todo[1..] == [(at + Header(m, at), Field(m, at + 4))] + rest)
  {
    hide Header, Payload, Field, IsGnuBuildId;
    var todo := Touched(m, at, size) + rest;
    if Readable(m, at, NOTE_SIZE) {
      assert todo == [(at, NOTE_SIZE)] + (TouchedBehind(m, at, size) + rest);
    }
  }

  lemma NothingTouched(m: Block, at: nat, size: Word, rest: seq<(nat, nat)>)
    requires size <= NOTE_SIZE
    ensures Touched(m, at, size) + rest == rest
  {
  }

  lemma WalkStep(m: Block, at: nat, size: Word)
    ensures Walk(m, at, size) ==
            if size <= NOTE_SIZE then Absent
            else if !Readable(m, at, NOTE_SIZE) then IoError
            else if NoteAt(m, at) != Absent then NoteAt(m, at)
            else Walk(m, at + Header(m, at) + Payload(m, at), (size - Header(m, at) - Payload(m, at)) % TWO_64)
  {
  }

  // Well-formed note segments.

  /** A note as section "Note Section" of chapter 5 of the System V ABI lays it out. */
  datatype Note = Note(name: seq<Byte>, ty: nat, desc: seq<Byte>)

  predicate Encodable(n: Note) {
    |n.name| + 3 < TWO_32 && |n.desc| + 3 < TWO_32 && n.ty < TWO_32
  }

  function Zeros(n: nat): (z: seq<Byte>)
    ensures |z| == n
  {
    seq(n, _ => 0)
  }

  function Aligned(bytes: seq<Byte>): (a: seq<Byte>)
    ensures |a| % 4 == 0 && |bytes| <= |a| < |bytes| + 4 && a[..|bytes|] == bytes
  {
    bytes + Zeros((4 - |bytes| % 4) % 4)
  }

  function Encode(n: Note): (b: seq<Byte>)
    ensures |b| == NHDR_SIZE + |Aligned(n.name)| + |Aligned(n.desc)|
  {
    LittleEndian(|n.name|, 4) + LittleEndian(|n.desc|, 4) + LittleEndian(n.ty, 4) + Aligned(n.name) + Aligned(n.desc)
  }

  function EncodeAll(ns: seq<Note>): seq<Byte> {
    if ns == [] then [] else Encode(ns[0]) + EncodeAll(ns[1..])
  }

  predicate IsId(n: Note) {
    n.ty == 3 && n.name == [0x47, 0x4E, 0x55, 0]
  }

  /**
   * What a list of notes says: the first build id counts. The walk does not look at
   * a rest of 16 bytes or less, so an empty id in the last place is passed over.
   */
  function Wanted(ns: seq<Note>): Outcome
    decreases |ns|
  {
    if ns == [] then Absent
    else if IsId(ns[0]) then
      if |ns[0].desc| > 64 then TooLarge(|ns[0].desc|)
      else if ns[0].desc == [] && |ns| == 1 then Absent
      else Found(ns[0].desc)
    else Wanted(ns[1..])
  }

  lemma PaddedIsAligned(bytes: seq<Byte>)
    requires |bytes| + 3 < TWO_32
    ensures Padded(|bytes|) == |Aligned(bytes)|
  {
    assert (|bytes| + 3) % TWO_32 == |bytes| + 3;
  }

  lemma Window(m: Block, at: nat, e: seq<Byte>, i: nat, j: nat)
    requires at + |e| <= |m| && m[at..at + |e|] == e && i <= j <= |e|
    ensures m[at + i..at + j] == e[i..j]
  {
    forall k | i <= k < j
      ensures m[at + k] == e[k]
    {
      assert m[at..at + |e|][k] == m[at + k];
    }
  }

  /** Where the parts of an encoded note are. */
  lemma Parts(n: Note)
    ensures var e, k := Encode(n), 12 + |Aligned(n.name)|;
            && e[0..4] == LittleEndian(|n.name|, 4) && e[4..8] == LittleEndian(|n.desc|, 4)
            && e[8..12] == LittleEndian(n.ty, 4)
            && e[12..12 + |n.name|] == n.name && e[k..k + |n.desc|] == n.desc
  {
    hide LittleEndian, Aligned;
    var e, k := Encode(n), 12 + |Aligned(n.name)|;
    assert e[12..k] == Aligned(n.name) && e[k..] == Aligned(n.desc);
    assert e[12..12 + |n.name|] == Aligned(n.name)[..|n.name|];
    assert e[k..k + |n.desc|] == Aligned(n.desc)[..|n.desc|];
  }

  /** The header fields and the name and contents of a note that stands in memory. */
  lemma NoteInMemory(m: Block, at: nat, n: Note)
    requires Encodable(n) && at + |Encode(n)| <= |m| && m[at..at + |Encode(n)|] == Encode(n)
    ensures Field(m, at) == |n.name| && Field(m, at + 4) == |n.desc| && Field(m, at + 8) == n.ty
    ensures m[at + 12..at + 12 + |n.name|] == n.name && |n.desc| <= Padded(|n.desc|)
    ensures var payload := at + 12 + Padded(|n.name|);
            Padded(|n.name|) + Padded(|n.desc|) + 12 == |Encode(n)| && m[payload..payload + |n.desc|] == n.desc
  {
    hide FromLittleEndian, LittleEndian, Aligned, Padded, Encode;
    Power256Of4();
    PaddedIsAligned(n.name);
    PaddedIsAligned(n.desc);
    LittleEndianReadsBack(|n.name|, 4);
    LittleEndianReadsBack(|n.desc|, 4);
    LittleEndianReadsBack(n.ty, 4);
    Parts(n);
    var e, k := Encode(n), 12 + |Aligned(n.name)|;
    Window(m, at, e, 0, 4);
    Window(m, at, e, 4, 8);
    Window(m, at, e, 8, 12);
    Window(m, at, e, 12, 12 + |n.name|);
    Window(m, at, e, k, k + |n.desc|);
  }

  /** Whether the note is a build id shows in its first sixteen bytes. */
  lemma NoteIsSeen(m: Block, at: nat, n: Note)
    requires Encodable(n) && at + |Encode(n)| <= |m| && m[at..at + |Encode(n)|] == Encode(n)
    requires Readable(m, at, NOTE_SIZE)
    ensures IsGnuBuildId(m, at) <==> IsId(n)
    ensures NoteAt(m, at) == if !IsId(n) then Absent
                             else if |n.desc| > MAX_BUILD_ID_SIZE then TooLarge(|n.desc|)
                             else Found(n.desc)
    ensures Header(m, at) + Payload(m, at) == |Encode(n)|
  {
    hide Field, Padded, Encode;
    NoteInMemory(m, at, n);
    assert |n.name| == 4 ==> m[at + 12..at + 16] == n.name;
    assert |GNU| == 4;
    var payload := at + Header(m, at);
    assert payload + |n.desc| <= at + |Encode(n)|;
    assert m[payload..payload + |n.desc|] == n.desc;
  }

  /**
   * On a segment that is a concatenation of well-formed notes the walk says what the
   * notes say, whatever surrounds the segment: so it depends on, and reads, nothing
   * outside it.
   */
  lemma {:induction false} WalkReadsNotes(m: Block, at: nat, ns: seq<Note>)
    requires forall i :: 0 <= i < |ns| ==> Encodable(ns[i])
    requires at + |EncodeAll(ns)| <= |m| && m[at..at + |EncodeAll(ns)|] == EncodeAll(ns)
    ensures Walk(m, at, |EncodeAll(ns)|) == Wanted(ns)
    decreases |ns|
  {
    hide Walk, Encode, EncodeAll, NoteAt, Header, Payload, Padded, Field;
    var size := |EncodeAll(ns)|;
    WalkStep(m, at, size);
    if ns == [] {
      assert EncodeAll(ns) == [] by { NothingEncoded(); }
    } else {
      FirstAndRest(m, at, ns);
      NoteSizes(ns);
      if size > NOTE_SIZE {
        NoteIsSeen(m, at, ns[0]);
        if !IsId(ns[0]) {
          WalkReadsNotes(m, at + |Encode(ns[0])|, ns[1..]);
        }
      }
    }
  }

  lemma NothingEncoded()
    ensures EncodeAll([]) == []
  {
  }

  lemma FirstAndRest(m: Block, at: nat, ns: seq<Note>)
    requires ns != [] && at + |EncodeAll(ns)| <= |m| && m[at..at + |EncodeAll(ns)|] == EncodeAll(ns)
    ensures var first, rest := Encode(ns[0]), EncodeAll(ns[1..]);
            && |EncodeAll(ns)| == |first| + |rest|
            && m[at..at + |first|] == first
            && m[at + |first|..at + |first| + |rest|] == rest
  {
    hide Encode;
    var all, n := EncodeAll(ns), |Encode(ns[0])|;
    Window(m, at, all, 0, n);
    Window(m, at, all, n, |all|);
    assert all[0..n] == Encode(ns[0]) && all[n..|all|] == EncodeAll(ns[1..]);
  }

  /** A list of at most sixteen bytes holds one note, which says nothing. */
  lemma NoteSizes(ns: seq<Note>)
    requires ns != []
    ensures |EncodeAll(ns)| <= NOTE_SIZE ==> Wanted(ns) == Absent
    ensures ns[0].desc == [] && |ns| == 1 && IsId(ns[0]) ==> |EncodeAll(ns)| <= NOTE_SIZE
  {
    hide Aligned;
    assert |Aligned(ns[0].name)| >= |ns[0].name| && |Aligned(ns[0].desc)| >= |ns[0].desc|;
    if |ns| > 1 {
      assert |EncodeAll(ns[1..])| >= 12;
    } else {
      assert EncodeAll(ns[1..]) == [];
      if IsId(ns[0]) {
        assert |Aligned(ns[0].name)| == 4;
      }
    }
  }

  /** The notes of each segment, in a file where every note segment is well formed. */
  ghost predicate Lays(m: Block, base: Word, segments: seq<Segment>, notes: seq<seq<Note>>) {
    && |notes| == |segments|
    && (forall i, j :: 0 <= i < |notes| && 0 <= j < |notes[i]| ==> Encodable(notes[i][j]))
    && (forall i :: 0 <= i < |segments| ==> LaysOne(m, base, segments[i], notes[i]))
  }

  predicate LaysOne(m: Block, base: Word, s: Segment, ns: seq<Note>) {
    var at := (base + s.offset) % TWO_64;
    if s.ty != 4 then ns == []
    else s.filesz == |EncodeAll(ns)| && at + s.filesz <= |m| && m[at..at + s.filesz] == EncodeAll(ns)
  }

  function WantedOfAll(notes: seq<seq<Note>>): Outcome
    decreases |notes|
  {
    if notes == [] then Absent
    else if Wanted(notes[0]) != Absent then Wanted(notes[0])
    else WantedOfAll(notes[1..])
  }

  lemma {:induction false} FirstIdOfFile(m: Block, base: Word, segments: seq<Segment>, notes: seq<seq<Note>>)
    requires Lays(m, base, segments, notes)
    ensures WalkAll(m, base, segments) == WantedOfAll(notes)
    decreases |segments|
  {
    hide Walk, EncodeAll, Wanted;
    if segments == [] {
    } else {
      assert LaysOne(m, base, segments[0], notes[0]);
      if segments[0].ty == PT_NOTE {
        WalkReadsNotes(m, (base + segments[0].offset) % TWO_64, notes[0]);
      } else {
        NothingWanted();
      }
      forall i | 0 <= i < |segments[1..]|
        ensures LaysOne(m, base, segments[1..][i], notes[1..][i])
      {
        assert LaysOne(m, base, segments[i + 1], notes[i + 1]);
      }
      FirstIdOfFile(m, base, segments[1..], notes[1..]);
    }
  }

  lemma NothingWanted()
    ensures Wanted([]) == Absent
  {
  }

  predicate Within(r: (nat, nat), at: nat, size: nat) {
    at <= r.0 && r.0 + r.1 <= at + size
  }

  /** On a concatenation of well-formed notes the walk asks for nothing outside it. */
  lemma {:induction false} TouchesNotesOnly(m: Block, at: nat, ns: seq<Note>)
    requires forall i :: 0 <= i < |ns| ==> Encodable(ns[i])
    requires at + |EncodeAll(ns)| <= |m| && m[at..at + |EncodeAll(ns)|] == EncodeAll(ns)
    ensures forall i :: 0 <= i < |Touched(m, at, |EncodeAll(ns)|)| ==>
                          Within(Touched(m, at, |EncodeAll(ns)|)[i], at, |EncodeAll(ns)|)
    decreases |ns|
  {
    hide Touched, Encode, EncodeAll, NoteAt, Padded, Field, Header, Payload;
    var size := |EncodeAll(ns)|;
    if size <= NOTE_SIZE {
      NothingTouched(m, at, size, []);
    } else {
      if ns == [] {
        NothingEncoded();
      } else {
        FirstAndRest(m, at, ns);
        NoteIsSeen(m, at, ns[0]);
        NotePayload(m, at, ns[0]);
        TouchedStep(m, at, size, []);
        var all := Touched(m, at, size);
        assert all + [] == all;
        if !IsId(ns[0]) {
          var next, more := at + |Encode(ns[0])|, |EncodeAll(ns[1..])|;
          TouchesNotesOnly(m, next, ns[1..]);
          assert all[1..] == Touched(m, next, more);
          forall i | 0 <= i < |all|
            ensures Within(all[i], at, size)
          {
            assert i > 0 ==> all[i] == all[1..][i - 1];
          }
        } else {
          forall i | 0 <= i < |all|
            ensures Within(all[i], at, size)
          {
            assert i > 0 ==> all[i] == all[1..][i - 1];
          }
        }
      }
    }
  }

  lemma NotePayload(m: Block, at: nat, n: Note)
    requires Encodable(n) && at + |Encode(n)| <= |m| && m[at..at + |Encode(n)|] == Encode(n)
    requires Readable(m, at, NOTE_SIZE)
    ensures Header(m, at) + Field(m, at + 4) <= |Encode(n)|
  {
    hide Field, Padded, Encode;
    NoteInMemory(m, at, n);
  }

  /** Whether a range is inside one of the note segments. */
  ghost predicate InSegment(r: (nat, nat), base: Word, segments: seq<Segment>) {
    exists i :: 0 <= i < |segments| && segments[i].ty == 4 &&
                Within(r, (base + segments[i].offset) % TWO_64, segments[i].filesz)
  }

  lemma {:induction false} TouchesSegmentsOnly(m: Block, base: Word, segments: seq<Segment>, notes: seq<seq<Note>>)
    requires Lays(m, base, segments, notes)
    ensures forall r :: r in TouchedAll(m, base, segments) ==> InSegment(r, base, segments)
    decreases |segments|
  {
    hide Lays, Touched, WalkSegment, InSegment;
    if segments != [] {
      LaysFirstAndRest(m, base, segments, notes);
      var s := segments[0];
      if s.ty == PT_NOTE {
        FirstSegmentOnly(m, base, segments, notes);
      }
      TouchesSegmentsOnly(m, base, segments[1..], notes[1..]);
      forall r | r in TouchedAll(m, base, segments[1..])
        ensures InSegment(r, base, segments)
      {
        InLaterSegment(r, base, segments);
      }
    }
  }

  lemma LaysFirstAndRest(m: Block, base: Word, segments: seq<Segment>, notes: seq<seq<Note>>)
    requires Lays(m, base, segments, notes) && segments != []
    ensures notes != [] && LaysOne(m, base, segments[0], notes[0]) && Lays(m, base, segments[1..], notes[1..])
    ensures forall j :: 0 <= j < |notes[0]| ==> Encodable(notes[0][j])
  {
    hide LaysOne, Encodable;
    assert LaysOne(m, base, segments[0], notes[0]);
    forall i | 0 <= i < |segments[1..]|
      ensures LaysOne(m, base, segments[1..][i], notes[1..][i])
    {
      assert LaysOne(m, base, segments[i + 1], notes[i + 1]);
    }
  }

  lemma FirstSegmentOnly(m: Block, base: Word, segments: seq<Segment>, notes: seq<seq<Note>>)
    requires segments != [] && notes != [] && segments[0].ty == PT_NOTE && LaysOne(m, base, segments[0], notes[0])
    requires forall j :: 0 <= j < |notes[0]| ==> Encodable(notes[0][j])
    ensures var s := segments[0];
            forall r :: r in Touched(m, (base + s.offset) % TWO_64, s.filesz) ==> InSegment(r, base, segments)
  {
    hide Touched, EncodeAll, Encodable, Within;
    TouchesNotesOnly(m, (base + segments[0].offset) % TWO_64, notes[0]);
  }

  lemma InLaterSegment(r: (nat, nat), base: Word, segments: seq<Segment>)
    requires segments != [] && InSegment(r, base, segments[1..])
    ensures InSegment(r, base, segments)
  {
    hide Within;
    var i :| 0 <= i < |segments[1..]| && segments[1..][i].ty == 4 &&
             Within(r, (base + segments[1..][i].offset) % TWO_64, segments[1..][i].filesz);
    assert segments[i + 1] == segments[1..][i];
  }

  /**
   * On a file whose note segments are well formed: no error, the string left in the
   * buffer is that of the first build id the notes hold, the empty string if they
   * hold none, and nothing outside the note segments is read.
   */
  method BuildIdOfFile(m: Block, base: Word, segments: seq<Segment>, notes: seq<seq<Note>>, buf: array<char>)
    returns (ok: bool, ghost asked: seq<(nat, nat)>)
    requires Lays(m, base, segments, notes) && buf.Length >= MAX_BUILD_ID_SIZE * 2 + 1
    modifies buf
    ensures ok
    ensures match WantedOfAll(notes)
            case Absent => Holds(buf[..], "")
            case Found(id) => if id == [] then buf[..] == old(buf[..]) else Holds(buf[..], Hex.EncodeBytes(id))
            case TooLarge(n) => Holds(buf[..], "build_id_too_large_" + Decimal(n))
            case IoError => false
    ensures forall r :: r in asked ==> InSegment(r, base, segments)
  {
    hide Lays, WalkAll, WantedOfAll, TouchedAll, InSegment, Decimal, Hex.EncodeBytes;
    FirstIdOfFile(m, base, segments, notes);
    TouchesSegmentsOnly(m, base, segments, notes);
    NotesHaveNoError(notes);
    ok, asked := ReadBuildId(m, base, Some(segments), buf);
  }

  lemma {:induction false} NotesHaveNoError(notes: seq<seq<Note>>)
    ensures WantedOfAll(notes) != IoError
    decreases |notes|
  {
    if notes != [] {
      NoteHasNoError(notes[0]);
      NotesHaveNoError(notes[1..]);
    }
  }

  lemma {:induction false} NoteHasNoError(ns: seq<Note>)
    ensures Wanted(ns) != IoError
    decreases |ns|
  {
    if ns != [] {
      NoteHasNoError(ns[1..]);
    }
  }
}
