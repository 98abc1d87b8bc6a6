/** Dumping a trace to a file (bin/ipt/control.cc, WriteBufferData from the opening of the file on). */
module TraceDump {
  import opened Prelude

  const CHUNK: nat := 4096

  datatype Status = NoError | ReadFailed | WriteFailed

  /** Which requests succeed, and how much of a write that falls short still gets out. */
  datatype Io = Io(handle: nat -> bool, read: (nat, nat) -> bool, write: (nat, nat) -> Option<nat>)

  function Least(a: nat, b: nat): nat {
    if a < b then a else b
  }

  function Concat(buffers: seq<seq<Byte>>): seq<Byte> {
    if buffers == [] then [] else Concat(buffers[..|buffers| - 1]) + buffers[|buffers| - 1]
  }

  lemma ConcatOneMore(buffers: seq<seq<Byte>>, i: nat)
    requires i < |buffers|
    ensures Concat(buffers[..i + 1]) == Concat(buffers[..i]) + buffers[i]
  {
    assert buffers[..i + 1][..i] == buffers[..i];
  }

  /** What is in hand in the middle of buffer i is a prefix of the whole. */
  lemma {:induction false} PrefixOfAll(buffers: seq<seq<Byte>>, i: nat, k: nat)
    requires i < |buffers| && k <= |buffers[i]|
    ensures Concat(buffers[..i]) + buffers[i][..k] <= Concat(buffers)
    decreases |buffers| - i
  {
    ConcatOneMore(buffers, i);
    if i + 1 < |buffers| {
      PrefixOfAll(buffers, i + 1, 0);
    } else {
      assert buffers[..i + 1] == buffers;
    }
  }

  // Where a dump ends.

  /** The first request that fails, if the dump gets to one. */
  datatype Halt = Done | NoHandle(buffer: nat) | BadRead(buffer: nat, offset: nat) | BadWrite(buffer: nat, offset: nat)

  /** How many bytes come before buffer i. */
  function Start(buffers: seq<seq<Byte>>, i: nat): nat
    requires i <= |buffers|
  {
    |Concat(buffers[..i])|
  }

  /** Every chunk of buffer i that begins before k is read and written. */
  predicate FineUpTo(io: Io, i: nat, k: nat) {
    forall c :: 0 <= c < k && c % 4096 == 0 ==> io.read(i, c) && io.write(i, c) == None
  }

  /** Everything about the buffers before i succeeds. */
  predicate FineBefore(buffers: seq<seq<Byte>>, io: Io, i: nat)
    requires i <= |buffers|
  {
    forall j :: 0 <= j < i ==> io.handle(j) && FineUpTo(io, j, |buffers[j]|)
  }

  /** The dump gets as far as the chunk of buffer i at k. */
  predicate Reaches(buffers: seq<seq<Byte>>, wanted: nat, io: Io, i: nat, k: nat) {
    && i < |buffers| && k < |buffers[i]| && k % 4096 == 0 && Start(buffers, i) + k < wanted
    && FineBefore(buffers, io, i) && io.handle(i) && FineUpTo(io, i, k)
  }

  predicate Halts(buffers: seq<seq<Byte>>, wanted: nat, io: Io, h: Halt) {
    match h
    case Done =>
      forall i :: 0 <= i < |buffers| && Start(buffers, i) < wanted ==>
                    io.handle(i) && FineUpTo(io, i, Least(|buffers[i]|, wanted - Start(buffers, i)))
    case NoHandle(i) => i < |buffers| && Start(buffers, i) < wanted && FineBefore(buffers, io, i) && !io.handle(i)
    case BadRead(i, k) => Reaches(buffers, wanted, io, i, k) && !io.read(i, k)
    case BadWrite(i, k) => Reaches(buffers, wanted, io, i, k) && io.read(i, k) && io.write(i, k).Some?
  }

  /** How much a write that falls short gets out: less than it was given. */
  function Part(short: nat, size: nat, left: nat): (n: nat)
    requires size > 0 && left > 0
    ensures n < CHUNK && n < size && n < left
  {
    Least(short, Least(CHUNK, Least(size, left)) - 1)
  }

  /** What is in the file at the end. */
  function FileAt(buffers: seq<seq<Byte>>, wanted: nat, io: Io, h: Halt): seq<Byte>
    requires Halts(buffers, wanted, io, h)
  {
    match h
    case Done => Concat(buffers)[..Least(wanted, |Concat(buffers)|)]
    case NoHandle(i) => Concat(buffers[..i])
    case BadRead(i, k) => Concat(buffers[..i]) + buffers[i][..k]
    case BadWrite(i, k) =>
      var n := Part(io.write(i, k).value, |buffers[i]| - k, wanted - Start(buffers, i) - k);
      Concat(buffers[..i]) + buffers[i][..k + n]
  }

  function StatusAt(h: Halt): Status {
    match h
    case BadRead(_, _) => ReadFailed
    case BadWrite(_, _) => WriteFailed
    case _ => NoError
  }

  lemma {:induction false} StartGrows(buffers: seq<seq<Byte>>, i: nat, j: nat)
    requires i < j <= |buffers|
    ensures Start(buffers, i) + |buffers[i]| <= Start(buffers, j)
    decreases j - i
  {
    ConcatOneMore(buffers, i);
    if i + 1 < j {
      StartGrows(buffers, i + 1, j);
    }
  }

  function BufferOf(h: Halt): nat
    requires h != Done
  {
    h.buffer
  }

  /** A dump cannot end in an earlier place and a later one. */
  lemma NotBefore(buffers: seq<seq<Byte>>, wanted: nat, io: Io, h: Halt, h': Halt)
    requires Halts(buffers, wanted, io, h) && Halts(buffers, wanted, io, h') && h != Done
    ensures h' != Done && BufferOf(h) >= BufferOf(h')
  {
    hide Start, FineUpTo;
    var i := BufferOf(h);
    if h' == Done {
      Needed(buffers, wanted, io, h);
    } else if i < BufferOf(h') {
      StartGrows(buffers, i, BufferOf(h'));
      Needed(buffers, wanted, io, h);
    }
  }

  /** What fails at h is something that must not fail. */
  lemma Needed(buffers: seq<seq<Byte>>, wanted: nat, io: Io, h: Halt)
    requires Halts(buffers, wanted, io, h) && h != Done
    ensures var i := BufferOf(h);
            && i < |buffers| && Start(buffers, i) < wanted
            && !(io.handle(i) && FineUpTo(io, i, Least(|buffers[i]|, wanted - Start(buffers, i))))
            && !(io.handle(i) && FineUpTo(io, i, |buffers[i]|))
  {
  }

  /** Every dump ends in one way only. */
  lemma HaltsOnce(buffers: seq<seq<Byte>>, wanted: nat, io: Io, h: Halt, h': Halt)
    requires Halts(buffers, wanted, io, h) && Halts(buffers, wanted, io, h')
    ensures h == h'
  {
    hide Start, FineBefore;
    if h != Done {
      NotBefore(buffers, wanted, io, h, h');
      NotBefore(buffers, wanted, io, h', h);
    } else if h' != Done {
      NotBefore(buffers, wanted, io, h', h);
    }
  }

  /** A read fills the chunk; what is behind it in the chunk stays. */
  method ReadInto(buf: array<Byte>, source: seq<Byte>, offset: nat, n: nat)
    requires n <= buf.Length && offset + n <= |source|
    modifies buf
    ensures buf[..n] == source[offset..offset + n]
  {
    for i := 0 to n
      invariant forall k :: 0 <= k < i ==> buf[k] == source[offset + k]
    {
      buf[i] := source[offset + i];
    }
  }

  lemma Extends(source: seq<Byte>, offset: nat, n: nat)
    requires offset + n <= |source|
    ensures source[..offset] + source[offset..offset + n] == source[..offset + n]
  {
  }

  lemma PartOfChunk(source: seq<Byte>, offset: nat, n: nat, part: nat)
    requires part <= n && offset + n <= |source|
    ensures source[offset..offset + n][..part] == source[offset..offset + part]
  {
  }

  lemma ChunksApart(a: nat, b: nat)
    requires a % CHUNK == 0 && b % CHUNK == 0
    ensures a <= b || a >= b + CHUNK
  {
  }

  lemma OneChunkMore(io: Io, i: nat, offset: nat, n: nat)
    requires FineUpTo(io, i, offset) && offset % CHUNK == 0 && n <= CHUNK
    requires io.read(i, offset) && io.write(i, offset) == None
    ensures FineUpTo(io, i, offset + n)
  {
    forall c | 0 <= c < offset + n && c % CHUNK == 0
      ensures io.read(i, c) && io.write(i, c) == None
    {
      ChunksApart(c, offset);
    }
  }

  /** What one buffer adds to the file, and where in it the dump stops if a read or a write fails. */
  method DumpBuffer(buf: array<Byte>, source: seq<Byte>, i: nat, left: nat, io: Io)
    returns (out: seq<Byte>, status: Status, ghost k: nat)
    requires buf.Length == CHUNK
    modifies buf
    ensures status == NoError ==> k == Least(left, |source|) && out == source[..k] && FineUpTo(io, i, k)
    ensures status != NoError ==> k < |source| && k < left && k % CHUNK == 0 && FineUpTo(io, i, k)
    ensures status == ReadFailed ==> !io.read(i, k) && out == source[..k]
    ensures status == WriteFailed ==>
              && io.read(i, k) && io.write(i, k).Some?
              && out == source[..k + Part(io.write(i, k).value, |source| - k, left - k)]
  {
    hide FineUpTo;
    var remaining: nat, offset: nat, bytesLeft: nat := |source|, 0, left;
    out := [];
    assert FineUpTo(io, i, 0) by { NothingYetDone(io, i); }
    while remaining > 0 && bytesLeft > 0
      invariant remaining + offset == |source| && bytesLeft + offset == left
      invariant out == source[..offset] && FineUpTo(io, i, offset)
      invariant remaining > 0 && bytesLeft > 0 ==> offset % CHUNK == 0
      decreases bytesLeft
    {
      var n := CHUNK;
      if n > remaining {
        n := remaining;
      }
      if n > bytesLeft {
        n := bytesLeft;
      }
      if !io.read(i, offset) {
        return out, ReadFailed, offset;
      }
      ReadInto(buf, source, offset, n);
      var short := io.write(i, offset);
      if short.Some? {
        var part := Part(short.value, remaining, bytesLeft);
        Extends(source, offset, part);
        PartOfChunk(source, offset, n, part);
        assert buf[..part] == buf[..n][..part];
        return out + buf[..part], WriteFailed, offset;
      }
      Extends(source, offset, n);
      OneChunkMore(io, i, offset, n);
      out := out + buf[..n];
      offset, remaining, bytesLeft := offset + n, remaining - n, bytesLeft - n;
    }
    return out, NoError, offset;
  }

  lemma NothingYetDone(io: Io, i: nat)
    ensures FineUpTo(io, i, 0)
  {
  }

  /**
   * The dump ends at the first request that fails, or when it has as much as was asked
   * for or everything there is. That decides what is in the file, which is always a
   * prefix of the buffers put end to end, and the status; the assertion at the end fails
   * exactly if nothing else does and more was asked for than there is.
   */
  method WriteBufferData(buffers: seq<seq<Byte>>, circular: bool, captureEnd: nat, io: Io)
    returns (file: seq<Byte>, status: Status, asserted: bool, ghost h: Halt)
    ensures var wanted := Wanted(buffers, circular, captureEnd);
            && Halts(buffers, wanted, io, h)
            && file == FileAt(buffers, wanted, io, h)
            && status == StatusAt(h)
            && (asserted <==> h == Done && wanted > |Concat(buffers)|)
            && (status == ReadFailed <==> h.BadRead?) && (status == WriteFailed <==> h.BadWrite?)
    ensures file <= Concat(buffers)
    ensures status == NoError && !asserted && !h.NoHandle? ==>
              file == if circular then Concat(buffers) else Concat(buffers)[..captureEnd]
  {
    hide Concat, FineUpTo, FineBefore, Halts, FileAt, Reaches;
    var bytesLeft: nat := if circular then TotalSize(buffers) else captureEnd;
    ghost var wanted := bytesLeft;
    TotalIsLength(buffers);
    var buf := new Byte[CHUNK];
    file := [];
    NothingYet(buffers, io);
    var i := 0;
    while i < |buffers| && bytesLeft > 0
      invariant i <= |buffers| && |file| + bytesLeft == wanted
      invariant file <= Concat(buffers)
      invariant bytesLeft > 0 ==> file == Concat(buffers[..i]) && FineBefore(buffers, io, i)
      invariant bytesLeft == 0 ==> Halts(buffers, wanted, io, Done)
    {
      if !io.handle(i) {
        EndsAtHandle(buffers, wanted, io, i);
        return file, NoError, false, NoHandle(i);
      }
      var out, status', k := DumpBuffer(buf, buffers[i], i, bytesLeft, io);
      if status' != NoError {
        h := if status' == ReadFailed then BadRead(i, k) else BadWrite(i, k);
        EndsInBuffer(buffers, wanted, io, i, k, h);
        return file + out, status', false, h;
      }
      PrefixOfAll(buffers, i, |out|);
      BufferDone(buffers, wanted, io, i, |out|);
      file := file + out;
      bytesLeft := bytesLeft - |out|;
      i := i + 1;
    }
    assert buffers[..|buffers|] == buffers;
    if bytesLeft != 0 {
      AllWereFine(buffers, wanted, io);
    }
    EndsWell(buffers, wanted, io, |file|);
    return file, NoError, bytesLeft != 0, Done;
  }

  lemma EndsAtHandle(buffers: seq<seq<Byte>>, wanted: nat, io: Io, i: nat)
    requires i < |buffers| && Start(buffers, i) < wanted && FineBefore(buffers, io, i) && !io.handle(i)
    ensures Halts(buffers, wanted, io, NoHandle(i))
    ensures FileAt(buffers, wanted, io, NoHandle(i)) == Concat(buffers[..i])
  {
  }

  lemma EndsInBuffer(buffers: seq<seq<Byte>>, wanted: nat, io: Io, i: nat, k: nat, h: Halt)
    requires i < |buffers| && Start(buffers, i) + k < wanted && FineBefore(buffers, io, i) && io.handle(i)
    requires k < |buffers[i]| && k % CHUNK == 0 && FineUpTo(io, i, k)
    requires (h == BadRead(i, k) && !io.read(i, k)) || (h == BadWrite(i, k) && io.read(i, k) && io.write(i, k).Some?)
    ensures Halts(buffers, wanted, io, h)
    ensures FileAt(buffers, wanted, io, h) ==
            Concat(buffers[..i]) +
            if h.BadRead? then buffers[i][..k]
            else buffers[i][..k + Part(io.write(i, k).value, |buffers[i]| - k, wanted - Start(buffers, i) - k)]
    ensures FileAt(buffers, wanted, io, h) <= Concat(buffers)
  {
    hide Concat, FineBefore, FineUpTo;
    PrefixOfAll(buffers, i, k);
    if h.BadWrite? {
      PrefixOfAll(buffers, i, k + Part(io.write(i, k).value, |buffers[i]| - k, wanted - Start(buffers, i) - k));
    }
  }

  /** After buffer i: on to the next one, or done. */
  lemma BufferDone(buffers: seq<seq<Byte>>, wanted: nat, io: Io, i: nat, n: nat)
    requires i < |buffers| && Start(buffers, i) < wanted && FineBefore(buffers, io, i) && io.handle(i)
    requires n == Least(wanted - Start(buffers, i), |buffers[i]|) && FineUpTo(io, i, n)
    ensures Start(buffers, i) + n < wanted ==>
              FineBefore(buffers, io, i + 1) && Concat(buffers[..i + 1]) == Concat(buffers[..i]) + buffers[i][..n]
    ensures Start(buffers, i) + n == wanted ==> Halts(buffers, wanted, io, Done)
  {
    hide Concat, FineUpTo, Halts;
    ConcatOneMore(buffers, i);
    if Start(buffers, i) + n == wanted {
      AllFine(buffers, wanted, io, i);
    } else {
      assert buffers[i][..n] == buffers[i];
    }
  }

  lemma EndsWell(buffers: seq<seq<Byte>>, wanted: nat, io: Io, n: nat)
    requires Halts(buffers, wanted, io, Done) && n == Least(wanted, |Concat(buffers)|)
    ensures FileAt(buffers, wanted, io, Done) == Concat(buffers)[..n]
  {
  }

  /** Everything asked for is in the buffers up to i, and those are fine. */
  lemma AllFine(buffers: seq<seq<Byte>>, wanted: nat, io: Io, i: nat)
    requires i < |buffers| && FineBefore(buffers, io, i) && io.handle(i)
    requires Start(buffers, i) <= wanted <= Start(buffers, i) + |buffers[i]|
    requires FineUpTo(io, i, wanted - Start(buffers, i))
    ensures Halts(buffers, wanted, io, Done)
  {
    hide Start;
    forall j | 0 <= j < |buffers| && Start(buffers, j) < wanted
      ensures io.handle(j) && FineUpTo(io, j, Least(|buffers[j]|, wanted - Start(buffers, j)))
    {
      if j < i {
        assert FineUpTo(io, j, |buffers[j]|);
      } else if j > i {
        StartGrows(buffers, i, j);
        assert false;
      }
    }
  }

  lemma AllWereFine(buffers: seq<seq<Byte>>, wanted: nat, io: Io)
    requires FineBefore(buffers, io, |buffers|)
    ensures Halts(buffers, wanted, io, Done)
  {
    hide Start;
    forall j | 0 <= j < |buffers| && Start(buffers, j) < wanted
      ensures io.handle(j) && FineUpTo(io, j, Least(|buffers[j]|, wanted - Start(buffers, j)))
    {
      assert FineUpTo(io, j, |buffers[j]|);
    }
  }

  function Wanted(buffers: seq<seq<Byte>>, circular: bool, captureEnd: nat): nat {
    if circular then |Concat(buffers)| else captureEnd
  }

  /** num_buffers * buffer_size, for buffers of one size. */
  function TotalSize(buffers: seq<seq<Byte>>): nat {
    if buffers == [] then 0 else TotalSize(buffers[..|buffers| - 1]) + |buffers[|buffers| - 1]|
  }

  lemma {:induction false} TotalIsLength(buffers: seq<seq<Byte>>)
    ensures TotalSize(buffers) == |Concat(buffers)|
    decreases |buffers|
  {
    if buffers != [] {
      TotalIsLength(buffers[..|buffers| - 1]);
    }
  }

  lemma {:induction false} TotalOfEqualBuffers(buffers: seq<seq<Byte>>, size: nat)
    requires forall i :: 0 <= i < |buffers| ==> |buffers[i]| == size
    ensures TotalSize(buffers) == |buffers| * size
    decreases |buffers|
  {
    if buffers != [] {
      TotalOfEqualBuffers(buffers[..|buffers| - 1], size);
    }
  }

  lemma NothingYet(buffers: seq<seq<Byte>>, io: Io)
    ensures Concat(buffers[..0]) == [] && FineBefore(buffers, io, 0)
    ensures Halts(buffers, 0, io, Done)
  {
  }

  /**
   * A dump that reports success, without the assertion, with less in the file than was
   * asked for: exactly if the first request to fail is that for a buffer's handle.
   */
  lemma ShortSuccessIff(buffers: seq<seq<Byte>>, wanted: nat, io: Io, h: Halt)
    requires Halts(buffers, wanted, io, h)
    ensures StatusAt(h) == NoError && !(h == Done && wanted > |Concat(buffers)|) &&
            |FileAt(buffers, wanted, io, h)| < wanted
            <==> exists i :: Halts(buffers, wanted, io, NoHandle(i))
  {
    hide Concat, FineBefore, FineUpTo;
    forall i | Halts(buffers, wanted, io, NoHandle(i))
      ensures h == NoHandle(i)
    {
      HaltsOnce(buffers, wanted, io, h, NoHandle(i));
    }
  }

  /** What the file holds for each way to end; a write that falls short leaves less than it was given. */
  lemma FileIs(buffers: seq<seq<Byte>>, wanted: nat, io: Io, h: Halt)
    requires Halts(buffers, wanted, io, h)
    ensures h == Done ==>
              FileAt(buffers, wanted, io, h) ==
              Concat(buffers)[..if wanted < |Concat(buffers)| then wanted else |Concat(buffers)|]
    ensures h.NoHandle? ==> FileAt(buffers, wanted, io, h) == Concat(buffers[..h.buffer])
    ensures h.BadRead? ==> FileAt(buffers, wanted, io, h) == Concat(buffers[..h.buffer]) + buffers[h.buffer][..h.offset]
    ensures h.BadWrite? ==> exists n :: ShortOf(buffers, wanted, h.buffer, h.offset, n, FileAt(buffers, wanted, io, h))
  {
    hide Concat, FineBefore, FineUpTo;
    if h.BadWrite? {
      var i, k := h.buffer, h.offset;
      var n := k + Part(io.write(i, k).value, |buffers[i]| - k, wanted - Start(buffers, i) - k);
      assert ShortOf(buffers, wanted, i, k, n, FileAt(buffers, wanted, io, h));
    }
  }

  /** The file ends n bytes into buffer i, within the chunk at k but short of what there was to write. */
  predicate ShortOf(buffers: seq<seq<Byte>>, wanted: nat, i: nat, k: nat, n: nat, file: seq<Byte>) {
    && i < |buffers| && k <= n < k + 4096 && n < |buffers[i]| && |Concat(buffers[..i])| + n < wanted
    && file == Concat(buffers[..i]) + buffers[i][..n]
  }

  predicate AllSucceed(io: Io, num: nat, size: nat) {
    && (forall i :: 0 <= i < num ==> io.handle(i))
    && (forall i, k :: 0 <= i < num && 0 <= k < size ==> io.read(i, k) && io.write(i, k) == None)
  }

  /** With every request granted and no more asked for than there is, exactly that is in the file. */
  method DumpAll(buffers: seq<seq<Byte>>, size: nat, circular: bool, captureEnd: nat, io: Io)
    returns (file: seq<Byte>, status: Status, asserted: bool)
    requires forall i :: 0 <= i < |buffers| ==> |buffers[i]| == size
    requires AllSucceed(io, |buffers|, size) && (!circular ==> captureEnd <= |buffers| * size)
    ensures |Concat(buffers)| == |buffers| * size
    ensures file == (if circular then Concat(buffers) else Concat(buffers)[..captureEnd]) && status == NoError && !asserted
  {
    hide Concat;
    TotalOfEqualBuffers(buffers, size);
    TotalIsLength(buffers);
    ghost var h;
    file, status, asserted, h := WriteBufferData(buffers, circular, captureEnd, io);
  }
}
