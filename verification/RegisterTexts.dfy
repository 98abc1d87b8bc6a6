/**
 * The register block as g and G packets spell it: the cached block in memory order,
 * as hex text (lib/inferior-control/registers-amd64.cc and registers.cc).
 */
module RegisterTexts {
  import opened Prelude
  import opened RegisterBlocks
  import T = Threads
  import Hex

  const BLOCK_SIZE: nat := NUM_REGISTERS * REGISTER_SIZE

  function BytesOf(words: seq<Word>): (b: seq<Byte>)
    ensures |b| == 8 * |words|
  {
    if words == [] then []
    else BytesOf(words[..|words| - 1]) + LittleEndian(words[|words| - 1], 8)
  }

  function WordsOf(b: seq<Byte>): (words: seq<Word>)
    requires |b| % 8 == 0
    ensures 8 * |words| == |b|
  {
    if b == [] then []
    else
      Power256Of8();
      WordsOf(b[..|b| - 8]) + [FromLittleEndian(b[|b| - 8..])]
  }

  lemma Power256Of8()
    ensures Power256(8) == TWO_64
  {
    assert Power256(2) == 0x1_0000;
    assert Power256(4) == 0x1_0000_0000;
    assert Power256(6) == 0x1_0000_0000_0000;
  }

  lemma {:induction false} WordsReadBack(words: seq<Word>)
    ensures WordsOf(BytesOf(words)) == words
    decreases |words|
  {
    hide LittleEndian, FromLittleEndian, Power256;
    if words != [] {
      var init, last := words[..|words| - 1], words[|words| - 1];
      WordsReadBack(init);
      Power256Of8();
      LittleEndianReadsBack(last, 8);
      var b := BytesOf(words);
      assert b[..|b| - 8] == BytesOf(init) && b[|b| - 8..] == LittleEndian(last, 8);
      assert words == init + [last];
    }
  }

  lemma {:induction false} BytesReadBack(b: seq<Byte>)
    requires |b| % 8 == 0
    ensures BytesOf(WordsOf(b)) == b
    decreases |b|
  {
    hide LittleEndian, FromLittleEndian, Power256;
    if b != [] {
      var init, last := b[..|b| - 8], b[|b| - 8..];
      BytesReadBack(init);
      FromLittleEndianReadsBack(last);
      var words := WordsOf(b);
      assert words[..|words| - 1] == WordsOf(init);
      assert b == init + last;
    }
  }

  /** GetGeneralRegistersAsString. */
  function BlockText(regs: Regs): (s: string)
    ensures |s| == 2 * BLOCK_SIZE
  {
    Hex.EncodeBytes(BytesOf(regs))
  }

  /** SetGeneralRegistersFromString: the text must spell a whole block. */
  function BlockOf(s: string): Option<Regs> {
    var bytes := Hex.DecodeBytes(s);
    if |bytes| != BLOCK_SIZE then None else Some(WordsOf(bytes))
  }

  /** GetUninitializedGeneralRegistersAsString. */
  function NoThreadText(): string {
    seq(2 * BLOCK_SIZE, _ => '0')
  }

  /** The text: sixteen digits for each of the 18 registers, the bytes of each from the least significant on. */
  lemma BlockTextIs(regs: Regs, i: nat)
    requires i < 18
    ensures |BlockText(regs)| == 288
    ensures BlockText(regs)[16 * i..16 * i + 16] == Hex.EncodeBytes(LittleEndian(regs[i], 8))
    ensures |NoThreadText()| == 288 && forall j :: 0 <= j < 288 ==> NoThreadText()[j] == '0'
  {
    hide LittleEndian;
    BytesOfIs(regs, i);
    var bytes := BytesOf(regs);
    EncodeWindow(bytes[..8 * i], bytes[8 * i..8 * i + 8], bytes[8 * i + 8..]);
    assert bytes == bytes[..8 * i] + bytes[8 * i..8 * i + 8] + bytes[8 * i + 8..];
  }

  lemma {:induction false} BytesOfIs(words: seq<Word>, i: nat)
    requires i < |words|
    ensures BytesOf(words)[8 * i..8 * i + 8] == LittleEndian(words[i], 8)
    decreases |words|
  {
    hide LittleEndian;
    var init := words[..|words| - 1];
    if i < |init| {
      BytesOfIs(init, i);
      assert BytesOf(words)[8 * i..8 * i + 8] == BytesOf(init)[8 * i..8 * i + 8];
    }
  }

  lemma {:induction false} EncodeOfBoth(a: seq<Byte>, b: seq<Byte>)
    ensures Hex.EncodeBytes(a + b) == Hex.EncodeBytes(a) + Hex.EncodeBytes(b)
    decreases |b|
  {
    hide Hex.EncodeByte;
    if b == [] {
      assert a + b == a;
    } else {
      EncodeOfBoth(a, b[..|b| - 1]);
      assert (a + b)[..|a + b| - 1] == a + b[..|b| - 1];
    }
  }

  lemma EncodeWindow(a: seq<Byte>, b: seq<Byte>, c: seq<Byte>)
    ensures Hex.EncodeBytes(a + b + c)[2 * |a|..2 * |a| + 2 * |b|] == Hex.EncodeBytes(b)
  {
    hide Hex.EncodeBytes;
    EncodeOfBoth(a + b, c);
    EncodeOfBoth(a, b);
  }

  /** Every block can be read back from its text. */
  lemma TextReadsBack(regs: Regs)
    ensures BlockOf(BlockText(regs)) == Some(regs)
  {
    hide Hex.EncodeBytes, Hex.DecodeBytes, BytesOf, WordsOf;
    Hex.DecodeOfEncode(BytesOf(regs));
    WordsReadBack(regs);
  }

  /** And a text that is accepted is shown again, in lower case. */
  lemma AcceptedTextIsShown(s: string)
    requires BlockOf(s).Some?
    ensures BlockText(BlockOf(s).value) == Hex.LowerDigits(s)
  {
    hide Hex.EncodeBytes, Hex.DecodePairs, Hex.LowerDigits, BytesOf, WordsOf;
    BytesReadBack(Hex.DecodeBytes(s));
    Hex.EncodeOfDecode(s);
  }

  /** No thread reads like a thread whose registers are all zero. */
  lemma NoThreadReadsAsZeros()
    ensures NoThreadText() == BlockText(ZEROS)
  {
    ZeroBytes(ZEROS);
    ZeroText(BytesOf(ZEROS));
  }

  lemma {:induction false} ZeroBytes(words: seq<Word>)
    requires forall i :: 0 <= i < |words| ==> words[i] == 0
    ensures forall i :: 0 <= i < |BytesOf(words)| ==> BytesOf(words)[i] == 0
    decreases |words|
  {
    if words != [] {
      ZeroBytes(words[..|words| - 1]);
      ZeroNumber(8);
    }
  }

  lemma {:induction false} ZeroNumber(n: nat)
    ensures forall i :: 0 <= i < n ==> LittleEndian(0, n)[i] == 0
  {
    if n > 0 {
      ZeroNumber(n - 1);
    }
  }

  lemma {:induction false} ZeroText(b: seq<Byte>)
    requires forall i :: 0 <= i < |b| ==> b[i] == 0
    ensures forall i :: 0 <= i < 2 * |b| ==> Hex.EncodeBytes(b)[i] == '0'
    decreases |b|
  {
    if b != [] {
      ZeroText(b[..|b| - 1]);
      assert Hex.EncodeByte(0) == "00";
    }
  }

  /** What g prints is right exactly if the cache is up to date. */
  lemma PrintsRightIff(s: T.Snapshot)
    ensures BlockText(s.cached) == BlockText(s.cpu) <==> T.UpToDate(s)
  {
    hide BlockText, BlockOf;
    TextReadsBack(s.cached);
    TextReadsBack(s.cpu);
  }

  /** So it is right after an event exactly under that event's condition. */
  lemma PrintsRightAfterIff(s: T.Snapshot, e: T.Event)
    requires T.Paired(s)
    ensures var s' := T.Apply(s, e);
            BlockText(s'.cached) == BlockText(s'.cpu) <==> T.UpToDateAfter(s, e)
  {
    hide BlockText, T.Apply, T.UpToDateAfter;
    PrintsRightIff(T.Apply(s, e));
    T.UpToDateIff(s, e);
  }

  /** A thread that has just been reported as started is stopped, and g prints zeros whatever its registers are. */
  lemma StartedThreadPrintsZeros(before: Regs, now: Regs, io: T.RegIo)
    ensures var s := T.Apply(T.Created(before), T.Raised(T.ThreadStarting, now, io));
            && s.state == T.Stopped && BlockText(s.cached) == NoThreadText()
            && (BlockText(s.cached) == BlockText(s.cpu) <==> now == ZEROS)
  {
    hide BlockText, NoThreadText;
    NoThreadReadsAsZeros();
    PrintsRightAfterIff(T.Created(before), T.Raised(T.ThreadStarting, now, io));
  }

  /** What a stop that is reported leaves: the cache is read again if that works. */
  function AfterStop(s: T.Snapshot, now: Regs, io: T.RegIo, read: bool): T.Snapshot {
    var s1 := T.OnException(s.(cpu := now), T.Architectural, io);
    if read then s1.(cached := s1.cpu) else s1
  }

  /** Then g is right if the registers could be read, and otherwise exactly as without the report. */
  lemma PrintsRightAfterStopIff(s: T.Snapshot, now: Regs, io: T.RegIo, read: bool)
    requires T.Paired(s) && s.state != T.Gone
    ensures var s' := AfterStop(s, now, io, read);
            BlockText(s'.cached) == BlockText(s'.cpu) <==>
            read || (if s.state == T.Stepping && io.read then io.write || !Trapping(now) else now == s.cached)
  {
    hide BlockText, Trapping;
    PrintsRightIff(AfterStop(s, now, io, read));
    T.UpToDateIff(s, T.Raised(T.Architectural, now, io));
  }
}
