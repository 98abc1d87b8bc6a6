/** The arguments and the replies of the commands that read and write data (bin/debugserver/cmd-handler.cc). */
module QueryTexts {
  import opened Prelude
  import Hex
  import ThreadIds
  import CommandText
  import PacketCodec
  import StopReply

  // Two numbers with a comma between them.

  function NonEmpty(parts: seq<string>): seq<string> {
    if parts == [] then []
    else NonEmpty(parts[..|parts| - 1]) + (if parts[|parts| - 1] == "" then [] else [parts[|parts| - 1]])
  }

  /** The parts between separators that are not empty. */
  function Tokens(s: string, sep: char): seq<string> {
    NonEmpty(Pieces(s, sep))
  }

  lemma {:induction false} NonEmptyFirst(part: string, rest: seq<string>)
    ensures NonEmpty([]) == [] && NonEmpty([part] + rest) == (if part == "" then [] else [part]) + NonEmpty(rest)
    decreases |rest|
  {
    var all := [part] + rest;
    if rest == [] {
      assert all[..0] == [];
    } else {
      NonEmptyFirst(part, rest[..|rest| - 1]);
      assert all[..|all| - 1] == [part] + rest[..|rest| - 1];
    }
  }

  /** Separators in front are skipped; a part ends at the next separator or with the text. */
  lemma TokensAre(part: string, s: string, sep: char)
    requires part != "" && sep !in part
    ensures Tokens("", sep) == [] && Tokens([sep] + s, sep) == Tokens(s, sep)
    ensures Tokens(part, sep) == [part] && Tokens(part + [sep] + s, sep) == [part] + Tokens(s, sep)
  {
    hide Pieces, NonEmpty;
    FirstPiece(part, sep);
    FindIs(part, sep, |part|);
    CutFirst("", sep, s);
    CutFirst(part, sep, s);
    NonEmptyFirst("", Pieces(s, sep));
    NonEmptyFirst(part, Pieces(s, sep));
    NonEmptyFirst(part, []);
    assert "" + [sep] + s == [sep] + s && [part] + [] == [part];
  }

  datatype Numbers = Malformed | NotNumbers | Numbers(first: nat, second: nat)

  /** Exactly two parts that are not empty, and both numbers. */
  function NumbersOf(s: string): (r: Numbers)
    ensures r.Numbers? ==> r.first < TWO_64 && r.second < TWO_64
  {
    var parts := Tokens(s, ',');
    if |parts| != 2 then Malformed
    else
      match (CommandText.ParseUint64(parts[0]), CommandText.ParseUint64(parts[1]))
      case (Some(a), Some(b)) => Numbers(a, b)
      case _ => NotNumbers
  }

  /** Two numbers: exactly if there are two parts and both are numbers. */
  lemma NumbersIff(s: string, a: nat, b: nat)
    ensures NumbersOf(s) == Numbers(a, b) <==>
            exists x, y ::
              Tokens(s, ',') == [x, y] && CommandText.ParseUint64(x) == Some(a) && CommandText.ParseUint64(y) == Some(b)
    ensures NumbersOf(s) == Malformed <==> |Tokens(s, ',')| != 2
  {
    hide Tokens, CommandText.ParseUint64;
    var parts := Tokens(s, ',');
    if |parts| == 2 {
      assert parts == [parts[0], parts[1]];
    }
  }

  /** What a debugger writes for two numbers is read back. */
  lemma NumbersReadBack(a: nat, b: nat)
    requires a < TWO_64 && b < TWO_64
    ensures NumbersOf(ThreadIds.NumberToHex(a) + "," + ThreadIds.NumberToHex(b)) == Numbers(a, b)
  {
    hide Pieces, Join, ThreadIds.NumberToHex, ThreadIds.HexNumber;
    var x, y := ThreadIds.NumberToHex(a), ThreadIds.NumberToHex(b);
    ThreadIds.HexOfNumber(a);
    ThreadIds.HexOfNumber(b);
    ThreadIds.HexHasNo(x, ',');
    ThreadIds.HexHasNo(y, ',');
    PiecesOfJoin([x, y], ',');
    assert Join([x, y], ',') == x + "," + y by { JoinTwo(x, y); }
    assert NonEmpty([x, y]) == [x, y] by { NonEmptyTwo(x, y); }
  }

  lemma JoinTwo(x: string, y: string)
    ensures Join([x, y], ',') == x + "," + y
  {
  }

  lemma NonEmptyTwo(x: string, y: string)
    requires x != "" && y != ""
    ensures NonEmpty([x, y]) == [x, y]
  {
    assert [x, y][..1] == [x] && [x][..0] == [];
    assert NonEmpty([x]) == NonEmpty([]) + [x];
  }

  /** The reply to m. */
  function MemoryText(address: nat, length: nat, memory: nat -> Byte): (s: string)
    ensures |s| == 2 * length
  {
    Hex.EncodeBytes(BytesFrom(address, length, memory))
  }

  function BytesFrom(address: nat, length: nat, memory: nat -> Byte): seq<Byte> {
    seq<Byte>(length, i requires 0 <= i < length => memory(address + i))
  }

  /** Byte i is the one at address + i, in two digits. */
  lemma MemoryTextIs(address: nat, length: nat, memory: nat -> Byte, i: nat)
    requires i < length
    ensures BytesFrom(address, length, memory)[i] == memory(address + i)
    ensures MemoryText(address, length, memory)[2 * i..2 * i + 2] ==
            ["0123456789abcdef"[memory(address + i) / 16], "0123456789abcdef"[memory(address + i) % 16]]
  {
    Hex.PairAt(BytesFrom(address, length, memory), i);
  }

  /** The data of an M packet, if there is exactly one colon, and what comes before it. */
  function CutAtColon(s: string): Option<(string, string)> {
    var k := Find(s, ':', 0);
    if k == |s| || Find(s, ':', k + 1) < |s| then None else Some((s[..k], s[k + 1..]))
  }

  /** Where an M packet writes, and what. */
  function WriteOf(s: string): Option<(nat, seq<Byte>)> {
    var cut := CutAtColon(s);
    if cut.None? then None
    else
      var numbers, bytes := NumbersOf(cut.value.0), Hex.DecodeBytes(cut.value.1);
      if numbers.Numbers? && |bytes| == numbers.second then Some((numbers.first, bytes)) else None
  }

  /** Every write a debugger can ask for is understood. */
  lemma WriteReadsBack(address: nat, bytes: seq<Byte>)
    requires address < TWO_64 && |bytes| < TWO_64
    ensures var where := ThreadIds.NumberToHex(address) + "," + ThreadIds.NumberToHex(|bytes|);
            WriteOf(where + ":" + Hex.EncodeBytes(bytes)) == Some((address, bytes))
  {
    hide NumbersOf, ThreadIds.NumberToHex, ThreadIds.HexNumber, Hex.EncodeBytes, Hex.DecodeBytes;
    NumbersReadBack(address, |bytes|);
    Hex.DecodeOfEncode(bytes);
    var x, y, z := ThreadIds.NumberToHex(address), ThreadIds.NumberToHex(|bytes|), Hex.EncodeBytes(bytes);
    ThreadIds.HexOfNumber(address);
    ThreadIds.HexOfNumber(|bytes|);
    ThreadIds.HexHasNo(x, ':');
    ThreadIds.HexHasNo(y, ':');
    ThreadIds.HexHasNo(z, ':');
    CutsAtColon(x + "," + y, z);
  }

  /** A write: two numbers, one colon, and as many bytes as the second number says. */
  lemma WriteIff(s: string, address: nat, bytes: seq<Byte>)
    ensures WriteOf(s) == Some((address, bytes)) <==>
            exists front, back ::
              && s == front + ":" + back && ':' !in front && ':' !in back
              && NumbersOf(front) == Numbers(address, |bytes|) && Hex.DecodeBytes(back) == bytes
  {
    hide NumbersOf, Hex.DecodeBytes;
    var cut := CutAtColon(s);
    if cut.Some? {
      var (front, back) := cut.value;
      assert s == front + ":" + back;
      var k := |front|;
      assert forall i :: 0 <= i < |back| ==> back[i] == s[k + 1 + i];
    }
    forall front, back | s == front + ":" + back && ':' !in front && ':' !in back
      ensures cut == Some((front, back))
    {
      CutsAtColon(front, back);
    }
  }

  lemma CutsAtColon(front: string, back: string)
    requires ':' !in front && ':' !in back
    ensures CutAtColon(front + ":" + back) == Some((front, back))
  {
    var s := front + ":" + back;
    assert forall i :: 0 <= i < |front| ==> s[i] == front[i];
    assert forall i :: |front| < i < |s| ==> s[i] == back[i - |front| - 1];
    FindIs(s, ':', |front|);
    assert s[..|front|] == front && s[|front| + 1..] == back;
  }

  // The auxiliary vector.

  const AUXV_ENTRY: nat := 16
  const AUXV_SIZE: nat := 160

  /** How many bytes of it there are: base and end, and four more once the executable is known. */
  function AuxvEnd(exec: bool): nat {
    if exec then 6 * AUXV_ENTRY else 2 * AUXV_ENTRY
  }

  /** How many bytes a reply has behind its 'l'; the difference is a size_t. */
  function AuxvLength(exec: bool, offset: nat, length: nat): nat {
    var left := (AuxvEnd(exec) - offset) % TWO_64;
    if left < length then left else length
  }

  /** Two or six entries of 16 bytes; what is left of them behind an offset, which wraps around beyond the end. */
  lemma AuxvIs(exec: bool, offset: nat, length: nat)
    requires offset <= 160 && length < TWO_64
    ensures AuxvEnd(exec) == if exec then 96 else 32
    ensures offset <= AuxvEnd(exec) ==>
              AuxvLength(exec, offset, length) == if AuxvEnd(exec) - offset < length then AuxvEnd(exec) - offset else length
    ensures offset > AuxvEnd(exec) && length <= TWO_64 - 160 ==> AuxvLength(exec, offset, length) == length
  {
    var left := AuxvEnd(exec) - offset;
    if left < 0 {
      assert left % TWO_64 == left + TWO_64 by { assert 0 <= left + TWO_64 < TWO_64; }
    }
  }

  predicate AuxvTooLong(args: string, exec: bool) {
    var numbers := NumbersOf(args);
    numbers.Numbers? && AuxvEnd(exec) < numbers.first <= AUXV_SIZE && numbers.second >= 4091
  }

  /** The reply fits unless an offset behind the end is asked for with a large length. */
  lemma AuxvFitsIff(exec: bool, offset: nat, length: nat)
    requires offset <= AUXV_SIZE && length < TWO_64
    ensures 1 + AuxvLength(exec, offset, length) + 4 < PacketCodec.MAX_BUFFER_SIZE <==>
            offset <= AuxvEnd(exec) || length < 4091
  {
    var left := AuxvEnd(exec) - offset;
    if left < 0 {
      assert left % TWO_64 == left + TWO_64 by { assert 0 <= left + TWO_64 < TWO_64; }
    }
  }

  // Monitor commands.

  predicate IsSpace(c: char) {
    c == ' ' || c == '\t' || c == '\r' || c == '\n'
  }

  function TrimLeft(s: string): string {
    if s != "" && IsSpace(s[0]) then TrimLeft(s[1..]) else s
  }

  function TrimRight(s: string): string {
    if s != "" && IsSpace(s[|s| - 1]) then TrimRight(s[..|s| - 1]) else s
  }

  function TrimAll(parts: seq<string>): seq<string> {
    seq(|parts|, i requires 0 <= i < |parts| => TrimRight(TrimLeft(parts[i])))
  }

  function Words(s: string): seq<string> {
    NonEmpty(TrimAll(Pieces(s, ' ')))
  }

  /** Trimming takes white space off both ends, and nothing else. */
  lemma TrimIs(before: string, s: string, after: string)
    requires forall i :: 0 <= i < |before| ==> before[i] in " \t\r\n"
    requires forall i :: 0 <= i < |after| ==> after[i] in " \t\r\n"
    requires s != "" && s[0] !in " \t\r\n" && s[|s| - 1] !in " \t\r\n"
    ensures TrimRight(TrimLeft(before + s + after)) == s
    ensures TrimRight(TrimLeft(before)) == ""
  {
    hide IsSpace, TrimLeft, TrimRight;
    LeftIs(before, s + after);
    LeftIs(before, "");
    RightIs(s, after);
    assert before + s + after == before + (s + after) && before + "" == before;
    assert TrimRight("") == "" by { NothingToTrim(); }
  }

  lemma NothingToTrim()
    ensures TrimRight("") == ""
  {
  }

  lemma SpaceIs(c: char)
    ensures IsSpace(c) <==> c in " \t\r\n"
  {
  }

  lemma {:induction false} LeftIs(before: string, s: string)
    requires forall i :: 0 <= i < |before| ==> before[i] in " \t\r\n"
    requires s == "" || s[0] !in " \t\r\n"
    ensures TrimLeft(before + s) == s
    decreases |before|
  {
    hide IsSpace;
    if before == "" {
      assert before + s == s;
      if s != "" {
        SpaceIs(s[0]);
      }
    } else {
      SpaceIs(before[0]);
      LeftIs(before[1..], s);
      assert (before + s)[1..] == before[1..] + s;
    }
  }

  lemma {:induction false} RightIs(s: string, after: string)
    requires forall i :: 0 <= i < |after| ==> after[i] in " \t\r\n"
    requires s != "" && s[|s| - 1] !in " \t\r\n"
    ensures TrimRight(s + after) == s
    decreases |after|
  {
    hide IsSpace;
    var all := s + after;
    SpaceIs(all[|all| - 1]);
    if after == "" {
      assert all == s;
    } else {
      RightIs(s, after[..|after| - 1]);
      assert all[..|all| - 1] == s + after[..|after| - 1];
    }
  }

  /** EncodeString. */
  function TextHex(s: string): (h: string)
    ensures |h| == 2 * |s|
  {
    Hex.EncodeBytes(seq(|s|, i requires 0 <= i < |s| => s[i] as int % 256))
  }

  function IntText(v: int): string {
    if v < 0 then "-" + Decimal(-v) else Decimal(v)
  }

  const HELP_COMMANDS := "help - print this help text\nexit - quit debugserver\nquit - quit debugserver\n"
  const HELP_PARAMETERS := "set <parameter> <value>\nshow <parameter>\n\nParameters:\n"
  const HELP_VERBOSITY := "  verbosity - useful range is -2 to 3 (-2 is most verbose)\n"

  const BAD_COMMAND := "Invalid command\n"

  /** The reply to a monitor command; `accepted` says whether a level is one that can be set, `level` is what it is. */
  function MonitorReply(words: seq<string>, accepted: bool, level: int): string {
    if words == [] then "OK"
    else if words[0] == "quit" || words[0] == "exit" then
      if |words| == 1 then "OK" else TextHex(BAD_COMMAND)
    else if words[0] == "help" then
      if |words| == 1 then TextHex(HELP_COMMANDS + HELP_PARAMETERS + HELP_VERBOSITY) else TextHex(BAD_COMMAND)
    else if words[0] == "set" then
      if |words| == 3 && words[1] == "verbosity" && accepted then "OK" else TextHex(BAD_COMMAND)
    else if words[0] == "show" then
      if |words| == 2 && words[1] == "verbosity" then TextHex("Value is " + IntText(level) + "\n")
      else TextHex(BAD_COMMAND)
    else TextHex("Invalid monitor command\n")
  }

  /** The replies, command by command. */
  lemma MonitorReplies(accepted: bool, level: int, value: string, other: string)
    requires other !in ["quit", "exit", "help", "set", "show"]
    ensures MonitorReply([], accepted, level) == MonitorReply(["quit"], accepted, level) == "OK"
    ensures MonitorReply(["exit"], accepted, level) == "OK"
    ensures MonitorReply(["help"], accepted, level) ==
            TextHex("help - print this help text\nexit - quit debugserver\nquit - quit debugserver\n" +
                    "set <parameter> <value>\nshow <parameter>\n\nParameters:\n" +
                    "  verbosity - useful range is -2 to 3 (-2 is most verbose)\n")
    ensures MonitorReply(["set", "verbosity", value], accepted, level) ==
            if accepted then "OK" else TextHex("Invalid command\n")
    ensures MonitorReply(["show", "verbosity"], accepted, level) == TextHex("Value is " + IntText(level) + "\n")
    ensures MonitorReply([other], accepted, level) == TextHex("Invalid monitor command\n")
  {
    hide TextHex, IntText;
  }

  /** A monitor command with too many or too few words, or for another parameter, is refused. */
  lemma MonitorRefuses(words: seq<string>, accepted: bool, level: int)
    requires words != []
    requires || (words[0] in ["quit", "exit", "help"] && |words| != 1)
             || (words[0] == "set" && !(|words| == 3 && words[1] == "verbosity"))
             || (words[0] == "show" && !(|words| == 2 && words[1] == "verbosity"))
    ensures MonitorReply(words, accepted, level) == TextHex("Invalid command\n")
  {
    hide TextHex, IntText;
  }

  /** Whatever the command, the reply is short. */
  lemma MonitorReplyIsShort(words: seq<string>, accepted: bool, level: int)
    requires -TWO_31 <= level < TWO_31
    ensures |MonitorReply(words, accepted, level)| <= 500
  {
    hide TextHex, Decimal;
    DecimalOf32(if level < 0 then -level else level);
    assert |HELP_COMMANDS| < 90 && |HELP_PARAMETERS| < 70 && |HELP_VERBOSITY| < 70;
  }

  // Thread lists.

  /** The digits of all the ids. */
  ghost function SumDigits(ids: set<nat>): nat {
    if ids == {} then 0
    else
      var k :| k in ids;
      |ThreadIds.NumberToHex(k)| + SumDigits(ids - {k})
  }

  lemma {:induction false} SumDigitsOf(ids: set<nat>, k: nat)
    requires k in ids
    ensures SumDigits(ids) == |ThreadIds.NumberToHex(k)| + SumDigits(ids - {k})
    decreases |ids|
  {
    hide ThreadIds.NumberToHex;
    var j :| j in ids && SumDigits(ids) == |ThreadIds.NumberToHex(j)| + SumDigits(ids - {j});
    if j != k {
      SumDigitsOf(ids - {j}, k);
      SumDigitsOf(ids - {k}, j);
      assert (ids - {j}) - {k} == (ids - {k}) - {j};
    }
  }

  ghost function Elements(ids: seq<nat>): set<nat> {
    set k | k in ids
  }

  /** In whatever order the ids are listed, the lengths add up to the same. */
  lemma {:induction false} LengthsAreSumDigits(ids: seq<nat>)
    requires forall i, j :: 0 <= i < j < |ids| ==> ids[i] != ids[j]
    ensures CommandText.Lengths(CommandText.IdTexts(ids)) == SumDigits(Elements(ids)) && |Elements(ids)| == |ids|
    decreases |ids|
  {
    hide ThreadIds.NumberToHex, SumDigits, Elements, CommandText.Lengths, CommandText.IdTexts;
    if ids == [] {
      NoDigits();
      NoIds();
    } else {
      var init, last := ids[..|ids| - 1], ids[|ids| - 1];
      LengthsAreSumDigits(init);
      OneMoreId(init, last);
      assert ids == init + [last];
      SumDigitsOf(Elements(ids), last);
      IdTextsOneMore(init, last);
    }
  }

  lemma OneMoreId(init: seq<nat>, last: nat)
    requires last !in init
    ensures last in Elements(init + [last]) && Elements(init + [last]) - {last} == Elements(init)
    ensures |Elements(init + [last])| == |Elements(init)| + 1
  {
    assert Elements(init + [last]) == Elements(init) + {last};
  }

  lemma IdTextsOneMore(init: seq<nat>, last: nat)
    ensures CommandText.Lengths(CommandText.IdTexts(init + [last])) ==
            CommandText.Lengths(CommandText.IdTexts(init)) + |ThreadIds.NumberToHex(last)|
  {
    hide ThreadIds.NumberToHex;
    var texts := CommandText.IdTexts(init + [last]);
    assert texts[..|init|] == CommandText.IdTexts(init);
  }

  lemma NoIds()
    ensures Elements([]) == {} && CommandText.Lengths(CommandText.IdTexts([])) == 0
  {
  }

  lemma NoDigits()
    ensures SumDigits({}) == 0
  {
  }

  /** The reply to a first thread query does not fit: as many characters as digits and ids. */
  ghost predicate ListTooLong(ids: set<nat>) {
    ids != {} && SumDigits(ids) + |ids| >= 4092
  }

  lemma ListFitsIff(ids: seq<nat>)
    requires forall i, j :: 0 <= i < j < |ids| ==> ids[i] != ids[j]
    ensures var text := if ids == [] then "l" else "m" + Join(CommandText.IdTexts(ids), ',');
            PacketCodec.Fits(text) <==> !ListTooLong(Elements(ids))
  {
    hide Join, SumDigits, CommandText.Lengths;
    if ids != [] {
      assert ids[0] in Elements(ids);
      LengthsAreSumDigits(ids);
      CommandText.JoinLength(CommandText.IdTexts(ids), ',');
    }
  }

  /** Up to 240 threads always fit, 2046 never do. */
  lemma {:induction false} ThreadCountBounds(ids: set<nat>)
    requires forall k :: k in ids ==> k < TWO_64
    ensures |ids| <= 240 ==> !ListTooLong(ids)
    ensures |ids| >= 2046 ==> ListTooLong(ids)
  {
    hide SumDigits;
    DigitBounds(ids);
    if ids == {} {
      assert |ids| == 0;
    }
  }

  lemma {:induction false} DigitBounds(ids: set<nat>)
    requires forall k :: k in ids ==> k < TWO_64
    ensures |ids| <= SumDigits(ids) <= 16 * |ids|
    decreases |ids|
  {
    hide ThreadIds.NumberToHex, SumDigits;
    if ids == {} {
      NoDigits();
    } else {
      var k :| k in ids;
      StopReply.KoidLength(k);
      ThreadIds.HexOfNumber(k);
      SumDigitsOf(ids, k);
      DigitBounds(ids - {k});
      assert |ids - {k}| == |ids| - 1;
    }
  }
}
