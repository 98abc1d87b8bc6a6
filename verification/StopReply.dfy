/** Stop replies (bin/debugserver/stop-reply-packet.cc). */
module StopReply {
  import opened Prelude
  import Hex
  import ThreadIds
  import PacketCodec

  datatype Kind = ReceivedSignal | ProcessTerminatedWithSignal | ProcessExited | ThreadExited

  /** What the setters have recorded: an empty string or list means "not set". */
  datatype Reply = Reply(kind: Kind, signo: Byte, tid: string, registers: seq<string>, reason: string)

  /** What Build demands of the packet it is called on. */
  predicate Buildable(r: Reply) {
    && (r.kind == ReceivedSignal ==> r.signo != 0)
    && (r.tid != "" ==> r.kind == ReceivedSignal || r.kind == ThreadExited)
  }

  /** The parameters of a reply to a received signal, one text each. */
  function Parameters(r: Reply): seq<string> {
    r.registers + (if r.tid == "" then [] else ["thread:" + r.tid]) + (if r.reason == "" then [] else [r.reason])
  }

  function TypeChar(r: Reply): char {
    match r.kind
    case ReceivedSignal => if Parameters(r) == [] then 'S' else 'T'
    case ProcessTerminatedWithSignal => 'X'
    case ProcessExited => 'W'
    case ThreadExited => 'w'
  }

  /** The number sent: a stop reason always goes out as signal 5. */
  function SentSignal(r: Reply): Byte {
    if r.reason == "" then r.signo else 5
  }

  function Body(r: Reply): string {
    if r.kind == ThreadExited && r.tid != "" then
      Hex.Closed(r.registers, ';') + ";" + r.tid + (if r.reason == "" then "" else r.reason + ";")
    else
      Hex.Closed(Parameters(r), ';')
  }

  /** The packet text, for every packet that can be built. */
  function Text(r: Reply): string {
    [TypeChar(r)] + Hex.EncodeByte(SentSignal(r)) + Body(r)
  }

  /** The letter says what happened; a signal without parameters has one of its own, and one with a reason is 5. */
  lemma TypesAre(r: Reply)
    ensures r.kind == ProcessTerminatedWithSignal ==> Text(r)[0] == 'X'
    ensures r.kind == ProcessExited ==> Text(r)[0] == 'W'
    ensures r.kind == ThreadExited ==> Text(r)[0] == 'w'
    ensures r.kind == ReceivedSignal ==>
              Text(r)[0] == if r.registers == [] && r.tid == "" && r.reason == "" then 'S' else 'T'
    ensures Text(r)[1..3] == Hex.EncodeByte(if r.reason == "" then r.signo else 5)
  {
    hide Hex.EncodeByte, Body;
  }

  class StopReplyPacket {
    const kind: Kind
    var signo: Byte
    var tidString: string
    var registerValues: seq<string>
    var stopReason: string

    ghost function Value(): Reply
      reads this
    {
      Reply(kind, signo, tidString, registerValues, stopReason)
    }

    constructor (kind: Kind)
      ensures Value() == Reply(kind, 0, "", [], "")
    {
      this.kind := kind;
      signo, tidString, registerValues, stopReason := 0, "", [], "";
    }

    method SetSignalNumber(number: Byte)
      modifies this
      ensures Value() == old(Value()).(signo := number)
    {
      signo := number;
    }

    method SetThreadId(pid: nat, tid: nat)
      requires kind == ReceivedSignal || kind == ThreadExited
      modifies this
      ensures Value() == old(Value()).(tid := ThreadIds.EncodeThreadId(pid, tid))
    {
      tidString := ThreadIds.EncodeThreadId(pid, tid);
    }

    method AddRegisterValue(number: Byte, value: string)
      requires kind == ReceivedSignal && value != ""
      modifies this
      ensures Value() == old(Value()).(registers := old(registerValues) + [Hex.EncodeByte(number) + ":" + value])
    {
      var text := new char[3 + |value|];
      var digits := Hex.EncodeByte(number);
      text[0], text[1] := digits[0], digits[1];
      text[2] := ':';
      Hex.CopyTo(text, 3, value);
      assert text[..] == digits + ":" + value;
      registerValues := registerValues + [text[..]];
    }

    method SetStopReason(reason: string)
      requires kind == ReceivedSignal
      modifies this
      ensures Value() == old(Value()).(reason := reason + ":")
    {
      stopReason := reason + ":";
    }

    method HasParameters() returns (has: bool)
      requires kind == ReceivedSignal
      ensures has <==> Parameters(Value()) != []
    {
      has := tidString != "" || registerValues != [] || stopReason != "";
    }

    method Build() returns (packet: string)
      requires Buildable(Value())
      ensures packet == Text(Value())
    {
      var typeChar: char;
      match kind {
        case ReceivedSignal =>
          var has := HasParameters();
          typeChar := if has then 'T' else 'S';
        case ProcessTerminatedWithSignal => typeChar := 'X';
        case ProcessExited => typeChar := 'W';
        case ThreadExited => typeChar := 'w';
      }
      var number := Hex.EncodeByte(if stopReason == "" then signo else 5);
      var body := BuildBody();
      packet := [typeChar] + number + body;
    }

    /** Everything after the type and the signal number. */
    method BuildBody() returns (body: string)
      requires Buildable(Value())
      ensures body == Body(Value())
    {
      hide Hex.Closed;
      body := "";
      NothingClosed();
      assert registerValues[..0] == [];
      for i := 0 to |registerValues|
        invariant body == Hex.Closed(registerValues[..i], ';')
      {
        ClosedOneMore(registerValues[..i], registerValues[i]);
        assert registerValues[..i] + [registerValues[i]] == registerValues[..i + 1];
        body := body + registerValues[i];
        body := body + ";";
      }
      assert registerValues[..|registerValues|] == registerValues;
      ghost var sofar := registerValues;
      if tidString != "" {
        if kind == ThreadExited {
          body := body + ";" + tidString;
        } else {
          ClosedOneMore(sofar, "thread:" + tidString);
          sofar := sofar + ["thread:" + tidString];
          body := body + ("thread:" + tidString);
          body := body + ";";
        }
      }
      if stopReason != "" {
        ClosedOneMore(sofar, stopReason);
        sofar := sofar + [stopReason];
        body := body + stopReason;
        body := body + ";";
      }
      if kind == ThreadExited && tidString != "" {
        assert body == Hex.Closed(registerValues, ';') + ";" + tidString +
                       (if stopReason == "" then "" else stopReason + ";");
      } else {
        assert sofar == Parameters(Value());
      }
    }
  }

  lemma NothingClosed()
    ensures Hex.Closed([], ';') == ""
  {
  }

  lemma ClosedOneMore(parts: seq<string>, part: string)
    ensures Hex.Closed(parts + [part], ';') == Hex.Closed(parts, ';') + part + ";"
  {
    assert (parts + [part])[..|parts|] == parts;
  }

  /** None of the characters with a meaning to the framing. */
  predicate Plain(s: string) {
    '#' !in s && '$' !in s && '}' !in s
  }

  /** A register as AddRegisterValue writes it when it is handed hex text. */
  predicate RegisterText(s: string) {
    |s| > 3 && s[2] == ':' && Hex.IsHex(s[..2]) && Hex.IsHex(s[3..])
  }

  /**
   * The replies the server sends: hex register values, thread ids it encoded
   * itself, and for a reason a word followed by ':'.
   */
  ghost predicate Sent(r: Reply) {
    && Buildable(r)
    && (forall i :: 0 <= i < |r.registers| ==> RegisterText(r.registers[i]))
    && (r.tid == "" || exists p, t :: r.tid == ThreadIds.EncodeThreadId(p, t))
    && Plain(r.reason) && ';' !in r.reason
    && (r.reason != "" ==> r.kind == ReceivedSignal)
    && (r.registers != [] ==> r.kind == ReceivedSignal)
  }

  lemma RegisterHasNo(s: string, c: char)
    requires RegisterText(s) && Hex.DigitValue(c).None? && c != ':'
    ensures c !in s
  {
    var a, b := s[..2], s[3..];
    assert forall i :: 0 <= i < 2 ==> s[i] == a[i];
    assert forall i :: 3 <= i < |s| ==> s[i] == b[i - 3];
  }

  lemma ThreadTextHasNo(p: nat, t: nat, c: char)
    requires Hex.DigitValue(c).None? && c !in "thread:p."
    ensures c !in "thread:" + ThreadIds.EncodeThreadId(p, t)
  {
    ThreadIds.HexOfNumber(p);
    ThreadIds.HexOfNumber(t);
    ThreadIds.HexHasNo(ThreadIds.NumberToHex(p), c);
    ThreadIds.HexHasNo(ThreadIds.NumberToHex(t), c);
    assert "thread:p."[7] == 'p' && "thread:p."[8] == '.';
    assert forall i :: 0 <= i < 7 ==> "thread:"[i] == "thread:p."[i];
  }

  lemma ParametersHaveNo(r: Reply, c: char)
    requires Sent(r) && Hex.DigitValue(c).None? && c !in "thread:p." && c !in r.reason
    ensures forall i :: 0 <= i < |Parameters(r)| ==> c !in Parameters(r)[i]
    ensures c !in r.tid
  {
    assert "thread:p."[6] == ':';
    forall i | 0 <= i < |r.registers|
      ensures c !in r.registers[i]
    {
      RegisterHasNo(r.registers[i], c);
    }
    if r.tid != "" {
      var p, t :| r.tid == ThreadIds.EncodeThreadId(p, t);
      ThreadTextHasNo(p, t, c);
      assert forall i :: 0 <= i < |r.tid| ==> r.tid[i] == ("thread:" + r.tid)[7 + i];
    }
  }

  lemma {:induction false} ClosedHasNo(parts: seq<string>, sep: char, c: char)
    requires c != sep && forall i :: 0 <= i < |parts| ==> c !in parts[i]
    ensures c !in Hex.Closed(parts, sep)
    decreases |parts|
  {
    if parts != [] {
      ClosedHasNo(parts[..|parts| - 1], sep, c);
    }
  }

  lemma TextHasNo(r: Reply, c: char)
    requires Sent(r) && (c == '#' || c == '$' || c == '}')
    ensures c !in Text(r)
  {
    hide Hex.EncodeByte, Hex.Closed, Parameters;
    assert c !in [TypeChar(r)];
    assert c !in Hex.EncodeByte(SentSignal(r)) by {
      ThreadIds.HexHasNo(Hex.EncodeByte(SentSignal(r)), c);
    }
    assert c !in Body(r) by {
      BodyHasNo(r, c);
    }
  }

  lemma BodyHasNo(r: Reply, c: char)
    requires Sent(r) && (c == '#' || c == '$' || c == '}')
    ensures c !in Body(r)
  {
    hide Parameters;
    ParametersHaveNo(r, c);
    if r.kind == ThreadExited && r.tid != "" {
      assert r.registers == [] && r.reason == "";
    } else {
      ClosedHasNo(Parameters(r), ';', c);
    }
  }

  /** Every stop reply the server sends goes through a frame unharmed. */
  lemma StopReplyIsCarried(r: Reply)
    requires Sent(r)
    ensures Plain(Text(r))
    ensures PacketCodec.Verify(PacketCodec.Frame(false, Text(r))) == Some(Text(r))
  {
    TextHasNo(r, '#');
    TextHasNo(r, '$');
    TextHasNo(r, '}');
    PacketCodec.PlainIsCarriable(Text(r));
    PacketCodec.VerifyOfFrame(Text(r));
  }

  lemma {:induction false} PiecesOfClosed(parts: seq<string>, sep: char)
    requires NoneContains(parts, sep)
    ensures Pieces(Hex.Closed(parts, sep), sep) == parts
  {
    hide Pieces;
    var all := parts + [""];
    Hex.JoinFrom(all, sep, |parts|);
    assert all[..|parts|] == parts && all[|parts|..] == [""];
    assert Join([""], sep) == "";
    assert Join(all, sep) == Hex.Closed(parts, sep);
    PiecesOfJoin(all, sep);
  }

  /** A debugger that cuts the reply at ';' finds every parameter, in order, and the signal sent. */
  lemma SignalReplyReadsBack(r: Reply)
    requires Sent(r) && r.kind == ReceivedSignal
    ensures |Text(r)| >= 3
    ensures Hex.DecodeByte(Text(r)[1], Text(r)[2]) == Some(SentSignal(r))
    ensures Pieces(Text(r)[3..], ';') == Parameters(r)
    ensures Text(r)[0] == 'T' <==> Parameters(r) != []
  {
    hide Pieces;
    var head := [TypeChar(r)] + Hex.EncodeByte(SentSignal(r));
    assert Text(r)[3..] == Hex.Closed(Parameters(r), ';');
    ParametersHaveNo(r, ';');
    PiecesOfClosed(Parameters(r), ';');
  }

  lemma {:induction false} HexLength(n: nat, digits: nat)
    requires digits > 0 && n < Power16(digits)
    ensures |ThreadIds.NumberToHex(n)| <= digits
    decreases digits
  {
    if n >= 16 {
      assert digits > 1 && n / 16 < Power16(digits - 1);
      HexLength(n / 16, digits - 1);
    }
  }

  function Power16(n: nat): nat {
    if n == 0 then 1 else 16 * Power16(n - 1)
  }

  lemma KoidLength(n: nat)
    requires n < TWO_64
    ensures |ThreadIds.NumberToHex(n)| <= 16
  {
    assert Power16(4) == 0x1_0000;
    assert Power16(8) == 0x1_0000_0000;
    assert Power16(12) == 0x1_0000_0000_0000;
    assert Power16(16) == TWO_64;
    HexLength(n, 16);
  }

  /** A reply of the kind the server sends: up to three registers of 16 digits and 64-bit ids. */
  ghost predicate Small(r: Reply) {
    && |r.registers| <= 3 && (forall i :: 0 <= i < |r.registers| ==> |r.registers[i]| == 19)
    && |r.reason| <= 8
    && (r.tid == "" || exists p: nat, t: nat :: p < TWO_64 && t < TWO_64 && r.tid == ThreadIds.EncodeThreadId(p, t))
  }

  lemma {:induction false} ClosedShort(parts: seq<string>, bound: nat)
    requires forall i :: 0 <= i < |parts| ==> |parts[i]| <= bound
    ensures |Hex.Closed(parts, ';')| <= |parts| * (bound + 1)
    decreases |parts|
  {
    if parts != [] {
      ClosedShort(parts[..|parts| - 1], bound);
    }
  }

  lemma TidLength(r: Reply)
    requires Small(r)
    ensures |r.tid| <= 34
  {
    if r.tid != "" {
      var p: nat, t: nat :| p < TWO_64 && t < TWO_64 && r.tid == ThreadIds.EncodeThreadId(p, t);
      KoidLength(p);
      KoidLength(t);
    }
  }

  /** Such a reply is far from filling the out buffer. */
  lemma SmallReplyFits(r: Reply)
    requires Small(r)
    ensures |Text(r)| <= 300
  {
    hide Hex.Closed, Hex.EncodeByte, TypeChar;
    TidLength(r);
    ClosedShort(r.registers, 41);
    var all := Parameters(r);
    assert |all| <= 5;
    forall i | 0 <= i < |all|
      ensures |all[i]| <= 41
    {
      assert i < |r.registers| ==> all[i] == r.registers[i];
    }
    ClosedShort(all, 41);
  }
}
