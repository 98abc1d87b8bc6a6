/** The stop replies the server sends for what the inferior reports (bin/debugserver/server.cc). */
module StopTexts {
  import opened Prelude
  import Hex
  import ThreadIds
  import PacketCodec
  import StopReply
  import N = Notifications
  import R = RegisterBlocks
  import P = Processes

  const RBP: Byte := 6
  const RSP: Byte := 7

  /** What an exception packet and the process tell besides the kind of the exception. */
  datatype Details = Details(signal: Option<Byte>, exitCode: int, readable: bool)

  function RegisterText(regno: Byte, w: R.Word): string {
    Hex.EncodeByte(regno) + ":" + Hex.EncodeBytes(LittleEndian(w, R.REGISTER_SIZE))
  }

  /** Reports the peer hears of. */
  predicate IsNews(report: P.Report) {
    !report.Ignored? && !report.CheckFailed?
  }

  function Created(pid: nat, tid: nat): StopReply.Reply {
    StopReply.Reply(StopReply.ReceivedSignal, 5, ThreadIds.EncodeThreadId(pid, tid), [], "create:")
  }

  /** The stop reply that goes with each of them. */
  function ReplyFor(report: P.Report, pid: nat, details: Details, shown: Option<R.Regs>): StopReply.Reply
    requires IsNews(report)
  {
    match report
    case ExitedThread(tid) =>
      StopReply.Reply(StopReply.ThreadExited, 0, ThreadIds.EncodeThreadId(pid, tid), [], "")
    case ExitedProcess =>
      StopReply.Reply(StopReply.ProcessExited, details.exitCode % 256, "", [], "")
    case StoppedThread(tid) =>
      var registers :=
        if shown.None? then []
        else [RegisterText(RBP, shown.value[RBP]), RegisterText(RSP, shown.value[RSP]),
              RegisterText(R.RIP, shown.value[R.RIP])];
      StopReply.Reply(StopReply.ReceivedSignal, if details.signal.Some? then details.signal.value else 0,
                      ThreadIds.EncodeThreadId(pid, tid), registers, "")
    case FirstThread(tid) => Created(pid, tid)
    case StartedThread(tid) => Created(pid, tid)
  }

  /** The first thread of a run is the reply to vRun; everything else is a notification. */
  function Telling(report: P.Report, text: string, address: nat): N.Step {
    if report.FirstThread? then N.ThreadStarted(text) else N.Event(text, address)
  }

  function Told(report: P.Report, pid: nat, details: Details, shown: Option<R.Regs>, address: nat): N.Step
    requires IsNews(report)
  {
    Telling(report, StopReply.Text(ReplyFor(report, pid, details, shown)), address)
  }

  // The texts, written out.

  /** The sixteen digits of a register value. */
  function ValueText(w: R.Word): string {
    Hex.EncodeBytes(LittleEndian(w, 8))
  }

  lemma ByteTexts()
    ensures Hex.EncodeByte(0) == "00" && Hex.EncodeByte(5) == "05"
    ensures Hex.EncodeByte(6) == "06" && Hex.EncodeByte(7) == "07"
    ensures Hex.EncodeByte(16) == "10"
  {
  }

  lemma ClosedText(a: string, b: string, c: string, d: string)
    ensures Hex.Closed([], ';') == "" && Hex.Closed([d], ';') == d + ";"
    ensures Hex.Closed([a, b], ';') == a + ";" + b + ";"
    ensures Hex.Closed([a, b, c, d], ';') == a + ";" + b + ";" + c + ";" + d + ";"
  {
    StopReply.NothingClosed();
    StopReply.ClosedOneMore([], d);
    StopReply.ClosedOneMore([], a);
    StopReply.ClosedOneMore([a], b);
    StopReply.ClosedOneMore([a, b], c);
    StopReply.ClosedOneMore([a, b, c], d);
    assert [] + [d] == [d] && [] + [a] == [a] && [a] + [b] == [a, b] && [a, b] + [c] == [a, b, c];
    assert [a, b, c] + [d] == [a, b, c, d];
  }

  /** The id of a thread as the peer sees it. */
  function IdText(pid: nat, tid: nat): string {
    "p" + ThreadIds.NumberToHex(pid) + "." + ThreadIds.NumberToHex(tid)
  }

  lemma ProcessExitText(pid: nat, details: Details, shown: Option<R.Regs>)
    ensures StopReply.Text(ReplyFor(P.ExitedProcess, pid, details, shown)) == "W" + Hex.EncodeByte(details.exitCode % 256)
  {
    hide Hex.EncodeByte;
    var r := ReplyFor(P.ExitedProcess, pid, details, shown);
    StopReply.NothingClosed();
    assert StopReply.Parameters(r) == [] && StopReply.Body(r) == "";
  }

  lemma ThreadExitText(pid: nat, tid: nat, details: Details, shown: Option<R.Regs>)
    ensures StopReply.Text(ReplyFor(P.ExitedThread(tid), pid, details, shown)) == "w00;" + IdText(pid, tid)
  {
    hide Hex.EncodeByte, ThreadIds.NumberToHex;
    var r := ReplyFor(P.ExitedThread(tid), pid, details, shown);
    ByteTexts();
    StopReply.NothingClosed();
    assert r.tid == IdText(pid, tid);
    assert StopReply.Body(r) == ";" + IdText(pid, tid);
    assert StopReply.Text(r) == "w" + "00" + (";" + IdText(pid, tid));
  }

  lemma ThreadStartText(pid: nat, tid: nat)
    ensures StopReply.Text(Created(pid, tid)) == "T05thread:" + IdText(pid, tid) + ";create:;"
  {
    hide Hex.EncodeByte, Hex.Closed, ThreadIds.NumberToHex;
    var r, id := Created(pid, tid), IdText(pid, tid);
    ByteTexts();
    ClosedText("thread:" + id, "create:", "", "");
    assert r.tid == id;
    assert StopReply.Parameters(r) == ["thread:" + id, "create:"];
    assert StopReply.Body(r) == "thread:" + id + ";" + "create:" + ";";
    assert StopReply.Text(r) == "T" + "05" + ("thread:" + id + ";" + "create:" + ";");
    assert "T" + "05" + ("thread:" + id + ";" + "create:" + ";") == "T05thread:" + id + ";create:;";
  }

  lemma BareStopText(pid: nat, tid: nat, details: Details)
    requires details.signal.Some?
    ensures StopReply.Text(ReplyFor(P.StoppedThread(tid), pid, details, None)) ==
            "T" + Hex.EncodeByte(details.signal.value) + "thread:" + IdText(pid, tid) + ";"
  {
    hide Hex.EncodeByte, Hex.Closed, ThreadIds.NumberToHex;
    var r, id := ReplyFor(P.StoppedThread(tid), pid, details, None), IdText(pid, tid);
    ClosedText("", "", "", "thread:" + id);
    assert r.tid == id && StopReply.Parameters(r) == ["thread:" + id];
    assert StopReply.Body(r) == "thread:" + id + ";";
  }

  /** A stop: the signal, three registers under their numbers, and the thread. */
  lemma StopText(pid: nat, tid: nat, details: Details, regs: R.Regs)
    requires details.signal.Some?
    ensures StopReply.Text(ReplyFor(P.StoppedThread(tid), pid, details, Some(regs))) ==
            "T" + Hex.EncodeByte(details.signal.value) + ("06:" + ValueText(regs[6])) + ";" +
            ("07:" + ValueText(regs[7])) + ";" +
            ("10:" + ValueText(regs[16])) + ";" + ("thread:" + IdText(pid, tid)) + ";"
  {
    hide Hex.EncodeByte, Hex.Closed, ThreadIds.NumberToHex, ValueText;
    var r, id := ReplyFor(P.StoppedThread(tid), pid, details, Some(regs)), IdText(pid, tid);
    var a, b, c := "06:" + ValueText(regs[6]), "07:" + ValueText(regs[7]), "10:" + ValueText(regs[16]);
    RegisterTexts3(regs);
    ClosedText(a, b, c, "thread:" + id);
    assert r.tid == id && StopReply.Parameters(r) == [a, b, c, "thread:" + id];
    StopBody(r, a, b, c, "thread:" + id);
  }

  lemma RegisterTexts3(regs: R.Regs)
    ensures RegisterText(RBP, regs[RBP]) == "06:" + ValueText(regs[6])
    ensures RegisterText(RSP, regs[RSP]) == "07:" + ValueText(regs[7])
    ensures RegisterText(R.RIP, regs[R.RIP]) == "10:" + ValueText(regs[16])
  {
    hide Hex.EncodeByte, Hex.EncodeBytes, LittleEndian;
    ByteTexts();
  }

  lemma StopBody(r: StopReply.Reply, a: string, b: string, c: string, d: string)
    requires r.kind == StopReply.ReceivedSignal && r.reason == "" && StopReply.Parameters(r) == [a, b, c, d]
    ensures StopReply.Text(r) == "T" + Hex.EncodeByte(r.signo) + a + ";" + b + ";" + c + ";" + d + ";"
  {
    hide Hex.EncodeByte, Hex.Closed, StopReply.Parameters;
    ClosedText(a, b, c, d);
    var body := a + ";" + b + ";" + c + ";" + d + ";";
    assert StopReply.Body(r) == body;
    var head := "T" + Hex.EncodeByte(r.signo);
    assert head + body == head + a + ";" + b + ";" + c + ";" + d + ";";
  }

  /** What the peer is told for each exception: once, in answer to the run that waits or as a notification. */
  lemma ExceptionText(ty: P.ExceptionType, tid: nat, state: P.PState, pid: nat, details: Details, shown: Option<R.Regs>,
                      address: nat)
    requires !ty.Unrecognised? && details.signal.Some?
    ensures IsNews(P.ReportOf(ty, tid, state, false))
    ensures var told := Told(P.ReportOf(ty, tid, state, false), pid, details, shown, address);
            match ty
            case ProcessGone => told == N.Event("W" + Hex.EncodeByte(details.exitCode % 256), address)
            case OfThread(ThreadExiting) => told == N.Event("w00;" + IdText(pid, tid), address)
            case OfThread(ThreadStarting) =>
              var text := "T05thread:" + IdText(pid, tid) + ";create:;";
              told == if state == P.PStarting then N.ThreadStarted(text) else N.Event(text, address)
            case OfThread(Architectural) =>
              told == N.Event(StopReply.Text(ReplyFor(P.StoppedThread(tid), pid, details, shown)), address)
  {
    hide StopReply.Text, IdText, Hex.EncodeByte;
    ProcessExitText(pid, details, shown);
    ThreadExitText(pid, tid, details, shown);
    ThreadStartText(pid, tid);
  }

  lemma ReplyForIsSmall(report: P.Report, pid: nat, details: Details, shown: Option<R.Regs>)
    requires IsNews(report) && pid < TWO_64 && (!report.ExitedProcess? ==> report.tid < TWO_64)
    ensures StopReply.Small(ReplyFor(report, pid, details, shown))
  {
    hide Hex.EncodeBytes, Hex.EncodeByte, ThreadIds.EncodeThreadId, LittleEndian;
  }

  lemma RegisterTextIsPlain(regno: Byte, w: R.Word)
    ensures StopReply.RegisterText(RegisterText(regno, w))
  {
    hide LittleEndian, Hex.EncodeBytes, Hex.EncodeByte;
    var number, value := Hex.EncodeByte(regno), Hex.EncodeBytes(LittleEndian(w, R.REGISTER_SIZE));
    Hex.DecodeOfEncode(LittleEndian(w, R.REGISTER_SIZE));
    assert RegisterText(regno, w)[..2] == number && RegisterText(regno, w)[3..] == value;
  }

  /** Every stop reply the server builds is one that a frame carries unharmed. */
  lemma ReplyForIsSent(report: P.Report, pid: nat, details: Details, shown: Option<R.Regs>)
    requires IsNews(report)
    requires report.StoppedThread? ==> details.signal.Some? && details.signal.value != 0
    ensures var text := StopReply.Text(ReplyFor(report, pid, details, shown));
            PacketCodec.Carriable(text) && PacketCodec.Verify(PacketCodec.Frame(false, text)) == Some(text)
  {
    hide StopReply.Text, StopReply.RegisterText, RegisterText, ThreadIds.EncodeThreadId, PacketCodec.Carriable,
         PacketCodec.Verify, PacketCodec.Frame;
    var r := ReplyFor(report, pid, details, shown);
    if shown.Some? {
      RegisterTextIsPlain(RBP, shown.value[RBP]);
      RegisterTextIsPlain(RSP, shown.value[RSP]);
      RegisterTextIsPlain(R.RIP, shown.value[R.RIP]);
    }
    assert StopReply.Plain(r.reason) && ';' !in r.reason;
    StopReply.StopReplyIsCarried(r);
    PacketCodec.VerifyOfFrame(StopReply.Text(r));
  }

  /** The stop reply for a report; `shown` are the registers that could be read. */
  method BuildReply(report: P.Report, pid: nat, details: Details, shown: Option<R.Regs>) returns (text: string)
    requires IsNews(report) && pid < TWO_64 && (!report.ExitedProcess? ==> report.tid < TWO_64)
    requires report.StoppedThread? ==> details.signal.Some? && details.signal.value != 0
    ensures text == StopReply.Text(ReplyFor(report, pid, details, shown)) && |text| <= 300
  {
    hide StopReply.Text, StopReply.Small, Hex.EncodeBytes, Hex.EncodeByte, ThreadIds.EncodeThreadId, LittleEndian;
    ReplyForIsSmall(report, pid, details, shown);
    var packet := new StopReply.StopReplyPacket(
      match report
      case ExitedThread(_) => StopReply.ThreadExited
      case ExitedProcess => StopReply.ProcessExited
      case _ => StopReply.ReceivedSignal);
    packet.SetSignalNumber(
      match report
      case ExitedThread(_) => 0
      case ExitedProcess => details.exitCode % 256
      case StoppedThread(_) => details.signal.value
      case _ => 5);
    if !report.ExitedProcess? {
      packet.SetThreadId(pid, report.tid);
    }
    if report.FirstThread? || report.StartedThread? {
      packet.SetStopReason("create");
    }
    if report.StoppedThread? && shown.Some? {
      packet.AddRegisterValue(RBP, Hex.EncodeBytes(LittleEndian(shown.value[RBP], R.REGISTER_SIZE)));
      packet.AddRegisterValue(RSP, Hex.EncodeBytes(LittleEndian(shown.value[RSP], R.REGISTER_SIZE)));
      packet.AddRegisterValue(R.RIP, Hex.EncodeBytes(LittleEndian(shown.value[R.RIP], R.REGISTER_SIZE)));
    }
    assert packet.Value() == ReplyFor(report, pid, details, shown);
    text := packet.Build();
    StopReply.SmallReplyFits(packet.Value());
  }

  /** Whether there is nothing to tell. */
  predicate Silent(what: P.Report, details: Details) {
    !IsNews(what) || (what.StoppedThread? && details.signal.None?)
  }

  /** Only an exception of no known kind, a failed check, and a stop without a signal are not told. */
  lemma SilentIs(what: P.Report, details: Details)
    ensures Silent(what, details) <==>
            what == P.Ignored || what == P.CheckFailed || (what.StoppedThread? && details.signal == None)
  {
  }
}
