/**
 * What every command answers and does (bin/debugserver/cmd-handler.cc), as a relation
 * between what is seen of the handler and the inferior before it, the reply, and what is
 * seen afterwards. A rule speaks of commands that fail no check; CommandChecks says which
 * do. Where the code takes any thread of a set the rule leaves it open which.
 */
module CommandRules {
  import opened Prelude
  import opened CommandChecks
  import Hex
  import ThreadIds
  import CommandText
  import Q = QueryTexts
  import RegisterTexts
  import T = Threads
  import E = ExceptionPorts
  import A = ThreadActions
  import P = Processes
  import C = Continuation

  /** Continuing a thread, at an address if one is given. */
  function Continued(s: T.Snapshot, pc: Option<nat>, io: Io): (bool, T.Snapshot)
    requires pc.Some? ==> pc.value < TWO_64
  {
    var (ok, s1) := if pc.None? then (true, s) else T.SetPc(s, pc.value, io.regs);
    if ok then T.Resume(s1, io.resume) else (false, s1)
  }

  /** Continuing without an address is resuming; with one the thread goes on from there, if its registers can be set. */
  lemma ContinuedIs(s: T.Snapshot, pc: nat, io: Io)
    requires pc < TWO_64
    ensures Continued(s, None, io) == T.Resume(s, io.resume)
    ensures Continued(s, Some(pc), io).0 <==>
            && (s.state == T.New || (s.state == T.Stopped && io.regs.read)) && io.regs.write && io.resume
    ensures Continued(s, Some(pc), io).0 ==>
              var s' := Continued(s, Some(pc), io).1;
              s'.state == T.Running && s'.cpu[16] == pc && (s.state != T.New ==> s'.cpu == s.cpu[16 := pc])
    ensures Continued(s, Some(pc), io).1.state == (if Continued(s, Some(pc), io).0 then T.Running else s.state)
  {
  }

  /** The view with another value for the current thread. */
  function WithCurrent(v: View, s: T.Snapshot): View
    requires v.current.Some?
  {
    v.(values := v.values[v.current.value := s])
  }

  /** A current thread is one of the threads there are. */
  predicate CurrentIsFiled(v: View) {
    v.current.Some? ==> v.current.value in v.values
  }

  /** c: the current thread is resumed, at the address that is given. */
  predicate ContinueRule(v: View, rest: string, io: Io, r: Outcome, v': View) {
    var pc := CommandText.ParseUint64(rest);
    if v.key == 0 then r == Replied("E01") && v' == v
    else if rest != "" && pc.None? then r == Replied("E22") && v' == v
    else if v.current.None? then r == Replied("E01") && v' == v
    else
      && CurrentIsFiled(v)
      && var (ok, s) := Continued(v.values[v.current.value], pc, io);
      && r == (if ok then Replied("OK") else Replied("E01")) && v' == WithCurrent(v, s)
  }

  /** C: the current thread is resumed, if the signal is the one it stopped with and there is no address. */
  predicate SignalRule(v: View, rest: string, io: Io, r: Outcome, v': View) {
    if v.key == 0 || v.current.None? then r == Replied("E01") && v' == v
    else
      && CurrentIsFiled(v)
      && var s, number := v.values[v.current.value], ThreadIds.ParseInt64(rest[..Find(rest, ';', 0)]);
      if number.None? || !(-0x8000_0000 <= number.value < 0x8000_0000) then r == Replied("E22") && v' == v
      else if s.context.None? || io.signal.None? || io.signal.value != number.value then r == Replied("E01") && v' == v
      else if ';' in rest then r == Replied("E22") && v' == v
      else
        var (ok, s') := T.Resume(s, io.resume);
        r == (if ok then Replied("OK") else Replied("E01")) && v' == WithCurrent(v, s')
  }

  /** Nothing is left of the inferior. */
  function Cleared(v: View): View {
    v.(state := P.PGone, key := 0, launchpad := false, id := 0, stale := false, values := map[], current := None)
  }

  /** D: the inferior is let go, if it is the one meant. */
  predicate DetachRule(v: View, rest: string, r: Outcome, v': View) {
    if rest != "" && !(rest[0] == ';' && CommandText.ParseUint64(rest[1..]) == Some(v.id)) then
      r == Replied("E22") && v' == v
    else if v.key == 0 then r == Replied("E02") && v' == v
    else r == Replied("OK") && v' == Cleared(v)
  }

  /** g: the registers of the current thread as they are cached, zeros if there is none. */
  predicate ShowRule(v: View, r: Outcome, v': View) {
    && v' == v && CurrentIsFiled(v)
    && r == if v.key == 0 then Replied("E02")
            else if v.current.None? then Replied(RegisterTexts.NoThreadText())
            else Replied(RegisterTexts.BlockText(v.values[v.current.value].cached))
  }

  /** G: the registers of the current thread are written. */
  predicate PutRule(v: View, rest: string, io: Io, r: Outcome, v': View) {
    if v.key == 0 || v.current.None? then r == Replied("E02") && v' == v
    else
      && CurrentIsFiled(v)
      && match RegisterTexts.BlockOf(rest)
         case None => r == Replied("E01") && v' == v
         case Some(block) =>
           && r == (if io.regs.write then Replied("OK") else Replied("E01"))
           && v' == WithCurrent(v, T.PutRegisters(v.values[v.current.value], block, io.regs.write))
  }

  /** The thread that is current after a look at the list: threads of a list that is read are new objects. */
  function CurrentAfter(v: View, io: P.FindIo): Option<nat> {
    if P.WillRefresh(v.stale, io) then None else v.current
  }

  /** The view after a look at the list. */
  function LookedAt(v: View, io: P.FindIo): View {
    v.(values := P.Looked(v.values, v.stale, io), stale := v.stale && io.threads.None?, current := CurrentAfter(v, io))
  }

  /** The view after one thread has been looked for. */
  function SoughtIn(v: View, tid: nat, io: P.FindIo): View {
    if tid == 0 then v else LookedAt(v, io).(values := P.Sought(v.values, v.stale, tid, io))
  }

  predicate IsLiveIn(v: View, tid: nat) {
    tid in v.values && v.values[tid].state != T.Gone
  }

  /** H with a thread number, in a live process: that thread becomes the current one, or any one for 0. */
  predicate ChosenRule(v: View, tid: nat, io: Io, r: Outcome, v': View) {
    var v1 := LookedAt(v, io.find);
    if tid == 0 then
      var v2 := LookedAt(v1, io.again);
      if v2.values == map[] then r == Replied("E01") && v' == v2
      else r == Replied("OK") && v'.current.Some? && CurrentIsFiled(v') && v' == v2.(current := v'.current)
    else
      var v2 := SoughtIn(v1, tid, Asked(io.again, tid));
      if IsLiveIn(v2, tid) then r == Replied("OK") && v' == v2.(current := Some(tid))
      else r == Replied("E01") && v' == v2
  }

  /** H: what is chosen must be a thread without a process, and there must be one in a live process. */
  predicate ChooseRule(v: View, rest: string, io: Io, r: Outcome, v': View) {
    if |rest| < 2 then r == Replied("E22") && v' == v
    else if rest[0] != 'c' && rest[0] != 'g' then r == Unsupported && v' == v
    else
      match ThreadIds.ThreadIdOf(rest[1..])
      case None => r == Replied("E22") && v' == v
      case Some(id) =>
        if id.hasPid then r == Unsupported && v' == v
        else if id.tid < 0 then r == Replied("E22") && v' == v
        else if !P.Live(v.state) then r == Replied("OK") && v' == v.(current := None)
        else ChosenRule(v, id.tid, io, r, v')
  }

  /** m: the bytes in memory, from the address on. */
  predicate ReadRule(v: View, rest: string, io: Io, r: Outcome, v': View) {
    && v' == v
    && r == if v.key == 0 then Replied("E02")
            else
              match Q.NumbersOf(rest)
              case Malformed => Replied("E22")
              case NotNumbers => Replied("E02")
              case Numbers(address, length) =>
                if io.access then Replied(Q.MemoryText(address, length, io.memory)) else Replied("E01")
  }

  /** M: the bytes are written to memory. */
  predicate WriteRule(v: View, rest: string, io: Io, r: Outcome, v': View) {
    if v.key == 0 then r == Replied("E02") && v' == v
    else
      match Q.WriteOf(rest)
      case None => r == Replied("E22") && v' == v
      case Some(write) =>
        if write.1 == [] then r == Replied("OK") && v' == v
        else if io.access then r == Replied("OK") && v' == v.(writes := v.writes + [write])
        else r == Replied("E01") && v' == v
  }

  /** T: whether the thread is there and not about to exit. */
  predicate AliveRule(v: View, rest: string, io: Io, r: Outcome, v': View) {
    if v.key == 0 then r == Replied("E02") && v' == v
    else
      match CommandText.ParseUint64(rest)
      case None => r == Replied("E22") && v' == v
      case Some(tid) =>
        && v' == SoughtIn(v, tid, Asked(io.find, tid))
        && r == if tid != 0 && IsLiveIn(v', tid) && v'.values[tid].state != T.Exiting then Replied("OK")
                else Replied("E02")
  }

  /** The text that names these threads. */
  function Listing(ids: seq<nat>): string {
    if ids == [] then "l" else "m" + Join(CommandText.IdTexts(ids), ',')
  }

  ghost predicate Lists(ids: seq<nat>, v: View) {
    && (forall k :: k in ids <==> IsLiveIn(v, k))
    && (forall i, j :: 0 <= i < j < |ids| ==> ids[i] != ids[j])
  }

  /** qfThreadInfo and qsThreadInfo: all live threads, and then the end of the list. */
  ghost predicate ListRule(v: View, isFirst: bool, io: Io, r: Outcome, v': View) {
    if isFirst == v.listing then r == Replied("E01") && v' == v
    else if !isFirst then r == Replied("l") && v' == v.(listing := false)
    else
      var v1 := LookedAt(v, io.find);
      exists ids :: Lists(ids, v1) && r == Replied(Listing(ids)) && v' == v1.(listing := ids != [])
  }

  /** qC: the current thread, or any if there is none. */
  ghost predicate CurrentRule(v: View, params: string, io: Io, r: Outcome, v': View) {
    if params != "" then r == Replied("E22") && v' == v
    else if v.current.Some? then r == Replied("QC" + ThreadIds.NumberToHex(v.current.value)) && v' == v
    else if !P.Live(v.state) then r == Replied("E01") && v' == v
    else
      && v' == LookedAt(v, io.find)
      && if v'.values == map[] then r == Replied("E01")
         else exists k :: k in v'.values && r == Replied("QC" + ThreadIds.NumberToHex(k))
  }

  /** qXfer: the length of the part asked for; its bytes are given. */
  predicate VectorRule(args: string, io: Io, r: Outcome) {
    var numbers := Q.NumbersOf(args);
    if !numbers.Numbers? || numbers.first > 160 then r == Replied("E22")
    else
      && r.Replied? && |r.text| == 1 + Q.AuxvLength(io.exec, numbers.first, numbers.second) && r.text[0] == 'l'
      && forall i :: 1 <= i < |r.text| ==> r.text[i] == io.auxv(i - 1)
  }

  ghost predicate QueryRule(v: View, prefix: string, params: string, io: Io, r: Outcome, v': View) {
    if prefix == "Attached" then r == (if params == "" then Replied("0") else Replied("E22")) && v' == v
    else if prefix == "C" then CurrentRule(v, params, io, r, v')
    else if prefix == "fThreadInfo" then ListRule(v, true, io, r, v')
    else if "Rcmd," <= prefix then
      var words := Q.Words(CommandText.Chars(Hex.DecodeBytes(prefix[5..])));
      r == Replied(Q.MonitorReply(words, io.accepted, io.level)) && v' == v
    else if prefix == "sThreadInfo" then ListRule(v, false, io, r, v')
    else if prefix == "Supported" then r == Replied("QNonStop+;qXfer:auxv:read+") && v' == v
    else if prefix == "Xfer" && "auxv:read::" <= params then VectorRule(params[11..], io, r) && v' == v
    else r == Unsupported && v' == v
  }

  /** Q: only non-stop mode can be chosen. */
  predicate SetRule(v: View, prefix: string, params: string, r: Outcome, v': View) {
    && v' == v
    && r == if prefix != "NonStop" then Unsupported
            else if params == "1" then Replied("OK")
            else if params == "0" then Replied("E01")
            else Replied("E22")
  }

  /** vAttach: a process is attached to, if nothing is live and each request is granted. */
  predicate AttachRule(v: View, rest: string, io: Io, r: Outcome, v': View) {
    match CommandText.ParseUint64(rest)
    case None => r == Replied("E22") && v' == v
    case Some(pid) =>
      if P.Live(v.state) then r == Replied("E01") && v' == v
      else if io.handle && P.IsKoid(pid) && io.bind && E.NextKey(v.counter) != 0 then
        && r == Replied("OK")
        && v' == v.(state := P.PRunning, id := pid, key := E.NextKey(v.counter), counter := E.NextKey(v.counter),
                    stale := true)
      else r == Replied("E01") && v' == v.(state := P.PNew, id := pid)
  }

  /** vRun: a program is set up, attached to and started; the reply is left to its first thread. */
  predicate RunRule(v: View, rest: string, io: Io, r: Outcome, v': View) {
    var v1 := v.(argv := ArgvAfter(v.argv, rest));
    if P.Live(v.state) then r == Replied("E01") && v' == v1
    else
      match P.SetupOf(v1.argv, io.launch)
      case NoKoid => false
      case NotReady =>
        && r == Replied("E01")
        && v' == v1.(state := P.PNew, launchpad := false,
                     id := if v1.argv != [] && v1.argv[0] != "" && io.launch.setUp then 0 else v.id)
      case Ready =>
        var v2 := v1.(state := P.PNew, id := io.launch.pid.value);
        var next := E.NextKey(v.counter);
        if !(io.handle && io.bind && next != 0) then r == Replied("E01") && v' == v2.(launchpad := true)
        else if !io.start then r == Replied("E01") && v' == v2.(launchpad := false, key := next, counter := next)
        else r == Deferred && v' == v2.(state := P.PStarting, launchpad := false, key := next, counter := next)
  }

  /** vKill: the inferior goes, if it is the one meant and the kernel agrees. */
  predicate KillRule(v: View, rest: string, io: Io, r: Outcome, v': View) {
    if CommandText.ParseUint64(rest) != Some(v.id) then r == Replied("E22") && v' == v
    else if P.Live(v.state) && io.kill then r == Replied("OK") && v' == Cleared(v)
    else r == Replied("E01") && v' == v
  }

  /** The view after a round over the thread table. */
  function AfterRound(v: View, round: C.Round, io: Io): View
    requires C.Proper(round)
  {
    v.(values := C.Result(round, io.cont), stale := C.StaleAfter(round),
       current := if C.ReplacedIn(round) then None else v.current)
  }

  /** vCont: one round over the thread table. */
  ghost predicate ContRule(v: View, rest: string, io: Io, r: Outcome, v': View) {
    match A.ParseActions(rest, v.id)
    case None => r == Replied("E22") && v' == v
    case Some(parsed) =>
      var round := RoundOf(v, parsed, io);
      && C.Proper(round)
      && r == (if C.Agreed(round) then Replied("OK") else Replied("E22"))
      && v' == AfterRound(v, round, io)
  }

  ghost predicate VRule(v: View, rest: string, io: Io, r: Outcome, v': View) {
    if "Attach;" <= rest then AttachRule(v, rest[7..], io, r, v')
    else if "Cont;" <= rest then ContRule(v, rest[5..], io, r, v')
    else if "Kill;" <= rest then KillRule(v, rest[5..], io, r, v')
    else if "Run;" <= rest then RunRule(v, rest[4..], io, r, v')
    else r == Unsupported && v' == v
  }

  /** What a command that fails no check answers and does. */
  ghost predicate Rule(v: View, packet: string, io: Io, r: Outcome, v': View) {
    if packet == "" then r == Unsupported && v' == v
    else
      var rest := packet[1..];
      match packet[0]
      case '?' => r == (if rest == "" then Replied("OK") else Unsupported) && v' == v
      case 'c' => ContinueRule(v, rest, io, r, v')
      case 'C' => SignalRule(v, rest, io, r, v')
      case 'D' => DetachRule(v, rest, r, v')
      case 'g' => if rest == "" then ShowRule(v, r, v') else r == Unsupported && v' == v
      case 'G' => PutRule(v, rest, io, r, v')
      case 'H' => ChooseRule(v, rest, io, r, v')
      case 'm' => ReadRule(v, rest, io, r, v')
      case 'M' => WriteRule(v, rest, io, r, v')
      case 'q' => QueryRule(v, CommandText.PrefixOf(rest), CommandText.ParamsOf(rest), io, r, v')
      case 'Q' => SetRule(v, CommandText.PrefixOf(rest), CommandText.ParamsOf(rest), r, v')
      case 'T' => AliveRule(v, rest, io, r, v')
      case 'v' => VRule(v, rest, io, r, v')
      case _ => r == Unsupported && v' == v
  }

  /** A second look with the same answer finds nothing new. */
  lemma LookedAtTwice(v: View, io: P.FindIo)
    ensures LookedAt(LookedAt(v, io), io) == LookedAt(v, io)
  {
  }

  /** So a look at the list before a round that makes the same one first makes no difference. */
  lemma LookBeforeRound(v: View, parsed: A.Parsed, io: Io)
    requires C.Proper(RoundOf(v, parsed, io))
    ensures var v1 := LookedAt(v, io.find);
            var r, r1 := RoundOf(v, parsed, io), RoundOf(v1, parsed, io);
            && C.Proper(r1) && C.Agreed(r1) == C.Agreed(r) && C.MiscountsRound(r1) == C.MiscountsRound(r)
            && AfterRound(v1, r1, io) == AfterRound(v, r, io)
  {
    hide C.NoneRefused, C.ActAll, P.Opened, P.Ids;
    LookedAtTwice(v, io.find);
    var v1 := LookedAt(v, io.find);
    var r, r1 := RoundOf(v, parsed, io), RoundOf(v1, parsed, io);
    assert r1.values == C.FirstTable(r) == C.FirstTable(r1);
    assert C.SecondTable(r1) == C.SecondTable(r);
  }

  // From the text of a packet to what becomes of the threads.

  /** The kernel grants whatever a vCont asks of it, and no thread is out of step with its breakpoint. */
  ghost predicate Granted(v: View, io: Io) {
    (forall k :: C.AllSucceed(io.cont(k))) && forall k :: k in v.values ==> T.Paired(v.values[k])
  }

  /** The list of threads that the second pass of a vCont works on. */
  function SecondLook(v: View, io: Io): map<nat, T.Snapshot> {
    LookedAt(LookedAt(v, io.find), io.again).values
  }

  /** vCont;c is agreed to, and then every thread that was new or stopped is running. */
  lemma ContinueCommand(v: View, io: Io, r: Outcome, v': View)
    requires Rule(v, "vCont;c", io, r, v') && Granted(v, io)
    ensures r == Replied("OK") && v'.values.Keys == SecondLook(v, io).Keys
    ensures forall k :: k in v'.values ==>
                          var was := SecondLook(v, io)[k].state;
                          v'.values[k].state == if was == T.New || was == T.Stopped then T.Running else was
  {
    hide A.ParseActions, C.Agreed, C.Result, P.Looked, C.AllSucceed, T.Paired;
    assert "vCont;c"[1..] == "Cont;c" && "Cont;c"[5..] == "c";
    A.PlainActions(v.id);
    var round := RoundOf(v, A.Parsed(A.Continue, []), io);
    C.ContinueAll(round, io.cont);
  }

  /** vCont;s is refused if there is a new thread; otherwise every thread that was stopped is stepping then. */
  lemma StepCommand(v: View, io: Io, r: Outcome, v': View)
    requires Rule(v, "vCont;s", io, r, v') && Granted(v, io)
    ensures var first := LookedAt(v, io.find).values;
            r == if exists k :: k in first && first[k].state == T.New then Replied("E22") else Replied("OK")
    ensures r == Replied("OK") ==>
              && v'.values.Keys == SecondLook(v, io).Keys
              && forall k :: k in v'.values ==>
                               var was := SecondLook(v, io)[k].state;
                               v'.values[k].state == if was == T.Stopped then T.Stepping else was
  {
    hide A.ParseActions, C.Agreed, C.Result, P.Looked, C.AllSucceed, T.Paired;
    assert "vCont;s"[1..] == "Cont;s" && "Cont;s"[5..] == "s";
    A.PlainActions(v.id);
    var round := RoundOf(v, A.Parsed(A.Step, []), io);
    C.StepAll(round, io.cont);
  }
}
