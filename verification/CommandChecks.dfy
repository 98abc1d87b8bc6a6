/**
 * The checks that a command can fail (bin/debugserver/cmd-handler.cc and what its
 * handlers call), as predicates of the packet, of what can be seen of the handler and
 * the inferior before it is handled, and of what the kernel answers.
 */
module CommandChecks {
  import opened Prelude
  import ThreadIds
  import PacketCodec
  import CommandText
  import Q = QueryTexts
  import R = RegisterBlocks
  import T = Threads
  import E = ExceptionPorts
  import A = ThreadActions
  import P = Processes
  import C = Continuation

  /** What the kernel and the launchpad answer while a command is handled. */
  datatype Io = Io(
    launch: P.LaunchIo, handle: bool, bind: bool, start: bool, kill: bool,
    find: P.FindIo,                    // the first look at the thread list that works, up to the first pass of a vCont
    again: P.FindIo,                   // the next look
    cont: nat -> C.ContIo, regs: T.RegIo, resume: bool,
    signal: Option<Byte>,              // what the last exception of the current thread maps to
    access: bool, memory: nat -> Byte, // whether memory can be read or written, and what is there
    accepted: bool, level: int,        // whether a log level can be set, and the level shown
    exec: bool, auxv: nat -> char)     // whether the executable is known, and the auxiliary vector

  /** The kernel names real objects only. */
  predicate Honest(io: Io) {
    && P.KernelIds(0, io.find) && P.KernelIds(0, io.again)
    && (io.launch.pid.Some? ==> P.IsKoid(io.launch.pid.value))
    && -TWO_31 <= io.level < TWO_31
  }

  /**
   * How a handler ends: it passes one text to its callback and returns, it returns
   * having called nothing, it says that the command is not supported, or one of
   * the checks fails.
   */
  datatype Outcome = Replied(text: string) | Deferred | Unsupported | Tripped

  const OK := Replied("OK")
  const PERM := Replied("E01")
  const NOENT := Replied("E02")
  const INVAL := Replied("E22")

  /** A reply that PostWriteTask does not take. */
  predicate Overflows(r: Outcome) {
    r.Replied? && !PacketCodec.Fits(r.text)
  }

  /** A reply that is nowhere near the limit. */
  predicate Short(r: Outcome) {
    r.Replied? ==> |r.text| <= 500
  }

  /** The threads a listing names. */
  ghost function LiveKeys(values: map<nat, T.Snapshot>): set<nat> {
    set k | k in values && values[k].state != T.Gone
  }

  /** A "pick one" entry for a process that is not the current one. */
  predicate AsksAnother(e: A.Entry, pid: nat) {
    e.tid == 0 && e.pid != pid && e.pid != A.ALL
  }

  predicate AsksAnotherProcess(entries: seq<A.Entry>, pid: nat) {
    exists i :: 0 <= i < |entries| && AsksAnother(entries[i], pid)
  }

  /** The check on the thread list fails in the first of two looks, or in the second. */
  predicate MiscountsTwice(stale: bool, first: P.FindIo, second: P.FindIo) {
    P.Miscounts(stale, first) || P.Miscounts(stale && first.threads.None?, second)
  }

  /** What is seen of the inferior and the handler. */
  datatype View = View(
    state: P.PState, key: E.Key, counter: E.Key, launchpad: bool, argv: seq<string>, id: nat,
    stale: bool, values: map<nat, T.Snapshot>,
    current: Option<nat>,              // the id of the current thread, if there is one
    listing: bool,                     // a thread listing has begun
    writes: seq<(nat, seq<Byte>)>)     // history: what M packets wrote to memory, and where

  /** No handle is given out to a thread that cannot exist. */
  function Asked(io: P.FindIo, tid: nat): P.FindIo {
    io.(child := if P.IsKoid(tid) then io.child else None)
  }

  /** H: a thread is to be chosen in a live process, and looking for it the check on the thread list fails. */
  predicate ChoosingTrips(v: View, packet: string, io: Io) {
    && |packet| > 1 && packet[0] in "cg"
    && var id := ThreadIds.ThreadIdOf(packet[1..]);
    && id.Some? && !id.value.hasPid && id.value.tid >= 0
    && P.Live(v.state) && MiscountsTwice(v.stale, io.find, io.again)
  }

  /** T: a thread is looked for, and the check on the thread list fails. */
  predicate LookingTrips(v: View, packet: string, io: Io) {
    && v.key != 0 && P.Miscounts(v.stale, io.find)
    && CommandText.ParseUint64(packet).Some? && CommandText.ParseUint64(packet).value != 0
  }

  /** qC: a thread is picked for want of a current one, and the check on the thread list fails. */
  predicate PickingTrips(v: View, params: string, io: Io) {
    params == "" && v.current.None? && P.Live(v.state) && P.Miscounts(v.stale, io.find)
  }

  predicate QueryTrips(v: View, prefix: string, params: string, io: Io) {
    || (prefix == "C" && PickingTrips(v, params, io))
    || (prefix == "fThreadInfo" && !v.listing && P.Miscounts(v.stale, io.find))
  }

  /** q and Q: nothing behind the letter, or a query that fails a check. */
  predicate GeneralTrips(v: View, packet: string, io: Io)
    requires packet != ""
  {
    || |packet| == 1
    || (packet[0] == 'q' && QueryTrips(v, CommandText.PrefixOf(packet[1..]), CommandText.ParamsOf(packet[1..]), io))
  }

  /** Nothing is live, but a failed run has left something over. */
  predicate LeftOver(v: View) {
    !P.Live(v.state) && (v.launchpad || v.key != 0)
  }

  /** The argument vector a vRun packet asks for; an empty one keeps the last. */
  function ArgvAfter(argv: seq<string>, packet: string): seq<string> {
    if packet != "" then CommandText.ArgvOf(Pieces(packet, ';')) else argv
  }

  /** The two ways a run fails a check: what an earlier run left over, and a process whose id cannot be had. */
  predicate RunTrips(v: View, packet: string, io: Io) {
    LeftOver(v) || (!P.Live(v.state) && P.SetupOf(ArgvAfter(v.argv, packet), io.launch) == P.NoKoid)
  }

  function RoundOf(v: View, parsed: A.Parsed, io: Io): C.Round {
    C.Round(C.Plan(parsed.entries, parsed.default), v.id, v.values, v.stale, io.find, io.again)
  }

  /** An entry has process 0, or the list is valid and there is nothing to run it on or it cannot be run. */
  ghost predicate ContTrips(v: View, packet: string, io: Io) {
    var parsed := A.ParseActions(packet, v.id);
    || A.TripsCheck(packet, v.id)
    || (parsed.Some? &&
        (|| !P.Live(v.state) || AsksAnotherProcess(parsed.value.entries, v.id)
         || (var round := RoundOf(v, parsed.value, io); C.Proper(round) && C.MiscountsRound(round))))
  }

  ghost predicate TripsOnV(v: View, rest: string, io: Io) {
    if "Attach;" <= rest then CommandText.ParseUint64(rest[7..]).Some? && LeftOver(v)
    else if "Cont;" <= rest then ContTrips(v, rest[5..], io)
    else "Run;" <= rest && RunTrips(v, rest[4..], io)
  }

  /** The commands that make a check fail, each in the states where it does. */
  ghost predicate TripsOn(v: View, packet: string, io: Io) {
    packet != "" &&
    var rest := packet[1..];
    match packet[0]
    case 'c' => v.key != 0 && v.current.None? && (rest == "" || (CommandText.ParseUint64(rest).Some? && P.Live(v.state)))
    case 'H' => ChoosingTrips(v, rest, io)
    case 'q' => GeneralTrips(v, packet, io)
    case 'Q' => GeneralTrips(v, packet, io)
    case 'T' => LookingTrips(v, rest, io)
    case 'v' => TripsOnV(v, rest, io)
    case _ => false
  }

  /** An m packet that is answered with what is in memory. */
  predicate ReadsMemory(attached: bool, packet: string, io: Io) {
    attached && io.access && Q.NumbersOf(packet).Numbers?
  }

  /** A first thread query that is not refused has too many threads to name. */
  ghost predicate ListTooLong(v: View, io: P.FindIo) {
    !v.listing && !P.Miscounts(v.stale, io) && Q.ListTooLong(LiveKeys(P.Looked(v.values, v.stale, io)))
  }

  ghost predicate QueryTooLong(v: View, prefix: string, params: string, io: Io) {
    if prefix == "fThreadInfo" then ListTooLong(v, io.find)
    else prefix == "Xfer" && "auxv:read::" <= params && Q.AuxvTooLong(params[11..], io.exec)
  }

  /** The commands whose reply does not fit: a long read, a listing of many threads, a read behind the vector. */
  ghost predicate RepliesTooLong(v: View, packet: string, io: Io) {
    packet != "" &&
    var rest := packet[1..];
    match packet[0]
    case 'm' => ReadsMemory(v.key != 0, rest, io) && Q.NumbersOf(rest).second >= 2046
    case 'q' => rest != "" && QueryTooLong(v, CommandText.PrefixOf(rest), CommandText.ParamsOf(rest), io)
    case _ => false
  }
}
