/**
 * The inferior's life cycle (lib/inferior-control/process.cc). System calls and
 * the launchpad succeed or fail as the parameters say. A debug check of the
 * original is a precondition, an assertion or an outcome here; the one in
 * RefreshAllThreads leaves its mark on the process, and whoever looked at the
 * thread list ends there.
 */
module Processes {
  import opened Prelude
  import opened RegisterBlocks
  import opened Threads
  import opened ExceptionPorts

  datatype PState = PNew | PStarting | PRunning | PGone

  /** The edges the checks in set_state allow. */
  predicate AllowedEdge(from: PState, to: PState) {
    match to
    case PNew => from == PGone
    case PStarting => from == PNew
    case PRunning => from == PNew || from == PStarting
    case PGone => true
  }

  predicate Live(s: PState) {
    s != PNew && s != PGone
  }

  /** A process starts or is attached to, runs, and goes; a new one can only be made of one that is gone. */
  lemma LifeCycle(from: PState, to: PState)
    ensures AllowedEdge(from, to) <==>
            || (from, to) in {(PNew, PStarting), (PNew, PRunning), (PStarting, PRunning), (PGone, PNew)}
            || to == PGone
    ensures Live(from) <==> from == PStarting || from == PRunning
  {
  }

  /** How far Initialize gets, and the koid of the process it created if that can be had. */
  datatype LaunchIo = LaunchIo(setUp: bool, load: bool, pid: Option<nat>, addresses: bool)

  /** How Initialize ends; the third way is that the check on the koid fails. */
  datatype Setup = Ready | NotReady | NoKoid

  function SetupOf(argv: seq<string>, io: LaunchIo): Setup {
    if argv == [] || argv[0] == "" || !io.setUp || !io.load then NotReady
    else if io.pid.None? then NoKoid
    else if io.addresses then Ready
    else NotReady
  }

  lemma SetupIs(argv: seq<string>, io: LaunchIo)
    ensures SetupOf(argv, io) == Ready <==>
            argv != [] && argv[0] != "" && io.setUp && io.load && io.pid.Some? && io.addresses
    ensures SetupOf(argv, io) == NoKoid <==> argv != [] && argv[0] != "" && io.setUp && io.load && io.pid.None?
  {
  }

  /** The kernel's answers while looking threads up. */
  datatype FindIo = FindIo(
    threads: Option<seq<(nat, Regs)>>,   // the list a refresh gets, or None if it cannot be had
    child: Option<Regs>,                 // a handle to the one thread asked for
    miscounted: bool)                    // without a list: it has not as many threads as were counted before

  datatype ExceptionType = OfThread(ty: Exception) | ProcessGone | Unrecognised

  /** What the delegate is told. */
  datatype Report =
    | FirstThread(tid: nat)     // a thread started while the process was starting
    | StartedThread(tid: nat)
    | ExitedThread(tid: nat)
    | StoppedThread(tid: nat)
    | ExitedProcess
    | Ignored                   // a synthetic exception of another kind
    | CheckFailed               // a check on the thread the exception is about, or on the thread list

  /** What an exception means for the peer. */
  function ReportOf(ty: ExceptionType, tid: nat, state: PState, fails: bool): Report {
    if fails then CheckFailed
    else
      match ty
      case ProcessGone => ExitedProcess
      case Unrecognised => Ignored
      case OfThread(ThreadStarting) => if state == PStarting then FirstThread(tid) else StartedThread(tid)
      case OfThread(ThreadExiting) => ExitedThread(tid)
      case OfThread(Architectural) => StoppedThread(tid)
  }

  /** Each kind of exception has its own report, unless a check fails. */
  lemma ReportIs(ty: ExceptionType, tid: nat, state: PState)
    ensures ReportOf(ty, tid, state, true) == CheckFailed
    ensures ReportOf(ProcessGone, tid, state, false) == ExitedProcess
    ensures ReportOf(Unrecognised, tid, state, false) == Ignored
    ensures ReportOf(OfThread(Architectural), tid, state, false) == StoppedThread(tid)
    ensures ReportOf(OfThread(ThreadExiting), tid, state, false) == ExitedThread(tid)
    ensures ReportOf(OfThread(ThreadStarting), tid, PStarting, false) == FirstThread(tid)
    ensures ReportOf(OfThread(ThreadStarting), tid, PRunning, false) == StartedThread(tid)
  {
  }

  /** EnsureThreadMapFresh will read the thread list afresh. */
  predicate WillRefresh(stale: bool, io: FindIo) {
    stale && io.threads.Some?
  }

  /** EnsureThreadMapFresh will find that the two requests for the list disagree. */
  predicate Miscounts(stale: bool, io: FindIo) {
    stale && io.threads.None? && io.miscounted
  }

  function Ids(list: seq<(nat, Regs)>): set<nat> {
    set i | 0 <= i < |list| :: list[i].0
  }

  /** Kernel object ids are neither 0 nor all ones. */
  predicate IsKoid(k: int) {
    0 < k < TWO_64 - 1
  }

  predicate KernelIds(tid: nat, io: FindIo) {
    && (io.threads.Some? ==> forall k :: k in Ids(io.threads.value) ==> IsKoid(k))
    && (io.child.Some? && tid != 0 ==> IsKoid(tid))
  }

  ghost function Objects(threads: map<nat, Thread>): set<object> {
    set k | k in threads :: threads[k]
  }

  /** Every thread is filed under its own id, and pairs its breakpoint with its state. */
  ghost predicate TableOk(threads: map<nat, Thread>)
    reads Objects(threads)
  {
    forall k :: k in threads ==> IsKoid(k) && threads[k].id == k && Paired(threads[k].Value())
  }

  /**
   * What the kernel is relied on for: no exceptions from threads that have exited,
   * and starting threads only in a live process.
   */
  predicate HonestKernel(p: PState, threads: map<nat, Thread>, stale: bool,
                         kind: Exception, tid: nat, io: FindIo)
    reads Objects(threads)
  {
    && tid != 0
    && (kind == ThreadStarting ==> Live(p))
    && (!WillRefresh(stale, io) && tid in threads ==> threads[tid].state != Gone)
  }

  /** The thread is not in the map once that has been looked at, and cannot be opened. */
  predicate Missing(threads: map<nat, Thread>, stale: bool, tid: nat, io: FindIo) {
    (if WillRefresh(stale, io) then tid !in Ids(io.threads.value) else tid !in threads) && io.child.None?
  }

  /** The thread that starts is in the map, which is not about to be replaced, and is no longer new there. */
  predicate StartsLate(threads: map<nat, Thread>, stale: bool, kind: Exception, tid: nat, io: FindIo)
    reads Objects(threads)
  {
    kind == ThreadStarting && !WillRefresh(stale, io) && tid in threads && threads[tid].state != New
  }

  /** The ways in which a check can fail on an exception: on the thread list, and on the thread. */
  predicate FailsCheck(threads: map<nat, Thread>, stale: bool, ty: ExceptionType, tid: nat, io: FindIo)
    reads Objects(threads)
  {
    || (tid != 0 && Miscounts(stale, io))
    || (ty.OfThread? && (Missing(threads, stale, tid, io) || StartsLate(threads, stale, ty.ty, tid, io)))
  }

  /** What the thread that is looked for is like when it is found. */
  ghost function FoundValue(threads: map<nat, Thread>, stale: bool, tid: nat, io: FindIo): Snapshot
    requires !Missing(threads, stale, tid, io)
    reads Objects(threads)
  {
    if WillRefresh(stale, io) && tid in Ids(io.threads.value) then Created(Opened(io.threads.value)[tid])
    else if !WillRefresh(stale, io) && tid in threads then threads[tid].Value()
    else Created(io.child.value)
  }

  /** The threads of a list with the registers the kernel has for each. */
  function Opened(list: seq<(nat, Regs)>): (r: map<nat, Regs>)
    ensures r.Keys == Ids(list)
  {
    if list == [] then map[]
    else
      var n := |list| - 1;
      IdsOneMore(list);
      Opened(list[..n])[list[n].0 := list[n].1]
  }

  lemma IdsOneMore(list: seq<(nat, Regs)>)
    requires list != []
    ensures Ids(list) == Ids(list[..|list| - 1]) + {list[|list| - 1].0}
  {
    var most, last := list[..|list| - 1], list[|list| - 1];
    assert list == most + [last];
    forall x | x in Ids(list)
      ensures x in Ids(most) + {last.0}
    {
      var i :| 0 <= i < |list| && list[i].0 == x;
      assert i < |most| ==> most[i] == list[i];
    }
    forall x | x in Ids(most)
      ensures x in Ids(list)
    {
      var i :| 0 <= i < |most| && most[i].0 == x;
      assert list[i] == most[i];
    }
    assert list[|most|] == last;
  }

  ghost function ValuesOf(threads: map<nat, Thread>): map<nat, Snapshot>
    reads Objects(threads)
  {
    map k | k in threads :: threads[k].Value()
  }

  predicate Koids(values: map<nat, Snapshot>) {
    forall k :: k in values ==> IsKoid(k)
  }

  /** The thread table after making sure of it: the threads of a list that could be read are all new. */
  function Looked(values: map<nat, Snapshot>, stale: bool, io: FindIo): map<nat, Snapshot> {
    if WillRefresh(stale, io) then map k | k in Opened(io.threads.value) :: Created(Opened(io.threads.value)[k])
    else values
  }

  /** The thread table after one thread has been looked for in it, which is opened if it is not there. */
  function Sought(values: map<nat, Snapshot>, stale: bool, tid: nat, io: FindIo): map<nat, Snapshot> {
    if tid == 0 then values
    else
      var table := Looked(values, stale, io);
      if tid !in table && io.child.Some? then table[tid := Created(io.child.value)] else table
  }

  /** What a thread that is looked for is like stands in the table after the search. */
  lemma FoundIs(threads: map<nat, Thread>, stale: bool, tid: nat, io: FindIo)
    requires tid != 0
    ensures var table := Sought(ValuesOf(threads), stale, tid, io);
            && (Missing(threads, stale, tid, io) <==> tid !in table)
            && (!Missing(threads, stale, tid, io) ==> table[tid] == FoundValue(threads, stale, tid, io))
  {
    hide Opened;
  }

  lemma ValuesAreKoids(threads: map<nat, Thread>)
    requires TableOk(threads)
    ensures Koids(ValuesOf(threads))
  {
  }

  /** Opens a thread for every koid in the list. */
  method OpenThreads(list: seq<(nat, Regs)>) returns (found: map<nat, Thread>)
    requires forall k :: k in Ids(list) ==> IsKoid(k)
    ensures TableOk(found) && found.Keys == Ids(list)
    ensures forall k :: k in found ==> fresh(found[k]) && found[k].Value() == Created(Opened(list)[k])
  {
    hide Ids, Opened, Paired;
    found := map[];
    assert list[..0] == [];
    assert Opened([]) == map[] && Ids([]) == {} by { NothingOpened(); }
    for i := 0 to |list|
      invariant found.Keys == Opened(list[..i]).Keys
      invariant forall k :: k in found ==> IsKoid(k) && found[k].id == k && fresh(found[k])
      invariant forall k :: k in found ==> found[k].Value() == Created(Opened(list[..i])[k])
    {
      OpenedOneMore(list, i);
      var t := new Thread(list[i].0, list[i].1);
      found := found[list[i].0 := t];
    }
    assert list[..|list|] == list;
    assert TableOk(found) by { CreatedIsPaired(); }
  }

  lemma NothingOpened()
    ensures Opened([]) == map[] && Ids([]) == {}
  {
  }

  lemma OpenedOneMore(list: seq<(nat, Regs)>, i: nat)
    requires i < |list|
    ensures Opened(list[..i + 1]) == Opened(list[..i])[list[i].0 := list[i].1]
    ensures list[i].0 in Ids(list)
  {
    assert list[..i + 1][..i] == list[..i];
  }

  /** A thread has the registers that go with its last place in the list. */
  lemma {:induction false} OpenedIs(list: seq<(nat, Regs)>, i: nat)
    requires i < |list| && forall j :: i < j < |list| ==> list[j].0 != list[i].0
    ensures list[i].0 in Opened(list) && Opened(list)[list[i].0] == list[i].1
    decreases |list|
  {
    hide Ids;
    var n := |list| - 1;
    if i < n {
      OpenedIs(list[..n], i);
      assert list[n].0 != list[i].0;
    }
  }

  lemma CreatedIsPaired()
    ensures forall cpu :: Paired(Created(cpu))
  {
  }

  function AfterException(s: Snapshot, kind: Exception, io: RegIo): Snapshot {
    var s1 := Threads.OnException(s, kind, io);
    if kind == ThreadExiting then ResumeForExit(s1) else s1
  }

  /** The thread remembers the exception; it is stopped, or gone if it exits. */
  lemma AfterExceptionIs(s: Snapshot, kind: Exception, io: RegIo)
    ensures var s' := AfterException(s, kind, io);
            && s'.context == Some(kind) && s'.state == (if kind == ThreadExiting then Gone else Stopped)
            && s'.open == (s.open && kind != ThreadExiting)
  {
  }

  /** An exception of one thread, which has got as far as `cpu`; a thread that exits is let go at once. */
  method RaiseIn(threads: map<nat, Thread>, tid: nat, kind: Exception, cpu: Regs, io: RegIo)
    requires TableOk(threads) && tid in threads && threads[tid].state != Gone
    modifies threads[tid]
    ensures TableOk(threads)
    ensures threads[tid].Value() == AfterException(old(threads[tid].Value()).(cpu := cpu), kind, io)
    ensures threads[tid].state == (if kind == ThreadExiting then Gone else Stopped)
    ensures ValuesOf(threads) == old(ValuesOf(threads))[tid := threads[tid].Value()]
  {
    hide Threads.OnException, ResumeForExit;
    var t := threads[tid];
    ExceptionStops(t.Value().(cpu := cpu), kind, io);
    t.cpu := cpu;
    t.Raise(kind, io);
    if kind == ThreadExiting {
      t.DoResumeForExit(true);
    }
    assert forall k :: k in threads && k != tid ==> threads[k] != t;
  }

  /** Resumes one thread. */
  method ResumeIn(threads: map<nat, Thread>, tid: nat, ok: bool) returns (r: bool)
    requires TableOk(threads) && tid in threads
    modifies threads[tid]
    ensures TableOk(threads)
    ensures (r, threads[tid].Value()) == Resume(old(threads[tid].Value()), ok)
    ensures ValuesOf(threads) == old(ValuesOf(threads))[tid := threads[tid].Value()]
  {
    var t := threads[tid];
    r := t.DoResume(ok);
    assert forall k :: k in threads && k != tid ==> threads[k] != t;
  }

  /** Sets the pc of one thread. */
  method SetPcIn(threads: map<nat, Thread>, tid: nat, pc: Word, io: RegIo) returns (r: bool)
    requires TableOk(threads) && tid in threads
    modifies threads[tid]
    ensures TableOk(threads)
    ensures (r, threads[tid].Value()) == SetPc(old(threads[tid].Value()), pc, io)
    ensures ValuesOf(threads) == old(ValuesOf(threads))[tid := threads[tid].Value()]
  {
    var t := threads[tid];
    r := t.ContinueAt(pc, io);
    assert forall k :: k in threads && k != tid ==> threads[k] != t;
  }

  /** Writes the registers of one thread. */
  method PutIn(threads: map<nat, Thread>, tid: nat, regs: Regs, ok: bool) returns (r: bool)
    requires TableOk(threads) && tid in threads
    modifies threads[tid]
    ensures TableOk(threads)
    ensures r == ok && threads[tid].Value() == PutRegisters(old(threads[tid].Value()), regs, ok)
    ensures ValuesOf(threads) == old(ValuesOf(threads))[tid := threads[tid].Value()]
  {
    var t := threads[tid];
    r := t.PutGeneralRegisters(regs, ok);
    assert forall k :: k in threads && k != tid ==> threads[k] != t;
  }

  /** Reads the registers of one thread into its cache. */
  method RefreshIn(threads: map<nat, Thread>, tid: nat, ok: bool) returns (r: bool)
    requires TableOk(threads) && tid in threads
    modifies threads[tid]
    ensures TableOk(threads)
    ensures (r, threads[tid].Value()) == Refresh(old(threads[tid].Value()), ok)
    ensures ValuesOf(threads) == old(ValuesOf(threads))[tid := threads[tid].Value()]
  {
    var t := threads[tid];
    r := t.RefreshGeneralRegisters(ok);
    assert forall k :: k in threads && k != tid ==> threads[k] != t;
  }

  /** The ids of the threads that are not gone, in some order. */
  method LiveIds(threads: map<nat, Thread>) returns (ids: seq<nat>)
    ensures forall k :: k in ids <==> k in threads && threads[k].state != Gone
    ensures forall i, j :: 0 <= i < j < |ids| ==> ids[i] != ids[j]
  {
    ids := [];
    var todo := threads.Keys;
    while todo != {}
      invariant todo <= threads.Keys
      invariant forall k :: k in ids <==> k in threads && k !in todo && threads[k].state != Gone
      invariant forall i, j :: 0 <= i < j < |ids| ==> ids[i] != ids[j]
    {
      var k :| k in todo;
      if threads[k].state != Gone {
        ids := ids + [k];
      }
      todo := todo - {k};
    }
  }

  class Process {
    const port: ExceptionPort
    var argv: seq<string>
    var launchpad: bool                // launchpad_ is set
    var handle: nat                    // handle_; 0 is MX_HANDLE_INVALID
    var state: PState
    var id: nat                        // id_; 0 is MX_KOID_INVALID
    var key: Key                       // eport_key_
    var attachedRunning: bool
    var threads: map<nat, Thread>
    var stale: bool                    // thread_map_stale_
    var miscounted: bool               // the check in RefreshAllThreads has failed
    ghost var starts: nat              // Start calls that succeeded
    ghost var firstThreads: nat        // FirstThread reports made
    ghost var runFailed: bool          // a run was set up but not brought to life, and nothing was cleared since

    ghost function ThreadObjects(): set<object>
      reads this
    {
      Objects(threads)
    }

    /** Every thread object filed now was filed under the same id before, or is new. */
    twostate predicate Kept()
      reads this
    {
      forall k :: k in threads ==> fresh(threads[k]) || (k in old(threads) && threads[k] == old(threads)[k])
    }

    predicate IsAttached()
      reads this
    {
      key != 0
    }

    predicate IsLive()
      reads this
    {
      Live(state)
    }

    /** The facts that hold even in the middle of a command. */
    ghost predicate Consistent()
      reads this, port, ThreadObjects()
    {
      && (handle != 0 <==> key != 0)
      && Sound(port.Value())
      && port.callbacks.Keys == (if key == 0 then {} else {key})
      && (IsLive() ==> IsAttached())
      && (IsAttached() ==> IsKoid(id))
      && id < TWO_64
      && (state == PGone ==> !IsAttached() && id == 0 && !launchpad && !attachedRunning)
      && (threads != map[] ==> IsAttached())
      && (stale ==> IsLive())
      && (launchpad ==> state == PNew && !attachedRunning)
      && TableOk(threads)
      && firstThreads + (if state == PStarting then 1 else 0) <= starts
    }

    /** Between events: a process that is not live is untouched, or left over from a failed run. */
    ghost predicate Valid()
      reads this, port, ThreadObjects()
    {
      && Consistent()
      && (state == PNew ==> (runFailed <==> launchpad || IsAttached()))
      && !(launchpad && IsAttached())
      && (state == PGone ==> !runFailed)
    }

    constructor (port: ExceptionPort)
      requires port.Value() == Port(port.counter, map[]) && Sound(port.Value())
      ensures Valid() && this.port == port && state == PNew && !runFailed && threads == map[] && !miscounted
      ensures starts == firstThreads == 0
    {
      this.port := port;
      argv := [];
      launchpad, handle, state, id, key, attachedRunning := false, 0, PNew, 0, 0, false;
      threads, stale, miscounted := map[], false, false;
      starts, firstThreads, runFailed := 0, 0, false;
    }

    method SetState(next: PState)
      requires AllowedEdge(state, next)
      modifies this`state
      ensures state == next
    {
      state := next;
    }

    /** Sets a program up; the first line holds the three checks on entry. */
    method Initialize(io: LaunchIo) returns (setup: Setup)
      requires !launchpad && handle == 0 && key == 0
      requires Consistent() && !IsLive()
      requires io.pid.Some? ==> IsKoid(io.pid.value)
      modifies this`state, this`attachedRunning, this`launchpad, this`id, this`runFailed
      ensures Consistent() && state == PNew && !attachedRunning
      ensures setup == SetupOf(argv, io) && launchpad == (setup != NotReady)
      ensures setup == Ready <==> argv != [] && argv[0] != "" && io.setUp && io.load && io.pid.Some? && io.addresses
      ensures setup == NoKoid <==> argv != [] && argv[0] != "" && io.setUp && io.load && io.pid.None?
      ensures setup == Ready ==> Some(id) == io.pid
      ensures setup == NotReady ==> id == if argv != [] && argv[0] != "" && io.setUp then 0 else old(id)
      ensures runFailed == (old(runFailed) || setup == NoKoid)
    {
      if state == PGone {
        SetState(PNew);
      }
      attachedRunning := false;
      if argv == [] || argv[0] == "" {
        return NotReady;
      }
      if !io.setUp {
        return NotReady;
      }
      launchpad := true;
      if io.load {
        if io.pid.None? {
          id := 0;
          runFailed := true;
          return NoKoid;
        }
        id := io.pid.value;
        if io.addresses {
          return Ready;
        }
      }
      id := 0;
      launchpad := false;
      return NotReady;
    }

    /** Prepares to attach to a running program. */
    method InitializeRunning(pid: nat)
      requires !launchpad && handle == 0 && key == 0 && pid < TWO_64
      requires Consistent() && !IsLive()
      modifies this`state, this`attachedRunning, this`id
      ensures Consistent() && state == PNew && attachedRunning && id == pid
    {
      if state == PGone {
        SetState(PNew);
      }
      attachedRunning := true;
      id := pid;
    }

    method AllocDebugHandle(ok: bool) returns (r: bool)
      requires handle == 0
      modifies this`handle
      ensures r == ok && (handle != 0 <==> ok)
    {
      if ok {
        handle := 1;
      }
      return ok;
    }

    method CloseDebugHandle()
      modifies this`handle
      ensures handle == 0
    {
      handle := 0;
    }

    /** The kernel hands out handles to real processes only. */
    method Attach(handleOk: bool, bindOk: bool) returns (ok: bool)
      requires Consistent() && state == PNew
      requires handleOk ==> IsKoid(id)
      modifies this`handle, this`key, this`state, this`stale, this`runFailed, port
      ensures Consistent()
      ensures runFailed == (old(runFailed) || (!ok && launchpad))
      ensures ok <==> old(key) == 0 && handleOk && bindOk && NextKey(old(port.counter)) != 0
      ensures ok ==> key != 0 && handle != 0 && state == (if attachedRunning then PRunning else PNew)
      ensures ok ==> stale == (old(stale) || attachedRunning)
      ensures ok ==> key == NextKey(old(port.counter)) == port.counter
      ensures !ok ==> port.counter == old(port.counter)
      ensures !ok ==> key == old(key) && state == PNew && stale == old(stale)
    {
      if IsAttached() {
        runFailed := runFailed || launchpad;
        return false;
      }
      var got := AllocDebugHandle(handleOk);
      if !got {
        runFailed := runFailed || launchpad;
        return false;
      }
      var k := port.DoBind(BindData(handle, 0), bindOk);
      if k == 0 {
        CloseDebugHandle();
        runFailed := runFailed || launchpad;
        return false;
      }
      key := k;
      if attachedRunning {
        SetState(PRunning);
        stale := true;
      }
      return true;
    }

    method UnbindExceptionPort()
      requires key != 0 && Sound(port.Value()) && key in port.callbacks
      modifies this`key, port`callbacks
      ensures key == 0 && port.callbacks == old(port.callbacks) - {old(key)} && Sound(port.Value())
    {
      var found := port.DoUnbind(key);
      key := 0;
    }

    /** The two checks on entry are the first precondition. */
    method RawDetach()
      requires handle != 0 && key != 0
      requires Sound(port.Value()) && port.callbacks.Keys == {key}
      modifies this`key, this`handle, port`callbacks
      ensures key == 0 && handle == 0 && port.callbacks == map[] && Sound(port.Value())
    {
      UnbindExceptionPort();
      CloseDebugHandle();
    }

    /** The process must already be fully detached from. */
    method Clear()
      requires handle == 0 && key == 0
      modifies this
      ensures state == PGone && threads == map[] && !stale && id == 0 && !attachedRunning && !launchpad
      ensures handle == 0 && key == 0 && !runFailed && miscounted == old(miscounted) && argv == old(argv)
      ensures starts == old(starts) && firstThreads == old(firstThreads)
    {
      threads, stale, id, attachedRunning, launchpad := map[], false, 0, false, false;
      runFailed := false;
      SetState(PGone);
    }

    method Detach() returns (ok: bool)
      requires Consistent()
      modifies this, port
      ensures ok == old(IsAttached())
      ensures ok ==> Valid() && state == PGone
      ensures !ok ==> Consistent() && state == old(state)
      ensures starts == old(starts) && firstThreads == old(firstThreads) && miscounted == old(miscounted)
      ensures argv == old(argv) && port.counter == old(port.counter)
    {
      if !IsAttached() {
        return false;
      }
      RawDetach();
      Clear();
      return true;
    }

    /** The checks on entry: a launchpad and a handle. */
    method Start(startOk: bool) returns (ok: bool)
      requires launchpad && handle != 0
      requires Consistent()
      modifies this`launchpad, this`state, this`starts, this`runFailed
      ensures Consistent() && !launchpad
      ensures runFailed == (old(runFailed) || !ok)
      ensures ok == startOk && state == (if ok then PStarting else PNew)
      ensures starts == old(starts) + (if ok then 1 else 0)
    {
      launchpad := false;
      if !startOk {
        runFailed := true;
        return false;
      }
      SetState(PStarting);
      starts := starts + 1;
      return true;
    }

    method Kill(killOk: bool) returns (ok: bool)
      requires Valid()
      modifies this, port
      ensures Valid()
      ensures ok <==> !old(IsLive()) || killOk
      ensures state == if old(IsLive()) && killOk then PGone else old(state)
      ensures !(old(IsLive()) && killOk) ==> key == old(key) && threads == old(threads) && runFailed == old(runFailed)
      ensures starts == old(starts) && firstThreads == old(firstThreads) && miscounted == old(miscounted)
      ensures argv == old(argv) && port.counter == old(port.counter)
      ensures !(old(IsLive()) && killOk) ==>
                id == old(id) && stale == old(stale) && launchpad == old(launchpad)
    {
      if state == PNew || state == PGone {
        return true;
      }
      assert handle != 0;
      if !killOk {
        return false;
      }
      UnbindExceptionPort();
      CloseDebugHandle();
      Clear();
      return true;
    }

    method SetArgv(argv: seq<string>)
      modifies this`argv
      ensures this.argv == argv
    {
      this.argv := argv;
    }

    /** The old thread objects are dropped, whatever state they were in, unless the check on the counts fails. */
    method RefreshAllThreads(io: FindIo) returns (ok: bool)
      requires handle != 0 && Consistent() && KernelIds(0, io)
      modifies this`threads, this`stale, this`miscounted
      ensures Consistent() && ok == io.threads.Some? && stale == (old(stale) && !ok)
      ensures ok ==> threads.Keys == Ids(io.threads.value)
      ensures ok ==> forall k :: k in threads ==>
                                   fresh(threads[k]) && threads[k].Value() == Created(Opened(io.threads.value)[k])
      ensures !ok ==> threads == old(threads)
      ensures miscounted == (old(miscounted) || (io.threads.None? && io.miscounted))
      ensures Kept()
    {
      if io.threads.None? {
        miscounted := miscounted || io.miscounted;
        return false;
      }
      threads := OpenThreads(io.threads.value);
      stale := false;
      return true;
    }

    method EnsureThreadMapFresh(io: FindIo)
      requires Consistent() && KernelIds(0, io)
      modifies this`threads, this`stale, this`miscounted
      ensures Consistent() && stale == (old(stale) && io.threads.None?)
      ensures WillRefresh(old(stale), io) ==> threads.Keys == Ids(io.threads.value)
      ensures WillRefresh(old(stale), io) ==>
                forall k :: k in threads ==>
                              fresh(threads[k]) && threads[k].Value() == Created(Opened(io.threads.value)[k])
      ensures !WillRefresh(old(stale), io) ==> threads == old(threads)
      ensures miscounted == (old(miscounted) || Miscounts(old(stale), io))
      ensures miscounted == (old(miscounted) || (old(stale) && io.threads.None? && io.miscounted))
      ensures old(stale) && io.threads.Some? ==> threads.Keys == Ids(io.threads.value)
      ensures ValuesOf(threads) == Looked(old(ValuesOf(threads)), old(stale), io)
      ensures Kept()
    {
      hide Opened, Ids, Paired, Created;
      if stale {
        var ok := RefreshAllThreads(io);
      }
    }

    /** Any thread, whatever its state. */
    method PickOneThread(io: FindIo) returns (t: Thread?)
      requires Consistent() && KernelIds(0, io)
      modifies this`threads, this`stale, this`miscounted
      ensures Consistent()
      ensures !WillRefresh(old(stale), io) ==> threads == old(threads)
      ensures WillRefresh(old(stale), io) ==> threads.Keys == Ids(io.threads.value)
      ensures WillRefresh(old(stale), io) ==>
                forall k :: k in threads ==>
                              fresh(threads[k]) && threads[k].Value() == Created(Opened(io.threads.value)[k])
      ensures Kept() && stale == (old(stale) && io.threads.None?)
      ensures miscounted == (old(miscounted) || Miscounts(old(stale), io))
      ensures ValuesOf(threads) == Looked(old(ValuesOf(threads)), old(stale), io)
      ensures t == null <==> threads == map[]
      ensures t != null ==> t.id in threads && threads[t.id] == t
    {
      hide Looked, Opened, Ids, Paired;
      EnsureThreadMapFresh(io);
      if threads == map[] {
        return null;
      }
      assert threads.Keys != {};
      var k :| k in threads.Keys;
      return threads[k];
    }

    /** Files a new thread under its id. */
    method OpenThread(tid: nat, cpu: Regs) returns (t: Thread)
      requires handle != 0 && Consistent() && IsKoid(tid) && tid !in threads
      modifies this`threads
      ensures Consistent() && fresh(t) && t.Value() == Created(cpu) && threads == old(threads)[tid := t]
      ensures ValuesOf(threads) == old(ValuesOf(threads))[tid := Created(cpu)]
    {
      hide Sound;
      t := new Thread(tid, cpu);
      assert Paired(t.Value()) by { CreatedIsPaired(); }
      threads := threads[tid := t];
    }

    method FindThreadById(tid: nat, io: FindIo) returns (t: Thread?)
      requires handle != 0 && Consistent() && KernelIds(tid, io)
      modifies this`threads, this`stale, this`miscounted
      ensures Consistent() && stale == (old(stale) && (tid == 0 || io.threads.None?))
      ensures miscounted == (old(miscounted) || (tid != 0 && Miscounts(old(stale), io)))
      ensures t != null && t !in old(ThreadObjects()) ==> fresh(t) && t.state == New
      ensures tid == 0 || !WillRefresh(old(stale), io) ==>
                threads == old(threads) || (t != null && tid !in old(threads) && threads == old(threads)[tid := t])
      ensures tid != 0 && WillRefresh(old(stale), io) ==>
                && Ids(io.threads.value) <= threads.Keys
                && forall k :: k in threads ==> fresh(threads[k]) && threads[k].state == New
      ensures t == null <==> tid == 0 || tid !in threads || threads[tid].state == Gone
      ensures t != null ==> t == threads[tid] && t.id == tid
      ensures tid != 0 && tid !in threads ==> io.child.None?
      ensures tid != 0 && tid !in threads <==> tid != 0 && old(Missing(threads, stale, tid, io))
      ensures t != null ==>
                !old(Missing(threads, stale, tid, io)) && t.Value() == old(FoundValue(threads, stale, tid, io))
      ensures ValuesOf(threads) == Sought(old(ValuesOf(threads)), old(stale), tid, io)
      ensures Kept()
    {
      hide Ids, Opened, Paired, Sound, Missing, FoundValue;
      if tid != 0 {
        FoundIs(threads, stale, tid, io);
      }
      if tid == 0 {
        return null;
      }
      EnsureThreadMapFresh(io);
      if tid in threads {
        return if threads[tid].state == Gone then null else threads[tid];
      }
      if io.child.None? {
        return null;
      }
      t := OpenThread(tid, io.child.value);
    }

    /**
     * The exception handler. What its delegate does to the process and its threads
     * happens here as well: the first thread ends the starting phase, a thread that
     * exits is let go. What the delegate sends is returned as a report. Besides the
     * one on the thread list, two checks on the thread can fail: that there is one,
     * and that one that starts is new in the thread map, since it may have been
     * listed and resumed while its exception was waiting to be dispatched.
     */
    method OnException(ty: ExceptionType, tid: nat, io: FindIo, cpu: Regs, regIo: RegIo) returns (report: Report)
      requires Valid() && IsAttached() && KernelIds(tid, io) && !miscounted
      requires ty.OfThread? ==> HonestKernel(state, threads, stale, ty.ty, tid, io)
      modifies this, port, ThreadObjects()
      ensures Valid() && Kept()
      ensures starts == old(starts)
      ensures firstThreads == old(firstThreads) + (if report.FirstThread? then 1 else 0)
      ensures report == ReportOf(ty, tid, old(state), old(FailsCheck(threads, stale, ty, tid, io)))
      ensures miscounted ==> report.CheckFailed?
      ensures state == match report
                       case FirstThread(_) => PRunning
                       case ExitedProcess => PGone
                       case _ => old(state)
      ensures ty.OfThread? ==> id == old(id)
      ensures ty.OfThread? && !report.CheckFailed? ==>
                && tid in threads && tid < TWO_64 && !old(Missing(threads, stale, tid, io))
                && threads[tid].Value() ==
                   AfterException(old(FoundValue(threads, stale, tid, io)).(cpu := cpu), ty.ty, regIo)
      ensures ty.OfThread? && !report.CheckFailed? ==>
                ValuesOf(threads) == Sought(old(ValuesOf(threads)), old(stale), tid, io)[tid := threads[tid].Value()]
    {
      hide KernelIds, HonestKernel, Missing, FoundValue, AfterException, ValuesOf, Sought, TableOk, Sound;
      match ty {
        case ProcessGone => report := OnProcessGone(tid, io);
        case Unrecognised =>
          var t := FindThreadById(tid, io);
          return if miscounted then CheckFailed else Ignored;
        case OfThread(kind) =>
          report := OnThreadException(kind, tid, io, cpu, regIo);
      }
    }

    /** The process has exited: nothing of it is left. */
    method OnProcessGone(tid: nat, io: FindIo) returns (report: Report)
      requires Valid() && IsAttached() && KernelIds(tid, io) && !miscounted
      modifies this, port, ThreadObjects()
      ensures Valid() && Kept() && starts == old(starts) && firstThreads == old(firstThreads)
      ensures report == if tid != 0 && old(Miscounts(stale, io)) then CheckFailed else ExitedProcess
      ensures miscounted ==> report.CheckFailed?
      ensures state == if report.CheckFailed? then old(state) else PGone
    {
      hide KernelIds, Looked, Sought, ValuesOf, Paired;
      var t := FindThreadById(tid, io);
      if miscounted {
        return CheckFailed;
      }
      SetState(PGone);
      RawDetach();
      Clear();
      return ExitedProcess;
    }

    /** Finds the thread an exception is about and tells it, unless a check fails. */
    method RaiseThread(kind: Exception, tid: nat, io: FindIo, cpu: Regs, regIo: RegIo) returns (ok: bool)
      requires Consistent() && IsAttached() && KernelIds(tid, io) && !miscounted
      requires HonestKernel(state, threads, stale, kind, tid, io)
      modifies this`threads, this`stale, this`miscounted, ThreadObjects()
      ensures Consistent() && Kept()
      ensures ok <==> !old(FailsCheck(threads, stale, OfThread(kind), tid, io))
      ensures miscounted ==> !ok
      ensures ok ==>
                && tid in threads && !old(Missing(threads, stale, tid, io))
                && threads[tid].Value() ==
                   AfterException(old(FoundValue(threads, stale, tid, io)).(cpu := cpu), kind, regIo)
                && ValuesOf(threads) == Sought(old(ValuesOf(threads)), old(stale), tid, io)[tid := threads[tid].Value()]
    {
      hide Ids, Opened, AfterException, TableOk, Sound, Looked, Sought, Created;
      var t := FindThreadById(tid, io);
      if miscounted || t == null {
        return false;
      }
      if kind == ThreadStarting && t.state != New {
        return false;
      }
      RaiseIn(threads, tid, kind, cpu, regIo);
      return true;
    }

    method OnThreadException(kind: Exception, tid: nat, io: FindIo, cpu: Regs, regIo: RegIo) returns (report: Report)
      requires Valid() && IsAttached() && KernelIds(tid, io) && !miscounted
      requires HonestKernel(state, threads, stale, kind, tid, io)
      modifies this`threads, this`stale, this`miscounted, this`state, this`firstThreads, ThreadObjects()
      ensures Valid() && Kept()
      ensures report ==
              ReportOf(OfThread(kind), tid, old(state), old(FailsCheck(threads, stale, OfThread(kind), tid, io)))
      ensures miscounted ==> report.CheckFailed?
      ensures firstThreads == old(firstThreads) + (if report.FirstThread? then 1 else 0)
      ensures state == if report.FirstThread? then PRunning else old(state)
      ensures !report.CheckFailed? ==>
                && tid in threads && tid < TWO_64 && !old(Missing(threads, stale, tid, io))
                && threads[tid].Value() ==
                   AfterException(old(FoundValue(threads, stale, tid, io)).(cpu := cpu), kind, regIo)
                && ValuesOf(threads) == Sought(old(ValuesOf(threads)), old(stale), tid, io)[tid := threads[tid].Value()]
    {
      hide HonestKernel, KernelIds, Missing, FailsCheck, FoundValue, AfterException, Paired, Sound, Sought, ValuesOf;
      assert kind == ThreadStarting ==> state == PStarting || state == PRunning by {
        StartsOnlyWhenLive(kind, tid, io);
      }
      var ok := RaiseThread(kind, tid, io, cpu, regIo);
      if !ok {
        return CheckFailed;
      }
      match kind {
        case Architectural =>
          return StoppedThread(tid);
        case ThreadExiting =>
          return ExitedThread(tid);
        case ThreadStarting =>
          if state == PStarting {
            MarkRunning();
            return FirstThread(tid);
          }
          return StartedThread(tid);
      }
    }

    /** The first thread of a program has started. */
    method MarkRunning()
      requires Valid() && state == PStarting
      modifies this`state, this`firstThreads
      ensures Valid() && state == PRunning && firstThreads == old(firstThreads) + 1
      ensures ValuesOf(threads) == old(ValuesOf(threads))
    {
      hide Paired, Sound;
      SetState(PRunning);
      firstThreads := firstThreads + 1;
    }

    lemma StartsOnlyWhenLive(kind: Exception, tid: nat, io: FindIo)
      requires HonestKernel(state, threads, stale, kind, tid, io)
      ensures kind == ThreadStarting ==> state == PStarting || state == PRunning
    {
    }
  }
}
