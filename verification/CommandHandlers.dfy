/**
 * The command handler (bin/debugserver/cmd-handler.cc) on top of the inferior.
 * What the kernel, the launchpad and the memory of the inferior answer is in an Io
 * value. A debug check of a handler that a peer can make fail is an outcome, and each
 * handler says exactly when it happens; its other checks are assertions or
 * preconditions that are discharged.
 */
module CommandHandlers {
  import opened Prelude
  import opened CommandChecks
  import opened CommandRules
  import Hex
  import ThreadIds
  import PacketCodec
  import CommandText
  import StopReply
  import Q = QueryTexts
  import RegisterTexts
  import R = RegisterBlocks
  import T = Threads
  import E = ExceptionPorts
  import A = ThreadActions
  import P = Processes
  import C = Continuation

  lemma AskedIsHonest(io: P.FindIo, tid: nat)
    requires P.KernelIds(0, io)
    ensures P.KernelIds(tid, Asked(io, tid))
  {
  }

  /** Everything a run needs: a program, and each request granted. */
  predicate CanLaunch(argv: seq<string>, counter: E.Key, io: Io) {
    && P.SetupOf(argv, io.launch) == P.Ready
    && io.handle && io.bind && E.NextKey(counter) != 0 && io.start
  }

  class CommandHandler {
    const process: P.Process           // the one inferior
    var current: T.Thread?             // current_thread_, a weak pointer
    var inThreadInfoSequence: bool
    ghost var writes: seq<(nat, seq<Byte>)>   // what M packets wrote to memory, and where

    constructor (process: P.Process)
      ensures this.process == process && current == null && !inThreadInfoSequence && writes == []
    {
      this.process := process;
      current, inThreadInfoSequence, writes := null, false, [];
    }

    method SetCurrentThread(t: T.Thread?)
      modifies this`current
      ensures current == t && (old(process.Valid()) ==> process.Valid())
    {
      current := t;
    }

    /** current_thread(): the weak pointer resolves while its thread is in the map. */
    function CurrentThread(): (t: T.Thread?)
      reads this, process
      ensures t != null ==> t.id in process.threads && process.threads[t.id] == t
    {
      if current != null && current.id in process.threads && process.threads[current.id] == current then current else null
    }

    ghost function Sees(): View
      reads this, process, process.port, process.ThreadObjects()
    {
      View(process.state, process.key, process.port.counter, process.launchpad, process.argv, process.id, process.stale,
           P.ValuesOf(process.threads), if CurrentThread() == null then None else Some(CurrentThread().id),
           inThreadInfoSequence, writes)
    }

    lemma Shows()
      ensures var v := Sees();
              && v.state == process.state && v.key == process.key && v.id == process.id && v.stale == process.stale
              && v.launchpad == process.launchpad && v.argv == process.argv && v.counter == process.port.counter
              && v.values == P.ValuesOf(process.threads) && v.listing == inThreadInfoSequence && v.writes == writes
              && v.current == if CurrentThread() == null then None else Some(CurrentThread().id)
    {
    }

    /** No thread but the current one has changed. */
    twostate predicate OthersUnchanged()
      requires process.threads == old(process.threads)
      reads this, process, process.ThreadObjects()
    {
      forall k :: k in process.threads && process.threads[k] != CurrentThread() ==>
                    process.threads[k].Value() == old(process.threads[k].Value())
    }

    /**
     * Continuing with no current thread is meant to start a program that is set up
     * but not started. No such program exists between commands, so a check fails:
     * that the process is not live, or in Start that there is a launchpad.
     */
    method Handle_c(packet: string, io: Io) returns (r: Outcome)
      requires process.Valid()
      modifies process.ThreadObjects()
      ensures process.Valid() && (r.Replied? || r.Tripped?) && Short(r)
      ensures r.Tripped? <==>
              && process.IsAttached() && CurrentThread() == null
              && (packet == "" || (CommandText.ParseUint64(packet).Some? && process.IsLive()))
      ensures !process.IsAttached() ==> r == PERM
      ensures process.IsAttached() && packet != "" && CommandText.ParseUint64(packet).None? ==> r == INVAL
      ensures var t, pc := CurrentThread(), CommandText.ParseUint64(packet);
              t != null && process.IsAttached() && (packet == "" || pc.Some?) ==>
                (r, t.Value()) == var (ok, s) := Continued(old(t.Value()), pc, io); (if ok then OK else PERM, s)
      ensures OthersUnchanged()
      ensures !r.Tripped? ==> ContinueRule(old(Sees()), packet, io, r, Sees())
    {
      hide Continued, WithCurrent, Sees, CommandText.ParseUint64, T.Paired, E.Sound;
      Shows();
      if !process.IsAttached() {
        return PERM;
      }
      var t := CurrentThread();
      var address := CommandText.ParseUint64(packet);
      if packet != "" {
        if address.None? {
          return INVAL;
        }
        if t == null {
          return if process.IsLive() then Tripped else PERM;
        }
      }
      if t != null {
        var continued := ContinueCurrent(t, address, io);
        return if continued then OK else PERM;
      }
      assert process.IsLive() || !process.launchpad;
      return Tripped;
    }

    method ContinueCurrent(t: T.Thread, address: Option<nat>, io: Io) returns (ok: bool)
      requires process.Valid() && CurrentThread() == t && (address.Some? ==> address.value < TWO_64)
      modifies process.ThreadObjects()
      ensures process.Valid() && (ok, t.Value()) == Continued(old(t.Value()), address, io) && OthersUnchanged()
      ensures Sees() == WithCurrent(old(Sees()), t.Value())
    {
      hide Continued, T.Paired, E.Sound;
      ok := ContinueThread(t, address, io);
      assert forall k :: k in process.threads ==> P.ValuesOf(process.threads)[k] == process.threads[k].Value();
    }

    /** Sets the pc of a thread if there is an address, and resumes it. */
    method ContinueThread(t: T.Thread, address: Option<nat>, io: Io) returns (ok: bool)
      requires process.Valid() && t.id in process.threads && process.threads[t.id] == t
      requires address.Some? ==> address.value < TWO_64
      modifies process.ThreadObjects()
      ensures process.Valid() && (ok, t.Value()) == Continued(old(t.Value()), address, io)
      ensures P.ValuesOf(process.threads) == old(P.ValuesOf(process.threads))[t.id := t.Value()]
    {
      hide T.SetPc, T.Resume, P.TableOk, P.ValuesOf, E.Sound;
      if address.Some? {
        var moved := P.SetPcIn(process.threads, t.id, address.value, io.regs);
        if !moved {
          return false;
        }
      }
      ok := P.ResumeIn(process.threads, t.id, io.resume);
    }

    /** An address keeps the semicolon before it, so C never accepts one. */
    method Handle_C(packet: string, io: Io) returns (r: Outcome)
      requires process.Valid()
      modifies process.ThreadObjects()
      ensures process.Valid() && r.Replied? && Short(r)
      ensures r == OK <==>
              var t, n := CurrentThread(), ThreadIds.ParseInt64(packet);
              && process.IsAttached() && t != null && ';' !in packet
              && n.Some? && old(t.context.Some?) && io.signal.Some? && io.signal.value == n.value
              && T.Resume(old(t.Value()), io.resume).0
      ensures r == OK ==> CurrentThread().Value() == T.Resume(old(CurrentThread().Value()), io.resume).1
      ensures r != OK && CurrentThread() != null ==> CurrentThread().Value() == old(CurrentThread().Value())
      ensures OthersUnchanged()
      ensures SignalRule(old(Sees()), packet, io, r, Sees())
    {
      hide ThreadIds.ParseInt64, T.Paired, E.Sound;
      if !process.IsAttached() {
        return PERM;
      }
      var t := CurrentThread();
      if t == null {
        return PERM;
      }
      var semicolon := Find(packet, ';', 0);
      assert semicolon == |packet| ==> packet[..semicolon] == packet;
      var number := ThreadIds.ParseInt64(packet[..semicolon]);
      if number.None? || !(-TWO_31 <= number.value < TWO_31) {
        return INVAL;
      }
      if t.context.None? || io.signal.None? || io.signal.value != number.value {
        return PERM;
      }
      if semicolon < |packet| {
        assert !Hex.IsHex(packet[semicolon..]) by {
          assert packet[semicolon..][0] == ';';
        }
        return INVAL;
      }
      var resumed := P.ResumeIn(process.threads, t.id, io.resume);
      return if resumed then OK else PERM;
    }

    method Handle_D(packet: string) returns (r: Outcome)
      requires process.Valid()
      modifies process, process.port
      ensures process.Valid() && process.Kept() && r.Replied? && Short(r)
      ensures r == OK <==>
              && old(process.IsAttached())
              && (packet == "" || (packet[0] == ';' && CommandText.ParseUint64(packet[1..]) == Some(old(process.id))))
      ensures r == OK ==> process.state == P.PGone && !process.IsAttached()
      ensures r != OK ==> process.state == old(process.state) && process.threads == old(process.threads)
      ensures process.starts == old(process.starts) && process.firstThreads == old(process.firstThreads)
      ensures process.miscounted == old(process.miscounted)
      ensures DetachRule(old(Sees()), packet, r, Sees())
    {
      if packet != "" {
        var pid := if packet[0] == ';' then CommandText.ParseUint64(packet[1..]) else None;
        if pid != Some(process.id) {
          return INVAL;
        }
      }
      if !process.IsAttached() {
        return NOENT;
      }
      var detached := process.Detach();
      return OK;
    }

    /** The registers as they are cached: no look at the kernel, and zeros for no thread. */
    method Handle_g() returns (r: Outcome)
      requires process.Valid()
      ensures process.Valid()
      ensures r == if !process.IsAttached() then NOENT
                   else Replied(if CurrentThread() == null then RegisterTexts.NoThreadText()
                                else RegisterTexts.BlockText(CurrentThread().gregs))
      ensures Short(r)
      ensures ShowRule(old(Sees()), r, Sees())
    {
      hide T.Paired, E.Sound;
      if !process.IsAttached() {
        return NOENT;
      }
      var t := CurrentThread();
      var result := if t == null then RegisterTexts.NoThreadText() else RegisterTexts.BlockText(t.gregs);
      assert result != "";
      return Replied(result);
    }

    method Handle_G(packet: string, io: Io) returns (r: Outcome)
      requires process.Valid()
      modifies process.ThreadObjects()
      ensures process.Valid() && r.Replied? && Short(r)
      ensures r == OK <==>
              process.IsAttached() && CurrentThread() != null && RegisterTexts.BlockOf(packet).Some? && io.regs.write
      ensures process.IsAttached() && CurrentThread() != null && RegisterTexts.BlockOf(packet).Some? ==>
                CurrentThread().Value() ==
                T.PutRegisters(old(CurrentThread().Value()), RegisterTexts.BlockOf(packet).value, io.regs.write)
      ensures !(process.IsAttached() && CurrentThread() != null) ==> r == NOENT
      ensures CurrentThread() != null && RegisterTexts.BlockOf(packet).None? ==>
                CurrentThread().Value() == old(CurrentThread().Value())
      ensures OthersUnchanged()
      ensures PutRule(old(Sees()), packet, io, r, Sees())
    {
      hide RegisterTexts.BlockOf, T.Paired, E.Sound;
      if !process.IsAttached() {
        return NOENT;
      }
      var t := CurrentThread();
      if t == null {
        return NOENT;
      }
      var block := RegisterTexts.BlockOf(packet);
      if block.None? {
        return PERM;
      }
      var written := P.PutIn(process.threads, t.id, block.value, io.regs.write);
      return if written then OK else PERM;
    }

    /** There is a thread to choose: any at all for 0, that one if it has not exited for another number. */
    predicate HasThread(tid: nat)
      reads process, process.ThreadObjects()
    {
      if tid == 0 then process.threads != map[] else tid in process.threads && process.threads[tid].state != T.Gone
    }

    /** A live process ends up with the thread asked for, if there is one, a process that is not live with none. */
    method Handle_H(packet: string, io: Io) returns (r: Outcome)
      requires process.Valid() && Honest(io) && !process.miscounted
      modifies this`current, process`threads, process`stale, process`miscounted
      ensures process.Valid() && process.Kept() && !r.Deferred? && Short(r)
      ensures (r.Tripped? <==> ChoosingTrips(old(Sees()), packet, io)) && (process.miscounted ==> r.Tripped?)
      ensures |packet| < 2 ==> r == INVAL
      ensures |packet| > 1 && packet[0] !in "cg" ==> r.Unsupported?
      ensures |packet| > 1 && packet[0] in "cg" ==>
                var id := ThreadIds.ThreadIdOf(packet[1..]);
                && (r.Unsupported? <==> id.Some? && id.value.hasPid)
                && (r == INVAL <==> id.None? || (!id.value.hasPid && id.value.tid < 0))
                && (r.Replied? && r != INVAL ==>
                      && r == (if process.IsLive() && !HasThread(id.value.tid) then PERM else OK)
                      && (id.value.tid != 0 && ListsIt(id.value.tid, old(process.stale), io.find) ==> r == OK))
      ensures r == OK ==> |packet| > 1 && ThreadIds.ThreadIdOf(packet[1..]).Some?
      ensures r == OK && process.IsLive() ==>
              var tid := ThreadIds.ThreadIdOf(packet[1..]).value.tid;
              && CurrentThread() != null
              && (tid != 0 ==> CurrentThread().id == tid && CurrentThread().state != T.Gone)
              && (tid != 0 && ListsIt(tid, old(process.stale), io.find) ==>
                    CurrentThread().state == T.New && !process.stale)
      ensures r == OK && !process.IsLive() ==> CurrentThread() == null
      ensures r != OK ==> current == old(current)
      ensures !r.Tripped? ==> ChooseRule(old(Sees()), packet, io, r, Sees())
    {
      hide ChosenRule, ThreadIds.ThreadIdOf, P.KernelIds, HasThread, ListsIt, Sees, P.Process.Consistent;
      Shows();
      if |packet| < 2 {
        return INVAL;
      }
      if packet[0] != 'c' && packet[0] != 'g' {
        return Unsupported;
      }
      var id := ReadThreadId(packet[1..]);
      if id.None? {
        return INVAL;
      }
      if id.value.hasPid {
        return Unsupported;
      }
      var tid := id.value.tid;
      if tid < 0 {
        return INVAL;
      }
      r := Choose(tid, io);
    }

    method ReadThreadId(text: string) returns (id: Option<ThreadIds.ThreadId>)
      requires process.Valid()
      ensures id == ThreadIds.ThreadIdOf(text) && process.Valid() && Sees() == old(Sees())
    {
      hide ThreadIds.ThreadIdOf, T.Paired, E.Sound;
      id := ThreadIds.ParseThreadId(text);
    }

    /** SetCurrentThread with a thread that is filed, or with none. */
    method MakeCurrent(t: T.Thread?)
      requires process.Valid() && (t != null ==> t.id in process.threads && process.threads[t.id] == t)
      modifies this`current
      ensures process.Valid() && current == t == CurrentThread()
      ensures Sees() == old(Sees()).(current := if t == null then None else Some(t.id))
    {
      hide T.Paired, E.Sound;
      SetCurrentThread(t);
    }

    method Choose(tid: nat, io: Io) returns (r: Outcome)
      requires process.Valid() && Honest(io) && !process.miscounted
      modifies this`current, process`threads, process`stale, process`miscounted
      ensures process.Valid() && process.Kept() && (process.miscounted ==> r.Tripped?)
      ensures r.Tripped? <==> process.IsLive() && MiscountsTwice(old(process.stale), io.find, io.again)
      ensures r.Tripped? <==>
              && process.IsLive() && old(process.stale) && io.find.threads.None?
              && (io.find.miscounted || (io.again.threads.None? && io.again.miscounted))
      ensures !r.Tripped? ==> r == if process.IsLive() && !HasThread(tid) then PERM else OK
      ensures tid != 0 && ListsIt(tid, old(process.stale), io.find) ==> r == OK
      ensures r == OK && process.IsLive() ==>
              && CurrentThread() != null
              && (tid != 0 ==> CurrentThread().id == tid && CurrentThread().state != T.Gone)
              && (tid != 0 && ListsIt(tid, old(process.stale), io.find) ==>
                    CurrentThread().state == T.New && !process.stale)
      ensures r == OK && !process.IsLive() ==> CurrentThread() == null
      ensures r != OK ==> current == old(current)
      ensures !r.Tripped? ==>
                if process.IsLive() then ChosenRule(old(Sees()), tid, io, r, Sees())
                else r == OK && Sees() == old(Sees()).(current := None)
    {
      hide P.KernelIds, P.Ids, Sees, LookedAt, SoughtIn, P.TableOk, E.Sound;
      if !process.IsLive() {
        MakeCurrent(null);
        return OK;
      }
      var t := SelectThread(tid, io.find, io.again);
      if process.miscounted {
        return Tripped;
      }
      Shows();
      if t == null {
        return PERM;
      }
      assert t.id in Sees().values;
      MakeCurrent(t);
      Shows();
      return OK;
    }

    /** A stale list will be read, and the thread is on it. */
    static predicate ListsIt(tid: nat, stale: bool, io: P.FindIo) {
      P.WillRefresh(stale, io) && tid in P.Ids(io.threads.value)
    }

    method SelectThread(tid: nat, first: P.FindIo, io: P.FindIo) returns (t: T.Thread?)
      requires process.Consistent() && process.IsAttached() && P.KernelIds(0, first) && P.KernelIds(0, io)
      modifies process`threads, process`stale, process`miscounted
      ensures process.Consistent() && process.Kept()
      ensures t == null <==> !HasThread(tid)
      ensures process.miscounted == (old(process.miscounted) || MiscountsTwice(old(process.stale), first, io))
      ensures t != null ==> t.id in process.threads && process.threads[t.id] == t
      ensures t != null && tid != 0 ==> t.id == tid
      ensures tid != 0 && ListsIt(tid, old(process.stale), first) ==> t != null && t.state == T.New && !process.stale
      ensures var v := LookedAt(old(Sees()), first);
              Sees() == if tid == 0 then LookedAt(v, io) else SoughtIn(v, tid, Asked(io, tid))
    {
      hide P.KernelIds, P.Ids, P.Opened, T.Paired, E.Sound;
      Look(first);
      t := LookUp(tid, io);
    }

    /** Makes sure of the thread list. */
    method Look(io: P.FindIo)
      requires process.Consistent() && P.KernelIds(0, io)
      modifies process`threads, process`stale, process`miscounted
      ensures process.Consistent() && process.Kept() && Sees() == LookedAt(old(Sees()), io)
      ensures process.miscounted == (old(process.miscounted) || P.Miscounts(old(process.stale), io))
      ensures P.WillRefresh(old(process.stale), io) ==>
                && process.threads.Keys == P.Ids(io.threads.value)
                && forall k :: k in process.threads ==> process.threads[k].state == T.New
    {
      hide P.Looked, P.KernelIds, P.Ids, P.Opened, T.Paired, E.Sound;
      process.EnsureThreadMapFresh(io);
    }

    /** Any thread for 0, else the one with that id. */
    method LookUp(tid: nat, io: P.FindIo) returns (t: T.Thread?)
      requires process.Consistent() && process.IsAttached() && P.KernelIds(0, io)
      modifies process`threads, process`stale, process`miscounted
      ensures process.Consistent() && process.Kept()
      ensures t == null <==> !HasThread(tid)
      ensures t != null ==> t.id in process.threads && process.threads[t.id] == t
      ensures t != null && tid != 0 ==> t.id == tid
      ensures process.miscounted == (old(process.miscounted) || P.Miscounts(old(process.stale), io))
      ensures tid in old(process.threads) && !old(process.stale) ==>
                process.threads == old(process.threads) && !process.stale
      ensures Sees() == if tid == 0 then LookedAt(old(Sees()), io) else SoughtIn(old(Sees()), tid, Asked(io, tid))
    {
      hide P.KernelIds, P.Ids, LookedAt, SoughtIn, Sees, T.Paired, E.Sound;
      if tid == 0 {
        t := Pick(io);
      } else {
        AskedIsHonest(io, tid);
        t := Seek(tid, Asked(io, tid));
      }
    }

    method Pick(io: P.FindIo) returns (t: T.Thread?)
      requires process.Consistent() && P.KernelIds(0, io)
      modifies process`threads, process`stale, process`miscounted
      ensures process.Consistent() && process.Kept() && Sees() == LookedAt(old(Sees()), io)
      ensures process.miscounted == (old(process.miscounted) || P.Miscounts(old(process.stale), io))
      ensures t == null <==> process.threads == map[]
      ensures t != null ==> t.id in process.threads && process.threads[t.id] == t
      ensures !old(process.stale) ==> process.threads == old(process.threads)
      ensures process.stale == (old(process.stale) && io.threads.None?)
    {
      hide P.Looked, P.KernelIds, P.Ids, P.Opened, T.Paired, E.Sound;
      t := process.PickOneThread(io);
    }

    method Seek(tid: nat, io: P.FindIo) returns (t: T.Thread?)
      requires process.Consistent() && process.IsAttached() && P.KernelIds(tid, io)
      modifies process`threads, process`stale, process`miscounted
      ensures process.Consistent() && process.Kept() && Sees() == SoughtIn(old(Sees()), tid, io)
      ensures process.miscounted == (old(process.miscounted) || (tid != 0 && P.Miscounts(old(process.stale), io)))
      ensures t == null <==> tid == 0 || !HasThread(tid)
      ensures t != null ==> t.id == tid && tid in process.threads && process.threads[tid] == t
      ensures tid in old(process.threads) && !old(process.stale) ==>
                process.threads == old(process.threads) && !process.stale
    {
      hide P.Looked, P.KernelIds, P.Ids, P.Opened, P.Missing, P.FoundValue, P.TableOk, P.ValuesOf,
           E.Sound;
      t := process.FindThreadById(tid, io);
    }

    /** What is in memory, unless the packet or the kernel is against it. */
    method Handle_m(packet: string, io: Io) returns (r: Outcome)
      requires process.Valid()
      ensures r.Replied? && process.Valid()
      ensures ReadsMemory(process.IsAttached(), packet, io) ==>
                var numbers := Q.NumbersOf(packet);
                && |r.text| == 2 * numbers.second
                && Hex.DecodeBytes(r.text) == Q.BytesFrom(numbers.first, numbers.second, io.memory)
      ensures !ReadsMemory(process.IsAttached(), packet, io) ==>
                r == if !process.IsAttached() || Q.NumbersOf(packet).NotNumbers? then NOENT
                     else if Q.NumbersOf(packet).Malformed? then INVAL
                     else PERM
      ensures Overflows(r) <==> ReadsMemory(process.IsAttached(), packet, io) && Q.NumbersOf(packet).second >= 2046
      ensures ReadRule(old(Sees()), packet, io, r, Sees())
    {
      hide Q.NumbersOf, Hex.DecodeBytes, Hex.EncodeBytes, T.Paired, E.Sound;
      if !process.IsAttached() {
        return NOENT;
      }
      match Q.NumbersOf(packet) {
        case Malformed => return INVAL;
        case NotNumbers => return NOENT;
        case Numbers(address, length) =>
          if !io.access {
            return PERM;
          }
          Hex.DecodeOfEncode(Q.BytesFrom(address, length, io.memory));
          return Replied(Q.MemoryText(address, length, io.memory));
      }
    }

    /** Writes what the packet says; nothing is asked of the kernel for no bytes. */
    method Handle_M(packet: string, io: Io) returns (r: Outcome)
      requires process.Valid()
      modifies this`writes
      ensures r.Replied? && Short(r) && process.Valid()
      ensures r == OK <==>
              process.IsAttached() && Q.WriteOf(packet).Some? && (Q.WriteOf(packet).value.1 == [] || io.access)
      ensures r == INVAL <==> process.IsAttached() && Q.WriteOf(packet).None?
      ensures WriteRule(old(Sees()), packet, io, r, Sees())
    {
      hide Q.NumbersOf, Hex.DecodeBytes, T.Paired, E.Sound;
      if !process.IsAttached() {
        return NOENT;
      }
      var cut := Q.CutAtColon(packet);
      if cut.None? {
        return INVAL;
      }
      var numbers := Q.NumbersOf(cut.value.0);
      if !numbers.Numbers? {
        return INVAL;
      }
      var bytes := Hex.DecodeByteArrayString(cut.value.1);
      if |bytes| != numbers.second {
        return INVAL;
      }
      if bytes != [] {
        if !io.access {
          return PERM;
        }
        writes := writes + [(numbers.first, bytes)];
      }
      return OK;
    }

    method Handle_T(packet: string, io: Io) returns (r: Outcome)
      requires process.Valid() && Honest(io) && !process.miscounted
      modifies process`threads, process`stale, process`miscounted
      ensures process.Valid() && process.Kept() && (r.Replied? || r.Tripped?) && Short(r)
      ensures (r.Tripped? <==> LookingTrips(old(Sees()), packet, io)) && (process.miscounted ==> r.Tripped?)
      ensures r.Tripped? <==>
              && process.IsAttached() && old(process.stale) && io.find.threads.None? && io.find.miscounted
              && CommandText.ParseUint64(packet).Some? && CommandText.ParseUint64(packet).value != 0
      ensures var id := CommandText.ParseUint64(packet);
              !r.Tripped? ==>
                (r == OK <==>
                  && process.IsAttached() && id.Some? && id.value != 0 && id.value in process.threads
                  && process.threads[id.value].state != T.Gone && process.threads[id.value].state != T.Exiting)
      ensures !r.Tripped? ==> AliveRule(old(Sees()), packet, io, r, Sees())
    {
      hide P.KernelIds, P.Ids, CommandText.ParseUint64, Sees, SoughtIn, P.TableOk, E.Sound;
      Shows();
      if !process.IsAttached() {
        return NOENT;
      }
      var tid := CommandText.ParseUint64(packet);
      if tid.None? {
        return INVAL;
      }
      AskedIsHonest(io.find, tid.value);
      var t := Seek(tid.value, Asked(io.find, tid.value));
      Shows();
      if process.miscounted {
        return Tripped;
      }
      if t == null || t.state == T.Exiting {
        return NOENT;
      }
      return OK;
    }

    /** A listing names every live thread once the list could be read, and ends the sequence when asked again. */
    method HandleQueryThreadInfo(isFirst: bool, io: Io) returns (r: Outcome, ghost ids: seq<nat>)
      requires process.Valid() && Honest(io) && !process.miscounted
      modifies this`inThreadInfoSequence, process`threads, process`stale, process`miscounted
      ensures process.Valid() && process.Kept() && (r.Replied? || r.Tripped?) && (process.miscounted ==> r.Tripped?)
      ensures r.Tripped? <==>
              && isFirst && !old(inThreadInfoSequence)
              && old(process.stale) && io.find.threads.None? && io.find.miscounted
      ensures isFirst == old(inThreadInfoSequence) ==> r == PERM && inThreadInfoSequence == old(inThreadInfoSequence)
      ensures !isFirst && old(inThreadInfoSequence) ==> r == Replied("l") && !inThreadInfoSequence
      ensures isFirst && !old(inThreadInfoSequence) && !r.Tripped? ==>
              && (forall k :: k in ids <==> k in process.threads && process.threads[k].state != T.Gone)
              && (forall i, j :: 0 <= i < j < |ids| ==> ids[i] != ids[j])
              && r == Replied(if ids == [] then "l" else "m" + Join(CommandText.IdTexts(ids), ','))
              && (inThreadInfoSequence <==> ids != [])
      ensures Overflows(r) <==> isFirst && ListTooLong(old(Sees()), io.find)
      ensures !r.Tripped? ==> ListRule(old(Sees()), isFirst, io, r, Sees())
    {
      hide P.KernelIds, P.Ids, Join, LookedAt, Q.ListTooLong, Lists, Sees, P.TableOk, E.Sound;
      Shows();
      ids := [];
      if !isFirst {
        if !inThreadInfoSequence {
          return PERM, [];
        }
        SetListing(false);
        return Replied("l"), [];
      }
      if inThreadInfoSequence {
        return PERM, [];
      }
      var text, live := ListThreads(io.find);
      if process.miscounted {
        return Tripped, [];
      }
      SetListing(live != []);
      return Replied(text), live;
    }

    method SetListing(on: bool)
      requires process.Valid()
      modifies this`inThreadInfoSequence
      ensures process.Valid() && inThreadInfoSequence == on && Sees() == old(Sees()).(listing := on)
    {
      hide T.Paired, E.Sound;
      inThreadInfoSequence := on;
    }

    /** The ids of the live threads, each once, and the reply that names them. */
    method ListThreads(io: P.FindIo) returns (text: string, ids: seq<nat>)
      requires process.Consistent() && P.KernelIds(0, io)
      modifies process`threads, process`stale, process`miscounted
      ensures process.Consistent() && process.Kept()
      ensures forall k :: k in ids <==> k in process.threads && process.threads[k].state != T.Gone
      ensures forall i, j :: 0 <= i < j < |ids| ==> ids[i] != ids[j]
      ensures process.miscounted == (old(process.miscounted) || P.Miscounts(old(process.stale), io))
      ensures text == Listing(ids) && Sees() == LookedAt(old(Sees()), io) && Lists(ids, Sees())
      ensures PacketCodec.Fits(text) <==>
              !Q.ListTooLong(LiveKeys(P.Looked(old(P.ValuesOf(process.threads)), old(process.stale), io)))
    {
      hide P.KernelIds, P.Ids, P.Opened, P.TableOk, E.Sound, Join, P.Looked, Q.ListTooLong, Sees;
      Shows();
      Look(io);
      Shows();
      ghost var live := LiveKeys(P.ValuesOf(process.threads));
      ids := LiveThreads();
      assert Q.Elements(ids) == live;
      Q.ListFitsIff(ids);
      text := Text(ids);
      assert PacketCodec.Fits(text) <==> !Q.ListTooLong(live);
    }

    method LiveThreads() returns (ids: seq<nat>)
      requires process.Consistent()
      ensures forall k :: k in ids <==> k in process.threads && process.threads[k].state != T.Gone
      ensures process.Consistent() && Sees() == old(Sees()) && Lists(ids, Sees())
    {
      hide T.Paired, E.Sound;
      ids := P.LiveIds(process.threads);
    }

    method Text(ids: seq<nat>) returns (text: string)
      requires process.Consistent()
      ensures text == Listing(ids) && process.Consistent() && Sees() == old(Sees())
    {
      hide Join, T.Paired, E.Sound;
      text := CommandText.BuildThreadInfo(ids);
    }

    method HandleQueryCurrentThreadId(params: string, io: Io) returns (r: Outcome)
      requires process.Valid() && Honest(io) && !process.miscounted
      modifies process`threads, process`stale, process`miscounted
      ensures process.Valid() && process.Kept() && (r.Replied? || r.Tripped?) && Short(r)
      ensures (r.Tripped? <==> PickingTrips(old(Sees()), params, io)) && (process.miscounted ==> r.Tripped?)
      ensures r.Tripped? <==>
              && params == "" && old(CurrentThread()) == null && process.IsLive()
              && old(process.stale) && io.find.threads.None? && io.find.miscounted
      ensures params != "" ==> r == INVAL
      ensures params == "" && old(CurrentThread()) == null && !process.IsLive() ==> r == PERM
      ensures params == "" && old(CurrentThread()) != null ==>
                r == Replied("QC" + ThreadIds.NumberToHex(old(CurrentThread().id)))
      ensures r.Replied? && r.text != "E01" && r.text != "E22" ==>
                exists k :: k in process.threads && r == Replied("QC" + ThreadIds.NumberToHex(k))
      ensures !r.Tripped? ==> CurrentRule(old(Sees()), params, io, r, Sees())
    {
      hide P.KernelIds, P.Ids, Sees, LookedAt, T.Paired, E.Sound, ThreadIds.NumberToHex;
      Shows();
      if params != "" {
        return INVAL;
      }
      var t := CurrentThread();
      if t == null {
        if !process.IsLive() {
          return PERM;
        }
        t := Pick(io.find);
        Shows();
        if process.miscounted {
          return Tripped;
        }
        if t == null {
          return PERM;
        }
      }
      assert t.id in process.threads && t.id in P.ValuesOf(process.threads);
      StopReply.KoidLength(t.id);
      return Replied("QC" + ThreadIds.NumberToHex(t.id));
    }

    /** A monitor command: its words decide, and whatever they are the reply is short. */
    method HandleQueryRcmd(command: string, io: Io) returns (r: Outcome)
      requires Honest(io) && process.Valid()
      ensures r.Replied? && Short(r) && process.Valid() && Sees() == old(Sees())
      ensures Q.Words(CommandText.Chars(Hex.DecodeBytes(command))) == [] ==> r == OK
      ensures r == Replied(Q.MonitorReply(Q.Words(CommandText.Chars(Hex.DecodeBytes(command))), io.accepted, io.level))
    {
      hide Q.Words, Q.TextHex, Hex.DecodeBytes, P.KernelIds, T.Paired, E.Sound;
      var bytes := Hex.DecodeByteArrayString(command);
      var words := Q.Words(CommandText.Chars(bytes));
      Q.MonitorReplyIsShort(words, io.accepted, io.level);
      return Replied(Q.MonitorReply(words, io.accepted, io.level));
    }

    /** A part of the auxiliary vector; an offset behind its end is not refused. */
    method HandleQueryXfer(args: string, io: Io) returns (r: Outcome)
      requires process.Valid()
      ensures r.Replied? && process.Valid() && Sees() == old(Sees()) && VectorRule(args, io, r)
      ensures var numbers := Q.NumbersOf(args);
              if numbers.Numbers? && numbers.first <= Q.AUXV_SIZE then
                |r.text| == 1 + Q.AuxvLength(io.exec, numbers.first, numbers.second) && r.text[0] == 'l'
              else r == INVAL
      ensures Overflows(r) <==> Q.AuxvTooLong(args, io.exec)
    {
      hide Q.NumbersOf, Q.AuxvLength, T.Paired, E.Sound;
      var numbers := Q.NumbersOf(args);
      if !numbers.Numbers? || numbers.first > Q.AUXV_SIZE {
        return INVAL;
      }
      Q.AuxvFitsIff(io.exec, numbers.first, numbers.second);
      var length := Q.AuxvLength(io.exec, numbers.first, numbers.second);
      return Replied("l" + seq(length, i requires 0 <= i < length => io.auxv(i)));
    }

    method Handle_q(prefix: string, params: string, io: Io) returns (r: Outcome)
      requires process.Valid() && Honest(io) && !process.miscounted
      modifies this`inThreadInfoSequence, process`threads, process`stale, process`miscounted
      ensures process.Valid() && process.Kept() && !r.Deferred?
      ensures (r.Tripped? <==> QueryTrips(old(Sees()), prefix, params, io)) && (process.miscounted ==> r.Tripped?)
      ensures r.Unsupported? <==>
              && prefix !in {"Attached", "C", "fThreadInfo", "sThreadInfo", "Supported"} && !("Rcmd," <= prefix)
              && !(prefix == "Xfer" && "auxv:read::" <= params)
      ensures prefix == "Attached" ==> r == if params == "" then Replied("0") else INVAL
      ensures prefix == "Supported" ==> r == Replied("QNonStop+;qXfer:auxv:read+")
      ensures Overflows(r) <==> QueryTooLong(old(Sees()), prefix, params, io)
      ensures !r.Tripped? ==> QueryRule(old(Sees()), prefix, params, io, r, Sees())
    {
      hide ListTooLong, PickingTrips, ListRule, CurrentRule, VectorRule, Q.AuxvTooLong, Q.NumbersOf, Q.Words,
           Q.AuxvLength, Q.MonitorReply, Hex.DecodeBytes, Sees, P.Process.Consistent;
      Shows();
      if prefix == "Attached" {
        return if params == "" then Replied("0") else INVAL;
      }
      if prefix == "C" {
        r := HandleQueryCurrentThreadId(params, io);
        return;
      }
      if prefix == "fThreadInfo" || prefix == "sThreadInfo" {
        ghost var ids;
        r, ids := HandleQueryThreadInfo(prefix == "fThreadInfo", io);
        return;
      }
      assert !("Rcmd," <= "Supported") && !("Rcmd," <= "Xfer") by {
        assert "Rcmd,"[0] != "Supported"[0] && "Rcmd,"[0] != "Xfer"[0];
      }
      if "Rcmd," <= prefix {
        r := HandleQueryRcmd(prefix[5..], io);
        return;
      }
      if prefix == "Supported" {
        return Replied("QNonStop+;qXfer:auxv:read+");
      }
      if prefix == "Xfer" && "auxv:read::" <= params {
        r := HandleQueryXfer(params[11..], io);
        return;
      }
      return Unsupported;
    }

    /** q and Q packets are split at the first colon, which a packet of one letter cannot be. */
    method HandleGeneral(packet: string, io: Io) returns (r: Outcome)
      requires process.Valid() && Honest(io) && !process.miscounted
      requires packet != "" && (packet[0] == 'q' || packet[0] == 'Q')
      modifies this`inThreadInfoSequence, process`threads, process`stale, process`miscounted
      ensures process.Valid() && process.Kept() && !r.Deferred?
      ensures (r.Tripped? <==> GeneralTrips(old(Sees()), packet, io)) && (process.miscounted ==> r.Tripped?)
      ensures Overflows(r) <==> RepliesTooLong(old(Sees()), packet, io)
      ensures !r.Tripped? ==> Rule(old(Sees()), packet, io, r, Sees())
    {
      hide Honest, QueryTrips, QueryTooLong, QueryRule, CommandText.PrefixOf, CommandText.ParamsOf, Sees,
           P.Process.Consistent;
      if |packet| == 1 {
        return Tripped;
      }
      var prefix, params := Split(packet[1..]);
      if packet[0] == 'q' {
        r := Handle_q(prefix, params, io);
      } else {
        r := Handle_Q(prefix, params);
      }
    }

    method Split(text: string) returns (prefix: string, params: string)
      requires text != "" && process.Valid()
      ensures prefix == CommandText.PrefixOf(text) && params == CommandText.ParamsOf(text)
      ensures process.Valid() && Sees() == old(Sees())
    {
      hide T.Paired, E.Sound, CommandText.PrefixOf, CommandText.ParamsOf;
      prefix, params := CommandText.ExtractParameters(text);
    }

    /** Only non-stop mode can be chosen. */
    method Handle_Q(prefix: string, params: string) returns (r: Outcome)
      requires process.Valid()
      ensures process.Valid() && SetRule(old(Sees()), prefix, params, r, Sees())
      ensures r.Unsupported? <==> prefix != "NonStop"
      ensures r == OK <==> prefix == "NonStop" && params == "1"
      ensures (r.Replied? || r.Unsupported?) && Short(r)
    {
      hide T.Paired, E.Sound;
      if prefix != "NonStop" {
        return Unsupported;
      }
      if |params| != 1 {
        return INVAL;
      }
      return if params[0] == '1' then OK else if params[0] == '0' then PERM else INVAL;
    }

    /** The checks at the start of Initialize fail exactly after a run that was set up and then failed. */
    method Handle_vAttach(packet: string, io: Io) returns (r: Outcome)
      requires process.Valid() && Honest(io)
      modifies process, process.port
      ensures process.Valid() && process.Kept() && (r.Replied? || r.Tripped?) && Short(r)
      ensures process.starts == old(process.starts) && process.firstThreads == old(process.firstThreads)
      ensures process.miscounted == old(process.miscounted)
      ensures r.Tripped? <==>
              CommandText.ParseUint64(packet).Some? && old(process.state == P.PNew && process.runFailed)
      ensures r == OK ==> process.state == P.PRunning && process.stale && process.threads == map[]
      ensures r == OK ==> CommandText.ParseUint64(packet) == Some(process.id)
      ensures r.Replied? ==>
                var pid := CommandText.ParseUint64(packet);
                r == OK <==>
                  && pid.Some? && P.IsKoid(pid.value) && !old(process.IsLive())
                  && io.handle && io.bind && E.NextKey(old(process.port.counter)) != 0
      ensures r != OK ==> process.IsLive() == old(process.IsLive())
      ensures process.state == P.PStarting ==> old(process.state) == P.PStarting
      ensures r == INVAL <==> CommandText.ParseUint64(packet).None?
      ensures !r.Tripped? ==> AttachRule(old(Sees()), packet, io, r, Sees())
    {
      hide CommandText.ParseUint64, T.Paired, E.Sound;
      var pid := CommandText.ParseUint64(packet);
      if pid.None? {
        return INVAL;
      }
      if process.IsLive() {
        return PERM;
      }
      if process.launchpad || process.handle != 0 || process.key != 0 {
        return Tripped;
      }
      process.InitializeRunning(pid.value);
      var attached := process.Attach(io.handle && P.IsKoid(pid.value), io.bind);
      return if attached then OK else PERM;
    }

    /** A run that starts is not answered here; every other one is. */
    method Handle_vRun(packet: string, io: Io) returns (r: Outcome)
      requires process.Valid() && Honest(io)
      modifies process, process.port
      ensures process.Valid() && process.Kept()
      ensures process.firstThreads == old(process.firstThreads) && process.miscounted == old(process.miscounted)
      ensures process.starts == old(process.starts) + (if r.Deferred? then 1 else 0)
      ensures r.Tripped? <==> RunTrips(old(Sees()), packet, io)
      ensures r.Tripped? <==>
              && !old(process.IsLive())
              && (|| old(process.launchpad) || old(process.IsAttached())
                  || (&& process.argv != [] && process.argv[0] != "" && io.launch.setUp && io.launch.load
                      && io.launch.pid.None?))
      ensures r.Deferred? || r.Tripped? || r == PERM
      ensures r.Deferred? ==> process.state == P.PStarting && Some(process.id) == io.launch.pid
      ensures !r.Tripped? ==>
                (r.Deferred? <==> !old(process.IsLive()) && CanLaunch(process.argv, old(process.port.counter), io))
      ensures r == PERM ==> process.state == if old(process.IsLive()) then old(process.state) else P.PNew
      ensures process.state == P.PStarting ==> r.Deferred? || old(process.state) == P.PStarting
      ensures process.argv == ArgvAfter(old(process.argv), packet)
      ensures !r.Tripped? ==> RunRule(old(Sees()), packet, io, r, Sees())
    {
      hide Pieces, CommandText.ArgvOf, P.SetupOf, P.Process.Consistent, Sees;
      Shows();
      Idle();
      if packet != "" {
        SetArgv(packet);
      }
      Shows();
      P.SetupIs(process.argv, io.launch);
      if process.IsLive() {
        return PERM;
      }
      if process.launchpad || process.handle != 0 || process.key != 0 {
        return Tripped;
      }
      r := Launch(io);
      Shows();
    }

    lemma Idle()
      requires process.Consistent()
      ensures process.handle != 0 <==> process.key != 0
      ensures process.key == 0 ==> process.threads == map[] && CurrentThread() == null && !process.stale
      ensures process.IsLive() ==> process.IsAttached() && P.IsKoid(process.id)
      ensures P.Koids(P.ValuesOf(process.threads))
    {
    }

    lemma LeftOverIs()
      requires process.Valid()
      ensures LeftOver(Sees()) <==> process.state == P.PNew && process.runFailed
    {
    }

    /** Replaces the argument vector. */
    method SetArgv(packet: string)
      requires process.Valid() && packet != ""
      modifies process`argv
      ensures process.Valid() && Sees() == old(Sees()).(argv := CommandText.ArgvOf(Pieces(packet, ';')))
    {
      hide Pieces, CommandText.ArgvOf, T.Paired, E.Sound;
      var argv := CommandText.BuildArgvFor_vRun(packet);
      process.SetArgv(argv);
    }

    /** Sets the program up, attaches to it and starts it. */
    method Launch(io: Io) returns (r: Outcome)
      requires process.Valid() && Honest(io) && !process.IsLive()
      requires !process.launchpad && process.handle == 0 && process.key == 0 && process.threads == map[] && !process.stale
      modifies process, process.port
      ensures process.Valid() && process.threads == map[] && process.argv == old(process.argv)
      ensures process.firstThreads == old(process.firstThreads) && process.miscounted == old(process.miscounted)
      ensures process.starts == old(process.starts) + (if r.Deferred? then 1 else 0)
      ensures process.state == if r.Deferred? then P.PStarting else P.PNew
      ensures r == if P.SetupOf(process.argv, io.launch) == P.NoKoid then Tripped
                   else if CanLaunch(process.argv, old(process.port.counter), io) then Deferred
                   else PERM
      ensures r.Deferred? ==> Some(process.id) == io.launch.pid
      ensures !r.Tripped? ==> RunRule(old(Sees()), "", io, r, Sees())
    {
      hide P.SetupOf, P.KernelIds, P.Process.Consistent, Sees;
      Shows();
      var setup := process.Initialize(io.launch);
      Shows();
      if setup != P.Ready {
        return if setup == P.NoKoid then Tripped else PERM;
      }
      r := AttachAndStart(io);
    }

    method AttachAndStart(io: Io) returns (r: Outcome)
      requires process.Consistent() && process.state == P.PNew && process.launchpad && process.key == 0
      requires !process.attachedRunning && !process.runFailed && process.threads == map[] && P.IsKoid(process.id)
      modifies process, process.port
      ensures process.Valid() && process.threads == map[] && process.argv == old(process.argv)
      ensures process.id == old(process.id)
      ensures process.firstThreads == old(process.firstThreads) && process.miscounted == old(process.miscounted)
      ensures process.starts == old(process.starts) + (if r.Deferred? then 1 else 0)
      ensures process.state == if r.Deferred? then P.PStarting else P.PNew
      ensures var v, next := old(Sees()), E.NextKey(old(process.port.counter));
              if !(io.handle && io.bind && next != 0) then r == PERM && Sees() == v
              else
                && r == (if io.start then Deferred else PERM)
                && Sees() == v.(state := process.state, launchpad := false, key := next, counter := next)
    {
      hide P.Process.Consistent, Sees;
      Shows();
      var attached := process.Attach(io.handle, io.bind);
      if !attached {
        Shows();
        return PERM;
      }
      var started := process.Start(io.start);
      Shows();
      return if started then Deferred else PERM;
    }

    method Handle_vKill(packet: string, io: Io) returns (r: Outcome)
      requires process.Valid()
      modifies process, process.port
      ensures process.Valid() && process.Kept() && r.Replied? && Short(r)
      ensures process.starts == old(process.starts) && process.firstThreads == old(process.firstThreads)
      ensures process.miscounted == old(process.miscounted)
      ensures r == OK <==> old(process.IsLive()) && CommandText.ParseUint64(packet) == Some(old(process.id)) && io.kill
      ensures process.state == if r == OK then P.PGone else old(process.state)
      ensures KillRule(old(Sees()), packet, io, r, Sees())
    {
      hide CommandText.ParseUint64;
      var pid := CommandText.ParseUint64(packet);
      if pid.None? || pid.value != process.id {
        return INVAL;
      }
      if !process.IsLive() {
        return PERM;
      }
      var killed := process.Kill(io.kill);
      return if killed then OK else PERM;
    }

    /**
     * The checks before the two passes. Each "pick one" entry also looks a thread
     * up, which can only matter by refreshing a stale thread list: the loop works
     * on copies of the entries, so what it picks is forgotten.
     */
    method ResolvePickOnes(list: A.ThreadActionList, io: P.FindIo) returns (ok: bool)
      requires process.Consistent() && P.KernelIds(0, io)
      modifies list`pickOnesResolved, process`threads, process`stale, process`miscounted
      ensures process.Consistent() && process.Kept()
      ensures ok <==> !AsksAnotherProcess(list.actions, process.id)
      ensures ok <==> forall e :: e in list.actions && e.tid == 0 ==> e.pid == process.id || e.pid == 0xFFFF_FFFF_FFFF_FFFF
      ensures ok ==> list.pickOnesResolved
      ensures Sees() == old(Sees()) || Sees() == LookedAt(old(Sees()), io)
      ensures process.miscounted ==> old(process.miscounted) || P.Miscounts(old(process.stale), io)
    {
      hide P.KernelIds, P.Ids, P.Opened, T.Paired, E.Sound, Sees, LookedAt;
      for i := 0 to |list.actions|
        invariant process.Consistent() && process.Kept()
        invariant forall j :: 0 <= j < i ==> !AsksAnother(list.actions[j], process.id)
        invariant Sees() == old(Sees()) || Sees() == LookedAt(old(Sees()), io)
        invariant process.stale ==> old(process.stale)
        invariant process.miscounted ==> old(process.miscounted) || P.Miscounts(old(process.stale), io)
      {
        if list.actions[i].tid == 0 {
          if list.actions[i].pid != process.id && list.actions[i].pid != A.ALL {
            assert AsksAnother(list.actions[i], process.id);
            return false;
          }
          LookedAtTwice(old(Sees()), io);
          var t := Pick(io);
        }
      }
      MarkResolved(list);
      return true;
    }

    method MarkResolved(list: A.ThreadActionList)
      requires process.Consistent()
      modifies list`pickOnesResolved
      ensures list.pickOnesResolved && process.Consistent() && Sees() == old(Sees())
    {
      hide T.Paired, E.Sound;
      list.MarkPickOnesResolved();
    }

    /**
     * The whole effect: the checks, and then a round over the thread table. Whether
     * that is all or nothing is AllOrNothingIff in Continuation.
     */
    method Handle_vCont(packet: string, io: Io) returns (r: Outcome)
      requires process.Valid() && Honest(io) && !process.miscounted
      modifies process`threads, process`stale, process`miscounted, process.ThreadObjects()
      ensures process.Valid() && process.Kept() && (r.Replied? || r.Tripped?) && Short(r)
      ensures (r.Tripped? <==> ContTrips(old(Sees()), packet, io)) && (process.miscounted ==> r.Tripped?)
      ensures var parsed := A.ParseActions(packet, process.id);
              && (parsed.None? && !A.TripsCheck(packet, process.id) ==> r == INVAL)
              && (r.Replied? && parsed.Some? ==>
                    var round := RoundOf(old(Sees()), parsed.value, io);
                    && C.Proper(round)
                    && r == (if C.Agreed(round) then OK else INVAL)
                    && P.ValuesOf(process.threads) == C.Result(round, io.cont))
      ensures !r.Tripped? ==> ContRule(old(Sees()), packet, io, r, Sees())
    {
      hide A.ParseActions, A.TripsCheck, AsksAnotherProcess, Sees, C.Agreed, C.Result, C.MiscountsRound, C.Proper,
           P.Process.Consistent;
      Shows();
      var list := NewList(packet);
      if list.refused {
        return Tripped;
      }
      if !list.valid {
        return INVAL;
      }
      if !process.IsLive() {
        return Tripped;
      }
      r := RunList(list, io);
      Shows();
    }

    /** The check on the pick-one entries, and then both passes. */
    method RunList(list: A.ThreadActionList, io: Io) returns (r: Outcome)
      requires process.Valid() && Honest(io) && process.IsLive() && !process.miscounted
      modifies list`pickOnesResolved, process`threads, process`stale, process`miscounted, process.ThreadObjects()
      ensures process.Valid() && process.Kept() && (r.Replied? || r.Tripped?) && Short(r)
      ensures process.miscounted ==> r.Tripped?
      ensures var v := old(Sees());
              var round := RoundOf(v, A.Parsed(old(list.defaultAction), old(list.actions)), io);
              && C.Proper(round)
              && (r.Tripped? <==> AsksAnotherProcess(old(list.actions), v.id) || C.MiscountsRound(round))
              && (!r.Tripped? ==>
                    && r == (if C.Agreed(round) then OK else INVAL)
                    && Sees() == AfterRound(v, round, io))
    {
      hide P.KernelIds, AsksAnotherProcess, Sees, AfterRound, P.Looked, C.Agreed, C.MiscountsRound, P.Koids, P.Miscounts,
           P.Process.Consistent;
      Shows();
      Idle();
      ghost var parsed := A.Parsed(list.defaultAction, list.actions);
      LookBeforeRound(Sees(), parsed, io);
      MiscountsFirst(RoundOf(Sees(), parsed, io));
      var resolved := ResolvePickOnes(list, io.find);
      if !resolved {
        return Tripped;
      }
      var ok := RunRound(list, io);
      if process.miscounted {
        return Tripped;
      }
      return if ok then OK else INVAL;
    }

    lemma MiscountsFirst(round: C.Round)
      requires C.Proper(round)
      ensures P.Miscounts(round.stale, round.first) ==> C.MiscountsRound(round)
    {
    }

    /** Both passes. */
    method RunRound(list: A.ThreadActionList, io: Io) returns (ok: bool)
      requires process.Consistent() && process.IsAttached() && Honest(io) && list.pickOnesResolved
      modifies process`threads, process`stale, process`miscounted, process.ThreadObjects()
      ensures process.Consistent() && process.Kept()
      ensures var v := old(Sees());
              var round := RoundOf(v, A.Parsed(list.defaultAction, list.actions), io);
              && C.Proper(round) && ok == C.Agreed(round)
              && process.miscounted == (old(process.miscounted) || C.MiscountsRound(round))
              && Sees() == AfterRound(v, round, io)
    {
      hide P.KernelIds, T.Paired, E.Sound, C.Agreed, C.Result, C.MiscountsRound, C.StaleAfter, C.ReplacedIn;
      P.ValuesAreKoids(process.threads);
      ok := C.RunActions(process, list, io.find, io.again, io.cont);
    }

    method NewList(packet: string) returns (list: A.ThreadActionList)
      requires process.Valid()
      ensures fresh(list) && list.valid == A.ParseActions(packet, process.id).Some?
      ensures list.valid ==> A.ParseActions(packet, process.id) == Some(A.Parsed(list.defaultAction, list.actions))
      ensures list.refused <==> A.TripsCheck(packet, process.id)
      ensures process.Valid() && Sees() == old(Sees())
    {
      hide A.ParseActions, A.TripsCheck, T.Paired, E.Sound;
      list := new A.ThreadActionList(packet, process.id);
    }

    method Handle_v(packet: string, io: Io) returns (r: Outcome)
      requires process.Valid() && Honest(io) && !process.miscounted
      modifies process, process.port, process.ThreadObjects()
      ensures process.Valid() && process.Kept()
      ensures process.firstThreads == old(process.firstThreads)
      ensures process.starts == old(process.starts) + (if r.Deferred? then 1 else 0)
      ensures (r.Tripped? <==> TripsOnV(old(Sees()), packet, io)) && (process.miscounted ==> r.Tripped?)
      ensures Short(r)
      ensures !r.Tripped? ==> VRule(old(Sees()), packet, io, r, Sees())
      ensures r.Deferred? ==> "Run;" <= packet
      ensures process.state == P.PStarting ==> r.Deferred? || old(process.state) == P.PStarting
    {
      hide ContTrips, AsksAnotherProcess, A.ParseActions, A.TripsCheck, CommandText.ParseUint64, CommandText.ArgvOf, Pieces,
           AttachRule, ContRule, KillRule, RunRule, RunTrips, RoundOf, C.Proper, C.Agreed, C.Result, Sees,
           P.Process.Consistent;
      LeftOverIs();
      if "Attach;" <= packet {
        r := Handle_vAttach(packet[7..], io);
      } else if "Cont;" <= packet {
        r := Handle_vCont(packet[5..], io);
      } else if "Kill;" <= packet {
        r := Handle_vKill(packet[5..], io);
      } else if "Run;" <= packet {
        r := Handle_vRun(packet[4..], io);
      } else {
        r := Unsupported;
      }
    }

    /** A handler leaves the inferior in order, and stays silent exactly when it has started a program. */
    method HandleCommand(packet: string, io: Io) returns (r: Outcome)
      requires process.Valid() && Honest(io) && !process.miscounted
      modifies this, process, process.port, process.ThreadObjects()
      ensures process.Valid() && process.Kept()
      ensures process.firstThreads == old(process.firstThreads)
      ensures process.starts == old(process.starts) + (if r.Deferred? then 1 else 0)
      ensures (r.Tripped? <==> TripsOn(old(Sees()), packet, io)) && (process.miscounted ==> r.Tripped?)
      ensures Overflows(r) <==> RepliesTooLong(old(Sees()), packet, io)
      ensures !r.Tripped? ==> Rule(old(Sees()), packet, io, r, Sees())
      ensures process.state == P.PStarting ==> r.Deferred? || old(process.state) == P.PStarting
      ensures r.Deferred? ==> |packet| > 0 && packet[0] == 'v' && "Run;" <= packet[1..]
      ensures packet == "" || packet[0] !in "?cCDgGHmMqQTv" ==> r.Unsupported?
      ensures packet == "?" ==> r == OK
    {
      hide TripsOnV, ChoosingTrips, LookingTrips, GeneralTrips, ReadsMemory, QueryTooLong, DetachRule, ChooseRule,
           QueryRule, SetRule, AliveRule, VRule, ContinueRule, SignalRule, ShowRule, PutRule, ReadRule, WriteRule,
           Q.NumbersOf, ThreadIds.ThreadIdOf, CommandText.ParseUint64, HasThread, Sees, P.Process.Consistent;
      if packet == "" {
        return Unsupported;
      }
      match packet[0] {
        case '?' => r := if |packet| > 1 then Unsupported else OK;
        case 'D' => r := Handle_D(packet[1..]);
        case 'H' => r := Handle_H(packet[1..], io);
        case 'q' => r := HandleGeneral(packet, io);
        case 'Q' => r := HandleGeneral(packet, io);
        case 'T' => r := Handle_T(packet[1..], io);
        case 'v' => r := Handle_v(packet[1..], io);
        case _ => r := HandleAccess(packet, io);
      }
    }

    /** The commands that continue the current thread or read and write it and the memory. */
    method HandleAccess(packet: string, io: Io) returns (r: Outcome)
      requires process.Valid() && packet != "" && packet[0] !in "?DHqQTv"
      modifies this`writes, process.ThreadObjects()
      ensures process.Valid() && !r.Deferred?
      ensures !r.Tripped? ==> Rule(old(Sees()), packet, io, r, Sees())
      ensures r.Tripped? <==> TripsOn(old(Sees()), packet, io)
      ensures Overflows(r) <==> RepliesTooLong(old(Sees()), packet, io)
      ensures packet[0] !in "cCgGmM" ==> r.Unsupported?
    {
      hide Continued, OthersUnchanged, ContinueRule, SignalRule, ShowRule, PutRule, ReadRule, WriteRule, QueryTooLong,
           ThreadIds.ParseInt64, CommandText.ParseUint64, Q.NumbersOf, Q.WriteOf, Q.BytesFrom, Hex.DecodeBytes, Sees,
           P.Process.Consistent;
      Shows();
      match packet[0] {
        case 'c' => r := Handle_c(packet[1..], io);
        case 'C' => r := Handle_C(packet[1..], io);
        case 'g' =>
          if |packet| > 1 {
            return Unsupported;
          }
          r := Handle_g();
        case 'G' => r := Handle_G(packet[1..], io);
        case 'm' => r := Handle_m(packet[1..], io);
        case 'M' => r := Handle_M(packet[1..], io);
        case _ => r := Unsupported;
      }
    }
  }
}
