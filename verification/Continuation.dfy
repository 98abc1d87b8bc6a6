/** The two passes of Handle_vCont over the live threads (bin/debugserver/cmd-handler.cc). */
module Continuation {
  import opened Prelude
  import opened RegisterBlocks
  import opened Threads
  import ThreadIds
  import opened ThreadActions
  import opened Processes

  /** What the kernel does when a thread is resumed, and when it is then stepped. */
  datatype ContIo = ContIo(resume: bool, step: StepIo)

  /** An action list with every "pick one" resolved. */
  datatype Plan = Plan(entries: seq<Entry>, default: Action)

  ghost function PlanOf(list: ThreadActionList): Plan
    reads list
  {
    Plan(list.actions, list.defaultAction)
  }

  function ActionOf(plan: Plan, pid: nat, tid: nat): Action
    requires IsKoid(pid) && IsKoid(tid)
  {
    ActionFor(plan.entries, plan.default, pid, tid)
  }

  /** The first pass objects to stepping a thread that has not started. */
  predicate Refuses(s: Snapshot, a: Action) {
    s.state == New && a == Action.Step
  }

  /** The inner switch of the step case. */
  function StepIfStopped(s: Snapshot, io: ContIo): Snapshot {
    if s.state == Stopped then Threads.Step(s, io.step).1 else s
  }

  /** The second pass on one thread; the continue case falls through into the step case. */
  function Acted(s: Snapshot, a: Action, io: ContIo): Snapshot {
    match a
    case NoAction => s
    case Continue => StepIfStopped(if s.state == New || s.state == Stopped then Resume(s, io.resume).1 else s, io)
    case Step => StepIfStopped(s, io)
  }

  function ActedIfLive(s: Snapshot, a: Action, io: ContIo): Snapshot {
    if s.state == Gone then s else Acted(s, a, io)
  }

  method ActOn(t: Thread, action: Action, io: ContIo)
    modifies t
    ensures t.Value() == Acted(old(t.Value()), action, io)
  {
    if action == Continue && (t.state == New || t.state == Stopped) {
      var resumed := t.DoResume(io.resume);
    }
    if action == Continue || action == Action.Step {
      if t.state == Stopped {
        var stepped := t.DoStep(io.step);
      }
    }
  }

  lemma ActedStaysPaired(s: Snapshot, a: Action, io: ContIo)
    requires Paired(s)
    ensures Paired(ActedIfLive(s, a, io))
  {
  }

  // The two passes on values.

  predicate NoneRefused(plan: Plan, pid: nat, values: map<nat, Snapshot>)
    requires IsKoid(pid) && Koids(values)
  {
    forall k :: k in values ==> !Refuses(values[k], ActionOf(plan, pid, k))
  }

  function ActAll(plan: Plan, pid: nat, values: map<nat, Snapshot>, io: nat -> ContIo): map<nat, Snapshot>
    requires IsKoid(pid) && Koids(values)
  {
    map k | k in values :: ActedIfLive(values[k], ActionOf(plan, pid, k), io(k))
  }

  /** One round: the table with what is known of it, and what the kernel answers when each pass looks at the list. */
  datatype Round = Round(plan: Plan, pid: nat, values: map<nat, Snapshot>, stale: bool, first: FindIo, second: FindIo)

  predicate Proper(r: Round) {
    IsKoid(r.pid) && Koids(r.values) && KernelIds(0, r.first) && KernelIds(0, r.second)
  }

  function FirstTable(r: Round): (v: map<nat, Snapshot>)
    requires Proper(r)
    ensures Koids(v)
  {
    Looked(r.values, r.stale, r.first)
  }

  function SecondTable(r: Round): (v: map<nat, Snapshot>)
    requires Proper(r)
    ensures Koids(v)
  {
    Looked(FirstTable(r), r.stale && r.first.threads.None?, r.second)
  }

  predicate Agreed(r: Round)
    requires Proper(r)
  {
    NoneRefused(r.plan, r.pid, FirstTable(r))
  }

  /** The table the round ends on, before anything has run. */
  function EndTable(r: Round): (v: map<nat, Snapshot>)
    requires Proper(r)
    ensures Koids(v)
  {
    if Agreed(r) then SecondTable(r) else FirstTable(r)
  }

  /** The table after the round. */
  function Result(r: Round, io: nat -> ContIo): map<nat, Snapshot>
    requires Proper(r)
  {
    if Agreed(r) then ActAll(r.plan, r.pid, SecondTable(r), io) else FirstTable(r)
  }

  /** If some thread cannot do what it is asked to, no thread has changed. */
  predicate AllOrNothing(r: Round, io: nat -> ContIo)
    requires Proper(r)
  {
    NoneRefused(r.plan, r.pid, EndTable(r)) || Result(r, io) == EndTable(r)
  }

  /** What becomes of a thread that is new. */
  lemma ActedWhenNew(cpu: Regs, a: Action, io: ContIo)
    ensures ActedIfLive(Created(cpu), a, io) ==
            if a == Continue && io.resume then Created(cpu).(state := Running) else Created(cpu)
    ensures Refuses(Created(cpu), a) <==> a == Action.Step
  {
  }

  /** A list that is replaced between the passes: some thread of it is asked to step, another one runs. */
  predicate RunsPast(r: Round, io: nat -> ContIo)
    requires Proper(r)
  {
    && r.stale && r.first.threads.None? && r.second.threads.Some?
    && NoneRefused(r.plan, r.pid, r.values)
    && (exists k :: k in Ids(r.second.threads.value) && ActionOf(r.plan, r.pid, k) == Action.Step)
    && (exists k :: k in Ids(r.second.threads.value) && ActionOf(r.plan, r.pid, k) == Continue && io(k).resume)
  }

  /** All or nothing holds for every round, except exactly where the list is replaced between the passes. */
  lemma AllOrNothingIff(r: Round, io: nat -> ContIo)
    requires Proper(r)
    ensures AllOrNothing(r, io) <==> !RunsPast(r, io)
  {
    hide ActionOf, ActedIfLive, Refuses, Opened, Ids, KernelIds, Created;
    if Agreed(r) && WillRefresh(r.stale && r.first.threads.None?, r.second) {
      ReplacedBetween(r, io);
    }
  }

  lemma ReplacedBetween(r: Round, io: nat -> ContIo)
    requires Proper(r) && Agreed(r) && WillRefresh(r.stale && r.first.threads.None?, r.second)
    ensures AllOrNothing(r, io) <==> !RunsPast(r, io)
  {
    hide ActionOf, ActedIfLive, Refuses, Ids, KernelIds;
    var cpus := Opened(r.second.threads.value);
    var table := SecondTable(r);
    forall k | k in table
      ensures Refuses(table[k], ActionOf(r.plan, r.pid, k)) <==> ActionOf(r.plan, r.pid, k) == Action.Step
      ensures ActedIfLive(table[k], ActionOf(r.plan, r.pid, k), io(k)) != table[k] <==>
              ActionOf(r.plan, r.pid, k) == Continue && io(k).resume
    {
      ActedWhenNew(cpus[k], ActionOf(r.plan, r.pid, k), io(k));
    }
    if Result(r, io) != table {
      assert exists k :: k in table && Result(r, io)[k] != table[k];
    }
  }

  /** In particular with a list that is fresh, that the first pass can read or that the second cannot. */
  lemma AllOrNothingUnlessReplaced(r: Round, io: nat -> ContIo)
    requires Proper(r) && (!r.stale || r.first.threads.Some? || r.second.threads.None?)
    ensures AllOrNothing(r, io)
  {
    hide ActionOf, ActedIfLive, Refuses, Opened, Ids, KernelIds, AllOrNothing;
    AllOrNothingIff(r, io);
  }

  /** After attaching, with a list the first pass can read: all or nothing on the threads of that list. */
  lemma FirstContinue(r: Round, io: nat -> ContIo)
    requires Proper(r) && WillRefresh(r.stale, r.first)
    ensures Result(r, io).Keys == Ids(r.first.threads.value)
    ensures Agreed(r) <==> forall k :: k in Ids(r.first.threads.value) ==> ActionOf(r.plan, r.pid, k) != Action.Step
    ensures forall k :: k in Result(r, io) ==>
                          Result(r, io)[k].state ==
                          if Agreed(r) && ActionOf(r.plan, r.pid, k) == Continue && io(k).resume then Running else New
  {
    hide ActionOf, ActedIfLive, Refuses, Ids, KernelIds;
    var cpus, table := Opened(r.first.threads.value), FirstTable(r);
    forall k | k in table
      ensures Refuses(table[k], ActionOf(r.plan, r.pid, k)) <==> ActionOf(r.plan, r.pid, k) == Action.Step
      ensures ActedIfLive(table[k], ActionOf(r.plan, r.pid, k), io(k)).state ==
              if ActionOf(r.plan, r.pid, k) == Continue && io(k).resume then Running else New
    {
      ActedWhenNew(cpus[k], ActionOf(r.plan, r.pid, k), io(k));
    }
  }

  /** Just attached; the list cannot be read for the first pass and can for the second; step thread 1, continue the rest. */
  function ReplacedRound(): Round {
    Round(Plan([Entry(Action.Step, 7, 1)], Continue), 7, map[], true, FindIo(None, None, false),
          FindIo(Some([(1, ZEROS), (2, ZEROS)]), None, false))
  }

  /** That round: thread 2 runs although thread 1 cannot do what it is asked to. */
  lemma ReplacedListRuns(io: nat -> ContIo)
    requires io(2).resume
    ensures Proper(ReplacedRound()) && !AllOrNothing(ReplacedRound(), io)
    ensures var result := Result(ReplacedRound(), io);
            1 in result && result[1].state == New && 2 in result && result[2].state == Running
  {
    hide AllOrNothing;
    var r := ReplacedRound();
    var list := r.second.threads.value;
    assert list[0].0 == 1 && list[1].0 == 2;
    assert Ids(list) == {1, 2};
    assert ActionOf(r.plan, 7, 1) == Action.Step && ActionOf(r.plan, 7, 2) == Continue;
    AllOrNothingIff(r, io);
    ActedWhenNew(ZEROS, Action.Step, io(1));
    ActedWhenNew(ZEROS, Continue, io(2));
    assert Opened(list)[1] == ZEROS && Opened(list)[2] == ZEROS;
  }

  /** The check on the thread list fails in one of the passes; the second is made if the first agrees. */
  predicate MiscountsRound(r: Round)
    requires Proper(r)
  {
    || Miscounts(r.stale, r.first)
    || (Agreed(r) && Miscounts(r.stale && r.first.threads.None?, r.second))
  }

  /** The list is still not read when the round is over. */
  predicate StaleAfter(r: Round)
    requires Proper(r)
  {
    r.stale && r.first.threads.None? && (Agreed(r) ==> r.second.threads.None?)
  }

  /** One of the passes reads the list, so that the threads are new objects. */
  predicate ReplacedIn(r: Round)
    requires Proper(r)
  {
    r.stale && (r.first.threads.Some? || (Agreed(r) && r.second.threads.Some?))
  }

  /** Both passes; each of them first makes sure of the thread list. */
  method RunActions(process: Process, list: ThreadActionList, first: FindIo, second: FindIo, io: nat -> ContIo)
    returns (ok: bool)
    requires process.Consistent() && process.IsAttached() && list.pickOnesResolved
    requires KernelIds(0, first) && KernelIds(0, second)
    modifies process`threads, process`stale, process`miscounted, process.ThreadObjects()
    ensures process.Consistent() && process.Kept()
    ensures var r := Round(PlanOf(list), process.id, old(ValuesOf(process.threads)), old(process.stale), first, second);
            && ok == Agreed(r) && ValuesOf(process.threads) == Result(r, io)
            && process.miscounted == (old(process.miscounted) || MiscountsRound(r))
            && process.stale == StaleAfter(r)
            && (if ReplacedIn(r) then forall k :: k in process.threads ==> fresh(process.threads[k])
                else process.threads == old(process.threads))
  {
    hide ValuesOf, Looked, NoneRefused, ActAll, Paired, KernelIds, Koids, Miscounts;
    ghost var r := Round(PlanOf(list), process.id, old(ValuesOf(process.threads)), old(process.stale), first, second);
    ValuesAreKoids(process.threads);
    Look(process, first);
    ok := FirstPass(process.threads, process.id, list);
    if ok {
      LookAndAct(process, list, second, io);
    }
  }

  /** The second pass with its look at the list. */
  method LookAndAct(process: Process, list: ThreadActionList, look: FindIo, io: nat -> ContIo)
    requires process.Consistent() && process.IsAttached() && list.pickOnesResolved && KernelIds(0, look)
    modifies process`threads, process`stale, process`miscounted, process.ThreadObjects()
    ensures process.Consistent() && process.Kept()
    ensures var table := Looked(old(ValuesOf(process.threads)), old(process.stale), look);
            Koids(table) && ValuesOf(process.threads) == ActAll(PlanOf(list), process.id, table, io)
    ensures process.miscounted == (old(process.miscounted) || Miscounts(old(process.stale), look))
    ensures process.stale == (old(process.stale) && look.threads.None?)
    ensures !WillRefresh(old(process.stale), look) ==> process.threads == old(process.threads)
    ensures WillRefresh(old(process.stale), look) ==> forall k :: k in process.threads ==> fresh(process.threads[k])
  {
    hide ValuesOf, Looked, NoneRefused, ActAll, Paired, KernelIds, Koids, Miscounts;
    Look(process, look);
    ValuesAreKoids(process.threads);
    ActOnAll(process.threads, process.id, list, io);
  }

  /** Makes sure of the thread list. */
  method Look(process: Process, io: FindIo)
    requires process.Consistent() && KernelIds(0, io)
    modifies process`threads, process`stale, process`miscounted
    ensures process.Consistent() && process.Kept() && process.stale == (old(process.stale) && io.threads.None?)
    ensures ValuesOf(process.threads) == Looked(old(ValuesOf(process.threads)), old(process.stale), io)
    ensures process.miscounted == (old(process.miscounted) || Miscounts(old(process.stale), io))
    ensures !WillRefresh(old(process.stale), io) ==> process.threads == old(process.threads)
    ensures WillRefresh(old(process.stale), io) ==> forall k :: k in process.threads ==> fresh(process.threads[k])
  {
    hide Looked, Opened, Ids, KernelIds, Paired, Created;
    process.EnsureThreadMapFresh(io);
  }

  method ActOnAll(threads: map<nat, Thread>, pid: nat, list: ThreadActionList, io: nat -> ContIo)
    requires TableOk(threads) && IsKoid(pid) && list.pickOnesResolved
    modifies Objects(threads)
    ensures TableOk(threads)
    ensures ValuesOf(threads) == ActAll(PlanOf(list), pid, old(ValuesOf(threads)), io)
  {
    hide ActedIfLive, ActionOf, PlanOf, Paired;
    SecondPass(threads, pid, list, io);
  }

  method FirstPass(threads: map<nat, Thread>, pid: nat, list: ThreadActionList) returns (ok: bool)
    requires TableOk(threads) && IsKoid(pid) && list.pickOnesResolved
    ensures ok <==> NoneRefused(PlanOf(list), pid, ValuesOf(threads))
    ensures ValuesOf(threads) == old(ValuesOf(threads))
  {
    ok := true;
    var todo := threads.Keys;
    while todo != {}
      invariant todo <= threads.Keys
      invariant ok <==> forall k :: k in threads && k !in todo ==>
                                      !Refuses(threads[k].Value(), ActionOf(PlanOf(list), pid, k))
    {
      var k :| k in todo;
      if threads[k].state != Gone {
        var action := list.GetAction(pid, k);
        if action == Action.Step && threads[k].state == New {
          ok := false;
        }
      }
      todo := todo - {k};
    }
  }

  method SecondPass(threads: map<nat, Thread>, pid: nat, list: ThreadActionList, io: nat -> ContIo)
    requires TableOk(threads) && IsKoid(pid) && list.pickOnesResolved
    modifies Objects(threads)
    ensures TableOk(threads)
    ensures forall k :: k in threads ==>
                          threads[k].Value() ==
                          ActedIfLive(old(threads[k].Value()), ActionOf(PlanOf(list), pid, k), io(k))
  {
    hide Acted, Paired;
    ghost var plan := PlanOf(list);
    var todo := threads.Keys;
    while todo != {}
      invariant todo <= threads.Keys
      invariant TableOk(threads)
      invariant forall k :: k in todo ==> threads[k].Value() == old(threads[k].Value())
      invariant forall k :: k in threads && k !in todo ==>
                              threads[k].Value() == ActedIfLive(old(threads[k].Value()), ActionOf(plan, pid, k), io(k))
    {
      var k :| k in todo;
      var t := threads[k];
      ActedStaysPaired(t.Value(), ActionOf(plan, pid, k), io(k));
      if t.state != Gone {
        var action := list.GetAction(pid, k);
        ActOn(t, action, io(k));
      }
      todo := todo - {k};
      assert forall j :: j in threads && j != k ==> threads[j] != t;
    }
  }

  // What becomes of one thread.

  /** Where an action sends a thread when every system call succeeds. */
  function Destination(state: State, a: Action): State {
    match a
    case NoAction => state
    case Continue => if state == New || state == Stopped then Running else state
    case Step => if state == Stopped then Stepping else state
  }

  predicate AllSucceed(io: ContIo) {
    io.resume && io.step == StepIo(true, RegIo(true, true), true, RegIo(true, true))
  }

  /** With a willing kernel each live thread ends exactly where its action sends it. */
  lemma EndsWhereSent(s: Snapshot, a: Action, io: ContIo)
    requires Paired(s) && s.state != Gone && AllSucceed(io)
    ensures Acted(s, a, io).state == Destination(s.state, a)
  {
  }

  /** So does every thread of a round that was agreed to. */
  lemma RoundEndsWhereSent(r: Round, io: nat -> ContIo)
    requires Proper(r) && Agreed(r) && (forall k :: AllSucceed(io(k)))
    requires forall k :: k in r.values ==> Paired(r.values[k])
    ensures Result(r, io).Keys == SecondTable(r).Keys
    ensures forall k :: k in Result(r, io) ==>
                          Result(r, io)[k].state ==
                          if SecondTable(r)[k].state == Gone then Gone
                          else Destination(SecondTable(r)[k].state, ActionOf(r.plan, r.pid, k))
  {
    hide ActionOf, Refuses, NoneRefused, Ids, Opened, KernelIds, AllSucceed, Acted, Destination, Paired;
    CreatedIsPaired();
    var table := SecondTable(r);
    assert forall k :: k in table ==> Paired(table[k]);
    forall k | k in table && table[k].state != Gone
      ensures Acted(table[k], ActionOf(r.plan, r.pid, k), io(k)).state ==
              Destination(table[k].state, ActionOf(r.plan, r.pid, k))
    {
      EndsWhereSent(table[k], ActionOf(r.plan, r.pid, k), io(k));
    }
  }

  /** A continue turns into a step exactly when a stopped thread could not be resumed but could then be stepped. */
  lemma ContinueStepsIff(s: Snapshot, io: ContIo)
    requires Paired(s) && s.state != Gone && s.state != Stepping
    ensures Acted(s, Continue, io).state == Stepping <==>
            s.state == Stopped && !io.resume && Threads.Step(s, io.step).0
  {
  }

  /** In particular never when the resume works: by then the thread has left the stopped state. */
  lemma ContinueNeverAlsoSteps(s: Snapshot, io: ContIo)
    requires io.resume && (s.state == New || s.state == Stopped)
    ensures Acted(s, Continue, io) == s.(state := Running)
  {
  }

  // From the text of a packet to what becomes of the threads.

  /** The round that a vCont with this argument makes. */
  predicate MadeBy(r: Round, text: string) {
    ParseActions(text, r.pid) == Some(Parsed(r.plan.default, r.plan.entries))
  }

  ghost predicate Willing(r: Round, io: nat -> ContIo) {
    (forall k :: AllSucceed(io(k))) && forall k :: k in r.values ==> Paired(r.values[k])
  }

  /** After vCont;c every thread that was new or stopped is running, and no other has changed its state. */
  lemma ContinueAll(r: Round, io: nat -> ContIo)
    requires Proper(r) && MadeBy(r, "c") && Willing(r, io)
    ensures Agreed(r) && Result(r, io).Keys == SecondTable(r).Keys
    ensures forall k :: k in Result(r, io) ==>
                          var was := SecondTable(r)[k].state;
                          Result(r, io)[k].state == if was == New || was == Stopped then Running else was
  {
    hide ParseActions, Looked, KernelIds, AllSucceed, Paired, ActAll;
    PlainActions(r.pid);
    assert forall k :: IsKoid(k) ==> ActionOf(r.plan, r.pid, k) == Continue;
    RoundEndsWhereSent(r, io);
  }

  /** vCont;s is refused if a thread is new; otherwise every stopped thread is stepping then, and no other has changed. */
  lemma StepAll(r: Round, io: nat -> ContIo)
    requires Proper(r) && MadeBy(r, "s") && Willing(r, io)
    ensures Agreed(r) <==> forall k :: k in FirstTable(r) ==> FirstTable(r)[k].state != New
    ensures Agreed(r) ==>
              && Result(r, io).Keys == SecondTable(r).Keys
              && forall k :: k in Result(r, io) ==>
                               var was := SecondTable(r)[k].state;
                               Result(r, io)[k].state == if was == Stopped then Stepping else was
  {
    hide ParseActions, Looked, KernelIds, AllSucceed, Paired, ActAll;
    PlainActions(r.pid);
    assert forall k :: IsKoid(k) ==> ActionOf(r.plan, r.pid, k) == Action.Step;
    if Agreed(r) {
      RoundEndsWhereSent(r, io);
    }
  }

  /** A vCont;c for one thread leaves every other one as it is. */
  lemma ContinueOne(r: Round, io: nat -> ContIo, tid: nat)
    requires Proper(r) && Willing(r, io) && r.pid < TWO_63 && 0 < tid < TWO_63
    requires MadeBy(r, "c:" + ThreadIds.EncodeThreadId(r.pid, tid))
    ensures Agreed(r) && Result(r, io).Keys == SecondTable(r).Keys
    ensures forall k :: k in Result(r, io) && k != tid ==> Result(r, io)[k] == SecondTable(r)[k]
    ensures tid in Result(r, io) ==>
              var was := SecondTable(r)[tid].state;
              Result(r, io)[tid].state == if was == New || was == Stopped then Running else was
  {
    hide ParseActions, ThreadIds.EncodeThreadId, Looked, KernelIds, AllSucceed, Paired;
    ActionForOne(r.pid, tid, r.pid);
    assert forall k :: IsKoid(k) ==> ActionOf(r.plan, r.pid, k) == if k == tid then Continue else NoAction;
    RoundEndsWhereSent(r, io);
  }
}
