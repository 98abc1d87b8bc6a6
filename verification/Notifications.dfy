/**
 * The notification queue, the vStopped drain and the two write stages of
 * RspServer (bin/debugserver/server.cc), as steps on a value. A run interleaves
 * the steps in any order; the lemmas speak about every run. RspServers has the
 * class whose methods take these steps.
 */
module Notifications {
  import opened Prelude

  /** `serial` numbers the events in the order they were queued; `address` is the object's identity. */
  datatype Notification = Notification(serial: nat, address: nat, event: string)

  /** Why PostWriteTask was called. Commands are numbered in the order they were read. */
  datatype Cause =
    | Announce(serial: nat)              // "%Stop:", first time or again
    | Drain(serial: nat, command: nat)   // the next queued event, in reply to vStopped
    | DrainDone(command: nat)            // "OK", in reply to the last vStopped
    | Response(command: nat)             // the reply to any other command
    | Started(command: nat)              // the deferred reply to vRun

  datatype Post = Post(data: string, cause: Cause) {
    /** The `notify` argument: '%' instead of '$'. */
    predicate IsNotification() {
      cause.Announce?
    }
    predicate ShowsEvent() {
      cause.Announce? || cause.Drain?
    }
    predicate Answers() {
      !cause.Announce?
    }
  }

  /** What travels to the socket: a one-byte acknowledgment or a framed packet. */
  datatype Item = Ack(good: bool, command: nat) | Packet(post: Post)

  datatype Channel = Channel(
    queue: seq<Notification>,          // notify_queue_
    pending: Option<Notification>,     // pending_notification_
    timers: multiset<nat>,             // armed resend timers, each with the identity it captured
    loop: seq<Post>,                   // write tasks posted on the message loop
    outgoing: seq<Item>,               // write tasks posted on the I/O thread
    wire: seq<Item>,                   // written to the socket
    events: seq<string>,               // history: every event ever queued
    addresses: seq<nat>,               // history: the identity of each of them
    posts: seq<Post>,                  // history: every call of PostWriteTask
    commands: nat,                     // history: packets read
    drained: nat,                      // history: vStopped packets that found something pending
    deferred: Option<nat>)             // history: the last vRun that started a program, until that is answered

  const INIT := Channel([], None, multiset{}, [], [], [], [], [], [], 0, 0, None)

  function PostWrite(c: Channel, data: string, cause: Cause): Channel {
    var post := Post(data, cause);
    c.(loop := c.loop + [post], posts := c.posts + [post])
  }

  function PostPending(c: Channel): Channel
    requires c.pending.Some?
  {
    var n := c.pending.value;
    PostWrite(c, "Stop:" + n.event, Announce(n.serial)).(timers := c.timers + multiset{n.address})
  }

  function TryPostNext(c: Channel): Channel {
    if c.pending.Some? || c.queue == [] then c
    else PostPending(c.(pending := Some(c.queue[0]), queue := c.queue[1..]))
  }

  function Queue(c: Channel, event: string, address: nat): Channel {
    TryPostNext(c.(queue := c.queue + [Notification(|c.events|, address, event)],
                   events := c.events + [event],
                   addresses := c.addresses + [address]))
  }

  /** A timer that captured `address` goes off: resend and rearm if that is still the pending object. */
  function TimerFires(c: Channel, address: nat): Channel
    requires address in c.timers
  {
    var c' := c.(timers := c.timers - multiset{address});
    if c.pending.Some? && c.pending.value.address == address then PostPending(c') else c'
  }

  function SendAck(c: Channel, good: bool): Channel {
    c.(commands := c.commands + 1, outgoing := c.outgoing + [Ack(good, c.commands)])
  }

  /** A verified vStopped, once its '+' is on its way. */
  function StopAck(c: Channel): Channel
    requires c.commands > 0
  {
    if c.pending.None? then c
    else if c.queue != [] then
      PostWrite(c.(queue := c.queue[1..], drained := c.drained + 1), c.queue[0].event,
                Drain(c.queue[0].serial, c.commands - 1))
    else
      PostWrite(c.(pending := None, drained := c.drained + 1), "OK", DrainDone(c.commands - 1))
  }

  function Respond(c: Channel, data: string): Channel
    requires c.commands > 0
  {
    PostWrite(c, data, Response(c.commands - 1))
  }

  /** A vRun that started its program: acknowledged, and answered later. */
  function Defer(c: Channel): Channel {
    SendAck(c, true).(deferred := Some(c.commands))
  }

  /** The first thread of a program answers the vRun that started it. */
  function AnswerRun(c: Channel, text: string): Channel {
    if c.deferred.None? then c
    else PostWrite(c.(deferred := None), text, Started(c.deferred.value))
  }

  /** The message loop runs its oldest write task, which frames the packet for the I/O thread. */
  function RunLoop(c: Channel): Channel {
    if c.loop == [] then c else c.(loop := c.loop[1..], outgoing := c.outgoing + [Packet(c.loop[0])])
  }

  /** The I/O thread runs its oldest write task. */
  function RunWriter(c: Channel): Channel {
    if c.outgoing == [] then c else c.(outgoing := c.outgoing[1..], wire := c.wire + [c.outgoing[0]])
  }

  datatype Step =
    | Event(event: string, address: nat)
    | BadPacket
    | StopAcked
    | Command(reply: Option<string>)   // None: a vRun that started its program
    | ThreadStarted(text: string)      // the first thread after vRun
    | Timer(address: nat)
    | LoopTurn
    | WriterTurn

  function Apply(c: Channel, s: Step): Channel {
    match s
    case Event(event, address) => Queue(c, event, address)
    case BadPacket => SendAck(c, false)
    case StopAcked => StopAck(SendAck(c, true))
    case Command(None) => Defer(c)
    case Command(Some(reply)) => Respond(SendAck(c, true), reply)
    case ThreadStarted(text) => AnswerRun(c, text)
    case Timer(address) => if address in c.timers then TimerFires(c, address) else c
    case LoopTurn => RunLoop(c)
    case WriterTurn => RunWriter(c)
  }

  function Run(steps: seq<Step>): Channel {
    if steps == [] then INIT else Apply(Run(steps[..|steps| - 1]), steps[|steps| - 1])
  }

  lemma RunOneMore(steps: seq<Step>, s: Step)
    ensures Run([]) == INIT
    ensures Run(steps + [s]) == Apply(Run(steps), s)
  {
    assert (steps + [s])[..|steps|] == steps;
  }

  // What was transmitted, read off the log of PostWriteTask calls.

  /** The serials of the events shown, in order, repeats included. */
  function Shown(posts: seq<Post>): seq<nat> {
    if posts == [] then []
    else
      var init, last := Shown(posts[..|posts| - 1]), posts[|posts| - 1];
      if last.ShowsEvent() then init + [last.cause.serial] else init
  }

  /** `xs` with every element kept only where it occurs first. */
  function FirstOnly(xs: seq<nat>): seq<nat> {
    if xs == [] then []
    else
      var init, last := xs[..|xs| - 1], xs[|xs| - 1];
      if last in init then FirstOnly(init) else FirstOnly(init) + [last]
  }

  function UpTo(n: nat): seq<nat> {
    if n == 0 then [] else UpTo(n - 1) + [n - 1]
  }

  lemma {:induction false} UpToElements(n: nat)
    ensures |UpTo(n)| == n && forall i :: 0 <= i < n ==> UpTo(n)[i] == i
  {
    if n > 0 {
      UpToElements(n - 1);
    }
  }

  lemma {:induction false} SameElements(xs: seq<nat>, x: nat)
    ensures x in FirstOnly(xs) <==> x in xs
    decreases |xs|
  {
    if xs != [] {
      var init, last := xs[..|xs| - 1], xs[|xs| - 1];
      SameElements(init, x);
      assert xs == init + [last];
      if last in init {
        SameElements(init, last);
      }
    }
  }

  lemma ShownOneMore(posts: seq<Post>, p: Post)
    ensures Shown(posts + [p]) == if p.ShowsEvent() then Shown(posts) + [p.cause.serial] else Shown(posts)
  {
    assert (posts + [p])[..|posts|] == posts;
  }

  lemma FirstOnlyOneMore(xs: seq<nat>, x: nat)
    ensures FirstOnly(xs + [x]) == if x in xs then FirstOnly(xs) else FirstOnly(xs) + [x]
  {
    assert (xs + [x])[..|xs|] == xs;
  }

  /** How many of the events have been transmitted at least once. */
  function SentCount(c: Channel): int {
    |c.events| - |c.queue|
  }

  /** The queue holds, in order, exactly the events that were never transmitted. */
  ghost predicate QueueIsTheRest(c: Channel) {
    && |c.queue| <= |c.events| == |c.addresses|
    && forall i :: 0 <= i < |c.queue| ==>
                     && c.queue[i].serial == SentCount(c) + i
                     && c.queue[i].event == c.events[SentCount(c) + i]
                     && c.queue[i].address == c.addresses[SentCount(c) + i]
  }

  ghost predicate PendingWasSent(c: Channel)
    requires QueueIsTheRest(c)
  {
    c.pending.Some? ==>
      var n := c.pending.value;
      n.serial < SentCount(c) && n.event == c.events[n.serial] && n.address == c.addresses[n.serial]
  }

  predicate TextMatches(p: Post, events: seq<string>, sent: int) {
    p.ShowsEvent() ==>
      && p.cause.serial < sent && p.cause.serial < |events|
      && p.data == (if p.IsNotification() then "Stop:" else "") + events[p.cause.serial]
  }

  ghost predicate TextsMatch(c: Channel) {
    forall i :: 0 <= i < |c.posts| ==> TextMatches(c.posts[i], c.events, SentCount(c))
  }

  ghost predicate FirstSends(posts: seq<Post>, n: nat) {
    FirstOnly(Shown(posts)) == UpTo(n)
  }

  /** The notification protocol's own state, for every run. */
  ghost predicate Delivered(c: Channel) {
    && QueueIsTheRest(c)
    && PendingWasSent(c)
    && TextsMatch(c)
    && (c.queue != [] ==> c.pending.Some?)
    && FirstSends(c.posts, SentCount(c))
    && c.drained + (if c.pending.Some? then 1 else 0) + |c.queue| == |c.events|
  }

  /** Showing event n after exactly 0 to n-1 moves the boundary; showing an earlier one does not. */
  lemma FirstSendsOneMore(posts: seq<Post>, p: Post, n: nat)
    requires FirstSends(posts, n)
    requires p.ShowsEvent() ==> p.cause.serial <= n
    ensures FirstSends(posts + [p], if p.ShowsEvent() && p.cause.serial == n then n + 1 else n)
  {
    hide Shown, FirstOnly;
    ShownOneMore(posts, p);
    if p.ShowsEvent() {
      var x := p.cause.serial;
      FirstOnlyOneMore(Shown(posts), x);
      UpToElements(n);
      SameElements(Shown(posts), x);
      if x < n {
        assert UpTo(n)[x] == x;
      }
    }
  }

  lemma TextsStillMatch(c: Channel, p: Post, events: seq<string>, sent: int)
    requires TextsMatch(c) && c.events <= events && SentCount(c) <= sent
    requires TextMatches(p, events, sent)
    ensures forall i :: 0 <= i < |c.posts + [p]| ==> TextMatches((c.posts + [p])[i], events, sent)
  {
    forall i | 0 <= i < |c.posts|
      ensures TextMatches(c.posts[i], events, sent)
    {
      assert TextMatches(c.posts[i], c.events, SentCount(c));
    }
  }

  lemma QueueDelivers(c: Channel, event: string, address: nat)
    requires Delivered(c)
    ensures Delivered(Queue(c, event, address))
  {
    hide FirstSends;
    var n := Notification(|c.events|, address, event);
    var p := Post("Stop:" + event, Announce(n.serial));
    var c' := Queue(c, event, address);
    if c.pending.None? {
      assert c.queue == [] && [n][1..] == [];
      assert c'.posts == c.posts + [p] && c'.queue == [] && c'.pending == Some(n);
      FirstSendsOneMore(c.posts, p, |c.events|);
      TextsStillMatch(c, p, c'.events, SentCount(c'));
    } else {
      assert forall i :: 0 <= i < |c.posts| ==> TextMatches(c.posts[i], c.events, SentCount(c));
    }
  }

  lemma TimerDelivers(c: Channel, address: nat)
    requires Delivered(c) && address in c.timers
    ensures Delivered(TimerFires(c, address))
  {
    hide FirstSends;
    if c.pending.Some? && c.pending.value.address == address {
      var n := c.pending.value;
      PostDelivers(c, "Stop:" + n.event, Announce(n.serial));
    }
  }

  /** Posting anything that shows no new event. */
  lemma PostDelivers(c: Channel, data: string, cause: Cause)
    requires Delivered(c) && TextMatches(Post(data, cause), c.events, SentCount(c))
    ensures Delivered(PostWrite(c, data, cause))
  {
    hide FirstSends;
    FirstSendsOneMore(c.posts, Post(data, cause), SentCount(c));
    TextsStillMatch(c, Post(data, cause), c.events, SentCount(c));
  }

  lemma StopAckDelivers(c: Channel)
    requires Delivered(c) && c.commands > 0
    ensures Delivered(StopAck(c))
  {
    hide FirstSends;
    if c.pending.Some? && c.queue != [] {
      var c' := StopAck(c);
      var p := Post(c.queue[0].event, Drain(c.queue[0].serial, c.commands - 1));
      assert c'.posts == c.posts + [p];
      FirstSendsOneMore(c.posts, p, SentCount(c));
      TextsStillMatch(c, p, c.events, SentCount(c'));
    } else if c.pending.Some? {
      FirstSendsOneMore(c.posts, Post("OK", DrainDone(c.commands - 1)), SentCount(c));
      TextsStillMatch(c, Post("OK", DrainDone(c.commands - 1)), c.events, SentCount(c));
    }
  }

  lemma AnswerRunDelivers(c: Channel, text: string)
    requires Delivered(c)
    ensures Delivered(AnswerRun(c, text))
  {
    hide FirstSends, PostWrite;
    if c.deferred.Some? {
      PostDelivers(c.(deferred := None), text, Started(c.deferred.value));
    }
  }

  lemma ApplyDelivers(c: Channel, s: Step)
    requires Delivered(c)
    ensures Delivered(Apply(c, s))
  {
    hide FirstSends, Queue, TimerFires, StopAck, PostWrite, AnswerRun;
    match s
    case Event(event, address) => QueueDelivers(c, event, address);
    case BadPacket =>
    case StopAcked => StopAckDelivers(SendAck(c, true));
    case Command(None) =>
    case Command(Some(reply)) => PostDelivers(SendAck(c, true), reply, Response(c.commands));
    case ThreadStarted(text) => AnswerRunDelivers(c, text);
    case Timer(address) =>
      if address in c.timers {
        TimerDelivers(c, address);
      }
    case LoopTurn =>
    case WriterTurn =>
  }

  lemma InitDelivered()
    ensures Delivered(INIT)
  {
  }

  /**
   * No event is lost, reordered or shown early: in every run the serials shown for
   * the first time are 0, 1, 2, … without a gap and the queue holds the rest.
   */
  lemma {:induction false} RunDelivers(steps: seq<Step>)
    ensures Delivered(Run(steps))
    decreases |steps|
  {
    hide Apply, Delivered;
    if steps == [] {
      InitDelivered();
    } else {
      RunDelivers(steps[..|steps| - 1]);
      ApplyDelivers(Run(steps[..|steps| - 1]), steps[|steps| - 1]);
    }
  }

  function EventsOf(c: Channel, serials: seq<nat>): seq<string>
    requires forall i :: 0 <= i < |serials| ==> serials[i] < |c.events|
  {
    seq(|serials|, i requires 0 <= i < |serials| => c.events[serials[i]])
  }

  function QueuedEvents(c: Channel): seq<string> {
    seq(|c.queue|, i requires 0 <= i < |c.queue| => c.queue[i].event)
  }

  /** The same in terms of the event texts: first transmissions, then the queue, are everything ever queued. */
  lemma NothingLostOrReordered(steps: seq<Step>)
    ensures var c := Run(steps);
            var first := FirstOnly(Shown(c.posts));
            && (forall i :: 0 <= i < |first| ==> first[i] < |c.events|)
            && EventsOf(c, first) + QueuedEvents(c) == c.events
  {
    hide Run, Shown, FirstOnly, UpTo;
    RunDelivers(steps);
    var c := Run(steps);
    UpToElements(SentCount(c));
    var all := EventsOf(c, UpTo(SentCount(c))) + QueuedEvents(c);
    forall i | 0 <= i < |all|
      ensures all[i] == c.events[i]
    {
      if i >= SentCount(c) {
        assert c.queue[i - SentCount(c)].event == c.events[i];
      }
    }
  }

  /** What a post may show: nothing, the next event never shown before, or the pending one once more. */
  ghost predicate ShowsRight(c: Channel, p: Post) {
    p.ShowsEvent() ==>
      p.cause.serial == SentCount(c) || (c.pending.Some? && p.cause == Announce(c.pending.value.serial))
  }

  lemma EventShowsRight(c: Channel, event: string, address: nat)
    requires QueueIsTheRest(c) && (c.queue != [] ==> c.pending.Some?)
    ensures Queue(c, event, address).posts == c.posts ||
            exists p :: Queue(c, event, address).posts == c.posts + [p] && ShowsRight(c, p)
  {
    if c.pending.None? {
      var p := Post("Stop:" + event, Announce(|c.events|));
      assert c.queue + [Notification(|c.events|, address, event)] == [Notification(|c.events|, address, event)];
      assert Queue(c, event, address).posts == c.posts + [p] && ShowsRight(c, p);
    }
  }

  lemma StopAckShowsRight(c: Channel)
    requires QueueIsTheRest(c)
    ensures var c' := StopAck(SendAck(c, true));
            c'.posts == c.posts || exists p :: c'.posts == c.posts + [p] && ShowsRight(c, p)
  {
    var c' := StopAck(SendAck(c, true));
    if c.pending.Some? && c.queue != [] {
      var p := Post(c.queue[0].event, Drain(c.queue[0].serial, c.commands));
      assert c'.posts == c.posts + [p] && ShowsRight(c, p);
    } else if c.pending.Some? {
      var p := Post("OK", DrainDone(c.commands));
      assert c'.posts == c.posts + [p] && ShowsRight(c, p);
    }
  }

  lemma TimerShowsRight(c: Channel, address: nat)
    requires address in c.timers
    ensures var c' := TimerFires(c, address);
            c'.posts == c.posts || exists p :: c'.posts == c.posts + [p] && ShowsRight(c, p)
  {
    var c' := TimerFires(c, address);
    if c.pending.Some? && c.pending.value.address == address {
      var p := Post("Stop:" + c.pending.value.event, Announce(c.pending.value.serial));
      assert c'.posts == c.posts + [p] && ShowsRight(c, p);
    }
  }

  /** A step posts at most one packet, and that shows what it may. */
  lemma StepShowsRight(c: Channel, s: Step)
    requires QueueIsTheRest(c) && (c.queue != [] ==> c.pending.Some?)
    ensures Apply(c, s).posts == c.posts ||
            exists p :: Apply(c, s).posts == c.posts + [p] && ShowsRight(c, p)
  {
    hide QueueIsTheRest, Queue, StopAck, TimerFires;
    match s
    case Event(event, address) => EventShowsRight(c, event, address);
    case StopAcked => StopAckShowsRight(c);
    case Command(Some(reply)) =>
      var p := Post(reply, Response(c.commands));
      assert Apply(c, s).posts == c.posts + [p] && ShowsRight(c, p);
    case ThreadStarted(text) =>
      if c.deferred.Some? {
        var p := Post(text, Started(c.deferred.value));
        assert Apply(c, s).posts == c.posts + [p] && ShowsRight(c, p);
      }
    case Timer(address) =>
      if address in c.timers {
        TimerShowsRight(c, address);
      }
    case _ =>
  }

  lemma NotShownYet(c: Channel, serial: nat)
    requires Delivered(c) && serial in Shown(c.posts)
    ensures serial < SentCount(c)
  {
    hide Shown, FirstOnly, UpTo;
    SameElements(Shown(c.posts), serial);
    UpToElements(SentCount(c));
  }

  /** A step shows an event again only if that event is the pending one. */
  lemma OnlyPendingRepeats(steps: seq<Step>, s: Step)
    ensures var c, c' := Run(steps), Apply(Run(steps), s);
            c'.posts == c.posts ||
            exists p :: c'.posts == c.posts + [p] &&
              (p.ShowsEvent() && p.cause.serial in Shown(c.posts) ==>
                 c.pending.Some? && p.cause == Announce(c.pending.value.serial))
  {
    hide Run, Apply, Shown, FirstSends, TextsMatch;
    RunDelivers(steps);
    var c, c' := Run(steps), Apply(Run(steps), s);
    StepShowsRight(c, s);
    if c'.posts != c.posts {
      var p :| c'.posts == c.posts + [p] && ShowsRight(c, p);
      if p.ShowsEvent() && p.cause.serial in Shown(c.posts) {
        NotShownYet(c, p.cause.serial);
      }
    }
  }

  /** Acknowledged, pending and queued events add up to the events queued; a queue implies something pending. */
  lemma Conservation(steps: seq<Step>)
    ensures var c := Run(steps);
            && c.drained + (if c.pending.Some? then 1 else 0) + |c.queue| == |c.events|
            && (c.queue != [] ==> c.pending.Some?)
  {
    RunDelivers(steps);
  }

  /** "OK" is posted by exactly the steps that empty a drain; a vStopped with nothing pending posts nothing. */
  lemma OkEndsTheDrain(steps: seq<Step>, s: Step)
    ensures var c, c' := Run(steps), Apply(Run(steps), s);
            (exists k :: c'.posts == c.posts + [Post("OK", DrainDone(k))]) <==>
            c.pending.Some? && c'.pending.None?
    ensures var c := Run(steps);
            Apply(c, StopAcked).posts == c.posts <==> c.pending.None?
  {
    hide Run;
    var c, c' := Run(steps), Apply(Run(steps), s);
    if c.pending.Some? && c'.pending.None? {
      assert c'.posts == c.posts + [Post("OK", DrainDone(c.commands))];
    }
    forall k | c'.posts == c.posts + [Post("OK", DrainDone(k))]
      ensures c.pending.Some? && c'.pending.None?
    {
      assert c'.posts[|c.posts|].cause == DrainDone(k);
    }
  }

  // Timers.

  ghost predicate PendingArmed(c: Channel) {
    c.pending.Some? ==> c.pending.value.address in c.timers
  }

  lemma ApplyKeepsArmed(c: Channel, s: Step)
    requires PendingArmed(c)
    ensures PendingArmed(Apply(c, s))
  {
    match s
    case Event(event, address) =>
      if c.pending.None? {
        var c' := Apply(c, s);
        assert c'.timers == c.timers + multiset{c'.pending.value.address};
      }
    case Timer(address) =>
      if address in c.timers && c.pending.Some? && c.pending.value.address == address {
        assert Apply(c, s).timers == c.timers - multiset{address} + multiset{address};
      }
    case _ =>
  }

  /** A pending notification is never without a resend timer. */
  lemma {:induction false} PendingHasTimer(steps: seq<Step>)
    ensures PendingArmed(Run(steps))
    decreases |steps|
  {
    hide Apply;
    if steps != [] {
      PendingHasTimer(steps[..|steps| - 1]);
      ApplyKeepsArmed(Run(steps[..|steps| - 1]), steps[|steps| - 1]);
    }
  }

  ghost predicate Distinct(xs: seq<nat>) {
    forall i, j :: 0 <= i < j < |xs| ==> xs[i] != xs[j]
  }

  /** Every armed timer captured an event already sent, and none is armed twice. */
  ghost predicate TimersSound(timers: multiset<nat>, sent: seq<nat>) {
    && (forall a :: a in timers ==> a in sent)
    && (forall a :: timers[a] <= 1)
  }

  function SentAddresses(c: Channel): seq<nat>
    requires |c.queue| <= |c.addresses|
  {
    c.addresses[..|c.addresses| - |c.queue|]
  }

  lemma TimersStaySound(timers: multiset<nat>, sent: seq<nat>, sent': seq<nat>)
    requires TimersSound(timers, sent) && sent <= sent'
    ensures TimersSound(timers, sent')
  {
    forall a | a in timers
      ensures a in sent'
    {
      var i :| 0 <= i < |sent| && sent[i] == a;
      assert sent'[i] == a;
    }
  }

  lemma QueueKeepsTimers(c: Channel, event: string, address: nat)
    requires Delivered(c) && TimersSound(c.timers, SentAddresses(c)) && Distinct(c.addresses + [address])
    ensures var c' := Queue(c, event, address);
            |c'.queue| <= |c'.addresses| && TimersSound(c'.timers, SentAddresses(c'))
  {
    hide FirstSends;
    var c' := Queue(c, event, address);
    var all := c.addresses + [address];
    assert c'.addresses == all;
    if c.pending.None? {
      assert c.queue == [] && c'.queue == [] && SentAddresses(c) == c.addresses && SentAddresses(c') == all;
      assert c'.timers == c.timers + multiset{address};
      assert address !in c.addresses by {
        assert forall i :: 0 <= i < |c.addresses| ==> c.addresses[i] == all[i];
        assert all[|c.addresses|] == address;
      }
    } else {
      assert SentAddresses(c') == SentAddresses(c);
    }
  }

  lemma StopAckKeepsTimers(c: Channel)
    requires QueueIsTheRest(c) && c.commands > 0 && TimersSound(c.timers, SentAddresses(c))
    ensures var c' := StopAck(c);
            |c'.queue| <= |c'.addresses| && TimersSound(c'.timers, SentAddresses(c'))
  {
    hide TimersSound;
    TimersStaySound(c.timers, SentAddresses(c), SentAddresses(StopAck(c)));
  }

  lemma TimerKeepsTimers(c: Channel, address: nat)
    requires QueueIsTheRest(c) && address in c.timers && TimersSound(c.timers, SentAddresses(c))
    ensures var c' := TimerFires(c, address);
            |c'.queue| <= |c'.addresses| && TimersSound(c'.timers, SentAddresses(c'))
  {
    assert TimerFires(c, address).timers <= c.timers;
  }

  lemma ApplyKeepsTimers(c: Channel, s: Step)
    requires Delivered(c) && TimersSound(c.timers, SentAddresses(c)) && Distinct(Apply(c, s).addresses)
    ensures var c' := Apply(c, s);
            |c'.queue| <= |c'.addresses| && TimersSound(c'.timers, SentAddresses(c'))
  {
    hide FirstSends, Queue, TimerFires, StopAck, TimersSound, TextsMatch;
    match s
    case Event(event, address) =>
      AddressesAfter(c, s);
      QueueKeepsTimers(c, event, address);
    case StopAcked => StopAckKeepsTimers(SendAck(c, true));
    case Timer(address) =>
      if address in c.timers {
        TimerKeepsTimers(c, address);
      }
    case _ =>
  }

  lemma AddressesAfter(c: Channel, s: Step)
    ensures Apply(c, s).addresses == if s.Event? then c.addresses + [s.address] else c.addresses
  {
  }

  lemma DistinctPrefix(xs: seq<nat>, ys: seq<nat>)
    requires xs <= ys && Distinct(ys)
    ensures Distinct(xs)
  {
    assert forall i :: 0 <= i < |xs| ==> xs[i] == ys[i];
  }

  lemma {:induction false} RunKeepsTimers(steps: seq<Step>)
    requires Distinct(Run(steps).addresses)
    ensures Delivered(Run(steps)) && TimersSound(Run(steps).timers, SentAddresses(Run(steps)))
    decreases |steps|
  {
    hide Apply, Distinct, TimersSound, FirstSends, TextsMatch;
    RunDelivers(steps);
    if steps == [] {
      InitTimers();
    } else {
      var c, s := Run(steps[..|steps| - 1]), steps[|steps| - 1];
      AddressesAfter(c, s);
      DistinctPrefix(c.addresses, Apply(c, s).addresses);
      RunKeepsTimers(steps[..|steps| - 1]);
      ApplyKeepsTimers(c, s);
    }
  }

  lemma InitTimers()
    ensures TimersSound(INIT.timers, SentAddresses(INIT))
  {
  }

  /** If no two notifications ever share an identity, the pending one has exactly one timer. */
  lemma PendingHasOneTimer(steps: seq<Step>)
    requires Distinct(Run(steps).addresses)
    ensures var c := Run(steps); c.pending.Some? ==> c.timers[c.pending.value.address] == 1
  {
    hide Run;
    RunKeepsTimers(steps);
    PendingHasTimer(steps);
  }

  /** How many timers for its address were already armed when the pending notification became pending. */
  function ArmedBefore(steps: seq<Step>): nat {
    if steps == [] then 0
    else
      var c, c' := Run(steps[..|steps| - 1]), Run(steps);
      if c'.pending.None? then 0
      else if c'.pending == c.pending then ArmedBefore(steps[..|steps| - 1])
      else c.timers[c'.pending.value.address]
  }

  /** Becoming pending arms one timer more, and while it is pending their number stays the same. */
  lemma StepKeepsTimerCount(c: Channel, s: Step)
    requires QueueIsTheRest(c) && PendingWasSent(c)
    ensures var c' := Apply(c, s);
            c'.pending.Some? ==>
              var a := c'.pending.value.address;
              c'.timers[a] == if c'.pending == c.pending then c.timers[a] else c.timers[a] + 1
  {
  }

  lemma {:induction false} PendingTimerCount(steps: seq<Step>)
    ensures var c := Run(steps);
            c.pending.Some? ==> c.timers[c.pending.value.address] == ArmedBefore(steps) + 1
    decreases |steps|
  {
    hide Apply, FirstSends, TextsMatch;
    if steps != [] {
      var most := steps[..|steps| - 1];
      PendingTimerCount(most);
      RunDelivers(most);
      StepKeepsTimerCount(Run(most), steps[|steps| - 1]);
    }
  }

  /**
   * In every run the pending notification has exactly one timer if and only if no
   * timer for its address was armed when it became pending.
   */
  lemma PendingHasOneTimerIff(steps: seq<Step>)
    requires Run(steps).pending.Some?
    ensures var c := Run(steps);
            c.timers[c.pending.value.address] == 1 <==> ArmedBefore(steps) == 0
  {
    hide Run, ArmedBefore;
    PendingTimerCount(steps);
  }

  /** An object allocated where a freed one was gives the new notification a second timer. */
  lemma ReusedAddressArmsTwice(address: nat, e0: string, e1: string)
    ensures Run([Event(e0, address), StopAcked, Event(e1, address)]).timers[address] == 2
  {
    hide Run, Apply;
    var s1, s2 := [Event(e0, address)], [Event(e0, address), StopAcked];
    RunOneMore([], Event(e0, address));
    StepWaits(INIT, Event(e0, address));
    assert [] + [Event(e0, address)] == s1;
    RunOneMore(s1, StopAcked);
    StepWaits(Run(s1), StopAcked);
    assert s1 + [StopAcked] == s2;
    RunOneMore(s2, Event(e1, address));
    StepWaits(Run(s2), Event(e1, address));
    assert s2 + [Event(e1, address)] == [Event(e0, address), StopAcked, Event(e1, address)];
  }

  // The two write stages.

  function Packets(items: seq<Item>): seq<Post> {
    if items == [] then []
    else
      var init, last := Packets(items[..|items| - 1]), items[|items| - 1];
      if last.Packet? then init + [last.post] else init
  }

  lemma PacketsOneMore(items: seq<Item>, item: Item)
    ensures Packets(items + [item]) == if item.Packet? then Packets(items) + [item.post] else Packets(items)
  {
    assert (items + [item])[..|items|] == items;
  }

  ghost predicate AckedBefore(items: seq<Item>, command: nat, end: nat) {
    exists i :: 0 <= i < end && i < |items| && items[i] == Ack(true, command)
  }

  /** Every answer comes after the '+' of its command. */
  ghost predicate AcksFirst(items: seq<Item>) {
    forall j :: 0 <= j < |items| && items[j].Packet? && items[j].post.Answers() ==>
                  AckedBefore(items, items[j].post.cause.command, j)
  }

  /** What has reached the I/O thread, then the loop, is every call of PostWriteTask in order. */
  ghost predicate Ordered(c: Channel) {
    var sent := c.wire + c.outgoing;
    && Packets(sent) + c.loop == c.posts
    && AcksFirst(sent)
    && (forall i :: 0 <= i < |c.loop| && c.loop[i].Answers() ==>
                      AckedBefore(sent, c.loop[i].cause.command, |sent|))
    && (c.deferred.Some? ==> AckedBefore(sent, c.deferred.value, |sent|))
  }

  lemma AppendItem(items: seq<Item>, item: Item)
    requires AcksFirst(items)
    requires item.Packet? && item.post.Answers() ==> AckedBefore(items, item.post.cause.command, |items|)
    ensures AcksFirst(items + [item])
    ensures forall k :: AckedBefore(items, k, |items|) ==> AckedBefore(items + [item], k, |items| + 1)
    ensures item.Ack? && item.good ==> AckedBefore(items + [item], item.command, |items| + 1)
  {
    var all := items + [item];
    forall k, end: nat | end <= |items| && AckedBefore(items, k, end)
      ensures AckedBefore(all, k, end) && AckedBefore(all, k, |items| + 1)
    {
      var i :| 0 <= i < end && i < |items| && items[i] == Ack(true, k);
      assert all[i] == Ack(true, k);
    }
    if item.Ack? && item.good {
      assert all[|items|] == Ack(true, item.command);
    }
  }

  lemma SendAckOrders(c: Channel, good: bool)
    requires Ordered(c)
    ensures Ordered(SendAck(c, good))
    ensures good ==> AckedBefore(SendAck(c, good).wire + SendAck(c, good).outgoing, c.commands,
                                 |c.wire + c.outgoing| + 1)
  {
    hide AckedBefore, AcksFirst, Packets;
    var sent, item := c.wire + c.outgoing, Ack(good, c.commands);
    AppendItem(sent, item);
    PacketsOneMore(sent, item);
    assert SendAck(c, good).wire + SendAck(c, good).outgoing == sent + [item];
  }

  lemma DeferOrders(c: Channel)
    requires Ordered(c)
    ensures Ordered(Defer(c))
  {
    hide AckedBefore, AcksFirst, Packets;
    SendAckOrders(c, true);
    assert |SendAck(c, true).wire + SendAck(c, true).outgoing| == |c.wire + c.outgoing| + 1;
  }

  lemma AnswerRunOrders(c: Channel, text: string)
    requires Ordered(c)
    ensures Ordered(AnswerRun(c, text))
  {
    hide AckedBefore, AcksFirst, Packets;
    if c.deferred.Some? {
      PostWriteOrders(c.(deferred := None), text, Started(c.deferred.value));
    }
  }

  lemma PostWriteOrders(c: Channel, data: string, cause: Cause)
    requires Ordered(c)
    requires Post(data, cause).Answers() ==>
               AckedBefore(c.wire + c.outgoing, cause.command, |c.wire + c.outgoing|)
    ensures Ordered(PostWrite(c, data, cause))
  {
    hide AckedBefore, AcksFirst, Packets;
    var p := Post(data, cause);
    assert Packets(c.wire + c.outgoing) + (c.loop + [p]) == (Packets(c.wire + c.outgoing) + c.loop) + [p];
  }

  lemma RunLoopOrders(c: Channel)
    requires Ordered(c)
    ensures Ordered(RunLoop(c))
  {
    hide AckedBefore, AcksFirst, Packets;
    if c.loop != [] {
      var sent, item := c.wire + c.outgoing, Packet(c.loop[0]);
      AppendItem(sent, item);
      PacketsOneMore(sent, item);
      assert RunLoop(c).wire + RunLoop(c).outgoing == sent + [item];
      assert (Packets(sent) + [c.loop[0]]) + c.loop[1..] == Packets(sent) + c.loop;
    }
  }

  lemma RunWriterOrders(c: Channel)
    requires Ordered(c)
    ensures Ordered(RunWriter(c))
  {
    assert RunWriter(c).wire + RunWriter(c).outgoing == c.wire + c.outgoing;
  }

  lemma TryPostOrders(c: Channel)
    requires Ordered(c)
    ensures Ordered(TryPostNext(c))
  {
    if c.pending.None? && c.queue != [] {
      var n := c.queue[0];
      PostWriteOrders(c.(pending := Some(n), queue := c.queue[1..]), "Stop:" + n.event, Announce(n.serial));
    }
  }

  lemma StopAckOrders(c: Channel)
    requires Ordered(c) && c.commands > 0
    requires AckedBefore(c.wire + c.outgoing, c.commands - 1, |c.wire + c.outgoing|)
    ensures Ordered(StopAck(c))
  {
    if c.pending.Some? && c.queue != [] {
      PostWriteOrders(c.(queue := c.queue[1..], drained := c.drained + 1), c.queue[0].event,
                      Drain(c.queue[0].serial, c.commands - 1));
    } else if c.pending.Some? {
      PostWriteOrders(c.(pending := None, drained := c.drained + 1), "OK", DrainDone(c.commands - 1));
    }
  }

  lemma TimerOrders(c: Channel, address: nat)
    requires Ordered(c) && address in c.timers
    ensures Ordered(TimerFires(c, address))
  {
    hide AckedBefore;
    if c.pending.Some? && c.pending.value.address == address {
      var n := c.pending.value;
      PostWriteOrders(c.(timers := c.timers - multiset{address}), "Stop:" + n.event, Announce(n.serial));
    }
  }

  lemma QueueOrders(c: Channel, event: string, address: nat)
    requires Ordered(c)
    ensures Ordered(Queue(c, event, address))
  {
    hide TryPostNext;
    TryPostOrders(c.(queue := c.queue + [Notification(|c.events|, address, event)],
                     events := c.events + [event], addresses := c.addresses + [address]));
  }

  lemma AnswerOrders(c: Channel, answer: Option<string>)
    requires Ordered(c)
    ensures Ordered(StopAck(SendAck(c, true)))
    ensures answer.Some? ==> Ordered(Respond(SendAck(c, true), answer.value))
  {
    hide AckedBefore, Ordered;
    SendAckOrders(c, true);
    StopAckOrders(SendAck(c, true));
    if answer.Some? {
      PostWriteOrders(SendAck(c, true), answer.value, Response(c.commands));
    }
  }

  lemma ApplyOrders(c: Channel, s: Step)
    requires Ordered(c)
    ensures Ordered(Apply(c, s))
  {
    hide Ordered, AckedBefore, Queue, StopAck, Respond, Defer, AnswerRun, TimerFires, RunLoop, RunWriter;
    match s
    case Event(event, address) => QueueOrders(c, event, address);
    case BadPacket => SendAckOrders(c, false);
    case StopAcked => AnswerOrders(c, None);
    case Command(None) => DeferOrders(c);
    case Command(answer) => AnswerOrders(c, answer);
    case ThreadStarted(text) => AnswerRunOrders(c, text);
    case Timer(address) =>
      if address in c.timers {
        TimerOrders(c, address);
      }
    case LoopTurn => RunLoopOrders(c);
    case WriterTurn => RunWriterOrders(c);
  }

  lemma {:induction false} RunOrders(steps: seq<Step>)
    ensures Ordered(Run(steps))
    decreases |steps|
  {
    if steps != [] {
      hide Apply, Ordered;
      RunOrders(steps[..|steps| - 1]);
      ApplyOrders(Run(steps[..|steps| - 1]), steps[|steps| - 1]);
    }
  }

  lemma {:induction false} PacketsOfPrefix(a: seq<Item>, b: seq<Item>)
    ensures Packets(a) <= Packets(a + b)
    decreases |b|
  {
    if b == [] {
      assert a + b == a;
    } else {
      PacketsOfPrefix(a, b[..|b| - 1]);
      assert a + b == (a + b[..|b| - 1]) + [b[|b| - 1]];
      PacketsOneMore(a + b[..|b| - 1], b[|b| - 1]);
    }
  }

  /**
   * Packets reach the wire in the order PostWriteTask was called, and each answer
   * comes after the '+' of the command it answers.
   */
  lemma WireInOrder(steps: seq<Step>)
    ensures Packets(Run(steps).wire) <= Run(steps).posts
    ensures AcksFirst(Run(steps).wire)
  {
    RunOrders(steps);
    var c := Run(steps);
    var sent := c.wire + c.outgoing;
    PacketsOfPrefix(c.wire, c.outgoing);
    assert Packets(sent) <= c.posts;
    forall j | 0 <= j < |c.wire| && c.wire[j].Packet? && c.wire[j].post.Answers()
      ensures AckedBefore(c.wire, c.wire[j].post.cause.command, j)
    {
      assert sent[j] == c.wire[j];
      var i :| 0 <= i < j && i < |sent| && sent[i] == Ack(true, c.wire[j].post.cause.command);
      assert c.wire[i] == sent[i];
    }
  }

  /** An acknowledgment skips the message loop, so it can overtake a packet posted before it. */
  lemma AckOvertakes(event: string, address: nat)
    ensures Run([Event(event, address), BadPacket, LoopTurn]).outgoing ==
            [Ack(false, 0), Packet(Post("Stop:" + event, Announce(0)))]
  {
    hide Run;
    var s1, s2 := [Event(event, address)], [Event(event, address), BadPacket];
    RunOneMore([], Event(event, address));
    assert [] + [Event(event, address)] == s1;
    assert Run(s1).loop == [Post("Stop:" + event, Announce(0))];
    RunOneMore(s1, BadPacket);
    assert s1 + [BadPacket] == s2;
    RunOneMore(s2, LoopTurn);
    assert s2 + [LoopTurn] == [Event(event, address), BadPacket, LoopTurn];
  }

  // How many packets answer.

  function CountAnswers(posts: seq<Post>): nat {
    if posts == [] then 0
    else CountAnswers(posts[..|posts| - 1]) + (if posts[|posts| - 1].IsNotification() then 0 else 1)
  }

  lemma CountOneMore(posts: seq<Post>, p: Post)
    ensures CountAnswers(posts + [p]) == CountAnswers(posts) + (if p.IsNotification() then 0 else 1)
  {
    assert (posts + [p])[..|posts|] == posts;
  }

  function RepliesTo(c: Channel, s: Step): nat {
    if (s.Command? && s.reply.Some?) || (s.ThreadStarted? && c.deferred.Some?) then 1 else 0
  }

  function CountReplied(steps: seq<Step>): nat {
    if steps == [] then 0
    else CountReplied(steps[..|steps| - 1]) + RepliesTo(Run(steps[..|steps| - 1]), steps[|steps| - 1])
  }

  lemma RepliedOneMore(steps: seq<Step>, s: Step)
    ensures CountReplied(steps + [s]) == CountReplied(steps) + RepliesTo(Run(steps), s)
  {
    hide Run;
    assert (steps + [s])[..|steps|] == steps;
  }

  lemma ApplyCounts(c: Channel, s: Step)
    ensures CountAnswers(Apply(c, s).posts) - Apply(c, s).drained ==
            CountAnswers(c.posts) - c.drained + RepliesTo(c, s)
  {
    hide CountAnswers;
    var c' := Apply(c, s);
    if c'.posts != c.posts {
      var p := c'.posts[|c.posts|];
      assert c'.posts == c.posts + [p];
      CountOneMore(c.posts, p);
    }
  }

  /** '$' packets are the replies to commands, the deferred replies to vRun, and one per effective vStopped. */
  lemma {:induction false} ReplyCount(steps: seq<Step>)
    ensures CountAnswers(Run(steps).posts) == CountReplied(steps) + Run(steps).drained
    decreases |steps|
  {
    hide Apply;
    if steps != [] {
      ReplyCount(steps[..|steps| - 1]);
      ApplyCounts(Run(steps[..|steps| - 1]), steps[|steps| - 1]);
    }
  }

  /** Answers are to commands that were read, no two of them to the same one, and none to the run still waiting. */
  ghost predicate AnswersDiffer(c: Channel) {
    && (forall i :: 0 <= i < |c.posts| && c.posts[i].Answers() ==> c.posts[i].cause.command < c.commands)
    && (forall i, j :: 0 <= i < j < |c.posts| && c.posts[i].Answers() && c.posts[j].Answers() ==>
                         c.posts[i].cause.command != c.posts[j].cause.command)
    && (c.deferred.Some? ==>
          && c.deferred.value < c.commands
          && forall i :: 0 <= i < |c.posts| && c.posts[i].Answers() ==> c.posts[i].cause.command != c.deferred.value)
  }

  /** Posting an answer to a command that has none yet. */
  lemma PostDiffers(c: Channel, data: string, cause: Cause)
    requires AnswersDiffer(c)
    requires !cause.Announce? ==> cause.command < c.commands && c.deferred != Some(cause.command)
    requires !cause.Announce? ==>
               forall i :: 0 <= i < |c.posts| && c.posts[i].Answers() ==> c.posts[i].cause.command != cause.command
    ensures AnswersDiffer(PostWrite(c, data, cause))
  {
    var posts := c.posts + [Post(data, cause)];
    assert forall i :: 0 <= i < |c.posts| ==> posts[i] == c.posts[i];
  }

  lemma AnnounceDiffers(c: Channel)
    requires AnswersDiffer(c) && c.pending.Some?
    ensures AnswersDiffer(PostPending(c))
  {
    hide PostWrite;
    var n := c.pending.value;
    PostDiffers(c, "Stop:" + n.event, Announce(n.serial));
    PostWriteKeeps(c, "Stop:" + n.event, Announce(n.serial));
  }

  lemma QueueDiffers(c: Channel, event: string, address: nat)
    requires AnswersDiffer(c)
    ensures AnswersDiffer(Queue(c, event, address))
  {
    hide PostPending;
    var c1 := c.(queue := c.queue + [Notification(|c.events|, address, event)], events := c.events + [event],
                 addresses := c.addresses + [address]);
    if c.pending.None? {
      AnnounceDiffers(c1.(pending := Some(c1.queue[0]), queue := c1.queue[1..]));
    }
  }

  lemma StopAckDiffers(c: Channel)
    requires AnswersDiffer(c)
    ensures AnswersDiffer(StopAck(SendAck(c, true)))
  {
    hide PostWrite;
    var c1 := SendAck(c, true);
    if c.pending.Some? && c.queue != [] {
      PostDiffers(c1.(queue := c.queue[1..], drained := c.drained + 1), c.queue[0].event,
                  Drain(c.queue[0].serial, c.commands));
    } else if c.pending.Some? {
      PostDiffers(c1.(pending := None, drained := c.drained + 1), "OK", DrainDone(c.commands));
    }
  }

  lemma ApplyDiffers(c: Channel, s: Step)
    requires AnswersDiffer(c)
    ensures AnswersDiffer(Apply(c, s))
  {
    hide PostWrite, PostPending, Queue, StopAck;
    match s
    case Event(event, address) => QueueDiffers(c, event, address);
    case StopAcked => StopAckDiffers(c);
    case Command(Some(reply)) => PostDiffers(SendAck(c, true), reply, Response(c.commands));
    case ThreadStarted(text) =>
      if c.deferred.Some? {
        PostDiffers(c.(deferred := None), text, Started(c.deferred.value));
      }
    case Timer(address) =>
      if address in c.timers && c.pending.Some? && c.pending.value.address == address {
        AnnounceDiffers(c.(timers := c.timers - multiset{address}));
      }
    case _ =>
  }

  lemma PostWriteKeeps(c: Channel, data: string, cause: Cause)
    ensures var c' := PostWrite(c, data, cause);
            c'.commands == c.commands && c'.deferred == c.deferred && c'.timers == c.timers
  {
  }

  lemma {:induction false} RunAnswersDiffer(steps: seq<Step>)
    ensures AnswersDiffer(Run(steps))
    decreases |steps|
  {
    hide Apply, AnswersDiffer;
    if steps == [] {
      assert AnswersDiffer(INIT) by { InitDiffers(); }
    } else {
      RunAnswersDiffer(steps[..|steps| - 1]);
      ApplyDiffers(Run(steps[..|steps| - 1]), steps[|steps| - 1]);
    }
  }

  lemma InitDiffers()
    ensures AnswersDiffer(INIT)
  {
  }

  /** In every run no command is answered twice, a vRun by way of its first thread included. */
  lemma AnsweredOnce(steps: seq<Step>, i: nat, j: nat)
    requires i < j < |Run(steps).posts| && Run(steps).posts[i].Answers() && Run(steps).posts[j].Answers()
    ensures Run(steps).posts[i].cause.command != Run(steps).posts[j].cause.command
  {
    hide Run;
    RunAnswersDiffer(steps);
  }

  // What each step does, written out.

  /** The packets a step posts: none or one. */
  lemma StepPosts(c: Channel, s: Step)
    requires c.queue != [] ==> c.pending.Some?
    ensures Apply(c, s).posts == c.posts +
            match s
            case Event(event, _) => if c.pending.Some? then [] else [Post("Stop:" + event, Announce(|c.events|))]
            case BadPacket => []
            case StopAcked =>
              if c.pending.None? then []
              else if c.queue == [] then [Post("OK", DrainDone(c.commands))]
              else [Post(c.queue[0].event, Drain(c.queue[0].serial, c.commands))]
            case Command(reply) => if reply.None? then [] else [Post(reply.value, Response(c.commands))]
            case ThreadStarted(text) => if c.deferred.None? then [] else [Post(text, Started(c.deferred.value))]
            case Timer(address) =>
              if address in c.timers && c.pending.Some? && c.pending.value.address == address then
                [Post("Stop:" + c.pending.value.event, Announce(c.pending.value.serial))]
              else []
            case LoopTurn => []
            case WriterTurn => []
  {
  }

  /** What waits for the peer, and the timers. */
  lemma StepWaits(c: Channel, s: Step)
    requires c.queue != [] ==> c.pending.Some?
    ensures var c' := Apply(c, s);
            match s
            case Event(event, address) =>
              var n := Notification(|c.events|, address, event);
              if c.pending.Some? then c'.pending == c.pending && c'.queue == c.queue + [n] && c'.timers == c.timers
              else c'.pending == Some(n) && c'.queue == [] && c'.timers == c.timers + multiset{address}
            case StopAcked =>
              && c'.timers == c.timers
              && if c.queue == [] then c'.queue == [] && c'.pending == None
                 else c'.queue == c.queue[1..] && c'.pending == c.pending
            case Timer(address) =>
              && c'.pending == c.pending && c'.queue == c.queue
              && c'.timers ==
                 if c.pending.Some? && c.pending.value.address == address then c.timers
                 else c.timers - multiset{address}
            case _ => c'.pending == c.pending && c'.queue == c.queue && c'.timers == c.timers
  {
    hide Queue, StopAck, TimerFires;
    match s
    case Event(event, address) => EventWaits(c, event, address);
    case StopAcked => StopAckWaits(SendAck(c, true));
    case Timer(address) => TimerWaits(c, address);
    case _ =>
  }

  lemma EventWaits(c: Channel, event: string, address: nat)
    requires c.queue != [] ==> c.pending.Some?
    ensures var c', n := Queue(c, event, address), Notification(|c.events|, address, event);
            if c.pending.Some? then c'.pending == c.pending && c'.queue == c.queue + [n] && c'.timers == c.timers
            else c'.pending == Some(n) && c'.queue == [] && c'.timers == c.timers + multiset{address}
  {
    var n := Notification(|c.events|, address, event);
    assert c.pending.None? ==> c.queue + [n] == [n] && [n][1..] == [];
  }

  lemma StopAckWaits(c: Channel)
    requires c.commands > 0 && (c.queue != [] ==> c.pending.Some?)
    ensures var c' := StopAck(c);
            && c'.timers == c.timers
            && if c.queue == [] then c'.queue == [] && c'.pending == None
               else c'.queue == c.queue[1..] && c'.pending == c.pending
  {
  }

  lemma TimerWaits(c: Channel, address: nat)
    ensures var c' := if address in c.timers then TimerFires(c, address) else c;
            && c'.pending == c.pending && c'.queue == c.queue
            && c'.timers ==
               if c.pending.Some? && c.pending.value.address == address then c.timers
               else c.timers - multiset{address}
  {
    if address in c.timers && c.pending.Some? && c.pending.value.address == address {
      assert c.timers - multiset{address} + multiset{address} == c.timers;
    }
  }

  /** Which commands have been read and which run waits; every packet read is acknowledged at once. */
  lemma StepReads(c: Channel, s: Step)
    ensures var c' := Apply(c, s);
            && c'.commands == c.commands + (if Reads(s) then 1 else 0)
            && c'.deferred == (match s
                               case Command(None) => Some(c.commands)
                               case ThreadStarted(_) => None
                               case _ => c.deferred)
            && (Reads(s) ==> c'.outgoing == c.outgoing + [Ack(s != BadPacket, c.commands)])
  {
  }

  /** The write stages move one item along. */
  lemma StepMoves(c: Channel, s: Step)
    ensures var c' := Apply(c, s);
            && (s == LoopTurn && c.loop != [] ==>
                  c'.loop == c.loop[1..] && c'.outgoing == c.outgoing + [Packet(c.loop[0])])
            && (s == WriterTurn && c.outgoing != [] ==>
                  c'.outgoing == c.outgoing[1..] && c'.wire == c.wire + [c.outgoing[0]])
            && (s != WriterTurn ==> c'.wire == c.wire)
            && (s != LoopTurn ==> c'.loop == c.loop + c'.posts[|c.posts|..])
            && (s != LoopTurn && s != WriterTurn && !Reads(s) ==> c'.outgoing == c.outgoing)
  {
  }

  predicate Reads(s: Step) {
    s.BadPacket? || s.StopAcked? || s.Command?
  }

  // Whose reply a packet carries.

  /** How many packets have been read. */
  function CountReads(steps: seq<Step>): nat {
    if steps == [] then 0 else CountReads(steps[..|steps| - 1]) + (if Reads(steps[|steps| - 1]) then 1 else 0)
  }

  lemma {:induction false} CommandsAreReads(steps: seq<Step>)
    ensures Run(steps).commands == CountReads(steps)
    decreases |steps|
  {
    hide Apply;
    if steps != [] {
      CommandsAreReads(steps[..|steps| - 1]);
      StepReads(Run(steps[..|steps| - 1]), steps[|steps| - 1]);
    }
  }

  /** Step j read packet k. */
  ghost predicate ReadBy(steps: seq<Step>, j: nat, k: nat) {
    j < |steps| && Reads(steps[j]) && CountReads(steps[..j]) == k
  }

  /** The step that read packet k was `s`. */
  ghost predicate CommandWas(steps: seq<Step>, k: nat, s: Step) {
    exists j: nat :: ReadBy(steps, j, k) && steps[j] == s
  }

  /** Step j started a program with command k, and nothing answered it or took its place up to m. */
  ghost predicate WaitsFrom(steps: seq<Step>, j: nat, k: nat, m: nat) {
    && ReadBy(steps, j, k) && steps[j] == Command(None) && j < m <= |steps|
    && forall i :: j < i < m ==> steps[i] != Command(None) && !steps[i].ThreadStarted?
  }

  /** A program was started with command k, and still nothing has answered it or taken its place. */
  ghost predicate Waits(steps: seq<Step>, k: nat) {
    exists j: nat :: WaitsFrom(steps, j, k, |steps|)
  }

  /** Such a program was there when its first thread said this. */
  ghost predicate ThreadSaid(steps: seq<Step>, k: nat, text: string) {
    exists j: nat, m: nat :: WaitsFrom(steps, j, k, m) && m < |steps| && steps[m] == ThreadStarted(text)
  }

  /** A '$' packet is what the step that read its command, or the first thread after it, had to say. */
  ghost predicate IsTheirs(steps: seq<Step>, p: Post) {
    match p.cause
    case Response(k) => CommandWas(steps, k, Command(Some(p.data)))
    case Started(k) => ThreadSaid(steps, k, p.data)
    case Drain(_, k) => CommandWas(steps, k, StopAcked)
    case DrainDone(k) => p.data == "OK" && CommandWas(steps, k, StopAcked)
    case Announce(_) => true
  }

  lemma ReadsStay(steps: seq<Step>, s: Step, j: nat, k: nat)
    requires ReadBy(steps, j, k)
    ensures ReadBy(steps + [s], j, k) && (steps + [s])[j] == steps[j]
  {
    assert (steps + [s])[..j] == steps[..j];
  }

  lemma WaitStays(steps: seq<Step>, s: Step, j: nat, k: nat, m: nat)
    requires WaitsFrom(steps, j, k, m)
    ensures WaitsFrom(steps + [s], j, k, m)
    ensures m == |steps| && s != Command(None) && !s.ThreadStarted? ==> WaitsFrom(steps + [s], j, k, m + 1)
  {
    hide CountReads;
    ReadsStay(steps, s, j, k);
    assert forall i :: 0 <= i < |steps| ==> (steps + [s])[i] == steps[i];
  }

  lemma TheirsStays(steps: seq<Step>, s: Step, p: Post)
    requires IsTheirs(steps, p)
    ensures IsTheirs(steps + [s], p)
  {
    hide CountReads, WaitsFrom;
    if p.cause.Started? {
      var k := p.cause.command;
      var j: nat, m: nat :| WaitsFrom(steps, j, k, m) && m < |steps| && steps[m] == ThreadStarted(p.data);
      WaitStays(steps, s, j, k, m);
      assert (steps + [s])[m] == steps[m];
    } else if p.Answers() {
      var k := p.cause.command;
      var j: nat :| ReadBy(steps, j, k) &&
                    steps[j] == if p.cause.Response? then Command(Some(p.data)) else StopAcked;
      ReadsStay(steps, s, j, k);
    }
  }

  lemma LastWas(steps: seq<Step>, s: Step)
    requires Reads(s)
    ensures CommandWas(steps + [s], Run(steps).commands, s)
  {
    hide Run, CountReads;
    CommandsAreReads(steps);
    var all := steps + [s];
    assert all[..|steps|] == steps && all[|steps|] == s;
    assert ReadBy(all, |steps|, Run(steps).commands);
  }

  lemma ThreadAnswers(steps: seq<Step>, text: string, k: nat)
    requires Waits(steps, k)
    ensures ThreadSaid(steps + [ThreadStarted(text)], k, text)
  {
    hide WaitsFrom;
    var j: nat :| WaitsFrom(steps, j, k, |steps|);
    WaitStays(steps, ThreadStarted(text), j, k, |steps|);
    assert (steps + [ThreadStarted(text)])[|steps|] == ThreadStarted(text);
  }

  /** The packet a step posts is its own. */
  lemma NewIsTheirs(steps: seq<Step>, s: Step, p: Post)
    requires Run(steps).queue != [] ==> Run(steps).pending.Some?
    requires Apply(Run(steps), s).posts == Run(steps).posts + [p]
    requires Run(steps).deferred.Some? ==> Waits(steps, Run(steps).deferred.value)
    ensures IsTheirs(steps + [s], p)
  {
    hide Run, Apply, CommandWas, ThreadSaid, Waits;
    var c := Run(steps);
    StepPosts(c, s);
    assert p == (c.posts + [p])[|c.posts|];
    if Reads(s) {
      LastWas(steps, s);
    } else if s.ThreadStarted? {
      ThreadAnswers(steps, s.text, c.deferred.value);
    }
  }

  ghost predicate AllTheirs(steps: seq<Step>) {
    && (forall i :: 0 <= i < |Run(steps).posts| ==> IsTheirs(steps, Run(steps).posts[i]))
    && (Run(steps).deferred.Some? ==> Waits(steps, Run(steps).deferred.value))
  }

  lemma WaitOneMore(steps: seq<Step>, s: Step)
    requires AllTheirs(steps)
    ensures var c' := Apply(Run(steps), s);
            c'.deferred.Some? ==> Waits(steps + [s], c'.deferred.value)
  {
    hide Run, Apply, CountReads;
    var c, all := Run(steps), steps + [s];
    StepReads(c, s);
    CommandsAreReads(steps);
    assert all[..|steps|] == steps;
    if s == Command(None) {
      assert WaitsFrom(all, |steps|, c.commands, |steps| + 1);
    } else if Apply(c, s).deferred.Some? {
      var j: nat :| WaitsFrom(steps, j, c.deferred.value, |steps|);
      WaitStays(steps, s, j, c.deferred.value, |steps|);
    }
  }

  lemma {:induction false} RunIsTheirs(steps: seq<Step>)
    ensures AllTheirs(steps)
    decreases |steps|
  {
    hide Apply, IsTheirs, Waits, Delivered;
    if steps != [] {
      var most, s := steps[..|steps| - 1], steps[|steps| - 1];
      var c := Run(most);
      RunIsTheirs(most);
      DeliveredQueue(most);
      assert most + [s] == steps;
      WaitOneMore(most, s);
      StepShowsRight(c, s);
      forall i | 0 <= i < |Run(steps).posts|
        ensures IsTheirs(steps, Run(steps).posts[i])
      {
        if i < |c.posts| {
          TheirsStays(most, s, c.posts[i]);
        } else {
          NewIsTheirs(most, s, Run(steps).posts[i]);
        }
      }
    }
  }

  /**
   * In every run each '$' packet posted carries what the step that read its command had to
   * say: the reply of that command, the text of the first thread after that vRun, or OK at
   * the end of a drain.
   */
  lemma RepliesAreTheirs(steps: seq<Step>, i: nat)
    requires i < |Run(steps).posts|
    ensures IsTheirs(steps, Run(steps).posts[i])
  {
    RunIsTheirs(steps);
  }

  lemma {:induction false} PostsStay(steps: seq<Step>, j: nat)
    requires j <= |steps|
    ensures Run(steps[..j]).posts <= Run(steps).posts
    decreases |steps|
  {
    hide Apply, Delivered;
    if j < |steps| {
      var most, s := steps[..|steps| - 1], steps[|steps| - 1];
      PostsStay(most, j);
      assert most[..j] == steps[..j];
      DeliveredQueue(most);
      StepShowsRight(Run(most), s);
    } else {
      assert steps[..j] == steps;
    }
  }

  lemma DeliveredQueue(steps: seq<Step>)
    ensures QueueIsTheRest(Run(steps)) && (Run(steps).queue != [] ==> Run(steps).pending.Some?)
  {
    hide Run;
    RunDelivers(steps);
  }

  /** And every command that has a reply gets it, under its own number. */
  lemma EveryReplyIsPosted(steps: seq<Step>, j: nat)
    requires j < |steps| && steps[j].Command? && steps[j].reply.Some?
    ensures Post(steps[j].reply.value, Response(CountReads(steps[..j]))) in Run(steps).posts
  {
    hide Run, Apply, CountReads;
    var before, c := steps[..j], Run(steps[..j]);
    DeliveredQueue(before);
    CommandsAreReads(before);
    RunOneMore(before, steps[j]);
    StepPosts(c, steps[j]);
    assert before + [steps[j]] == steps[..j + 1];
    PostsStay(steps, j + 1);
    var p := Post(steps[j].reply.value, Response(c.commands));
    assert Run(steps[..j + 1]).posts == c.posts + [p];
    assert (c.posts + [p])[|c.posts|] == p;
  }

  // How often an event is announced.

  function Announced(posts: seq<Post>, serial: nat): nat {
    if posts == [] then 0
    else Announced(posts[..|posts| - 1], serial) + (if posts[|posts| - 1].cause == Announce(serial) then 1 else 0)
  }

  lemma AnnouncedOneMore(posts: seq<Post>, p: Post, serial: nat)
    ensures Announced(posts + [p], serial) == Announced(posts, serial) + (if p.cause == Announce(serial) then 1 else 0)
  {
    assert (posts + [p])[..|posts|] == posts;
  }

  predicate IsPending(c: Channel, serial: nat) {
    c.pending.Some? && c.pending.value.serial == serial
  }

  /** How many timers went off for the event while it was pending. */
  function Fired(steps: seq<Step>, serial: nat): nat {
    if steps == [] then 0
    else
      var c, s := Run(steps[..|steps| - 1]), steps[|steps| - 1];
      Fired(steps[..|steps| - 1], serial) +
      if s.Timer? && s.address in c.timers && IsPending(c, serial) && c.pending.value.address == s.address then 1 else 0
  }

  predicate EverPending(steps: seq<Step>, serial: nat) {
    steps != [] && (EverPending(steps[..|steps| - 1], serial) || IsPending(Run(steps), serial))
  }

  lemma {:induction false} PendingWasQueued(steps: seq<Step>, serial: nat)
    requires EverPending(steps, serial)
    ensures serial < |Run(steps).events|
    decreases |steps|
  {
    hide Apply, FirstSends, TextsMatch;
    RunDelivers(steps);
    var most, s := steps[..|steps| - 1], steps[|steps| - 1];
    EventsGrow(Run(most), s);
    if EverPending(most, serial) {
      PendingWasQueued(most, serial);
    }
  }

  lemma EventsGrow(c: Channel, s: Step)
    ensures Apply(c, s).events == if s.Event? then c.events + [s.event] else c.events
  {
  }

  /** What one step adds. */
  lemma AnnouncedByStep(c: Channel, s: Step, serial: nat)
    requires c.queue != [] ==> c.pending.Some?
    ensures var c' := Apply(c, s);
            Announced(c'.posts, serial) == Announced(c.posts, serial) +
            (if s.Timer? && s.address in c.timers && IsPending(c, serial) && c.pending.value.address == s.address then 1
             else if s.Event? && c.pending.None? && serial == |c.events| then 1
             else 0)
    ensures IsPending(Apply(c, s), serial) ==>
              IsPending(c, serial) || (s.Event? && c.pending.None? && serial == |c.events|)
    ensures s.Event? && c.pending.None? && serial == |c.events| ==> IsPending(Apply(c, s), serial)
  {
    hide Apply, Announced;
    var c' := Apply(c, s);
    StepPosts(c, s);
    StepWaits(c, s);
    if |c'.posts| > |c.posts| {
      var p := c'.posts[|c.posts|];
      assert c'.posts == c.posts + [p];
      AnnouncedOneMore(c.posts, p, serial);
    } else {
      assert c'.posts == c.posts;
    }
  }

  /**
   * In every run an event that ever was pending has been announced once, and once more for
   * every timer that went off for it while it was; any other never.
   */
  lemma {:induction false} AnnouncedTimes(steps: seq<Step>, serial: nat)
    ensures Announced(Run(steps).posts, serial) == if EverPending(steps, serial) then 1 + Fired(steps, serial) else 0
    ensures !EverPending(steps, serial) ==> Fired(steps, serial) == 0
    decreases |steps|
  {
    hide Apply;
    if steps != [] {
      var most, s := steps[..|steps| - 1], steps[|steps| - 1];
      AnnouncedTimes(most, serial);
      DeliveredQueue(most);
      AnnouncedByStep(Run(most), s, serial);
      WasPending(most, serial);
    }
  }

  lemma WasPending(steps: seq<Step>, serial: nat)
    ensures IsPending(Run(steps), serial) ==> EverPending(steps, serial)
    ensures EverPending(steps, serial) ==> serial < |Run(steps).events|
  {
    if EverPending(steps, serial) {
      PendingWasQueued(steps, serial);
    }
  }

  // Nothing stays behind.

  function Turns(s: Step, n: nat): seq<Step> {
    seq(n, _ => s)
  }

  lemma TurnsOneMore(steps: seq<Step>, s: Step, n: nat)
    requires n > 0
    ensures steps + Turns(s, n) == steps + Turns(s, n - 1) + [s]
  {
  }

  /** As many turns of the message loop as there are tasks empty it. */
  lemma {:induction false} LoopEmpties(steps: seq<Step>, n: nat)
    requires n <= |Run(steps).loop|
    ensures var c, c' := Run(steps), Run(steps + Turns(LoopTurn, n));
            && c'.loop == c.loop[n..] && |c'.outgoing| == |c.outgoing| + n && c'.posts == c.posts && c'.wire == c.wire
    decreases n
  {
    hide Run, Apply;
    if n == 0 {
      assert steps + Turns(LoopTurn, 0) == steps;
    } else {
      LoopEmpties(steps, n - 1);
      TurnsOneMore(steps, LoopTurn, n);
      var before := steps + Turns(LoopTurn, n - 1);
      RunOneMore(before, LoopTurn);
      StepMoves(Run(before), LoopTurn);
      DeliveredQueue(before);
      StepPosts(Run(before), LoopTurn);
    }
  }

  lemma {:induction false} WriterEmpties(steps: seq<Step>, n: nat)
    requires n <= |Run(steps).outgoing|
    ensures var c, c' := Run(steps), Run(steps + Turns(WriterTurn, n));
            c'.outgoing == c.outgoing[n..] && c'.loop == c.loop && c'.posts == c.posts
    decreases n
  {
    hide Run, Apply;
    if n == 0 {
      assert steps + Turns(WriterTurn, 0) == steps;
    } else {
      WriterEmpties(steps, n - 1);
      TurnsOneMore(steps, WriterTurn, n);
      var before := steps + Turns(WriterTurn, n - 1);
      RunOneMore(before, WriterTurn);
      StepMoves(Run(before), WriterTurn);
      DeliveredQueue(before);
      StepPosts(Run(before), WriterTurn);
    }
  }

  /** After any run, enough turns of the two loops leave every packet ever posted on the wire, in order. */
  lemma AllIsWritten(steps: seq<Step>)
    ensures var c := Run(steps);
            var done := steps + Turns(LoopTurn, |c.loop|) + Turns(WriterTurn, |c.outgoing| + |c.loop|);
            Packets(Run(done).wire) == Run(done).posts == c.posts
  {
    hide Run, Packets, AcksFirst;
    var c := Run(steps);
    var looped := steps + Turns(LoopTurn, |c.loop|);
    LoopEmpties(steps, |c.loop|);
    WriterEmpties(looped, |c.outgoing| + |c.loop|);
    var done := looped + Turns(WriterTurn, |c.outgoing| + |c.loop|);
    RunOrders(done);
    assert Run(done).loop == [] && Run(done).outgoing == [];
    assert Run(done).wire + Run(done).outgoing == Run(done).wire;
  }
}
