/**
 * The RSP server (bin/debugserver/server.cc): the notification protocol with its
 * bytes, the command handler and the inferior in one object graph. A failed check
 * sets `aborted`, and the methods say exactly when that happens. One check is
 * excluded: the one in TryBuildLoadedDsosList (lib/inferior-control/process.cc:651),
 * which fails when the registers cannot be read at a software breakpoint. The
 * module lists it belongs to are modelled apart from the server.
 */
module RspServers {
  import opened Prelude
  import opened CommandChecks
  import opened CommandRules
  import opened CommandHandlers
  import opened StopTexts
  import Hex
  import ThreadIds
  import PacketCodec
  import CommandText
  import StopReply
  import RegisterTexts
  import N = Notifications
  import E = ExceptionPorts
  import R = RegisterBlocks
  import T = Threads
  import P = Processes

  function ItemBytes(item: N.Item): string {
    match item
    case Ack(good, _) => if good then "+" else "-"
    case Packet(post) => PacketCodec.Frame(post.IsNotification(), post.data)
  }

  /** A packet read is answered with '+' or '-'; an announcement begins with '%', any other packet with '$'. */
  lemma ItemBytesIs(item: N.Item)
    ensures match item
            case Ack(good, _) => ItemBytes(item) == if good then "+" else "-"
            case Packet(post) =>
              var sum := PacketCodec.ByteSum(post.data) % 256;
              ItemBytes(item) == (if post.cause.Announce? then "%" else "$") + post.data + "#" +
                                 ["0123456789abcdef"[sum / 16], "0123456789abcdef"[sum % 16]]
  {
    hide PacketCodec.Frame, PacketCodec.ByteSum;
    if item.Packet? {
      PacketCodec.FrameIs(item.post.IsNotification(), item.post.data);
    }
  }

  function Stream(items: seq<N.Item>): string {
    if items == [] then "" else Stream(items[..|items| - 1]) + ItemBytes(items[|items| - 1])
  }

  lemma StreamOneMore(items: seq<N.Item>, item: N.Item)
    ensures Stream(items + [item]) == Stream(items) + ItemBytes(item)
  {
    assert (items + [item])[..|items|] == items;
  }

  /** What reaches the callback, if it is called. */
  function ReplyOf(r: Outcome): Option<string> {
    match r
    case Replied(text) => Some(text)
    case Unsupported => Some("")
    case _ => None
  }

  /** A check fails: in the handler, or in PostWriteTask on a reply that does not fit. */
  predicate Fatal(r: Outcome) {
    r.Tripped? || Overflows(r)
  }

  /** A command on which a check fails: in its handler, or on its reply. */
  ghost predicate Fails(v: View, packet: string, io: Io) {
    TripsOn(v, packet, io) || RepliesTooLong(v, packet, io)
  }

  /** Bytes that are a verified command of that kind. */
  ghost predicate Kills(v: View, bytes: string, io: Io) {
    bytes != "+" &&
    match PacketCodec.Verify(bytes)
    case None => false
    case Some(packet) => packet != "vStopped" && Fails(v, packet, io)
  }

  /** A '$' packet with the text of a stop reply. */
  predicate TellsNews(cause: N.Cause) {
    cause.Drain? || cause.Started?
  }

  /** What the main thread and the I/O thread find to do next. */
  datatype Input =
    | Bytes(bytes: string, io: Io)
    | Exception(key: E.Key, ty: P.ExceptionType, tid: nat, find: P.FindIo, cpu: R.Regs, regIo: T.RegIo,
                details: Details, address: nat)
    | TimerDue(timer: nat)
    | LoopTask
    | IoTask

  /** The steps that bytes read can be: none for a '+', else one, chosen by what they verify as. */
  ghost predicate Heard(bytes: string, steps: seq<N.Step>) {
    if bytes == "+" then steps == []
    else
      match PacketCodec.Verify(bytes)
      case None => steps == [N.BadPacket]
      case Some(packet) => if packet == "vStopped" then steps == [N.StopAcked] else |steps| == 1 && steps[0].Command?
  }

  /** What becomes of an input while the channel is `c`: None if it cannot happen yet, else the steps it is. */
  ghost predicate Matches(input: Input, c: N.Channel, taken: Option<seq<N.Step>>) {
    match input
    case Bytes(bytes, io) => (taken.Some? <==> Honest(io)) && (taken.Some? ==> Heard(bytes, taken.value))
    case Exception(_, _, _, _, _, _, _, _) =>
      taken.Some? ==> |taken.value| <= 1 && forall s :: s in taken.value ==> s.Event? || s.ThreadStarted?
    case TimerDue(address) => taken == if address in c.timers then Some([N.Timer(address)]) else None
    case LoopTask => taken == Some([N.LoopTurn])
    case IoTask => taken == Some([N.WriterTurn])
  }

  function Flat(log: seq<Option<seq<N.Step>>>): seq<N.Step> {
    if log == [] then []
    else Flat(log[..|log| - 1]) + (if log[|log| - 1].Some? then log[|log| - 1].value else [])
  }

  lemma FlatOneMore(log: seq<Option<seq<N.Step>>>, taken: Option<seq<N.Step>>)
    ensures Flat([]) == [] && Flat(log + [taken]) == Flat(log) + (if taken.Some? then taken.value else [])
  {
    assert (log + [taken])[..|log|] == log;
  }

  /** A log of inputs served so far, from a run of these steps on. */
  ghost predicate Logs(inputs: seq<Input>, start: seq<N.Step>, log: seq<Option<seq<N.Step>>>) {
    && |log| <= |inputs|
    && forall i :: 0 <= i < |log| ==> Matches(inputs[i], N.Run(start + Flat(log[..i])), log[i])
  }

  lemma LogOneMore(inputs: seq<Input>, start: seq<N.Step>, log: seq<Option<seq<N.Step>>>, taken: Option<seq<N.Step>>)
    requires Logs(inputs, start, log) && |log| < |inputs| && Matches(inputs[|log|], N.Run(start + Flat(log)), taken)
    ensures Logs(inputs, start, log + [taken])
  {
    hide Matches, Flat, N.Run;
    var all := log + [taken];
    forall i | 0 <= i < |all|
      ensures Matches(inputs[i], N.Run(start + Flat(all[..i])), all[i])
    {
      assert all[..i] == log[..i];
      assert i == |log| ==> log[..i] == log;
    }
  }

  class RspServer {
    const handler: CommandHandler
    const process: P.Process
    const outBuffer: array<char>
    var queue: seq<N.Notification>
    var pending: Option<N.Notification>
    var timers: multiset<nat>
    var loop: seq<N.Post>
    var outgoing: seq<string>          // bytes posted to the I/O thread
    var wireBytes: string              // bytes written to the socket
    var aborted: bool
    // History, in the terms of the protocol.
    var items: seq<N.Item>
    var wire: seq<N.Item>
    var events: seq<string>
    var addresses: seq<nat>
    var posts: seq<N.Post>
    var commands: nat
    var drained: nat
    var deferred: Option<nat>
    ghost var trace: seq<N.Step>       // the protocol steps taken
    ghost var others: nat              // verified commands that are not vStopped
    ghost var runs: nat                // vRun commands that started a program

    ghost function Channel(): N.Channel
      reads this
    {
      N.Channel(queue, pending, timers, loop, items, wire, events, addresses, posts, commands, drained, deferred)
    }

    ghost predicate AllFit()
      reads this
    {
      && (forall i :: 0 <= i < |queue| ==>
                        PacketCodec.Fits("Stop:" + queue[i].event) && PacketCodec.Carriable(queue[i].event))
      && (pending.Some? ==> PacketCodec.Fits("Stop:" + pending.value.event))
      && (forall i :: 0 <= i < |loop| ==> PacketCodec.Fits(loop[i].data))
      && (forall i :: 0 <= i < |posts| && TellsNews(posts[i].cause) ==> PacketCodec.Carriable(posts[i].data))
    }

    ghost predicate BytesOk()
      reads this
    {
      && |outgoing| == |items|
      && (forall i :: 0 <= i < |items| ==> outgoing[i] == ItemBytes(items[i]))
      && wireBytes == Stream(wire)
    }

    /** The server's own state: a state the protocol reaches, with the bytes to match. */
    ghost predicate ServerOk()
      reads this
    {
      !aborted && outBuffer.Length == PacketCodec.MAX_BUFFER_SIZE && AllFit() && BytesOk() && Channel() == N.Run(trace)
    }

    /** Who was answered: see ReplyRule. */
    ghost predicate Counted()
      reads this, process
    {
      && N.CountReplied(trace) + runs == others + process.firstThreads
      && process.starts == runs
    }

    ghost predicate Valid()
      reads this, process, process.port, process.ThreadObjects()
    {
      && !aborted && ServerOk() && process == handler.process && process.Valid() && !process.miscounted && Counted()
      && (process.state == P.PStarting ==> deferred.Some?)
    }

    constructor (handler: CommandHandler)
      requires handler.process.Valid() && handler.process.starts == handler.process.firstThreads == 0
      requires handler.process.state != P.PStarting && !handler.process.miscounted
      ensures Valid() && this.handler == handler && fresh(outBuffer)
      ensures trace == [] && others == runs == 0
    {
      this.handler := handler;
      this.process := handler.process;
      outBuffer := new char[PacketCodec.MAX_BUFFER_SIZE];
      queue, pending, timers, loop, outgoing, wireBytes := [], None, multiset{}, [], [], "";
      aborted := false;
      items, wire, events, addresses, posts, commands, drained, deferred := [], [], [], [], [], 0, 0, None;
      trace, others, runs := [], 0, 0;
    }

    // The protocol steps.

    method PostWriteTask(data: string, cause: N.Cause)
      requires PacketCodec.Fits(data) && (TellsNews(cause) ==> PacketCodec.Carriable(data))
      modifies this`loop, this`posts
      ensures Channel() == N.PostWrite(old(Channel()), data, cause)
      ensures old(AllFit()) ==> AllFit()
    {
      hide PacketCodec.Carriable;
      var post := N.Post(data, cause);
      loop := loop + [post];
      posts := posts + [post];
    }

    method PostPendingNotificationWriteTask()
      requires pending.Some? && PacketCodec.Fits("Stop:" + pending.value.event)
      modifies this`loop, this`posts, this`timers
      ensures Channel() == N.PostPending(old(Channel())) && (old(BytesOk()) ==> BytesOk())
      ensures posts == old(posts) + [N.Post("Stop:" + pending.value.event, N.Announce(pending.value.serial))]
      ensures timers == old(timers) + multiset{pending.value.address}
      ensures old(AllFit()) ==> AllFit()
    {
      hide PacketCodec.Carriable;
      PostWriteTask("Stop:" + pending.value.event, N.Announce(pending.value.serial));
      timers := timers + multiset{pending.value.address};
    }

    method TryPostNextNotification() returns (posted: bool)
      requires AllFit()
      modifies this`queue, this`pending, this`loop, this`posts, this`timers
      ensures Channel() == N.TryPostNext(old(Channel())) && AllFit()
      ensures posted <==> old(pending.None? && queue != [])
    {
      hide PacketCodec.Carriable;
      if pending.Some? || queue == [] {
        return false;
      }
      pending := Some(queue[0]);
      queue := queue[1..];
      PostPendingNotificationWriteTask();
      return true;
    }

    method Enqueue(event: string, address: nat)
      requires AllFit() && BytesOk() && PacketCodec.Fits("Stop:" + event) && PacketCodec.Carriable(event)
      modifies this`queue, this`pending, this`loop, this`posts, this`timers, this`events, this`addresses
      ensures Channel() == N.Queue(old(Channel()), event, address) && AllFit() && BytesOk()
    {
      hide PacketCodec.Fits, ItemBytes, Stream, PacketCodec.Carriable, N.PostPending;
      queue := queue + [N.Notification(|events|, address, event)];
      events := events + [event];
      addresses := addresses + [address];
      var posted := TryPostNextNotification();
    }

    method QueueNotification(event: string, address: nat)
      requires ServerOk() && PacketCodec.Fits("Stop:" + event) && PacketCodec.Carriable(event)
      modifies this`queue, this`pending, this`loop, this`posts, this`timers, this`events, this`addresses, this`trace
      ensures ServerOk() && trace == old(trace) + [N.Event(event, address)]
    {
      hide N.Run, N.Queue, AllFit, BytesOk, PacketCodec.Carriable;
      Enqueue(event, address);
      Record(N.Event(event, address));
    }

    /** A resend timer goes off. */
    method OnTimer(address: nat)
      requires ServerOk() && address in timers
      modifies this`loop, this`posts, this`timers, this`trace
      ensures ServerOk() && trace == old(trace) + [N.Timer(address)]
      ensures var due := pending.Some? && pending.value.address == address;
              && posts == old(posts) +
                          (if due then [N.Post("Stop:" + pending.value.event, N.Announce(pending.value.serial))] else [])
              && timers == if due then old(timers) else old(timers) - multiset{address}
    {
      hide N.Run, N.TimerFires, AllFit, BytesOk;
      FireTimer(address);
      Record(N.Timer(address));
    }

    method DropTimer(address: nat)
      requires AllFit() && BytesOk() && address in timers
      modifies this`timers
      ensures timers == old(timers) - multiset{address} && Channel() == old(Channel()).(timers := timers)
      ensures AllFit() && BytesOk()
    {
      hide PacketCodec.Fits, ItemBytes, Stream, PacketCodec.Carriable;
      timers := timers - multiset{address};
    }

    method FireTimer(address: nat)
      requires AllFit() && BytesOk() && address in timers
      modifies this`loop, this`posts, this`timers
      ensures Channel() == N.TimerFires(old(Channel()), address) && AllFit() && BytesOk()
      ensures var due := pending.Some? && pending.value.address == address;
              && posts == old(posts) +
                          (if due then [N.Post("Stop:" + pending.value.event, N.Announce(pending.value.serial))] else [])
              && timers == if due then old(timers) else old(timers) - multiset{address}
    {
      hide PacketCodec.Fits, PacketCodec.Carriable, BytesOk, N.PostPending;
      DropTimer(address);
      if pending.Some? && pending.value.address == address {
        PostPendingNotificationWriteTask();
        assert old(timers) - multiset{address} + multiset{address} == old(timers);
      }
    }

    method SendAck(good: bool)
      requires BytesOk() && AllFit()
      modifies this`commands, this`outgoing, this`items
      ensures Channel() == N.SendAck(old(Channel()), good) && BytesOk() && AllFit()
      ensures outgoing == old(outgoing) + [if good then "+" else "-"] && commands == old(commands) + 1
    {
      hide PacketCodec.Fits, Stream, PacketCodec.Carriable;
      outgoing := outgoing + [if good then "+" else "-"];
      items := items + [N.Ack(good, commands)];
      commands := commands + 1;
    }

    /** The message loop runs the oldest write task, through the out buffer. */
    method RunWriteTask()
      requires ServerOk()
      modifies this`loop, this`outgoing, this`items, this`trace, outBuffer
      ensures ServerOk() && trace == old(trace) + [N.LoopTurn]
      ensures old(loop) != [] ==>
                && loop == old(loop)[1..]
                && outgoing == old(outgoing) + [PacketCodec.Frame(old(loop)[0].cause.Announce?, old(loop)[0].data)]
    {
      hide N.Run, N.RunLoop, AllFit, BytesOk;
      WriteOldest();
      Record(N.LoopTurn);
    }

    method WriteOldest()
      requires AllFit() && BytesOk() && outBuffer.Length == PacketCodec.MAX_BUFFER_SIZE
      modifies this`loop, this`outgoing, this`items, outBuffer
      ensures Channel() == N.RunLoop(old(Channel())) && AllFit() && BytesOk()
      ensures old(loop) != [] ==>
                && loop == old(loop)[1..]
                && outgoing == old(outgoing) + [PacketCodec.Frame(old(loop)[0].cause.Announce?, old(loop)[0].data)]
    {
      hide Stream, PacketCodec.Carriable;
      if loop == [] {
        return;
      }
      var post := loop[0];
      var index := PacketCodec.FillOutBuffer(outBuffer, post.IsNotification(), post.data);
      outgoing := outgoing + [outBuffer[..index]];
      items := items + [N.Packet(post)];
      loop := loop[1..];
    }

    /** The I/O thread writes the oldest bytes posted to it. */
    method RunIoTask()
      requires ServerOk()
      modifies this`outgoing, this`items, this`wire, this`wireBytes, this`trace
      ensures ServerOk() && trace == old(trace) + [N.WriterTurn]
      ensures old(outgoing) != [] ==> outgoing == old(outgoing)[1..] && wireBytes == old(wireBytes) + old(outgoing)[0]
    {
      hide N.Run, N.RunWriter, AllFit, BytesOk;
      SendOldest();
      Record(N.WriterTurn);
    }

    method SendOldest()
      requires AllFit() && BytesOk()
      modifies this`outgoing, this`items, this`wire, this`wireBytes
      ensures Channel() == N.RunWriter(old(Channel())) && AllFit() && BytesOk()
      ensures old(outgoing) != [] ==> outgoing == old(outgoing)[1..] && wireBytes == old(wireBytes) + old(outgoing)[0]
    {
      hide PacketCodec.Fits, ItemBytes, Stream, PacketCodec.Carriable;
      if outgoing == [] {
        return;
      }
      StreamOneMore(wire, items[0]);
      wireBytes := wireBytes + outgoing[0];
      wire := wire + [items[0]];
      outgoing := outgoing[1..];
      items := items[1..];
    }

    /** A verified vStopped after its acknowledgment. */
    method OnStopAck()
      requires AllFit() && BytesOk() && commands > 0
      modifies this`queue, this`pending, this`loop, this`posts, this`drained
      ensures Channel() == N.StopAck(old(Channel())) && AllFit() && BytesOk()
      ensures posts == old(posts) +
                       if old(pending).None? then []
                       else if old(queue) == [] then [N.Post("OK", N.DrainDone(commands - 1))]
                       else [N.Post(old(queue)[0].event, N.Drain(old(queue)[0].serial, commands - 1))]
    {
      hide AllFit, BytesOk;
      if pending.Some? {
        if queue != [] {
          DrainNext();
        } else {
          EndDrain();
        }
      }
    }

    method DrainNext()
      requires AllFit() && BytesOk() && commands > 0 && pending.Some? && queue != []
      modifies this`queue, this`loop, this`posts, this`drained
      ensures Channel() == N.StopAck(old(Channel())) && AllFit() && BytesOk()
    {
      hide ItemBytes, Stream, PacketCodec.Carriable;
      var notif := queue[0];
      assert PacketCodec.Fits("Stop:" + notif.event);
      queue := queue[1..];
      drained := drained + 1;
      PostWriteTask(notif.event, N.Drain(notif.serial, commands - 1));
    }

    method EndDrain()
      requires AllFit() && BytesOk() && commands > 0 && pending.Some? && queue == []
      modifies this`pending, this`loop, this`posts, this`drained
      ensures Channel() == N.StopAck(old(Channel())) && AllFit() && BytesOk()
    {
      hide ItemBytes, Stream, PacketCodec.Carriable;
      pending := None;
      drained := drained + 1;
      PostWriteTask("OK", N.DrainDone(commands - 1));
    }

    /** Calls back with what a handler decided; an unsupported command gets the empty reply. */
    method Answer(r: Outcome)
      requires !aborted && AllFit() && BytesOk() && commands > 0
      modifies this`aborted, this`loop, this`posts, this`deferred
      ensures AllFit() && BytesOk() && (aborted <==> Fatal(r))
      ensures !aborted ==>
                Channel() == if ReplyOf(r).None? then old(Channel()).(deferred := Some(commands - 1))
                             else N.Respond(old(Channel()), ReplyOf(r).value)
      ensures !aborted ==>
                posts == old(posts) +
                         match r
                         case Replied(text) => [N.Post(text, N.Response(commands - 1))]
                         case Unsupported => [N.Post("", N.Response(commands - 1))]
                         case _ => []
    {
      hide ItemBytes, Stream, PacketCodec.Carriable;
      if r.Tripped? || Overflows(r) {
        aborted := true;
      } else if !r.Deferred? {
        PostWriteTask(if r.Replied? then r.text else "", N.Response(commands - 1));
      } else {
        deferred := Some(commands - 1);
      }
    }

    /** One protocol step has been taken on the channel. */
    ghost method Record(step: N.Step)
      requires Channel() == N.Apply(N.Run(trace), step) && AllFit() && BytesOk()
      modifies this`trace
      ensures trace == old(trace) + [step] && Channel() == N.Run(trace) && AllFit() && BytesOk()
    {
      hide N.Run, N.Apply;
      N.RunOneMore(trace, step);
      trace := trace + [step];
    }

    /** A command has been acknowledged and is being handled. */
    ghost predicate Handling()
      reads this
    {
      && !aborted && outBuffer.Length == PacketCodec.MAX_BUFFER_SIZE && AllFit() && BytesOk()
      && Channel() == N.SendAck(N.Run(trace), true)
    }

    /** That a command is acknowledged makes no difference to what its handler finds. */
    method Acknowledge()
      requires ServerOk() && process == handler.process && process.Valid()
      modifies this`commands, this`outgoing, this`items
      ensures Handling() && process.Valid() && outgoing == old(outgoing) + ["+"] && commands == old(commands) + 1
      ensures handler.Sees() == old(handler.Sees())
    {
      hide N.Run, AllFit, BytesOk, T.Paired, E.Sound;
      SendAck(true);
    }

    method Finish(r: Outcome)
      requires Handling() && process == handler.process && process.Valid()
      modifies this`aborted, this`loop, this`posts, this`deferred, this`trace, this`others, this`runs
      ensures process.Valid() && handler.Sees() == old(handler.Sees()) && (aborted <==> Fatal(r))
      ensures !aborted ==> deferred == if r.Deferred? then Some(commands - 1) else old(deferred)
      ensures others == old(others) + 1 && runs == old(runs) + (if r.Deferred? then 1 else 0)
      ensures !aborted ==> ServerOk() && trace == old(trace) + [N.Command(ReplyOf(r))]
      ensures !aborted ==> N.CountReplied(trace) == old(N.CountReplied(trace)) + (if r.Deferred? then 0 else 1)
      ensures !aborted ==>
                posts == old(posts) +
                         match r
                         case Replied(text) => [N.Post(text, N.Response(commands - 1))]
                         case Unsupported => [N.Post("", N.Response(commands - 1))]
                         case _ => []
    {
      hide N.CountReplied, ServerOk, Handling, Fatal, T.Paired, E.Sound;
      Conclude(r);
    }

    method Conclude(r: Outcome)
      requires Handling()
      modifies this`aborted, this`loop, this`posts, this`deferred, this`trace, this`others, this`runs
      ensures aborted <==> Fatal(r)
      ensures !aborted ==> deferred == if r.Deferred? then Some(commands - 1) else old(deferred)
      ensures others == old(others) + 1 && runs == old(runs) + (if r.Deferred? then 1 else 0)
      ensures !aborted ==> ServerOk() && trace == old(trace) + [N.Command(ReplyOf(r))]
      ensures !aborted ==> N.CountReplied(trace) == old(N.CountReplied(trace)) + (if r.Deferred? then 0 else 1)
      ensures !aborted ==>
                posts == old(posts) +
                         match r
                         case Replied(text) => [N.Post(text, N.Response(commands - 1))]
                         case Unsupported => [N.Post("", N.Response(commands - 1))]
                         case _ => []
    {
      hide N.Run, N.CountReplied, AllFit, BytesOk;
      Answer(r);
      if !aborted {
        N.RepliedOneMore(trace, N.Command(ReplyOf(r)));
        Record(N.Command(ReplyOf(r)));
      }
      Tally(r.Deferred?);
    }

    /** A verified command other than vStopped, from its acknowledgment to its reply. */
    method Obey(packet: string, io: Io) returns (r: Outcome)
      requires Valid() && Honest(io)
      modifies this, handler, process, process.port, process.ThreadObjects()
      ensures aborted <==> Fatal(r)
      ensures aborted <==> Fails(old(handler.Sees()), packet, io)
      ensures !aborted ==> Valid() && trace == old(trace) + [N.Command(ReplyOf(r))]
      ensures others == old(others) + 1 && runs == old(runs) + (if r.Deferred? then 1 else 0)
      ensures process.Kept()
      ensures !aborted ==> Rule(old(handler.Sees()), packet, io, r, handler.Sees()) && commands == old(commands) + 1
      ensures outgoing == old(outgoing) + ["+"]
      ensures !aborted ==>
                posts == old(posts) +
                         match r
                         case Replied(text) => [N.Post(text, N.Response(old(commands)))]
                         case Unsupported => [N.Post("", N.Response(old(commands)))]
                         case _ => []
    {
      hide N.CountReplied, ServerOk, Handling, CommandHandler.Sees, TripsOn, RepliesTooLong, Rule,
           P.Process.Consistent, T.Paired, E.Sound;
      Acknowledge();
      r := handler.HandleCommand(packet, io);
      Finish(r);
    }

    ghost method Tally(deferred: bool)
      modifies this`others, this`runs
      ensures others == old(others) + 1 && runs == old(runs) + (if deferred then 1 else 0)
      ensures old(ServerOk()) ==> ServerOk()
    {
      hide N.Run, PacketCodec.Fits, ItemBytes, Stream, PacketCodec.Carriable;
      others := others + 1;
      runs := runs + (if deferred then 1 else 0);
    }

    method RejectPacket()
      requires ServerOk()
      modifies this`commands, this`outgoing, this`items, this`trace
      ensures ServerOk() && trace == old(trace) + [N.BadPacket] && outgoing == old(outgoing) + ["-"]
      ensures N.CountReplied(trace) == old(N.CountReplied(trace))
    {
      hide N.Run, N.CountReplied, AllFit, BytesOk;
      SendAck(false);
      N.RepliedOneMore(trace, N.BadPacket);
      Record(N.BadPacket);
    }

    method AcceptStopAck()
      requires ServerOk()
      modifies this`commands, this`outgoing, this`items, this`queue, this`pending, this`loop, this`posts,
               this`drained, this`trace
      ensures ServerOk() && trace == old(trace) + [N.StopAcked] && outgoing == old(outgoing) + ["+"]
      ensures N.CountReplied(trace) == old(N.CountReplied(trace))
    {
      hide N.Run, N.CountReplied, N.StopAck, AllFit, BytesOk;
      SendAck(true);
      OnStopAck();
      N.RepliedOneMore(trace, N.StopAcked);
      Record(N.StopAcked);
    }

    method Verified(bytes: string) returns (data: Option<string>)
      requires Valid()
      ensures data == PacketCodec.Verify(bytes) && Valid() && handler.Sees() == old(handler.Sees())
    {
      hide ServerOk, PacketCodec.Verify, T.Paired, E.Sound;
      data := PacketCodec.VerifyPacket(bytes);
    }

    /** What the I/O thread read is handled on the main thread. */
    method OnBytesRead(bytes: string, io: Io) returns (ghost r: Option<Outcome>)
      requires Valid() && Honest(io)
      modifies this, handler, process, process.port, process.ThreadObjects()
      ensures aborted <==> r.Some? && Fatal(r.value)
      ensures !aborted ==> Valid()
      ensures process.Kept()
      ensures r.Some? <==>
              bytes != "+" && PacketCodec.Verify(bytes) != None && PacketCodec.Verify(bytes) != Some("vStopped")
      ensures aborted <==> Kills(old(handler.Sees()), bytes, io)
      ensures !aborted ==>
                trace == old(trace) +
                         if bytes == "+" then []
                         else if PacketCodec.Verify(bytes).None? then [N.BadPacket]
                         else if r.None? then [N.StopAcked]
                         else [N.Command(ReplyOf(r.value))]
      ensures outgoing == old(outgoing) +
                          if bytes == "+" then [] else if PacketCodec.Verify(bytes).None? then ["-"] else ["+"]
      ensures !aborted && r.Some? ==>
                && Rule(old(handler.Sees()), PacketCodec.Verify(bytes).value, io, r.value, handler.Sees())
                && posts == old(posts) +
                            match r.value
                            case Replied(text) => [N.Post(text, N.Response(old(commands)))]
                            case Unsupported => [N.Post("", N.Response(old(commands)))]
                            case _ => []
    {
      hide N.CountReplied, PacketCodec.Verify, ServerOk, Fatal, Fails, Rule, CommandHandler.Sees, T.Paired, E.Sound;
      r := None;
      if bytes == "+" {
        return;
      }
      var data := Verified(bytes);
      if data.None? {
        RejectPacket();
      } else if data.value == "vStopped" {
        AcceptStopAck();
      } else {
        var outcome := Obey(data.value, io);
        r := Some(outcome);
      }
    }

    // What the inferior reports.

    /** The deferred reply: it answers the vRun that is still waiting. */
    method PostStarted(text: string)
      requires ServerOk() && PacketCodec.Fits(text) && PacketCodec.Carriable(text) && deferred.Some?
      modifies this`loop, this`posts, this`deferred, this`trace
      ensures ServerOk() && trace == old(trace) + [N.ThreadStarted(text)]
      ensures posts == old(posts) + [N.Post(text, N.Started(old(deferred).value))] && deferred == None
    {
      hide N.Run, ItemBytes, Stream, PacketCodec.Carriable;
      var command := deferred.value;
      deferred := None;
      PostWriteTask(text, N.Started(command));
      Record(N.ThreadStarted(text));
    }

    /** Tells the peer what happened: once, in the form that goes with the report. */
    method Announce(report: P.Report, text: string, address: nat)
      requires ServerOk() && |text| <= 300 && PacketCodec.Carriable(text) && (report.FirstThread? ==> deferred.Some?)
      modifies this`queue, this`pending, this`loop, this`posts, this`timers, this`events, this`addresses,
               this`deferred, this`trace
      ensures ServerOk() && trace == old(trace) + [Telling(report, text, address)]
      ensures N.CountReplied(trace) == old(N.CountReplied(trace)) + (if report.FirstThread? then 1 else 0)
      ensures !report.FirstThread? ==> deferred == old(deferred)
    {
      hide N.CountReplied, N.Run, AllFit, BytesOk, PacketCodec.Carriable;
      N.RepliedOneMore(trace, Telling(report, text, address));
      if report.FirstThread? {
        PostStarted(text);
      } else {
        QueueNotification(text, address);
      }
    }

    /** The registers a stop reply shows: those the kernel holds, if they can be read. */
    method ReadRegisters(tid: nat, readable: bool) returns (shown: Option<R.Regs>)
      requires process.Valid() && tid in process.threads && process.threads[tid].state != T.New
      modifies process.ThreadObjects()
      ensures process.Valid()
      ensures shown == if readable then Some(process.threads[tid].cpu) else None
      ensures process.threads[tid].Value() ==
              var s := old(process.threads[tid].Value()); if readable then s.(cached := s.cpu) else s
      ensures P.ValuesOf(process.threads) == old(P.ValuesOf(process.threads))[tid := process.threads[tid].Value()]
    {
      hide E.Sound;
      var read := P.RefreshIn(process.threads, tid, readable);
      return if read then Some(process.threads[tid].gregs) else None;
    }

    /**
     * An exception is taken from the queue of the main loop: nothing happens if the
     * process it was meant for has been let go. Otherwise the peer is told exactly
     * one thing, unless the exception is of no known kind or has no signal, or a
     * check fails.
     */
    method OnException(key: E.Key, ty: P.ExceptionType, tid: nat, io: P.FindIo, cpu: R.Regs, regIo: T.RegIo,
                       details: Details, address: nat)
      returns (ghost report: Option<P.Report>, ghost shown: Option<R.Regs>)
      requires Valid()
      requires key in process.port.callbacks ==>
                 && P.KernelIds(tid, io)
                 && (ty.OfThread? ==> P.HonestKernel(process.state, process.threads, process.stale, ty.ty, tid, io))
      requires details.signal.Some? ==> details.signal.value != 0
      modifies this, handler`current, process, process.port, process.ThreadObjects()
      ensures aborted <==> report == Some(P.CheckFailed)
      ensures aborted <==> key == old(process.key) && key != 0 && old(FailsCheck(ty, tid, io))
      ensures !aborted ==> Valid()
      ensures process.Kept()
      ensures report.Some? <==> key == old(process.key) && key != 0
      ensures report.Some? ==>
                report.value == P.ReportOf(ty, tid, old(process.state), old(FailsCheck(ty, tid, io)))
      ensures trace == old(trace) +
                       if report.None? || Silent(report.value, details) then []
                       else [Told(report.value, old(process.id), details, shown, address)]
      ensures report.Some? && report.value.StoppedThread? && details.signal.Some? && details.readable ==>
                tid in process.threads && shown == Some(process.threads[tid].cpu)
      ensures report.Some? && report.value.StoppedThread? ==>
                && tid in process.threads && !old(P.Missing(process.threads, process.stale, tid, io))
                && process.threads[tid].Value() ==
                   RegisterTexts.AfterStop(old(P.FoundValue(process.threads, process.stale, tid, io)), cpu, regIo,
                                           details.signal.Some? && details.readable)
      ensures ty.OfThread? && report.Some? && !report.value.CheckFailed? ==>
                && tid in process.threads
                && P.ValuesOf(process.threads) ==
                   P.Sought(old(P.ValuesOf(process.threads)), old(process.stale), tid, io)
                   [tid := process.threads[tid].Value()]
      ensures report.Some? && report.value.ExitedProcess? ==> handler.current == null && process.state == P.PGone
      ensures report.None? || !report.value.ExitedProcess? ==> handler.current == old(handler.current)
    {
      hide N.CountReplied, ServerOk, Told, P.ReportOf, P.KernelIds, P.HonestKernel, P.FailsCheck, P.Missing, P.FoundValue,
           P.ValuesOf, P.Sought, RegisterTexts.AfterStop, P.TableOk, E.Sound;
      report, shown := None, None;
      var bound := process.port.Dispatch(key);
      if bound.None? {
        return;
      }
      var pid := process.id;
      var what, registers := Gather(ty, tid, io, cpu, regIo, details);
      report, shown := Some(what), registers;
      Hear(what, pid, details, registers, address);
    }

    method Hear(what: P.Report, pid: nat, details: Details, shown: Option<R.Regs>, address: nat)
      requires ServerOk() && process.Valid() && pid < TWO_64
      requires IsNews(what) && !what.ExitedProcess? ==> what.tid < TWO_64
      requires details.signal.Some? ==> details.signal.value != 0
      requires what.FirstThread? ==> deferred.Some?
      modifies this`queue, this`pending, this`loop, this`posts, this`timers, this`events, this`addresses,
               this`deferred, this`trace, this`aborted
      ensures aborted <==> what.CheckFailed?
      ensures !aborted ==> ServerOk()
      ensures process.Valid() && P.ValuesOf(process.threads) == old(P.ValuesOf(process.threads))
      ensures trace == old(trace) + if Silent(what, details) then [] else [Told(what, pid, details, shown, address)]
      ensures N.CountReplied(trace) == old(N.CountReplied(trace)) + (if what.FirstThread? then 1 else 0)
      ensures !what.FirstThread? ==> deferred == old(deferred)
    {
      hide N.CountReplied, N.Run, AllFit, BytesOk, Told, T.Paired, E.Sound;
      if what.CheckFailed? {
        aborted := true;
      } else if !Silent(what, details) {
        Tell(what, pid, details, shown, address);
      }
    }

    /** The check on the thread list fails, or one on the thread the exception is about. */
    predicate FailsCheck(ty: P.ExceptionType, tid: nat, io: P.FindIo)
      reads this, process, process.ThreadObjects()
    {
      P.FailsCheck(process.threads, process.stale, ty, tid, io)
    }

    /** What happened, and for a thread that stopped its registers. */
    method Gather(ty: P.ExceptionType, tid: nat, io: P.FindIo, cpu: R.Regs, regIo: T.RegIo, details: Details)
      returns (what: P.Report, shown: Option<R.Regs>)
      requires process == handler.process && process.Valid() && process.IsAttached() && !process.miscounted
      requires P.KernelIds(tid, io)
      requires ty.OfThread? ==> P.HonestKernel(process.state, process.threads, process.stale, ty.ty, tid, io)
      modifies handler`current, process, process.port, process.ThreadObjects()
      ensures process.Valid() && process.Kept() && process.starts == old(process.starts)
      ensures process.firstThreads == old(process.firstThreads) + (if what.FirstThread? then 1 else 0)
      ensures what == P.ReportOf(ty, tid, old(process.state), old(FailsCheck(ty, tid, io)))
      ensures (what.CheckFailed? <==> old(FailsCheck(ty, tid, io))) && (process.miscounted ==> what.CheckFailed?)
      ensures IsNews(what) && !what.ExitedProcess? ==> what.tid == tid && tid in process.threads && tid < TWO_64
      ensures what.StoppedThread? ==>
                && tid in process.threads && !old(P.Missing(process.threads, process.stale, tid, io))
                && process.threads[tid].Value() ==
                   RegisterTexts.AfterStop(old(P.FoundValue(process.threads, process.stale, tid, io)), cpu, regIo,
                                           details.signal.Some? && details.readable)
      ensures ty.OfThread? && !what.CheckFailed? ==>
                && tid in process.threads
                && P.ValuesOf(process.threads) ==
                   P.Sought(old(P.ValuesOf(process.threads)), old(process.stale), tid, io)
                   [tid := process.threads[tid].Value()]
      ensures what.ExitedProcess? ==> handler.current == null && process.state == P.PGone
      ensures !what.ExitedProcess? ==> handler.current == old(handler.current)
      ensures process.state == P.PStarting ==> old(process.state) == P.PStarting && !what.FirstThread?
      ensures what.FirstThread? ==> old(process.state) == P.PStarting
      ensures shown == if what.StoppedThread? && details.signal.Some? && details.readable then
                         Some(process.threads[tid].cpu) else None
    {
      hide P.KernelIds, P.HonestKernel, P.FailsCheck, P.Missing, P.FoundValue, P.Sought, P.ValuesOf, T.OnException,
           P.Process.Consistent;
      what := process.OnException(ty, tid, io, cpu, regIo);
      shown := None;
      if what.StoppedThread? && details.signal.Some? {
        P.AfterExceptionIs(old(P.FoundValue(process.threads, process.stale, tid, io)).(cpu := cpu), T.Architectural,
                           regIo);
        shown := ReadRegisters(tid, details.readable);
      } else if what.ExitedProcess? {
        handler.SetCurrentThread(null);
      }
    }

    method Tell(what: P.Report, pid: nat, details: Details, shown: Option<R.Regs>, address: nat)
      requires ServerOk() && IsNews(what) && pid < TWO_64 && (!what.ExitedProcess? ==> what.tid < TWO_64)
      requires what.StoppedThread? ==> details.signal.Some? && details.signal.value != 0
      requires what.FirstThread? ==> deferred.Some?
      modifies this`queue, this`pending, this`loop, this`posts, this`timers, this`events, this`addresses,
               this`deferred, this`trace
      ensures ServerOk() && trace == old(trace) + [Told(what, pid, details, shown, address)]
      ensures N.CountReplied(trace) == old(N.CountReplied(trace)) + (if what.FirstThread? then 1 else 0)
      ensures !what.FirstThread? ==> deferred == old(deferred)
    {
      hide ServerOk, N.CountReplied, StopReply.Text, ReplyFor, PacketCodec.Carriable, PacketCodec.Verify;
      ReplyForIsSent(what, pid, details, shown);
      var text := BuildReply(what, pid, details, shown);
      Announce(what, text, address);
    }

    // Whole runs.

    /** The kernel's side of the bargain, for an input that is about to be taken. */
    predicate Possible(input: Input)
      reads this, process, process.port, process.ThreadObjects()
    {
      match input
      case Bytes(_, io) => Honest(io)
      case Exception(key, ty, tid, io, _, _, details, _) =>
        && (details.signal.Some? ==> details.signal.value != 0)
        && (key in process.port.callbacks ==>
              && P.KernelIds(tid, io)
              && (ty.OfThread? ==> P.HonestKernel(process.state, process.threads, process.stale, ty.ty, tid, io)))
      case TimerDue(address) => address in timers
      case LoopTask => true
      case IoTask => true
    }

    /** The inputs on which a check fails, each in the states where it does. */
    ghost predicate FailsOn(input: Input)
      reads this, handler, process, handler.process, handler.process.port, handler.process.ThreadObjects(),
            process.ThreadObjects()
    {
      match input
      case Bytes(bytes, io) => Kills(handler.Sees(), bytes, io)
      case Exception(key, ty, tid, io, _, _, _, _) => key == process.key && key != 0 && FailsCheck(ty, tid, io)
      case _ => false
    }

    method Take(input: Input) returns (ghost steps: seq<N.Step>)
      requires Valid() && Possible(input)
      modifies this, handler, process, process.port, process.ThreadObjects(), outBuffer
      ensures aborted <==> old(FailsOn(input))
      ensures !aborted ==> Valid() && trace == old(trace) + steps && Matches(input, old(Channel()), Some(steps))
      ensures process.Kept()
    {
      hide ServerOk, Kills, CommandHandler.Sees, FailsCheck, Honest, Heard, P.KernelIds, P.HonestKernel, N.CountReplied,
           T.Paired, E.Sound;
      match input {
        case Bytes(bytes, io) =>
          steps := TakeBytes(bytes, io);
        case Exception(key, ty, tid, io, cpu, regIo, details, address) =>
          steps := TakeException(key, ty, tid, io, cpu, regIo, details, address);
        case TimerDue(address) =>
          TakeTimer(address);
          steps := [N.Timer(address)];
        case LoopTask =>
          TakeLoopTurn();
          steps := [N.LoopTurn];
        case IoTask =>
          TakeIoTurn();
          steps := [N.WriterTurn];
      }
    }

    method TakeTimer(address: nat)
      requires Valid() && address in timers
      modifies this`loop, this`posts, this`timers, this`trace
      ensures Valid() && trace == old(trace) + [N.Timer(address)]
    {
      hide ServerOk, N.CountReplied, T.Paired, E.Sound;
      N.RepliedOneMore(trace, N.Timer(address));
      OnTimer(address);
    }

    method TakeLoopTurn()
      requires Valid()
      modifies this`loop, this`outgoing, this`items, this`trace, outBuffer
      ensures Valid() && trace == old(trace) + [N.LoopTurn]
    {
      hide ServerOk, N.CountReplied, T.Paired, E.Sound;
      N.RepliedOneMore(trace, N.LoopTurn);
      RunWriteTask();
    }

    method TakeIoTurn()
      requires Valid()
      modifies this`outgoing, this`items, this`wire, this`wireBytes, this`trace
      ensures Valid() && trace == old(trace) + [N.WriterTurn]
    {
      hide ServerOk, N.CountReplied, T.Paired, E.Sound;
      N.RepliedOneMore(trace, N.WriterTurn);
      RunIoTask();
    }

    method TakeBytes(bytes: string, io: Io) returns (ghost steps: seq<N.Step>)
      requires Valid() && Honest(io)
      modifies this, handler, process, process.port, process.ThreadObjects()
      ensures (aborted <==> Kills(old(handler.Sees()), bytes, io)) && (!aborted ==> Valid()) && process.Kept()
      ensures !aborted ==> trace == old(trace) + steps && Heard(bytes, steps)
    {
      hide ServerOk, Kills, Rule, CommandHandler.Sees, Fatal, N.CountReplied, PacketCodec.Verify, P.Process.Consistent;
      ghost var r := OnBytesRead(bytes, io);
      steps := if bytes == "+" then []
               else if PacketCodec.Verify(bytes).None? then [N.BadPacket]
               else if r.None? then [N.StopAcked]
               else [N.Command(ReplyOf(r.value))];
    }

    method TakeException(key: E.Key, ty: P.ExceptionType, tid: nat, io: P.FindIo, cpu: R.Regs, regIo: T.RegIo,
                         details: Details, address: nat)
      returns (ghost steps: seq<N.Step>)
      requires Valid() && Possible(Exception(key, ty, tid, io, cpu, regIo, details, address))
      modifies this, handler, process, process.port, process.ThreadObjects()
      ensures aborted <==> key == old(process.key) && key != 0 && old(FailsCheck(ty, tid, io))
      ensures (!aborted ==> Valid()) && process.Kept()
      ensures trace == old(trace) + steps && |steps| <= 1
      ensures forall s :: s in steps ==> s.Event? || s.ThreadStarted?
    {
      hide ServerOk, FailsCheck, P.KernelIds, P.HonestKernel, N.CountReplied, P.ReportOf, P.Missing, P.FoundValue,
           P.ValuesOf, P.Sought, RegisterTexts.AfterStop, P.Process.Consistent, StopReply.Text, ReplyFor;
      ghost var report, shown := OnException(key, ty, tid, io, cpu, regIo, details, address);
      steps := if report.None? || Silent(report.value, details) then []
               else [Told(report.value, old(process.id), details, shown, address)];
    }

    /** Any run: the inputs come in any order, each is the steps it should be, and what cannot happen yet does not. */
    method Serve(inputs: seq<Input>) returns (ghost log: seq<Option<seq<N.Step>>>)
      requires Valid()
      modifies this, handler, process, process.port, process.ThreadObjects(), outBuffer
      ensures Logs(inputs, old(trace), log)
      ensures !aborted ==> Valid() && |log| == |inputs| && trace == old(trace) + Flat(log)
    {
      hide ServerOk, Possible, Matches, Logs, Flat, N.Run, N.CountReplied, T.Paired, E.Sound;
      log := [];
      FlatOneMore([], None);
      NothingLogged(inputs, trace);
      assert old(trace) + [] == old(trace);
      for i := 0 to |inputs|
        invariant Valid() && process.Kept() && |log| == i && trace == old(trace) + Flat(log)
        invariant Logs(inputs, old(trace), log)
      {
        ghost var taken: Option<seq<N.Step>> := None;
        ChannelIsRun();
        if Possible(inputs[i]) {
          ghost var steps := Take(inputs[i]);
          if aborted {
            return;
          }
          taken := Some(steps);
        } else {
          NotPossible(inputs[i]);
        }
        FlatOneMore(log, taken);
        LogOneMore(inputs, old(trace), log, taken);
        log := log + [taken];
      }
    }

    static lemma NothingLogged(inputs: seq<Input>, start: seq<N.Step>)
      ensures Logs(inputs, start, [])
    {
    }

    lemma ChannelIsRun()
      requires Valid()
      ensures Channel() == N.Run(trace)
    {
    }

    lemma NotPossible(input: Input)
      requires !Possible(input)
      ensures Matches(input, Channel(), None)
    {
    }

    /**
     * Who gets a reply: the '$' packets ever posted in answer to something are as
     * many as the verified commands, except the vRuns that started a program, whose
     * reply is the first thread it reports, and the vStoppeds that found nothing
     * pending. A run never gets more than one such reply.
     */
    lemma ReplyRule()
      requires Valid()
      ensures N.CountAnswers(posts) + runs == others + process.firstThreads + drained
      ensures process.firstThreads <= runs
    {
      hide N.Run, N.CountReplied, N.CountAnswers;
      N.ReplyCount(trace);
    }

    /** What has gone out is a stream of whole frames and acknowledgments, in the protocol's order. */
    lemma WireRule()
      requires Valid()
      ensures wireBytes == Stream(wire)
      ensures N.Packets(wire) <= posts && N.AcksFirst(wire)
    {
      hide N.Run, N.Packets, N.AcksFirst, Stream;
      N.WireInOrder(trace);
    }

    /** No command is answered twice, and every stop reply sent as a packet is one the peer can verify. */
    lemma AnswersRule(i: nat)
      requires Valid() && i < |posts| && posts[i].Answers()
      ensures forall j :: i < j < |posts| && posts[j].Answers() ==> posts[i].cause.command != posts[j].cause.command
      ensures TellsNews(posts[i].cause) ==>
                PacketCodec.Verify(PacketCodec.Frame(false, posts[i].data)) == Some(posts[i].data)
    {
      hide N.Run, PacketCodec.Verify, PacketCodec.Frame, PacketCodec.Carriable, Stream, ItemBytes;
      N.RunAnswersDiffer(trace);
      PacketCodec.VerifyOfFrame(posts[i].data);
    }

    /** Every '$' packet posted says what the command it answers, or the first thread of that run, had to say. */
    lemma ReplyTextRule(i: nat)
      requires Valid() && i < |posts|
      ensures N.IsTheirs(trace, posts[i])
    {
      hide N.Run, N.IsTheirs;
      N.RepliesAreTheirs(trace, i);
    }

    /** An event is announced once when it becomes pending, and again for each timer that goes off for it. */
    lemma ResendRule(serial: nat)
      requires Valid()
      ensures N.Announced(posts, serial) ==
              if N.EverPending(trace, serial) then 1 + N.Fired(trace, serial) else 0
    {
      hide N.Run, N.Announced, N.EverPending, N.Fired;
      N.AnnouncedTimes(trace, serial);
    }

    lemma FoundIsLive(tid: nat, io: P.FindIo)
      requires process.Valid() && !P.Missing(process.threads, process.stale, tid, io)
      requires P.HonestKernel(process.state, process.threads, process.stale, T.Architectural, tid, io)
      ensures var s := P.FoundValue(process.threads, process.stale, tid, io); T.Paired(s) && s.state != T.Gone
    {
      P.CreatedIsPaired();
    }

    /** A thread stops, and the peer turns to it. */
    method StopAndChoose(tid: nat, io: P.FindIo, cpu: R.Regs, regIo: T.RegIo, details: Details, address: nat)
      requires Valid() && process.IsAttached() && P.KernelIds(tid, io)
      requires P.HonestKernel(process.state, process.threads, process.stale, T.Architectural, tid, io)
      requires !P.Missing(process.threads, process.stale, tid, io) && !P.Miscounts(process.stale, io)
      requires details.signal.Some? ==> details.signal.value != 0
      modifies this, handler`current, process, process.port, process.ThreadObjects()
      ensures process == handler.process && process.Valid() && process.IsAttached()
      ensures process.Kept() && tid in process.threads
      ensures handler.CurrentThread() == process.threads[tid]
      ensures process.threads[tid].Value() ==
              RegisterTexts.AfterStop(old(P.FoundValue(process.threads, process.stale, tid, io)), cpu, regIo,
                                      details.signal.Some? && details.readable)
    {
      hide ServerOk, N.CountReplied, Told, P.KernelIds, P.HonestKernel, P.Missing, P.FoundValue, P.Sought, P.ValuesOf,
           RegisterTexts.AfterStop, T.Paired, E.Sound;
      ghost var report, shown :=
        OnException(process.key, P.OfThread(T.Architectural), tid, io, cpu, regIo, details, address);
      handler.SetCurrentThread(process.threads[tid]);
    }

    /** A peer that continues a thread that has just stopped with the signal it stopped with sees it run. */
    method ContinueStopped(tid: nat, find: P.FindIo, cpu: R.Regs, regIo: T.RegIo, details: Details, address: nat,
                           packet: string, io: Io)
      returns (r: Outcome)
      requires Valid() && process.IsAttached() && P.KernelIds(tid, find)
      requires P.HonestKernel(process.state, process.threads, process.stale, T.Architectural, tid, find)
      requires !P.Missing(process.threads, process.stale, tid, find) && !P.Miscounts(process.stale, find)
      requires details.signal.Some? && details.signal.value != 0 && io.signal == details.signal && io.resume
      requires ThreadIds.ParseInt64(packet) == Some(details.signal.value) && ';' !in packet
      modifies this, handler, process, process.port, process.ThreadObjects()
      ensures r == OK && tid in process.threads && process.threads[tid].state == T.Running
    {
      hide ServerOk, P.KernelIds, P.HonestKernel, P.Missing, P.FoundValue, P.Process.Consistent, SignalRule,
           CommandHandler.Sees, ThreadIds.ParseInt64, RegisterTexts.AfterStop;
      StopLeaves(P.FoundValue(process.threads, process.stale, tid, find), cpu, regIo, details.readable);
      StopAndChoose(tid, find, cpu, regIo, details, address);
      r := handler.Handle_C(packet, io);
    }

    lemma StopLeaves(s: T.Snapshot, cpu: R.Regs, io: T.RegIo, readable: bool)
      ensures var s' := RegisterTexts.AfterStop(s, cpu, io, readable);
              s'.state == T.Stopped && s'.context == Some(T.Architectural) && T.Resume(s', true).0
    {
      T.ExceptionStops(s.(cpu := cpu), T.Architectural, io);
    }

    /**
     * A peer that asks for the registers of a thread that has just stopped gets them as they are if they
     * could be read for the report, and otherwise exactly if nothing has changed since they were cached
     * (or the cache was refreshed on the way to clearing the trap flag, and what was written matches it).
     */
    method ShowStopped(tid: nat, io: P.FindIo, cpu: R.Regs, regIo: T.RegIo, details: Details, address: nat)
      returns (r: Outcome)
      requires Valid() && process.IsAttached() && P.KernelIds(tid, io)
      requires P.HonestKernel(process.state, process.threads, process.stale, T.Architectural, tid, io)
      requires !P.Missing(process.threads, process.stale, tid, io) && !P.Miscounts(process.stale, io)
      requires details.signal.Some? ==> details.signal.value != 0
      modifies this, handler, process, process.port, process.ThreadObjects()
      ensures tid in process.threads
      ensures var s := old(P.FoundValue(process.threads, process.stale, tid, io));
              r == Replied(RegisterTexts.BlockText(process.threads[tid].cpu)) <==>
              || (details.signal.Some? && details.readable)
              || (if s.state == T.Stepping && regIo.read then regIo.write || !R.Trapping(cpu) else cpu == s.cached)
    {
      hide ServerOk, P.KernelIds, P.HonestKernel, P.Missing, P.FoundValue, P.Process.Consistent, ShowRule,
           CommandHandler.Sees, RegisterTexts.AfterStop, RegisterTexts.BlockText, R.Trapping;
      ghost var s := P.FoundValue(process.threads, process.stale, tid, io);
      FoundIsLive(tid, io);
      RegisterTexts.PrintsRightAfterStopIff(s, cpu, regIo, details.signal.Some? && details.readable);
      StopAndChoose(tid, io, cpu, regIo, details, address);
      r := handler.Handle_g();
    }
  }

  /** A server as it is when it has been constructed. */
  method NewServer() returns (server: RspServer)
    ensures fresh(server) && fresh(server.handler) && fresh(server.process) && fresh(server.process.port)
    ensures server.Valid() && server.process.threads == map[]
    ensures server.process.state == P.PNew && !server.process.runFailed && server.process.port.counter == 0
  {
    var port := new E.ExceptionPort();
    var process := new P.Process(port);
    var handler := new CommandHandler(process);
    server := new RspServer(handler);
  }

  /** A thread that is listed after attaching is made current: it counts as new. */
  method ListedAndCurrent(io: Io) returns (server: RspServer)
    requires Honest(io) && io.handle && io.bind && io.find.threads == Some([(1, R.ZEROS)])
    ensures fresh(server) && fresh(server.handler) && fresh(server.process) && fresh(server.process.port)
    ensures fresh(server.process.ThreadObjects())
    ensures server.Valid() && server.process.IsLive() && !server.process.stale
    ensures server.handler.CurrentThread() != null && server.handler.CurrentThread().id == 1
    ensures server.handler.CurrentThread().state == T.New
  {
    hide RspServer.ServerOk, N.CountReplied, E.Sound, T.Paired, P.KernelIds, ThreadIds.ThreadIdOf,
         CommandText.ParseUint64, CommandHandler.HasThread, CommandHandler.ListsIt, CommandHandler.Sees, ChooseRule;
    server := Attached(io);
    TextsOfTheRun();
    IsListed(io.find);
    server.handler.Shows();
    var r := server.handler.Handle_H("g1", io);
    assert r == OK;
  }

  /** The server attaches to a process. */
  method Attached(io: Io) returns (server: RspServer)
    requires Honest(io) && io.handle && io.bind
    ensures fresh(server) && fresh(server.handler) && fresh(server.process) && fresh(server.process.port)
    ensures server.Valid() && server.process.IsLive() && server.process.stale && server.process.threads == map[]
  {
    hide RspServer.ServerOk, N.CountReplied, E.Sound, T.Paired, P.KernelIds, CommandText.ParseUint64;
    server := NewServer();
    TextsOfTheRun();
    var r := server.handler.Handle_vAttach("7", io);
    assert r == OK;
  }

  lemma IsListed(io: P.FindIo)
    requires io.threads == Some([(1, R.ZEROS)])
    ensures CommandHandler.ListsIt(1, true, io)
  {
    assert io.threads.value[0].0 == 1;
  }

  lemma TextsOfTheRun()
    ensures CommandText.ParseUint64("7") == Some(7)
    ensures var id := ThreadIds.ThreadIdOf("g1"[1..]); id.Some? && !id.value.hasPid && id.value.tid == 1
  {
    assert "g1"[1..] == "1";
    assert ThreadIds.HexNumber("7") == 7 && ThreadIds.HexNumber("1") == 1;
  }

  /** The new thread that is current is continued. */
  method LetGo(server: RspServer, io: Io)
    requires server.Valid() && server.process.IsLive() && !server.process.stale && io.resume
    requires server.handler.CurrentThread() != null && server.handler.CurrentThread().id == 1
    requires server.handler.CurrentThread().state == T.New
    modifies server.process.ThreadObjects()
    ensures server.Valid() && 1 in server.process.threads && server.process.threads[1].state == T.Running
  {
    hide RspServer.ServerOk, N.CountReplied, E.Sound, T.Paired, CommandHandler.OthersUnchanged;
    var r := server.handler.Handle_c("", io);
  }

  /**
   * A run, from the construction of the server on, in which the check on a starting thread fails: the server
   * attaches, the thread is listed, made current and continued, and only then its own start is dispatched.
   */
  method ContinuedBeforeItsStart(io: Io, find: P.FindIo, cpu: R.Regs, regIo: T.RegIo, details: Details)
    returns (server: RspServer)
    requires Honest(io) && io.handle && io.bind && io.resume && io.find.threads == Some([(1, R.ZEROS)])
    requires P.KernelIds(1, find) && details.signal.None?
    ensures server.aborted
  {
    hide RspServer.ServerOk, N.CountReplied, E.Sound, T.Paired, Told, P.KernelIds, P.Missing, P.FoundValue,
         P.ReportOf, RegisterTexts.AfterStop;
    server := ListedAndCurrent(io);
    LetGo(server, io);
    ghost var report, shown :=
      server.OnException(server.process.key, P.OfThread(T.ThreadStarting), 1, find, cpu, regIo, details, 0);
  }
}
