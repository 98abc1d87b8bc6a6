/** Keys, callbacks and delayed dispatch (lib/inferior-control/exception-port.cc). */
module ExceptionPorts {
  import opened Prelude

  /** A uint64_t that Bind vends; 0 means failure. */
  type Key = k: int | 0 <= k < TWO_64

  /** What the port keeps for a key: the process handle and whose callback to run. */
  datatype BindData = BindData(handle: nat, callback: nat)

  datatype Port = Port(counter: Key, callbacks: map<Key, BindData>)

  /** Every bound key has been handed out before. */
  predicate Sound(p: Port) {
    forall k :: k in p.callbacks ==> 0 < k <= p.counter
  }

  function NextKey(counter: Key): Key {
    (counter + 1) % TWO_64
  }

  function Bind(p: Port, data: BindData, kernelOk: bool): (Key, Port) {
    var next := NextKey(p.counter);
    if next == 0 || !kernelOk then (0, p) else (next, Port(next, p.callbacks[next := data]))
  }

  function Unbind(p: Port, key: Key): (bool, Port) {
    (key in p.callbacks, p.(callbacks := p.callbacks - {key}))
  }

  /** What the posted closure finds when it runs. */
  function Lookup(p: Port, key: Key): Option<BindData> {
    if key in p.callbacks then Some(p.callbacks[key]) else None
  }

  /** Keys are given out one after the other and never wrap around; each has its own entry until it is unbound. */
  lemma PortIs(p: Port, data: BindData, key: Key)
    ensures Bind(p, data, true) ==
            if p.counter == TWO_64 - 1 then (0, p)
            else (p.counter + 1, Port(p.counter + 1, p.callbacks[p.counter + 1 := data]))
    ensures Bind(p, data, false) == (0, p)
    ensures Unbind(p, key) == (key in p.callbacks, Port(p.counter, p.callbacks - {key}))
    ensures Lookup(p, key) == if key in p.callbacks then Some(p.callbacks[key]) else None
  {
  }

  class ExceptionPort {
    var counter: Key
    var callbacks: map<Key, BindData>

    ghost function Value(): Port
      reads this
    {
      Port(counter, callbacks)
    }

    constructor ()
      ensures Value() == Port(0, map[]) && Sound(Value())
    {
      counter, callbacks := 0, map[];
    }

    method DoBind(data: BindData, kernelOk: bool) returns (key: Key)
      requires data.handle != 0 && Sound(Value())
      modifies this
      ensures (key, Value()) == Bind(old(Value()), data, kernelOk)
      ensures Sound(Value())
    {
      var next := NextKey(counter);
      if next == 0 {
        return 0;
      }
      if !kernelOk {
        return 0;
      }
      assert next !in callbacks;
      callbacks := callbacks[next := data];
      counter := NextKey(counter);
      return next;
    }

    method DoUnbind(key: Key) returns (found: bool)
      requires Sound(Value())
      modifies this`callbacks
      ensures (found, Value()) == Unbind(old(Value()), key)
      ensures Sound(Value())
    {
      if key !in callbacks {
        assert callbacks - {key} == callbacks;
        return false;
      }
      callbacks := callbacks - {key};
      return true;
    }

    method Dispatch(key: Key) returns (r: Option<BindData>)
      ensures r == Lookup(Value(), key)
    {
      if key !in callbacks {
        return None;
      }
      return Some(callbacks[key]);
    }
  }

  // Any sequence of attachments, exceptions and delayed dispatches.

  /** An exception the kernel has queued; `origin` is the attachment it was raised under. */
  datatype Report = Report(key: Key, origin: nat)

  /** A callback that ran: for which attachment, on behalf of which one. */
  datatype Ran = Ran(callback: nat, origin: nat)

  datatype World = World(
    port: Port,
    issued: seq<Key>,        // the key of every successful Bind, in order
    inFlight: seq<Report>,   // raised, not yet dispatched
    ran: seq<Ran>)

  datatype Step =
    | Binds(handle: nat, ok: bool)
    | Unbinds(key: Key)
    | Raises(key: Key)       // the kernel raises an exception on a bound key
    | Delivers(index: nat)   // any queued closure runs, however late

  /** The n-th attachment registers callback n. */
  function Apply(w: World, s: Step): World {
    match s
    case Binds(handle, ok) =>
      var (key, port) := Bind(w.port, BindData(handle, |w.issued|), ok);
      if key == 0 then w else w.(port := port, issued := w.issued + [key])
    case Unbinds(key) => w.(port := Unbind(w.port, key).1)
    case Raises(key) =>
      if key in w.port.callbacks then
        w.(inFlight := w.inFlight + [Report(key, w.port.callbacks[key].callback)])
      else w
    case Delivers(i) =>
      if i >= |w.inFlight| then w
      else
        var report := w.inFlight[i];
        var w' := w.(inFlight := w.inFlight[..i] + w.inFlight[i + 1..]);
        match Lookup(w.port, report.key)
        case None => w'
        case Some(data) => w'.(ran := w.ran + [Ran(data.callback, report.origin)])
  }

  function Run(start: Key, steps: seq<Step>): World {
    if steps == [] then World(Port(start, map[]), [], [], [])
    else Apply(Run(start, steps[..|steps| - 1]), steps[|steps| - 1])
  }

  /** Keys come out one after the other, starting after `start`, and name their attachment for good. */
  ghost predicate KeysNameAttachments(w: World, start: Key) {
    && w.port.counter == start + |w.issued|
    && (forall i :: 0 <= i < |w.issued| ==> w.issued[i] == start + i + 1)
    && (forall k :: k in w.port.callbacks ==> start < k <= w.port.counter && w.port.callbacks[k].callback == k - start - 1)
    && (forall i :: 0 <= i < |w.inFlight| ==> w.inFlight[i].origin == w.inFlight[i].key - start - 1)
    && (forall i :: 0 <= i < |w.ran| ==> w.ran[i].callback == w.ran[i].origin)
  }

  lemma ApplyKeepsNames(w: World, start: Key, s: Step)
    requires KeysNameAttachments(w, start)
    ensures KeysNameAttachments(Apply(w, s), start)
  {
    match s
    case Binds(handle, ok) =>
    case Unbinds(key) =>
    case Raises(key) =>
    case Delivers(i) =>
      if i < |w.inFlight| {
        var rest := w.inFlight[..i] + w.inFlight[i + 1..];
        forall j | 0 <= j < |rest|
          ensures rest[j].origin == rest[j].key - start - 1
        {
          assert rest[j] == if j < i then w.inFlight[j] else w.inFlight[j + 1];
        }
      }
  }

  lemma {:induction false} RunKeepsNames(start: Key, steps: seq<Step>)
    ensures KeysNameAttachments(Run(start, steps), start)
    decreases |steps|
  {
    hide Apply;
    if steps != [] {
      RunKeepsNames(start, steps[..|steps| - 1]);
      ApplyKeepsNames(Run(start, steps[..|steps| - 1]), start, steps[|steps| - 1]);
    }
  }

  /** Keys are strictly increasing, never 0 and never reused, wherever the counter starts. */
  lemma KeysNeverReused(start: Key, steps: seq<Step>)
    ensures var keys := Run(start, steps).issued;
            && (forall i :: 0 <= i < |keys| ==> keys[i] > 0)
            && (forall i, j :: 0 <= i < j < |keys| ==> keys[i] < keys[j])
  {
    RunKeepsNames(start, steps);
  }

  /** A delayed exception runs the callback it was raised for or none: never that of a later attachment. */
  lemma NoStaleDispatch(start: Key, steps: seq<Step>)
    ensures forall r :: r in Run(start, steps).ran ==> r.callback == r.origin
  {
    RunKeepsNames(start, steps);
  }

  /** A delayed exception runs a callback exactly if the key it was raised on is still bound. */
  lemma DeliversIff(w: World, i: nat)
    requires i < |w.inFlight|
    ensures var w', report := Apply(w, Delivers(i)), w.inFlight[i];
            && w'.inFlight == w.inFlight[..i] + w.inFlight[i + 1..] && w'.port == w.port
            && w'.ran == w.ran +
                         if report.key in w.port.callbacks then
                           [Ran(w.port.callbacks[report.key].callback, report.origin)]
                         else []
  {
  }

  /** Once the last key is out nothing can be bound any more. */
  lemma LimitIsFinal(p: Port, data: BindData, ok: bool)
    ensures Bind(p, data, ok).0 == 0 <==> p.counter == TWO_64 - 1 || !ok
    ensures Bind(p, data, ok).0 == 0 ==> Bind(p, data, ok).1 == p
  {
  }
}
