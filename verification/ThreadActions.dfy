/** The action list argument of vCont (bin/debugserver/thread-action-list.cc). */
module ThreadActions {
  import opened Prelude
  import opened ThreadIds

  datatype Action = NoAction | Continue | Step

  /** kAll: "all processes" or "all threads". */
  const ALL: nat := TWO_64 - 1

  datatype Entry = Entry(action: Action, pid: nat, tid: nat) {
    /** An entry whose thread is still "pick one" covers nothing. */
    predicate Contains(p: nat, t: nat)
      requires p != 0 && p != ALL && t != 0 && t != ALL
      ensures tid == 0 ==> !Contains(p, t)
      ensures Contains(p, t) <==>
              (pid == p || pid == 0xFFFF_FFFF_FFFF_FFFF) && (tid == t || tid == 0xFFFF_FFFF_FFFF_FFFF)
    {
      (p == pid || pid == ALL) && (t == tid || tid == ALL)
    }
  }

  function DecodeAction(c: char): Option<Action> {
    if c == 'c' then Some(Continue) else if c == 's' then Some(Step) else None
  }

  /** What one action of the list asks for. */
  datatype Item = Default(action: Action) | Target(action: Action, id: ThreadId)

  /** The pid an id refers to: absent and 0 both stand for the current process. */
  function ProcessOf(id: ThreadId, curProc: nat): int {
    if !id.hasPid || id.pid == 0 then curProc else if id.pid == -1 then ALL else id.pid
  }

  predicate Supported(item: Item, curProc: nat) {
    item.Target? ==>
      && item.id.tid >= -1
      && ProcessOf(item.id, curProc) != 0
      && (item.id.hasPid ==> item.id.pid >= -1)
      && (ProcessOf(item.id, curProc) == ALL ==> item.id.tid == -1)
  }

  function EntryFor(item: Item, curProc: nat): Entry
    requires item.Target? && Supported(item, curProc)
  {
    Entry(item.action, ProcessOf(item.id, curProc), if item.id.tid == -1 then ALL else item.id.tid)
  }

  /** What one piece between semicolons says, if it is well formed. */
  function ItemOf(piece: string): Option<Item> {
    if piece == "" || DecodeAction(piece[0]).None? then None
    else if |piece| == 1 then Some(Default(DecodeAction(piece[0]).value))
    else if piece[1] != ':' then None
    else
      match ThreadIdOf(piece[2..])
      case None => None
      case Some(id) => Some(Target(DecodeAction(piece[0]).value, id))
  }

  datatype Parsed = Parsed(default: Action, entries: seq<Entry>)

  /** The list read so far extended by one more piece. */
  function Extend(sofar: Parsed, piece: string, curProc: nat): Option<Parsed> {
    match ItemOf(piece)
    case None => None
    case Some(Default(a)) => if sofar.default != NoAction then None else Some(sofar.(default := a))
    case Some(item) =>
      if Supported(item, curProc) then Some(sofar.(entries := sofar.entries + [EntryFor(item, curProc)])) else None
  }

  function ExtendAll(sofar: Parsed, pieces: seq<string>, curProc: nat): Option<Parsed>
    decreases |pieces|
  {
    if pieces == [] then Some(sofar)
    else
      match Extend(sofar, pieces[0], curProc)
      case None => None
      case Some(next) => ExtendAll(next, pieces[1..], curProc)
  }

  function ParseActions(str: string, curProc: nat): Option<Parsed> {
    if str == "" then None else ExtendAll(Parsed(NoAction, []), Pieces(str, ';'), curProc)
  }

  /** A well-formed item that resolves to process 0: the check in Entry's constructor fails on it. */
  predicate ZeroPid(piece: string, curProc: nat) {
    var item := ItemOf(piece);
    && item.Some? && item.value.Target?
    && item.value.id.tid >= -1 && (item.value.id.hasPid ==> item.value.id.pid >= -1)
    && ProcessOf(item.value.id, curProc) == 0
  }

  /** Reading the pieces in turn, the first one that does not extend the list has process 0. */
  predicate StopsAtZeroPid(sofar: Parsed, pieces: seq<string>, curProc: nat)
    decreases |pieces|
  {
    pieces != [] &&
    match Extend(sofar, pieces[0], curProc)
    case None => ZeroPid(pieces[0], curProc)
    case Some(next) => StopsAtZeroPid(next, pieces[1..], curProc)
  }

  predicate TripsCheck(str: string, curProc: nat) {
    str != "" && StopsAtZeroPid(Parsed(NoAction, []), Pieces(str, ';'), curProc)
  }

  lemma ExtendAllFrom(sofar: Parsed, str: string, s: nat, semi: nat, curProc: nat)
    requires s < |str| && semi == Find(str, ';', s)
    ensures Extend(sofar, str[s..semi], curProc).None? ==> ExtendAll(sofar, Pieces(str[s..], ';'), curProc).None?
    ensures var next := Extend(sofar, str[s..semi], curProc);
            next.Some? ==>
              && ExtendAll(sofar, Pieces(str[s..], ';'), curProc) ==
                 ExtendAll(next.value, Pieces(if semi == |str| then "" else str[semi + 1..], ';'), curProc)
              && StopsAtZeroPid(sofar, Pieces(str[s..], ';'), curProc) ==
                 StopsAtZeroPid(next.value, Pieces(if semi == |str| then "" else str[semi + 1..], ';'), curProc)
    ensures Extend(sofar, str[s..semi], curProc).None? ==>
              StopsAtZeroPid(sofar, Pieces(str[s..], ';'), curProc) == ZeroPid(str[s..semi], curProc)
  {
    hide Extend, Pieces, Find, ZeroPid;
    PiecesFrom(str, ';', s, semi);
    FirstPiece("", ';');
    var pieces := Pieces(str[s..], ';');
    assert pieces[1..] == Pieces(if semi == |str| then "" else str[semi + 1..], ';');
  }

  lemma NothingToRead(sofar: Parsed, curProc: nat)
    ensures ExtendAll(sofar, Pieces("", ';'), curProc) == Some(sofar)
    ensures !StopsAtZeroPid(sofar, Pieces("", ';'), curProc)
  {
  }

  /** The two ways the signed 64-bit detour of a pid can matter. */
  function AsInt64(n: nat): int
    requires n < TWO_64
  {
    if n < TWO_63 then n else n - TWO_64
  }

  function AsUint64(v: int): nat
    requires -TWO_63 <= v < TWO_63
  {
    if v < 0 then v + TWO_64 else v
  }

  lemma ThreadIdFits(bytes: string)
    requires ThreadIdOf(bytes).Some?
    ensures -TWO_63 <= ThreadIdOf(bytes).value.pid < TWO_63
    ensures -TWO_63 <= ThreadIdOf(bytes).value.tid < TWO_63
  {
  }

  /**
   * The branches of one turn of the parsing loop, on the piece of length n at s.
   * `refused` says that Entry's own check on its pid would fail.
   */
  method ReadAction(str: string, s: nat, n: nat, curProc: nat, sofar: Parsed)
    returns (r: Option<Parsed>, refused: bool)
    requires s + n <= |str|
    requires curProc < TWO_64
    ensures r == Extend(sofar, str[s..s + n], curProc)
    ensures refused <==> ZeroPid(str[s..s + n], curProc)
  {
    hide ThreadIdOf;
    ghost var piece := str[s..s + n];
    if n == 0 {
      return None, false;
    }
    var action := DecodeAction(str[s]);
    if action.None? {
      return None, false;
    }
    if n == 1 {
      if sofar.default != NoAction {
        return None, false;
      }
      return Some(sofar.(default := action.value)), false;
    }
    if str[s + 1] != ':' {
      return None, false;
    }
    assert piece[2..] == str[s + 2..s + n];
    var id := ParseThreadId(str[s + 2..s + n]);
    if id.None? {
      return None, false;
    }
    ThreadIdFits(str[s + 2..s + n]);
    var ThreadId(hasPid, pid, tid) := id.value;
    if (hasPid && pid <= -2) || tid <= -2 {
      return None, false;
    }
    if !hasPid || pid == 0 {
      pid := AsInt64(curProc);
    }
    if pid == -1 && tid != -1 {
      return None, false;
    }
    if pid == 0 {
      return None, true;
    }
    var entry := Entry(action.value, if pid == -1 then ALL else AsUint64(pid),
                       if tid == -1 then ALL else AsUint64(tid));
    return Some(sofar.(entries := sofar.entries + [entry])), false;
  }

  class ThreadActionList {
    var valid: bool
    var refused: bool   // the check in Entry's constructor failed
    var pickOnesResolved: bool
    var defaultAction: Action
    var actions: seq<Entry>

    constructor (str: string, curProc: nat)
      requires curProc < TWO_64
      ensures valid == ParseActions(str, curProc).Some?
      ensures valid ==> ParseActions(str, curProc) == Some(Parsed(defaultAction, actions))
      ensures !pickOnesResolved && (!valid ==> defaultAction == NoAction)
      ensures refused <==> TripsCheck(str, curProc)
    {
      valid, refused, pickOnesResolved, defaultAction, actions := false, false, false, NoAction, [];
      new;
      hide Extend, ExtendAll, StopsAtZeroPid, ZeroPid, Pieces;
      var len := |str|;
      if len == 0 {
        return;
      }
      var s := 0;
      var default := NoAction;
      assert str[0..] == str;
      ghost var result, trips := ParseActions(str, curProc), TripsCheck(str, curProc);
      while s < len
        invariant 0 <= s <= len
        invariant !valid && !refused && !pickOnesResolved && defaultAction == NoAction
        invariant result == ExtendAll(Parsed(default, actions), Pieces(str[s..], ';'), curProc)
        invariant trips == StopsAtZeroPid(Parsed(default, actions), Pieces(str[s..], ';'), curProc)
      {
        var semi := Find(str, ';', s);
        ExtendAllFrom(Parsed(default, actions), str, s, semi, curProc);
        var next, bad := ReadAction(str, s, semi - s, curProc, Parsed(default, actions));
        if next.None? {
          refused := bad;
          return;
        }
        default, actions := next.value.default, next.value.entries;
        s := if semi == len then len else semi + 1;
        assert str[len..] == "";
      }
      assert str[s..] == "";
      NothingToRead(Parsed(default, actions), curProc);
      defaultAction := default;
      valid := true;
    }

    method MarkPickOnesResolved()
      modifies this`pickOnesResolved
      ensures pickOnesResolved
    {
      pickOnesResolved := true;
    }

    method GetAction(pid: nat, tid: nat) returns (action: Action)
      requires pickOnesResolved
      requires pid != 0 && pid != ALL && tid != 0 && tid != ALL
      ensures action == ActionFor(actions, defaultAction, pid, tid)
    {
      for i := 0 to |actions|
        invariant forall j :: 0 <= j < i ==> !actions[j].Contains(pid, tid)
      {
        if actions[i].Contains(pid, tid) {
          return actions[i].action;
        }
      }
      return defaultAction;
    }
  }

  /** The action of the first entry that covers the thread, else the default. */
  function ActionFor(entries: seq<Entry>, default: Action, pid: nat, tid: nat): (a: Action)
    requires pid != 0 && pid != ALL && tid != 0 && tid != ALL
    ensures forall i ::
              && 0 <= i < |entries| && entries[i].Contains(pid, tid)
              && (forall j :: 0 <= j < i ==> !entries[j].Contains(pid, tid))
              ==> a == entries[i].action
    ensures (forall i :: 0 <= i < |entries| ==> !entries[i].Contains(pid, tid)) ==> a == default
  {
    if entries == [] then default
    else if entries[0].Contains(pid, tid) then entries[0].action
    else
      var rest := entries[1..];
      assert forall i :: 1 <= i < |entries| ==> rest[i - 1] == entries[i];
      ActionFor(rest, default, pid, tid)
  }

  // The grammar, stated from the meaning to the text.

  /** 'c' is for continue and 's' for step. */
  predicate LetterOf(c: char, a: Action) {
    (c == 'c' && a == Continue) || (c == 's' && a == Step)
  }

  ghost predicate Spells(text: string, item: Item) {
    match item
    case Default(a) => |text| == 1 && LetterOf(text[0], a)
    case Target(a, id) => |text| >= 2 && LetterOf(text[0], a) && text[1] == ':' && WritesId(text[2..], id)
  }

  ghost predicate SpellAll(texts: seq<string>, items: seq<Item>) {
    |texts| == |items| && forall i :: 0 <= i < |items| ==> Spells(texts[i], items[i])
  }

  function Defaults(items: seq<Item>): seq<Action> {
    if items == [] then []
    else (if items[0].Default? then [items[0].action] else []) + Defaults(items[1..])
  }

  /** The process an item is for: absent and 0 both mean the current one, -1 means all. */
  function Resolved(id: ThreadId, curProc: nat): int {
    if !id.hasPid || id.pid == 0 then curProc else if id.pid == -1 then 0xFFFF_FFFF_FFFF_FFFF else id.pid
  }

  /** No number below -1, no process 0, and no single thread of all processes. */
  predicate Permitted(item: Item, curProc: nat) {
    item.Target? ==>
      && item.id.tid >= -1 && (item.id.hasPid ==> item.id.pid >= -1)
      && Resolved(item.id, curProc) != 0
      && (Resolved(item.id, curProc) == 0xFFFF_FFFF_FFFF_FFFF ==> item.id.tid == -1)
  }

  /** The entry that an item asks for. */
  predicate Stands(item: Item, curProc: nat, e: Entry) {
    && item.Target? && e.action == item.action && e.pid == Resolved(item.id, curProc)
    && e.tid == if item.id.tid == -1 then 0xFFFF_FFFF_FFFF_FFFF else item.id.tid
  }

  function TargetItems(items: seq<Item>): seq<Item> {
    if items == [] then []
    else (if items[0].Target? then [items[0]] else []) + TargetItems(items[1..])
  }

  /** The entries, one for each item with a target, in order. */
  predicate StandAll(items: seq<Item>, curProc: nat, entries: seq<Entry>) {
    if items == [] || entries == [] then items == [] && entries == []
    else Stands(items[0], curProc, entries[0]) && StandAll(items[1..], curProc, entries[1..])
  }

  lemma PermittedIsSupported(item: Item, curProc: nat, e: Entry)
    ensures Permitted(item, curProc) <==> Supported(item, curProc)
    ensures item.Target? && Supported(item, curProc) ==> (Stands(item, curProc, e) <==> e == EntryFor(item, curProc))
  {
  }

  lemma {:induction false} TargetsStand(items: seq<Item>, curProc: nat, entries: seq<Entry>)
    requires AllSupported(items, curProc)
    ensures StandAll(TargetItems(items), curProc, entries) <==> entries == Targets(items, curProc)
    decreases |items|
  {
    hide Supported, EntryFor, Stands;
    if items != [] {
      AllSupportedCons(items, curProc);
      if items[0].Target? {
        OneStands(items, curProc, entries);
        if entries != [] {
          TargetsStand(items[1..], curProc, entries[1..]);
          PermittedIsSupported(items[0], curProc, entries[0]);
          assert entries == [entries[0]] + entries[1..];
        }
      } else {
        TargetsStand(items[1..], curProc, entries);
        assert TargetItems(items) == TargetItems(items[1..]) && Targets(items, curProc) == Targets(items[1..], curProc);
      }
    }
  }

  lemma OneStands(items: seq<Item>, curProc: nat, entries: seq<Entry>)
    requires items != [] && items[0].Target?
    ensures StandAll(TargetItems(items), curProc, entries) <==>
            && entries != [] && Stands(items[0], curProc, entries[0])
            && StandAll(TargetItems(items[1..]), curProc, entries[1..])
  {
    hide Stands;
    assert TargetItems(items)[1..] == TargetItems(items[1..]);
  }

  ghost function Targets(items: seq<Item>, curProc: nat): seq<Entry>
    requires AllSupported(items, curProc)
  {
    if items == [] then []
    else (if items[0].Target? then [EntryFor(items[0], curProc)] else []) + Targets(items[1..], curProc)
  }

  /**
   * `str` is a list of actions separated by ';' with at most one ';' after the
   * last, at most one default, and no entry for one thread of all processes.
   */
  ghost predicate Denotes(str: string, texts: seq<string>, items: seq<Item>, curProc: nat, p: Parsed) {
    && items != [] && SpellAll(texts, items)
    && (str == Join(texts, ';') || str == Join(texts, ';') + ";")
    && (forall i :: 0 <= i < |items| ==> Permitted(items[i], curProc))
    && |Defaults(items)| <= 1
    && p.default == (if Defaults(items) == [] then NoAction else Defaults(items)[0])
    && StandAll(TargetItems(items), curProc, p.entries)
  }

  lemma AllPermitted(items: seq<Item>, curProc: nat)
    ensures (forall i :: 0 <= i < |items| ==> Permitted(items[i], curProc)) <==> AllSupported(items, curProc)
  {
    hide Permitted, Supported;
    forall i | 0 <= i < |items|
      ensures Permitted(items[i], curProc) <==> Supported(items[i], curProc)
    {
      PermittedIsSupported(items[i], curProc, Entry(NoAction, 0, 0));
    }
  }

  lemma SpellsIsItemOf(text: string, item: Item)
    ensures Spells(text, item) <==> ItemOf(text) == Some(item)
    ensures Spells(text, item) ==> text != "" && ';' !in text
    ensures Spells(text, item) ==> item.action != NoAction
  {
    hide ThreadIdOf, WritesId;
    if item.Target? && |text| >= 2 {
      ThreadIdIff(text[2..], item.id);
    }
    if Spells(text, item) && item.Target? {
      ThreadIdHasNoSemicolon(text[2..]);
      assert text == [text[0], text[1]] + text[2..];
    }
  }

  lemma ExtendBySpelled(sofar: Parsed, text: string, item: Item, curProc: nat)
    requires Spells(text, item)
    ensures item.action != NoAction
    ensures item.Default? ==>
              Extend(sofar, text, curProc) ==
              if sofar.default != NoAction then None else Some(sofar.(default := item.action))
    ensures item.Target? ==>
              Extend(sofar, text, curProc) ==
              if Supported(item, curProc) then Some(sofar.(entries := sofar.entries + [EntryFor(item, curProc)]))
              else None
  {
    SpellsIsItemOf(text, item);
  }

  ghost predicate AllSupported(items: seq<Item>, curProc: nat) {
    forall i :: 0 <= i < |items| ==> Supported(items[i], curProc)
  }

  lemma AllSupportedCons(items: seq<Item>, curProc: nat)
    requires items != []
    ensures AllSupported(items, curProc) <==> Supported(items[0], curProc) && AllSupported(items[1..], curProc)
  {
    var rest := items[1..];
    assert forall i :: 1 <= i < |items| ==> items[i] == rest[i - 1];
    assert forall i :: 0 <= i < |rest| ==> rest[i] == items[i + 1];
  }

  /** Reading pieces that spell `items` succeeds exactly when the list as a whole is allowed. */
  lemma {:induction false} ExtendAllIff(sofar: Parsed, texts: seq<string>, items: seq<Item>, curProc: nat)
    requires SpellAll(texts, items)
    ensures ExtendAll(sofar, texts, curProc).Some? <==>
            AllSupported(items, curProc) && |Defaults(items)| <= (if sofar.default == NoAction then 1 else 0)
    ensures ExtendAll(sofar, texts, curProc).Some? ==>
              ExtendAll(sofar, texts, curProc) ==
              Some(Parsed(if Defaults(items) == [] then sofar.default else Defaults(items)[0],
                          sofar.entries + Targets(items, curProc)))
    decreases |items|
  {
    hide Extend, EntryFor, Supported, Spells;
    if items != [] {
      var rest := items[1..];
      ExtendBySpelled(sofar, texts[0], items[0], curProc);
      AllSupportedCons(items, curProc);
      match Extend(sofar, texts[0], curProc)
      case None =>
        assert items[0].Default? ==> |Defaults(items)| >= 1;
        assert items[0].Target? ==> !Supported(items[0], curProc);
      case Some(next) =>
        ExtendAllIff(next, texts[1..], rest, curProc);
        if items[0].Default? {
          assert Supported(items[0], curProc) by {
            DefaultSupported(items[0], curProc);
          }
        }
        if ExtendAll(sofar, texts, curProc).Some? {
          assert next.entries + Targets(rest, curProc) == sofar.entries + Targets(items, curProc);
        }
    } else {
      assert sofar.entries + Targets(items, curProc) == sofar.entries;
    }
  }

  lemma DefaultSupported(item: Item, curProc: nat)
    requires item.Default?
    ensures Supported(item, curProc)
  {
  }

  lemma {:induction false} JoinWithEmpty(texts: seq<string>, sep: char)
    requires texts != []
    ensures Join(texts + [""], sep) == Join(texts, sep) + [sep]
    decreases |texts|
  {
    var all := texts + [""];
    if |texts| == 1 {
      assert all[1..] == [""];
    } else {
      JoinWithEmpty(texts[1..], sep);
      assert all[1..] == texts[1..] + [""];
      assert all[0] + [sep] + (Join(texts[1..], sep) + [sep]) == (all[0] + [sep] + Join(texts[1..], sep)) + [sep];
    }
  }

  lemma PiecesOfTexts(str: string, texts: seq<string>, items: seq<Item>)
    requires items != [] && SpellAll(texts, items)
    requires str == Join(texts, ';') || str == Join(texts, ';') + ";"
    ensures Pieces(str, ';') == texts && str != ""
  {
    forall i | 0 <= i < |texts|
      ensures texts[i] != "" && ';' !in texts[i]
    {
      SpellsIsItemOf(texts[i], items[i]);
    }
    PiecesOfJoin(texts, ';');
    JoinWithEmpty(texts, ';');
    var all := texts + [""];
    assert all[..|all| - 1] == texts;
    PiecesOfJoin(all, ';');
  }

  /** The items a successful reading has passed over. */
  function ItemsOf(pieces: seq<string>): seq<Item>
    requires forall i :: 0 <= i < |pieces| ==> ItemOf(pieces[i]).Some?
  {
    seq(|pieces|, i requires 0 <= i < |pieces| => ItemOf(pieces[i]).value)
  }

  lemma {:induction false} ExtendAllReadsAll(sofar: Parsed, pieces: seq<string>, curProc: nat)
    requires ExtendAll(sofar, pieces, curProc).Some?
    ensures forall i :: 0 <= i < |pieces| ==> ItemOf(pieces[i]).Some?
    decreases |pieces|
  {
    hide ItemOf, EntryFor, Supported;
    if pieces != [] {
      ExtendAllReadsAll(Extend(sofar, pieces[0], curProc).value, pieces[1..], curProc);
      assert pieces == [pieces[0]] + pieces[1..];
    }
  }

  /** The constructor accepts exactly the grammar and recovers default and entries in order. */
  lemma ParseIff(str: string, curProc: nat, p: Parsed)
    ensures ParseActions(str, curProc) == Some(p) <==>
            exists texts, items :: Denotes(str, texts, items, curProc, p)
  {
    var empty := Parsed(NoAction, []);
    if ParseActions(str, curProc) == Some(p) {
      var texts := Pieces(str, ';');
      JoinOfPieces(str, ';');
      ExtendAllReadsAll(empty, texts, curProc);
      var items := ItemsOf(texts);
      forall i | 0 <= i < |items|
        ensures Spells(texts[i], items[i])
      {
        SpellsIsItemOf(texts[i], items[i]);
      }
      ExtendAllIff(empty, texts, items, curProc);
      assert empty.entries + Targets(items, curProc) == Targets(items, curProc);
      AllPermitted(items, curProc);
      TargetsStand(items, curProc, p.entries);
      assert Denotes(str, texts, items, curProc, p);
    }
    forall texts, items | Denotes(str, texts, items, curProc, p)
      ensures ParseActions(str, curProc) == Some(p)
    {
      PiecesOfTexts(str, texts, items);
      AllPermitted(items, curProc);
      TargetsStand(items, curProc, p.entries);
      ExtendAllIff(empty, texts, items, curProc);
      assert empty.entries + Targets(items, curProc) == Targets(items, curProc);
    }
  }

  /** The pieces up to n spell items of which all but the last are taken, and the last is for process 0. */
  ghost predicate ZeroAt(pieces: seq<string>, n: nat, items: seq<Item>, curProc: nat) {
    && n < |pieces| && |items| == n + 1 && SpellAll(pieces[..n + 1], items)
    && (forall i :: 0 <= i < n ==> Permitted(items[i], curProc)) && |Defaults(items[..n])| <= 1
    && items[n].Target? && items[n].id.tid >= -1 && (items[n].id.hasPid ==> items[n].id.pid >= -1)
    && Resolved(items[n].id, curProc) == 0
  }

  lemma ZeroPidIs(piece: string, item: Item, curProc: nat)
    requires Spells(piece, item)
    ensures ZeroPid(piece, curProc) <==>
            && item.Target? && item.id.tid >= -1 && (item.id.hasPid ==> item.id.pid >= -1)
            && Resolved(item.id, curProc) == 0
    ensures ZeroPid(piece, curProc) ==> !Supported(item, curProc)
  {
    SpellsIsItemOf(piece, item);
  }

  /** Reading `items` first and then the rest. */
  lemma {:induction false} StopsLater(sofar: Parsed, pieces: seq<string>, n: nat, items: seq<Item>, curProc: nat)
    requires n <= |pieces| && SpellAll(pieces[..n], items)
    requires AllSupported(items, curProc) && |Defaults(items)| <= (if sofar.default == NoAction then 1 else 0)
    ensures var next := ExtendAll(sofar, pieces[..n], curProc);
            next.Some? && StopsAtZeroPid(sofar, pieces, curProc) == StopsAtZeroPid(next.value, pieces[n..], curProc)
    decreases n
  {
    hide Extend, ZeroPid, Spells, Supported, EntryFor;
    ExtendAllIff(sofar, pieces[..n], items, curProc);
    if n == 0 {
      assert pieces[n..] == pieces && pieces[..n] == [];
    } else {
      var front := pieces[..n];
      assert front[0] == pieces[0] && front[1..] == pieces[1..][..n - 1] && pieces[1..][n - 1..] == pieces[n..];
      ExtendBySpelled(sofar, front[0], items[0], curProc);
      AllSupportedCons(items, curProc);
      StopsLater(Extend(sofar, front[0], curProc).value, pieces[1..], n - 1, items[1..], curProc);
    }
  }

  /** Where reading stops at a process 0, everything before it is taken. */
  lemma {:induction false} FindZero(sofar: Parsed, pieces: seq<string>, curProc: nat) returns (n: nat, items: seq<Item>)
    requires StopsAtZeroPid(sofar, pieces, curProc)
    ensures n < |pieces| && |items| == n + 1 && SpellAll(pieces[..n + 1], items)
    ensures AllSupported(items[..n], curProc) && |Defaults(items[..n])| <= (if sofar.default == NoAction then 1 else 0)
    ensures ZeroPid(pieces[n], curProc)
    decreases |pieces|
  {
    hide Extend, ZeroPid, Spells, Supported, EntryFor;
    var item := FirstItem(sofar, pieces[0], curProc);
    match Extend(sofar, pieces[0], curProc)
    case None =>
      n, items := 0, [item];
      assert items[..0] == [] && pieces[..1] == [pieces[0]];
    case Some(next) =>
      var m, rest := FindZero(next, pieces[1..], curProc);
      n, items := m + 1, [item] + rest;
      assert pieces[..n + 1] == [pieces[0]] + pieces[1..][..m + 1];
      ExtendBySpelled(sofar, pieces[0], item, curProc);
      assert items[..n] == [item] + rest[..m] && items[..n][1..] == rest[..m];
      AllSupportedCons(items[..n], curProc);
      if item.Default? {
        DefaultSupported(item, curProc);
      }
  }

  /** A piece that extends the list, or is for process 0, spells an item. */
  lemma FirstItem(sofar: Parsed, piece: string, curProc: nat) returns (item: Item)
    requires Extend(sofar, piece, curProc).Some? || ZeroPid(piece, curProc)
    ensures Spells(piece, item)
    ensures item.Target? && Extend(sofar, piece, curProc).Some? ==> Supported(item, curProc)
  {
    item := ItemOf(piece).value;
    SpellsIsItemOf(piece, item);
  }

  /** The check fails exactly on a list that reads well up to an item for process 0. */
  lemma TripsIff(str: string, curProc: nat)
    ensures TripsCheck(str, curProc) <==> exists n, items :: ZeroAt(Pieces(str, ';'), n, items, curProc)
  {
    hide StopsAtZeroPid, ZeroPid, Pieces, Permitted, Supported, Spells;
    var empty, pieces := Parsed(NoAction, []), Pieces(str, ';');
    FirstPiece("", ';');
    if TripsCheck(str, curProc) {
      var n, items := FindZero(empty, pieces, curProc);
      AllPermitted(items[..n], curProc);
      assert forall i :: 0 <= i < n ==> items[i] == items[..n][i];
      assert Spells(pieces[..n + 1][n], items[n]) && pieces[..n + 1][n] == pieces[n];
      ZeroPidIs(pieces[n], items[n], curProc);
      assert ZeroAt(pieces, n, items, curProc);
      assert exists n, items :: ZeroAt(Pieces(str, ';'), n, items, curProc);
    }
    forall n, items | ZeroAt(pieces, n, items, curProc)
      ensures TripsCheck(str, curProc)
    {
      StopsThere(pieces, n, items, curProc);
      assert str != "";
    }
  }

  lemma StopsThere(pieces: seq<string>, n: nat, items: seq<Item>, curProc: nat)
    requires ZeroAt(pieces, n, items, curProc)
    ensures StopsAtZeroPid(Parsed(NoAction, []), pieces, curProc)
  {
    hide ZeroPid, Permitted, Supported, Spells;
    var empty, front := Parsed(NoAction, []), items[..n];
    AllPermitted(front, curProc);
    assert forall i :: 0 <= i < n ==> front[i] == items[i] && pieces[..n][i] == pieces[..n + 1][i];
    StopsLater(empty, pieces, n, front, curProc);
    assert Spells(pieces[..n + 1][n], items[n]) && pieces[..n + 1][n] == pieces[n] && pieces[n..][0] == pieces[n];
    ZeroPidIs(pieces[n], items[n], curProc);
    ExtendBySpelled(ExtendAll(empty, pieces[..n], curProc).value, pieces[n], items[n], curProc);
  }

  lemma ExtendAllOne(sofar: Parsed, piece: string, curProc: nat)
    ensures ExtendAll(sofar, [piece], curProc) == Extend(sofar, piece, curProc)
  {
    hide Extend;
    assert [piece][1..] == [];
    match Extend(sofar, piece, curProc)
    case None =>
    case Some(next) => assert ExtendAll(next, [], curProc) == Some(next);
  }

  /** One letter alone is for every thread there is. */
  lemma PlainActions(curProc: nat)
    ensures ParseActions("c", curProc) == Some(Parsed(Continue, []))
    ensures ParseActions("s", curProc) == Some(Parsed(Step, []))
  {
    hide Pieces;
    FirstPiece("c", ';');
    FirstPiece("s", ';');
    FindIs("c", ';', 1);
    FindIs("s", ';', 1);
    ExtendAllOne(Parsed(NoAction, []), "c", curProc);
    ExtendAllOne(Parsed(NoAction, []), "s", curProc);
  }

  /** A letter and the id of a thread as the server writes it are for that thread. */
  lemma ActionForOne(pid: nat, tid: nat, curProc: nat)
    requires 0 < pid < TWO_63 && 0 < tid < TWO_63
    ensures ParseActions("c:" + EncodeThreadId(pid, tid), curProc) == Some(Parsed(NoAction, [Entry(Continue, pid, tid)]))
    ensures ParseActions("s:" + EncodeThreadId(pid, tid), curProc) == Some(Parsed(NoAction, [Entry(Step, pid, tid)]))
  {
    hide Pieces, ThreadIdOf, ExtendAll;
    var id := EncodeThreadId(pid, tid);
    ParseOfEncode(pid, tid);
    ReadsOne('c', id, curProc);
    ReadsOne('s', id, curProc);
    assert "c:" == ['c', ':'] && "s:" == ['s', ':'];
  }

  lemma ReadsOne(letter: char, id: string, curProc: nat)
    requires (letter == 'c' || letter == 's') && ThreadIdOf(id).Some?
    ensures var item := Target(DecodeAction(letter).value, ThreadIdOf(id).value);
            ParseActions([letter, ':'] + id, curProc) ==
            if Supported(item, curProc) then Some(Parsed(NoAction, [EntryFor(item, curProc)])) else None
  {
    hide Pieces, ThreadIdOf, EntryFor, Supported;
    var s := [letter, ':'] + id;
    OnePiece(letter, id);
    ExtendAllOne(Parsed(NoAction, []), s, curProc);
    var item := Target(DecodeAction(letter).value, ThreadIdOf(id).value);
    assert s[2..] == id && ItemOf(s) == Some(item);
    assert Supported(item, curProc) ==> [] + [EntryFor(item, curProc)] == [EntryFor(item, curProc)];
  }

  lemma OnePiece(letter: char, id: string)
    requires letter != ';' && ThreadIdOf(id).Some?
    ensures Pieces([letter, ':'] + id, ';') == [[letter, ':'] + id]
  {
    hide Pieces, ThreadIdOf;
    var s := [letter, ':'] + id;
    ThreadIdHasNoSemicolon(id);
    assert forall i :: 2 <= i < |s| ==> s[i] == id[i - 2];
    FindIs(s, ';', |s|);
    FirstPiece(s, ';');
  }
}
