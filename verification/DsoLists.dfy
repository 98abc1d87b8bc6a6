/** The list of loaded modules (lib/debugger-utils/dso-list.cc). */
module DsoLists {
  import opened Prelude

  /** One module; serials number the calls to dsolist_add. */
  datatype Entry = Entry(name: string, base: nat, serial: nat)

  function Renamed(name: string): string {
    if name == "libc.so" then "libmusl.so" else name
  }

  /** Where a module with this base goes: before the first with a smaller one, else at the end. */
  function Place(s: seq<Entry>, base: nat): (k: nat)
    ensures k <= |s| && (forall i :: 0 <= i < k ==> s[i].base >= base) && (k < |s| ==> s[k].base < base)
  {
    if s == [] || s[0].base < base then 0 else 1 + Place(s[1..], base)
  }

  function Add(s: seq<Entry>, e: Entry): (r: seq<Entry>)
    ensures |r| == |s| + 1
  {
    s[..Place(s, e.base)] + [e] + s[Place(s, e.base)..]
  }

  /** All modules in the order they are added, numbered by that order. */
  function AddAll(modules: seq<(string, nat)>): seq<Entry> {
    if modules == [] then []
    else
      var n := |modules| - 1;
      Add(AddAll(modules[..n]), Entry(Renamed(modules[n].0), modules[n].1, n))
  }

  class Dso {
    const name: string
    const base: nat
    const serial: nat
    var isMainExec: bool
    var next: Dso?

    constructor (name: string, base: nat, serial: nat)
      ensures this.name == name && this.base == base && this.serial == serial && !isMainExec && next == null
    {
      this.name, this.base, this.serial, isMainExec, next := name, base, serial, false, null;
    }

    function Value(): Entry {
      Entry(name, base, serial)
    }
  }

  ghost function At(spine: seq<Dso>, i: nat): Dso? {
    if i < |spine| then spine[i] else null
  }

  /** The nodes in list order: linked one to the next, ending in null, none of them twice. */
  ghost predicate Linked(head: Dso?, spine: seq<Dso>)
    reads spine
  {
    && head == (if spine == [] then null else spine[0])
    && (forall i :: 0 <= i < |spine| ==> spine[i].next == At(spine, i + 1))
    && (forall i, j :: 0 <= i < j < |spine| ==> spine[i] != spine[j])
  }

  function Values(spine: seq<Dso>): (s: seq<Entry>)
    ensures |s| == |spine|
  {
    seq(|spine|, i requires 0 <= i < |spine| => spine[i].Value())
  }

  class DsoList {
    var list: Dso?
    ghost var spine: seq<Dso>
    var count: nat

    ghost predicate Valid()
      reads this, spine
    {
      Linked(list, spine)
    }

    constructor ()
      ensures Valid() && spine == [] && count == 0
    {
      list, spine, count := null, [], 0;
    }

    /** dsolist_add: walks to the place and splices the new node in. */
    method DsolistAdd(name: string, base: nat) returns (dso: Dso)
      requires Valid()
      modifies this, spine
      ensures Valid() && count == old(count) + 1 && fresh(dso) && !dso.isMainExec
      ensures dso.Value() == Entry(Renamed(name), base, old(count))
      ensures dso.name == (if name == "libc.so" then "libmusl.so" else name) && dso.base == base
      ensures Values(spine) == Add(Values(old(spine)), dso.Value())
      ensures forall d :: d in spine <==> d == dso || d in old(spine)
      ensures forall d :: d in old(spine) ==> d.isMainExec == old(d.isMainExec)
    {
      hide Linked, At, Add, Values;
      dso := new Dso(Renamed(name), base, count);
      count := count + 1;
      var last, here, k := FindPlace(base);
      Splice(dso, last, here, k);
      ValuesOfSplice(old(spine), dso, k);
    }

    /** The node after which a module with this base belongs, and the one before which. */
    method FindPlace(base: nat) returns (last: Dso?, here: Dso?, ghost k: nat)
      requires Valid()
      ensures k <= |spine| && here == At(spine, k) && last == (if k == 0 then null else spine[k - 1])
      ensures (forall i :: 0 <= i < k ==> spine[i].base >= base) && (k < |spine| ==> spine[k].base < base)
    {
      last, here, k := null, list, 0;
      while here != null
        invariant k <= |spine| && here == At(spine, k) && last == (if k == 0 then null else spine[k - 1])
        invariant forall i :: 0 <= i < k ==> spine[i].base >= base
        decreases |spine| - k
      {
        if here.base < base {
          return;
        }
        last, here := here, here.next;
        k := k + 1;
      }
    }

    /** Puts the node between its neighbours. */
    method Splice(dso: Dso, last: Dso?, here: Dso?, ghost k: nat)
      requires Linked(list, spine) && k <= |spine| && dso !in spine
      requires here == At(spine, k) && last == (if k == 0 then null else spine[k - 1])
      modifies this`list, this`spine, dso`next, spine
      ensures Linked(list, spine) && spine == old(spine)[..k] + [dso] + old(spine)[k..]
      ensures forall d :: d == dso || d in old(spine) ==> d.isMainExec == old(d.isMainExec)
    {
      ghost var s := spine;
      dso.next := here;
      if last == null {
        list := dso;
      } else {
        last.next := dso;
      }
      assert forall i :: 0 <= i < |s| && i + 1 != k ==> s[i].next == At(s, i + 1);
      spine := s[..k] + [dso] + s[k..];
      SplicedIsLinked(list, s, dso, k);
    }

    /** The first module whose base is not above pc. */
    method DsoLookup(pc: nat) returns (dso: Dso?)
      requires Valid()
      ensures dso != null ==> dso in spine
      ensures Lookup(Values(spine), pc) == if dso == null then None else Some(dso.Value())
    {
      ghost var k := 0;
      dso := list;
      assert spine[0..] == spine;
      while dso != null
        invariant k <= |spine| && dso == At(spine, k)
        invariant Lookup(Values(spine), pc) == Lookup(Values(spine[k..]), pc)
        decreases |spine| - k
      {
        assert Values(spine[k..])[1..] == Values(spine[k + 1..]);
        if pc >= dso.base {
          return;
        }
        dso := dso.next;
        k := k + 1;
      }
    }

    method DsoGetMainExec() returns (dso: Dso?)
      requires Valid()
      ensures dso != null ==> dso in spine && dso.isMainExec
      ensures dso == null ==> forall d :: d in spine ==> !d.isMainExec
    {
      ghost var k := 0;
      dso := list;
      while dso != null
        invariant k <= |spine| && dso == At(spine, k)
        invariant forall i :: 0 <= i < k ==> !spine[i].isMainExec
        decreases |spine| - k
      {
        if dso.isMainExec {
          return;
        }
        dso := dso.next;
        k := k + 1;
      }
    }
  }

  lemma ValuesOfSplice(s: seq<Dso>, dso: Dso, k: nat)
    requires k <= |s| && (forall i :: 0 <= i < k ==> s[i].base >= dso.base) && (k < |s| ==> s[k].base < dso.base)
    ensures Values(s[..k] + [dso] + s[k..]) == Add(Values(s), dso.Value())
    ensures forall d :: d in s[..k] + [dso] + s[k..] <==> d == dso || d in s
  {
    hide Add;
    AddPlace(Values(s), dso.Value(), k);
    assert Values(s[..k] + [dso] + s[k..]) == Values(s)[..k] + [dso.Value()] + Values(s)[k..];
    assert s == s[..k] + s[k..];
  }

  /** The links around a node that was put in place k. */
  lemma SplicedIsLinked(head: Dso?, s: seq<Dso>, dso: Dso, k: nat)
    requires k <= |s| && dso !in s && forall i, j :: 0 <= i < j < |s| ==> s[i] != s[j]
    requires head == (if k == 0 then dso else s[0])
    requires forall i :: 0 <= i < |s| && i + 1 != k ==> s[i].next == At(s, i + 1)
    requires dso.next == At(s, k) && (k > 0 ==> s[k - 1].next == dso)
    ensures Linked(head, s[..k] + [dso] + s[k..])
  {
    var r := s[..k] + [dso] + s[k..];
    assert forall i :: 0 <= i < k ==> r[i] == s[i];
    assert r[k] == dso;
    assert forall i :: k < i < |r| ==> r[i] == s[i - 1];
    forall i | 0 <= i < |r|
      ensures r[i].next == At(r, i + 1)
    {
      if i > k {
        assert s[i - 1].next == At(s, i - 1 + 1);
      }
    }
  }

  /** A link map entry: whether it and its name can be read, and whether the ELF header at its base can. */
  datatype Link = Link(readable: bool, name: string, base: nat, elf: bool)

  /**
   * The modules dso_fetch_list gets to: it stops at the first that cannot be read, or after the first
   * without an ELF header.
   */
  function Taken(links: seq<Link>, name: string): seq<(string, nat)> {
    if links == [] || !links[0].readable then []
    else
      var first := (if links[0].name == "" then name else links[0].name, links[0].base);
      if links[0].elf then [first] + Taken(links[1..], name) else [first]
  }

  ghost predicate HasMain(spine: seq<Dso>)
    reads spine
  {
    exists d :: d in spine && d.isMainExec
  }

  /** The list built so far; only the first module can be the main executable. */
  ghost predicate Fetched(dsos: DsoList, done: seq<(string, nat)>)
    reads dsos, dsos.spine
  {
    && dsos.Valid() && dsos.count == |done| && Values(dsos.spine) == AddAll(done)
    && forall d :: d in dsos.spine ==> (d.isMainExec ==> d.serial == 0)
  }

  /** One turn of dso_fetch_list on a module that can be read. */
  method FetchOne(dsos: DsoList, fileName: string, base: nat, elf: bool, isMainExec: bool, ghost done: seq<(string, nat)>)
    requires Fetched(dsos, done) && (isMainExec ==> done == [])
    modifies dsos, dsos.spine
    ensures Fetched(dsos, done + [(fileName, base)])
    ensures forall j :: 0 <= j < |dsos.spine| ==> dsos.spine[j] in old(dsos.spine) || fresh(dsos.spine[j])
    ensures HasMain(dsos.spine) <==> (isMainExec && elf) || old(HasMain(dsos.spine))
  {
    hide AddAll, Add, Linked, Values;
    AddAllOneMore(done, fileName, base);
    var dso := dsos.DsolistAdd(fileName, base);
    assert dso in dsos.spine;
    if elf {
      MarkMain(dsos, dso, isMainExec);
    }
  }

  method MarkMain(dsos: DsoList, dso: Dso, isMainExec: bool)
    requires dsos.Valid() && dso in dsos.spine
    modifies dso`isMainExec
    ensures dsos.Valid() && dso.isMainExec == isMainExec
  {
    dso.isMainExec := isMainExec;
  }

  lemma AddAllOneMore(done: seq<(string, nat)>, name: string, base: nat)
    ensures AddAll(done + [(name, base)]) == Add(AddAll(done), Entry(Renamed(name), base, |done|))
  {
    assert (done + [(name, base)])[..|done|] == done;
  }

  /** One step along the link map. */
  lemma TakenFrom(links: seq<Link>, name: string, i: nat, done: seq<(string, nat)>)
    requires i < |links| && Taken(links, name) == done + Taken(links[i..], name)
    ensures var one := (if links[i].name == "" then name else links[i].name, links[i].base);
            && (!links[i].readable ==> Taken(links, name) == done)
            && (links[i].readable && !links[i].elf ==> Taken(links, name) == done + [one])
            && (links[i].readable && links[i].elf ==>
                  Taken(links, name) == (done + [one]) + Taken(links[i + 1..], name))
  {
    assert links[i..][1..] == links[i + 1..];
  }

  lemma NothingTaken(name: string)
    ensures Taken([], name) == []
  {
  }

  /** dso_fetch_list, as far as the list goes. */
  method DsoFetchList(links: seq<Link>, name: string) returns (dsos: DsoList)
    ensures fresh(dsos) && Fetched(dsos, Taken(links, name))
    ensures HasMain(dsos.spine) <==> links != [] && links[0].readable && links[0].elf
  {
    hide AddAll, Linked, Values, Taken, HasMain;
    dsos := new DsoList();
    var isMainExec := true;
    var i := 0;
    ghost var done: seq<(string, nat)> := [];
    assert links[0..] == links;
    NothingAdded();
    assert !HasMain([]) by { NoMain(); }
    assert Values(dsos.spine) == [] by { NoValues(); }
    while i < |links|
      invariant i <= |links| && fresh(dsos) && Fetched(dsos, done)
      invariant forall j :: 0 <= j < |dsos.spine| ==> fresh(dsos.spine[j])
      invariant |done| == i && isMainExec == (i == 0)
      invariant Taken(links, name) == done + Taken(links[i..], name)
      invariant i > 0 ==> links[0].readable && links[0].elf
      invariant HasMain(dsos.spine) <==> i > 0
    {
      TakenFrom(links, name, i, done);
      if !links[i].readable {
        return;
      }
      var fileName := if links[i].name == "" then name else links[i].name;
      FetchOne(dsos, fileName, links[i].base, links[i].elf, isMainExec, done);
      done := done + [(fileName, links[i].base)];
      if !links[i].elf {
        return;
      }
      isMainExec := false;
      i := i + 1;
    }
    assert links[i..] == [] && done + [] == done;
    NothingTaken(name);
  }

  lemma NoMain()
    ensures !HasMain([])
  {
  }

  lemma NoValues()
    ensures Values([]) == []
  {
  }

  lemma NothingAdded()
    ensures AddAll([]) == []
  {
  }

  lemma AddPlace(s: seq<Entry>, e: Entry, k: nat)
    requires k <= |s| && (forall i :: 0 <= i < k ==> s[i].base >= e.base) && (k < |s| ==> s[k].base < e.base)
    ensures Add(s, e) == s[..k] + [e] + s[k..]
  {
    var p := Place(s, e.base);
    assert p < |s| ==> s[p].base < e.base;
    assert k < |s| ==> s[k].base < e.base;
  }

  // What the order is for.

  function Lookup(s: seq<Entry>, pc: nat): Option<Entry> {
    if s == [] then None else if pc >= s[0].base then Some(s[0]) else Lookup(s[1..], pc)
  }

  /** Larger bases first, and the earlier added first among equals. */
  predicate Precedes(a: Entry, b: Entry) {
    a.base > b.base || (a.base == b.base && a.serial < b.serial)
  }

  predicate InOrder(s: seq<Entry>) {
    forall i, j :: 0 <= i < j < |s| ==> Precedes(s[i], s[j])
  }

  /** Adding a module keeps the order and adds just that module. */
  lemma AddKeepsOrder(s: seq<Entry>, e: Entry)
    requires InOrder(s) && forall x :: x in s ==> x.serial < e.serial
    ensures InOrder(Add(s, e)) && forall x :: x in Add(s, e) <==> x == e || x in s
  {
    hide Place;
    var k := Place(s, e.base);
    InOrderWith(s, e, k);
    assert s == s[..k] + s[k..];
  }

  lemma InOrderWith(s: seq<Entry>, e: Entry, k: nat)
    requires InOrder(s) && forall x :: x in s ==> x.serial < e.serial
    requires k <= |s| && (forall i :: 0 <= i < k ==> s[i].base >= e.base) && (k < |s| ==> s[k].base < e.base)
    ensures InOrder(s[..k] + [e] + s[k..])
  {
    var r := s[..k] + [e] + s[k..];
    forall i, j | 0 <= i < j < |r|
      ensures Precedes(r[i], r[j])
    {
      var a, b := if i < k then i else i - 1, if j < k then j else j - 1;
      if i == k {
        assert b == k || Precedes(s[k], s[b]);
      } else if j == k {
        assert r[i] == s[i] && s[i] in s;
      } else {
        assert r[i] == s[a] && r[j] == s[b];
      }
    }
  }

  /** The entries of the modules, in the order they were added. */
  function Entries(modules: seq<(string, nat)>): seq<Entry> {
    seq(|modules|, i requires 0 <= i < |modules| => Entry(Renamed(modules[i].0), modules[i].1, i))
  }

  /** However the modules come, the list holds exactly them, in order. */
  lemma {:induction false} ListIsSorted(modules: seq<(string, nat)>)
    ensures InOrder(AddAll(modules)) && |AddAll(modules)| == |modules|
    ensures forall x :: x in AddAll(modules) <==> x in Entries(modules)
    decreases |modules|
  {
    hide InOrder, Add;
    if modules == [] {
      assert InOrder([]) by { NothingInOrder(); }
    } else {
      var n := |modules| - 1;
      var before, e := AddAll(modules[..n]), Entry(Renamed(modules[n].0), modules[n].1, n);
      ListIsSorted(modules[..n]);
      assert Entries(modules) == Entries(modules[..n]) + [e];
      AddKeepsOrder(before, e);
    }
  }

  lemma NothingInOrder()
    ensures InOrder([])
  {
  }

  lemma {:induction false} LookupIsFirst(s: seq<Entry>, pc: nat)
    requires InOrder(s)
    ensures Lookup(s, pc).None? ==> forall x :: x in s ==> x.base > pc
    ensures Lookup(s, pc).Some? ==>
              var r := Lookup(s, pc).value;
              r in s && r.base <= pc && forall x :: x in s && x.base <= pc && x != r ==> Precedes(r, x)
    decreases |s|
  {
    hide Precedes;
    if s != [] {
      var rest := s[1..];
      assert s == [s[0]] + rest;
      assert forall i :: 0 <= i < |rest| ==> rest[i] == s[i + 1];
      Ahead(s);
      if pc < s[0].base {
        LookupIsFirst(rest, pc);
      }
    }
  }

  lemma Ahead(s: seq<Entry>)
    requires InOrder(s) && s != []
    ensures forall x :: x in s && x != s[0] ==> Precedes(s[0], x)
  {
    forall x | x in s && x != s[0]
      ensures Precedes(s[0], x)
    {
      var i :| 0 <= i < |s| && s[i] == x;
    }
  }

  /**
   * The answer for any address and any modules: the one with the greatest base not
   * above the address, the earliest added of them, and none exactly if all are above.
   */
  lemma LookupFindsModule(modules: seq<(string, nat)>, pc: nat)
    ensures var found := Lookup(AddAll(modules), pc);
            && (found.None? <==> forall i :: 0 <= i < |modules| ==> modules[i].1 > pc)
            && (found.Some? ==>
                  var k := found.value.serial;
                  && k < |modules| && found.value == Entries(modules)[k] && modules[k].1 <= pc
                  && (forall i :: 0 <= i < |modules| && modules[i].1 <= pc ==> modules[i].1 <= modules[k].1)
                  && (forall i :: 0 <= i < k ==> modules[i].1 != modules[k].1))
  {
    hide AddAll, Lookup, InOrder;
    var s, es := AddAll(modules), Entries(modules);
    ListIsSorted(modules);
    LookupIsFirst(s, pc);
    assert forall i :: 0 <= i < |modules| ==> es[i] in s && es[i].base == modules[i].1 && es[i].serial == i;
  }
}
