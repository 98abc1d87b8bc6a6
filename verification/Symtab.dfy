/** ELF symbol tables (lib/debugger-utils/elf-symtab.cc). */
module Symtab {
  import opened Prelude

  /** A uint64_t. */
  type Word = w: int | 0 <= w < TWO_64

  /** A symbol; its name is an offset into the string section. */
  datatype Symbol = Symbol(name: nat, addr: Word, size: Word)

  /** The conversion of a uint64_t difference to int. */
  function Truncated(d: int): (r: int)
    ensures -TWO_31 <= r < TWO_31 && (r - d) % TWO_32 == 0
  {
    var low := d % TWO_32;
    if low < TWO_31 then low else low - TWO_32
  }

  /** Whether a's address lies in b, as the comparison sees it: the end of b is computed modulo 2^64. */
  predicate Inside(a: Symbol, b: Symbol) {
    b.addr <= a.addr < (b.addr + b.size) % TWO_64
  }

  /** CompareSymbol. */
  function Compare(a: Symbol, b: Symbol): int {
    if Inside(a, b) || Inside(b, a) then 0 else Truncated(a.addr - b.addr)
  }

  /** Equal if one starts inside the other, where ends wrap around; else the low half of the difference, with its sign. */
  lemma CompareIs(a: Symbol, b: Symbol)
    ensures var inside := b.addr <= a.addr < (b.addr + b.size) % 0x1_0000_0000_0000_0000 ||
                          a.addr <= b.addr < (a.addr + a.size) % 0x1_0000_0000_0000_0000;
            && (inside ==> Compare(a, b) == 0)
            && (!inside ==>
                  && -0x8000_0000 <= Compare(a, b) < 0x8000_0000
                  && (Compare(a, b) - (a.addr - b.addr)) % 0x1_0000_0000 == 0)
  {
  }

  function Key(addr: Word): Symbol {
    Symbol(0, addr, 0)
  }

  function Usable(raw: seq<Symbol>, maxStringOffset: nat): seq<Symbol> {
    if raw == [] then []
    else
      var most := Usable(raw[..|raw| - 1], maxStringOffset);
      if raw[|raw| - 1].name >= maxStringOffset then most else most + [raw[|raw| - 1]]
  }

  /** What C requires of a comparison passed to qsort, on the elements being sorted. */
  ghost predicate Consistent(s: seq<Symbol>) {
    && (forall a, b :: a in s && b in s ==> (Compare(a, b) <= 0 <==> Compare(b, a) >= 0))
    && (forall a, b, c :: a in s && b in s && c in s && Compare(a, b) <= 0 && Compare(b, c) <= 0 ==> Compare(a, c) <= 0)
  }

  predicate Ascending(s: seq<Symbol>) {
    forall i, j :: 0 <= i < j < |s| ==> Compare(s[i], s[j]) <= 0
  }

  /** What qsort may leave behind: some permutation, in order if the comparison is one it can use. */
  ghost predicate IsSortOf(sorted: seq<Symbol>, s: seq<Symbol>) {
    multiset(sorted) == multiset(s) && (Consistent(s) ==> Ascending(sorted))
  }

  /** The halving search of bsearch in n elements from base on. */
  function Search(s: seq<Symbol>, key: Symbol, base: nat, n: nat): Option<nat>
    requires base + n <= |s|
    decreases n
  {
    if n == 0 then None
    else
      var probe := base + n / 2;
      var sign := Compare(key, s[probe]);
      if sign < 0 then Search(s, key, base, n / 2)
      else if sign > 0 then Search(s, key, probe + 1, n - (n / 2 + 1))
      else Some(probe)
  }

  class SymbolTable {
    var symbols: array<Symbol>
    var numSymbols: nat

    constructor ()
      ensures fresh(symbols) && numSymbols == 0 && symbols.Length == 0
    {
      symbols, numSymbols := new Symbol[0], 0;
    }

    /** The loop of Populate: entries with a bad name are dropped, the rest keep their order. */
    method Populate(raw: seq<Symbol>, maxStringOffset: nat)
      modifies this
      ensures fresh(symbols) && numSymbols <= symbols.Length
      ensures symbols[..numSymbols] == Usable(raw, maxStringOffset)
    {
      hide Usable;
      symbols := new Symbol[|raw|](_ => Symbol(0, 0, 0));
      numSymbols := 0;
      assert symbols[..0] == Usable(raw[..0], maxStringOffset) by { NothingUsable(maxStringOffset); }
      for i := 0 to |raw|
        invariant fresh(symbols) && symbols.Length == |raw| && numSymbols <= i
        invariant symbols[..numSymbols] == Usable(raw[..i], maxStringOffset)
      {
        UsableOneMore(raw, i, maxStringOffset);
        if raw[i].name < maxStringOffset {
          symbols[numSymbols] := raw[i];
          numSymbols := numSymbols + 1;
        }
      }
      assert raw[..|raw|] == raw;
    }

    /** Finalize, given what qsort made of the array. */
    method Finalize(sorted: seq<Symbol>)
      requires numSymbols <= symbols.Length && IsSortOf(sorted, symbols[..numSymbols])
      modifies symbols
      ensures symbols[..numSymbols] == sorted
    {
      SameLength(sorted, symbols[..numSymbols]);
      for i := 0 to numSymbols
        invariant symbols[..i] == sorted[..i]
      {
        symbols[i] := sorted[i];
      }
    }

    /** bsearch for the address. */
    method FindSymbol(addr: Word) returns (found: Option<nat>)
      requires numSymbols <= symbols.Length
      ensures found == Search(symbols[..numSymbols], Key(addr), 0, numSymbols)
      ensures found.Some? ==> found.value < numSymbols && Compare(Key(addr), symbols[found.value]) == 0
      ensures Parted(symbols[..numSymbols], Key(addr)) && found.None? ==>
                forall i :: 0 <= i < numSymbols ==> Compare(Key(addr), symbols[i]) != 0
    {
      hide Compare, Parted;
      ghost var s := symbols[..numSymbols];
      SearchFinds(s, Key(addr), 0, numSymbols);
      var base: nat, n: nat := 0, numSymbols;
      while n > 0
        invariant base + n <= numSymbols
        invariant Search(s, Key(addr), 0, numSymbols) == Search(s, Key(addr), base, n)
        decreases n
      {
        var probe := base + n / 2;
        assert s[probe] == symbols[probe];
        var sign := Compare(Key(addr), symbols[probe]);
        if sign < 0 {
          n := n / 2;
        } else if sign > 0 {
          base, n := probe + 1, n - (n / 2 + 1);
        } else {
          return Some(probe);
        }
      }
      return None;
    }
  }

  /** The search ends on an element that compares equal, and misses none if the key parts the elements. */
  lemma {:induction false} SearchFinds(s: seq<Symbol>, key: Symbol, base: nat, n: nat)
    requires base + n <= |s|
    ensures var r := Search(s, key, base, n);
            && (r.Some? ==> base <= r.value < base + n && Compare(key, s[r.value]) == 0)
            && (r.None? && Parted(s, key) ==> forall i :: base <= i < base + n ==> Compare(key, s[i]) != 0)
    decreases n
  {
    hide Compare, Parted;
    if n > 0 {
      var probe := base + n / 2;
      var sign := Compare(key, s[probe]);
      if sign < 0 {
        SearchFinds(s, key, base, n / 2);
        if Parted(s, key) {
          Beyond(s, key, probe);
        }
      } else if sign > 0 {
        SearchFinds(s, key, probe + 1, n - (n / 2 + 1));
        if Parted(s, key) {
          Beyond(s, key, probe);
        }
      }
    }
  }

  /** In a table parted by the key, an element off the key rules out one side. */
  lemma Beyond(s: seq<Symbol>, key: Symbol, probe: nat)
    requires Parted(s, key) && probe < |s|
    ensures Compare(key, s[probe]) < 0 ==> forall i :: probe <= i < |s| ==> Compare(key, s[i]) < 0
    ensures Compare(key, s[probe]) > 0 ==> forall i :: 0 <= i <= probe ==> Compare(key, s[i]) > 0
  {
    hide Compare;
  }

  lemma NothingUsable(maxStringOffset: nat)
    ensures Usable([], maxStringOffset) == []
  {
  }

  lemma UsableOneMore(raw: seq<Symbol>, i: nat, maxStringOffset: nat)
    requires i < |raw|
    ensures Usable(raw[..i + 1], maxStringOffset) ==
            Usable(raw[..i], maxStringOffset) + (if raw[i].name >= maxStringOffset then [] else [raw[i]])
  {
    assert raw[..i + 1][..i] == raw[..i];
  }

  /** What is kept: the symbols with a name in the string section, each as often as it was there. */
  lemma {:induction false} UsableKeeps(raw: seq<Symbol>, maxStringOffset: nat, s: Symbol)
    ensures multiset(Usable(raw, maxStringOffset))[s] == if s.name < maxStringOffset then multiset(raw)[s] else 0
    decreases |raw|
  {
    if raw != [] {
      var most, last := raw[..|raw| - 1], raw[|raw| - 1];
      UsableKeeps(most, maxStringOffset, s);
      assert raw == most + [last];
    }
  }

  lemma SameLength(a: seq<Symbol>, b: seq<Symbol>)
    requires multiset(a) == multiset(b)
    ensures |a| == |b|
  {
    assert |multiset(a)| == |multiset(b)|;
  }

  /** Elements below the key come first, then the equal ones, then those above. */
  predicate Parted(s: seq<Symbol>, key: Symbol) {
    forall i, j :: 0 <= i < j < |s| ==>
                     && (Compare(key, s[i]) < 0 ==> Compare(key, s[j]) < 0)
                     && (Compare(key, s[j]) > 0 ==> Compare(key, s[i]) > 0)
  }

  // What the table is for.

  /** The symbol an address belongs to: it covers the address, or stands exactly there. */
  predicate Hits(s: Symbol, addr: Word) {
    s.addr == addr || s.addr <= addr < s.addr + s.size
  }

  function Sign(n: int): int {
    if n < 0 then -1 else if n == 0 then 0 else 1
  }

  /** How many addresses a symbol hits. */
  function Reach(s: Symbol): nat {
    if s.size == 0 then 1 else s.size
  }

  /** Symbols end before the top of the address space; those that start apart do not overlap, others end together. */
  ghost predicate Tidy(s: seq<Symbol>) {
    && (forall a :: a in s ==> a.addr + a.size < TWO_64)
    && (forall a, b :: a in s && b in s && a.addr < b.addr ==> a.addr + a.size <= b.addr)
    && (forall a, b :: a in s && b in s && a.addr == b.addr ==> Reach(a) == Reach(b))
  }

  /** All within 2 GiB of each other and of the address looked for. */
  ghost predicate Near(s: seq<Symbol>, addr: Word) {
    && (forall a :: a in s ==> -TWO_31 < a.addr - addr < TWO_31)
    && (forall a, b :: a in s && b in s ==> a.addr - b.addr < TWO_31)
  }

  lemma TruncatedNear(d: int)
    requires -TWO_31 < d < TWO_31
    ensures Truncated(d) == d
  {
  }

  /**
   * The comparison of two symbols that do not overlap orders them by address exactly when
   * the low half of the difference is in the right half of its range.
   */
  lemma ComparesByAddressIff(a: Symbol, b: Symbol)
    requires a.addr + a.size < TWO_64 && b.addr + b.size < TWO_64
    requires a.addr != b.addr && !Inside(a, b) && !Inside(b, a)
    ensures Sign(Compare(a, b)) == Sign(a.addr - b.addr) <==>
            var low := (a.addr - b.addr) % TWO_32;
            if a.addr > b.addr then 0 < low < TWO_31 else low >= TWO_31
  {
  }

  /** On a tidy table in reach of itself the comparison is the comparison of addresses. */
  lemma TidyCompare(s: seq<Symbol>, addr: Word, a: Symbol, b: Symbol)
    requires Tidy(s) && Near(s, addr) && a in s && b in s
    ensures Sign(Compare(a, b)) == Sign(a.addr - b.addr)
  {
    TruncatedNear(a.addr - b.addr);
  }

  lemma TidyIsConsistent(s: seq<Symbol>, addr: Word)
    requires Tidy(s) && Near(s, addr)
    ensures Consistent(s)
  {
    hide Compare;
    forall a, b | a in s && b in s
      ensures Sign(Compare(a, b)) == Sign(a.addr - b.addr)
    {
      TidyCompare(s, addr, a, b);
    }
  }

  /** The key compares with a symbol as its address does, except that it equals the symbol it hits. */
  lemma KeyCompare(s: seq<Symbol>, addr: Word, a: Symbol)
    requires Tidy(s) && Near(s, addr) && a in s
    ensures Compare(Key(addr), a) == 0 <==> Hits(a, addr)
    ensures !Hits(a, addr) ==> Sign(Compare(Key(addr), a)) == Sign(addr - a.addr)
  {
    TruncatedNear(addr - a.addr);
  }

  lemma SortedIsParted(s: seq<Symbol>, sorted: seq<Symbol>, addr: Word)
    requires Tidy(s) && Near(s, addr) && multiset(sorted) == multiset(s) && Ascending(sorted)
    ensures Parted(sorted, Key(addr))
  {
    hide Compare;
    forall i, j | 0 <= i < j < |sorted|
      ensures Compare(Key(addr), sorted[i]) < 0 ==> Compare(Key(addr), sorted[j]) < 0
      ensures Compare(Key(addr), sorted[j]) > 0 ==> Compare(Key(addr), sorted[i]) > 0
    {
      var a, b := sorted[i], sorted[j];
      assert a in multiset(sorted) && b in multiset(sorted);
      TidyCompare(s, addr, a, b);
      KeyCompare(s, addr, a);
      KeyCompare(s, addr, b);
      assert Compare(a, b) <= 0;
      assert a.addr <= b.addr;
    }
  }

  /**
   * Looking an address up in the sorted table answers like a scan of the unsorted
   * one: a symbol that hits the address if there is any, and none if there is none.
   */
  method LookUp(table: SymbolTable, s: seq<Symbol>, addr: Word) returns (found: Option<nat>)
    requires table.numSymbols <= table.symbols.Length
    requires IsSortOf(table.symbols[..table.numSymbols], s) && Tidy(s) && Near(s, addr)
    ensures found.Some? <==> exists a :: a in s && Hits(a, addr)
    ensures found.Some? ==> found.value < table.numSymbols && table.symbols[found.value] in s
    ensures found.Some? ==> Hits(table.symbols[found.value], addr)
  {
    hide Compare, Consistent, Parted, Tidy, Near, Hits;
    ghost var sorted := table.symbols[..table.numSymbols];
    TidyIsConsistent(s, addr);
    SortedIsParted(s, sorted, addr);
    found := table.FindSymbol(addr);
    SameElements(sorted, s);
    if found.Some? {
      assert sorted[found.value] == table.symbols[found.value];
      KeyCompare(s, addr, table.symbols[found.value]);
    } else {
      forall a | a in s
        ensures !Hits(a, addr)
      {
        var i :| 0 <= i < |sorted| && sorted[i] == a;
        assert sorted[i] == table.symbols[i];
        KeyCompare(s, addr, a);
      }
    }
  }

  lemma SameElements(a: seq<Symbol>, b: seq<Symbol>)
    requires multiset(a) == multiset(b)
    ensures forall x :: x in a <==> x in b
  {
    assert forall x :: x in a <==> x in multiset(a);
    assert forall x :: x in b <==> x in multiset(b);
  }

  /**
   * Without that reach it can answer wrongly. With one symbol, exactly when the
   * address is a non-zero multiple of 4 GiB away and not covered.
   */
  lemma OneSymbolIff(s: Symbol, addr: Word)
    requires s.addr + s.size < TWO_64
    ensures (Compare(Key(addr), s) == 0 <==> Hits(s, addr)) <==> Hits(s, addr) || (addr - s.addr) % TWO_32 != 0
  {
  }

  lemma FarSymbolIsFound()
    ensures var s := Symbol(0, 0x1000, 0x10);
            Compare(Key(0x1_0000_1000), s) == 0 && !Hits(s, 0x1_0000_1000)
    ensures Compare(Symbol(0, 0x1_8000_0000, 0), Symbol(0, 0x1_0000_0000, 0)) < 0
  {
  }

  /**
   * Two names for one address with different sizes compare equal and can end up in
   * either order, and then the longer one can be missed: it hits an address that
   * the search already takes to lie beyond it.
   */
  lemma AliasesHideEachOther()
    ensures var s := [Symbol(0, 10, 20), Symbol(1, 10, 2)];
            Consistent(s) && IsSortOf(s, s) && Hits(s[0], 15) && Search(s, Key(15), 0, 2) == None
  {
    var s := [Symbol(0, 10, 20), Symbol(1, 10, 2)];
    assert Compare(Key(15), s[0]) == 0 && Compare(Key(15), s[1]) == 5;
    forall a, b | a in s && b in s
      ensures Compare(a, b) == 0
    {
    }
    assert Search(s, Key(15), 2, 0) == None;
  }

  /** Overlapping symbols make the comparison unusable for sorting: equal to both neighbours, which are not equal. */
  lemma OverlapIsInconsistent()
    ensures !Consistent([Symbol(0, 10, 20), Symbol(0, 12, 1), Symbol(0, 20, 1)])
  {
    var s := [Symbol(0, 10, 20), Symbol(0, 12, 1), Symbol(0, 20, 1)];
    assert s[0] in s && s[1] in s && s[2] in s;
    assert Compare(s[2], s[0]) == 0 && Compare(s[0], s[1]) == 0 && Compare(s[2], s[1]) == 8;
  }
}
