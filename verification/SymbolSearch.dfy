/** process_locate_symbol, src/process.c:250-348: from an address to the map that contains it
    and by binary search to a symbol of that map. */
module SymbolSearch {
  import opened Events
  import opened StackStash

  const WORD: int := 0x1_0000_0000

  datatype Sym = Sym(addr: Addr, name: string)

  datatype Map = Map(addr: Addr, size: nat, name: string, do_offset: bool, symbols: seq<Sym>)

  ghost predicate Sorted(syms: seq<Sym>) {
    forall i, j :: 0 <= i <= j < |syms| ==> syms[i].addr <= syms[j].addr
  }

  /** Linear search from the end: the last of the first n symbols that starts at or below
      addr; the first symbol if there is none. */
  ghost function LastBelow(syms: seq<Sym>, addr: Addr, n: nat): (i: nat)
    requires n <= |syms|
    ensures n > 0 ==> i < n
  {
    if n == 0 then 0
    else if syms[n - 1].addr <= addr then n - 1
    else LastBelow(syms, addr, n - 1)
  }

  lemma {:induction false} LastBelowIs(syms: seq<Sym>, addr: Addr, i: nat, n: nat)
    requires i < n <= |syms|
    requires i == 0 || syms[i].addr <= addr
    requires forall j :: i < j < n ==> addr < syms[j].addr
    ensures LastBelow(syms, addr, n) == i
  {
    if syms[n - 1].addr > addr && n > 1 {
      LastBelowIs(syms, addr, i, n - 1);
    }
  }

  // ----- The loop as a machine

  datatype Range = Range(first: nat, last: nat)

  /** Subtraction of one as an unsigned int does it. */
  function Pred(last: nat): nat {
    if last == 0 then WORD - 1 else last - 1
  }

  predicate Goes(r: Range) {
    r.first < Pred(r.last)
  }

  /** (first + last) / 2 in unsigned ints. */
  function Middle(first: nat, last: nat): nat {
    (first + last) % WORD / 2
  }

  lemma MiddleIsBetween(first: nat, last: nat)
    requires first < last && first + last < WORD
    ensures first <= Middle(first, last) < last
    ensures 2 * Middle(first, last) <= first + last <= 2 * Middle(first, last) + 1
    ensures first + 1 < last ==> first < Middle(first, last)
  {
  }

  lemma MiddleInRange(first: nat, last: nat, n: nat)
    requires first < n && last < n
    ensures Middle(first, last) < n
  {
  }

  /** One round of the loop at src/process.c:321-327. */
  function Halve(syms: seq<Sym>, addr: Addr, r: Range): Range
    requires r.first < |syms| && r.last < |syms|
  {
    MiddleInRange(r.first, r.last, |syms|);
    var middle := Middle(r.first, r.last);
    if addr < syms[middle].addr then Range(r.first, middle) else Range(middle, r.last)
  }

  /** The range after k rounds; a range at which the loop ends stays. */
  ghost function Rounds(syms: seq<Sym>, addr: Addr, k: nat): (r: Range)
    requires syms != []
    ensures r.first < |syms| && r.last < |syms|
  {
    if k == 0 then Range(0, |syms| - 1)
    else
      var r := Rounds(syms, addr, k - 1);
      if Goes(r) then Halve(syms, addr, r) else r
  }

  /** The search comes to an end: it has no loop to run, or the loop stops. */
  ghost predicate Ends(syms: seq<Sym>, addr: Addr)
    requires syms != []
  {
    addr >= syms[|syms| - 1].addr || exists k: nat :: !Goes(Rounds(syms, addr, k))
  }

  /** What the caller of the loop has to make sure of. */
  predicate Searchable(syms: seq<Sym>, addr: Addr) {
    syms != [] && (|syms| >= 2 || addr >= syms[0].addr)
  }

  lemma {:induction false} OneSymbolStays(syms: seq<Sym>, addr: Addr, k: nat)
    requires |syms| == 1
    ensures Rounds(syms, addr, k) == Range(0, 0) && Goes(Range(0, 0))
  {
    if k > 0 {
      OneSymbolStays(syms, addr, k - 1);
    }
  }

  /** With two symbols or more the range shrinks by at least one in every round. */
  lemma {:induction false} RangeShrinks(syms: seq<Sym>, addr: Addr, k: nat)
    requires 2 <= |syms| <= WORD / 2 && k < |syms|
    ensures var r := Rounds(syms, addr, k);
            r.first < r.last && (!Goes(r) || r.last - r.first <= |syms| - 1 - k)
  {
    if k > 0 {
      RangeShrinks(syms, addr, k - 1);
      var r := Rounds(syms, addr, k - 1);
      MiddleIsBetween(r.first, r.last);
    }
  }

  /** The search ends if and only if there is a second symbol or the address is not below
      the only one: with one symbol the unsigned last - 1 is the largest number there is. */
  lemma SearchEndsIff(syms: seq<Sym>, addr: Addr)
    requires 0 < |syms| <= WORD / 2
    ensures Ends(syms, addr) <==> Searchable(syms, addr)
  {
    if |syms| == 1 {
      forall k: nat ensures Goes(Rounds(syms, addr, k)) {
        OneSymbolStays(syms, addr, k);
      }
    } else {
      RangeShrinks(syms, addr, |syms| - 1);
      assert !Goes(Rounds(syms, addr, |syms| - 1));
    }
  }

  lemma StartsWhole(syms: seq<Sym>, addr: Addr)
    requires syms != []
    ensures Rounds(syms, addr, 0) == Range(0, |syms| - 1)
  {
  }

  lemma NextRound(syms: seq<Sym>, addr: Addr, k: nat)
    requires syms != [] && Goes(Rounds(syms, addr, k))
    ensures Rounds(syms, addr, k + 1) == Halve(syms, addr, Rounds(syms, addr, k))
  {
  }

  // ----- The search

  /** src/process.c:312-347 */
  method Search(syms: seq<Sym>, addr: Addr) returns (i: nat)
    requires Sorted(syms) && Searchable(syms, addr) && |syms| <= WORD / 2
    ensures i < |syms| && i == LastBelow(syms, addr, |syms|)
    ensures syms[i].addr <= addr || (i == 0 && forall s :: s in syms ==> addr < s.addr)
    ensures forall j :: i < j < |syms| ==> addr < syms[j].addr
  {
    hide Middle, Rounds;
    StartsWhole(syms, addr);
    var first, last := 0, |syms| - 1;
    if addr < syms[last].addr {
      ghost var k := 0;
      while first < Pred(last)
        invariant 0 <= first < last < |syms|
        invariant first == 0 || syms[first].addr <= addr
        invariant addr < syms[last].addr
        invariant Range(first, last) == Rounds(syms, addr, k)
        decreases last - first
      {
        MiddleIsBetween(first, last);
        var middle := Middle(first, last);
        if addr < syms[middle].addr {
          last := middle;
        } else {
          first := middle;
        }
        NextRound(syms, addr, k);
        k := k + 1;
      }
      i := first;
    } else {
      i := last;
    }
    LastBelowIs(syms, addr, i, |syms|);
  }

  predicate Contains(m: Map, addr: Addr) {
    m.addr <= addr < m.addr + m.size
  }

  /** The part of a list of maps from the first one on that contains the address. */
  ghost function FirstWith(map_list: List<Map>, addr: Addr): List<Map> {
    if map_list.Nil? || Contains(map_list.head, addr) then map_list else FirstWith(map_list.tail, addr)
  }

  /** real_locate_map: the maps before the one that is found do not contain the address. */
  method LocateMap(map_list: List<Map>, addr: Addr) returns (found: List<Map>, ghost front: List<Map>)
    ensures map_list == Append(front, found) && found == FirstWith(map_list, addr)
    ensures forall m :: m in Elements(front) ==> !(m.addr <= addr < m.addr + m.size)
    ensures found.Cons? ==> found.head.addr <= addr < found.head.addr + found.head.size
  {
    found, front := map_list, Nil;
    while found.Cons? && !Contains(found.head, addr)
      invariant map_list == Append(front, found) && FirstWith(found, addr) == FirstWith(map_list, addr)
      invariant forall m :: m in Elements(front) ==> !(m.addr <= addr < m.addr + m.size)
      decreases found
    {
      AppendMoves(front, found);
      front, found := Append(front, Cons(found.head, Nil)), found.tail;
    }
  }

  lemma {:induction false} AppendMoves<T>(front: List<T>, back: List<T>)
    requires back.Cons?
    ensures Append(Append(front, Cons(back.head, Nil)), back.tail) == Append(front, back)
    ensures Elements(Append(front, Cons(back.head, Nil))) == Elements(front) + {back.head}
  {
    if front.Cons? {
      AppendMoves(front.tail, back);
    }
  }

  /** The address as the symbols of a map count it. */
  function Offset(m: Map, addr: Addr): Addr {
    if m.do_offset then addr - m.addr else addr
  }

  /** The map that answers for the address can be searched for it. */
  ghost predicate CanAnswer(map_list: List<Map>, addr: Addr) {
    var located := FirstWith(map_list, addr);
    located.Cons? && located.head.symbols != [] ==>
      var syms := located.head.symbols;
      Sorted(syms) && |syms| <= WORD / 2 && Searchable(syms, Offset(located.head, addr))
  }

  /** The name is that of the last symbol that starts at or below the address, once the symbols
      of a map with do_offset are moved to where the map is; or of the first, if all start
      above it. */
  ghost predicate Names(m: Map, addr: Addr, name: string) {
    var base := if m.do_offset then m.addr else 0;
    exists i :: 0 <= i < |m.symbols| && m.symbols[i].name == name
             && (base + m.symbols[i].addr <= addr || (i == 0 && forall s :: s in m.symbols ==> addr < base + s.addr))
             && forall j :: i < j < |m.symbols| ==> addr < base + m.symbols[j].addr
  }

  /** process_locate_symbol, once the maps have been read: the first map that contains the
      address answers. */
  method LocateSymbol(map_list: List<Map>, addr: Addr) returns (name: string, ghost front: List<Map>,
        ghost located: List<Map>)
    requires CanAnswer(map_list, addr)
    ensures map_list == Append(front, located)
    ensures forall m :: m in Elements(front) ==> !(m.addr <= addr < m.addr + m.size)
    ensures located.Cons? ==> located.head.addr <= addr < located.head.addr + located.head.size
    ensures located.Nil? ==> name == "<unknown map>"
    ensures located.Cons? && located.head.symbols == [] ==> name == located.head.name
    ensures located.Cons? && located.head.symbols != [] ==> Names(located.head, addr, name)
  {
    var found;
    found, front := LocateMap(map_list, addr);
    located := found;
    if found.Nil? {
      return "<unknown map>", front, located;
    }
    var m := found.head;
    if |m.symbols| == 0 {
      return m.name, front, located;
    }
    var i := Search(m.symbols, Offset(m, addr));
    name := m.symbols[i].name;
  }
}
