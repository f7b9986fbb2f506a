/** The linear-probing table whose slot order reproduces the iteration order of a Zig string map. */
module ZigMap {
  import opened Base

  type Slot = Option<string>

  // ---------------------------------------------------------------- powers of two and masking

  ghost predicate IsPow2(n: nat) { exists k: nat :: n == Pow2(k) }

  /** Bitwise conjunction of natural numbers. */
  function And(a: nat, b: nat): nat {
    if a == 0 || b == 0 then 0 else 2 * And(a / 2, b / 2) + (a % 2) * (b % 2)
  }

  lemma {:induction false} MaskIsModulo(a: nat, k: nat)
    ensures And(a, Pow2(k) - 1) == a % Pow2(k)
    decreases k
  {
    hide And;
    AndZero(a, Pow2(k) - 1);
    if k == 0 {
      assert a % 1 == 0;
    } else if a == 0 {
      ModuloOfSum(0, Pow2(k), 0);
    } else {
      var m := Pow2(k - 1);
      MaskIsModulo(a / 2, k - 1);
      HalfModulo(a, m);
      AndOdd(a, m - 1);
    }
  }

  lemma AndZero(a: nat, b: nat)
    ensures And(a, 0) == 0 && And(0, b) == 0
  {
  }

  lemma AndOdd(a: nat, b: nat)
    requires a > 0
    ensures And(a, 2 * b + 1) == 2 * And(a / 2, b) + a % 2
  {
    var odd := 2 * b + 1;
    assert odd / 2 == b && odd % 2 == 1;
  }

  lemma HalfModulo(a: nat, m: nat)
    requires m > 0
    ensures a % (2 * m) == 2 * (a / 2 % m) + a % 2
  {
    var q, r := a / 2 / m, a / 2 % m;
    assert a / 2 == m * q + r;
    assert a == 2 * (a / 2) + a % 2;
    assert q * (2 * m) == 2 * (m * q);
    ModuloOfSum(q, 2 * m, 2 * r + a % 2);
  }

  /** The smallest power of two that is at least `n`. */
  function NextPow2(n: nat, p: nat): (r: nat)
    requires p > 0
    ensures r >= n && r >= p
    decreases if p < n then n - p else 0
  {
    if p >= n then p else NextPow2(n, 2 * p)
  }

  lemma {:induction false} NextPow2IsPow2(n: nat, p: nat)
    requires IsPow2(p)
    ensures IsPow2(NextPow2(n, p))
    decreases if p < n then n - p else 0
  {
    var k: nat :| p == Pow2(k);
    if p < n {
      assert 2 * p == Pow2(k + 1);
      NextPow2IsPow2(n, 2 * p);
    }
  }

  // ---------------------------------------------------------------- slots

  function Names(s: seq<Slot>): seq<string> {
    if s == [] then [] else Names(s[..|s| - 1]) + if s[|s| - 1].Some? then [s[|s| - 1].value] else []
  }

  lemma {:induction false} NamesConcat(a: seq<Slot>, b: seq<Slot>)
    ensures Names(a + b) == Names(a) + Names(b)
    decreases |b|
  {
    if b == [] {
      assert a + b == a;
    } else {
      assert (a + b)[..|a + b| - 1] == a + b[..|b| - 1];
      NamesConcat(a, b[..|b| - 1]);
    }
  }

  lemma {:induction false} NamesSize(s: seq<Slot>)
    ensures |Names(s)| <= |s| && (|Names(s)| == |s| <==> forall i :: 0 <= i < |s| ==> s[i].Some?)
    decreases |s|
  {
    if s != [] {
      NamesSize(s[..|s| - 1]);
      assert s == s[..|s| - 1] + [s[|s| - 1]];
    }
  }

  /** Filling a free slot adds exactly one name. */
  lemma NamesFilled(s: seq<Slot>, i: nat, name: string)
    requires i < |s| && s[i].None?
    ensures multiset(Names(s[i := Some(name)])) == multiset(Names(s)) + multiset{name}
    ensures |Names(s[i := Some(name)])| == |Names(s)| + 1
  {
    var t := s[i := Some(name)];
    assert s == s[..i] + ([s[i]] + s[i + 1..]) && t == s[..i] + ([Some(name)] + s[i + 1..]);
    NamesConcat(s[..i], [s[i]] + s[i + 1..]);
    NamesConcat([s[i]], s[i + 1..]);
    NamesConcat(s[..i], [Some(name)] + s[i + 1..]);
    NamesConcat([Some(name)], s[i + 1..]);
    assert Names([s[i]]) == [] by { assert [s[i]][..0] == []; }
    var one: seq<Slot> := [Some(name)];
    assert Names(one) == [name] by { assert one[..0] == []; }
  }

  /** The first free slot in a range. */
  function Free(s: seq<Slot>, lo: nat, hi: nat): (r: Option<nat>)
    requires lo <= hi <= |s|
    ensures r.Some? ==> lo <= r.value < hi && s[r.value].None? && forall j :: lo <= j < r.value ==> s[j].Some?
    ensures r.None? <==> forall j :: lo <= j < hi ==> s[j].Some?
    decreases hi - lo
  {
    if lo == hi then None else if s[lo].None? then Some(lo) else Free(s, lo + 1, hi)
  }

  predicate HasFree(s: seq<Slot>) { Free(s, 0, |s|).Some? }

  /** Where probing from `home` ends: the first free slot at or after it, wrapping around once. */
  function Probe(s: seq<Slot>, home: nat): (i: nat)
    requires home < |s| && HasFree(s)
    ensures i < |s| && s[i].None?
  {
    var later := Free(s, home, |s|);
    if later.Some? then later.value else Free(s, 0, home).value
  }

  /** Cyclically at or after `home` and before `i`. */
  predicate Between(home: nat, j: nat, i: nat) { if home <= i then home <= j < i else j >= home || j < i }

  /** Probing from the home slot of the name at `i` meets no gap before `i`. */
  ghost predicate Reachable(s: seq<Slot>, hash: string -> nat, i: nat)
    requires i < |s|
  {
    s[i].Some? ==> forall j :: 0 <= j < |s| && Between(hash(s[i].value) % |s|, j, i) ==> s[j].Some?
  }

  ghost predicate AllReachable(s: seq<Slot>, hash: string -> nat) { forall i :: 0 <= i < |s| ==> Reachable(s, hash, i) }

  function Place(s: seq<Slot>, hash: string -> nat, name: string): seq<Slot>
    requires HasFree(s)
  {
    s[Probe(s, hash(name) % |s|) := Some(name)]
  }

  /** Placing a name keeps every name reachable and adds exactly that one. */
  lemma PlaceKeeps(s: seq<Slot>, hash: string -> nat, name: string)
    requires HasFree(s) && AllReachable(s, hash)
    ensures var t := Place(s, hash, name);
            && |t| == |s| && AllReachable(t, hash)
            && multiset(Names(t)) == multiset(Names(s)) + multiset{name} && |Names(t)| == |Names(s)| + 1
  {
    var home := hash(name) % |s|;
    var at := Probe(s, home);
    var t := Place(s, hash, name);
    NamesFilled(s, at, name);
    forall i | 0 <= i < |t|
      ensures Reachable(t, hash, i)
    {
      assert Reachable(s, hash, i);
    }
  }

  lemma FreeWhenRoom(s: seq<Slot>)
    requires |Names(s)| < |s|
    ensures HasFree(s)
  {
    NamesSize(s);
  }

  // ---------------------------------------------------------------- insertion in place

  /** Masking the next index steps to it, or wraps to the start. */
  lemma NextIndex(index: nat, k: nat)
    requires index < Pow2(k)
    ensures And(index + 1, Pow2(k) - 1) == if index + 1 < Pow2(k) then index + 1 else 0
  {
    MaskIsModulo(index + 1, k);
    var n := Pow2(k);
    if index + 1 < n {
      ModuloOfSum(0, n, index + 1);
    } else {
      ModuloOfSum(1, n, 0);
    }
  }

  /** Everything probed so far is taken. */
  ghost predicate Probed(s: seq<Slot>, home: nat, index: nat, steps: nat) {
    && home < |s| && index < |s| && steps <= |s|
    && index == (if home + steps < |s| then home + steps else home + steps - |s|)
    && forall j :: 0 <= j < |s| && (steps == |s| || Between(home, j, index)) ==> s[j].Some?
  }

  lemma ProbeEnds(s: seq<Slot>, home: nat, index: nat, steps: nat)
    requires Probed(s, home, index, steps) && steps < |s| && s[index].None?
    ensures HasFree(s) && index == Probe(s, home)
  {
  }

  method Insert(slots: array<Slot>, hash: string -> nat, name: string)
    requires IsPow2(slots.Length) && HasFree(slots[..])
    modifies slots
    ensures slots[..] == Place(old(slots[..]), hash, name)
  {
    ghost var k: nat :| slots.Length == Pow2(k);
    ghost var s := slots[..];
    MaskIsModulo(hash(name), k);
    hide And, Pow2, IsPow2, Free, Between;
    var home := And(hash(name), slots.Length - 1);
    var index, steps := home, 0;
    NothingProbed(s, home);
    while steps < slots.Length
      invariant steps <= slots.Length && slots[..] == s && Probed(s, home, index, steps)
    {
      if slots[index].None? {
        ProbeEnds(s, home, index, steps);
        slots[index] := Some(name);
        return;
      }
      NextIndex(index, k);
      ProbedOn(s, home, index, steps);
      index := And(index + 1, slots.Length - 1);
      steps := steps + 1;
    }
    assert false;
  }

  lemma NothingProbed(s: seq<Slot>, home: nat)
    requires home < |s|
    ensures Probed(s, home, home, 0)
  {
  }

  lemma ProbedOn(s: seq<Slot>, home: nat, index: nat, steps: nat)
    requires Probed(s, home, index, steps) && steps < |s| && s[index].Some?
    ensures Probed(s, home, if index + 1 < |s| then index + 1 else 0, steps + 1)
  {
  }

  // ---------------------------------------------------------------- growth

  /** One more name would pass 80% load. */
  predicate Crowded(count: nat, capacity: nat) { count + 1 > capacity * 80 / 100 }

  function Capacity(count: nat): nat {
    var n := NextPow2((count + 1) * 100 / 80 + 1, 1);
    if n < 8 then 8 else n
  }

  lemma CapacityOk(count: nat)
    ensures IsPow2(Capacity(count)) && !Crowded(count, Capacity(count)) && Capacity(count) > count + 1
  {
    assert 1 == Pow2(0) && 8 == Pow2(3) by {
      assert Pow2(1) == 2 && Pow2(2) == 4;
    }
    NextPow2IsPow2((count + 1) * 100 / 80 + 1, 1);
    assert Capacity(count) * 80 > (count + 1) * 100;
  }

  lemma {:induction false} Pow2Grows(j: nat, k: nat)
    requires j <= k
    ensures Pow2(j) <= Pow2(k)
    decreases k
  {
    if j < k {
      Pow2Grows(j, k - 1);
    }
  }

  lemma {:induction false} NextPow2Least(n: nat, j: nat, k: nat)
    requires j <= k && n <= Pow2(k)
    ensures NextPow2(n, Pow2(j)) <= Pow2(k)
    decreases k - j
  {
    Pow2Grows(j, k);
    if Pow2(j) < n {
      assert Pow2(j + 1) == 2 * Pow2(j);
      NextPow2Least(n, j + 1, k);
    }
  }

  /** The capacity is the least power of two that is at least 8 and leaves the load of one more name below 80%. */
  lemma CapacityLeast(count: nat)
    ensures IsPow2(Capacity(count)) && Capacity(count) >= 8 && Capacity(count) > (count + 1) * 100 / 80
    ensures forall k: nat :: Pow2(k) >= 8 && Pow2(k) > (count + 1) * 100 / 80 ==> Capacity(count) <= Pow2(k)
  {
    CapacityOk(count);
    forall k: nat | Pow2(k) >= 8 && Pow2(k) > (count + 1) * 100 / 80
      ensures Capacity(count) <= Pow2(k)
    {
      assert Pow2(0) == 1;
      NextPow2Least((count + 1) * 100 / 80 + 1, 0, k);
    }
  }

  function Empty(capacity: nat): seq<Slot> { seq(capacity, _ => None) }

  lemma {:induction false} EmptyOk(capacity: nat, hash: string -> nat)
    ensures Names(Empty(capacity)) == [] && AllReachable(Empty(capacity), hash)
  {
    if capacity > 0 {
      EmptyOk(capacity - 1, hash);
      assert Empty(capacity)[..capacity - 1] == Empty(capacity - 1);
    }
  }

  /** The first `n` names placed one after another. */
  function PlaceAll(s: seq<Slot>, hash: string -> nat, names: seq<string>, n: nat): seq<Slot>
    requires n <= |names|
  {
    if n == 0 then s
    else
      var t := PlaceAll(s, hash, names, n - 1);
      if HasFree(t) then Place(t, hash, names[n - 1]) else t
  }

  /** What a table holds and how it is laid out. */
  ghost predicate TableOk(s: seq<Slot>, hash: string -> nat, names: seq<string>) {
    AllReachable(s, hash) && multiset(Names(s)) == multiset(names) && |Names(s)| == |names|
  }

  lemma PlaceOk(s: seq<Slot>, hash: string -> nat, names: seq<string>, name: string)
    requires TableOk(s, hash, names) && |names| < |s|
    ensures HasFree(s) && TableOk(Place(s, hash, name), hash, names + [name]) && |Place(s, hash, name)| == |s|
  {
    FreeWhenRoom(s);
    PlaceKeeps(s, hash, name);
    assert multiset(names + [name]) == multiset(names) + multiset{name};
  }

  lemma {:induction false} PlaceAllOk(capacity: nat, hash: string -> nat, names: seq<string>, n: nat)
    requires n <= |names| < capacity
    ensures TableOk(PlaceAll(Empty(capacity), hash, names, n), hash, names[..n])
    ensures |PlaceAll(Empty(capacity), hash, names, n)| == capacity
    decreases n
  {
    hide TableOk, Place;
    if n == 0 {
      EmptyTable(capacity, hash);
    } else {
      PlaceAllOk(capacity, hash, names, n - 1);
      var t := PlaceAll(Empty(capacity), hash, names, n - 1);
      assert names[..n] == names[..n - 1] + [names[n - 1]];
      PlaceOk(t, hash, names[..n - 1], names[n - 1]);
    }
  }

  lemma EmptyTable(capacity: nat, hash: string -> nat)
    ensures TableOk(Empty(capacity), hash, [])
  {
    EmptyOk(capacity, hash);
  }

  /** The table before the name after `count` others goes in: doubled and refilled in slot order when crowded. */
  function Roomy(s: seq<Slot>, hash: string -> nat, count: nat): seq<Slot> {
    if Crowded(count, |s|) then PlaceAll(Empty(Capacity(count)), hash, Names(s), |Names(s)|) else s
  }

  /** The table after the first `n` names. */
  function TableOf(hash: string -> nat, names: seq<string>, n: nat): seq<Slot>
    requires n <= |names|
  {
    if n == 0 then []
    else
      var t := Roomy(TableOf(hash, names, n - 1), hash, n - 1);
      if HasFree(t) then Place(t, hash, names[n - 1]) else t
  }

  lemma RoomyOk(s: seq<Slot>, hash: string -> nat, names: seq<string>)
    requires TableOk(s, hash, names) && (s != [] ==> IsPow2(|s|)) && |names| <= |s| * 80 / 100
    ensures var t := Roomy(s, hash, |names|);
            TableOk(t, hash, names) && IsPow2(|t|) && |names| < |t| && |names| + 1 <= |t| * 80 / 100
  {
    CapacityOk(|names|);
    if Crowded(|names|, |s|) {
      var held := Names(s);
      PlaceAllOk(Capacity(|names|), hash, held, |held|);
      assert held[..|held|] == held;
    }
  }

  /** For every list of names and every hash the table holds exactly those names, each reachable from its home slot,
      at no more than 80% load. */
  lemma {:induction false} TableHolds(hash: string -> nat, names: seq<string>, n: nat)
    requires n <= |names|
    ensures var s := TableOf(hash, names, n);
            TableOk(s, hash, names[..n]) && n <= |s| * 80 / 100 && (s != [] ==> IsPow2(|s|))
    decreases n
  {
    hide TableOk, Place, Roomy;
    if n == 0 {
      EmptyTable(0, hash);
      assert Empty(0) == [] && names[..0] == [];
    } else {
      TableHolds(hash, names, n - 1);
      var s := TableOf(hash, names, n - 1);
      RoomyOk(s, hash, names[..n - 1]);
      PlaceOk(Roomy(s, hash, n - 1), hash, names[..n - 1], names[n - 1]);
      assert names[..n] == names[..n - 1] + [names[n - 1]];
    }
  }

  /** The order a list of names is served in: a permutation of it, laid out by the table. */
  function MapOrder(hash: string -> nat, names: seq<string>): seq<string> { Names(TableOf(hash, names, |names|)) }

  lemma OrderIsPermutation(hash: string -> nat, names: seq<string>)
    ensures multiset(MapOrder(hash, names)) == multiset(names)
  {
    TableHolds(hash, names, |names|);
    assert names[..|names|] == names;
  }

  /** A fresh array filled with the names of the old slots, in slot order. */
  method Rehash(held: seq<string>, hash: string -> nat, capacity: nat) returns (slots: array<Slot>)
    requires IsPow2(capacity) && |held| < capacity
    ensures fresh(slots) && slots[..] == PlaceAll(Empty(capacity), hash, held, |held|)
  {
    hide IsPow2, Place, TableOk, HasFree;
    slots := new Slot[capacity](_ => None);
    assert slots[..] == Empty(capacity);
    var n := 0;
    while n < |held|
      invariant n <= |held| && slots.Length == capacity && fresh(slots) && slots[..] == PlaceAll(Empty(capacity), hash, held, n)
    {
      PlaceAllOk(capacity, hash, held, n);
      PlaceOk(slots[..], hash, held[..n], held[n]);
      Insert(slots, hash, held[n]);
      n := n + 1;
    }
  }

  method Collect(slots: array<Slot>) returns (names: seq<string>)
    ensures names == Names(slots[..])
  {
    names := [];
    var i := 0;
    assert slots[..0] == [];
    while i < slots.Length
      invariant i <= slots.Length && names == Names(slots[..i])
    {
      assert slots[..i + 1][..i] == slots[..i];
      if slots[i].Some? {
        names := names + [slots[i].value];
      }
      i := i + 1;
    }
    assert slots[..i] == slots[..];
  }

  /** Makes room for the name after `names`, regrowing the table when it is crowded. */
  method Grow(slots: array<Slot>, hash: string -> nat, ghost names: seq<string>, count: nat) returns (next: array<Slot>)
    requires count == |names| && TableOk(slots[..], hash, names)
    ensures next == slots || fresh(next)
    ensures next[..] == Roomy(slots[..], hash, count)
  {
    hide IsPow2, Place, TableOk, Names, PlaceAll;
    next := slots;
    if count + 1 > slots.Length * 80 / 100 {
      var held := Collect(slots);
      HeldSize(slots[..], hash, names);
      CapacityOk(count);
      next := Rehash(held, hash, Capacity(count));
    }
  }

  lemma TableStep(hash: string -> nat, names: seq<string>, n: nat)
    requires n < |names|
    ensures var s := TableOf(hash, names, n);
            && TableOk(s, hash, names[..n]) && IsPow2(|Roomy(s, hash, n)|) && HasFree(Roomy(s, hash, n))
            && TableOf(hash, names, n + 1) == Place(Roomy(s, hash, n), hash, names[n])
  {
    hide Place, TableOk, Roomy;
    TableHolds(hash, names, n);
    var s := TableOf(hash, names, n);
    RoomyOk(s, hash, names[..n]);
    PlaceOk(Roomy(s, hash, n), hash, names[..n], names[n]);
  }

  /** Builds the table in place, regrowing before the load passes 80%, and reads the names off in slot order. */
  method Order(hash: string -> nat, names: seq<string>) returns (r: seq<string>)
    ensures r == MapOrder(hash, names) && multiset(r) == multiset(names)
  {
    hide IsPow2, Place, TableOk, HasFree, Names, TableOf, Roomy;
    TableStart(hash, names);
    var slots := new Slot[0];
    assert slots[..] == [];
    var count := 0;
    while count < |names|
      invariant count <= |names| && fresh(slots) && slots[..] == TableOf(hash, names, count)
    {
      TableStep(hash, names, count);
      slots := Grow(slots, hash, names[..count], count);
      assert |slots[..]| == slots.Length;
      Insert(slots, hash, names[count]);
      count := count + 1;
    }
    r := Collect(slots);
    OrderIsPermutation(hash, names);
  }

  lemma TableStart(hash: string -> nat, names: seq<string>)
    ensures TableOf(hash, names, 0) == []
  {
  }

  lemma HeldSize(s: seq<Slot>, hash: string -> nat, names: seq<string>)
    requires TableOk(s, hash, names)
    ensures |Names(s)| == |names|
  {
  }
}
