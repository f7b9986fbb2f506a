/** Sorting by a text key, as the catalog does before it checks adjacent entries for duplicates. */
module Ordering {

  /** Strict lexicographic order. */
  predicate Below(a: string, b: string) {
    b != [] && (a == [] || a[0] < b[0] || (a[0] == b[0] && Below(a[1..], b[1..])))
  }

  lemma {:induction false} Trichotomy(a: string, b: string)
    ensures a == b ==> !Below(a, b)
    ensures Below(a, b) ==> !Below(b, a)
    ensures !Below(a, b) && !Below(b, a) ==> a == b
    decreases |a|
  {
    if a != [] && b != [] {
      Trichotomy(a[1..], b[1..]);
      if a[0] == b[0] && a[1..] == b[1..] {
        assert a == [a[0]] + a[1..] && b == [b[0]] + b[1..];
      }
    }
  }

  lemma {:induction false} Transitive(a: string, b: string, c: string)
    requires Below(a, b) && Below(b, c)
    ensures Below(a, c)
    decreases |a|
  {
    if a != [] && b[0] == a[0] && c[0] == b[0] {
      Transitive(a[1..], b[1..], c[1..]);
    }
  }

  function Insert<T>(key: T -> string, x: T, s: seq<T>): seq<T> {
    if s == [] then [x]
    else if Below(key(s[0]), key(x)) then [s[0]] + Insert(key, x, s[1..])
    else [x] + s
  }

  function Sort<T>(key: T -> string, s: seq<T>): seq<T> {
    if s == [] then [] else Insert(key, s[0], Sort(key, s[1..]))
  }

  lemma {:induction false} InsertElements<T>(key: T -> string, x: T, s: seq<T>)
    ensures multiset(Insert(key, x, s)) == multiset([x]) + multiset(s)
    decreases |s|
  {
    if s != [] && Below(key(s[0]), key(x)) {
      InsertElements(key, x, s[1..]);
      assert s == [s[0]] + s[1..];
    }
  }

  /** Sorting keeps exactly the same elements. */
  lemma {:induction false} SortElements<T>(key: T -> string, s: seq<T>)
    ensures multiset(Sort(key, s)) == multiset(s)
    decreases |s|
  {
    if s != [] {
      SortElements(key, s[1..]);
      InsertElements(key, s[0], Sort(key, s[1..]));
      assert s == [s[0]] + s[1..];
    }
  }

  /** No element lies below its predecessor. */
  ghost predicate Sorted<T>(key: T -> string, s: seq<T>) {
    forall i, j :: 0 <= i && j == i + 1 && j < |s| ==> !Below(key(s[j]), key(s[i]))
  }

  predicate AdjacentDiffer<T>(key: T -> string, s: seq<T>) {
    forall i, j :: 0 <= i < |s| && 0 <= j < |s| && j == i + 1 ==> key(s[i]) != key(s[j])
  }

  lemma {:induction false} InsertSorted<T>(key: T -> string, x: T, s: seq<T>)
    requires Sorted(key, s)
    ensures Sorted(key, Insert(key, x, s))
    ensures Insert(key, x, s)[0] == x || (s != [] && Insert(key, x, s)[0] == s[0] && Below(key(s[0]), key(x)))
    decreases |s|
  {
    if s != [] {
      Trichotomy(key(s[0]), key(x));
      if Below(key(s[0]), key(x)) {
        assert Sorted(key, s[1..]);
        InsertSorted(key, x, s[1..]);
        var rest, all := Insert(key, x, s[1..]), Insert(key, x, s);
        assert all == [s[0]] + rest;
        assert rest[0] == x || rest[0] == s[1];
        forall i, j | 0 <= i && j == i + 1 && j < |all|
          ensures !Below(key(all[j]), key(all[i]))
        {
          if i == 0 {
            assert all[1] == rest[0];
          } else {
            assert all[i] == rest[i - 1] && all[j] == rest[j - 1];
          }
        }
      } else {
        var all := [x] + s;
        forall i, j | 0 <= i && j == i + 1 && j < |all|
          ensures !Below(key(all[j]), key(all[i]))
        {
          if i > 0 {
            assert all[i] == s[i - 1] && all[j] == s[j - 1];
          }
        }
      }
    }
  }

  lemma {:induction false} SortSorted<T>(key: T -> string, s: seq<T>)
    ensures Sorted(key, Sort(key, s))
    decreases |s|
  {
    if s != [] {
      SortSorted(key, s[1..]);
      InsertSorted(key, s[0], Sort(key, s[1..]));
    }
  }

  /** Keys strictly increase. */
  ghost predicate Increasing<T>(key: T -> string, s: seq<T>) {
    forall i, j :: 0 <= i < j < |s| ==> Below(key(s[i]), key(s[j]))
  }

  lemma {:induction false} AdjacentIncreasing<T>(key: T -> string, s: seq<T>, i: nat, j: nat)
    requires Sorted(key, s) && AdjacentDiffer(key, s) && i < j < |s|
    ensures Below(key(s[i]), key(s[j]))
    decreases j
  {
    var k := j - 1;
    assert !Below(key(s[j]), key(s[k])) && key(s[k]) != key(s[j]);
    Trichotomy(key(s[k]), key(s[j]));
    if i < k {
      AdjacentIncreasing(key, s, i, k);
      Transitive(key(s[i]), key(s[k]), key(s[j]));
    }
  }

  /** On sorted entries the check of neighbours finds every duplicate key. */
  lemma SortedUnique<T>(key: T -> string, s: seq<T>)
    requires Sorted(key, s)
    ensures AdjacentDiffer(key, s) <==> Increasing(key, s)
  {
    if AdjacentDiffer(key, s) {
      forall i, j | 0 <= i < j < |s|
        ensures Below(key(s[i]), key(s[j]))
      {
        AdjacentIncreasing(key, s, i, j);
      }
    }
    if Increasing(key, s) {
      forall i, j | 0 <= i && j == i + 1 && j < |s|
        ensures key(s[i]) != key(s[j])
      {
        Trichotomy(key(s[i]), key(s[j]));
      }
    }
  }

  ghost predicate DistinctKeys<T>(key: T -> string, s: seq<T>) {
    forall i, j :: 0 <= i < j < |s| ==> key(s[i]) != key(s[j])
  }

  ghost predicate KeyIn<T>(key: T -> string, k: string, s: seq<T>) { exists i :: 0 <= i < |s| && key(s[i]) == k }

  lemma DistinctHead<T>(key: T -> string, x: T, s: seq<T>)
    ensures DistinctKeys(key, [x] + s) <==> DistinctKeys(key, s) && !KeyIn(key, key(x), s)
  {
    var all := [x] + s;
    assert all[0] == x && forall i :: 0 <= i < |s| ==> all[i + 1] == s[i];
    if DistinctKeys(key, all) {
      forall i, j | 0 <= i < j < |s|
        ensures key(s[i]) != key(s[j])
      {
        assert key(all[i + 1]) != key(all[j + 1]);
      }
    }
  }

  lemma SameKeys<T>(key: T -> string, k: string, a: seq<T>, b: seq<T>)
    requires multiset(a) == multiset(b) && KeyIn(key, k, a)
    ensures KeyIn(key, k, b)
  {
    var i :| 0 <= i < |a| && key(a[i]) == k;
    assert a[i] in multiset(a);
    assert a[i] in b;
  }

  lemma {:induction false} InsertDistinct<T>(key: T -> string, x: T, s: seq<T>)
    ensures DistinctKeys(key, Insert(key, x, s)) <==> DistinctKeys(key, [x] + s)
    decreases |s|
  {
    hide DistinctKeys, KeyIn;
    assert s == [] ==> [x] + s == [x];
    if s != [] && Below(key(s[0]), key(x)) {
      var y, t := s[0], s[1..];
      var rest := Insert(key, x, t);
      assert s == [y] + t;
      InsertDistinct(key, x, t);
      DistinctHead(key, y, rest);
      DistinctHead(key, x, t);
      DistinctHead(key, x, s);
      DistinctHead(key, y, t);
      Trichotomy(key(y), key(x));
      KeysInserted(key, x, t, key(y));
      KeysAhead(key, y, t, key(x));
    }
  }

  lemma KeysInserted<T>(key: T -> string, x: T, s: seq<T>, k: string)
    ensures KeyIn(key, k, Insert(key, x, s)) <==> key(x) == k || KeyIn(key, k, s)
  {
    InsertElements(key, x, s);
    assert multiset([x] + s) == multiset(Insert(key, x, s));
    KeysAhead(key, x, s, k);
    if KeyIn(key, k, Insert(key, x, s)) {
      SameKeys(key, k, Insert(key, x, s), [x] + s);
    }
    if KeyIn(key, k, [x] + s) {
      SameKeys(key, k, [x] + s, Insert(key, x, s));
    }
  }

  lemma KeysAhead<T>(key: T -> string, x: T, s: seq<T>, k: string)
    ensures KeyIn(key, k, [x] + s) <==> key(x) == k || KeyIn(key, k, s)
  {
    var all := [x] + s;
    assert all[0] == x;
    if i :| 0 <= i < |s| && key(s[i]) == k {
      assert all[i + 1] == s[i];
    }
  }

  lemma {:induction false} SortDistinct<T>(key: T -> string, s: seq<T>)
    ensures DistinctKeys(key, Sort(key, s)) <==> DistinctKeys(key, s)
    decreases |s|
  {
    hide DistinctKeys, KeyIn;
    if s != [] {
      var x, t := s[0], s[1..];
      assert s == [x] + t;
      SortDistinct(key, t);
      InsertDistinct(key, x, Sort(key, t));
      DistinctHead(key, x, Sort(key, t));
      DistinctHead(key, x, t);
      SortElements(key, t);
      if KeyIn(key, key(x), t) {
        SameKeys(key, key(x), t, Sort(key, t));
      }
      if KeyIn(key, key(x), Sort(key, t)) {
        SameKeys(key, key(x), Sort(key, t), t);
      }
    }
  }

  /** Sorting and comparing neighbours finds a duplicate key exactly when there is one, wherever its entries stand. */
  lemma DuplicatesFound<T>(key: T -> string, s: seq<T>)
    ensures AdjacentDiffer(key, Sort(key, s)) <==> DistinctKeys(key, s)
  {
    var sorted := Sort(key, s);
    SortSorted(key, s);
    SortedUnique(key, sorted);
    SortDistinct(key, s);
    if Increasing(key, sorted) {
      forall i, j | 0 <= i < j < |sorted|
        ensures key(sorted[i]) != key(sorted[j])
      {
        Trichotomy(key(sorted[i]), key(sorted[j]));
      }
    }
  }

  /** Sorting a strictly increasing list changes nothing. */
  lemma {:induction false} SortStable<T>(key: T -> string, s: seq<T>)
    requires Increasing(key, s)
    ensures Sort(key, s) == s
    decreases |s|
  {
    if s != [] {
      SortStable(key, s[1..]);
      if |s| > 1 {
        assert Below(key(s[0]), key(s[1]));
        Trichotomy(key(s[0]), key(s[1]));
      }
      assert s == [s[0]] + s[1..];
    }
  }

  lemma IncreasingUnique<T>(key: T -> string, s: seq<T>)
    requires Increasing(key, s)
    ensures forall i, j :: 0 <= i < j < |s| ==> key(s[i]) != key(s[j])
  {
    forall i, j | 0 <= i < j < |s|
      ensures key(s[i]) != key(s[j])
    {
      Trichotomy(key(s[i]), key(s[j]));
    }
  }
}
