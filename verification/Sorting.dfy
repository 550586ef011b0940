/** A stable sort by an integer key, as `list.sort(key=...)`. */
module Sorting {

  predicate SortedBy<T(!new)>(key: T -> int, s: seq<T>) {
    forall i, j | 0 <= i < j < |s| :: key(s[i]) <= key(s[j])
  }

  /** `x` before the first element whose key is not smaller. */
  function Insert<T(!new)>(key: T -> int, x: T, s: seq<T>): (r: seq<T>)
    ensures multiset(r) == multiset(s) + multiset{x}
  {
    if s == [] || key(x) <= key(s[0]) then [x] + s
    else
      assert s == [s[0]] + s[1..];
      [s[0]] + Insert(key, x, s[1..])
  }

  function Sort<T(!new)>(key: T -> int, s: seq<T>): (r: seq<T>)
    ensures multiset(r) == multiset(s)
  {
    if s == [] then []
    else
      assert s == [s[0]] + s[1..];
      Insert(key, s[0], Sort(key, s[1..]))
  }

  lemma {:induction false} InsertSorts<T(!new)>(key: T -> int, x: T, s: seq<T>)
    requires SortedBy(key, s)
    ensures SortedBy(key, Insert(key, x, s))
    ensures Insert(key, x, s)[0] == x || (s != [] && Insert(key, x, s)[0] == s[0] && key(s[0]) <= key(x))
  {
    if s != [] && key(x) > key(s[0]) {
      InsertSorts(key, x, s[1..]);
      var rest := Insert(key, x, s[1..]);
      forall j | 0 <= j < |rest| ensures key(s[0]) <= key(rest[j]) {
        assert key(s[0]) <= key(rest[0]);
      }
    }
  }

  /** The elements of key `v`, in order. */
  function WithKey<T(!new)>(key: T -> int, s: seq<T>, v: int): seq<T> {
    if s == [] then [] else (if key(s[0]) == v then [s[0]] else []) + WithKey(key, s[1..], v)
  }

  lemma Swap<T>(a: seq<T>, b: seq<T>, rest: seq<T>)
    requires a == [] || b == []
    ensures a + (b + rest) == b + (a + rest)
  {
    if a == [] {
      assert a + (b + rest) == b + rest;
    } else {
      assert b + (a + rest) == a + rest;
    }
  }

  lemma WithKeyOfFirst<T(!new)>(key: T -> int, x: T, s: seq<T>, v: int)
    ensures WithKey(key, [x] + s, v) == (if key(x) == v then [x] else []) + WithKey(key, s, v)
  {
    assert ([x] + s)[1..] == s;
  }

  lemma {:induction false} InsertIsStable<T(!new)>(key: T -> int, x: T, s: seq<T>, v: int)
    ensures WithKey(key, Insert(key, x, s), v) == (if key(x) == v then [x] else []) + WithKey(key, s, v)
  {
    if s == [] || key(x) <= key(s[0]) {
      WithKeyOfFirst(key, x, s, v);
    } else {
      var rest := s[1..];
      var least, own := if key(s[0]) == v then [s[0]] else [], if key(x) == v then [x] else [];
      InsertIsStable(key, x, rest, v);
      WithKeyOfFirst(key, s[0], Insert(key, x, rest), v);
      Swap(least, own, WithKey(key, rest, v));
    }
  }

  /** Elements of equal keys keep their order. */
  lemma {:induction false} SortIsStable<T(!new)>(key: T -> int, s: seq<T>, v: int)
    ensures WithKey(key, Sort(key, s), v) == WithKey(key, s, v)
  {
    if s != [] {
      SortIsStable(key, s[1..], v);
      InsertIsStable(key, s[0], Sort(key, s[1..]), v);
    }
  }

  lemma {:induction false} SortSorts<T(!new)>(key: T -> int, s: seq<T>)
    ensures SortedBy(key, Sort(key, s))
  {
    if s != [] {
      SortSorts(key, s[1..]);
      InsertSorts(key, s[0], Sort(key, s[1..]));
    }
  }
}
