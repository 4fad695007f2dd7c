/** The standard library's stable `sort_by`, and the order of strings it is used with. */
module Sorting {

  ghost predicate TotalPreorder<T(!new)>(le: (T, T) -> bool) {
    && (forall a, b :: le(a, b) || le(b, a))
    && (forall a, b, c :: le(a, b) && le(b, c) ==> le(a, c))
  }

  ghost predicate Sorted<T>(s: seq<T>, le: (T, T) -> bool) {
    forall i, j :: 0 <= i < j < |s| ==> le(s[i], s[j])
  }

  function Insert<T>(x: T, s: seq<T>, le: (T, T) -> bool): (r: seq<T>)
    ensures multiset(r) == multiset{x} + multiset(s)
    ensures |r| == |s| + 1
  {
    if s == [] then [x]
    else
      assert s == [s[0]] + s[1..];
      if le(x, s[0]) then [x] + s else [s[0]] + Insert(x, s[1..], le)
  }

  function SortBy<T>(s: seq<T>, le: (T, T) -> bool): (r: seq<T>)
    ensures multiset(r) == multiset(s)
    ensures |r| == |s|
  {
    if s == [] then []
    else
      assert s == [s[0]] + s[1..];
      Insert(s[0], SortBy(s[1..], le), le)
  }

  lemma InsertedElement<T>(x: T, s: seq<T>, le: (T, T) -> bool, e: T)
    ensures e in Insert(x, s, le) <==> e == x || e in s
  {
    assert e in Insert(x, s, le) <==> e in multiset(Insert(x, s, le));
    assert e in s <==> e in multiset(s);
  }

  lemma {:induction false} InsertSorted<T(!new)>(x: T, s: seq<T>, le: (T, T) -> bool)
    requires TotalPreorder(le) && Sorted(s, le)
    ensures Sorted(Insert(x, s, le), le)
  {
    if s != [] && !le(x, s[0]) {
      var rest := Insert(x, s[1..], le);
      InsertSorted(x, s[1..], le);
      forall j | 0 <= j < |rest| ensures le(s[0], rest[j]) {
        InsertedElement(x, s[1..], le, rest[j]);
      }
    }
  }

  lemma {:induction false} SortBySorted<T(!new)>(s: seq<T>, le: (T, T) -> bool)
    requires TotalPreorder(le)
    ensures Sorted(SortBy(s, le), le)
  {
    if s != [] {
      SortBySorted(s[1..], le);
      InsertSorted(s[0], SortBy(s[1..], le), le);
    }
  }

  lemma SameElements<T>(s: seq<T>, le: (T, T) -> bool, x: T)
    ensures x in SortBy(s, le) <==> x in s
  {
    assert x in multiset(s) <==> x in s;
    assert x in multiset(SortBy(s, le)) <==> x in SortBy(s, le);
  }

  ghost predicate DistinctBy<T, K>(s: seq<T>, key: T -> K) {
    forall i, j :: 0 <= i < j < |s| ==> key(s[i]) != key(s[j])
  }

  lemma {:induction false} InsertKeepsDistinct<T, K>(x: T, s: seq<T>, le: (T, T) -> bool, key: T -> K)
    requires DistinctBy(s, key) && forall e :: e in s ==> key(e) != key(x)
    ensures DistinctBy(Insert(x, s, le), key)
  {
    if s != [] && !le(x, s[0]) {
      InsertKeepsDistinct(x, s[1..], le, key);
      var rest := Insert(x, s[1..], le);
      forall j | 0 <= j < |rest| ensures key(rest[j]) != key(s[0]) {
        InsertedElement(x, s[1..], le, rest[j]);
      }
    }
  }

  /** Sorting keeps distinct keys distinct. */
  lemma {:induction false} SortKeepsDistinct<T, K>(s: seq<T>, le: (T, T) -> bool, key: T -> K)
    requires DistinctBy(s, key)
    ensures DistinctBy(SortBy(s, le), key)
  {
    if s != [] {
      SortKeepsDistinct(s[1..], le, key);
      forall e | e in SortBy(s[1..], le) ensures key(e) != key(s[0]) {
        SameElements(s[1..], le, e);
      }
      InsertKeepsDistinct(s[0], SortBy(s[1..], le), le, key);
    }
  }

  lemma {:induction false} InsertedAt<T>(x: T, s: seq<T>, le: (T, T) -> bool) returns (p: nat)
    ensures p <= |s| && Insert(x, s, le) == s[..p] + [x] + s[p..]
    ensures forall i :: 0 <= i < p ==> !le(x, s[i])
  {
    if s == [] || le(x, s[0]) {
      p := 0;
    } else {
      p := InsertedAt(x, s[1..], le);
      p := p + 1;
      assert s[..p] == [s[0]] + s[1..][..p - 1] && s[p..] == s[1..][p - 1..];
    }
  }

  /** Where the elements of `t` stand in `s`, each place once. */
  ghost predicate TakenFrom<T>(t: seq<T>, s: seq<T>, from: seq<nat>) {
    && |from| == |s| == |t|
    && (forall i :: 0 <= i < |from| ==> from[i] < |s| && t[i] == s[from[i]])
    && (forall i, j :: 0 <= i < j < |from| ==> from[i] != from[j])
    && (forall k: nat :: k < |s| ==> k in from)
  }

  /** What could go either way keeps its order. */
  ghost predicate Stable<T>(s: seq<T>, le: (T, T) -> bool, from: seq<nat>) {
    && (forall i :: 0 <= i < |from| ==> from[i] < |s|)
    && (forall i, j :: 0 <= i < j < |from| && le(s[from[j]], s[from[i]]) ==> from[i] < from[j])
  }

  function Shifted(rest: seq<nat>, p: nat, i: nat): nat
    requires p <= |rest| && i <= |rest|
  {
    if i < p then rest[i] + 1 else if i == p then 0 else rest[i - 1] + 1
  }

  function ShiftedAll(rest: seq<nat>, p: nat): (from: seq<nat>)
    requires p <= |rest|
    ensures |from| == |rest| + 1 && forall i :: 0 <= i < |from| ==> from[i] == Shifted(rest, p, i)
  {
    seq(|rest| + 1, i requires 0 <= i <= |rest| => Shifted(rest, p, i))
  }

  lemma {:induction false} SortIsStable<T>(s: seq<T>, le: (T, T) -> bool) returns (from: seq<nat>)
    ensures TakenFrom(SortBy(s, le), s, from) && Stable(s, le, from)
  {
    if s == [] {
      from := [];
    } else {
      var rest := SortIsStable(s[1..], le);
      var p := InsertedAt(s[0], SortBy(s[1..], le), le);
      from := ShiftedAll(rest, p);
      TakenAfterInsert(SortBy(s, le), s, SortBy(s[1..], le), s[1..], rest, p);
      StableAfterInsert(s, s[1..], le, SortBy(s[1..], le), rest, p);
    }
  }

  lemma TakenAfterInsert<T>(t: seq<T>, s: seq<T>, t': seq<T>, s': seq<T>, rest: seq<nat>, p: nat)
    requires s != [] && s' == s[1..] && TakenFrom(t', s', rest) && p <= |t'| && t == t'[..p] + [s[0]] + t'[p..]
    ensures TakenFrom(t, s, ShiftedAll(rest, p))
  {
    var from := ShiftedAll(rest, p);
    forall k: nat | k < |s| ensures k in from {
      if k == 0 {
        assert from[p] == 0;
      } else {
        var k': nat := k - 1;
        assert k' in rest;
        var i :| 0 <= i < |rest| && rest[i] == k';
        assert from[if i < p then i else i + 1] == k;
      }
    }
  }

  lemma StableAfterInsert<T>(s: seq<T>, s': seq<T>, le: (T, T) -> bool, t': seq<T>, rest: seq<nat>, p: nat)
    requires s != [] && s' == s[1..] && TakenFrom(t', s', rest) && Stable(s', le, rest)
    requires p <= |t'| && forall i :: 0 <= i < p ==> !le(s[0], t'[i])
    ensures Stable(s, le, ShiftedAll(rest, p))
  {
    var from := ShiftedAll(rest, p);
    forall i, j | 0 <= i < j < |from| && le(s[from[j]], s[from[i]]) ensures from[i] < from[j] {
      if i != p && j != p {
        var i', j' := if i < p then i else i - 1, if j < p then j else j - 1;
        assert s'[rest[i']] == s[from[i]] && s'[rest[j']] == s[from[j]];
      }
    }
  }

  /** Lexicographic order of strings. */
  predicate StringLe(a: string, b: string) {
    a == "" || (b != "" && (a[0] < b[0] || (a[0] == b[0] && StringLe(a[1..], b[1..]))))
  }

  lemma {:induction false} StringLeTotal(a: string, b: string)
    ensures StringLe(a, b) || StringLe(b, a)
    ensures StringLe(a, b) && StringLe(b, a) ==> a == b
  {
    if a != "" && b != "" {
      StringLeTotal(a[1..], b[1..]);
      if a[0] == b[0] && a[1..] == b[1..] {
        assert a == [a[0]] + a[1..] == b;
      }
    }
  }

  lemma {:induction false} StringLeTransitive(a: string, b: string, c: string)
    requires StringLe(a, b) && StringLe(b, c)
    ensures StringLe(a, c)
  {
    if a != "" && a[0] == b[0] == c[0] {
      StringLeTransitive(a[1..], b[1..], c[1..]);
    }
  }
}
