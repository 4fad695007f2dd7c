/**
 JSON values with their object keys in some order, and the key sort that makes two values equal exactly when
 they differ in nothing but that order.
 */
module Json {
  import opened Sorting

  datatype Entry = Entry(key: string, value: Value)

  /** Numbers are kept as their tokens. */
  datatype Value =
    | Null
    | Bool(b: bool)
    | Number(token: string)
    | Text(text: string)
    | List(items: seq<Value>)
    | Object(entries: seq<Entry>)

  /** No object has a key twice, as in the maps of the parser. */
  ghost predicate WellFormed(v: Value) {
    match v
    case List(items) => forall i :: 0 <= i < |items| ==> WellFormed(items[i])
    case Object(entries) =>
      DistinctKeys(entries) && forall i :: 0 <= i < |entries| ==> WellFormed(entries[i].value)
    case _ => true
  }

  ghost predicate DistinctKeys(entries: seq<Entry>) {
    forall i, j :: 0 <= i < j < |entries| ==> entries[i].key != entries[j].key
  }

  /** Equal up to the order of object keys. */
  ghost predicate Same(a: Value, b: Value)
    decreases a, 1
  {
    match a
    case List(items) =>
      b.List? && |items| == |b.items| && forall i :: 0 <= i < |items| ==> Same(items[i], b.items[i])
    case Object(entries) =>
      && b.Object? && |entries| == |b.entries|
      && (forall i :: 0 <= i < |entries| ==> HasTwin(entries[i], b.entries))
      && (forall j :: 0 <= j < |b.entries| ==> IsTwin(a, b.entries[j]))
    case _ => a == b
  }

  /** One of the entries has the same key and the same value. */
  ghost predicate HasTwin(e: Entry, entries: seq<Entry>)
    decreases e, 0
  {
    exists j :: 0 <= j < |entries| && entries[j].key == e.key && Same(e.value, entries[j].value)
  }

  ghost predicate IsTwin(a: Value, e: Entry)
    requires a.Object?
    decreases a, 0
  {
    exists i :: 0 <= i < |a.entries| && a.entries[i].key == e.key && Same(a.entries[i].value, e.value)
  }

  predicate KeyLe(a: Entry, b: Entry) { StringLe(a.key, b.key) }

  /** `sort_value`. */
  function SortValue(v: Value): Value
    decreases v, 1
  {
    match v
    case List(items) => List(seq(|items|, i requires 0 <= i < |items| => SortValue(items[i])))
    case Object(_) => Object(SortBy(SortedEntries(v), KeyLe))
    case _ => v
  }

  /** The entries of an object with their values sorted. */
  function SortedEntries(v: Value): (r: seq<Entry>)
    requires v.Object?
    ensures |r| == |v.entries|
    ensures forall i :: 0 <= i < |r| ==> r[i] == Entry(v.entries[i].key, SortValue(v.entries[i].value))
    decreases v, 0
  {
    seq(|v.entries|, i requires 0 <= i < |v.entries| => Entry(v.entries[i].key, SortValue(v.entries[i].value)))
  }

  lemma KeysOrdered()
    ensures TotalPreorder(KeyLe)
  {
    forall a: Entry, b: Entry ensures KeyLe(a, b) || KeyLe(b, a) {
      StringLeTotal(a.key, b.key);
    }
    forall a: Entry, b: Entry, c: Entry | KeyLe(a, b) && KeyLe(b, c) ensures KeyLe(a, c) {
      StringLeTransitive(a.key, b.key, c.key);
    }
  }

  lemma HasFirst(s: seq<Entry>)
    ensures s != [] ==> exists e :: e in s
  {
    if s != [] {
      assert s[0] in s;
    }
  }

  /** A set of entries with distinct keys has one sorted listing. */
  lemma {:induction false} SortedListingIsUnique(s: seq<Entry>, t: seq<Entry>)
    requires Sorted(s, KeyLe) && Sorted(t, KeyLe) && DistinctKeys(s) && DistinctKeys(t)
    requires forall e :: e in s <==> e in t
    ensures s == t
  {
    if s == [] {
      HasFirst(t);
    } else {
      assert s[0] in t;
      SameHead(s, t);
      forall e ensures e in s[1..] <==> e in t[1..] {
        Tail(s, e);
        Tail(t, e);
      }
      SortedListingIsUnique(s[1..], t[1..]);
      assert s == [s[0]] + s[1..] && t == [t[0]] + t[1..];
    }
  }

  lemma Tail(s: seq<Entry>, e: Entry)
    requires s != [] && DistinctKeys(s)
    ensures e in s[1..] <==> e in s && e != s[0]
  {
  }

  lemma SameHead(s: seq<Entry>, t: seq<Entry>)
    requires Sorted(s, KeyLe) && Sorted(t, KeyLe) && DistinctKeys(t)
    requires s != [] && t != [] && s[0] in t && t[0] in s
    ensures s[0] == t[0]
  {
    var i :| 0 <= i < |t| && t[i] == s[0];
    var j :| 0 <= j < |s| && s[j] == t[0];
    StringLeTotal(s[0].key, s[0].key);
    assert KeyLe(t[0], s[0]) by { if i > 0 { assert KeyLe(t[0], t[i]); } }
    assert KeyLe(s[0], t[0]) by { if j > 0 { assert KeyLe(s[0], s[j]); } }
    StringLeTotal(s[0].key, t[0].key);
  }

  /** Two listings without repeated keys sort to the same list exactly when they hold the same entries. */
  lemma ListingsDecided(s: seq<Entry>, t: seq<Entry>)
    requires DistinctKeys(s) && DistinctKeys(t)
    ensures SortBy(s, KeyLe) == SortBy(t, KeyLe) <==> forall e :: e in s <==> e in t
  {
    forall e ensures (e in SortBy(s, KeyLe) <==> e in s) && (e in SortBy(t, KeyLe) <==> e in t) {
      SameElements(s, KeyLe, e);
      SameElements(t, KeyLe, e);
    }
    if SortBy(s, KeyLe) == SortBy(t, KeyLe) {
      assert forall e :: e in s <==> e in t;
    }
    if forall e :: e in s <==> e in t {
      KeysOrdered();
      SortBySorted(s, KeyLe);
      SortBySorted(t, KeyLe);
      SortKeepsDistinct(s, KeyLe, (e: Entry) => e.key);
      SortKeepsDistinct(t, KeyLe, (e: Entry) => e.key);
      SortedListingIsUnique(SortBy(s, KeyLe), SortBy(t, KeyLe));
    }
  }

  /** Sorted values are equal exactly when the values are the same up to key order. */
  lemma {:induction false} SortValueDecidesSame(a: Value, b: Value)
    requires WellFormed(a) && WellFormed(b)
    ensures SortValue(a) == SortValue(b) <==> Same(a, b)
    decreases a, 1
  {
    if a.List? && b.List? {
      ListsDecided(a, b);
    } else if a.Object? && b.Object? {
      ListingsDecided(SortedEntries(a), SortedEntries(b));
      if Same(a, b) {
        ObjectsForth(a, b);
      }
      if forall e :: e in SortedEntries(a) <==> e in SortedEntries(b) {
        ObjectsBack(a, b);
      }
    }
  }

  lemma ListsDecided(a: Value, b: Value)
    requires a.List? && b.List? && WellFormed(a) && WellFormed(b)
    ensures SortValue(a) == SortValue(b) <==> Same(a, b)
    decreases a, 0
  {
    var s, t := SortValue(a).items, SortValue(b).items;
    if |a.items| == |b.items| {
      forall i | 0 <= i < |a.items| ensures s[i] == t[i] <==> Same(a.items[i], b.items[i]) {
        SortValueDecidesSame(a.items[i], b.items[i]);
      }
      if Same(a, b) {
        assert s == t;
      }
    }
  }

  lemma ObjectsForth(a: Value, b: Value)
    requires a.Object? && b.Object? && WellFormed(a) && WellFormed(b) && Same(a, b)
    ensures forall e :: e in SortedEntries(a) <==> e in SortedEntries(b)
    decreases a, 0
  {
    var s, t := SortedEntries(a), SortedEntries(b);
    forall i | 0 <= i < |s| ensures s[i] in t {
      assert HasTwin(a.entries[i], b.entries);
      var j :| 0 <= j < |t| && b.entries[j].key == a.entries[i].key && Same(a.entries[i].value, b.entries[j].value);
      SortValueDecidesSame(a.entries[i].value, b.entries[j].value);
      assert t[j] == s[i];
    }
    forall j | 0 <= j < |t| ensures t[j] in s {
      assert IsTwin(a, b.entries[j]);
      var i :| 0 <= i < |s| && a.entries[i].key == b.entries[j].key && Same(a.entries[i].value, b.entries[j].value);
      SortValueDecidesSame(a.entries[i].value, b.entries[j].value);
      assert t[j] == s[i];
    }
  }

  lemma ObjectsBack(a: Value, b: Value)
    requires a.Object? && b.Object? && WellFormed(a) && WellFormed(b)
    requires forall e :: e in SortedEntries(a) <==> e in SortedEntries(b)
    ensures Same(a, b)
    decreases a, 0
  {
    var s, t := SortedEntries(a), SortedEntries(b);
    SameLength(s, t);
    forall i | 0 <= i < |s| ensures HasTwin(a.entries[i], b.entries) {
      assert s[i] in t;
      var j :| 0 <= j < |t| && t[j] == s[i];
      SortValueDecidesSame(a.entries[i].value, b.entries[j].value);
    }
    forall j | 0 <= j < |t| ensures IsTwin(a, b.entries[j]) {
      assert t[j] in s;
      var i :| 0 <= i < |s| && s[i] == t[j];
      SortValueDecidesSame(a.entries[i].value, b.entries[j].value);
    }
  }

  lemma SameLength(s: seq<Entry>, t: seq<Entry>)
    requires DistinctKeys(s) && DistinctKeys(t) && forall e :: e in s <==> e in t
    ensures |s| == |t|
  {
    ListingsDecided(s, t);
    assert |SortBy(s, KeyLe)| == |SortBy(t, KeyLe)|;
  }
}
