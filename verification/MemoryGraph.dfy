/**
 The memory graph derived from the stored entries: edges are recorded in both
 directions so that a walk can cross them either way.
 */
module MemoryGraph {
  import opened Wrappers
  import opened Sorting

  type Id = nat

  /** The fields of a memory entry the graph and the recall pipeline read. */
  datatype MemoryEntry = MemoryEntry(
    id: Id, text: string, tags: seq<string>, active: bool,
    superseded_by: Option<Id>, contradicts: Option<Id>)

  datatype EdgeKind = SharedTag(tag: string) | Supersedes | Contradicts

  datatype Edge = Edge(to: Id, kind: EdgeKind)

  function TraversalWeight(kind: EdgeKind): real {
    match kind
    case SharedTag(_) => 0.8
    case Supersedes => 0.9
    case Contradicts => 0.3
  }

  function EdgesAt(m: map<Id, seq<Edge>>, id: Id): seq<Edge> {
    if id in m then m[id] else []
  }

  /** The built graph as a value. */
  datatype Graph = Graph(memories: map<Id, MemoryEntry>, forward: map<Id, seq<Edge>>, reverse: map<Id, seq<Edge>>) {
    /** `neighbors`: one hop in both directions, with the kind of each crossing. */
    function Neighbors(id: Id): seq<Edge> {
      EdgesAt(forward, id) + EdgesAt(reverse, id)
    }

    predicate Inactive(id: Id) {
      id in memories && !memories[id].active
    }
  }

  /** The edge `from -> to` that the fields of the entries call for. */
  ghost predicate Derived(entries: seq<MemoryEntry>, from: Id, to: Id, kind: EdgeKind) {
    DerivedFrom(entries, entries, from, to, kind)
  }

  /** The same, from the fields of `some` of the entries. */
  ghost predicate DerivedFrom(entries: seq<MemoryEntry>, some: seq<MemoryEntry>, from: Id, to: Id, kind: EdgeKind) {
    exists e :: e in some && e.id == from && DerivedBy(entries, e, to, kind)
  }

  ghost predicate DerivedBy(entries: seq<MemoryEntry>, e: MemoryEntry, to: Id, kind: EdgeKind) {
    match kind
    case SharedTag(tag) => tag in e.tags && to != e.id && exists o :: o in entries && o.id == to && tag in o.tags
    case Supersedes => e.superseded_by == Some(to)
    case Contradicts => e.contradicts == Some(to)
  }

  predicate MatchLe(a: (string, Id), b: (string, Id)) {
    if a.0 == b.0 then a.1 <= b.1 else StringLe(a.0, b.0)
  }

  /** `Vec::dedup`: drop consecutive repetitions. */
  function Dedup<T(==,!new)>(s: seq<T>): (r: seq<T>)
    ensures forall x :: x in r <==> x in s
  {
    if |s| <= 1 then s
    else if s[0] == s[1] then Dedup(s[1..])
    else [s[0]] + Dedup(s[1..])
  }

  ghost predicate Tagged(entries: seq<MemoryEntry>, tag: string, id: Id) {
    exists o :: o in entries && o.id == id && tag in o.tags
  }

  function IdsAt(index: map<string, seq<Id>>, tag: string): seq<Id> {
    if tag in index then index[tag] else []
  }

  /** The tag to entries index. */
  method TagIndex(entries: seq<MemoryEntry>) returns (index: map<string, seq<Id>>)
    ensures forall tag, id: Id :: id in IdsAt(index, tag) <==> Tagged(entries, tag, id)
  {
    index := map[];
    for i := 0 to |entries|
      invariant forall tag, id: Id :: id in IdsAt(index, tag) <==> Tagged(entries[..i], tag, id)
    {
      var e := entries[i];
      ghost var before := index;
      assert entries[..i + 1] == entries[..i] + [e];
      for j := 0 to |e.tags|
        invariant forall tag, id: Id :: id in IdsAt(index, tag) <==>
                    id in IdsAt(before, tag) || (id == e.id && tag in e.tags[..j])
      {
        index := index[e.tags[j] := IdsAt(index, e.tags[j]) + [e.id]];
        assert e.tags[..j + 1] == e.tags[..j] + [e.tags[j]];
      }
      assert e.tags[..|e.tags|] == e.tags;
      forall tag, id: Id ensures Tagged(entries[..i + 1], tag, id) <==>
                             Tagged(entries[..i], tag, id) || (id == e.id && tag in e.tags)
      {
        if id == e.id && tag in e.tags { assert e in entries[..i + 1]; }
      }
    }
    assert entries[..|entries|] == entries;
  }

  function TagEdges(from: Id, matches: seq<(string, Id)>): set<(Id, Id, EdgeKind)> {
    set m | m in matches :: (from, m.1, SharedTag(m.0))
  }

  lemma TagEdgesNext(from: Id, matches: seq<(string, Id)>, i: nat)
    requires i < |matches|
    ensures TagEdges(from, matches[..i + 1]) ==
            TagEdges(from, matches[..i]) + {(from, matches[i].1, SharedTag(matches[i].0))}
  {
    assert matches[..i + 1] == matches[..i] + [matches[i]];
  }

  class MemoryGraph {
    var memories: map<Id, MemoryEntry>
    var forward: map<Id, seq<Edge>>
    var reverse: map<Id, seq<Edge>>
    /** Every `(from, to, kind)` that was linked. */
    ghost var linked: set<(Id, Id, EdgeKind)>

    /** Both adjacency maps hold exactly the linked edges, each mirrored with its kind. */
    ghost predicate Mirrored()
      reads this
    {
      forall a: Id, b: Id, kind ::
        (Edge(b, kind) in EdgesAt(forward, a) <==> (a, b, kind) in linked) &&
        (Edge(a, kind) in EdgesAt(reverse, b) <==> (a, b, kind) in linked)
    }

    function View(): Graph
      reads this
    {
      Graph(memories, forward, reverse)
    }

    method Link(from: Id, to: Id, kind: EdgeKind)
      requires Mirrored()
      modifies this`forward, this`reverse, this`linked
      ensures Mirrored() && linked == old(linked) + {(from, to, kind)}
    {
      forward := forward[from := EdgesAt(forward, from) + [Edge(to, kind)]];
      reverse := reverse[to := EdgesAt(reverse, to) + [Edge(from, kind)]];
      linked := linked + {(from, to, kind)};
    }

    method LinkMatches(from: Id, matches: seq<(string, Id)>)
      requires Mirrored()
      modifies this`forward, this`reverse, this`linked
      ensures Mirrored()
      ensures forall a: Id, b: Id, kind :: (a, b, kind) in linked <==>
                (a, b, kind) in old(linked) ||
                (a == from && kind.SharedTag? && (kind.tag, b) in matches)
    {
      for i := 0 to |matches|
        invariant Mirrored() && linked == old(linked) + TagEdges(from, matches[..i])
      {
        Link(from, matches[i].1, SharedTag(matches[i].0));
        TagEdgesNext(from, matches, i);
      }
      assert matches[..|matches|] == matches;
    }

    /** The edges of one entry: shared tags, then replacement, then contradiction. */
    method LinkEntry(e: MemoryEntry, index: map<string, seq<Id>>, ghost entries: seq<MemoryEntry>)
      requires Mirrored()
      requires forall tag, id: Id :: id in IdsAt(index, tag) <==> Tagged(entries, tag, id)
      modifies this`forward, this`reverse, this`linked
      ensures Mirrored()
      ensures forall a: Id, b: Id, kind :: (a, b, kind) in linked <==>
                (a, b, kind) in old(linked) || (a == e.id && DerivedBy(entries, e, b, kind))
    {
      var matches := SortedMatches(e, index);
      LinkMatches(e.id, matches);
      LinkFields(e);
    }

    /** The two edges an entry names itself. */
    method LinkFields(e: MemoryEntry)
      requires Mirrored()
      modifies this`forward, this`reverse, this`linked
      ensures Mirrored()
      ensures forall a: Id, b: Id, kind :: (a, b, kind) in linked <==>
                (a, b, kind) in old(linked) ||
                (a == e.id &&
                 ((kind == Supersedes && e.superseded_by == Some(b)) ||
                  (kind == Contradicts && e.contradicts == Some(b))))
    {
      if e.superseded_by.Some? {
        Link(e.id, e.superseded_by.value, Supersedes);
      }
      if e.contradicts.Some? {
        Link(e.id, e.contradicts.value, Contradicts);
      }
    }

    /** `MemoryGraph::build`: the linked edges are exactly the derived ones, and the latest entry wins an id. */
    constructor (entries: seq<MemoryEntry>)
      ensures Mirrored()
      ensures forall a: Id, b: Id, kind :: (a, b, kind) in linked <==> Derived(entries, a, b, kind)
      ensures forall e :: e in entries ==> e.id in memories
      ensures forall id: Id :: id in memories ==> LatestEntry(entries, id, memories[id])
    {
      memories, forward, reverse, linked := map[], map[], map[], {};
      new;
      CollectEntries(entries);
      LinkAll(entries);
    }

    /** The entries by id, and an empty list of edges for each. */
    method CollectEntries(entries: seq<MemoryEntry>)
      requires memories == map[] && forward == map[]
      modifies this`memories, this`forward
      ensures forall id: Id :: EdgesAt(forward, id) == []
      ensures forall e :: e in entries ==> e.id in memories
      ensures forall id: Id :: id in memories ==> LatestEntry(entries, id, memories[id])
    {
      for i := 0 to |entries|
        invariant forall id: Id :: id in forward ==> forward[id] == []
        invariant forall e :: e in entries[..i] ==> e.id in memories
        invariant forall id: Id :: id in memories ==> LatestEntry(entries[..i], id, memories[id])
      {
        LatestNext(entries, i);
        memories := memories[entries[i].id := entries[i]];
        forward := forward[entries[i].id := []];
        assert entries[..i + 1] == entries[..i] + [entries[i]];
      }
      assert entries[..|entries|] == entries;
    }

    method LinkAll(entries: seq<MemoryEntry>)
      requires Mirrored() && linked == {}
      modifies this`forward, this`reverse, this`linked
      ensures Mirrored()
      ensures forall a: Id, b: Id, kind :: (a, b, kind) in linked <==> Derived(entries, a, b, kind)
    {
      var index := TagIndex(entries);
      for i := 0 to |entries|
        invariant Mirrored()
        invariant forall a: Id, b: Id, kind :: (a, b, kind) in linked <==>
                  DerivedFrom(entries, entries[..i], a, b, kind)
      {
        LinkEntry(entries[i], index, entries);
        DerivedNext(entries, i);
      }
      assert entries[..|entries|] == entries;
    }
  }

  /** `e` is the last of the entries with its id. */
  ghost predicate LatestEntry(entries: seq<MemoryEntry>, id: Id, e: MemoryEntry) {
    exists k :: 0 <= k < |entries| && entries[k] == e && e.id == id &&
                forall j :: k < j < |entries| ==> entries[j].id != id
  }

  lemma LatestStays(entries: seq<MemoryEntry>, i: nat, id: Id, e: MemoryEntry)
    requires i < |entries| && id != entries[i].id && LatestEntry(entries[..i], id, e)
    ensures LatestEntry(entries[..i + 1], id, e)
  {
    var front, more := entries[..i], entries[..i + 1];
    var k :| 0 <= k < i && front[k] == e && e.id == id && forall j :: k < j < i ==> front[j].id != id;
    assert more[k] == e && forall j :: k < j < i ==> more[j] == front[j];
  }

  lemma LatestNext(entries: seq<MemoryEntry>, i: nat)
    requires i < |entries|
    ensures LatestEntry(entries[..i + 1], entries[i].id, entries[i])
    ensures forall id: Id, e :: id != entries[i].id && LatestEntry(entries[..i], id, e) ==>
            LatestEntry(entries[..i + 1], id, e)
  {
    assert entries[..i + 1][i] == entries[i];
    forall id: Id, e | id != entries[i].id && LatestEntry(entries[..i], id, e)
      ensures LatestEntry(entries[..i + 1], id, e)
    {
      LatestStays(entries, i, id, e);
    }
  }

  lemma DerivedNext(entries: seq<MemoryEntry>, i: nat)
    requires i < |entries|
    ensures forall a: Id, b: Id, kind :: DerivedFrom(entries, entries[..i + 1], a, b, kind) <==>
              DerivedFrom(entries, entries[..i], a, b, kind) ||
              (a == entries[i].id && DerivedBy(entries, entries[i], b, kind))
  {
    assert entries[..i + 1] == entries[..i] + [entries[i]];
  }

  method TagMatches(e: MemoryEntry, index: map<string, seq<Id>>) returns (matches: seq<(string, Id)>)
    ensures forall tag, to: Id :: (tag, to) in matches <==> tag in e.tags && to != e.id && to in IdsAt(index, tag)
  {
    matches := [];
    for i := 0 to |e.tags|
      invariant forall tag, to: Id :: (tag, to) in matches <==>
                  tag in e.tags[..i] && to != e.id && to in IdsAt(index, tag)
    {
      var tag := e.tags[i];
      var others := IdsAt(index, tag);
      ghost var before := matches;
      for j := 0 to |others|
        invariant forall t, to: Id :: (t, to) in matches <==>
                    (t, to) in before || (t == tag && to != e.id && to in others[..j])
      {
        if others[j] != e.id {
          matches := matches + [(tag, others[j])];
        }
        assert others[..j + 1] == others[..j] + [others[j]];
      }
      assert others[..|others|] == others;
      assert e.tags[..i + 1] == e.tags[..i] + [tag];
    }
    assert e.tags[..|e.tags|] == e.tags;
  }

  method SortedMatches(e: MemoryEntry, index: map<string, seq<Id>>) returns (matches: seq<(string, Id)>)
    ensures forall tag, to: Id :: (tag, to) in matches <==> tag in e.tags && to != e.id && to in IdsAt(index, tag)
  {
    var found := TagMatches(e, index);
    matches := Dedup(SortBy(found, MatchLe));
    forall m ensures m in matches <==> m in found {
      SameElements(found, MatchLe, m);
    }
  }

  /** Crossing an edge backwards finds the same kind: the walks the cascade takes are undirected. */
  lemma NeighborsSymmetric(g: MemoryGraph, a: Id, b: Id, kind: EdgeKind)
    requires g.Mirrored()
    ensures Edge(b, kind) in g.View().Neighbors(a) <==> (a, b, kind) in g.linked || (b, a, kind) in g.linked
    ensures Edge(b, kind) in g.View().Neighbors(a) <==> Edge(a, kind) in g.View().Neighbors(b)
  {
  }
}
