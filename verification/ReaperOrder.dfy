/**
 When exactly a tick can unload a session in the same pass as its live descendants: if and only if the whole
 live family is idle with clocks that have run out, and no two of its members descend from each other.
 */
module ReaperOrder {
  import opened Wrappers
  import opened Lineage
  import opened Attach
  import opened Reaper

  /** Nothing keeps the session but its descendants, and its clock has run out. */
  ghost predicate Ripe(d: Daemon, sid: string) {
    && sid in d.live && !Attached(d.links.counts, sid) && sid !in d.open_runs && sid !in d.active
    && sid in d.eligible_since && d.now - d.eligible_since[sid] >= UNLOAD_GRACE
  }

  ghost function LiveDescendants(d: Daemon, sid: string): set<string> {
    set c | c in d.live && c != sid && HasAncestor(d.store, c, sid)
  }

  ghost predicate Acyclic(store: Store, s: set<string>) {
    forall x, y :: x in s && y in s && x != y ==> !(HasAncestor(store, x, y) && HasAncestor(store, y, x))
  }

  /** The tick unloads `p` although it had a live descendant when the tick began. */
  ghost predicate UnloadsParent(d: Daemon, order: seq<string>, p: string) {
    p in d.live && LiveDescendants(d, p) != {} && p !in Tick(d, order).live
  }

  /** A condition on the state before the tick alone. */
  ghost predicate FamilyRipe(d: Daemon, p: string) {
    && LiveDescendants(d, p) != {}
    && (forall s :: s in LiveDescendants(d, p) + {p} ==> Ripe(d, s))
    && Acyclic(d.store, LiveDescendants(d, p) + {p})
  }

  // ----- Only a ripe family can go.

  lemma GoneIsRipe(d: Daemon, order: seq<string>, sid: string) returns (i: nat)
    requires IsOrder(d.live, order) && sid in d.live && sid !in Tick(d, order).live
    ensures Ripe(d, sid)
    ensures i < |order| && order[i] == sid && Eligible(VisitAll(d, order[..i]), sid)
  {
    TickOutcome(d, order, sid);
    i :| 0 <= i < |order| && order[i] == sid && Eligible(VisitAll(d, order[..i]), sid);
    VisitAllFrame(d, order[..i]);
  }

  /** What is unvisited is still live. */
  lemma UnvisitedIsLive(d: Daemon, order: seq<string>, i: nat, j: nat)
    requires IsOrder(d.live, order) && i < j < |order|
    ensures order[j] in VisitAll(d, order[..i]).live
  {
    VisitAllFrame(d, order[..i]);
    assert order[j] in order;
    assert order[j] !in order[..i];
  }

  lemma GoneIsAcyclic(d: Daemon, order: seq<string>, x: string, y: string)
    requires IsOrder(d.live, order) && x in d.live && y in d.live && x != y
    requires x !in Tick(d, order).live && y !in Tick(d, order).live
    ensures !(HasAncestor(d.store, x, y) && HasAncestor(d.store, y, x))
  {
    var i := GoneIsRipe(d, order, x);
    var j := GoneIsRipe(d, order, y);
    VisitAllFrame(d, order[..i]);
    VisitAllFrame(d, order[..j]);
    if i < j {
      UnvisitedIsLive(d, order, i, j);
    } else {
      UnvisitedIsLive(d, order, j, i);
    }
  }

  lemma UnloadedFamilyIsRipe(d: Daemon, order: seq<string>, p: string)
    requires IsOrder(d.live, order) && UnloadsParent(d, order, p)
    ensures FamilyRipe(d, p)
  {
    var family := LiveDescendants(d, p) + {p};
    var i := GoneIsRipe(d, order, p);
    VisitAllFrame(d, order[..i]);
    forall s | s in family ensures s in d.live && s !in Tick(d, order).live && Ripe(d, s) {
      if s != p {
        assert s !in VisitAll(d, order[..i]).live;
        if s in VisitAll(d, order).live {
          StillLive(d, order, i, s);
        }
      }
      var k := GoneIsRipe(d, order, s);
    }
    forall x, y | x in family && y in family && x != y
      ensures !(HasAncestor(d.store, x, y) && HasAncestor(d.store, y, x))
    {
      GoneIsAcyclic(d, order, x, y);
    }
  }

  // ----- A ripe family does go, in the right order.

  lemma {:induction false} ChainJoins(store: Store, c: string, i: nat, b: string, j: nat)
    requires KthParent(store, c, i) == Some(b)
    ensures KthParent(store, c, i + j) == KthParent(store, b, j)
  {
    if j > 0 {
      ChainJoins(store, c, i, b, j - 1);
    }
  }

  lemma AncestorsOfAncestors(store: Store, c: string, b: string, a: string)
    requires HasAncestor(store, c, b) && HasAncestor(store, b, a)
    ensures HasAncestor(store, c, a)
  {
    var i: nat :| i >= 1 && KthParent(store, c, i) == Some(b);
    var j: nat :| j >= 1 && KthParent(store, b, j) == Some(a);
    ChainJoins(store, c, i, b, j);
    assert i + j >= 1 && KthParent(store, c, i + j) == Some(a);
  }

  /** Some member of the set descends from no other one. */
  ghost predicate IsTop(store: Store, s: set<string>, x: string) {
    x in s && forall y :: y in s && y != x ==> !HasAncestor(store, x, y)
  }

  lemma {:induction false} TopExists(store: Store, s: set<string>) returns (top: string)
    requires s != {} && Acyclic(store, s)
    ensures IsTop(store, s, top)
  {
    var z :| z in s;
    if s == {z} {
      top := z;
    } else {
      var t := TopExists(store, s - {z});
      if HasAncestor(store, t, z) {
        top := z;
        forall y | y in s && y != z ensures !HasAncestor(store, z, y) {
          if HasAncestor(store, z, y) && y != t {
            AncestorsOfAncestors(store, t, z, y);
          }
        }
      } else {
        top := t;
      }
    }
  }

  /** Ripe sessions that hold all their live descendants. */
  ghost predicate Removable(d: Daemon, s: set<string>) {
    && Acyclic(d.store, s)
    && forall x :: x in s ==> Ripe(d, x) && LiveDescendants(d, x) <= s
  }

  lemma VisitRemoves(d: Daemon, order: seq<string>, s: set<string>, x: string)
    requires Removable(d, s) && x in s && x !in order && VisitAll(d, order).live == d.live - (s - {x})
    ensures VisitAll(d, order + [x]).live == d.live - s
  {
    VisitAllFrame(d, order);
    assert (order + [x])[..|order|] == order;
    var at := VisitAll(d, order);
    assert LiveDescendants(d, x) <= s - {x};
    assert forall c :: c in at.live && c != x ==> c !in LiveDescendants(d, x);
  }

  /** Visiting the oldest ancestors last unloads the whole set. */
  lemma {:induction false} RemovalOrder(d: Daemon, s: set<string>) returns (order: seq<string>)
    requires Removable(d, s)
    ensures DistinctSeq(order) && (forall x :: x in order <==> x in s)
    ensures VisitAll(d, order).live == d.live - s
  {
    if s == {} {
      order := [];
    } else {
      var x := TopExists(d.store, s);
      forall y | y in s - {x} ensures Ripe(d, y) && LiveDescendants(d, y) <= s - {x} {
        assert LiveDescendants(d, y) <= s;
      }
      var front := RemovalOrder(d, s - {x});
      VisitRemoves(d, front, s, x);
      order := front + [x];
    }
  }

  lemma {:induction false} Enumerate(s: set<string>) returns (order: seq<string>)
    ensures DistinctSeq(order) && forall x :: x in order <==> x in s
  {
    if s == {} {
      order := [];
    } else {
      var x :| x in s;
      var front := Enumerate(s - {x});
      order := front + [x];
    }
  }

  lemma {:induction false} LaterVisitsRestoreNothing(d: Daemon, a: seq<string>, b: seq<string>)
    ensures VisitAll(d, a + b).live <= VisitAll(d, a).live
  {
    if b == [] {
      assert a + b == a;
    } else {
      var front := b[..|b| - 1];
      LaterVisitsRestoreNothing(d, a, front);
      assert (a + b)[..|a + b| - 1] == a + front;
    }
  }

  lemma FamilyIsRemovable(d: Daemon, p: string)
    requires FamilyRipe(d, p)
    ensures Removable(d, LiveDescendants(d, p) + {p})
  {
    var family := LiveDescendants(d, p) + {p};
    forall x, c | x in family && c in LiveDescendants(d, x) ensures c in family {
      if x != p {
        AncestorsOfAncestors(d.store, c, x, p);
      }
    }
  }

  lemma RipeFamilyGoes(d: Daemon, p: string) returns (order: seq<string>)
    requires FamilyRipe(d, p)
    ensures IsOrder(d.live, order) && UnloadsParent(d, order, p)
  {
    var family := LiveDescendants(d, p) + {p};
    FamilyIsRemovable(d, p);
    var first := RemovalOrder(d, family);
    var rest := Enumerate(d.live - family);
    order := first + rest;
    LaterVisitsRestoreNothing(d, first, rest);
    assert Ripe(d, p);
    forall x | x in first ensures x in d.live {
      assert Ripe(d, x);
    }
    JoinDistinct(first, rest);
  }

  lemma JoinDistinct(a: seq<string>, b: seq<string>)
    requires DistinctSeq(a) && DistinctSeq(b) && forall x :: x in a ==> x !in b
    ensures DistinctSeq(a + b)
  {
    forall i, j | 0 <= i < j < |a + b| ensures (a + b)[i] != (a + b)[j] {
      if i < |a| <= j {
        assert a[i] in a && b[j - |a|] in b;
      }
    }
  }

  /**
   For some order of visits a tick unloads `p` despite a live descendant, exactly when `p` and all its live
   descendants are idle with clocks that have run out and none of them descend from each other.
   */
  lemma ParentUnloadableIffFamilyRipe(d: Daemon, p: string)
    ensures (exists order :: IsOrder(d.live, order) && UnloadsParent(d, order, p)) <==> FamilyRipe(d, p)
  {
    if order :| IsOrder(d.live, order) && UnloadsParent(d, order, p) {
      UnloadedFamilyIsRipe(d, order, p);
    }
    if FamilyRipe(d, p) {
      var order := RipeFamilyGoes(d, p);
    }
  }
}
