/** The parent chain of sessions in the session store, and the cycle-guarded ancestor walk. */
module Lineage {
  import opened Wrappers

  /** Every stored session with its parent; parents need not be stored and chains may be cyclic. */
  type Store = map<string, Option<string>>

  /** The `k`-th parent of `start`, when every session before it on the chain is stored. */
  function KthParent(store: Store, start: string, k: nat): Option<string> {
    if k == 0 then Some(start)
    else
      match KthParent(store, start, k - 1)
      case None => None
      case Some(id) => if id in store then store[id] else None
  }

  ghost predicate HasAncestor(store: Store, id: string, anc: string) {
    exists k: nat :: k >= 1 && KthParent(store, id, k) == Some(anc)
  }

  lemma {:induction false} ChainEnds(store: Store, start: string, i: nat, k: nat)
    requires KthParent(store, start, i) == None && i <= k
    ensures KthParent(store, start, k) == None
  {
    if i < k {
      ChainEnds(store, start, i, k - 1);
    }
  }

  /** A session that is nobody's parent is on no other chain. */
  lemma {:induction false} ChainAvoids(store: Store, childless: string, parent: Option<string>, id: string, k: nat)
    requires id != childless && forall x :: x in store ==> store[x] != Some(childless)
    ensures KthParent(store, id, k) != Some(childless)
    ensures KthParent(store[childless := parent], id, k) == KthParent(store, id, k)
  {
    if k > 0 {
      ChainAvoids(store, childless, parent, id, k - 1);
    }
  }

  /** Once the chain meets itself it only repeats. */
  lemma {:induction false} ChainRepeats(store: Store, start: string, j: nat, i: nat, k: nat) returns (m: nat)
    requires j < i && KthParent(store, start, j) == KthParent(store, start, i)
    ensures KthParent(store, start, k) == KthParent(store, start, m) && m <= i
    ensures k >= 1 ==> m >= 1
    decreases k
  {
    if k <= i {
      m := k;
    } else {
      m := ChainRepeats(store, start, j, i, k - 1);
      if m < i {
        m := m + 1;
      } else {
        m := j + 1;
      }
    }
  }

  /** `is_ancestor_in_store`: terminates on every store, and is exactly ancestry. */
  method IsAncestorInStore(store: Store, anc: string, descendant: string) returns (r: bool)
    ensures r <==> HasAncestor(store, descendant, anc)
  {
    var visited: set<string> := {};
    var current := Some(descendant);
    ghost var i: nat := 0;
    while current.Some?
      invariant current == KthParent(store, descendant, i)
      invariant visited <= store.Keys
      invariant forall id :: id in visited ==> exists j :: 0 <= j < i && KthParent(store, descendant, j) == Some(id)
      invariant forall k :: 1 <= k <= i ==> KthParent(store, descendant, k) != Some(anc)
      decreases store.Keys - visited, current.Some?
    {
      var id := current.value;
      if id in visited {
        ghost var j :| 0 <= j < i && KthParent(store, descendant, j) == Some(id);
        forall k: nat | k >= 1 ensures KthParent(store, descendant, k) != Some(anc) {
          var m := ChainRepeats(store, descendant, j, i, k);
        }
        return false;
      }
      visited := visited + {id};
      if id !in store || store[id].None? {
        assert KthParent(store, descendant, i + 1) == None;
        forall k: nat | k >= 1 ensures KthParent(store, descendant, k) != Some(anc) {
          if k > i { ChainEnds(store, descendant, i + 1, k); }
        }
        return false;
      }
      var parent := store[id].value;
      assert KthParent(store, descendant, i + 1) == Some(parent);
      if parent == anc {
        return true;
      }
      current := Some(parent);
      i := i + 1;
    }
    forall k: nat | k >= 1 ensures KthParent(store, descendant, k) != Some(anc) {
      if k > i { ChainEnds(store, descendant, i, k); }
    }
    return false;
  }
}
