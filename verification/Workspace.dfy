/**
 The workspace graph of the CI scope resolver: which package owns a path, and which packages have to keep
 passing when some of them change.
 */
module Workspace {
  import opened Wrappers

  type Name = string

  /** A dependency entry; `package` is the real name of a renamed dependency. */
  datatype Dep = Dep(name: Name, package: Option<Name>, path: bool) {
    function Target(): Name { if package.Some? then package.value else name }
  }

  datatype Package = Package(name: Name, dir: string, deps: seq<Dep>, has_tests: bool)

  type Dependents = map<Name, set<Name>>

  function Names(ws: seq<Package>): set<Name> {
    set k | 0 <= k < |ws| :: ws[k].name
  }

  // ----- Owners.

  predicate Covers(dir: string, path: string) { path == dir || dir + "/" <= path }

  /** `owner_of`: the longest manifest directory that covers the path. */
  function Owner(ws: seq<Package>, path: string): Option<Package> {
    if ws == [] then None
    else
      var best := Owner(ws[..|ws| - 1], path);
      var p := ws[|ws| - 1];
      if Covers(p.dir, path) && (best.None? || |p.dir| > |best.value.dir|) then Some(p) else best
  }

  method OwnerOf(ws: seq<Package>, path: string) returns (owner: Option<Package>)
    ensures owner == Owner(ws, path)
  {
    owner := None;
    var best_len := -1;
    for i := 0 to |ws|
      invariant owner == Owner(ws[..i], path)
      invariant best_len == if owner.Some? then |owner.value.dir| else -1
    {
      assert ws[..i + 1][..i] == ws[..i];
      if Covers(ws[i].dir, path) && |ws[i].dir| > best_len {
        owner, best_len := Some(ws[i]), |ws[i].dir|;
      }
    }
    assert ws[..|ws|] == ws;
  }

  /** A path has an owner exactly when some directory covers it, and the owner is the innermost one. */
  lemma {:induction false} OwnerIsInnermost(ws: seq<Package>, path: string)
    ensures Owner(ws, path).None? <==> forall p :: p in ws ==> !Covers(p.dir, path)
    ensures Owner(ws, path).Some? ==> var own := Owner(ws, path).value;
            own in ws && own.name in Names(ws) && Covers(own.dir, path) &&
            forall p :: p in ws && Covers(p.dir, path) ==> Covers(p.dir, own.dir)
  {
    if ws != [] {
      var front, last := ws[..|ws| - 1], ws[|ws| - 1];
      OwnerIsInnermost(front, path);
      assert ws == front + [last];
      if Owner(ws, path).Some? {
        var own := Owner(ws, path).value;
        forall p | p in ws && Covers(p.dir, path) ensures Covers(p.dir, own.dir) {
          LongestIsOwner(ws, path, p);
          ShorterCovers(p.dir, own.dir, path);
        }
      }
    }
  }

  lemma {:induction false} LongestIsOwner(ws: seq<Package>, path: string, p: Package)
    requires p in ws && Covers(p.dir, path)
    ensures Owner(ws, path).Some? && |p.dir| <= |Owner(ws, path).value.dir|
    ensures Covers(Owner(ws, path).value.dir, path)
  {
    var front, last := ws[..|ws| - 1], ws[|ws| - 1];
    assert ws == front + [last];
    if p in front {
      LongestIsOwner(front, path, p);
    } else {
      OwnerCovers(front, path);
    }
  }

  lemma {:induction false} OwnerCovers(ws: seq<Package>, path: string)
    ensures Owner(ws, path).Some? ==> Covers(Owner(ws, path).value.dir, path)
  {
    if ws != [] {
      OwnerCovers(ws[..|ws| - 1], path);
    }
  }

  /** Of two directories that cover a path the shorter one covers the longer one. */
  lemma ShorterCovers(a: string, b: string, path: string)
    requires Covers(a, path) && Covers(b, path) && |a| <= |b|
    ensures Covers(a, b)
  {
    assert b == path[..|b|] && a == path[..|a|];
    if |a| < |b| {
      assert (a + "/")[|a|] == '/' && path[..|a| + 1] == a + "/";
      assert b[..|a| + 1] == a + "/";
    } else {
      assert a == b;
    }
  }

  // ----- Dependents.

  /** `p` has a path dependency on `a`, by its package name if the entry is renamed. */
  predicate DependsOn(p: Package, a: Name) {
    exists k :: 0 <= k < |p.deps| && p.deps[k].path &&
      (p.deps[k].package == Some(a) || (p.deps[k].package == None && p.deps[k].name == a))
  }

  predicate DependsOnOneOf(p: Package, n: nat, a: Name)
    requires n <= |p.deps|
  {
    exists k :: 0 <= k < n && p.deps[k].path && p.deps[k].Target() == a
  }

  ghost predicate IsGraphOf(dependents: Dependents, ws: seq<Package>) {
    && dependents.Keys == Names(ws)
    && forall a, b :: a in dependents ==>
         (b in dependents[a] <==> exists p :: p in ws && p.name == b && DependsOn(p, a))
  }

  ghost predicate GraphSoFar(dependents: Dependents, ws: seq<Package>, done: seq<Package>) {
    && dependents.Keys == Names(ws)
    && forall a, b :: a in dependents ==>
         (b in dependents[a] <==> exists p :: p in done && p.name == b && DependsOn(p, a))
  }

  /** The edges of `_load`: path dependencies between members, under their real names. */
  method LoadDependents(ws: seq<Package>) returns (dependents: Dependents)
    ensures IsGraphOf(dependents, ws)
  {
    dependents := map n | n in Names(ws) :: {};
    for i := 0 to |ws|
      invariant GraphSoFar(dependents, ws, ws[..i])
    {
      ghost var before := dependents;
      dependents := AddEdges(dependents, ws[i]);
      assert ws[..i + 1] == ws[..i] + [ws[i]];
      GraphGrows(before, dependents, ws, i);
    }
    assert ws[..|ws|] == ws;
  }

  lemma GraphGrows(before: Dependents, dependents: Dependents, ws: seq<Package>, i: nat)
    requires i < |ws| && GraphSoFar(before, ws, ws[..i]) && dependents.Keys == before.Keys
    requires forall a, b :: a in before ==>
               (b in dependents[a] <==> b in before[a] || (b == ws[i].name && DependsOn(ws[i], a)))
    ensures GraphSoFar(dependents, ws, ws[..i + 1])
  {
  }

  method AddEdges(before: Dependents, p: Package) returns (dependents: Dependents)
    ensures dependents.Keys == before.Keys
    ensures forall a, b :: a in before ==>
              (b in dependents[a] <==> b in before[a] || (b == p.name && DependsOn(p, a)))
  {
    dependents := before;
    for k := 0 to |p.deps|
      invariant dependents.Keys == before.Keys
      invariant forall a, b :: a in before ==>
                  (b in dependents[a] <==> b in before[a] || (b == p.name && DependsOnOneOf(p, k, a)))
    {
      if !p.deps[k].path {
        continue;
      }
      var dep_name := p.deps[k].Target();
      if dep_name in dependents {
        dependents := dependents[dep_name := dependents[dep_name] + {p.name}];
      }
    }
  }

  ghost function GraphOf(ws: seq<Package>): Dependents {
    map a | a in Names(ws) :: set p | p in ws && DependsOn(p, a) :: p.name
  }

  lemma GraphIsUnique(dependents: Dependents, ws: seq<Package>)
    requires IsGraphOf(dependents, ws)
    ensures dependents == GraphOf(ws)
    ensures forall a :: a in dependents ==> dependents[a] <= dependents.Keys
  {
    forall a | a in dependents ensures dependents[a] == GraphOf(ws)[a] && dependents[a] <= dependents.Keys {
      forall b ensures b in dependents[a] <==> b in GraphOf(ws)[a] {}
      forall b | b in dependents[a] ensures b in Names(ws) {}
    }
  }

  // ----- The closure.

  function DependentsOf(d: Dependents, n: Name): set<Name> {
    if n in d then d[n] else {}
  }

  ghost predicate Uses(d: Dependents, user: Name, n: Name) { n in d && user in d[n] }

  /** A chain from a seed to `n`, each package depending on the one before it. */
  ghost predicate Chain(d: Dependents, seeds: set<Name>, chain: seq<Name>, n: Name) {
    && chain != [] && chain[0] in seeds && chain[|chain| - 1] == n
    && forall i :: 0 < i < |chain| ==> Uses(d, chain[i], chain[i - 1])
  }

  /** The seeds and everything that uses them, directly or not. */
  ghost predicate Affected(d: Dependents, seeds: set<Name>, n: Name) {
    exists chain: seq<Name> :: Chain(d, seeds, chain, n)
  }

  ghost predicate IsClosed(d: Dependents, s: set<Name>) {
    forall n :: n in s ==> DependentsOf(d, n) <= s
  }

  lemma SeedAffected(d: Dependents, seeds: set<Name>, n: Name)
    requires n in seeds
    ensures Affected(d, seeds, n)
  {
    assert Chain(d, seeds, [n], n);
  }

  lemma DependentAffected(d: Dependents, seeds: set<Name>, n: Name, m: Name)
    requires Affected(d, seeds, n) && m in DependentsOf(d, n)
    ensures Affected(d, seeds, m)
  {
    var chain: seq<Name> :| Chain(d, seeds, chain, n);
    assert Chain(d, seeds, chain + [m], m);
  }

  lemma {:induction false} ChainStaysInside(d: Dependents, seeds: set<Name>, s: set<Name>, chain: seq<Name>, n: Name)
    requires Chain(d, seeds, chain, n) && seeds <= s && IsClosed(d, s)
    ensures n in s
  {
    if |chain| > 1 {
      var front := chain[..|chain| - 1];
      ChainStaysInside(d, seeds, s, front, front[|front| - 1]);
    }
  }

  /** A set of affected packages that holds the seeds and is closed is the least closed set above the seeds. */
  lemma ClosedIsExact(d: Dependents, seeds: set<Name>, s: set<Name>)
    requires seeds <= s && IsClosed(d, s) && forall n :: n in s ==> Affected(d, seeds, n)
    ensures forall n :: n in s <==> Affected(d, seeds, n)
    ensures forall t: set<Name> :: seeds <= t && IsClosed(d, t) ==> s <= t
  {
    forall t: set<Name>, n | seeds <= t && IsClosed(d, t) && Affected(d, seeds, n) ensures n in t {
      var chain: seq<Name> :| Chain(d, seeds, chain, n);
      ChainStaysInside(d, seeds, t, chain, n);
    }
  }

  /** Every dependent of a seen package is seen, unless the package still waits on the stack. */
  ghost predicate ClosedBut(d: Dependents, seen: set<Name>, stack: seq<Name>) {
    forall n :: n in seen && n !in stack ==> DependentsOf(d, n) <= seen
  }

  /** `closure`: the worklist ends with the least set that holds the seeds and is closed under dependents. */
  method Closure(d: Dependents, seeds: set<Name>) returns (seen: set<Name>)
    requires forall n :: n in d ==> d[n] <= d.Keys
    ensures forall n :: n in seen <==> Affected(d, seeds, n)
    ensures seeds <= seen <= seeds + d.Keys && IsClosed(d, seen)
    ensures forall t: set<Name> :: seeds <= t && IsClosed(d, t) ==> seen <= t
  {
    seen := seeds;
    var stack := Listed(seeds);
    forall n | n in seeds ensures Affected(d, seeds, n) {
      SeedAffected(d, seeds, n);
    }
    while stack != []
      invariant seeds <= seen <= seeds + d.Keys
      invariant forall n :: n in stack ==> n in seen
      invariant forall n :: n in seen ==> Affected(d, seeds, n)
      invariant ClosedBut(d, seen, stack)
      decreases seeds + d.Keys - seen, |stack|
    {
      var n := stack[|stack| - 1];
      assert stack == stack[..|stack| - 1] + [n];
      seen, stack := PushUnseen(d, seeds, n, seen, stack[..|stack| - 1]);
    }
    ClosedIsExact(d, seeds, seen);
  }

  /** The inner loop: the parents of the popped package that were not seen yet are seen and pushed. */
  method PushUnseen(d: Dependents, ghost seeds: set<Name>, n: Name, seen0: set<Name>, stack0: seq<Name>)
    returns (seen: set<Name>, stack: seq<Name>)
    requires forall m :: m in d ==> d[m] <= d.Keys
    requires n in seen0 && Affected(d, seeds, n)
    requires forall m :: m in stack0 ==> m in seen0
    requires forall m :: m in seen0 ==> Affected(d, seeds, m)
    requires ClosedBut(d, seen0, stack0 + [n]) && seen0 <= seeds + d.Keys
    ensures seen0 <= seen <= seeds + d.Keys
    ensures seen == seen0 || seeds + d.Keys - seen < seeds + d.Keys - seen0
    ensures forall m :: m in stack ==> m in seen
    ensures forall m :: m in seen ==> Affected(d, seeds, m)
    ensures ClosedBut(d, seen, stack)
    ensures seen == seen0 ==> stack == stack0
  {
    seen, stack := seen0, stack0;
    var todo := DependentsOf(d, n);
    while todo != {}
      invariant todo <= DependentsOf(d, n) && seen == seen0 + (DependentsOf(d, n) - todo)
      invariant forall m :: m in stack0 || m in seen - seen0 ==> m in stack
      invariant forall m :: m in stack ==> m in seen
      invariant seen == seen0 ==> stack == stack0
      decreases todo
    {
      var parent :| parent in todo;
      todo := todo - {parent};
      if parent !in seen {
        seen, stack := seen + {parent}, Push(stack, parent);
      }
    }
    forall m | m in seen ensures Affected(d, seeds, m) {
      if m !in seen0 {
        DependentAffected(d, seeds, n, m);
      }
    }
    forall m | m in seen && m !in stack ensures DependentsOf(d, m) <= seen {
      assert m != n ==> (m in seen0 && m !in stack0 + [n]);
    }
    if seen != seen0 {
      var m :| m in seen && m !in seen0;
      assert m in seeds + d.Keys - seen0 && m !in seeds + d.Keys - seen;
    }
  }

  function Push(stack: seq<Name>, n: Name): (r: seq<Name>)
    ensures |r| == |stack| + 1 && r[|stack|] == n && forall i :: 0 <= i < |stack| ==> r[i] == stack[i]
    ensures forall m :: m in r <==> m in stack || m == n
  {
    stack + [n]
  }

  method Listed(s: set<Name>) returns (list: seq<Name>)
    ensures forall n :: n in list <==> n in s
    ensures forall i, j :: 0 <= i < j < |list| ==> list[i] != list[j]
  {
    list := [];
    var todo := s;
    while todo != {}
      invariant todo <= s && forall n :: n in list <==> n in s - todo
      invariant forall i, j :: 0 <= i < j < |list| ==> list[i] != list[j]
      decreases todo
    {
      var n :| n in todo;
      todo := todo - {n};
      assert n !in list;
      list := Push(list, n);
    }
  }

  /** More seeds affect no fewer packages. */
  lemma AffectedGrows(d: Dependents, a: set<Name>, b: set<Name>, n: Name)
    requires a <= b && Affected(d, a, n)
    ensures Affected(d, b, n)
  {
    var chain: seq<Name> :| Chain(d, a, chain, n);
    assert Chain(d, b, chain, n);
  }
}
