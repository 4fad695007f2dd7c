/**
 The recall cascade: starting from the direct hits, scores are improved in place,
 two hops deep, extending only the nodes that were just improved.  The theorem is
 that every node ends with the maximum over all walks, whatever the order in
 which the direct hits and the edges are visited.
 */
module Recall {
  import opened Wrappers
  import opened MemoryGraph
  import opened Sorting

  const MAX_DEPTH: nat := 2

  datatype RecallPath = Direct | Via(from: Id, depth: nat)

  /** `DECAY.powi(depth)`. */
  function Decay(depth: nat): real {
    if depth == 0 then 1.0 else 0.7 * Decay(depth - 1)
  }

  /** The score handed over an edge as hop number `depth`, multiplied up as the code does. */
  function Inherit(g: Graph, score: real, edge: Edge, depth: nat): real {
    var inherit := score * TraversalWeight(edge.kind) * Decay(depth);
    if g.Inactive(edge.to) then inherit * 0.5 else inherit
  }

  function Decayed(x: real, depth: nat): real {
    if depth == 0 then x else 0.7 * Decayed(x, depth - 1)
  }

  function Weighted(x: real, kind: EdgeKind): real {
    match kind
    case SharedTag(_) => 0.8 * x
    case Supersedes => 0.9 * x
    case Contradicts => 0.3 * x
  }

  /** A score after hop number `depth` over `edge`: edge weight, 0.7 per depth, half into an inactive entry. */
  function Hop(g: Graph, x: real, edge: Edge, depth: nat): real {
    var y := Decayed(Weighted(x, edge.kind), depth);
    if g.Inactive(edge.to) then 0.5 * y else y
  }

  // ----- The order-free meaning: walks from the direct hits.

  datatype Walk = Start(id: Id) | Step(prev: Walk, edge: Edge) {
    function End(): Id { if Start? then id else edge.to }
    function Hops(): nat { if Start? then 0 else prev.Hops() + 1 }
    function Path(): RecallPath { if Start? then Direct else Via(prev.End(), Hops()) }
  }

  predicate ValidWalk(g: Graph, direct: map<Id, real>, w: Walk) {
    match w
    case Start(id) => id in direct
    case Step(p, e) => ValidWalk(g, direct, p) && e in g.Neighbors(p.End())
  }

  function Score(g: Graph, direct: map<Id, real>, w: Walk): real
    requires ValidWalk(g, direct, w)
  {
    match w
    case Start(id) => direct[id]
    case Step(p, e) => Hop(g, Score(g, direct, p), e, w.Hops())
  }

  ghost predicate Positive(direct: map<Id, real>) {
    forall id :: id in direct ==> direct[id] > 0.0
  }

  /** Some walk of at most `n` hops reaches `v` with this score along this path. */
  ghost predicate Attained(g: Graph, direct: map<Id, real>, n: nat, v: Id, entry: (real, RecallPath)) {
    exists w :: ValidWalk(g, direct, w) && w.Hops() <= n && w.End() == v &&
                Score(g, direct, w) == entry.0 && w.Path() == entry.1
  }

  ghost predicate AllAttained(g: Graph, direct: map<Id, real>, n: nat, scores: map<Id, (real, RecallPath)>) {
    forall v :: v in scores ==> Attained(g, direct, n, v, scores[v])
  }

  /** No walk of at most `n` hops beats the recorded scores. */
  ghost predicate Dominates(g: Graph, direct: map<Id, real>, n: nat, scores: map<Id, (real, RecallPath)>) {
    forall w :: ValidWalk(g, direct, w) && w.Hops() <= n ==>
                  w.End() in scores && Score(g, direct, w) <= scores[w.End()].0
  }

  /** The recorded scores are the maxima over all walks of at most `n` hops. */
  ghost predicate BestScores(g: Graph, direct: map<Id, real>, n: nat, scores: map<Id, (real, RecallPath)>) {
    Dominates(g, direct, n, scores) && AllAttained(g, direct, n, scores)
  }

  // ----- One round of the cascade.

  type Frontier = seq<(Id, real)>

  ghost predicate Reaches(frontier: Frontier, v: Id, s: real) {
    exists k :: 0 <= k < |frontier| && frontier[k].0 == v && frontier[k].1 >= s
  }

  ghost predicate IsItem(g: Graph, direct: map<Id, real>, d: nat, w: Walk, item: (Id, real)) {
    ValidWalk(g, direct, w) && w.Hops() == d && w.End() == item.0 && Score(g, direct, w) == item.1
  }

  ghost predicate ItemSound(g: Graph, direct: map<Id, real>, d: nat, item: (Id, real)) {
    exists w :: IsItem(g, direct, d, w, item)
  }

  /** Every frontier item is a walk of exactly `d` hops. */
  ghost predicate FrontierSound(g: Graph, direct: map<Id, real>, d: nat, frontier: Frontier) {
    forall k :: 0 <= k < |frontier| ==> ItemSound(g, direct, d, frontier[k])
  }

  ghost predicate Shorter(g: Graph, direct: map<Id, real>, d: nat, v: Id, s: real) {
    exists w :: ValidWalk(g, direct, w) && w.Hops() < d && w.End() == v && Score(g, direct, w) >= s
  }

  /** A walk of exactly `d` hops that the frontier does not extend is beaten by a shorter one. */
  ghost predicate FrontierComplete(g: Graph, direct: map<Id, real>, d: nat, frontier: Frontier) {
    forall w :: ValidWalk(g, direct, w) && w.Hops() == d ==>
                  Reaches(frontier, w.End(), Score(g, direct, w)) ||
                  Shorter(g, direct, d, w.End(), Score(g, direct, w))
  }

  ghost predicate RoundInvariant(g: Graph, direct: map<Id, real>, d: nat, frontier: Frontier,
                                 scores: map<Id, (real, RecallPath)>)
  {
    BestScores(g, direct, d, scores) && FrontierSound(g, direct, d, frontier) &&
    FrontierComplete(g, direct, d, frontier)
  }

  /** The candidate `(to, s)` has been taken into account. */
  ghost predicate Settled(old_: map<Id, (real, RecallPath)>, scores: map<Id, (real, RecallPath)>,
                          next: Frontier, to: Id, s: real)
  {
    to in scores && scores[to].0 >= s && ((to in old_ && old_[to].0 >= s) || Reaches(next, to, s))
  }

  /** Whatever was taken into account stays so. */
  ghost predicate KeepsSettled(old_: map<Id, (real, RecallPath)>, scores: map<Id, (real, RecallPath)>, next: Frontier,
                               scores': map<Id, (real, RecallPath)>, next': Frontier)
  {
    forall to, s :: Settled(old_, scores, next, to, s) ==> Settled(old_, scores', next', to, s)
  }

  /** What holds between two relaxations of round `d`. */
  ghost predicate Relaxing(g: Graph, direct: map<Id, real>, d: nat, old_: map<Id, (real, RecallPath)>,
                           scores: map<Id, (real, RecallPath)>, next: Frontier)
  {
    && (forall v :: v in old_ ==> v in scores && scores[v].0 >= old_[v].0)
    && AllAttained(g, direct, d, scores)
    && (forall v :: v in scores ==> (v in old_ && scores[v] == old_[v]) || Reaches(next, v, scores[v].0))
    && FrontierSound(g, direct, d, next)
  }

  lemma {:induction false} DecayedIsProduct(x: real, depth: nat)
    ensures Decayed(x, depth) == x * Decay(depth)
  {
    if depth > 0 {
      DecayedIsProduct(x, depth - 1);
      var d := Decay(depth - 1);
      assert x * (0.7 * d) == 0.7 * (x * d);
    }
  }

  lemma InheritIsHop(g: Graph, score: real, edge: Edge, depth: nat)
    ensures Inherit(g, score, edge, depth) == Hop(g, score, edge, depth)
  {
    assert score * TraversalWeight(edge.kind) == Weighted(score, edge.kind);
    DecayedIsProduct(Weighted(score, edge.kind), depth);
  }

  /** One candidate: it replaces the recorded score only when strictly better. */
  method Relax(g: Graph, ghost direct: map<Id, real>, depth: nat, ghost old_: map<Id, (real, RecallPath)>,
               ghost w: Walk, id: Id, score: real, edge: Edge,
               scores: map<Id, (real, RecallPath)>, next: Frontier)
    returns (scores': map<Id, (real, RecallPath)>, next': Frontier)
    requires ValidWalk(g, direct, w) && w.End() == id && Score(g, direct, w) == score && w.Hops() + 1 == depth
    requires edge in g.Neighbors(id)
    requires Relaxing(g, direct, depth, old_, scores, next)
    ensures Relaxing(g, direct, depth, old_, scores', next')
    ensures Settled(old_, scores', next', edge.to, Hop(g, score, edge, depth))
    ensures KeepsSettled(old_, scores, next, scores', next')
  {
    var inherit := Inherit(g, score, edge, depth);
    InheritIsHop(g, score, edge, depth);
    if edge.to in scores && scores[edge.to].0 >= inherit {
      scores', next' := scores, next;
    } else {
      scores' := scores[edge.to := (inherit, Via(id, depth))];
      next' := next + [(edge.to, inherit)];
      Improve(g, direct, depth, old_, scores, next, Step(w, edge));
    }
  }

  /** Recording a strictly better walk `w` of `d` hops. */
  lemma Improve(g: Graph, direct: map<Id, real>, d: nat, old_: map<Id, (real, RecallPath)>,
                scores: map<Id, (real, RecallPath)>, next: Frontier, w: Walk)
    requires ValidWalk(g, direct, w) && w.Hops() == d
    requires Relaxing(g, direct, d, old_, scores, next)
    requires w.End() in scores ==> scores[w.End()].0 < Score(g, direct, w)
    ensures var s := Score(g, direct, w);
            var scores' := scores[w.End() := (s, w.Path())];
            var next' := next + [(w.End(), s)];
            Relaxing(g, direct, d, old_, scores', next') &&
            Settled(old_, scores', next', w.End(), s) &&
            forall to, x :: Settled(old_, scores, next, to, x) ==> Settled(old_, scores', next', to, x)
  {
    var v, s, path := w.End(), Score(g, direct, w), w.Path();
    ImproveScores(old_, scores, next, v, s, path);
    FrontierGrows(g, direct, d, next, w, v, s);
  }

  lemma FrontierGrows(g: Graph, direct: map<Id, real>, d: nat, next: Frontier, w: Walk, v: Id, s: real)
    requires FrontierSound(g, direct, d, next)
    requires ValidWalk(g, direct, w) && w.Hops() == d && w.End() == v && Score(g, direct, w) == s
    ensures FrontierSound(g, direct, d, next + [(v, s)])
  {
    assert IsItem(g, direct, d, w, (v, s));
  }

  lemma ImproveScores(old_: map<Id, (real, RecallPath)>, scores: map<Id, (real, RecallPath)>, next: Frontier,
                      v: Id, s: real, path: RecallPath)
    requires forall u :: u in old_ ==> u in scores && scores[u].0 >= old_[u].0
    requires forall u :: u in scores ==> (u in old_ && scores[u] == old_[u]) || Reaches(next, u, scores[u].0)
    requires v in scores ==> scores[v].0 < s
    ensures var scores' := scores[v := (s, path)];
            var next' := next + [(v, s)];
            (forall u :: u in old_ ==> u in scores' && scores'[u].0 >= old_[u].0) &&
            (forall u :: u in scores' ==> (u in old_ && scores'[u] == old_[u]) || Reaches(next', u, scores'[u].0)) &&
            Settled(old_, scores', next', v, s) &&
            forall to, x :: Settled(old_, scores, next, to, x) ==> Settled(old_, scores', next', to, x)
  {
    ReachesMonotone(next, v, s);
  }

  lemma ReachesMonotone(next: Frontier, to: Id, s: real)
    ensures forall v, x :: Reaches(next, v, x) ==> Reaches(next + [(to, s)], v, x)
    ensures Reaches(next + [(to, s)], to, s)
  {
    var next' := next + [(to, s)];
    forall v, x | Reaches(next, v, x) ensures Reaches(next', v, x) {
      var k :| 0 <= k < |next| && next[k].0 == v && next[k].1 >= x;
      assert next'[k] == next[k];
    }
    assert next'[|next|] == (to, s);
  }

  // ----- Arithmetic of walks.

  lemma {:induction false} DecayedMonotone(x: real, y: real, a: nat, b: nat)
    requires x >= y > 0.0 && a <= b
    ensures Decayed(x, a) >= Decayed(y, b) > 0.0
  {
    if a < b {
      DecayedMonotone(x, y, a, b - 1);
    } else if a > 0 {
      DecayedMonotone(x, y, a - 1, b - 1);
    }
  }

  /** A larger score earlier on is worth at least as much after the same edge. */
  lemma HopMonotone(g: Graph, x: real, y: real, e: Edge, a: nat, b: nat)
    requires x >= y > 0.0 && a <= b
    ensures Hop(g, x, e, a) >= Hop(g, y, e, b) > 0.0
  {
    DecayedMonotone(Weighted(x, e.kind), Weighted(y, e.kind), a, b);
  }

  lemma {:induction false} ScorePositive(g: Graph, direct: map<Id, real>, w: Walk)
    requires Positive(direct) && ValidWalk(g, direct, w)
    ensures Score(g, direct, w) > 0.0
  {
    if w.Step? {
      ScorePositive(g, direct, w.prev);
      var x := Score(g, direct, w.prev);
      HopMonotone(g, x, x, w.edge, w.Hops(), w.Hops());
    }
  }

  /** Reaching the same node earlier with no smaller score, the next hop is no worse either. */
  lemma EarlierIsBetter(g: Graph, direct: map<Id, real>, p: Walk, p': Walk, e: Edge)
    requires Positive(direct)
    requires ValidWalk(g, direct, Step(p, e)) && ValidWalk(g, direct, p')
    requires p'.End() == p.End() && p'.Hops() <= p.Hops() && Score(g, direct, p') >= Score(g, direct, p)
    ensures ValidWalk(g, direct, Step(p', e))
    ensures Score(g, direct, Step(p', e)) >= Score(g, direct, Step(p, e))
  {
    ScorePositive(g, direct, p);
    HopMonotone(g, Score(g, direct, p'), Score(g, direct, p), e, p'.Hops() + 1, p.Hops() + 1);
  }

  lemma InheritMonotone(g: Graph, direct: map<Id, real>, p: Walk, e: Edge, score: real)
    requires Positive(direct) && ValidWalk(g, direct, Step(p, e))
    requires score >= Score(g, direct, p)
    ensures Hop(g, score, e, p.Hops() + 1) >= Score(g, direct, Step(p, e))
  {
    ScorePositive(g, direct, p);
    HopMonotone(g, score, Score(g, direct, p), e, p.Hops() + 1, p.Hops() + 1);
  }

  // ----- A whole round, and the cascade.

  /** Every edge out of every frontier item before `i` has been relaxed. */
  ghost predicate Covered(g: Graph, depth: nat, frontier: Frontier, i: nat, old_: map<Id, (real, RecallPath)>,
                          scores: map<Id, (real, RecallPath)>, next: Frontier)
    requires i <= |frontier|
  {
    forall k, e :: 0 <= k < i && e in g.Neighbors(frontier[k].0) ==>
      Settled(old_, scores, next, e.to, Hop(g, frontier[k].1, e, depth))
  }

  /** The first `n` edges have been relaxed, and what was settled before still is. */
  ghost predicate EdgesRelaxed(g: Graph, depth: nat, score: real, edges: seq<Edge>, n: nat,
                               old_: map<Id, (real, RecallPath)>,
                               scores: map<Id, (real, RecallPath)>, next: Frontier,
                               scores': map<Id, (real, RecallPath)>, next': Frontier)
    requires n <= |edges|
  {
    && KeepsSettled(old_, scores, next, scores', next')
    && forall k :: 0 <= k < n ==> Settled(old_, scores', next', edges[k].to, Hop(g, score, edges[k], depth))
  }

  lemma EdgeRelaxed(g: Graph, depth: nat, score: real, edges: seq<Edge>, n: nat, old_: map<Id, (real, RecallPath)>,
                    scores: map<Id, (real, RecallPath)>, next: Frontier,
                    mid: map<Id, (real, RecallPath)>, midNext: Frontier,
                    scores': map<Id, (real, RecallPath)>, next': Frontier)
    requires n < |edges| && EdgesRelaxed(g, depth, score, edges, n, old_, scores, next, mid, midNext)
    requires KeepsSettled(old_, mid, midNext, scores', next')
    requires Settled(old_, scores', next', edges[n].to, Hop(g, score, edges[n], depth))
    ensures EdgesRelaxed(g, depth, score, edges, n + 1, old_, scores, next, scores', next')
  {
  }

  /** The inner loop: every edge out of one frontier item. */
  method RelaxEdges(g: Graph, ghost direct: map<Id, real>, depth: nat, ghost old_: map<Id, (real, RecallPath)>,
                    ghost w: Walk, id: Id, score: real, scores: map<Id, (real, RecallPath)>, next: Frontier)
    returns (scores': map<Id, (real, RecallPath)>, next': Frontier)
    requires ValidWalk(g, direct, w) && w.End() == id && Score(g, direct, w) == score && w.Hops() + 1 == depth
    requires Relaxing(g, direct, depth, old_, scores, next)
    ensures Relaxing(g, direct, depth, old_, scores', next')
    ensures forall e :: e in g.Neighbors(id) ==> Settled(old_, scores', next', e.to, Hop(g, score, e, depth))
    ensures KeepsSettled(old_, scores, next, scores', next')
  {
    scores', next' := scores, next;
    var edges := g.Neighbors(id);
    for j := 0 to |edges|
      invariant Relaxing(g, direct, depth, old_, scores', next')
      invariant EdgesRelaxed(g, depth, score, edges, j, old_, scores, next, scores', next')
    {
      ghost var mid, midNext := scores', next';
      scores', next' := Relax(g, direct, depth, old_, w, id, score, edges[j], scores', next');
      EdgeRelaxed(g, depth, score, edges, j, old_, scores, next, mid, midNext, scores', next');
    }
  }

  /** The loop over the frontier. */
  method RelaxFrontier(g: Graph, ghost direct: map<Id, real>, depth: nat, frontier: Frontier,
                       scores: map<Id, (real, RecallPath)>)
    returns (scores': map<Id, (real, RecallPath)>, next: Frontier)
    requires depth > 0 && FrontierSound(g, direct, depth - 1, frontier) && AllAttained(g, direct, depth, scores)
    ensures Relaxing(g, direct, depth, scores, scores', next)
    ensures Covered(g, depth, frontier, |frontier|, scores, scores', next)
  {
    scores', next := scores, [];
    for i := 0 to |frontier|
      invariant Relaxing(g, direct, depth, scores, scores', next)
      invariant Covered(g, depth, frontier, i, scores, scores', next)
    {
      var id, score := frontier[i].0, frontier[i].1;
      ghost var w := WalkOfItem(g, direct, depth - 1, frontier, i);
      ghost var before, nextBefore := scores', next;
      scores', next := RelaxEdges(g, direct, depth, scores, w, id, score, scores', next);
      CoveredNext(g, depth, frontier, i, scores, before, nextBefore, scores', next);
    }
  }

  /** One pass of the depth loop. */
  method CascadeRound(g: Graph, ghost direct: map<Id, real>, depth: nat, frontier: Frontier,
                      scores: map<Id, (real, RecallPath)>)
    returns (scores': map<Id, (real, RecallPath)>, next: Frontier)
    requires depth > 0 && Positive(direct)
    requires RoundInvariant(g, direct, depth - 1, frontier, scores)
    ensures RoundInvariant(g, direct, depth, next, scores')
  {
    AttainedWeakens(g, direct, depth - 1, depth, scores);
    scores', next := RelaxFrontier(g, direct, depth, frontier, scores);
    RoundComplete(g, direct, depth, frontier, scores, scores', next);
  }

  lemma WalkOfItem(g: Graph, direct: map<Id, real>, d: nat, frontier: Frontier, i: nat) returns (w: Walk)
    requires i < |frontier| && FrontierSound(g, direct, d, frontier)
    ensures IsItem(g, direct, d, w, frontier[i])
  {
    assert ItemSound(g, direct, d, frontier[i]);
    w :| IsItem(g, direct, d, w, frontier[i]);
  }

  lemma CoveredNext(g: Graph, depth: nat, frontier: Frontier, i: nat, old_: map<Id, (real, RecallPath)>,
                    scores: map<Id, (real, RecallPath)>, next: Frontier,
                    scores': map<Id, (real, RecallPath)>, next': Frontier)
    requires i < |frontier| && Covered(g, depth, frontier, i, old_, scores, next)
    requires KeepsSettled(old_, scores, next, scores', next')
    requires forall e :: e in g.Neighbors(frontier[i].0) ==>
               Settled(old_, scores', next', e.to, Hop(g, frontier[i].1, e, depth))
    ensures Covered(g, depth, frontier, i + 1, old_, scores', next')
  {
  }

  lemma AttainedWeakens(g: Graph, direct: map<Id, real>, m: nat, n: nat, scores: map<Id, (real, RecallPath)>)
    requires m <= n && AllAttained(g, direct, m, scores)
    ensures AllAttained(g, direct, n, scores)
  {
  }

  lemma RoundComplete(g: Graph, direct: map<Id, real>, d: nat, frontier: Frontier, old_: map<Id, (real, RecallPath)>,
                      scores: map<Id, (real, RecallPath)>, next: Frontier)
    requires d > 0 && Positive(direct)
    requires RoundInvariant(g, direct, d - 1, frontier, old_)
    requires Relaxing(g, direct, d, old_, scores, next)
    requires Covered(g, d, frontier, |frontier|, old_, scores, next)
    ensures RoundInvariant(g, direct, d, next, scores)
  {
    forall w | ValidWalk(g, direct, w) && w.Hops() == d
      ensures w.End() in scores && Score(g, direct, w) <= scores[w.End()].0
      ensures Reaches(next, w.End(), Score(g, direct, w)) || Shorter(g, direct, d, w.End(), Score(g, direct, w))
    {
      WalkCovered(g, direct, d, frontier, old_, scores, next, w);
    }
    forall w | ValidWalk(g, direct, w) && w.Hops() <= d
      ensures w.End() in scores && Score(g, direct, w) <= scores[w.End()].0
    {
      if w.Hops() < d {
        assert w.End() in old_ && Score(g, direct, w) <= old_[w.End()].0;
      }
    }
  }

  lemma WalkCovered(g: Graph, direct: map<Id, real>, d: nat, frontier: Frontier, old_: map<Id, (real, RecallPath)>,
                    scores: map<Id, (real, RecallPath)>, next: Frontier, w: Walk)
    requires d > 0 && Positive(direct)
    requires RoundInvariant(g, direct, d - 1, frontier, old_)
    requires forall v :: v in old_ ==> v in scores && scores[v].0 >= old_[v].0
    requires Covered(g, d, frontier, |frontier|, old_, scores, next)
    requires ValidWalk(g, direct, w) && w.Hops() == d
    ensures w.End() in scores && Score(g, direct, w) <= scores[w.End()].0
    ensures Reaches(next, w.End(), Score(g, direct, w)) || Shorter(g, direct, d, w.End(), Score(g, direct, w))
  {
    var p, e := w.prev, w.edge;
    if Reaches(frontier, p.End(), Score(g, direct, p)) {
      CoveredByFrontier(g, direct, d, frontier, old_, scores, next, p, e);
    } else {
      assert Shorter(g, direct, d - 1, p.End(), Score(g, direct, p));
      CoveredByShorter(g, direct, d, old_, p, e);
    }
  }

  lemma CoveredByFrontier(g: Graph, direct: map<Id, real>, d: nat, frontier: Frontier,
                          old_: map<Id, (real, RecallPath)>, scores: map<Id, (real, RecallPath)>, next: Frontier,
                          p: Walk, e: Edge)
    requires d > 0 && Positive(direct) && AllAttained(g, direct, d - 1, old_)
    requires Covered(g, d, frontier, |frontier|, old_, scores, next)
    requires ValidWalk(g, direct, Step(p, e)) && p.Hops() + 1 == d
    requires Reaches(frontier, p.End(), Score(g, direct, p))
    ensures e.to in scores && Score(g, direct, Step(p, e)) <= scores[e.to].0
    ensures Reaches(next, e.to, Score(g, direct, Step(p, e))) ||
            Shorter(g, direct, d, e.to, Score(g, direct, Step(p, e)))
  {
    var k :| 0 <= k < |frontier| && frontier[k].0 == p.End() && frontier[k].1 >= Score(g, direct, p);
    var inherit := Hop(g, frontier[k].1, e, d);
    assert Settled(old_, scores, next, e.to, inherit);
    InheritMonotone(g, direct, p, e, frontier[k].1);
    SettledSplits(g, direct, d, old_, scores, next, e.to, inherit, Score(g, direct, Step(p, e)));
  }

  lemma CoveredByShorter(g: Graph, direct: map<Id, real>, d: nat, old_: map<Id, (real, RecallPath)>, p: Walk, e: Edge)
    requires d > 0 && Positive(direct) && Dominates(g, direct, d - 1, old_)
    requires ValidWalk(g, direct, Step(p, e)) && p.Hops() + 1 == d
    requires Shorter(g, direct, d - 1, p.End(), Score(g, direct, p))
    ensures e.to in old_ && Score(g, direct, Step(p, e)) <= old_[e.to].0
    ensures Shorter(g, direct, d, e.to, Score(g, direct, Step(p, e)))
  {
    var p' :| ValidWalk(g, direct, p') && p'.Hops() < d - 1 && p'.End() == p.End() &&
              Score(g, direct, p') >= Score(g, direct, p);
    EarlierIsBetter(g, direct, p, p', e);
    var w' := Step(p', e);
    assert ValidWalk(g, direct, w') && w'.Hops() <= d - 1 && w'.End() == e.to;
  }

  lemma SettledSplits(g: Graph, direct: map<Id, real>, d: nat, old_: map<Id, (real, RecallPath)>,
                      scores: map<Id, (real, RecallPath)>, next: Frontier, to: Id, inherit: real, s: real)
    requires d > 0 && AllAttained(g, direct, d - 1, old_)
    requires Settled(old_, scores, next, to, inherit) && inherit >= s
    ensures Reaches(next, to, s) || Shorter(g, direct, d, to, s)
  {
  }

  /** The direct hits in some order. */
  method Listed(direct: map<Id, real>) returns (items: Frontier)
    ensures forall k :: 0 <= k < |items| ==> items[k].0 in direct && direct[items[k].0] == items[k].1
    ensures forall id :: id in direct ==> exists k :: 0 <= k < |items| && items[k] == (id, direct[id])
  {
    items := [];
    var todo := direct.Keys;
    while todo != {}
      invariant todo <= direct.Keys
      invariant forall k :: 0 <= k < |items| ==> items[k].0 in direct && direct[items[k].0] == items[k].1
      invariant forall id :: id in direct.Keys - todo ==>
                  exists k :: 0 <= k < |items| && items[k] == (id, direct[id])
      decreases todo
    {
      var id :| id in todo;
      ghost var before := items;
      items := items + [(id, direct[id])];
      todo := todo - {id};
      forall v | v in direct.Keys - todo
        ensures exists k :: 0 <= k < |items| && items[k] == (v, direct[v])
      {
        if v == id {
          assert items[|before|] == (v, direct[v]);
        } else {
          var k :| 0 <= k < |before| && before[k] == (v, direct[v]);
          assert items[k] == (v, direct[v]);
        }
      }
    }
  }

  /** Two hops at most, stopping early when a round improves nothing. */
  method Cascade(g: Graph, direct: map<Id, real>) returns (scores: map<Id, (real, RecallPath)>)
    requires Positive(direct)
    ensures BestScores(g, direct, MAX_DEPTH, scores)
  {
    scores := map id | id in direct :: (direct[id], Direct);
    var frontier := Listed(direct);
    CascadeStarts(g, direct, frontier, scores);
    var depth: nat := 0;
    while depth < MAX_DEPTH
      invariant depth <= MAX_DEPTH
      invariant RoundInvariant(g, direct, depth, frontier, scores)
    {
      depth := depth + 1;
      var next;
      scores, next := CascadeRound(g, direct, depth, frontier, scores);
      if next == [] {
        NothingLeft(g, direct, depth, MAX_DEPTH, scores);
        break;
      }
      frontier := next;
    }
  }

  lemma CascadeStarts(g: Graph, direct: map<Id, real>, frontier: Frontier, scores: map<Id, (real, RecallPath)>)
    requires scores == map id | id in direct :: (direct[id], Direct)
    requires forall k :: 0 <= k < |frontier| ==> frontier[k].0 in direct && direct[frontier[k].0] == frontier[k].1
    requires forall id :: id in direct ==> exists k :: 0 <= k < |frontier| && frontier[k] == (id, direct[id])
    ensures RoundInvariant(g, direct, 0, frontier, scores)
  {
    forall v | v in scores ensures Attained(g, direct, 0, v, scores[v]) {
      assert ValidWalk(g, direct, Start(v)) && Start(v).Hops() == 0;
    }
    forall k | 0 <= k < |frontier| ensures ItemSound(g, direct, 0, frontier[k]) {
      assert IsItem(g, direct, 0, Start(frontier[k].0), frontier[k]);
    }
    forall w | ValidWalk(g, direct, w) && w.Hops() == 0
      ensures Reaches(frontier, w.End(), Score(g, direct, w))
    {
      var k :| 0 <= k < |frontier| && frontier[k] == (w.id, direct[w.id]);
    }
    assert forall w :: ValidWalk(g, direct, w) && w.Hops() == 0 ==> w.Start?;
  }

  /** With an empty frontier every longer walk is beaten by a shorter one, so further rounds change nothing. */
  lemma NothingLeft(g: Graph, direct: map<Id, real>, d: nat, n: nat, scores: map<Id, (real, RecallPath)>)
    requires Positive(direct) && d <= n
    requires RoundInvariant(g, direct, d, [], scores)
    ensures BestScores(g, direct, n, scores)
  {
    AttainedWeakens(g, direct, d, n, scores);
    forall w | ValidWalk(g, direct, w) && w.Hops() <= n
      ensures w.End() in scores && Score(g, direct, w) <= scores[w.End()].0
    {
      var w' := Shorten(g, direct, d, w);
    }
  }

  lemma {:induction false} Shorten(g: Graph, direct: map<Id, real>, d: nat, w: Walk) returns (w': Walk)
    requires Positive(direct) && FrontierComplete(g, direct, d, []) && ValidWalk(g, direct, w)
    ensures ValidWalk(g, direct, w') && w'.Hops() <= d && w'.Hops() <= w.Hops()
    ensures w'.End() == w.End() && Score(g, direct, w') >= Score(g, direct, w)
    decreases w
  {
    if w.Hops() <= d {
      w' := w;
    } else {
      var p := Shorten(g, direct, d, w.prev);
      if p.Hops() == d {
        assert !Reaches([], p.End(), Score(g, direct, p));
        p :| ValidWalk(g, direct, p) && p.Hops() < d && p.End() == w.prev.End() &&
             Score(g, direct, p) >= Score(g, direct, w.prev);
      }
      EarlierIsBetter(g, direct, w.prev, p, w.edge);
      w' := Step(p, w.edge);
    }
  }

  // ----- Consequences of being the maximum.

  /** The scores do not depend on the order of visits, and a direct score is never lowered. */
  lemma BestScoresUnique(g: Graph, direct: map<Id, real>, n: nat,
                         a: map<Id, (real, RecallPath)>, b: map<Id, (real, RecallPath)>)
    requires BestScores(g, direct, n, a) && BestScores(g, direct, n, b)
    ensures a.Keys == b.Keys && forall v :: v in a ==> a[v].0 == b[v].0
    ensures forall v :: v in direct ==> v in a && a[v].0 >= direct[v]
  {
    forall v | v in a ensures v in b && a[v].0 <= b[v].0 {
      assert Attained(g, direct, n, v, a[v]);
    }
    forall v | v in b ensures v in a && b[v].0 <= a[v].0 {
      assert Attained(g, direct, n, v, b[v]);
    }
    forall v | v in direct ensures v in a && a[v].0 >= direct[v] {
      assert ValidWalk(g, direct, Start(v)) && Start(v).Hops() == 0;
    }
  }

  // ----- The scores in plain numbers.

  /** What an edge is worth on hop 1 or 2 into a live (or unknown) entry: weight times 0.7 per depth. */
  function LiveFactor(kind: EdgeKind, hop: nat): real {
    match kind
    case SharedTag(_) => if hop == 1 then 0.56 else 0.392
    case Supersedes => if hop == 1 then 0.63 else 0.441
    case Contradicts => if hop == 1 then 0.21 else 0.147
  }

  /** The score `y` is what `x` hands over `e`; half of it goes into a stored entry that is not active. */
  ghost predicate HandsOver(g: Graph, x: real, e: Edge, hop: nat, y: real) {
    if e.to in g.memories && !g.memories[e.to].active
    then y == LiveFactor(e.kind, hop) * x / 2.0 else y == LiveFactor(e.kind, hop) * x
  }

  ghost predicate OfferedDirectly(direct: map<Id, real>, v: Id, s: real) {
    v in direct && s == direct[v]
  }

  ghost predicate OfferedInOne(g: Graph, direct: map<Id, real>, a: Id, e: Edge, s: real) {
    a in direct && e in g.Neighbors(a) && HandsOver(g, direct[a], e, 1, s)
  }

  ghost predicate OfferedInTwo(g: Graph, direct: map<Id, real>, a: Id, e: Edge, y: real, f: Edge, s: real) {
    OfferedInOne(g, direct, a, e, y) && f in g.Neighbors(e.to) && HandsOver(g, y, f, 2, s)
  }

  ghost predicate Offered(g: Graph, direct: map<Id, real>, v: Id, s: real) {
    || OfferedDirectly(direct, v, s)
    || (exists a, e :: OfferedInOne(g, direct, a, e, s) && e.to == v)
    || (exists a, e, y, f :: OfferedInTwo(g, direct, a, e, y, f, s) && f.to == v)
  }

  lemma HopInNumbers(g: Graph, x: real, e: Edge)
    ensures HandsOver(g, x, e, 1, Hop(g, x, e, 1)) && HandsOver(g, x, e, 2, Hop(g, x, e, 2))
  {
    var y := Weighted(x, e.kind);
    assert Decayed(y, 1) == 0.7 * Decayed(y, 0);
    assert Decayed(y, 2) == 0.7 * Decayed(y, 1);
  }

  lemma OneIsWalk(g: Graph, direct: map<Id, real>, a: Id, e: Edge, s: real) returns (w: Walk)
    requires OfferedInOne(g, direct, a, e, s)
    ensures ValidWalk(g, direct, w) && w.Hops() == 1 && w.End() == e.to && Score(g, direct, w) == s
  {
    HopInNumbers(g, direct[a], e);
    w := Step(Start(a), e);
    assert ValidWalk(g, direct, w.prev) && w.prev.End() == a && Score(g, direct, w.prev) == direct[a];
  }

  /** What is offered is offered by a walk of at most two hops. */
  lemma OfferIsWalk(g: Graph, direct: map<Id, real>, v: Id, s: real) returns (w: Walk)
    requires Offered(g, direct, v, s)
    ensures ValidWalk(g, direct, w) && w.Hops() <= 2 && w.End() == v && Score(g, direct, w) == s
  {
    if OfferedDirectly(direct, v, s) {
      w := Start(v);
    } else if a, e :| OfferedInOne(g, direct, a, e, s) && e.to == v {
      w := OneIsWalk(g, direct, a, e, s);
    } else {
      var a, e, y, f :| OfferedInTwo(g, direct, a, e, y, f, s) && f.to == v;
      var p := OneIsWalk(g, direct, a, e, y);
      HopInNumbers(g, y, f);
      w := Step(p, f);
    }
  }

  lemma WalkIsOffer(g: Graph, direct: map<Id, real>, w: Walk)
    requires ValidWalk(g, direct, w) && w.Hops() <= 2
    ensures Offered(g, direct, w.End(), Score(g, direct, w))
  {
    match w
    case Start(_) =>
    case Step(p, f) =>
      HopInNumbers(g, Score(g, direct, p), f);
      match p
      case Start(a) =>
        assert OfferedInOne(g, direct, a, f, Score(g, direct, w));
      case Step(q, e) =>
        HopInNumbers(g, Score(g, direct, q), e);
        assert OfferedInTwo(g, direct, q.id, e, Score(g, direct, p), f, Score(g, direct, w));
  }

  lemma OfferIsMet(g: Graph, direct: map<Id, real>, scores: map<Id, (real, RecallPath)>, v: Id, s: real)
    requires BestScores(g, direct, MAX_DEPTH, scores) && Offered(g, direct, v, s)
    ensures v in scores && s <= scores[v].0
  {
    var w := OfferIsWalk(g, direct, v, s);
  }

  lemma ScoreIsOffered(g: Graph, direct: map<Id, real>, scores: map<Id, (real, RecallPath)>, v: Id)
    requires BestScores(g, direct, MAX_DEPTH, scores) && v in scores
    ensures Offered(g, direct, v, scores[v].0)
  {
    var w :| ValidWalk(g, direct, w) && w.Hops() <= MAX_DEPTH && w.End() == v && Score(g, direct, w) == scores[v].0;
    WalkIsOffer(g, direct, w);
  }

  /**
   The recorded scores in numbers: each is the highest offer, and nothing but these offers is made.  A direct hit offers
   its own score, one edge 0.56, 0.63 or 0.21 of it, two edges that times 0.392, 0.441 or 0.147, and every edge into a
   stored entry that is not active half of that.
   */
  lemma ScoresAreHighestOffers(g: Graph, direct: map<Id, real>, scores: map<Id, (real, RecallPath)>)
    requires BestScores(g, direct, MAX_DEPTH, scores)
    ensures forall v, s :: Offered(g, direct, v, s) ==> v in scores && s <= scores[v].0
    ensures forall v :: v in scores ==> Offered(g, direct, v, scores[v].0)
  {
    forall v, s | Offered(g, direct, v, s) ensures v in scores && s <= scores[v].0 {
      OfferIsMet(g, direct, scores, v, s);
    }
    forall v | v in scores ensures Offered(g, direct, v, scores[v].0) {
      ScoreIsOffered(g, direct, scores, v);
    }
  }

  // ----- The returned slice.

  datatype RecallHit = RecallHit(id: Id, score: real, via: RecallPath, text: string)

  /** Higher score first, smaller id among equals. */
  predicate RankedBefore(a: RecallHit, b: RecallHit) {
    a.score > b.score || (a.score == b.score && a.id < b.id)
  }

  predicate RankLe(a: RecallHit, b: RecallHit) {
    a.score > b.score || (a.score == b.score && a.id <= b.id)
  }

  function HitOf(g: Graph, scores: map<Id, (real, RecallPath)>, id: Id): RecallHit
    requires id in scores && id in g.memories
  {
    RecallHit(id, scores[id].0, scores[id].1, g.memories[id].text)
  }

  /**
   `hits` are the `k` best ranked stored entries that carry a score, each with its score, path and text: higher scores
   first, smaller ids among equals, and no entry left out ranks before one that is returned.
   */
  ghost predicate TopHits(g: Graph, scores: map<Id, (real, RecallPath)>, k: nat, hits: seq<RecallHit>) {
    && |hits| <= k
    && (forall i, j :: 0 <= i < j < |hits| ==>
          hits[i].score > hits[j].score || (hits[i].score == hits[j].score && hits[i].id < hits[j].id))
    && (forall h :: h in hits ==>
          h.id in scores && (h.score, h.via) == scores[h.id] && h.id in g.memories && h.text == g.memories[h.id].text)
    && (forall id :: id in scores && id in g.memories && LeftOut(hits, id) ==>
          |hits| == k &&
          forall h :: h in hits ==> h.score > scores[id].0 || (h.score == scores[id].0 && h.id < id))
  }

  ghost predicate LeftOut(hits: seq<RecallHit>, id: Id) {
    forall h :: h in hits ==> h.id != id
  }

  /** The filtered scores in some order. */
  method ScoredHits(g: Graph, scores: map<Id, (real, RecallPath)>) returns (items: seq<RecallHit>)
    ensures forall h :: h in items <==> h.id in scores && h.id in g.memories && h == HitOf(g, scores, h.id)
    ensures forall i, j :: 0 <= i < j < |items| ==> items[i].id != items[j].id
  {
    items := [];
    var todo := scores.Keys;
    while todo != {}
      invariant todo <= scores.Keys
      invariant forall h :: h in items <==>
                  h.id in scores.Keys - todo && h.id in g.memories && h == HitOf(g, scores, h.id)
      invariant forall i, j :: 0 <= i < j < |items| ==> items[i].id != items[j].id
      decreases todo
    {
      var id :| id in todo;
      todo := todo - {id};
      if id in g.memories {
        items := items + [HitOf(g, scores, id)];
      }
    }
  }

  /** `recall` after scoring: cascade, drop unknown ids, sort, keep the first `k`. */
  method TopK(g: Graph, direct: map<Id, real>, k: nat)
    returns (hits: seq<RecallHit>, ghost scores: map<Id, (real, RecallPath)>)
    requires Positive(direct)
    ensures BestScores(g, direct, MAX_DEPTH, scores)
    ensures TopHits(g, scores, k, hits)
  {
    var final := Cascade(g, direct);
    scores := final;
    var items := ScoredHits(g, final);
    var sorted := SortBy(items, RankLe);
    SortBySorted(items, RankLe);
    SortKeepsDistinct(items, RankLe, (h: RecallHit) => h.id);
    forall h ensures h in sorted <==> h in items {
      SameElements(items, RankLe, h);
    }
    hits := if |sorted| <= k then sorted else sorted[..k];
    SliceIsTop(g, final, k, sorted);
  }

  lemma SliceIsTop(g: Graph, scores: map<Id, (real, RecallPath)>, k: nat, sorted: seq<RecallHit>)
    requires forall h :: h in sorted <==> h.id in scores && h.id in g.memories && h == HitOf(g, scores, h.id)
    requires Sorted(sorted, RankLe)
    requires forall i, j :: 0 <= i < j < |sorted| ==> sorted[i].id != sorted[j].id
    ensures TopHits(g, scores, k, if |sorted| <= k then sorted else sorted[..k])
  {
    var hits := if |sorted| <= k then sorted else sorted[..k];
    forall id | id in scores && id in g.memories && LeftOut(hits, id)
      ensures |hits| == k && forall h :: h in hits ==> RankedBefore(h, HitOf(g, scores, id))
    {
      assert HitOf(g, scores, id) in sorted;
      LeftOutIsBehind(sorted, k, HitOf(g, scores, id));
    }
  }

  lemma LeftOutIsBehind(sorted: seq<RecallHit>, k: nat, hit: RecallHit)
    requires Sorted(sorted, RankLe) && hit in sorted
    requires forall i, j :: 0 <= i < j < |sorted| ==> sorted[i].id != sorted[j].id
    requires LeftOut(if |sorted| <= k then sorted else sorted[..k], hit.id)
    ensures |sorted| > k && forall h :: h in sorted[..k] ==> RankedBefore(h, hit)
  {
    var j :| 0 <= j < |sorted| && sorted[j] == hit;
  }

  /** Three entries, the last one dead, that share a tag and nothing else. */
  ghost predicate Triangle(g: Graph, tag: string, a: Id, b: Id, c: Id) {
    && a != b && b != c && a != c && {a, b, c} <= g.memories.Keys
    && g.memories[a].active && g.memories[b].active && !g.memories[c].active
    && forall v :: v in {a, b, c} ==>
         forall e :: e in g.Neighbors(v) <==> e.kind == SharedTag(tag) && e.to in {a, b, c} && e.to != v
  }

  /**
   Three entries under one tag, of which the first is hit directly, the second is live and the third is dead: the live
   one is recalled at 0.56 of the hit, the dead one at 0.28, and a slice of two leaves the dead one out.
   */
  lemma DeadRanksBehindLivePeer(g: Graph, tag: string, a: Id, b: Id, c: Id, x: real,
                                scores: map<Id, (real, RecallPath)>, hits: seq<RecallHit>)
    requires x > 0.0 && Triangle(g, tag, a, b, c)
    requires BestScores(g, map[a := x], MAX_DEPTH, scores) && TopHits(g, scores, 2, hits)
    ensures scores.Keys == {a, b, c}
    ensures scores[a].0 == x && scores[b].0 == 0.56 * x && scores[c].0 == 0.28 * x
    ensures |hits| == 2 && hits[0].id == a && hits[1].id == b
  {
    TriangleScores(g, tag, a, b, c, x, scores);
    TriangleHits(g, a, b, c, x, scores, hits);
  }

  lemma TriangleScores(g: Graph, tag: string, a: Id, b: Id, c: Id, x: real, scores: map<Id, (real, RecallPath)>)
    requires x > 0.0 && Triangle(g, tag, a, b, c) && BestScores(g, map[a := x], MAX_DEPTH, scores)
    ensures scores.Keys == {a, b, c}
    ensures scores[a].0 == x && scores[b].0 == 0.56 * x && scores[c].0 == 0.28 * x
  {
    var direct := map[a := x];
    TriangleOffers(g, tag, a, b, c, x);
    OfferIsMet(g, direct, scores, a, x);
    OfferIsMet(g, direct, scores, b, 0.56 * x);
    OfferIsMet(g, direct, scores, c, 0.28 * x);
    forall v | v in scores ensures v in {a, b, c} && scores[v].0 <= Bound(a, b, x, v) {
      ScoreIsOffered(g, direct, scores, v);
      TriangleBound(g, tag, a, b, c, x, v, scores[v].0);
    }
  }

  function Bound(a: Id, b: Id, x: real, v: Id): real {
    if v == a then x else if v == b then 0.56 * x else 0.28 * x
  }

  lemma TriangleOffers(g: Graph, tag: string, a: Id, b: Id, c: Id, x: real)
    requires Triangle(g, tag, a, b, c)
    ensures var direct := map[a := x];
            Offered(g, direct, a, x) && Offered(g, direct, b, 0.56 * x) && Offered(g, direct, c, 0.28 * x)
  {
    var direct := map[a := x];
    var toB, toC := Edge(b, SharedTag(tag)), Edge(c, SharedTag(tag));
    assert OfferedInOne(g, direct, a, toB, 0.56 * x);
    assert OfferedInOne(g, direct, a, toC, 0.28 * x);
  }

  lemma TriangleBound(g: Graph, tag: string, a: Id, b: Id, c: Id, x: real, v: Id, s: real)
    requires x > 0.0 && Triangle(g, tag, a, b, c) && Offered(g, map[a := x], v, s)
    ensures v in {a, b, c} && s <= Bound(a, b, x, v)
  {
    var direct := map[a := x];
    if a', e, y, f :| OfferedInTwo(g, direct, a', e, y, f, s) && f.to == v {
      assert e.to in {b, c} && f.to in {a, b, c};
      assert 0.0 < y <= 0.56 * x;
    }
  }

  lemma TriangleHits(g: Graph, a: Id, b: Id, c: Id, x: real, scores: map<Id, (real, RecallPath)>, hits: seq<RecallHit>)
    requires x > 0.0 && a != b && b != c && a != c && {a, b, c} <= g.memories.Keys && scores.Keys == {a, b, c}
    requires scores[a].0 == x && scores[b].0 == 0.56 * x && scores[c].0 == 0.28 * x
    requires TopHits(g, scores, 2, hits)
    ensures |hits| == 2 && hits[0].id == a && hits[1].id == b
  {
    assert forall i :: 0 <= i < |hits| ==> hits[i] in hits;
  }

  /** Whatever the orders of visits, two calls return the same entries with the same scores in the same order. */
  lemma RecallDeterministic(g: Graph, direct: map<Id, real>, k: nat,
                            a: map<Id, (real, RecallPath)>, b: map<Id, (real, RecallPath)>,
                            hitsA: seq<RecallHit>, hitsB: seq<RecallHit>)
    requires BestScores(g, direct, MAX_DEPTH, a) && BestScores(g, direct, MAX_DEPTH, b)
    requires TopHits(g, a, k, hitsA) && TopHits(g, b, k, hitsB)
    ensures |hitsA| == |hitsB|
    ensures forall i :: 0 <= i < |hitsA| ==>
              hitsA[i].id == hitsB[i].id && hitsA[i].score == hitsB[i].score && hitsA[i].text == hitsB[i].text
  {
    BestScoresUnique(g, direct, MAX_DEPTH, a, b);
    SamePrefix(g, a, b, k, hitsA, hitsB, |hitsA|);
    SamePrefix(g, b, a, k, hitsB, hitsA, |hitsB|);
  }

  ghost predicate SameScores(a: map<Id, (real, RecallPath)>, b: map<Id, (real, RecallPath)>) {
    a.Keys == b.Keys && forall v :: v in a ==> a[v].0 == b[v].0
  }

  lemma {:induction false} SamePrefix(g: Graph, a: map<Id, (real, RecallPath)>, b: map<Id, (real, RecallPath)>, k: nat,
                                      hitsA: seq<RecallHit>, hitsB: seq<RecallHit>, n: nat)
    requires SameScores(a, b) && TopHits(g, a, k, hitsA) && TopHits(g, b, k, hitsB)
    requires n <= |hitsA|
    ensures n <= |hitsB|
    ensures forall i :: 0 <= i < n ==>
              hitsA[i].id == hitsB[i].id && hitsA[i].score == hitsB[i].score && hitsA[i].text == hitsB[i].text
  {
    if n > 0 {
      var m := n - 1;
      SamePrefix(g, a, b, k, hitsA, hitsB, m);
      NotBehind(g, a, b, k, hitsA, hitsB, m);
      NotBehind(g, b, a, k, hitsB, hitsA, m);
    }
  }

  /** After equal prefixes, the next hit of the first list does not rank before the next one of the second. */
  lemma NotBehind(g: Graph, a: map<Id, (real, RecallPath)>, b: map<Id, (real, RecallPath)>, k: nat,
                  hitsA: seq<RecallHit>, hitsB: seq<RecallHit>, m: nat)
    requires SameScores(a, b) && TopHits(g, a, k, hitsA) && TopHits(g, b, k, hitsB)
    requires m < |hitsA| && m <= |hitsB|
    requires forall i :: 0 <= i < m ==> hitsA[i].id == hitsB[i].id && hitsA[i].score == hitsB[i].score
    ensures m < |hitsB| && !RankedBefore(hitsA[m], hitsB[m])
    ensures hitsB[m].id in g.memories && hitsB[m].text == g.memories[hitsB[m].id].text
  {
  }

}
