/** The memoised predicate `cache_true_of` and the frontier `search` built on it. */
module HierarchySearch {
  import opened Elements
  import opened Sequences
  import opened Digraph

  /** The raw predicate, bounded by the possibilities if there are any. */
  ghost predicate Base(poss: Option<set<nat>>, trueOf: nat -> bool, v: nat) {
    (poss.None? || v in poss.value) && trueOf(v)
  }

  /** What `cache_true_of` decides: the predicate holds here and at everything
      reachable through predecessors. */
  ghost predicate Holds(pred: Graph<nat>, poss: Option<set<nat>>, trueOf: nat -> bool, u: nat) {
    forall v: nat {:trigger Reach(pred, u, v)} :: Reach(pred, u, v) ==> Base(poss, trueOf, v)
  }

  lemma HoldsStep(pred: Graph<nat>, poss: Option<set<nat>>, trueOf: nat -> bool, u: nat)
    ensures Holds(pred, poss, trueOf, u) <==>
      Base(poss, trueOf, u) && forall v: nat :: v in Succ(pred, u) ==> Holds(pred, poss, trueOf, v)
  {
    if Holds(pred, poss, trueOf, u) {
      ReachRefl(pred, u);
      forall v: nat, w: nat | v in Succ(pred, u) && Reach(pred, v, w) ensures Base(poss, trueOf, w) {
        ReachStep(pred, u, v, w);
      }
    } else {
      var w: nat :| Reach(pred, u, w) && !Base(poss, trueOf, w);
      if w != u {
        var v := ReachFirst(pred, u, w);
        assert !Holds(pred, poss, trueOf, v);
      }
    }
  }

  /** No vertex reaches itself through an edge. */
  ghost predicate Loopless(g: Graph<nat>) {
    forall n: nat, m: nat {:trigger m in Succ(g, n)} :: m in Succ(g, n) ==> !Reach(g, m, n)
  }

  /** The vertices of `U` reachable from `u`. */
  ghost function Reached(g: Graph<nat>, U: set<nat>, u: nat): set<nat> {
    set v | v in U && Reach(g, u, v)
  }

  lemma ReachedShrinks(g: Graph<nat>, U: set<nat>, u: nat, v: nat)
    requires Loopless(g) && u in U && v in Succ(g, u)
    ensures Reached(g, U, v) < Reached(g, U, u) && u !in Reached(g, U, v)
  {
    forall w | w in Reached(g, U, v) ensures w in Reached(g, U, u) {
      ReachStep(g, u, v, w);
    }
    ReachRefl(g, u);
    assert u in Reached(g, U, u);
  }

  /** `u` is a possibility and all its predecessors hold, so that only the raw
      predicate is left to decide `u`. */
  ghost predicate Evaluable(pred: Graph<nat>, poss: Option<set<nat>>, trueOf: nat -> bool, u: nat) {
    (poss.None? || u in poss.value) && forall v: nat :: v in Succ(pred, u) ==> Holds(pred, poss, trueOf, v)
  }

  /** The raw predicate is consulted here and nowhere else. */
  method Evaluate(trueOf: nat -> bool, u: nat, ghost log: seq<nat>) returns (r: bool, ghost log': seq<nat>)
    ensures r == trueOf(u) && log' == log + [u]
  {
    r, log' := trueOf(u), log + [u];
  }

  /** The memo sets are right; `log`, the evaluations in order, lists exactly the
      decided vertices that only the predicate could decide, each once. */
  ghost predicate MemoOk(pred: Graph<nat>, poss: Option<set<nat>>, trueOf: nat -> bool, positives: set<nat>, negatives: set<nat>, log: seq<nat>) {
    && (forall u: nat :: u in positives ==> Holds(pred, poss, trueOf, u))
    && (forall u: nat :: u in negatives ==> !Holds(pred, poss, trueOf, u))
    && Distinct(log)
    && (forall u: nat :: u in log <==> (u in positives || u in negatives) && Evaluable(pred, poss, trueOf, u))
  }

  lemma HoldsIff(pred: Graph<nat>, poss: Option<set<nat>>, trueOf: nat -> bool, u: nat)
    ensures Holds(pred, poss, trueOf, u) <==> Evaluable(pred, poss, trueOf, u) && trueOf(u)
  {
    HoldsStep(pred, poss, trueOf, u);
  }

  lemma MemoSays(pred: Graph<nat>, poss: Option<set<nat>>, trueOf: nat -> bool, positives: set<nat>, negatives: set<nat>, log: seq<nat>, u: nat)
    requires MemoOk(pred, poss, trueOf, positives, negatives, log)
    ensures u in positives ==> Holds(pred, poss, trueOf, u)
    ensures u in negatives ==> !Holds(pred, poss, trueOf, u)
    ensures (u in positives || u in negatives) && Evaluable(pred, poss, trueOf, u) ==> u in log
  {
  }

  /** A vertex with a failing predecessor is false without an evaluation. */
  lemma MemoBlocked(pred: Graph<nat>, poss: Option<set<nat>>, trueOf: nat -> bool, positives: set<nat>, negatives: set<nat>, log: seq<nat>, u: nat)
    requires MemoOk(pred, poss, trueOf, positives, negatives, log) && !Evaluable(pred, poss, trueOf, u) && u !in positives
    ensures MemoOk(pred, poss, trueOf, positives, negatives + {u}, log)
  {
    HoldsIff(pred, poss, trueOf, u);
  }

  lemma MemoEvaluated(pred: Graph<nat>, poss: Option<set<nat>>, trueOf: nat -> bool, positives: set<nat>, negatives: set<nat>, log: seq<nat>, u: nat)
    requires MemoOk(pred, poss, trueOf, positives, negatives, log)
    requires Evaluable(pred, poss, trueOf, u) && u !in positives && u !in negatives
    ensures Holds(pred, poss, trueOf, u) <==> trueOf(u)
    ensures trueOf(u) ==> MemoOk(pred, poss, trueOf, positives + {u}, negatives, log + [u])
    ensures !trueOf(u) ==> MemoOk(pred, poss, trueOf, positives, negatives + {u}, log + [u])
  {
    HoldsIff(pred, poss, trueOf, u);
    assert u !in log;
    assert forall i :: 0 <= i < |log| ==> log[i] in log;
    assert Distinct(log + [u]);
    assert forall v: nat :: v in log + [u] <==> v in log || v == u;
  }

  /** `cache_true_of`: decides `Holds`; over the life of the memo the predicate is
      evaluated once at every vertex that needs it and nowhere else. */
  method CacheTrueOf(u: nat, poss: Option<set<nat>>, pred: Graph<nat>, trueOf: nat -> bool, positives: set<nat>, negatives: set<nat>,
                     ghost log: seq<nat>, ghost U: set<nat>)
    returns (r: bool, positives': set<nat>, negatives': set<nat>, ghost log': seq<nat>)
    requires Loopless(pred) && u in U && Closed(pred, U)
    requires MemoOk(pred, poss, trueOf, positives, negatives, log)
    ensures r <==> Holds(pred, poss, trueOf, u)
    ensures MemoOk(pred, poss, trueOf, positives', negatives', log')
    ensures log <= log' && (Evaluable(pred, poss, trueOf, u) ==> u in log')
    ensures positives <= positives' <= positives + Reached(pred, U, u)
    ensures negatives <= negatives' <= negatives + Reached(pred, U, u)
    decreases Reached(pred, U, u)
  {
    hide Holds, Loopless, MemoOk;
    positives', negatives', log' := positives, negatives, log;
    MemoSays(pred, poss, trueOf, positives, negatives, log, u);
    if u in positives {
      HoldsIff(pred, poss, trueOf, u);
      return true, positives, negatives, log;
    }
    if u in negatives || (poss.Some? && u !in poss.value) {
      HoldsIff(pred, poss, trueOf, u);
      return false, positives, negatives, log;
    }
    ReachRefl(pred, u);
    assert u in Reached(pred, U, u);
    var todo := Succ(pred, u);
    while todo != {}
      invariant todo <= Succ(pred, u) && log <= log'
      invariant MemoOk(pred, poss, trueOf, positives', negatives', log')
      invariant forall v: nat :: v in Succ(pred, u) && v !in todo ==> Holds(pred, poss, trueOf, v)
      invariant positives <= positives' <= positives + (Reached(pred, U, u) - {u})
      invariant negatives <= negatives' <= negatives + (Reached(pred, U, u) - {u})
    {
      var v: nat :| v in todo;
      ReachedShrinks(pred, U, u, v);
      var ok;
      ok, positives', negatives', log' := CacheTrueOf(v, poss, pred, trueOf, positives', negatives', log', U);
      if !ok {
        assert !Evaluable(pred, poss, trueOf, u);
        HoldsIff(pred, poss, trueOf, u);
        MemoBlocked(pred, poss, trueOf, positives', negatives', log', u);
        negatives' := negatives' + {u};
        return false, positives', negatives', log';
      }
      todo := todo - {v};
    }
    assert Evaluable(pred, poss, trueOf, u);
    MemoEvaluated(pred, poss, trueOf, positives', negatives', log', u);
    r, log' := Evaluate(trueOf, u, log');
    if r {
      positives' := positives' + {u};
    } else {
      negatives' := negatives' + {u};
    }
  }

  /** `g` restricted to the vertices in `H`. */
  ghost function Within(g: Graph<nat>, H: set<nat>): Graph<nat> {
    map n | n in g && n in H :: g[n] * H
  }

  /** `H` are exactly the vertices of `U` where the predicate holds. */
  ghost predicate Exact(pred: Graph<nat>, poss: Option<set<nat>>, trueOf: nat -> bool, U: set<nat>, H: set<nat>) {
    forall u: nat :: u in H <==> u in U && Holds(pred, poss, trueOf, u)
  }

  ghost predicate FromStart(succ: Graph<nat>, H: set<nat>, start: set<nat>, u: nat) {
    exists s: nat :: s in start && Reach(Within(succ, H), s, u)
  }

  /** `V` is the part of `H` reached from `start` inside `H`. */
  ghost predicate Connected(succ: Graph<nat>, H: set<nat>, V: set<nat>, start: set<nat>) {
    && start <= V <= H
    && (forall u: nat {:trigger u in V} :: u in V ==> Succ(succ, u) * H <= V)
    && forall u: nat {:trigger FromStart(succ, H, start, u)} :: u in V ==> FromStart(succ, H, start, u)
  }

  /** The loop of `search`: finished vertices have all their true successors
      visited and are in `result` iff they have none. */
  ghost predicate SearchInv(succ: Graph<nat>, H: set<nat>, V: set<nat>, start: set<nat>, visited: set<nat>, open: set<nat>, result: set<nat>) {
    && start <= visited <= V && open <= visited
    && (forall u: nat {:trigger u in V} :: u in V ==> Succ(succ, u) * H <= V)
    && (forall u: nat, v: nat {:trigger v in Succ(succ, u)} :: u in visited && u !in open && v in Succ(succ, u) && v in H ==> v in visited)
    && (forall u: nat :: u in result ==> u in visited && Succ(succ, u) * H == {})
    && (forall u: nat :: u in visited && u !in open && Succ(succ, u) * H == {} ==> u in result)
  }

  /** The successors of one vertex. */
  method Expand(current: nat, poss: Option<set<nat>>, succ: Graph<nat>, pred: Graph<nat>, trueOf: nat -> bool,
                positives: set<nat>, negatives: set<nat>, ghost log: seq<nat>, visited: set<nat>, queue: seq<nat>, ghost U: set<nat>, ghost H: set<nat>)
    returns (found: bool, positives': set<nat>, negatives': set<nat>, ghost log': seq<nat>, visited': set<nat>, queue': seq<nat>)
    requires Loopless(pred) && Closed(pred, U) && Succ(succ, current) <= U && Exact(pred, poss, trueOf, U, H)
    requires MemoOk(pred, poss, trueOf, positives, negatives, log)
    ensures MemoOk(pred, poss, trueOf, positives', negatives', log') && log <= log'
    ensures forall v: nat :: v in Succ(succ, current) && Evaluable(pred, poss, trueOf, v) ==> v in log'
    ensures found <==> Succ(succ, current) * H != {}
    ensures visited' == visited + Succ(succ, current) * H
    ensures Elems(queue') == Elems(queue) + (Succ(succ, current) * H - visited)
    ensures visited' == visited ==> queue' == queue
  {
    hide Holds, Loopless, MemoOk, Evaluable;
    found, positives', negatives', log', visited', queue' := false, positives, negatives, log, visited, queue;
    var todo := Succ(succ, current);
    while todo != {}
      invariant todo <= Succ(succ, current)
      invariant MemoOk(pred, poss, trueOf, positives', negatives', log') && log <= log'
      invariant forall v: nat :: v in Succ(succ, current) && v !in todo && Evaluable(pred, poss, trueOf, v) ==> v in log'
      invariant found <==> (Succ(succ, current) - todo) * H != {}
      invariant visited' == visited + (Succ(succ, current) - todo) * H
      invariant Elems(queue') == Elems(queue) + ((Succ(succ, current) - todo) * H - visited)
      invariant visited' == visited ==> queue' == queue
    {
      var sub: nat :| sub in todo;
      var ok;
      ok, positives', negatives', log' := CacheTrueOf(sub, poss, pred, trueOf, positives', negatives', log', U);
      ghost var seen := Succ(succ, current) - todo;
      assert Succ(succ, current) - (todo - {sub}) == seen + {sub};
      if ok {
        assert sub in (seen + {sub}) * H;
        assert (seen + {sub}) * H == seen * H + {sub};
        found := true;
        if sub !in visited' {
          visited' := visited' + {sub};
          ElemsSnoc(queue', sub);
          queue' := queue' + [sub];
        }
      } else {
        assert (seen + {sub}) * H == seen * H;
      }
      todo := todo - {sub};
    }
    assert Succ(succ, current) - {} == Succ(succ, current);
  }

  lemma SearchStep(succ: Graph<nat>, H: set<nat>, V: set<nat>, start: set<nat>, visited: set<nat>, rest: set<nat>, result: set<nat>, current: nat, open: set<nat>)
    requires SearchInv(succ, H, V, start, visited, rest + {current}, result)
    requires open == rest + (Succ(succ, current) * H - visited)
    ensures SearchInv(succ, H, V, start, visited + Succ(succ, current) * H, open,
                      if Succ(succ, current) * H == {} then result + {current} else result)
  {
  }

  lemma VisitedClosed(succ: Graph<nat>, H: set<nat>, V: set<nat>, start: set<nat>, visited: set<nat>, result: set<nat>)
    requires SearchInv(succ, H, V, start, visited, {}, result)
    ensures Closed(Within(succ, H), visited)
  {
    var g := Within(succ, H);
    forall u: nat, v: nat | u in visited && v in Succ(g, u) ensures v in visited {
      assert v in Succ(succ, u);
    }
  }

  lemma SearchDone(succ: Graph<nat>, H: set<nat>, V: set<nat>, start: set<nat>, visited: set<nat>, result: set<nat>)
    requires SearchInv(succ, H, V, start, visited, {}, result) && Connected(succ, H, V, start)
    ensures V == visited && forall u: nat :: u in result <==> u in V && Succ(succ, u) * H == {}
  {
    forall u: nat | u in V ensures u in visited {
      assert FromStart(succ, H, start, u);
      var s: nat :| s in start && Reach(Within(succ, H), s, u);
      assert Closed(Within(succ, H), visited) by {
        VisitedClosed(succ, H, V, start, visited, result);
      }
      ReachClosed(Within(succ, H), visited, s, u);
    }
  }

  /** Every successor of an expanded vertex that needs an evaluation has had it. */
  ghost predicate Consulted(pred: Graph<nat>, poss: Option<set<nat>>, trueOf: nat -> bool, succ: Graph<nat>, expanded: set<nat>, log: seq<nat>) {
    forall u: nat, v: nat {:trigger v in Succ(succ, u)} :: u in expanded && v in Succ(succ, u) && Evaluable(pred, poss, trueOf, v) ==> v in log
  }

  /** The evaluations of a search over `V`: at most one per vertex, only where a
      vertex could not be decided otherwise, and wherever a successor of `V` could not. */
  ghost predicate EvaluatedOnce(pred: Graph<nat>, poss: Option<set<nat>>, trueOf: nat -> bool, succ: Graph<nat>, V: set<nat>, log: seq<nat>) {
    && Distinct(log)
    && (forall u: nat :: u in log ==> Evaluable(pred, poss, trueOf, u))
    && Consulted(pred, poss, trueOf, succ, V, log)
  }

  lemma ConsultedStep(pred: Graph<nat>, poss: Option<set<nat>>, trueOf: nat -> bool, succ: Graph<nat>, expanded: set<nat>, log: seq<nat>, u: nat, log': seq<nat>)
    requires Consulted(pred, poss, trueOf, succ, expanded, log) && log <= log'
    requires forall v: nat :: v in Succ(succ, u) && Evaluable(pred, poss, trueOf, v) ==> v in log'
    ensures Consulted(pred, poss, trueOf, succ, expanded + {u}, log')
  {
    forall x: nat, v: nat | x in expanded && v in Succ(succ, x) && Evaluable(pred, poss, trueOf, v) ensures v in log' {
      assert v in log;
    }
  }

  lemma ConsultedPart(pred: Graph<nat>, poss: Option<set<nat>>, trueOf: nat -> bool, succ: Graph<nat>, expanded: set<nat>, part: set<nat>, log: seq<nat>)
    requires Consulted(pred, poss, trueOf, succ, expanded, log) && part <= expanded
    ensures Consulted(pred, poss, trueOf, succ, part, log)
  {
  }

  /** `search`: the frontier, that is the vertices satisfying the predicate that
      have no satisfying successor; `log` lists the evaluations. */
  method Search(start: seq<nat>, poss: Option<set<nat>>, succ: Graph<nat>, pred: Graph<nat>, trueOf: nat -> bool, ghost U: set<nat>, ghost H: set<nat>, ghost V: set<nat>)
    returns (result: set<nat>, ghost log: seq<nat>)
    requires Loopless(pred) && Closed(pred, U) && Closed(succ, U) && Exact(pred, poss, trueOf, U, H)
    requires Connected(succ, H, V, Elems(start))
    ensures forall u: nat :: u in result <==> u in V && Succ(succ, u) * H == {}
    ensures EvaluatedOnce(pred, poss, trueOf, succ, V, log)
  {
    hide Holds, Loopless, MemoOk, Connected, SearchInv, Elems, Consulted, Evaluable;
    var positives, negatives: set<nat> := {}, {};
    result, log := {}, [];
    SearchStart(poss, succ, pred, trueOf, H, V, start);
    var visited := Elems(start);
    var queue := start;
    ghost var expanded: set<nat> := {};
    ConsultedNone(pred, poss, trueOf, succ);
    while |queue| > 0
      invariant MemoOk(pred, poss, trueOf, positives, negatives, log)
      invariant Consulted(pred, poss, trueOf, succ, expanded, log) && visited <= expanded + Elems(queue)
      invariant SearchInv(succ, H, V, Elems(start), visited, Elems(queue), result)
      decreases U - visited, |queue|
    {
      var current := queue[0];
      ElemsFirst(queue);
      ConnectedWithin(succ, H, V, Elems(start));
      SearchWithin(succ, H, V, Elems(start), visited, Elems(queue), result, U, current);
      ghost var before, rest, earlier := visited, queue[1..], log;
      var found;
      found, positives, negatives, log, visited, queue := Expand(current, poss, succ, pred, trueOf, positives, negatives, log, visited, queue[1..], U, H);
      SearchStep(succ, H, V, Elems(start), before, Elems(rest), result, current, Elems(queue));
      ConsultedStep(pred, poss, trueOf, succ, expanded, earlier, current, log);
      expanded := expanded + {current};
      if !found {
        result := result + {current};
      }
      assert Succ(succ, current) * H <= U;
    }
    ElemsNone(queue);
    SearchDone(succ, H, V, Elems(start), visited, result);
    ConsultedPart(pred, poss, trueOf, succ, expanded, V, log);
    MemoLog(pred, poss, trueOf, positives, negatives, log);
  }

  lemma ConsultedNone(pred: Graph<nat>, poss: Option<set<nat>>, trueOf: nat -> bool, succ: Graph<nat>)
    ensures Consulted(pred, poss, trueOf, succ, {}, [])
  {
  }

  lemma SearchStart(poss: Option<set<nat>>, succ: Graph<nat>, pred: Graph<nat>, trueOf: nat -> bool, H: set<nat>, V: set<nat>, start: seq<nat>)
    requires Connected(succ, H, V, Elems(start))
    ensures MemoOk(pred, poss, trueOf, {}, {}, []) && SearchInv(succ, H, V, Elems(start), Elems(start), Elems(start), {})
  {
  }

  lemma ConnectedWithin(succ: Graph<nat>, H: set<nat>, V: set<nat>, start: set<nat>)
    requires Connected(succ, H, V, start)
    ensures V <= H
  {
  }

  lemma SearchWithin(succ: Graph<nat>, H: set<nat>, V: set<nat>, start: set<nat>, visited: set<nat>, open: set<nat>, result: set<nat>, U: set<nat>, current: nat)
    requires SearchInv(succ, H, V, start, visited, open, result) && Closed(succ, U) && V <= H <= U && current in open
    ensures current in visited && visited <= U && Succ(succ, current) <= U
  {
  }

  lemma MemoLog(pred: Graph<nat>, poss: Option<set<nat>>, trueOf: nat -> bool, positives: set<nat>, negatives: set<nat>, log: seq<nat>)
    requires MemoOk(pred, poss, trueOf, positives, negatives, log)
    ensures Distinct(log) && forall u: nat :: u in log ==> Evaluable(pred, poss, trueOf, u)
  {
  }
}
