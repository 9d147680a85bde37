/** `resolve_picked_isolated`: resolving one element on a worker, against a
    possibly out-of-date snapshot of the known subsumptions. */
module IsolatedResolution {
  import opened Elements
  import opened Sequences
  import opened Digraph
  import opened Hierarchies
  import opened Subsumption
  import opened Resolution

  datatype ResolveTask = ResolveTask(picked: Element, unknown: set<Element>, knownMap: Graph<Element>)

  datatype ResolveDelta = ResolveDelta(picked: Element, newKnowns: set<Element>, prunedLabels: seq<set<Element>>)

  /** The worker's local mirror of the shared graphs, restricted to one element. */
  datatype Resolver = Resolver(known: set<Element>, possible: set<Element>, newKnowns: set<Element>, labels: seq<set<Element>>, tick: nat)

  ghost function AsISet(s: set<Element>): iset<Element> {
    iset x | x in s
  }

  /** What a task may assume: `known` is the known graph at any later time. */
  ghost predicate TaskOk(truth: Graph<Element>, p: Problem, known: Graph<Element>, task: ResolveTask) {
    && task.picked in truth && !Unsat(truth, p, task.picked)
    && task.unknown <= p.elements
    && task.knownMap.Keys <= p.elements && MapWithin(known, task.knownMap)
  }

  /** Everything in the local known set is true and reachable from `e` once the
      new edges are added to the known graph. */
  ghost predicate ResolverOk(truth: Graph<Element>, p: Problem, known: Graph<Element>, e: Element, r: Resolver) {
    && e in truth && r.known <= truth[e] && r.newKnowns <= truth[e]
    && GoodLabels(truth, p, r.labels)
    && (forall x {:trigger x in r.known} :: x in r.known ==> Reach(AddEdges(known, e, r.newKnowns), e, x))
  }

  ghost predicate Grows(r: Resolver, r': Resolver) {
    r.known <= r'.known && r'.possible <= r.possible
  }

  /** `add_known`: record `sup` and close over the snapshot. */
  function AddKnown(knownMap: Graph<Element>, r: Resolver, sup: Element): Resolver {
    r.(known := r.known + {sup} + Succ(knownMap, sup),
       newKnowns := if sup in r.known then r.newKnowns else r.newKnowns + {sup})
  }

  lemma AddKnownOk(truth: Graph<Element>, p: Problem, known: Graph<Element>, knownMap: Graph<Element>, e: Element, r: Resolver, sup: Element)
    requires TruthOk(truth, p) && MapWithin(known, knownMap) && MapSound(truth, knownMap)
    requires ResolverOk(truth, p, known, e, r) && sup in truth[e]
    ensures ResolverOk(truth, p, known, e, AddKnown(knownMap, r, sup))
  {
    var r' := AddKnown(knownMap, r, sup);
    var g, g' := AddEdges(known, e, r.newKnowns), AddEdges(known, e, r'.newKnowns);
    assert truth[sup] <= truth[e];
    assert SubGraph(g, g') && SubGraph(known, g');
    forall x | x in r'.known ensures Reach(g', e, x) {
      if x in r.known {
        ReachMono(g, g', e, x);
      } else {
        if sup in r.known {
          ReachMono(g, g', e, sup);
        } else {
          assert sup in Succ(g', e);
          ReachEdge(g', e, sup);
        }
        if x != sup {
          assert x in Succ(knownMap, sup);
          ReachMono(known, g', sup, x);
          ReachTrans(g', e, sup, x);
        }
      }
    }
  }

  /** Recording the elements among `sups`, in arbitrary order. */
  method AddAllKnown(ghost truth: Graph<Element>, ghost p: Problem, ghost known: Graph<Element>, knownMap: Graph<Element>, ghost e: Element,
                     r: Resolver, sups: set<Element>)
    returns (r': Resolver)
    requires TruthOk(truth, p) && MapWithin(known, knownMap) && MapSound(truth, knownMap)
    requires ResolverOk(truth, p, known, e, r) && sups <= truth[e]
    ensures ResolverOk(truth, p, known, e, r') && r.known + sups <= r'.known
    ensures r'.possible == r.possible && r'.labels == r.labels && r'.tick == r.tick
  {
    r' := r;
    var todo := sups;
    while todo != {}
      invariant todo <= sups && r.known + (sups - todo) <= r'.known
      invariant ResolverOk(truth, p, known, e, r')
      invariant r'.possible == r.possible && r'.labels == r.labels && r'.tick == r.tick
    {
      var sup :| sup in todo;
      AddKnownOk(truth, p, known, knownMap, e, r', sup);
      r' := AddKnown(knownMap, r', sup);
      todo := todo - {sup};
    }
  }

  /** Pruning the local possible set by the labels that contain `e`. */
  method PruneLocal(ghost truth: Graph<Element>, ghost p: Problem, e: Element, possible: set<Element>, labels: seq<set<Element>>)
    returns (r: set<Element>)
    requires GoodLabels(truth, p, labels) && e in truth
    ensures r <= possible
    ensures forall b :: b in possible && b in truth[e] ==> b in r
  {
    r := possible;
    for i := 0 to |labels|
      invariant r <= possible
      invariant forall b :: b in possible && b in truth[e] ==> b in r
    {
      assert GoodLabel(truth, p, labels[i]);
      if e in labels[i] {
        r := r * labels[i];
      }
    }
  }

  /** Deciding one candidate: known, not even possible, or tested by the oracle. */
  method TestCandidate(ghost truth: Graph<Element>, p: Problem, o: Oracle, ghost known: Graph<Element>, knownMap: Graph<Element>,
                       ghost unknown: set<Element>, e: Element, r: Resolver, c: Element)
    returns (subsumes: bool, r': Resolver)
    requires TruthOk(truth, p) && OracleOk(truth, p, o) && MapWithin(known, knownMap) && MapSound(truth, knownMap)
    requires unknown <= p.elements && ResolverOk(truth, p, known, e, r) && !Unsat(truth, p, e)
    requires CandidatesInv(truth, e, unknown, r.possible, AsISet(r.known))
    requires c in unknown || c == p.bottom
    ensures subsumes <==> c in truth[e]
    ensures ResolverOk(truth, p, known, e, r') && Grows(r, r')
    ensures CandidatesInv(truth, e, unknown, r'.possible, AsISet(r'.known))
    ensures r'.tick == r.tick + if c in r.known || c !in r.possible then 0 else 1
  {
    r' := r;
    if c in r.known {
      subsumes := true;
    } else if c !in r.possible {
      subsumes := false;
    } else {
      var answer := o.doesSubsume(r.tick, c, e);
      assert SubsumeOk(truth, p, c, e, answer);
      subsumes := answer.0;
      if answer.1.Some? {
        var readOff := answer.1.value;
        r' := AddAllKnown(truth, p, known, knownMap, e, r', readOff.queryKnown * p.elements);
        if readOff.nodeLabels.Some? {
          var labels := readOff.nodeLabels.value;
          var pruned := PruneLocal(truth, p, e, r'.possible, labels);
          r' := r'.(possible := pruned, labels := r'.labels + labels);
        }
      }
      r' := r'.(possible := r'.possible - r'.known, tick := r'.tick + 1);
    }
  }

  /** One unvisited child: test its representative and confirm the whole node. */
  method VisitChild(ghost truth: Graph<Element>, p: Problem, o: Oracle, ghost known: Graph<Element>, knownMap: Graph<Element>,
                    ghost unknown: set<Element>, e: Element, h: Hierarchy, r: Resolver, ghost current: nat, child: nat,
                    ghost visited: set<nat>, queue: seq<nat>)
    returns (r': Resolver, queue': seq<nat>)
    requires TruthOk(truth, p) && OracleOk(truth, p, o) && MapWithin(known, knownMap) && MapSound(truth, knownMap)
    requires unknown <= p.elements && ResolverOk(truth, p, known, e, r) && !Unsat(truth, p, e)
    requires CandidatesInv(truth, e, unknown, r.possible, AsISet(r.known))
    requires SmallHierarchy(p, unknown, knownMap, h)
    requires child < |h.nodes| && child !in visited
    requires TraversalInv(truth, h, e, visited, Elems(queue) + {current}, AsISet(r.known))
    ensures ResolverOk(truth, p, known, e, r')
    ensures CandidatesInv(truth, e, unknown, r'.possible, AsISet(r'.known))
    ensures TraversalInv(truth, h, e, visited + {child}, Elems(queue') + {current}, AsISet(r'.known))
    ensures queue' == queue || queue' == queue + [child]
    ensures r.known <= r'.known
  {
    hide OracleOk, TruthOk, SmallHierarchy, CandidatesInv, MapWithin, MapSound;
    SmallRepresentative(p, unknown, knownMap, h, child);
    var element := h.nodes[child].representative;
    var subsumes;
    subsumes, r' := TestCandidate(truth, p, o, known, knownMap, unknown, e, r, element);
    queue' := queue;
    if subsumes {
      ghost var before := r'.known;
      var members := h.nodes[child].equivalents;
      MembersSubsume(truth, p, unknown, knownMap, h, e, child);
      r' := AddAllKnown(truth, p, known, knownMap, e, r', {element});
      r' := AddAllKnown(truth, p, known, knownMap, e, r', members);
      CandidatesGrow(truth, e, unknown, r'.possible, AsISet(before), AsISet(r'.known));
      queue' := queue + [child];
    }
    TraversalStep(truth, h, e, visited, Elems(queue) + {current}, AsISet(r.known), child, Elems(queue') + {current}, AsISet(r'.known));
  }

  /** The inner loop of the traversal: the children of one confirmed node. */
  method VisitChildren(ghost truth: Graph<Element>, p: Problem, o: Oracle, ghost known: Graph<Element>, knownMap: Graph<Element>,
                       ghost unknown: set<Element>, e: Element, h: Hierarchy, r: Resolver, current: nat, visited: set<nat>, queue: seq<nat>)
    returns (r': Resolver, visited': set<nat>, queue': seq<nat>)
    requires TruthOk(truth, p) && OracleOk(truth, p, o) && MapWithin(known, knownMap) && MapSound(truth, knownMap)
    requires unknown <= p.elements && ResolverOk(truth, p, known, e, r) && !Unsat(truth, p, e)
    requires CandidatesInv(truth, e, unknown, r.possible, AsISet(r.known))
    requires SmallHierarchy(p, unknown, knownMap, h) && Linked(h.nodes)
    requires current < |h.nodes| && forall i :: 0 <= i < |queue| ==> queue[i] < |h.nodes|
    requires TraversalInv(truth, h, e, visited, Elems(queue) + {current}, AsISet(r.known))
    ensures ResolverOk(truth, p, known, e, r')
    ensures CandidatesInv(truth, e, unknown, r'.possible, AsISet(r'.known))
    ensures TraversalInv(truth, h, e, visited', Elems(queue'), AsISet(r'.known))
    ensures forall i :: 0 <= i < |queue'| ==> queue'[i] < |h.nodes|
    ensures visited <= visited' && (visited' == visited ==> queue' == queue)
    ensures r.known <= r'.known
  {
    hide OracleOk, TruthOk, SmallHierarchy, ResolverOk, CandidatesInv, MapWithin, MapSound;
    r', visited', queue' := r, visited, queue;
    var todo := h.nodes[current].children;
    while todo != {}
      invariant todo <= h.nodes[current].children && h.nodes[current].children - todo <= visited'
      invariant ResolverOk(truth, p, known, e, r')
      invariant CandidatesInv(truth, e, unknown, r'.possible, AsISet(r'.known))
      invariant TraversalInv(truth, h, e, visited', Elems(queue') + {current}, AsISet(r'.known))
      invariant forall i :: 0 <= i < |queue'| ==> queue'[i] < |h.nodes|
      invariant visited <= visited' && (visited' == visited ==> queue' == queue) && r.known <= r'.known
    {
      var child :| child in todo;
      if child !in visited' {
        r', queue' := VisitChild(truth, p, o, known, knownMap, unknown, e, h, r', current, child, visited', queue');
        visited' := visited' + {child};
      }
      todo := todo - {child};
    }
    TraversalClose(truth, h, e, visited', Elems(queue') + {current}, AsISet(r'.known), current);
    TraversalWiden(truth, h, e, visited', Elems(queue') + {current} - {current}, Elems(queue'), AsISet(r'.known));
  }

  ghost function AllNodes(h: Hierarchy): set<nat> {
    Up(h).Keys
  }

  lemma TraverseReady(truth: Graph<Element>, p: Problem, known: Graph<Element>, knownMap: Graph<Element>, unknown: set<Element>, e: Element, h: Hierarchy, r: Resolver)
    requires ResolverOk(truth, p, known, e, r) && SmallHierarchy(p, unknown, knownMap, h)
    ensures Linked(h.nodes) && h.top < |h.nodes| && e in truth
  {
  }

  /** The enhanced traversal from the top node down. */
  method Traverse(ghost truth: Graph<Element>, p: Problem, o: Oracle, ghost known: Graph<Element>, knownMap: Graph<Element>,
                  ghost unknown: set<Element>, e: Element, h: Hierarchy, r: Resolver)
    returns (r': Resolver)
    requires TruthOk(truth, p) && OracleOk(truth, p, o) && MapWithin(known, knownMap) && MapSound(truth, knownMap)
    requires unknown <= p.elements && ResolverOk(truth, p, known, e, r) && !Unsat(truth, p, e)
    requires CandidatesInv(truth, e, unknown, r.possible, AsISet(r.known))
    requires SmallHierarchy(p, unknown, knownMap, h)
    ensures ResolverOk(truth, p, known, e, r') && r.known <= r'.known
    ensures forall b :: b in unknown && b in truth[e] ==>
      b in r'.known || Reach(SmallGraph(p, unknown, knownMap), p.top, b)
  {
    hide OracleOk, TruthOk, SmallHierarchy, ResolverOk, CandidatesInv, MapWithin, MapSound;
    TraverseReady(truth, p, known, knownMap, unknown, e, h, r);
    r' := r;
    var visited: set<nat> := {h.top};
    var queue: seq<nat> := [h.top];
    TraversalStart(truth, h, e, AsISet(r.known));
    assert Elems(queue) == {h.top};
    while |queue| > 0
      invariant ResolverOk(truth, p, known, e, r') && r.known <= r'.known
      invariant CandidatesInv(truth, e, unknown, r'.possible, AsISet(r'.known))
      invariant TraversalInv(truth, h, e, visited, Elems(queue), AsISet(r'.known))
      invariant forall i :: 0 <= i < |queue| ==> queue[i] < |h.nodes|
      decreases AllNodes(h) - visited, |queue|
    {
      var current := queue[0];
      ghost var before := visited;
      assert Elems(queue) == Elems(queue[1..]) + {current} by {
        forall n | n in queue ensures n == current || n in queue[1..] {
        }
      }
      r', visited, queue := VisitChildren(truth, p, o, known, knownMap, unknown, e, h, r', current, visited, queue[1..]);
      assert visited <= AllNodes(h);
    }
    assert Elems(queue) == {};
    forall b | b in unknown && b in truth[e] ensures b in r'.known || Reach(SmallGraph(p, unknown, knownMap), p.top, b) {
      TraversalComplete(truth, p, unknown, knownMap, h, e, visited, AsISet(r'.known), b);
    }
  }

  /** Every true subsumer among `unknown` is reachable from `e` once `news` is added. */
  ghost predicate Resolves(truth: Graph<Element>, p: Problem, known: Graph<Element>, e: Element, unknown: set<Element>, news: set<Element>) {
    forall b {:trigger b in unknown} :: e in truth && b in unknown && b in truth[e] ==>
      Reach(Extended(p, AddEdges(known, e, news)), e, b)
  }

  ghost predicate DeltaOk(truth: Graph<Element>, p: Problem, known: Graph<Element>, task: ResolveTask, delta: ResolveDelta) {
    && delta.picked == task.picked && task.picked in truth
    && delta.newKnowns <= truth[task.picked]
    && GoodLabels(truth, p, delta.prunedLabels)
    && Resolves(truth, p, known, task.picked, task.unknown, delta.newKnowns)
  }

  lemma ResolverResolves(truth: Graph<Element>, p: Problem, known: Graph<Element>, e: Element, r: Resolver, b: Element)
    requires TruthOk(truth, p) && Sound(truth, known) && ResolverOk(truth, p, known, e, r) && b in r.known
    ensures Reach(Extended(p, AddEdges(known, e, r.newKnowns)), e, b)
  {
    AddEdgesSound(truth, known, e, r.newKnowns);
    ExtendedContains(truth, p, AddEdges(known, e, r.newKnowns), e, b);
  }

  lemma TopResolves(truth: Graph<Element>, p: Problem, known: Graph<Element>, e: Element, news: set<Element>,
                    unknown: set<Element>, knownMap: Graph<Element>, b: Element)
    requires TruthOk(truth, p) && Sound(truth, known) && e in truth && news <= truth[e] && unknown <= p.elements
    requires MapWithin(known, knownMap) && Reach(SmallGraph(p, unknown, knownMap), p.top, b)
    ensures Reach(Extended(p, AddEdges(known, e, news)), e, b)
  {
    var g := AddEdges(known, e, news);
    AddEdgesSound(truth, known, e, news);
    MapWithinMono(known, g, knownMap);
    SmallTopExtended(truth, p, g, unknown, knownMap, b);
    ExtendedTop(p, g, e);
    ReachTrans(Extended(p, g), e, p.top, b);
  }

  /** Once `possible` is a part of `unknown` that still holds every true subsumer
      not yet known, resolving `possible` resolves `unknown`. */
  lemma ResolvedAll(truth: Graph<Element>, p: Problem, known: Graph<Element>, knownMap: Graph<Element>, e: Element,
                    unknown: set<Element>, middle: Resolver, r: Resolver)
    requires TruthOk(truth, p) && Sound(truth, known) && MapWithin(known, knownMap) && unknown <= p.elements
    requires ResolverOk(truth, p, known, e, r) && middle.known <= r.known
    requires CandidatesInv(truth, e, unknown, middle.possible, AsISet(middle.known))
    requires forall b :: b in middle.possible && b in truth[e] ==>
      b in r.known || Reach(SmallGraph(p, middle.possible, knownMap), p.top, b)
    ensures Resolves(truth, p, known, e, unknown, r.newKnowns)
  {
    forall b | b in unknown && b in truth[e] ensures Reach(Extended(p, AddEdges(known, e, r.newKnowns)), e, b) {
      if b in r.known {
        ResolverResolves(truth, p, known, e, r, b);
      } else {
        TopResolves(truth, p, known, e, r.newKnowns, middle.possible, knownMap, b);
      }
    }
  }

  /** The batched union test on the worker; `refuted` reports that
      no candidate subsumes. */
  method UnionTest(ghost truth: Graph<Element>, p: Problem, o: Oracle, ghost known: Graph<Element>, knownMap: Graph<Element>,
                   ghost unknown: set<Element>, e: Element, r: Resolver)
    returns (refuted: bool, r': Resolver)
    requires TruthOk(truth, p) && OracleOk(truth, p, o) && MapWithin(known, knownMap) && MapSound(truth, knownMap)
    requires unknown <= p.elements && ResolverOk(truth, p, known, e, r)
    requires CandidatesInv(truth, e, unknown, r.possible, AsISet(r.known))
    ensures ResolverOk(truth, p, known, e, r') && Grows(r, r')
    ensures CandidatesInv(truth, e, unknown, r'.possible, AsISet(r'.known))
    ensures refuted ==> forall b :: b in r'.possible ==> b !in truth[e]
    ensures r'.tick == r.tick + if 3 <= |r.possible| <= 6 then 1 else 0
  {
    refuted, r' := false, r;
    if 2 < |r.possible| < 7 {
      var answer := o.isSubsumedByUnion(r.tick, e, r.possible);
      assert UnionOk(truth, e, r.possible, answer);
      r' := r'.(tick := r'.tick + 1);
      if answer.Some? {
        if answer.value.subsumed {
          r' := AddAllKnown(truth, p, known, knownMap, e, r', answer.value.queryKnown * p.elements);
          r' := r'.(possible := r'.possible - r'.known);
        }
        refuted := !answer.value.subsumed;
      }
    }
  }

  /** `resolve_picked_isolated`: whatever the snapshot misses, the delta is true
      and resolves every true subsumer of the snapshotted possible set. */
  method ResolvePickedIsolated(ghost truth: Graph<Element>, p: Problem, o: Oracle, ghost known: Graph<Element>, task: ResolveTask, tick: nat)
    returns (delta: ResolveDelta, tick': nat)
    requires TruthOk(truth, p) && OracleOk(truth, p, o) && Sound(truth, known) && TaskOk(truth, p, known, task)
    ensures DeltaOk(truth, p, known, task, delta)
  {
    var e, knownMap := task.picked, task.knownMap;
    MapWithinSound(truth, p, known, knownMap);
    var r := Resolver(Succ(knownMap, e), task.unknown, {}, [], tick);
    IsolatedStart(truth, p, known, task, r);
    hide OracleOk, TruthOk, Sound, ResolverOk, CandidatesInv, MapWithin, MapSound, SmallHierarchy, SmallGraph;
    var refuted;
    refuted, r := UnionTest(truth, p, o, known, knownMap, task.unknown, e, r);
    ghost var middle := r;
    if !refuted && r.possible != {} {
      assert r.possible <= p.elements by {
        CandidatesWithin(truth, e, task.unknown, r.possible, AsISet(r.known));
      }
      var h := BuildSmallHierarchy(truth, p, r.possible, knownMap);
      CandidatesNarrow(truth, e, task.unknown, r.possible, AsISet(r.known));
      r := Traverse(truth, p, o, known, knownMap, r.possible, e, h, r);
    }
    ResolvedAll(truth, p, known, knownMap, e, task.unknown, middle, r);
    delta := ResolveDelta(e, r.newKnowns, r.labels);
    tick' := r.tick;
    ResolverFacts(truth, p, known, e, r);
  }

  lemma ResolverFacts(truth: Graph<Element>, p: Problem, known: Graph<Element>, e: Element, r: Resolver)
    requires ResolverOk(truth, p, known, e, r)
    ensures e in truth && r.newKnowns <= truth[e] && GoodLabels(truth, p, r.labels)
  {
  }

  lemma CandidatesWithin(truth: Graph<Element>, e: Element, unknown: set<Element>, possible: set<Element>, K: iset<Element>)
    requires CandidatesInv(truth, e, unknown, possible, K)
    ensures possible <= unknown
  {
  }

  lemma CandidatesNarrow(truth: Graph<Element>, e: Element, unknown: set<Element>, possible: set<Element>, K: iset<Element>)
    requires CandidatesInv(truth, e, unknown, possible, K)
    ensures CandidatesInv(truth, e, possible, possible, K)
  {
  }

  lemma IsolatedStart(truth: Graph<Element>, p: Problem, known: Graph<Element>, task: ResolveTask, r: Resolver)
    requires TruthOk(truth, p) && TaskOk(truth, p, known, task) && MapSound(truth, task.knownMap)
    requires r.known == Succ(task.knownMap, task.picked) && r.possible == task.unknown && r.newKnowns == {} && r.labels == []
    ensures ResolverOk(truth, p, known, task.picked, r)
    ensures CandidatesInv(truth, task.picked, task.unknown, r.possible, AsISet(r.known))
  {
    forall x | x in r.known ensures Reach(AddEdges(known, task.picked, {}), task.picked, x) {
      ReachMono(known, AddEdges(known, task.picked, {}), task.picked, x);
    }
  }
}
