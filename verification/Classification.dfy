/** `QuasiOrderClassification`: the classifier's mutable state and its phases. */
module Classification {
  import opened Elements
  import opened Sequences
  import opened Digraph
  import opened Reachability
  import opened Hierarchies
  import opened Subsumption
  import opened Harvesting
  import opened LeafStrategy
  import opened Resolution
  import opened IsolatedResolution
  import opened Settling

  /** `Vec::retain(|n| n != dropped)`. */
  function DropNode(s: seq<nat>, dropped: nat): (r: seq<nat>)
    ensures Elems(r) == Elems(s) - {dropped}
  {
    if |s| == 0 then s
    else
      assert Elems(s) == Elems(s[..|s| - 1]) + {s[|s| - 1]} by {
        forall n ensures n in s <==> n in s[..|s| - 1] || n == s[|s| - 1] {
        }
      }
      var rest := DropNode(s[..|s| - 1], dropped);
      if s[|s| - 1] == dropped then rest
      else
        assert Elems(rest + [s[|s| - 1]]) == Elems(rest) + {s[|s| - 1]};
        rest + [s[|s| - 1]]
  }

  /** The worklist holds nodes of `h`. */
  ghost predicate NodesIn(h: Hierarchy, ns: seq<nat>) {
    forall i :: 0 <= i < |ns| ==> ns[i] < |h.nodes|
  }

  lemma NodesInConcat(h: Hierarchy, a: seq<nat>, b: seq<nat>)
    requires NodesIn(h, a) && forall n :: n in b ==> n < |h.nodes|
    ensures NodesIn(h, a + b)
  {
    forall i | 0 <= i < |a + b| ensures (a + b)[i] < |h.nodes| {
      assert i >= |a| ==> b[i - |a|] in b;
    }
  }

  lemma BelowFirst(h: Hierarchy, ns: seq<nat>, node: nat)
    requires AllBelow(h, ns, node) && |ns| > 0
    ensures ns[0] < |h.nodes| && Reach(Up(h), ns[0], node) && AllBelow(h, ns[1..], node)
  {
  }

  lemma BelowConcat(h: Hierarchy, a: seq<nat>, b: seq<nat>, node: nat)
    requires AllBelow(h, a, node) && AllBelow(h, b, node)
    ensures AllBelow(h, a + b, node)
  {
  }

  lemma LeafBaseFacts(truth: Graph<Element>, p: Problem, h: Hierarchy, told: Graph<Element>)
    requires LeafBase(truth, p, h, told)
    ensures TruthOk(truth, p) && Linked(h.nodes) && OwnRepresentatives(h) && h.bottom < |h.nodes|
    ensures forall n: nat :: n < |h.nodes| ==> h.nodes[n].representative in p.elements
  {
  }

  lemma LinksIn(h: Hierarchy, n: nat)
    requires Linked(h.nodes) && n < |h.nodes|
    ensures forall m :: m in h.nodes[n].parents || m in h.nodes[n].children ==> m < |h.nodes|
  {
  }

  lemma DescendantUnsat(truth: Graph<Element>, p: Problem, h: Hierarchy, told: Graph<Element>, n: nat, m: nat)
    requires LeafBase(truth, p, h, told) && n < |h.nodes| && Reach(Up(h), n, m)
    requires m < |h.nodes| && Unsat(truth, p, h.nodes[m].representative)
    ensures Unsat(truth, p, h.nodes[n].representative)
  {
    RepresentativeBelow(truth, p, h, told, n, m);
  }

  lemma ChildBelow(h: Hierarchy, n: nat, child: nat, node: nat)
    requires Linked(h.nodes) && n < |h.nodes| && child in h.nodes[n].children && Reach(Up(h), n, node)
    ensures child < |h.nodes| && Reach(Up(h), child, node)
  {
    assert n in Succ(Up(h), child);
    ReachStep(Up(h), child, n, node);
  }

  lemma LeafShrink(truth: Graph<Element>, p: Problem, h: Hierarchy, told: Graph<Element>,
                   known: Graph<Element>, possible: Graph<Element>, W: set<nat>, W': set<nat>)
    requires LeafInv(truth, p, h, told, known, possible, W)
    requires forall n :: n in W ==> n in W' || Processed(p, h, known, possible, n)
    ensures LeafInv(truth, p, h, told, known, possible, W')
  {
    FreedShrink(p, h, known, possible, W, W');
  }

  lemma MarkedProcessed(p: Problem, h: Hierarchy, known: Graph<Element>, possible: Graph<Element>, n: nat)
    requires Marked(p, h, known, n)
    ensures Processed(p, h, known, possible, n)
  {
  }

  /** Draining a round: distinct undecided nodes, up to `roundSize` of them. */
  method DrainRound(p: Problem, h: Hierarchy, known: Graph<Element>, possible: Graph<Element>, toProcess: seq<nat>, roundSize: nat)
    returns (batch: set<nat>, rest: seq<nat>)
    requires NodesIn(h, toProcess) && roundSize > 0
    ensures NodesIn(h, rest) && |batch| <= roundSize
    ensures forall n :: n in batch ==> n in toProcess && n < |h.nodes| && !Processed(p, h, known, possible, n)
    ensures forall n :: n in toProcess ==> n in rest || n in batch || Processed(p, h, known, possible, n)
    ensures batch == {} ==> rest == []
    ensures |batch| < roundSize ==> rest == []
  {
    batch, rest := {}, toProcess;
    while |rest| > 0 && |batch| < roundSize
      invariant rest <= toProcess && |batch| <= roundSize
      invariant forall n :: n in batch ==> n in toProcess && n < |h.nodes| && !Processed(p, h, known, possible, n)
      invariant forall n :: n in toProcess ==> n in rest || n in batch || Processed(p, h, known, possible, n)
      decreases |rest|
    {
      var node := rest[|rest| - 1];
      ghost var before := rest;
      assert node == toProcess[|rest| - 1];
      rest := rest[..|rest| - 1];
      assert forall n :: n in before ==> n in rest || n == node;
      if !ConceptProcessed(p, known, possible, h.nodes[node].representative) {
        batch := batch + {node};
      }
    }
  }

  /** In-flight concepts map to their own hierarchy nodes. */
  ghost predicate InFlightOk(h: Hierarchy, inFlight: map<Element, nat>) {
    forall c :: c in inFlight ==> inFlight[c] < |h.nodes| && h.nodes[inFlight[c]].representative == c
  }

  ghost function Flying(inFlight: map<Element, nat>): set<nat> {
    set c | c in inFlight :: inFlight[c]
  }

  /** The dispatch loop of the streaming coordinator: nothing decided and nothing
      in flight is dispatched, and afterwards the pipeline is full or the
      worklist is empty. */
  method Dispatch(p: Problem, h: Hierarchy, known: Graph<Element>, possible: Graph<Element>,
                  toProcess: seq<nat>, inFlight: map<Element, nat>, budget: nat)
    returns (rest: seq<nat>, inFlight': map<Element, nat>)
    requires NodesIn(h, toProcess) && InFlightOk(h, inFlight) && OwnRepresentatives(h)
    ensures NodesIn(h, rest) && InFlightOk(h, inFlight')
    ensures |inFlight'| <= budget || inFlight' == inFlight
    ensures inFlight.Keys <= inFlight'.Keys && forall c :: c in inFlight ==> inFlight'[c] == inFlight[c]
    ensures forall c :: c in inFlight' && c !in inFlight ==> !ConceptProcessed(p, known, possible, c) && inFlight'[c] in toProcess
    ensures rest <= toProcess
    ensures |inFlight'| < budget ==> rest == []
    ensures |rest| + |inFlight'| <= |toProcess| + |inFlight|
    ensures forall n :: n in toProcess || n in Flying(inFlight) ==> n in rest || n in Flying(inFlight') || Processed(p, h, known, possible, n)
  {
    rest, inFlight' := toProcess, inFlight;
    while |inFlight'| < budget && |rest| > 0
      invariant rest <= toProcess && InFlightOk(h, inFlight')
      invariant |inFlight'| <= budget || inFlight' == inFlight
      invariant inFlight.Keys <= inFlight'.Keys && forall c :: c in inFlight ==> inFlight'[c] == inFlight[c]
      invariant forall c :: c in inFlight' && c !in inFlight ==> !ConceptProcessed(p, known, possible, c) && inFlight'[c] in toProcess
      invariant |rest| + |inFlight'| <= |toProcess| + |inFlight|
      invariant forall n :: n in toProcess || n in Flying(inFlight) ==> n in rest || n in Flying(inFlight') || Processed(p, h, known, possible, n)
      decreases |rest|
    {
      var node := rest[|rest| - 1];
      ghost var before := rest;
      assert node == toProcess[|rest| - 1];
      rest := rest[..|rest| - 1];
      assert forall n :: n in before ==> n in rest || n == node;
      var concept := h.nodes[node].representative;
      if ConceptProcessed(p, known, possible, concept) {
      } else if concept in inFlight' {
        assert h.nodeOf[concept] == inFlight'[concept] == node;
        assert node in Flying(inFlight');
      } else {
        FlyingAdd(inFlight', concept, node);
        inFlight' := inFlight'[concept := node];
      }
    }
  }

  lemma FlyingAdd(inFlight: map<Element, nat>, c: Element, n: nat)
    requires c !in inFlight
    ensures Flying(inFlight[c := n]) == Flying(inFlight) + {n} && |inFlight[c := n]| == |inFlight| + 1
  {
    var r := inFlight[c := n];
    assert r.Keys == inFlight.Keys + {c};
    forall m | m in Flying(inFlight) ensures m in Flying(r) {
      var d :| d in inFlight && inFlight[d] == m;
      assert r[d] == m;
    }
    assert r[c] == n;
  }

  /** Every node in `U` is marked unsatisfiable, and so is or will be everything
      below it: its children are in `U` or waiting. */
  ghost predicate Sunk(p: Problem, h: Hierarchy, known: Graph<Element>, U: set<nat>, waiting: set<nat>) {
    && (forall n: nat :: n in U ==> Marked(p, h, known, n))
    && forall n: nat, c: nat {:trigger c in h.nodes[n].children} :: n in U && n < |h.nodes| && c in h.nodes[n].children ==> c in U || c in waiting
  }

  /** With nothing waiting, all descendants of a member are marked. */
  lemma SunkDescendants(p: Problem, h: Hierarchy, known: Graph<Element>, U: set<nat>, n: nat, m: nat)
    requires Linked(h.nodes) && Sunk(p, h, known, U, {}) && n in U && Reach(Up(h), m, n)
    ensures m in U && Marked(p, h, known, m)
  {
    UpDownInverse(h);
    ReachInverse(Up(h), Down(h), m, n);
    ReachClosed(Down(h), U, n, m);
  }

  lemma SunkMono(p: Problem, h: Hierarchy, known: Graph<Element>, known': Graph<Element>, U: set<nat>)
    requires Sunk(p, h, known, U, {}) && SubGraph(known, known')
    ensures Sunk(p, h, known', U, {})
  {
  }

  lemma SunkNone(p: Problem, h: Hierarchy, known: Graph<Element>)
    ensures Sunk(p, h, known, {}, {})
  {
  }

  lemma SunkAdd(p: Problem, h: Hierarchy, known: Graph<Element>, known': Graph<Element>, U: set<nat>, waiting: set<nat>, n: nat, waiting': set<nat>)
    requires Sunk(p, h, known, U, waiting) && SubGraph(known, known') && n < |h.nodes| && Marked(p, h, known', n)
    requires waiting - {n} <= waiting' && h.nodes[n].children <= waiting'
    ensures Sunk(p, h, known', U + {n}, waiting')
  {
  }

  lemma SunkSkip(p: Problem, h: Hierarchy, known: Graph<Element>, U: set<nat>, waiting: set<nat>, n: nat)
    requires Sunk(p, h, known, U, waiting + {n}) && n in U
    ensures Sunk(p, h, known, U, waiting)
  {
  }

  lemma SubGraphRefl(g: Graph<Element>)
    ensures SubGraph(g, g)
  {
  }

  /** A state of the streaming coordinator. */
  datatype Coordinator = Coordinator(known: Graph<Element>, possible: Graph<Element>, toProcess: seq<nat>, unsatNodes: set<nat>, inFlight: map<Element, nat>, tick: nat)

  /** In every state the in-flight concepts, which are distinct as keys, sit at their
      own nodes and are no more than the workers, or one; everything unsatisfiable has
      sunk; and the leaf invariant holds with the worklist and the in-flight nodes
      waiting. */
  ghost predicate CoordinatorOk(truth: Graph<Element>, p: Problem, h: Hierarchy, told: Graph<Element>, workers: nat, s: Coordinator) {
    && NodesIn(h, s.toProcess) && InFlightOk(h, s.inFlight) && (|s.inFlight| <= workers || |s.inFlight| <= 1)
    && Sunk(p, h, s.known, s.unsatNodes, {})
    && LeafInv(truth, p, h, told, s.known, s.possible, Elems(s.toProcess) + Flying(s.inFlight))
  }

  /** Filling the pipeline: only undecided concepts from the end of the worklist take
      off. Throttled, at most one build is in flight unless more were already;
      otherwise as many as there are workers, and at least one. Afterwards the
      pipeline is full or the worklist empty. */
  ghost predicate TakesOff(p: Problem, throttled: bool, workers: nat, s: Coordinator, t: Coordinator) {
    && t.known == s.known && t.possible == s.possible && t.unsatNodes == s.unsatNodes && t.toProcess <= s.toProcess
    && s.inFlight.Keys <= t.inFlight.Keys && (forall c :: c in s.inFlight ==> t.inFlight[c] == s.inFlight[c])
    && (forall c :: c in t.inFlight && c !in s.inFlight ==> !ConceptProcessed(p, s.known, s.possible, c) && t.inFlight[c] in s.toProcess)
    && (t.inFlight == s.inFlight || |t.inFlight| <= 1 || (!throttled && |t.inFlight| <= workers))
    && (|t.inFlight| < 1 || (!throttled && |t.inFlight| < workers) ==> t.toProcess == [])
  }

  /** The result for `c` arrives: a stale one changes nothing else, and any other
      decides `c`. */
  ghost predicate Lands(p: Problem, s: Coordinator, t: Coordinator, c: Element) {
    && c in s.inFlight && t.inFlight == s.inFlight - {c}
    && ConceptProcessed(p, t.known, t.possible, c)
    && (ConceptProcessed(p, s.known, s.possible, c) ==> t == s.(inFlight := t.inFlight, tick := t.tick))
  }

  ghost predicate SomeLands(p: Problem, s: Coordinator, t: Coordinator) {
    exists c :: Lands(p, s, t, c)
  }

  /** One step of the protocol; the governor is asked anew for each dispatch. */
  ghost predicate CoordinatorStep(p: Problem, o: Oracle, workers: nat, s: Coordinator, t: Coordinator, dispatching: bool) {
    if dispatching then TakesOff(p, o.throttled(t.tick), workers, s, t) && t.tick == s.tick + 1 else SomeLands(p, s, t)
  }

  /** A run of the protocol: legal states, alternately dispatching and receiving. */
  ghost predicate CoordinatorRun(truth: Graph<Element>, p: Problem, h: Hierarchy, told: Graph<Element>, o: Oracle, workers: nat, run: seq<Coordinator>) {
    && (forall i :: 0 <= i < |run| ==> CoordinatorOk(truth, p, h, told, workers, run[i]))
    && forall i {:trigger run[i]} :: 0 <= i < |run| - 1 ==> CoordinatorStep(p, o, workers, run[i], run[i + 1], i % 2 == 0)
  }

  predicate Drained(s: Coordinator) {
    s.toProcess == [] && s.inFlight == map[]
  }

  lemma RunStarts(truth: Graph<Element>, p: Problem, h: Hierarchy, told: Graph<Element>, o: Oracle, workers: nat, s: Coordinator)
    requires CoordinatorOk(truth, p, h, told, workers, s)
    ensures CoordinatorRun(truth, p, h, told, o, workers, [s])
  {
  }

  lemma RunExtends(truth: Graph<Element>, p: Problem, h: Hierarchy, told: Graph<Element>, o: Oracle, workers: nat, run: seq<Coordinator>, t: Coordinator)
    requires CoordinatorRun(truth, p, h, told, o, workers, run) && |run| > 0 && CoordinatorOk(truth, p, h, told, workers, t)
    requires CoordinatorStep(p, o, workers, run[|run| - 1], t, (|run| - 1) % 2 == 0)
    ensures CoordinatorRun(truth, p, h, told, o, workers, run + [t])
  {
    hide CoordinatorOk, CoordinatorStep;
    var longer := run + [t];
    forall i | 0 <= i < |longer| - 1 ensures CoordinatorStep(p, o, workers, longer[i], longer[i + 1], i % 2 == 0) {
      assert longer[i] == run[i];
      if i < |run| - 1 {
        assert longer[i + 1] == run[i + 1];
      }
    }
  }

  /** A state of the resolution coordinator; `slots` are the positions of the tasks in
      flight among the unclassified elements. */
  datatype Resolving = Resolving(known: Graph<Element>, possible: Graph<Element>, cursor: nat, flight: seq<ResolveTask>, slots: seq<nat>)

  /** The tasks in flight are for distinct positions before the cursor. */
  ghost predicate InSlots(unclassified: seq<Element>, cursor: nat, flight: seq<ResolveTask>, slots: seq<nat>) {
    && |slots| == |flight| && cursor <= |unclassified|
    && (forall k :: 0 <= k < |slots| ==> slots[k] < cursor && flight[k].picked == unclassified[slots[k]])
    && forall k, l :: 0 <= k < l < |slots| ==> slots[k] < slots[l]
  }

  /** In every state no more tasks than workers, or one, are in flight, each covering
      its element, and every position before the cursor is settled or in flight. */
  ghost predicate ResolvingOk(truth: Graph<Element>, p: Problem, unclassified: seq<Element>, workers: nat, s: Resolving) {
    && ResolutionInv(truth, p, s.known, s.possible) && (|s.flight| <= workers || |s.flight| <= 1)
    && InFlightTasks(truth, p, s.known, s.flight) && Handled(s.possible, unclassified, s.cursor, s.flight)
    && InSlots(unclassified, s.cursor, s.flight, s.slots)
  }

  /** Filling the pool: the scanned positions take off once each or are settled, and
      afterwards the pool is full or the scan complete. */
  ghost predicate TakesTasks(unclassified: seq<Element>, workers: nat, s: Resolving, t: Resolving) {
    && t.known == s.known && Shrinks(s.possible, t.possible)
    && s.cursor <= t.cursor <= |unclassified| && s.flight <= t.flight && s.slots <= t.slots
    && (forall k :: |s.slots| <= k < |t.slots| ==> s.cursor <= t.slots[k] < t.cursor)
    && (forall j :: s.cursor <= j < t.cursor ==> j in t.slots || Succ(t.possible, unclassified[j]) == {})
    && (|t.flight| < workers || |t.flight| < 1 ==> t.cursor == |unclassified|)
  }

  /** The result of the `k`-th task arrives and settles its element. */
  ghost predicate LandsTask(s: Resolving, t: Resolving, k: nat) {
    && k < |s.flight| && |s.slots| == |s.flight| && t.cursor == s.cursor
    && t.flight == s.flight[..k] + s.flight[k + 1..] && t.slots == s.slots[..k] + s.slots[k + 1..]
    && SubGraph(s.known, t.known) && Shrinks(s.possible, t.possible) && Succ(t.possible, s.flight[k].picked) == {}
  }

  ghost predicate SomeTaskLands(s: Resolving, t: Resolving) {
    exists k: nat :: LandsTask(s, t, k)
  }

  ghost predicate ResolvingStep(unclassified: seq<Element>, workers: nat, s: Resolving, t: Resolving, dispatching: bool) {
    if dispatching then TakesTasks(unclassified, workers, s, t) else SomeTaskLands(s, t)
  }

  /** A run of the resolution coordinator. As the cursor never moves back, no
      position is dispatched twice. */
  ghost predicate ResolvingRun(truth: Graph<Element>, p: Problem, unclassified: seq<Element>, workers: nat, run: seq<Resolving>) {
    && (forall i :: 0 <= i < |run| ==> ResolvingOk(truth, p, unclassified, workers, run[i]))
    && forall i {:trigger run[i]} :: 0 <= i < |run| - 1 ==> ResolvingStep(unclassified, workers, run[i], run[i + 1], i % 2 == 0)
  }

  lemma ResolvingStarts(truth: Graph<Element>, p: Problem, unclassified: seq<Element>, workers: nat, known: Graph<Element>, possible: Graph<Element>)
    requires ResolutionInv(truth, p, known, possible)
    ensures ResolvingOk(truth, p, unclassified, workers, Resolving(known, possible, 0, [], []))
    ensures ResolvingRun(truth, p, unclassified, workers, [Resolving(known, possible, 0, [], [])])
  {
    hide ResolutionInv;
    StreamStart(truth, p, known, possible, unclassified);
  }

  lemma ResolvingExtends(truth: Graph<Element>, p: Problem, unclassified: seq<Element>, workers: nat, run: seq<Resolving>, t: Resolving)
    requires ResolvingRun(truth, p, unclassified, workers, run) && |run| > 0 && ResolvingOk(truth, p, unclassified, workers, t)
    requires ResolvingStep(unclassified, workers, run[|run| - 1], t, (|run| - 1) % 2 == 0)
    ensures ResolvingRun(truth, p, unclassified, workers, run + [t])
  {
    hide ResolvingOk, ResolvingStep;
    var longer := run + [t];
    forall i | 0 <= i < |longer| - 1 ensures ResolvingStep(unclassified, workers, longer[i], longer[i + 1], i % 2 == 0) {
      assert longer[i] == run[i];
      if i < |run| - 1 {
        assert longer[i + 1] == run[i + 1];
      }
    }
  }

  lemma SlotsWithout(unclassified: seq<Element>, cursor: nat, flight: seq<ResolveTask>, slots: seq<nat>, k: nat)
    requires InSlots(unclassified, cursor, flight, slots) && k < |flight|
    ensures InSlots(unclassified, cursor, flight[..k] + flight[k + 1..], slots[..k] + slots[k + 1..])
  {
  }

  lemma SlotCount(unclassified: seq<Element>, cursor: nat, flight: seq<ResolveTask>, slots: seq<nat>)
    requires InSlots(unclassified, cursor, flight, slots)
    ensures |slots| == |flight|
  {
  }

  lemma SlotsLater(unclassified: seq<Element>, cursor: nat, flight: seq<ResolveTask>, slots: seq<nat>)
    requires InSlots(unclassified, cursor, flight, slots) && cursor < |unclassified|
    ensures InSlots(unclassified, cursor + 1, flight, slots)
  {
  }

  lemma SlotsWith(unclassified: seq<Element>, cursor: nat, flight: seq<ResolveTask>, slots: seq<nat>, task: ResolveTask)
    requires InSlots(unclassified, cursor, flight, slots) && cursor < |unclassified| && task.picked == unclassified[cursor]
    ensures InSlots(unclassified, cursor + 1, flight + [task], slots + [cursor])
  {
  }

  /** Every position ever dispatched lies before the cursor of all later states, and
      a position taking off lies at or after the cursor of all earlier ones. */
  lemma {:induction false} CursorAdvances(truth: Graph<Element>, p: Problem, unclassified: seq<Element>, workers: nat, run: seq<Resolving>, i: nat, j: nat)
    requires ResolvingRun(truth, p, unclassified, workers, run) && i <= j < |run|
    ensures run[i].cursor <= run[j].cursor
    decreases j - i
  {
    hide ResolvingOk;
    if i < j {
      CursorAdvances(truth, p, unclassified, workers, run, i, j - 1);
      assert ResolvingStep(unclassified, workers, run[j - 1], run[j - 1 + 1], (j - 1) % 2 == 0);
    }
  }

  lemma SlotsBefore(truth: Graph<Element>, p: Problem, unclassified: seq<Element>, workers: nat, s: Resolving)
    requires ResolvingOk(truth, p, unclassified, workers, s)
    ensures forall slot :: slot in s.slots ==> slot < s.cursor
  {
    hide ResolutionInv, InFlightTasks, Handled;
  }

  lemma NewSlotsAfter(unclassified: seq<Element>, workers: nat, s: Resolving, t: Resolving)
    requires TakesTasks(unclassified, workers, s, t)
    ensures |s.slots| <= |t.slots| && forall slot :: slot in t.slots[|s.slots|..] ==> s.cursor <= slot
  {
    hide Shrinks;
    var added := t.slots[|s.slots|..];
    forall k | 0 <= k < |added| ensures s.cursor <= added[k] {
      assert added[k] == t.slots[|s.slots| + k];
    }
  }

  /** No position takes off twice in a run. */
  lemma DispatchedOnce(truth: Graph<Element>, p: Problem, unclassified: seq<Element>, workers: nat, run: seq<Resolving>, i: nat, j: nat, slot: nat)
    requires ResolvingRun(truth, p, unclassified, workers, run) && i < j && j + 1 < |run| && j % 2 == 0
    requires slot in run[i + 1].slots
    ensures |run[j].slots| <= |run[j + 1].slots| && slot !in run[j + 1].slots[|run[j].slots|..]
  {
    hide ResolvingOk, TakesTasks, SomeTaskLands;
    CursorAdvances(truth, p, unclassified, workers, run, i + 1, j);
    SlotsBefore(truth, p, unclassified, workers, run[i + 1]);
    assert ResolvingStep(unclassified, workers, run[j], run[j + 1], true);
    NewSlotsAfter(unclassified, workers, run[j], run[j + 1]);
  }

  /** With a pool, `run` is the complete run of the leaf coordinator over `h`, from
      the parents of bottom to the drained end. */
  ghost predicate LeafPhase(truth: Graph<Element>, p: Problem, h: Hierarchy, told: Graph<Element>, o: Oracle, run: seq<Coordinator>) {
    o.streamingWorkers.Some? ==>
      && CoordinatorRun(truth, p, h, told, o, o.streamingWorkers.value, run)
      && |run| > 0 && run[0].known == told && run[0].inFlight == map[] && Elems(run[0].toProcess) == Succ(Up(h), h.bottom)
      && Drained(run[|run| - 1])
  }

  lemma NoLeafPhase(truth: Graph<Element>, p: Problem, h: Hierarchy, told: Graph<Element>, o: Oracle)
    requires o.streamingWorkers.None?
    ensures LeafPhase(truth, p, h, told, o, [])
  {
  }

  lemma LeafPhaseOf(truth: Graph<Element>, p: Problem, h: Hierarchy, told: Graph<Element>, o: Oracle, workers: nat, run: seq<Coordinator>, toProcess: seq<nat>)
    requires o.streamingWorkers == Some(workers) && CoordinatorRun(truth, p, h, told, o, workers, run) && h.bottom < |h.nodes|
    requires |run| > 0 && run[0] == Coordinator(told, map[], toProcess, {}, map[], run[0].tick) && Drained(run[|run| - 1])
    requires Elems(toProcess) == h.nodes[h.bottom].parents
    ensures LeafPhase(truth, p, h, told, o, run)
  {
    hide CoordinatorRun;
  }

  /** With a pool, `run` is the complete run of the resolution coordinator, which
      ends in the given graphs. */
  ghost predicate ResolutionPhase(truth: Graph<Element>, p: Problem, workers: Option<nat>, unclassified: seq<Element>, run: seq<Resolving>,
                                  known: Graph<Element>, possible: Graph<Element>) {
    workers.Some? ==>
      && ResolvingRun(truth, p, unclassified, workers.value, run)
      && |run| > 0 && run[0].cursor == 0 && run[0].flight == []
      && run[|run| - 1] == Resolving(known, possible, |unclassified|, [], [])
  }

  /** The runs of the two coordinators in one classification. */
  datatype Runs = Runs(told: Hierarchy, leaf: seq<Coordinator>, unclassified: seq<Element>, resolution: seq<Resolving>)

  class QuasiOrderClassification {
    const p: Problem
    const oracle: Oracle
    ghost const truth: Graph<Element>
    var known: Graph<Element>
    var possible: Graph<Element>
    var tick: nat

    ghost predicate Valid()
      reads this
    {
      TruthOk(truth, p) && OracleOk(truth, p, oracle) && Sound(truth, known)
    }

    constructor (p: Problem, oracle: Oracle, ghost truth: Graph<Element>)
      requires TruthOk(truth, p) && OracleOk(truth, p, oracle)
      ensures this.p == p && this.oracle == oracle && this.truth == truth
      ensures Valid() && known == map[] && possible == map[]
    {
      this.p, this.oracle, this.truth := p, oracle, truth;
      known, possible, tick := map[], map[], 0;
    }

    /** `initialise_known_subsumptions_using_told_subsumers`: told pairs between
        elements become known edges, other pairs are ignored. */
    method InitialiseKnownUsingTold(told: seq<(Element, Element)>)
      requires Valid()
      requires forall i :: 0 <= i < |told| && told[i].0 in p.elements && told[i].1 in p.elements ==> told[i].1 in truth[told[i].0]
      modifies this`known
      ensures Valid()
      ensures forall a, b :: b in Succ(known, a) <==>
        b in Succ(old(known), a) || (a in p.elements && b in p.elements && (a, b) in told)
    {
      for i := 0 to |told|
        invariant Valid()
        invariant forall a, b :: b in Succ(known, a) <==>
          b in Succ(old(known), a) || (a in p.elements && b in p.elements && (a, b) in told[..i])
      {
        var (a, b) := told[i];
        assert told[..i + 1] == told[..i] + [told[i]];
        if a in p.elements && b in p.elements {
          AddEdgesSound(truth, known, a, {b});
          known := AddEdge(known, a, b);
        }
      }
      assert told[..|told|] == told;
    }

    /** Sends the representative of `n` to bottom (`make_concept_unsatisfiable`). */
    method MarkNode(h: Hierarchy, ghost told: Graph<Element>, n: nat, ghost W: set<nat>)
      requires LeafBase(truth, p, h, told) && LeafInv(truth, p, h, told, known, possible, W)
      requires n < |h.nodes| && Unsat(truth, p, h.nodes[n].representative)
      modifies this`known, this`possible
      ensures LeafInv(truth, p, h, told, known, possible, W + h.nodes[n].parents)
      ensures Progress(p, h, old(known), old(possible), known, possible)
      ensures Marked(p, h, known, n) && SubGraph(old(known), known)
      ensures known == AddEdge(old(known), h.nodes[n].representative, p.bottom)
      ensures possible == ClearSuccessors(old(possible), h.nodes[n].representative)
    {
      hide LeafInv, LeafBase, Progress;
      LeafBaseFacts(truth, p, h, told);
      MarkKeeps(truth, p, h, told, known, possible, W, n);
      var c := h.nodes[n].representative;
      known := AddEdge(known, c, p.bottom);
      possible := ClearSuccessors(possible, c);
    }

    /** One descendant found unsatisfiable: mark it, take it off the worklist and
        free its undecided parents. */
    method MarkDescendant(h: Hierarchy, ghost told: Graph<Element>, child: nat, toProcess: seq<nat>, ghost others: set<nat>)
      returns (toProcess': seq<nat>)
      requires LeafBase(truth, p, h, told) && NodesIn(h, toProcess)
      requires LeafInv(truth, p, h, told, known, possible, Elems(toProcess) + others)
      requires child < |h.nodes| && Unsat(truth, p, h.nodes[child].representative)
      modifies this`known, this`possible
      ensures LeafInv(truth, p, h, told, known, possible, Elems(toProcess') + others)
      ensures Progress(p, h, old(known), old(possible), known, possible) && NodesIn(h, toProcess')
      ensures Marked(p, h, known, child) && SubGraph(old(known), known)
    {
      hide LeafInv, LeafBase, Progress, SubGraph;
      LeafBaseFacts(truth, p, h, told);
      LinksIn(h, child);
      ghost var W := Elems(toProcess) + others;
      MarkNode(h, told, child, W);
      MarkedProcessed(p, h, known, possible, child);
      var kept := DropNode(toProcess, child);
      var undecided := set q | q in h.nodes[child].parents && !Processed(p, h, known, possible, q);
      var freed: seq<nat> := InSomeOrder<nat>(undecided);
      toProcess' := kept + freed;
      ElemsConcat(kept, freed);
      assert NodesIn(h, toProcess') by {
        forall i | 0 <= i < |toProcess'| ensures toProcess'[i] < |h.nodes| {
          assert toProcess'[i] in Elems(kept) || toProcess'[i] in freed;
          assert toProcess'[i] in Elems(toProcess) || toProcess'[i] in undecided;
        }
      }
      LeafShrink(truth, p, h, told, known, possible, W + h.nodes[child].parents, Elems(toProcess') + others);
    }

    /** The breadth-first propagation of unsatisfiability to all descendants. */
    method PropagateUnsat(h: Hierarchy, ghost told: Graph<Element>, node: nat, toProcess0: seq<nat>, unsatNodes0: set<nat>, ghost others: set<nat>)
      returns (toProcess: seq<nat>, unsatNodes: set<nat>)
      requires LeafBase(truth, p, h, told) && NodesIn(h, toProcess0)
      requires LeafInv(truth, p, h, told, known, possible, Elems(toProcess0) + others)
      requires node < |h.nodes| && Unsat(truth, p, h.nodes[node].representative)
      requires Sunk(p, h, known, unsatNodes0, {}) && Marked(p, h, known, node)
      modifies this`known, this`possible
      ensures LeafInv(truth, p, h, told, known, possible, Elems(toProcess) + others)
      ensures Progress(p, h, old(known), old(possible), known, possible) && NodesIn(h, toProcess)
      ensures Sunk(p, h, known, unsatNodes, {}) && unsatNodes0 + {node} <= unsatNodes && SubGraph(old(known), known)
    {
      hide LeafInv, LeafBase, Progress, TruthOk, Linked, AllBelow, NodesIn, Elems, OwnRepresentatives, Sunk, SubGraph, Unsat, Marked;
      LeafBaseFacts(truth, p, h, told);
      ProgressRefl(p, h, known, possible);
      SubGraphRefl(known);
      ReachRefl(Up(h), node);
      toProcess, unsatNodes := toProcess0, unsatNodes0 + {node};
      var visited: set<nat> := {};
      var toVisit: seq<nat> := InSomeOrder<nat>(h.nodes[node].children);
      ChildrenBelow(h, node, node, toVisit);
      LinksIn(h, node);
      ElemsListing(h.nodes[node].children, toVisit);
      SunkAdd(p, h, known, known, unsatNodes0, {}, node, Elems(toVisit));
      while |toVisit| > 0
        invariant LeafInv(truth, p, h, told, known, possible, Elems(toProcess) + others)
        invariant Progress(p, h, old(known), old(possible), known, possible) && NodesIn(h, toProcess)
        invariant AllBelow(h, toVisit, node)
        invariant Sunk(p, h, known, unsatNodes, Elems(toVisit)) && unsatNodes0 + {node} <= unsatNodes && visited <= unsatNodes
        invariant SubGraph(old(known), known)
        decreases Up(h).Keys - visited, |toVisit|
      {
        BelowFirst(h, toVisit, node);
        var child: nat := toVisit[0];
        ElemsFirst(toVisit);
        toVisit := toVisit[1..];
        ghost var waiting := Elems(toVisit);
        if child !in visited {
          visited := visited + {child};
          if child !in unsatNodes {
            var more: seq<nat> := InSomeOrder<nat>(h.nodes[child].children);
            ChildrenBelow(h, child, node, more);
            BelowConcat(h, toVisit, more, node);
            ElemsListing(h.nodes[child].children, more);
            ElemsConcat(toVisit, more);
            toVisit := toVisit + more;
            ghost var k, s, sunk := known, possible, unsatNodes;
            unsatNodes := unsatNodes + {child};
            DescendantUnsat(truth, p, h, told, child, node);
            toProcess := MarkDescendant(h, told, child, toProcess, others);
            ProgressTrans(p, h, old(known), old(possible), k, s, known, possible);
            SubGraphTrans(old(known), k, known);
            LinksIn(h, child);
            SunkAdd(p, h, k, known, sunk, waiting + {child}, child, Elems(toVisit));
          } else {
            SunkSkip(p, h, known, unsatNodes, waiting, child);
          }
        } else {
          SunkSkip(p, h, known, unsatNodes, waiting, child);
        }
      }
      ElemsNone(toVisit);
    }

    /** The unsatisfiable outcome of `harvest_leaf_node_result`. */
    method HarvestUnsat(h: Hierarchy, ghost told: Graph<Element>, node: nat, toProcess: seq<nat>, unsatNodes: set<nat>, ghost others: set<nat>)
      returns (toProcess': seq<nat>, unsatNodes': set<nat>)
      requires LeafBase(truth, p, h, told) && NodesIn(h, toProcess) && node < |h.nodes|
      requires LeafInv(truth, p, h, told, known, possible, Elems(toProcess) + others + {node})
      requires Unsat(truth, p, h.nodes[node].representative) && Sunk(p, h, known, unsatNodes, {})
      modifies this`known, this`possible
      ensures LeafInv(truth, p, h, told, known, possible, Elems(toProcess') + others)
      ensures Progress(p, h, old(known), old(possible), known, possible) && NodesIn(h, toProcess')
      ensures Processed(p, h, known, possible, node)
      ensures Sunk(p, h, known, unsatNodes', {}) && unsatNodes + {node} <= unsatNodes' && SubGraph(old(known), known)
    {
      hide LeafInv, LeafBase, Progress, TruthOk, Linked, NodesIn, OwnRepresentatives, Unsat, Sunk, SubGraph;
      LeafBaseFacts(truth, p, h, told);
      LinksIn(h, node);
      ghost var W := Elems(toProcess) + others + {node};
      MarkNode(h, told, node, W);
      MarkedProcessed(p, h, known, possible, node);
      SunkMono(p, h, old(known), known, unsatNodes);
      var parents: seq<nat> := InSomeOrder<nat>(h.nodes[node].parents);
      NodesInConcat(h, toProcess, parents);
      ElemsConcat(toProcess, parents);
      assert Elems(parents) == h.nodes[node].parents;
      LeafShrink(truth, p, h, told, known, possible, W + h.nodes[node].parents, Elems(toProcess + parents) + others);
      ghost var k, s := known, possible;
      toProcess', unsatNodes' := PropagateUnsat(h, told, node, toProcess + parents, unsatNodes, others);
      SubGraphTrans(old(known), k, known);
      ProgressAt(p, h, k, s, known, possible, node);
      ProgressTrans(p, h, old(known), old(possible), k, s, known, possible);
    }

    /** The satisfiable outcome of `harvest_leaf_node_result`. */
    method HarvestSat(h: Hierarchy, ghost told: Graph<Element>, node: nat, readOff: ReadOff, ghost W: set<nat>)
      requires LeafBase(truth, p, h, told) && node < |h.nodes|
      requires LeafInv(truth, p, h, told, known, possible, W + {node})
      requires ModelOk(truth, p, h.nodes[node].representative, Some(readOff))
      modifies this`known, this`possible
      ensures LeafInv(truth, p, h, told, known, possible, W)
      ensures Progress(p, h, old(known), old(possible), known, possible)
      ensures Processed(p, h, known, possible, node) && SubGraph(old(known), known)
      ensures known == AddEdges(old(known), h.nodes[node].representative, readOff.queryKnown * p.elements)
      ensures possible == HarvestAll(p, old(possible), readOff.nodeLabels.value)
    {
      hide LeafInv, LeafBase, Progress, TruthOk, Linked, OwnRepresentatives, GoodLabels;
      LeafBaseFacts(truth, p, h, told);
      var c := h.nodes[node].representative;
      var sups := readOff.queryKnown * p.elements;
      LearnKeeps(truth, p, h, told, known, possible, W + {node}, c, sups);
      known := AddEdges(known, c, sups);
      ghost var k, s := known, possible;
      var labels := readOff.nodeLabels.value;
      HarvestKeepsLeaf(truth, p, h, told, known, possible, W + {node}, labels);
      possible := UpdatePossibleSubsumers(p, possible, labels);
      ProgressTrans(p, h, old(known), old(possible), k, s, known, possible);
      LeafShrink(truth, p, h, told, known, possible, W + {node}, W);
    }

    /** `harvest_leaf_node_result`: one completed model build, whose node is no
        longer on the worklist, folded into the graphs. `others` still wait. */
    method HarvestLeafNodeResult(h: Hierarchy, ghost told: Graph<Element>, node: nat, model: Option<ReadOff>,
                                 toProcess: seq<nat>, unsatNodes: set<nat>, ghost others: set<nat>)
      returns (toProcess': seq<nat>, unsatNodes': set<nat>)
      requires LeafBase(truth, p, h, told) && NodesIn(h, toProcess) && node < |h.nodes|
      requires LeafInv(truth, p, h, told, known, possible, Elems(toProcess) + others + {node})
      requires ModelOk(truth, p, h.nodes[node].representative, model) && Sunk(p, h, known, unsatNodes, {})
      modifies this`known, this`possible
      ensures LeafInv(truth, p, h, told, known, possible, Elems(toProcess') + others)
      ensures Progress(p, h, old(known), old(possible), known, possible) && NodesIn(h, toProcess')
      ensures Processed(p, h, known, possible, node)
      ensures Sunk(p, h, known, unsatNodes', {}) && SubGraph(old(known), known)
      ensures model.None? ==> node in unsatNodes'
    {
      hide LeafInv, LeafBase, Progress, NodesIn, Processed, Elems, Sunk, SubGraph;
      match model
      case None =>
        toProcess', unsatNodes' := HarvestUnsat(h, told, node, toProcess, unsatNodes, others);
      case Some(readOff) =>
        toProcess', unsatNodes' := toProcess, unsatNodes;
        HarvestSat(h, told, node, readOff, Elems(toProcess) + others);
        SunkMono(p, h, old(known), known, unsatNodes);
    }

    /** One completed build: dropped if a sibling harvested earlier has decided its
        concept since it was issued, harvested otherwise. */
    method HarvestUnlessStale(h: Hierarchy, ghost told: Graph<Element>, node: nat, toProcess: seq<nat>, unsatNodes: set<nat>, ghost others: set<nat>)
      returns (toProcess': seq<nat>, unsatNodes': set<nat>)
      requires LeafBase(truth, p, h, told) && OracleOk(truth, p, oracle) && NodesIn(h, toProcess) && node < |h.nodes|
      requires LeafInv(truth, p, h, told, known, possible, Elems(toProcess) + others + {node}) && Sunk(p, h, known, unsatNodes, {})
      modifies this
      ensures LeafInv(truth, p, h, told, known, possible, Elems(toProcess') + others)
      ensures Progress(p, h, old(known), old(possible), known, possible) && NodesIn(h, toProcess')
      ensures Processed(p, h, known, possible, node)
      ensures Sunk(p, h, known, unsatNodes', {}) && SubGraph(old(known), known)
      ensures old(Processed(p, h, known, possible, node)) ==>
        toProcess' == toProcess && unsatNodes' == unsatNodes && known == old(known) && possible == old(possible)
    {
      hide LeafInv, LeafBase, NodesIn, OracleOk, Elems, TruthOk, Linked, OwnRepresentatives, ModelOk, Progress, Sunk, SubGraph;
      LeafBaseFacts(truth, p, h, told);
      toProcess', unsatNodes' := toProcess, unsatNodes;
      var concept := h.nodes[node].representative;
      if ConceptProcessed(p, known, possible, concept) {
        LeafShrink(truth, p, h, told, known, possible, Elems(toProcess) + others + {node}, Elems(toProcess) + others);
        ProgressRefl(p, h, known, possible);
        SubGraphRefl(known);
      } else {
        var model := oracle.buildModel(tick, concept);
        ModelAnswer(truth, p, oracle, tick, concept);
        tick := tick + 1;
        toProcess', unsatNodes' := HarvestLeafNodeResult(h, told, node, model, toProcess, unsatNodes, others);
      }
    }

    /** Harvests a round in arbitrary order; a read-off made stale by an earlier
        one of the same round is dropped by the processed guard. */
    method HarvestRound(h: Hierarchy, ghost told: Graph<Element>, batch: set<nat>, toProcess0: seq<nat>, unsatNodes0: set<nat>)
      returns (toProcess: seq<nat>, unsatNodes: set<nat>)
      requires LeafBase(truth, p, h, told) && OracleOk(truth, p, oracle) && NodesIn(h, toProcess0)
      requires forall n :: n in batch ==> n < |h.nodes|
      requires LeafInv(truth, p, h, told, known, possible, Elems(toProcess0) + batch) && Sunk(p, h, known, unsatNodes0, {})
      modifies this
      ensures LeafInv(truth, p, h, told, known, possible, Elems(toProcess)) && Sunk(p, h, known, unsatNodes, {})
      ensures Progress(p, h, old(known), old(possible), known, possible) && NodesIn(h, toProcess)
      ensures forall n :: n in batch ==> Processed(p, h, known, possible, n)
    {
      hide LeafInv, LeafBase, Progress, NodesIn, TruthOk, OracleOk, Linked, Elems, OwnRepresentatives, Processed, Sunk, SubGraph;
      ProgressRefl(p, h, known, possible);
      toProcess, unsatNodes := toProcess0, unsatNodes0;
      var pending := batch;
      while pending != {}
        invariant pending <= batch && NodesIn(h, toProcess)
        invariant LeafInv(truth, p, h, told, known, possible, Elems(toProcess) + pending) && Sunk(p, h, known, unsatNodes, {})
        invariant Progress(p, h, old(known), old(possible), known, possible)
        invariant forall n :: n in batch && n !in pending ==> Processed(p, h, known, possible, n)
      {
        var node: nat :| node in pending;
        ghost var others := pending - {node};
        assert Elems(toProcess) + pending == Elems(toProcess) + others + {node};
        pending := pending - {node};
        ghost var k, s := known, possible;
        toProcess, unsatNodes := HarvestUnlessStale(h, told, node, toProcess, unsatNodes, others);
        ProgressAll(p, h, k, s, known, possible, batch - pending - {node});
        ProgressTrans(p, h, old(known), old(possible), k, s, known, possible);
      }
      assert Elems(toProcess) + {} == Elems(toProcess);
    }

    /** The batched-round leaf-node strategy; rounds of one model when the oracle
        builds serially. It terminates on the undecided nodes and the worklist. */
    method LeafRounds(h: Hierarchy, ghost told: Graph<Element>, toProcess0: seq<nat>) returns (ghost rounds: seq<set<nat>>)
      requires LeafBase(truth, p, h, told) && OracleOk(truth, p, oracle) && NodesIn(h, toProcess0)
      requires LeafInv(truth, p, h, told, known, possible, Elems(toProcess0))
      modifies this
      ensures LeafInv(truth, p, h, told, known, possible, {})
      ensures forall k :: 0 <= k < |rounds| ==> 1 <= |rounds[k]| <= 256 && (!oracle.buildsInParallel ==> |rounds[k]| == 1)
    {
      hide LeafInv, LeafBase, Progress, NodesIn, OracleOk, Elems, Sunk;
      rounds := [];
      var toProcess, unsatNodes: set<nat> := toProcess0, {};
      SunkNone(p, h, known);
      var roundSize := if oracle.buildsInParallel then 256 else 1;
      while |toProcess| > 0
        invariant NodesIn(h, toProcess) && Sunk(p, h, known, unsatNodes, {})
        invariant LeafInv(truth, p, h, told, known, possible, Elems(toProcess))
        invariant forall k :: 0 <= k < |rounds| ==> 1 <= |rounds[k]| <= 256 && (!oracle.buildsInParallel ==> |rounds[k]| == 1)
        decreases Unprocessed(p, h, known, possible), |toProcess|
      {
        ghost var k, s := known, possible;
        var batch, rest := DrainRound(p, h, known, possible, toProcess, roundSize);
        ElemsMembers(toProcess);
        ElemsMembers(rest);
        LeafShrink(truth, p, h, told, known, possible, Elems(toProcess), Elems(rest) + batch);
        if batch == {} {
          toProcess := rest;
          assert Elems(rest) + {} == Elems(rest);
        } else {
          rounds := rounds + [batch];
          toProcess, unsatNodes := HarvestRound(h, told, batch, rest, unsatNodes);
          RoundProgress(p, h, k, s, known, possible, batch);
        }
      }
      ElemsNone(toProcess);
    }

    /** The barrier-free coordinator: dispatch until the (possibly throttled)
        budget is met, then harvest whichever build completes next. */
    method LeafStreaming(h: Hierarchy, ghost told: Graph<Element>, toProcess0: seq<nat>, workers: nat) returns (ghost run: seq<Coordinator>)
      requires LeafBase(truth, p, h, told) && OracleOk(truth, p, oracle) && NodesIn(h, toProcess0)
      requires LeafInv(truth, p, h, told, known, possible, Elems(toProcess0))
      modifies this
      ensures LeafInv(truth, p, h, told, known, possible, {})
      ensures CoordinatorRun(truth, p, h, told, oracle, workers, run)
      ensures |run| > 0 && run[0] == Coordinator(old(known), old(possible), toProcess0, {}, map[], old(tick))
      ensures var last := run[|run| - 1]; Drained(last) && last.known == known && last.possible == possible
    {
      hide LeafInv, LeafBase, NodesIn, OracleOk, Elems, TruthOk, Linked, InFlightOk, Flying, Unprocessed, OwnRepresentatives, Sunk;
      hide CoordinatorOk, CoordinatorRun, TakesOff, SomeLands, ConceptProcessed;
      var toProcess, unsatNodes: set<nat> := toProcess0, {};
      var inFlight: map<Element, nat> := map[];
      CoordinatorStarts(truth, p, h, told, workers, known, possible, toProcess, tick);
      ghost var state := Coordinator(known, possible, toProcess, unsatNodes, inFlight, tick);
      run := [state];
      RunStarts(truth, p, h, told, oracle, workers, state);
      var done := false;
      while !done
        invariant state == Coordinator(known, possible, toProcess, unsatNodes, inFlight, tick)
        invariant CoordinatorOk(truth, p, h, told, workers, state) && CoordinatorRun(truth, p, h, told, oracle, workers, run)
        invariant |run| > 0 && run[0] == Coordinator(old(known), old(possible), toProcess0, {}, map[], old(tick)) && run[|run| - 1] == state
        invariant |run| % 2 == if done then 0 else 1
        invariant done ==> Drained(state)
        decreases !done, Unprocessed(p, h, known, possible), |toProcess| + |inFlight|
      {
        toProcess, inFlight := FillPipeline(h, told, toProcess, unsatNodes, inFlight, workers);
        ghost var filled := Coordinator(known, possible, toProcess, unsatNodes, inFlight, tick);
        RunExtends(truth, p, h, told, oracle, workers, run, filled);
        run := run + [filled];
        state := filled;
        if inFlight.Keys == {} {
          assert inFlight == map[];
          done := true;
        } else {
          toProcess, unsatNodes, inFlight := ReceiveOne(h, told, toProcess, unsatNodes, inFlight, workers);
          state := Coordinator(known, possible, toProcess, unsatNodes, inFlight, tick);
          RunExtends(truth, p, h, told, oracle, workers, run, state);
          run := run + [state];
        }
      }
      CoordinatorEnds(truth, p, h, told, workers, state);
    }

    /** The dispatch loop of one round, within the governor's budget. */
    method FillPipeline(h: Hierarchy, ghost told: Graph<Element>, toProcess: seq<nat>, ghost unsatNodes: set<nat>, inFlight: map<Element, nat>, workers: nat)
      returns (toProcess': seq<nat>, inFlight': map<Element, nat>)
      requires LeafBase(truth, p, h, told)
      requires CoordinatorOk(truth, p, h, told, workers, Coordinator(known, possible, toProcess, unsatNodes, inFlight, tick))
      modifies this`tick
      ensures CoordinatorOk(truth, p, h, told, workers, Coordinator(known, possible, toProcess', unsatNodes, inFlight', tick))
      ensures CoordinatorStep(p, oracle, workers, Coordinator(known, possible, toProcess, unsatNodes, inFlight, old(tick)), Coordinator(known, possible, toProcess', unsatNodes, inFlight', tick), true)
      ensures |toProcess'| + |inFlight'| <= |toProcess| + |inFlight|
      ensures inFlight'.Keys == {} ==> toProcess' == []
    {
      hide LeafInv, LeafBase, NodesIn, Elems, TruthOk, Linked, InFlightOk, Flying, OwnRepresentatives, Sunk, ConceptProcessed, CoordinatorOk, TakesOff;
      LeafBaseFacts(truth, p, h, told);
      CoordinatorMeans(truth, p, h, told, workers, Coordinator(known, possible, toProcess, unsatNodes, inFlight, tick));
      ghost var s := Coordinator(known, possible, toProcess, unsatNodes, inFlight, tick);
      tick := tick + 1;
      var budget := if oracle.throttled(tick) || workers < 1 then 1 else workers;
      toProcess', inFlight' := Dispatch(p, h, known, possible, toProcess, inFlight, budget);
      ghost var t := Coordinator(known, possible, toProcess', unsatNodes, inFlight', tick);
      Filled(truth, p, h, told, workers, s, t, budget);
      FilledStep(p, oracle.throttled(tick), workers, s, t, budget);
      if inFlight'.Keys == {} {
        assert inFlight' == map[];
      }
    }

    /** Whichever in-flight build completes next is harvested, unless it is stale. */
    method ReceiveOne(h: Hierarchy, ghost told: Graph<Element>, toProcess: seq<nat>, unsatNodes: set<nat>, inFlight: map<Element, nat>, ghost workers: nat)
      returns (toProcess': seq<nat>, unsatNodes': set<nat>, inFlight': map<Element, nat>)
      requires LeafBase(truth, p, h, told) && OracleOk(truth, p, oracle) && inFlight.Keys != {}
      requires CoordinatorOk(truth, p, h, told, workers, Coordinator(known, possible, toProcess, unsatNodes, inFlight, tick))
      modifies this
      ensures CoordinatorOk(truth, p, h, told, workers, Coordinator(known, possible, toProcess', unsatNodes', inFlight', tick))
      ensures SomeLands(p, Coordinator(old(known), old(possible), toProcess, unsatNodes, inFlight, old(tick)), Coordinator(known, possible, toProcess', unsatNodes', inFlight', tick))
      ensures |inFlight'| < |inFlight|
      ensures Unprocessed(p, h, known, possible) < Unprocessed(p, h, old(known), old(possible)) ||
              (toProcess' == toProcess && known == old(known) && possible == old(possible))
    {
      hide LeafInv, LeafBase, Progress, NodesIn, OracleOk, Elems, Flying, InFlightOk, Unprocessed, Sunk, SubGraph, ConceptProcessed;
      var concept :| concept in inFlight.Keys;
      var node := inFlight[concept];
      inFlight' := inFlight - {concept};
      FlightLands(h, inFlight, concept);
      ghost var others := Flying(inFlight');
      assert Elems(toProcess) + Flying(inFlight) <= Elems(toProcess) + others + {node};
      LeafShrink(truth, p, h, told, known, possible, Elems(toProcess) + Flying(inFlight), Elems(toProcess) + others + {node});
      ghost var k, s := known, possible;
      toProcess', unsatNodes' := HarvestUnlessStale(h, told, node, toProcess, unsatNodes, others);
      if !Processed(p, h, k, s, node) {
        RoundProgress(p, h, k, s, known, possible, {node});
      }
      assert Lands(p, Coordinator(k, s, toProcess, unsatNodes, inFlight, old(tick)), Coordinator(known, possible, toProcess', unsatNodes', inFlight', tick), concept);
    }

    /** `update_subsumptions_using_leaf_node_strategy`, with or without a pool:
        afterwards every element is covered. */
    method UpdateUsingLeafNodeStrategy() returns (ghost toldHierarchy: Hierarchy, ghost run: seq<Coordinator>)
      requires Valid() && possible == map[] && p.bottom in Succ(known, p.bottom)
      modifies this
      ensures Valid() && PossibleOk(truth, p, possible)
      ensures forall e :: e in p.elements ==> Covered(truth, p, known, possible, e)
      ensures LeafPhase(truth, p, toldHierarchy, old(known), oracle, run)
      ensures oracle.streamingWorkers.Some? ==> |run| > 0 && run[|run| - 1].known == known && run[|run| - 1].possible == possible
    {
      hide LeafInv, LeafBase, NodesIn, OracleOk, TruthOk, Represents, Bounded, Linked, Sound, CoordinatorRun, LeafPhase, Covered, PossibleOk, Elems;
      var h := BuildTransitivelyReduced(truth, p, known);
      ghost var told := known;
      toldHierarchy, run := h, [];
      LeafStart(truth, p, h, told);
      LeafBaseFacts(truth, p, h, told);
      LinksIn(h, h.bottom);
      var toProcess: seq<nat> := InSomeOrder<nat>(h.nodes[h.bottom].parents);
      NodesInConcat(h, [], toProcess);
      assert [] + toProcess == toProcess;
      ElemsListing(h.nodes[h.bottom].parents, toProcess);
      match oracle.streamingWorkers {
        case Some(workers) => {
          run := LeafStreaming(h, told, toProcess, workers);
          LeafPhaseOf(truth, p, h, told, oracle, workers, run, toProcess);
        }
        case None => {
          ghost var rounds := LeafRounds(h, told, toProcess);
          NoLeafPhase(truth, p, h, told, oracle);
        }
      }
      LeafEnd(truth, p, h, told, known, possible);
    }

    /** Removes what is already known from the possibles of `e`. */
    method PruneByKnown(e: Element)
      requires TruthOk(truth, p) && ResolutionInv(truth, p, known, possible) && e in truth
      modifies this`possible
      ensures ResolutionInv(truth, p, known, possible) && Shrinks(old(possible), possible)
      ensures forall x :: x in Succ(possible, e) <==> x in Succ(old(possible), e) && !Reach(known, e, x)
    {
      hide ResolutionInv, TruthOk, Shrinks;
      var ks := ReachableFrom(known, e);
      RemoveKnownSettles(truth, p, known, possible, e, ks);
      possible := RemoveSuccessors(possible, e, ks);
    }

    /** The `Relation.doesSubsume` shortcut and test, against the live graphs. */
    method TestInPlace(e: Element, c: Element, ghost unknown: set<Element>) returns (subsumes: bool)
      requires OracleOk(truth, p, oracle) && InPlace(truth, p, known, possible, e, unknown) && !Unsat(truth, p, e)
      requires c in unknown || c == p.bottom
      modifies this
      ensures InPlace(truth, p, known, possible, e, unknown)
      ensures subsumes <==> c in truth[e]
      ensures SubGraph(old(known), known) && Shrinks(old(possible), possible)
      ensures KnownOf(old(known), e) <= KnownOf(known, e)
      ensures tick == old(tick) + if Reach(old(known), e, c) || c !in Succ(old(possible), e) then 0 else 1
    {
      InPlaceFacts(truth, p, known, possible, e, unknown);
      hide InPlace, OracleOk, TruthOk, Shrinks, SubGraph, GoodLabels;
      var ks := ReachableFrom(known, e);
      if c in ks {
        assert c in KnownOf(known, e);
        subsumes := true;
      } else if c !in Succ(possible, e) {
        assert c !in KnownOf(known, e);
        subsumes := false;
      } else {
        var answer := oracle.doesSubsume(tick, c, e);
        SubsumeAnswer(truth, p, oracle, tick, c, e);
        tick := tick + 1;
        subsumes := answer.0;
        if answer.1.Some? {
          HarvestReadOff(e, answer.1.value, unknown);
        }
        ghost var k, s := known, possible;
        ks := ReachableFrom(known, e);
        InPlaceRemove(truth, p, known, possible, e, unknown, ks);
        possible := RemoveSuccessors(possible, e, ks);
        ShrinksTrans(old(possible), s, possible);
      }
    }

    /** Harvesting the witnessing model of a negative subsumption test. */
    method HarvestReadOff(e: Element, readOff: ReadOff, ghost unknown: set<Element>)
      requires InPlace(truth, p, known, possible, e, unknown)
      requires KnownOk(truth, e, readOff.queryKnown)
      requires readOff.nodeLabels.Some? ==> GoodLabels(truth, p, readOff.nodeLabels.value)
      modifies this`known, this`possible
      ensures InPlace(truth, p, known, possible, e, unknown)
      ensures SubGraph(old(known), known) && Shrinks(old(possible), possible)
      ensures KnownOf(old(known), e) <= KnownOf(known, e)
      ensures known == AddEdges(old(known), e, readOff.queryKnown * p.elements)
      ensures possible == if readOff.nodeLabels.Some? then PruneAll(p, old(possible), readOff.nodeLabels.value) else old(possible)
    {
      InPlaceFacts(truth, p, known, possible, e, unknown);
      hide InPlace, TruthOk, Shrinks, SubGraph, GoodLabels, KnownOf;
      var sups := readOff.queryKnown * p.elements;
      InPlaceLearn(truth, p, known, possible, e, unknown, sups);
      known := AddEdges(known, e, sups);
      if readOff.nodeLabels.Some? {
        InPlacePrune(truth, p, known, possible, e, unknown, readOff.nodeLabels.value);
        possible := PrunePossibleSubsumers(p, possible, readOff.nodeLabels.value);
      }
    }

    /** One unvisited child of the small hierarchy, tested in place. */
    method VisitChildInPlace(e: Element, h: Hierarchy, ghost knownMap: Graph<Element>, ghost unknown: set<Element>, ghost small: set<Element>,
                             ghost current: nat, child: nat, ghost visited: set<nat>, queue: seq<nat>)
      returns (queue': seq<nat>)
      requires OracleOk(truth, p, oracle) && InPlace(truth, p, known, possible, e, unknown) && !Unsat(truth, p, e)
      requires small <= unknown && MapSound(truth, knownMap) && SmallHierarchy(p, small, knownMap, h)
      requires child < |h.nodes| && child !in visited
      requires TraversalInv(truth, h, e, visited, Elems(queue) + {current}, KnownOf(known, e))
      modifies this
      ensures InPlace(truth, p, known, possible, e, unknown)
      ensures SubGraph(old(known), known) && Shrinks(old(possible), possible) && KnownOf(old(known), e) <= KnownOf(known, e)
      ensures TraversalInv(truth, h, e, visited + {child}, Elems(queue') + {current}, KnownOf(known, e))
      ensures queue' == queue || queue' == queue + [child]
    {
      hide InPlace, OracleOk, TruthOk, Shrinks, SubGraph, SmallHierarchy, MapSound, KnownOf, TraversalInv, Elems;
      InPlaceFacts(truth, p, known, possible, e, unknown);
      TopVisited(truth, h, e, visited, Elems(queue) + {current}, KnownOf(known, e));
      SmallRepresentative(p, small, knownMap, h, child);
      var element := h.nodes[child].representative;
      ghost var K0 := KnownOf(known, e);
      var subsumes := TestInPlace(e, element, unknown);
      queue' := queue;
      if subsumes {
        ghost var k := known;
        var members := h.nodes[child].equivalents;
        MembersSubsume(truth, p, small, knownMap, h, e, child);
        InPlaceLearn(truth, p, known, possible, e, unknown, members + {element});
        known := AddEdges(known, e, members + {element});
        SubGraphTrans(old(known), k, known);
        queue' := queue + [child];
        ElemsConcat(queue, [child]);
        ElemsOne(child);
      }
      TraversalStep(truth, h, e, visited, Elems(queue) + {current}, K0, child, Elems(queue') + {current}, KnownOf(known, e));
    }

    /** The children of one confirmed node. */
    method VisitChildrenInPlace(e: Element, h: Hierarchy, ghost knownMap: Graph<Element>, ghost unknown: set<Element>, ghost small: set<Element>,
                                current: nat, visited: set<nat>, queue: seq<nat>)
      returns (visited': set<nat>, queue': seq<nat>)
      requires OracleOk(truth, p, oracle) && InPlace(truth, p, known, possible, e, unknown) && !Unsat(truth, p, e)
      requires small <= unknown && MapSound(truth, knownMap) && SmallHierarchy(p, small, knownMap, h) && Linked(h.nodes)
      requires current < |h.nodes| && NodesIn(h, queue)
      requires TraversalInv(truth, h, e, visited, Elems(queue) + {current}, KnownOf(known, e))
      modifies this
      ensures InPlace(truth, p, known, possible, e, unknown)
      ensures SubGraph(old(known), known) && Shrinks(old(possible), possible)
      ensures TraversalInv(truth, h, e, visited', Elems(queue'), KnownOf(known, e)) && NodesIn(h, queue')
      ensures visited <= visited' && (visited' == visited ==> queue' == queue)
    {
      hide InPlace, OracleOk, TruthOk, Shrinks, SubGraph, SmallHierarchy, MapSound, KnownOf, Linked, TraversalInv, Elems, NodesIn;
      InPlaceFacts(truth, p, known, possible, e, unknown);
      LinksIn(h, current);
      visited', queue' := visited, queue;
      var todo := h.nodes[current].children;
      while todo != {}
        invariant todo <= h.nodes[current].children && h.nodes[current].children - todo <= visited'
        invariant InPlace(truth, p, known, possible, e, unknown)
        invariant SubGraph(old(known), known) && Shrinks(old(possible), possible)
        invariant TraversalInv(truth, h, e, visited', Elems(queue') + {current}, KnownOf(known, e)) && NodesIn(h, queue')
        invariant visited <= visited' && (visited' == visited ==> queue' == queue)
      {
        var child: nat :| child in todo;
        if child !in visited' {
          ghost var k, s := known, possible;
          NodesInConcat(h, queue', [child]);
          queue' := VisitChildInPlace(e, h, knownMap, unknown, small, current, child, visited', queue');
          visited' := visited' + {child};
          SubGraphTrans(old(known), k, known);
          ShrinksTrans(old(possible), s, possible);
        }
        todo := todo - {child};
      }
      TraversalClose(truth, h, e, visited', Elems(queue') + {current}, KnownOf(known, e), current);
      TraversalWiden(truth, h, e, visited', Elems(queue') + {current} - {current}, Elems(queue'), KnownOf(known, e));
    }

    /** `check_unknown_subsumers_using_enhanced_traversal`. */
    method TraverseInPlace(e: Element, h: Hierarchy, ghost knownMap: Graph<Element>, ghost unknown: set<Element>, ghost small: set<Element>)
      requires OracleOk(truth, p, oracle) && InPlace(truth, p, known, possible, e, unknown) && !Unsat(truth, p, e)
      requires small <= unknown && MapSound(truth, knownMap) && SmallHierarchy(p, small, knownMap, h)
      modifies this
      ensures InPlace(truth, p, known, possible, e, unknown)
      ensures SubGraph(old(known), known) && Shrinks(old(possible), possible)
      ensures forall b :: b in small && b in truth[e] ==>
        b in KnownOf(known, e) || Reach(SmallGraph(p, small, knownMap), p.top, b)
    {
      hide InPlace, OracleOk, TruthOk, Shrinks, SubGraph, SmallHierarchy, MapSound, KnownOf, Linked, TraversalInv, Elems, SmallGraph;
      InPlaceFacts(truth, p, known, possible, e, unknown);
      SmallFacts(p, small, knownMap, h);
      TraversalStart(truth, h, e, KnownOf(known, e));
      var visited: set<nat> := {h.top};
      var queue: seq<nat> := [h.top];
      ElemsOne(h.top);
      while |queue| > 0
        invariant InPlace(truth, p, known, possible, e, unknown)
        invariant SubGraph(old(known), known) && Shrinks(old(possible), possible)
        invariant TraversalInv(truth, h, e, visited, Elems(queue), KnownOf(known, e)) && NodesIn(h, queue)
        decreases AllNodes(h) - visited, |queue|
      {
        ghost var k, s := known, possible;
        var current: nat := queue[0];
        ElemsFirst(queue);
        visited, queue := VisitChildrenInPlace(e, h, knownMap, unknown, small, current, visited, queue[1..]);
        SubGraphTrans(old(known), k, known);
        ShrinksTrans(old(possible), s, possible);
        VisitedInRange(truth, h, e, visited, Elems(queue), KnownOf(known, e));
      }
      ElemsNone(queue);
      forall b | b in small && b in truth[e] ensures b in KnownOf(known, e) || Reach(SmallGraph(p, small, knownMap), p.top, b) {
        TraversalComplete(truth, p, small, knownMap, h, e, visited, KnownOf(known, e), b);
      }
    }

    /** `is_every_possible_subsumer_non_subsumer`: the batched union test. */
    method IsEveryPossibleNonSubsumer(e: Element, ghost unknown: set<Element>) returns (refuted: bool)
      requires OracleOk(truth, p, oracle) && InPlace(truth, p, known, possible, e, unknown)
      requires unknown == Succ(possible, e)
      modifies this
      ensures InPlace(truth, p, known, possible, e, unknown)
      ensures SubGraph(old(known), known) && Shrinks(old(possible), possible)
      ensures refuted ==> forall b :: b in unknown ==> b !in truth[e]
      ensures tick == old(tick) + if 3 <= |unknown| <= 6 then 1 else 0
    {
      InPlaceFacts(truth, p, known, possible, e, unknown);
      hide InPlace, OracleOk, TruthOk, Shrinks, SubGraph, KnownOf;
      refuted := false;
      var candidates := Succ(possible, e);
      if 2 < |candidates| < 7 {
        var answer := oracle.isSubsumedByUnion(tick, e, candidates);
        UnionAnswer(truth, p, oracle, tick, e, candidates);
        tick := tick + 1;
        if answer.Some? {
          if answer.value.subsumed {
            var sups := answer.value.queryKnown * p.elements;
            InPlaceLearn(truth, p, known, possible, e, unknown, sups);
            known := AddEdges(known, e, sups);
            var ks := ReachableFrom(known, e);
            InPlaceRemove(truth, p, known, possible, e, unknown, ks);
            possible := RemoveSuccessors(possible, e, ks);
          }
          refuted := !answer.value.subsumed;
        }
      }
    }

    /** `resolve_one_picked`: settles one element against the live graphs. */
    method ResolveOnePicked(e: Element)
      requires TruthOk(truth, p) && OracleOk(truth, p, oracle) && ResolutionInv(truth, p, known, possible)
      requires e in truth && !Unsat(truth, p, e)
      modifies this
      ensures ResolutionInv(truth, p, known, possible)
      ensures SubGraph(old(known), known) && Shrinks(old(possible), possible) && Succ(possible, e) == {}
    {
      ghost var unknown := Succ(possible, e);
      InPlaceStart(truth, p, known, possible, e);
      assert Settled(truth, p, known, unknown, e);
      InPlaceFacts(truth, p, known, possible, e, unknown);
      hide InPlace, OracleOk, TruthOk, Shrinks, SubGraph, KnownOf, ResolutionInv, MapWithin, MapSound, SmallHierarchy, SmallGraph, Settled;
      var refuted := IsEveryPossibleNonSubsumer(e, unknown);
      InPlaceFacts(truth, p, known, possible, e, unknown);
      InPlaceSound(truth, p, known, possible, e, unknown);
      ghost var middle, s := known, possible;
      SettledMono(truth, p, old(known), known, unknown, e);
      ghost var knownMap: Graph<Element> := map[];
      ghost var small := Succ(possible, e);
      MapWithinNone(known);
      if !refuted && Succ(possible, e) != {} {
        var km := SnapshotKnown(known, Succ(possible, e));
        knownMap := km;
        MapWithinSound(truth, p, known, km);
        var h := BuildSmallHierarchy(truth, p, Succ(possible, e), km);
        TraverseInPlace(e, h, km, unknown, small);
        SubGraphTrans(old(known), middle, known);
        ShrinksTrans(old(possible), s, possible);
        MiddleCandidates(truth, p, middle, s, known, e, unknown, km);
      } else {
        NoCandidates(truth, p, known, possible, e, unknown, refuted);
      }
      InPlaceSound(truth, p, known, possible, e, unknown);
      InPlaceDone(truth, p, middle, s, known, e, unknown, small, knownMap);
      ghost var t := possible;
      ClearSettles(truth, p, known, possible, e);
      possible := ClearSuccessors(possible, e);
      ShrinksTrans(old(possible), t, possible);
    }

    /** `build_resolve_task`: snapshot what the resolution of `e` reads. */
    method BuildResolveTask(e: Element) returns (task: ResolveTask)
      requires TruthOk(truth, p) && ResolutionInv(truth, p, known, possible) && e in truth && !Unsat(truth, p, e)
      ensures task.picked == e && task.unknown == Succ(possible, e) && TaskCovers(truth, p, known, task)
    {
      var unknown := Succ(possible, e);
      assert Settled(truth, p, known, unknown, e);
      var knownMap := SnapshotKnown(known, unknown + {e});
      task := ResolveTask(e, unknown, knownMap);
    }

    /** `harvest_resolve_delta`: fold a worker's delta into the live graphs. */
    method HarvestResolveDelta(delta: ResolveDelta, ghost task: ResolveTask)
      requires TruthOk(truth, p) && ResolutionInv(truth, p, known, possible)
      requires TaskCovers(truth, p, known, task) && DeltaOk(truth, p, known, task, delta)
      modifies this`known, this`possible
      ensures ResolutionInv(truth, p, known, possible)
      ensures SubGraph(old(known), known) && Shrinks(old(possible), possible) && Succ(possible, task.picked) == {}
      ensures known == AddEdges(old(known), delta.picked, delta.newKnowns)
      ensures possible == ClearSuccessors(PruneAll(p, old(possible), delta.prunedLabels), delta.picked)
    {
      hide ResolutionInv, TruthOk, TaskCovers, Shrinks, SubGraph, PruneAll;
      DeltaSettles(truth, p, known, possible, task, delta);
      known := AddEdges(known, delta.picked, delta.newKnowns);
      var pruned := PrunePossibleSubsumers(p, possible, delta.prunedLabels);
      possible := ClearSuccessors(pruned, delta.picked);
    }

    /** The dispatch loop of the streaming resolution: scans forward, drops what
        is settled, snapshots and dispatches the rest until the pool is full. */
    method DispatchTasks(unclassified: seq<Element>, cursor: nat, flight: seq<ResolveTask>, ghost slots: seq<nat>, workers: nat)
      returns (cursor': nat, flight': seq<ResolveTask>, ghost slots': seq<nat>)
      requires TruthOk(truth, p) && ResolutionInv(truth, p, known, possible)
      requires AllSatisfiable(truth, p, unclassified) && cursor <= |unclassified| && (|flight| <= workers || |flight| <= 1)
      requires InFlightTasks(truth, p, known, flight) && Handled(possible, unclassified, cursor, flight)
      requires InSlots(unclassified, cursor, flight, slots)
      modifies this`possible
      ensures ResolutionInv(truth, p, known, possible) && Shrinks(old(possible), possible)
      ensures cursor <= cursor' <= |unclassified| && (|flight'| <= workers || |flight'| <= 1)
      ensures |unclassified| - cursor' + |flight'| <= |unclassified| - cursor + |flight|
      ensures flight' == [] ==> cursor' == |unclassified|
      ensures InFlightTasks(truth, p, known, flight') && Handled(possible, unclassified, cursor', flight')
      ensures InSlots(unclassified, cursor', flight', slots')
      ensures TakesTasks(unclassified, workers, Resolving(known, old(possible), cursor, flight, slots), Resolving(known, possible, cursor', flight', slots'))
    {
      hide ResolutionInv, TruthOk, TaskCovers, Shrinks, Handled, InFlightTasks, AllSatisfiable, InSlots;
      cursor', flight', slots' := cursor, flight, slots;
      var width := if workers < 1 then 1 else workers;
      ShrinksRefl(possible);
      while |flight'| < width && cursor' < |unclassified|
        invariant ResolutionInv(truth, p, known, possible) && Shrinks(old(possible), possible)
        invariant cursor <= cursor' <= |unclassified| && |flight'| <= width
        invariant |unclassified| - cursor' + |flight'| <= |unclassified| - cursor + |flight|
        invariant InFlightTasks(truth, p, known, flight') && Handled(possible, unclassified, cursor', flight')
        invariant InSlots(unclassified, cursor', flight', slots') && flight <= flight' && slots <= slots'
        invariant forall k :: |slots| <= k < |slots'| ==> cursor <= slots'[k] < cursor'
        invariant forall j :: cursor <= j < cursor' ==> j in slots' || Succ(possible, unclassified[j]) == {}
        decreases |unclassified| - cursor'
      {
        var e := unclassified[cursor'];
        SatisfiableAt(truth, p, unclassified, cursor');
        ghost var s := possible;
        PruneByKnown(e);
        ShrinksTrans(old(possible), s, possible);
        HandledShrinks(s, possible, unclassified, cursor', flight');
        ShrinksAt(s, possible);
        if Succ(possible, e) != {} {
          var task := BuildResolveTask(e);
          SlotsWith(unclassified, cursor', flight', slots', task);
          slots' := slots' + [cursor'];
          HandledDispatch(truth, p, known, possible, unclassified, cursor', flight', task);
          flight' := flight' + [task];
        } else {
          HandledSkip(possible, unclassified, cursor', flight');
          SlotsLater(unclassified, cursor', flight', slots');
        }
        cursor' := cursor' + 1;
      }
    }

    /** `try_streaming_resolution`: tasks run against snapshots, and their deltas
        are folded in whatever order they complete. `run` is the whole run. */
    method StreamingResolution(unclassified: seq<Element>, workers: nat) returns (ghost run: seq<Resolving>)
      requires TruthOk(truth, p) && OracleOk(truth, p, oracle) && ResolutionInv(truth, p, known, possible)
      requires AllSatisfiable(truth, p, unclassified)
      modifies this
      ensures ResolutionInv(truth, p, known, possible)
      ensures SubGraph(old(known), known) && Shrinks(old(possible), possible)
      ensures forall e :: e in unclassified ==> Succ(possible, e) == {}
      ensures ResolvingRun(truth, p, unclassified, workers, run)
      ensures |run| > 0 && run[0] == Resolving(old(known), old(possible), 0, [], [])
      ensures run[|run| - 1] == Resolving(known, possible, |unclassified|, [], [])
    {
      hide ResolutionInv, TruthOk, OracleOk, TaskCovers, Shrinks, SubGraph, Handled, InFlightTasks, AllSatisfiable, DeltaOk, InSlots, TakesTasks, SomeTaskLands, ResolvingRun;
      var cursor, flight, done := 0, [], false;
      ghost var slots: seq<nat> := [];
      StreamStart(truth, p, known, possible, unclassified);
      ResolvingStarts(truth, p, unclassified, workers, known, possible);
      ghost var state := Resolving(known, possible, cursor, flight, slots);
      run := [state];
      while !done
        invariant state == Resolving(known, possible, cursor, flight, slots) && ResolvingOk(truth, p, unclassified, workers, state)
        invariant SubGraph(old(known), known) && Shrinks(old(possible), possible) && cursor <= |unclassified|
        invariant ResolvingRun(truth, p, unclassified, workers, run)
        invariant |run| > 0 && run[0] == Resolving(old(known), old(possible), 0, [], []) && run[|run| - 1] == state
        invariant |run| % 2 == if done then 0 else 1
        invariant done ==> cursor == |unclassified| && flight == [] && slots == []
        decreases !done, |unclassified| - cursor + |flight|
      {
        ghost var s := possible;
        cursor, flight, slots := DispatchTasks(unclassified, cursor, flight, slots, workers);
        ShrinksTrans(old(possible), s, possible);
        state := Resolving(known, possible, cursor, flight, slots);
        ResolvingExtends(truth, p, unclassified, workers, run, state);
        run := run + [state];
        SlotCount(unclassified, cursor, flight, slots);
        if |flight| == 0 {
          done := true;
        } else {
          var i :| 0 <= i < |flight|;
          flight, slots := ReceiveDelta(unclassified, cursor, flight, slots, workers, i);
          SubGraphTrans(old(known), state.known, known);
          ShrinksTrans(old(possible), state.possible, possible);
          state := Resolving(known, possible, cursor, flight, slots);
          ResolvingExtends(truth, p, unclassified, workers, run, state);
          run := run + [state];
        }
      }
      StreamEnd(possible, unclassified);
    }

    /** The delta of the `i`-th task in flight arrives and is folded in. */
    method ReceiveDelta(ghost unclassified: seq<Element>, ghost cursor: nat, flight: seq<ResolveTask>, ghost slots: seq<nat>, ghost workers: nat, i: nat)
      returns (flight': seq<ResolveTask>, ghost slots': seq<nat>)
      requires TruthOk(truth, p) && OracleOk(truth, p, oracle) && i < |flight|
      requires ResolvingOk(truth, p, unclassified, workers, Resolving(known, possible, cursor, flight, slots))
      modifies this
      ensures ResolvingOk(truth, p, unclassified, workers, Resolving(known, possible, cursor, flight', slots'))
      ensures SomeTaskLands(Resolving(old(known), old(possible), cursor, flight, slots), Resolving(known, possible, cursor, flight', slots'))
      ensures |flight'| == |flight| - 1 && SubGraph(old(known), known) && Shrinks(old(possible), possible)
    {
      hide ResolutionInv, TruthOk, OracleOk, TaskCovers, Shrinks, SubGraph, Handled, InFlightTasks, DeltaOk, InSlots;
      var task := flight[i];
      ghost var k, t := known, possible;
      TaskAt(truth, p, known, possible, flight, i);
      var delta;
      delta, tick := ResolvePickedIsolated(truth, p, oracle, known, task, tick);
      HarvestResolveDelta(delta, task);
      TaskDone(truth, p, k, known, t, possible, unclassified, cursor, flight, i);
      SlotCount(unclassified, cursor, flight, slots);
      SlotsWithout(unclassified, cursor, flight, slots, i);
      flight', slots' := flight[..i] + flight[i + 1..], slots[..i] + slots[i + 1..];
      assert LandsTask(Resolving(k, t, cursor, flight, slots), Resolving(known, possible, cursor, flight', slots'), i);
    }

    /** Scans `unclassified` for the first element with possibles left; everything
        before it is classified. */
    method PickUnclassified(unclassified: seq<Element>) returns (picked: Option<Element>, classified: set<Element>)
      requires TruthOk(truth, p) && ResolutionInv(truth, p, known, possible) && AllSatisfiable(truth, p, unclassified)
      modifies this`possible
      ensures ResolutionInv(truth, p, known, possible) && Shrinks(old(possible), possible)
      ensures forall e :: e in classified ==> e in unclassified && Succ(possible, e) == {}
      ensures picked.Some? ==> FirstLeft(unclassified, classified, picked.value) && Succ(possible, picked.value) != {}
      ensures picked.None? ==> forall e :: e in unclassified ==> e in classified
    {
      hide ResolutionInv, TruthOk, Shrinks, AllSatisfiable;
      picked, classified := None, {};
      ShrinksRefl(possible);
      var i := 0;
      while i < |unclassified| && picked.None?
        invariant 0 <= i <= |unclassified|
        invariant ResolutionInv(truth, p, known, possible) && Shrinks(old(possible), possible)
        invariant forall e :: e in classified ==> e in unclassified && Succ(possible, e) == {}
        invariant forall j :: 0 <= j < i ==> unclassified[j] in classified
        invariant picked.Some? ==> i < |unclassified| && picked.value == unclassified[i] && Succ(possible, picked.value) != {}
        decreases |unclassified| - i, picked.None?
      {
        var e := unclassified[i];
        SatisfiableAt(truth, p, unclassified, i);
        ghost var s := possible;
        PruneByKnown(e);
        ShrinksTrans(old(possible), s, possible);
        EmptyShrinks(s, possible, classified);
        if Succ(possible, e) != {} {
          picked := Some(e);
        } else {
          classified := classified + {e};
          i := i + 1;
        }
      }
    }

    /** The serial resolution loop of `classify_with_monitor`. */
    method SerialResolution(unclassified0: seq<Element>)
      requires TruthOk(truth, p) && OracleOk(truth, p, oracle) && ResolutionInv(truth, p, known, possible)
      requires AllSatisfiable(truth, p, unclassified0)
      modifies this
      ensures ResolutionInv(truth, p, known, possible)
      ensures SubGraph(old(known), known) && Shrinks(old(possible), possible)
      ensures forall e :: e in unclassified0 ==> Succ(possible, e) == {}
    {
      hide ResolutionInv, TruthOk, OracleOk, Shrinks, SubGraph, AllSatisfiable;
      var unclassified := unclassified0;
      StreamStart(truth, p, known, possible, unclassified);
      while |unclassified| > 0
        invariant ResolutionInv(truth, p, known, possible) && AllSatisfiable(truth, p, unclassified)
        invariant SubGraph(old(known), known) && Shrinks(old(possible), possible)
        invariant forall e :: e in unclassified0 ==> e in unclassified || Succ(possible, e) == {}
        decreases 2 * |unclassified| + (if |unclassified| > 0 && Succ(possible, unclassified[0]) != {} then 1 else 0)
      {
        ghost var k, s, before := known, possible, unclassified;
        var picked, classified := PickUnclassified(unclassified);
        ShrinksTrans(old(possible), s, possible);
        ShrinksAt(s, possible);
        unclassified := DropClassified(unclassified, classified);
        RetainSatisfiable(truth, p, before, classified);
        if picked.Some? {
          ghost var t := possible;
          PickedSatisfiable(truth, p, before, picked.value);
          ResolveOnePicked(picked.value);
          SubGraphTrans(old(known), k, known);
          ShrinksTrans(old(possible), t, possible);
          ShrinksAt(t, possible);
        } else {
          RetainNone(before, classified);
        }
      }
    }

    /** Splits off the elements that still have genuinely unknown possibles. */
    method CollectUnclassified() returns (unclassified: seq<Element>)
      requires TruthOk(truth, p) && ResolutionInv(truth, p, known, possible) && PossibleOk(truth, p, possible)
      modifies this`possible
      ensures ResolutionInv(truth, p, known, possible) && Shrinks(old(possible), possible)
      ensures AllSatisfiable(truth, p, unclassified) && Distinct(unclassified)
      ensures forall e :: e in truth && !Unsat(truth, p, e) ==> e in unclassified || Succ(possible, e) == {}
    {
      hide ResolutionInv, PossibleOk, TruthOk, Shrinks, AllSatisfiable, Sound;
      TruthKeys(truth, p);
      unclassified := [];
      var todo := p.elements;
      ShrinksRefl(possible);
      NoneSatisfiable(truth, p);
      while todo != {}
        invariant todo <= p.elements
        invariant ResolutionInv(truth, p, known, possible) && Shrinks(old(possible), possible)
        invariant AllSatisfiable(truth, p, unclassified) && Distinct(unclassified)
        invariant forall k :: 0 <= k < |unclassified| ==> unclassified[k] !in todo
        invariant forall e :: e in p.elements - todo && !Unsat(truth, p, e) ==> e in unclassified || Succ(possible, e) == {}
      {
        var e :| e in todo;
        if p.bottom !in Succ(known, e) {
          ghost var s := possible;
          PruneByKnown(e);
          ShrinksTrans(old(possible), s, possible);
          ShrinksAt(s, possible);
          if Succ(possible, e) != {} {
            NonemptySatisfiable(truth, p, old(possible), possible, unclassified, e);
            unclassified := unclassified + [e];
          }
        } else {
          DirectlyUnsat(truth, p, known, possible, e);
        }
        todo := todo - {e};
      }
    }

    /** `classify`: for every oracle meeting its contract, with or without pools and
        whatever the completion order, the result is the hierarchy of the truth. */
    method Classify() returns (h: Hierarchy, ghost runs: Runs)
      requires Valid() && possible == map[]
      modifies this
      ensures Represents(h, truth) && Bounded(h, truth, p.top, p.bottom)
      ensures LeafPhase(truth, p, runs.told, AddEdge(old(known), p.bottom, p.bottom), oracle, runs.leaf)
      ensures ResolutionPhase(truth, p, oracle.resolutionWorkers, runs.unclassified, runs.resolution, known, possible)
    {
      AddEdgesSound(truth, known, p.bottom, {p.bottom});
      known := AddEdge(known, p.bottom, p.bottom);
      ghost var toldHierarchy, leafRun := UpdateUsingLeafNodeStrategy();
      ghost var k, leaf := known, possible;
      CoveredSettles(truth, p, known, possible);
      assert TruthOk(truth, p) && OracleOk(truth, p, oracle);
      hide ResolutionInv, PossibleOk, TruthOk, OracleOk, Shrinks, SubGraph, AllSatisfiable, Sound, Represents, Bounded, Covered, LeafPhase, ResolvingRun;
      var unclassified := CollectUnclassified();
      ghost var s := possible;
      ghost var resolutionRun: seq<Resolving> := [];
      match oracle.resolutionWorkers {
        case Some(workers) => {
          resolutionRun := StreamingResolution(unclassified, workers);
        }
        case None => SerialResolution(unclassified);
      }
      ShrinksAt(s, possible);
      UnsatStays(truth, p, k, leaf, known);
      ResolutionExact(truth, p, known, possible);
      SettledSound(truth, p, known, possible);
      runs := Runs(toldHierarchy, leafRun, unclassified, resolutionRun);
      h := BuildTransitivelyReduced(truth, p, known);
      RepresentsTransfer(h, Extended(p, known), truth, p.top, p.bottom);
    }
  }

  /** `e` is listed, and everything before it is classified. */
  ghost predicate FirstLeft(unclassified: seq<Element>, classified: set<Element>, e: Element) {
    exists i :: 0 <= i < |unclassified| && unclassified[i] == e && forall j :: 0 <= j < i ==> unclassified[j] in classified
  }

  /** `Vec::retain(|e| !classified.contains(e))`. */
  function DropClassified(es: seq<Element>, classified: set<Element>): (r: seq<Element>)
    ensures forall e :: e in r <==> e in es && e !in classified
    ensures |r| <= |es| && (|r| == |es| ==> r == es)
  {
    if |es| == 0 then []
    else
      var rest := DropClassified(es[1..], classified);
      assert es == [es[0]] + es[1..];
      if es[0] in classified then rest else [es[0]] + rest
  }

  lemma RetainSatisfiable(truth: Graph<Element>, p: Problem, es: seq<Element>, classified: set<Element>)
    requires AllSatisfiable(truth, p, es)
    ensures AllSatisfiable(truth, p, DropClassified(es, classified))
  {
    var r := DropClassified(es, classified);
    forall i | 0 <= i < |r| ensures r[i] in truth && !Unsat(truth, p, r[i]) {
      assert r[i] in es;
    }
  }

  lemma {:induction false} RetainNone(es: seq<Element>, classified: set<Element>)
    requires forall e :: e in es ==> e in classified
    ensures DropClassified(es, classified) == []
  {
    if |es| > 0 {
      assert es[0] in es && es == [es[0]] + es[1..];
      RetainNone(es[1..], classified);
    }
  }

  lemma PickedSatisfiable(truth: Graph<Element>, p: Problem, es: seq<Element>, e: Element)
    requires AllSatisfiable(truth, p, es) && e in es
    ensures e in truth && !Unsat(truth, p, e)
  {
  }

  lemma EmptyShrinks(possible: Graph<Element>, possible': Graph<Element>, es: set<Element>)
    requires Shrinks(possible, possible') && forall e :: e in es ==> Succ(possible, e) == {}
    ensures forall e :: e in es ==> Succ(possible', e) == {}
  {
  }

  lemma ShrinksAt(possible: Graph<Element>, possible': Graph<Element>)
    requires Shrinks(possible, possible')
    ensures forall e :: Succ(possible, e) == {} ==> Succ(possible', e) == {}
  {
  }

  lemma TruthKeys(truth: Graph<Element>, p: Problem)
    requires TruthOk(truth, p)
    ensures truth.Keys == p.elements
  {
  }

  lemma NoneSatisfiable(truth: Graph<Element>, p: Problem)
    ensures AllSatisfiable(truth, p, [])
  {
  }

  lemma NonemptySatisfiable(truth: Graph<Element>, p: Problem, leaf: Graph<Element>, possible: Graph<Element>, es: seq<Element>, e: Element)
    requires PossibleOk(truth, p, leaf) && Shrinks(leaf, possible) && Succ(possible, e) != {} && AllSatisfiable(truth, p, es)
    ensures AllSatisfiable(truth, p, es + [e])
  {
    assert Succ(possible, e) <= Succ(leaf, e);
    assert PossibleAt(truth, p, leaf, e);
  }

  lemma DirectlyUnsat(truth: Graph<Element>, p: Problem, known: Graph<Element>, possible: Graph<Element>, e: Element)
    requires ResolutionInv(truth, p, known, possible) && p.bottom in Succ(known, e)
    ensures Unsat(truth, p, e)
  {
  }

  lemma SettledSound(truth: Graph<Element>, p: Problem, known: Graph<Element>, possible: Graph<Element>)
    requires ResolutionInv(truth, p, known, possible)
    ensures Sound(truth, known)
  {
  }

  lemma UnsatStays(truth: Graph<Element>, p: Problem, leaf: Graph<Element>, possible: Graph<Element>, known: Graph<Element>)
    requires TruthOk(truth, p) && SubGraph(leaf, known)
    requires forall e :: e in p.elements ==> Covered(truth, p, leaf, possible, e)
    ensures forall e :: Unsat(truth, p, e) ==> Reach(Extended(p, known), e, p.bottom)
  {
    forall e | Unsat(truth, p, e) ensures Reach(Extended(p, known), e, p.bottom) {
      ExtendedMono(p, leaf, known, e, p.bottom);
    }
  }

  ghost predicate AllSatisfiable(truth: Graph<Element>, p: Problem, es: seq<Element>) {
    forall i :: 0 <= i < |es| ==> es[i] in truth && !Unsat(truth, p, es[i])
  }

  ghost predicate InFlightTasks(truth: Graph<Element>, p: Problem, known: Graph<Element>, flight: seq<ResolveTask>) {
    forall i :: 0 <= i < |flight| ==> TaskCovers(truth, p, known, flight[i])
  }

  ghost predicate IsInFlight(flight: seq<ResolveTask>, e: Element) {
    exists j :: 0 <= j < |flight| && flight[j].picked == e
  }

  /** Every element scanned so far is settled or in flight. */
  ghost predicate Handled(possible: Graph<Element>, unclassified: seq<Element>, cursor: nat, flight: seq<ResolveTask>) {
    cursor <= |unclassified| &&
    forall i :: 0 <= i < cursor ==> Succ(possible, unclassified[i]) == {} || IsInFlight(flight, unclassified[i])
  }

  lemma SatisfiableAt(truth: Graph<Element>, p: Problem, es: seq<Element>, i: nat)
    requires AllSatisfiable(truth, p, es) && i < |es|
    ensures es[i] in truth && !Unsat(truth, p, es[i])
  {
  }

  lemma ShrinksRefl(possible: Graph<Element>)
    ensures Shrinks(possible, possible)
  {
  }

  lemma HandledShrinks(possible: Graph<Element>, possible': Graph<Element>, unclassified: seq<Element>, cursor: nat, flight: seq<ResolveTask>)
    requires Handled(possible, unclassified, cursor, flight) && Shrinks(possible, possible')
    ensures Handled(possible', unclassified, cursor, flight)
  {
  }

  lemma HandledSkip(possible: Graph<Element>, unclassified: seq<Element>, cursor: nat, flight: seq<ResolveTask>)
    requires Handled(possible, unclassified, cursor, flight) && cursor < |unclassified| && Succ(possible, unclassified[cursor]) == {}
    ensures Handled(possible, unclassified, cursor + 1, flight)
  {
  }

  lemma HandledDispatch(truth: Graph<Element>, p: Problem, known: Graph<Element>, possible: Graph<Element>,
                        unclassified: seq<Element>, cursor: nat, flight: seq<ResolveTask>, task: ResolveTask)
    requires Handled(possible, unclassified, cursor, flight) && cursor < |unclassified| && task.picked == unclassified[cursor]
    requires InFlightTasks(truth, p, known, flight) && TaskCovers(truth, p, known, task)
    ensures Handled(possible, unclassified, cursor + 1, flight + [task])
    ensures InFlightTasks(truth, p, known, flight + [task])
  {
    var flight' := flight + [task];
    assert flight'[|flight|] == task;
    forall i | 0 <= i < cursor && IsInFlight(flight, unclassified[i]) ensures IsInFlight(flight', unclassified[i]) {
      var j :| 0 <= j < |flight| && flight[j].picked == unclassified[i];
      assert flight'[j] == flight[j];
    }
  }

  lemma StreamStart(truth: Graph<Element>, p: Problem, known: Graph<Element>, possible: Graph<Element>, unclassified: seq<Element>)
    ensures InFlightTasks(truth, p, known, []) && Handled(possible, unclassified, 0, [])
    ensures SubGraph(known, known) && Shrinks(possible, possible)
  {
  }

  lemma StreamEnd(possible: Graph<Element>, unclassified: seq<Element>)
    requires Handled(possible, unclassified, |unclassified|, [])
    ensures forall e :: e in unclassified ==> Succ(possible, e) == {}
  {
  }

  lemma TaskAt(truth: Graph<Element>, p: Problem, known: Graph<Element>, possible: Graph<Element>, flight: seq<ResolveTask>, i: nat)
    requires InFlightTasks(truth, p, known, flight) && i < |flight| && ResolutionInv(truth, p, known, possible)
    ensures TaskCovers(truth, p, known, flight[i]) && TaskOk(truth, p, known, flight[i]) && Sound(truth, known)
  {
  }

  lemma TaskDone(truth: Graph<Element>, p: Problem, known: Graph<Element>, known': Graph<Element>, possible: Graph<Element>, possible': Graph<Element>,
                 unclassified: seq<Element>, cursor: nat, flight: seq<ResolveTask>, i: nat)
    requires InFlightTasks(truth, p, known, flight) && Handled(possible, unclassified, cursor, flight) && i < |flight|
    requires SubGraph(known, known') && Shrinks(possible, possible') && Succ(possible', flight[i].picked) == {}
    ensures InFlightTasks(truth, p, known', flight[..i] + flight[i + 1..])
    ensures Handled(possible', unclassified, cursor, flight[..i] + flight[i + 1..])
  {
    var flight' := flight[..i] + flight[i + 1..];
    forall j | 0 <= j < |flight'| ensures TaskCovers(truth, p, known', flight'[j]) {
      TaskCoversMono(truth, p, known, known', flight'[j]);
    }
    forall k | 0 <= k < cursor ensures Succ(possible', unclassified[k]) == {} || IsInFlight(flight', unclassified[k]) {
      assert Succ(possible', unclassified[k]) <= Succ(possible, unclassified[k]);
      if IsInFlight(flight, unclassified[k]) && unclassified[k] != flight[i].picked {
        var j :| 0 <= j < |flight| && flight[j].picked == unclassified[k];
        assert flight'[if j < i then j else j - 1] == flight[j];
      }
    }
  }

  ghost predicate AllKnownSubsumers(known: Graph<Element>, u: Element, s: set<Element>) {
    forall x :: x in s <==> Reach(known, u, x)
  }

  /** The reachability a resolution reads: all known subsumers of `us`. */
  method SnapshotKnown(known: Graph<Element>, us: set<Element>) returns (r: Graph<Element>)
    ensures r.Keys == us && MapWithin(known, r)
    ensures forall u :: u in us ==> AllKnownSubsumers(known, u, r[u])
  {
    r := map[];
    var todo := us;
    while todo != {}
      invariant todo <= us && r.Keys == us - todo
      invariant forall u :: u in r ==> AllKnownSubsumers(known, u, r[u])
    {
      var u :| u in todo;
      var ks := ReachableFrom(known, u);
      r := r[u := ks];
      todo := todo - {u};
    }
    forall u, x | x in Succ(r, u) ensures Reach(known, u, x) {
      assert AllKnownSubsumers(known, u, r[u]);
    }
  }

  lemma MapWithinNone(known: Graph<Element>)
    ensures MapWithin(known, map[]) && SubGraph(known, known)
  {
  }

  lemma InPlaceSound(truth: Graph<Element>, p: Problem, known: Graph<Element>, possible: Graph<Element>, e: Element, unknown: set<Element>)
    requires InPlace(truth, p, known, possible, e, unknown)
    ensures Sound(truth, known) && ResolutionInv(truth, p, known, possible)
  {
  }

  /** Candidates dropped before the traversal were known by then, and still are. */
  lemma MiddleCandidates(truth: Graph<Element>, p: Problem, middle: Graph<Element>, possible: Graph<Element>, known: Graph<Element>,
                         e: Element, unknown: set<Element>, knownMap: Graph<Element>)
    requires InPlace(truth, p, middle, possible, e, unknown) && SubGraph(middle, known)
    requires forall b :: b in Succ(possible, e) && b in truth[e] ==>
      b in KnownOf(known, e) || Reach(SmallGraph(p, Succ(possible, e), knownMap), p.top, b)
    ensures forall b :: b in unknown && b in truth[e] ==>
      b in KnownOf(known, e) || Reach(SmallGraph(p, Succ(possible, e), knownMap), p.top, b)
  {
    forall b | b in unknown && b in truth[e] && b !in Succ(possible, e) ensures b in KnownOf(known, e) {
      assert b in KnownOf(middle, e);
      ReachMono(middle, known, e, b);
    }
  }

  lemma NoCandidates(truth: Graph<Element>, p: Problem, known: Graph<Element>, possible: Graph<Element>, e: Element, unknown: set<Element>, refuted: bool)
    requires InPlace(truth, p, known, possible, e, unknown)
    requires if refuted then forall b :: b in unknown ==> b !in truth[e] else Succ(possible, e) == {}
    ensures forall b :: b in unknown && b in truth[e] ==> b in KnownOf(known, e)
  {
  }

  lemma UnionAnswer(truth: Graph<Element>, p: Problem, o: Oracle, t: nat, c: Element, s: set<Element>)
    requires OracleOk(truth, p, o) && c in truth && s <= p.elements
    ensures UnionOk(truth, c, s, o.isSubsumedByUnion(t, c, s))
  {
  }

  lemma SmallFacts(p: Problem, unknown: set<Element>, knownMap: Graph<Element>, h: Hierarchy)
    requires SmallHierarchy(p, unknown, knownMap, h)
    ensures Linked(h.nodes) && h.top < |h.nodes|
  {
  }

  lemma TopVisited(truth: Graph<Element>, h: Hierarchy, e: Element, visited: set<nat>, open: set<nat>, K: iset<Element>)
    requires TraversalInv(truth, h, e, visited, open, K)
    ensures h.top in visited
  {
  }

  lemma VisitedInRange(truth: Graph<Element>, h: Hierarchy, e: Element, visited: set<nat>, open: set<nat>, K: iset<Element>)
    requires TraversalInv(truth, h, e, visited, open, K)
    ensures visited <= AllNodes(h)
  {
  }

  lemma InPlaceFacts(truth: Graph<Element>, p: Problem, known: Graph<Element>, possible: Graph<Element>, e: Element, unknown: set<Element>)
    requires InPlace(truth, p, known, possible, e, unknown)
    ensures TruthOk(truth, p) && truth.Keys == p.elements && e in truth && Succ(possible, e) <= unknown <= p.elements
    ensures forall x :: x in KnownOf(known, e) ==> x in truth[e]
    ensures forall b :: b in unknown && b in truth[e] ==> b in Succ(possible, e) || b in KnownOf(known, e)
    ensures SubGraph(known, known) && Shrinks(possible, possible)
  {
  }

  lemma SubsumeAnswer(truth: Graph<Element>, p: Problem, o: Oracle, t: nat, c: Element, e: Element)
    requires OracleOk(truth, p, o) && c in truth && e in truth
    ensures SubsumeOk(truth, p, c, e, o.doesSubsume(t, c, e))
  {
  }

  lemma LeafStart(truth: Graph<Element>, p: Problem, h: Hierarchy, told: Graph<Element>)
    requires TruthOk(truth, p) && Sound(truth, told)
    requires Represents(h, Extended(p, told)) && Bounded(h, Extended(p, told), p.top, p.bottom)
    requires p.bottom in Succ(told, p.bottom)
    ensures LeafBase(truth, p, h, told) && h.bottom < |h.nodes|
    ensures LeafInv(truth, p, h, told, told, map[], h.nodes[h.bottom].parents)
    ensures NodesIn(h, [])
  {
    var g := Extended(p, told);
    forall n: nat | n < |h.nodes| && Marked(p, h, told, n) ensures n == h.bottom {
      var c := h.nodes[n].representative;
      assert c in g && p.bottom in Succ(g, c);
      ReachEdge(g, c, p.bottom);
      ExtendedBottom(p, told, c);
    }
    forall e ensures PossibleAt(truth, p, map[], e) {
    }
  }

  lemma ProgressRefl(p: Problem, h: Hierarchy, known: Graph<Element>, possible: Graph<Element>)
    ensures Progress(p, h, known, possible, known, possible)
  {
  }

  lemma LeafEnd(truth: Graph<Element>, p: Problem, h: Hierarchy, told: Graph<Element>, known: Graph<Element>, possible: Graph<Element>)
    requires LeafBase(truth, p, h, told) && LeafInv(truth, p, h, told, known, possible, {})
    ensures Sound(truth, known) && PossibleOk(truth, p, possible)
    ensures forall e :: e in p.elements ==> Covered(truth, p, known, possible, e)
  {
    forall e | e in p.elements ensures Covered(truth, p, known, possible, e) {
      LeafCoverage(truth, p, h, told, known, possible, e);
    }
  }

  lemma ModelAnswer(truth: Graph<Element>, p: Problem, o: Oracle, t: nat, c: Element)
    requires OracleOk(truth, p, o) && TruthOk(truth, p) && c in p.elements
    ensures ModelOk(truth, p, c, o.buildModel(t, c))
  {
  }

  lemma CoordinatorMeans(truth: Graph<Element>, p: Problem, h: Hierarchy, told: Graph<Element>, workers: nat, s: Coordinator)
    requires CoordinatorOk(truth, p, h, told, workers, s)
    ensures NodesIn(h, s.toProcess) && InFlightOk(h, s.inFlight)
  {
  }

  lemma Filled(truth: Graph<Element>, p: Problem, h: Hierarchy, told: Graph<Element>, workers: nat, s: Coordinator, t: Coordinator, budget: nat)
    requires CoordinatorOk(truth, p, h, told, workers, s) && t == s.(toProcess := t.toProcess, inFlight := t.inFlight, tick := t.tick)
    requires LeafBase(truth, p, h, told) && NodesIn(h, t.toProcess) && InFlightOk(h, t.inFlight)
    requires (|t.inFlight| <= budget || t.inFlight == s.inFlight) && (budget <= workers || budget <= 1)
    requires forall n: nat :: n in s.toProcess || n in Flying(s.inFlight) ==> n in t.toProcess || n in Flying(t.inFlight) || Processed(p, h, s.known, s.possible, n)
    ensures CoordinatorOk(truth, p, h, told, workers, t)
  {
    hide LeafInv, LeafBase, NodesIn, Elems, InFlightOk, Flying, Sunk, Processed;
    ElemsMembers(s.toProcess);
    ElemsMembers(t.toProcess);
    LeafShrink(truth, p, h, told, s.known, s.possible, Elems(s.toProcess) + Flying(s.inFlight), Elems(t.toProcess) + Flying(t.inFlight));
  }

  lemma FilledStep(p: Problem, throttled: bool, workers: nat, s: Coordinator, t: Coordinator, budget: nat)
    requires t == s.(toProcess := t.toProcess, inFlight := t.inFlight, tick := t.tick) && t.toProcess <= s.toProcess
    requires s.inFlight.Keys <= t.inFlight.Keys && forall c :: c in s.inFlight ==> t.inFlight[c] == s.inFlight[c]
    requires forall c :: c in t.inFlight && c !in s.inFlight ==> !ConceptProcessed(p, s.known, s.possible, c) && t.inFlight[c] in s.toProcess
    requires (|t.inFlight| <= budget || t.inFlight == s.inFlight) && (|t.inFlight| < budget ==> t.toProcess == [])
    requires budget == if throttled || workers < 1 then 1 else workers
    ensures TakesOff(p, throttled, workers, s, t)
  {
    hide ConceptProcessed;
  }

  lemma CoordinatorStarts(truth: Graph<Element>, p: Problem, h: Hierarchy, told: Graph<Element>, workers: nat, known: Graph<Element>, possible: Graph<Element>, toProcess: seq<nat>, tick: nat)
    requires NodesIn(h, toProcess) && LeafInv(truth, p, h, told, known, possible, Elems(toProcess))
    ensures CoordinatorOk(truth, p, h, told, workers, Coordinator(known, possible, toProcess, {}, map[], tick))
  {
    hide LeafInv;
    FlyingNone(h);
    SunkNone(p, h, known);
    assert Elems(toProcess) + {} == Elems(toProcess);
  }

  lemma CoordinatorEnds(truth: Graph<Element>, p: Problem, h: Hierarchy, told: Graph<Element>, width: nat, s: Coordinator)
    requires CoordinatorOk(truth, p, h, told, width, s) && Drained(s)
    ensures LeafInv(truth, p, h, told, s.known, s.possible, {})
  {
    hide LeafInv;
    FlyingNone(h);
    ElemsNone(s.toProcess);
    assert Elems(s.toProcess) + Flying(s.inFlight) == {};
  }

  lemma FlyingNone(h: Hierarchy)
    ensures Flying(map[]) == {} && InFlightOk(h, map[])
  {
  }

  /** Taking a completed build out of the in-flight table. */
  lemma FlightLands(h: Hierarchy, inFlight: map<Element, nat>, c: Element)
    requires InFlightOk(h, inFlight) && c in inFlight
    ensures Flying(inFlight) <= Flying(inFlight - {c}) + {inFlight[c]} && |inFlight - {c}| < |inFlight|
    ensures InFlightOk(h, inFlight - {c}) && inFlight[c] < |h.nodes| && h.nodes[inFlight[c]].representative == c
  {
    var r := inFlight - {c};
    assert r.Keys == inFlight.Keys - {c};
    forall m | m in Flying(inFlight) ensures m in Flying(r) + {inFlight[c]} {
      var d :| d in inFlight && inFlight[d] == m;
      assert d != c ==> d in r && r[d] == m;
    }
  }

  lemma ProgressAll(p: Problem, h: Hierarchy, known: Graph<Element>, possible: Graph<Element>,
                    known': Graph<Element>, possible': Graph<Element>, ns: set<nat>)
    requires Progress(p, h, known, possible, known', possible') && forall n :: n in ns ==> Processed(p, h, known, possible, n)
    ensures forall n :: n in ns ==> Processed(p, h, known', possible', n)
  {
  }

  /** Deciding an undecided node strictly shrinks the undecided ones. */
  lemma RoundProgress(p: Problem, h: Hierarchy, known: Graph<Element>, possible: Graph<Element>,
                      known': Graph<Element>, possible': Graph<Element>, ns: set<nat>)
    requires Progress(p, h, known, possible, known', possible') && ns != {}
    requires forall n :: n in ns ==> n < |h.nodes| && !Processed(p, h, known, possible, n) && Processed(p, h, known', possible', n)
    ensures Unprocessed(p, h, known', possible') < Unprocessed(p, h, known, possible)
  {
    var n :| n in ns;
    assert n in Unprocessed(p, h, known, possible) && n !in Unprocessed(p, h, known', possible');
  }

  ghost predicate AllBelow(h: Hierarchy, ns: seq<nat>, node: nat) {
    forall i :: 0 <= i < |ns| ==> ns[i] < |h.nodes| && Reach(Up(h), ns[i], node)
  }

  lemma ChildrenBelow(h: Hierarchy, n: nat, node: nat, children: seq<nat>)
    requires Linked(h.nodes) && n < |h.nodes| && Reach(Up(h), n, node)
    requires forall c :: c in children <==> c in h.nodes[n].children
    ensures AllBelow(h, children, node)
  {
    forall i | 0 <= i < |children| ensures children[i] < |h.nodes| && Reach(Up(h), children[i], node) {
      assert children[i] in children;
      ChildBelow(h, n, children[i], node);
    }
  }

  lemma ProgressAt(p: Problem, h: Hierarchy, known: Graph<Element>, possible: Graph<Element>,
                   known': Graph<Element>, possible': Graph<Element>, n: nat)
    requires Progress(p, h, known, possible, known', possible') && Processed(p, h, known, possible, n)
    ensures Processed(p, h, known', possible', n)
  {
  }
}
