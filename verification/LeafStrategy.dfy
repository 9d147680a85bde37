/** The leaf-node strategy: which nodes of the told hierarchy have been decided,
    which still wait, and why emptying the worklist decides all of them. */
module LeafStrategy {
  import opened Elements
  import opened Digraph
  import opened Hierarchies
  import opened Subsumption
  import opened Harvesting

  /** The fixed part: the hierarchy `h` of the told subsumptions `told`. */
  ghost predicate LeafBase(truth: Graph<Element>, p: Problem, h: Hierarchy, told: Graph<Element>) {
    && TruthOk(truth, p) && Sound(truth, told)
    && Represents(h, Extended(p, told))
    && Bounded(h, Extended(p, told), p.top, p.bottom)
  }

  /** `concept_has_been_processed_already`. */
  predicate ConceptProcessed(p: Problem, known: Graph<Element>, possible: Graph<Element>, c: Element) {
    Succ(possible, c) != {} || p.bottom in Succ(known, c)
  }

  predicate Marked(p: Problem, h: Hierarchy, known: Graph<Element>, n: nat) {
    n < |h.nodes| && p.bottom in Succ(known, h.nodes[n].representative)
  }

  predicate Processed(p: Problem, h: Hierarchy, known: Graph<Element>, possible: Graph<Element>, n: nat) {
    n < |h.nodes| && ConceptProcessed(p, known, possible, h.nodes[n].representative)
  }

  ghost function Unprocessed(p: Problem, h: Hierarchy, known: Graph<Element>, possible: Graph<Element>): set<nat> {
    set n: nat | n < |h.nodes| && !Processed(p, h, known, possible, n)
  }

  /** Every parent of a node found unsatisfiable is decided or waits in `W`. */
  ghost predicate Freed(p: Problem, h: Hierarchy, known: Graph<Element>, possible: Graph<Element>, W: set<nat>) {
    forall n: nat, q: nat {:trigger q in h.nodes[n].parents} ::
      n < |h.nodes| && Marked(p, h, known, n) && q in h.nodes[n].parents ==> Processed(p, h, known, possible, q) || q in W
  }

  ghost predicate LeafInv(truth: Graph<Element>, p: Problem, h: Hierarchy, told: Graph<Element>,
                          known: Graph<Element>, possible: Graph<Element>, W: set<nat>) {
    && Sound(truth, known) && SubGraph(told, known)
    && PossibleOk(truth, p, possible)
    && Marked(p, h, known, h.bottom)
    && Freed(p, h, known, possible, W)
  }

  /** Each node is the node of its representative. */
  ghost predicate OwnRepresentatives(h: Hierarchy) {
    forall n: nat :: n < |h.nodes| ==>
      h.nodes[n].representative in h.nodeOf && h.nodeOf[h.nodes[n].representative] == n
  }

  /** Nothing decided is undecided again. */
  ghost predicate Progress(p: Problem, h: Hierarchy, known: Graph<Element>, possible: Graph<Element>,
                           known': Graph<Element>, possible': Graph<Element>) {
    forall n: nat {:trigger Processed(p, h, known', possible', n)} ::
      Processed(p, h, known, possible, n) ==> Processed(p, h, known', possible', n)
  }

  lemma FreedShrink(p: Problem, h: Hierarchy, known: Graph<Element>, possible: Graph<Element>, W: set<nat>, W': set<nat>)
    requires Freed(p, h, known, possible, W)
    requires forall n :: n in W ==> n in W' || Processed(p, h, known, possible, n)
    ensures Freed(p, h, known, possible, W')
  {
  }

  lemma RepresentativeBelow(truth: Graph<Element>, p: Problem, h: Hierarchy, told: Graph<Element>, n: nat, m: nat)
    requires LeafBase(truth, p, h, told) && n < |h.nodes| && Reach(Up(h), n, m)
    ensures m < |h.nodes| && h.nodes[n].representative in truth && h.nodes[m].representative in truth
    ensures h.nodes[m].representative in truth[h.nodes[n].representative]
  {
    AncestorsInRange(h, n, m);
    var g := Extended(p, told);
    var a, b := h.nodes[n].representative, h.nodes[m].representative;
    assert h.nodeOf[a] == n && h.nodeOf[b] == m;
    assert Reach(g, a, b);
    SoundExtended(truth, p, told, a, b);
  }

  lemma ClearUnsat(truth: Graph<Element>, p: Problem, possible: Graph<Element>, c: Element)
    requires PossibleOk(truth, p, possible) && Unsat(truth, p, c)
    ensures forall e :: Succ(ClearSuccessors(possible, c), e) == Succ(possible, e)
    ensures PossibleOk(truth, p, ClearSuccessors(possible, c))
  {
    assert PossibleAt(truth, p, possible, c);
    var r := ClearSuccessors(possible, c);
    forall e ensures PossibleAt(truth, p, r, e) {
      assert PossibleAt(truth, p, possible, e);
    }
  }

  /** Sending the unsatisfiable representative of `n` to bottom, once its parents wait. */
  lemma MarkKeeps(truth: Graph<Element>, p: Problem, h: Hierarchy, told: Graph<Element>,
                  known: Graph<Element>, possible: Graph<Element>, W: set<nat>, n: nat)
    requires OwnRepresentatives(h) && LeafInv(truth, p, h, told, known, possible, W)
    requires n < |h.nodes| && Unsat(truth, p, h.nodes[n].representative)
    ensures var c := h.nodes[n].representative;
            var known', possible' := AddEdge(known, c, p.bottom), ClearSuccessors(possible, c);
            && LeafInv(truth, p, h, told, known', possible', W + h.nodes[n].parents)
            && Progress(p, h, known, possible, known', possible')
            && Marked(p, h, known', n)
  {
    var c := h.nodes[n].representative;
    var known', possible' := AddEdge(known, c, p.bottom), ClearSuccessors(possible, c);
    ClearUnsat(truth, p, possible, c);
    AddEdgesSound(truth, known, c, {p.bottom});
    SubGraphTrans(told, known, known');
    MarkFrees(p, h, known, possible, W, n);
  }

  lemma MarkFrees(p: Problem, h: Hierarchy, known: Graph<Element>, possible: Graph<Element>, W: set<nat>, n: nat)
    requires OwnRepresentatives(h) && Freed(p, h, known, possible, W) && n < |h.nodes|
    requires var c := h.nodes[n].representative; forall e :: Succ(ClearSuccessors(possible, c), e) == Succ(possible, e)
    ensures var c := h.nodes[n].representative;
            var known', possible' := AddEdge(known, c, p.bottom), ClearSuccessors(possible, c);
            && Freed(p, h, known', possible', W + h.nodes[n].parents)
            && Progress(p, h, known, possible, known', possible')
  {
    var c := h.nodes[n].representative;
    var known', possible' := AddEdge(known, c, p.bottom), ClearSuccessors(possible, c);
    forall m: nat, q: nat | m < |h.nodes| && Marked(p, h, known', m) && q in h.nodes[m].parents
      ensures Processed(p, h, known', possible', q) || q in W + h.nodes[n].parents
    {
      if m != n {
        assert h.nodeOf[h.nodes[m].representative] == m;
        assert Marked(p, h, known, m);
      }
    }
  }

  /** Recording the deterministic subsumers of a satisfiable concept. */
  lemma LearnKeeps(truth: Graph<Element>, p: Problem, h: Hierarchy, told: Graph<Element>,
                   known: Graph<Element>, possible: Graph<Element>, W: set<nat>, c: Element, ks: set<Element>)
    requires TruthOk(truth, p) && LeafInv(truth, p, h, told, known, possible, W)
    requires KnownOk(truth, c, ks) && ks <= p.elements && !Unsat(truth, p, c)
    ensures var known' := AddEdges(known, c, ks);
            LeafInv(truth, p, h, told, known', possible, W) && Progress(p, h, known, possible, known', possible)
  {
    var known' := AddEdges(known, c, ks);
    AddEdgesSound(truth, known, c, ks);
    SubGraphTrans(told, known, known');
    forall m: nat ensures Marked(p, h, known', m) <==> Marked(p, h, known, m) {
    }
    assert forall m :: Processed(p, h, known', possible, m) <==> Processed(p, h, known, possible, m);
  }

  lemma HarvestKeepsLeaf(truth: Graph<Element>, p: Problem, h: Hierarchy, told: Graph<Element>,
                         known: Graph<Element>, possible: Graph<Element>, W: set<nat>, labels: seq<set<Element>>)
    requires TruthOk(truth, p) && LeafInv(truth, p, h, told, known, possible, W) && GoodLabels(truth, p, labels)
    ensures var possible' := HarvestAll(p, possible, labels);
            && LeafInv(truth, p, h, told, known, possible', W)
            && Progress(p, h, known, possible, known, possible')
            && forall n: nat :: n < |h.nodes| && h.nodes[n].representative in p.elements && Occurs(h.nodes[n].representative, labels) ==>
                 Processed(p, h, known, possible', n)
  {
    HarvestAllKeeps(truth, p, possible, labels);
    var possible' := HarvestAll(p, possible, labels);
    forall n: nat, q: nat | n < |h.nodes| && Marked(p, h, known, n) && q in h.nodes[n].parents
      ensures Processed(p, h, known, possible', q) || q in W
    {
      assert Processed(p, h, known, possible, q) ==> Processed(p, h, known, possible', q);
    }
  }

  lemma ProgressTrans(p: Problem, h: Hierarchy, k1: Graph<Element>, s1: Graph<Element>,
                      k2: Graph<Element>, s2: Graph<Element>, k3: Graph<Element>, s3: Graph<Element>)
    requires Progress(p, h, k1, s1, k2, s2) && Progress(p, h, k2, s2, k3, s3)
    ensures Progress(p, h, k1, s1, k3, s3)
  {
    forall n: nat | Processed(p, h, k1, s1, n) ensures Processed(p, h, k3, s3, n) {
      assert Processed(p, h, k2, s2, n);
    }
  }

  /** With an empty worklist every node of the told hierarchy is decided. */
  lemma AllNodesProcessed(truth: Graph<Element>, p: Problem, h: Hierarchy, told: Graph<Element>,
                          known: Graph<Element>, possible: Graph<Element>, n: nat)
    requires LeafBase(truth, p, h, told) && LeafInv(truth, p, h, told, known, possible, {})
    requires n < |h.nodes|
    ensures Processed(p, h, known, possible, n)
  {
    var S := set m: nat | m < |h.nodes| && Marked(p, h, known, m);
    if n !in S {
      var e := h.nodes[n].representative;
      ExtendedBottom(p, told, e);
      assert Reach(Up(h), h.bottom, n);
      var x, y := ReachExit(Up(h), S, h.bottom, n);
      assert y in h.nodes[x].parents;
      RepresentativeBelow(truth, p, h, told, y, n);
      assert PossibleAt(truth, p, possible, h.nodes[y].representative);
    }
  }

  /** What the leaf phase establishes for every element. */
  ghost predicate Covered(truth: Graph<Element>, p: Problem, known: Graph<Element>, possible: Graph<Element>, e: Element) {
    if Unsat(truth, p, e) then Reach(Extended(p, known), e, p.bottom)
    else e in truth && truth[e] <= Succ(possible, e) <= p.elements
  }

  /** Leaf-node coverage: each element reaches bottom in the known graph if it is
      unsatisfiable, and otherwise has all its true subsumers as possibles. */
  lemma LeafCoverage(truth: Graph<Element>, p: Problem, h: Hierarchy, told: Graph<Element>,
                     known: Graph<Element>, possible: Graph<Element>, e: Element)
    requires LeafBase(truth, p, h, told) && LeafInv(truth, p, h, told, known, possible, {})
    requires e in p.elements
    ensures Covered(truth, p, known, possible, e)
  {
    var n := h.nodeOf[e];
    var c := h.nodes[n].representative;
    AllNodesProcessed(truth, p, h, told, known, possible, n);
    SameNodeTruth(truth, p, h, told, e);
    assert PossibleAt(truth, p, possible, c) && PossibleAt(truth, p, possible, e);
    if Marked(p, h, known, n) {
      ExtendedMono(p, told, known, e, c);
      assert p.bottom in Succ(Extended(p, known), c);
      ReachSnoc(Extended(p, known), e, c, p.bottom);
      SoundExtended(truth, p, known, e, p.bottom);
    }
  }

  lemma SameNodeTruth(truth: Graph<Element>, p: Problem, h: Hierarchy, told: Graph<Element>, e: Element)
    requires LeafBase(truth, p, h, told) && e in p.elements
    ensures var c := h.nodes[h.nodeOf[e]].representative;
            && c in truth && e in truth[c] && c in truth[e] && Reach(Extended(p, told), e, c)
  {
    var g := Extended(p, told);
    var c := h.nodes[h.nodeOf[e]].representative;
    assert c in h.nodes[h.nodeOf[e]].equivalents;
    ReachRefl(g, c);
    assert Reach(g, e, c) && Reach(g, c, e) by {
      if e != c {
        assert h.nodeOf[c] == h.nodeOf[e];
        SameNode(h, g, e, c);
      }
    }
    SoundExtended(truth, p, told, e, c);
    SoundExtended(truth, p, told, c, e);
  }

  lemma SameNode(h: Hierarchy, g: Graph<Element>, a: Element, b: Element)
    requires Placed(h, g) && Ordered(h, g) && a in g && b in g && h.nodeOf[a] == h.nodeOf[b]
    ensures Reach(g, a, b) && Reach(g, b, a)
  {
    assert Reach(g, a, b) || !Reach(g, a, b);
  }
}
