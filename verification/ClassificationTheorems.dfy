/** What the classifier's result means, and why the schedule cannot influence it. */
module ClassificationTheorems {
  import opened Elements
  import opened Digraph
  import opened Hierarchies
  import opened Subsumption
  import opened Settling
  import opened Classification

  /** In the returned hierarchy, `b`'s node is an ancestor-or-self of `a`'s node
      exactly when `b` truly subsumes `a`; elements share a node exactly when they
      are equivalent; and the bottom node holds exactly the unsatisfiable elements. */
  lemma ClassificationExact(truth: Graph<Element>, p: Problem, h: Hierarchy, a: Element, b: Element)
    requires TruthOk(truth, p) && Represents(h, truth) && Bounded(h, truth, p.top, p.bottom)
    requires a in p.elements && b in p.elements
    ensures Reach(Up(h), h.nodeOf[a], h.nodeOf[b]) <==> b in truth[a]
    ensures h.nodeOf[a] == h.nodeOf[b] <==> b in truth[a] && a in truth[b]
    ensures a in h.nodes[h.bottom].equivalents <==> Unsat(truth, p, a)
    ensures a in h.nodes[h.top].equivalents <==> a in truth[p.top]
  {
    TruthReach(truth, p, a, b);
    TruthReach(truth, p, b, a);
    TruthReach(truth, p, a, p.bottom);
    TruthReach(truth, p, p.bottom, a);
    TruthReach(truth, p, a, p.top);
    TruthReach(truth, p, p.top, a);
    assert h.nodeOf[a] == h.nodeOf[b] <==> Reach(truth, a, b) && Reach(truth, b, a);
    assert h.nodeOf[a] == h.nodeOf[p.bottom] <==> Reach(truth, a, p.bottom) && Reach(truth, p.bottom, a);
    assert h.nodeOf[a] == h.nodeOf[p.top] <==> Reach(truth, a, p.top) && Reach(truth, p.top, a);
    assert a in h.nodes[h.nodeOf[p.bottom]].equivalents <==> h.nodeOf[a] == h.nodeOf[p.bottom];
    assert a in h.nodes[h.nodeOf[p.top]].equivalents <==> h.nodeOf[a] == h.nodeOf[p.top];
  }

  /** Schedule independence: two classifications of the same truth, with any
      oracles, pools, told pairs and completion orders, return the same hierarchy
      up to the numbering of its nodes. */
  method ClassifyTwice(p: Problem, ghost truth: Graph<Element>, o1: Oracle, o2: Oracle,
                       told1: seq<(Element, Element)>, told2: seq<(Element, Element)>)
    returns (h1: Hierarchy, h2: Hierarchy)
    requires TruthOk(truth, p) && OracleOk(truth, p, o1) && OracleOk(truth, p, o2)
    requires ToldTrue(truth, p, told1) && ToldTrue(truth, p, told2)
    ensures p.elements <= h1.nodeOf.Keys && p.elements <= h2.nodeOf.Keys
    ensures forall a, b :: a in p.elements && b in p.elements ==> SamePlace(h1, h2, a, b)
  {
    hide Represents, Bounded, OracleOk;
    h1 := ClassifyFrom(p, truth, o1, told1);
    h2 := ClassifyFrom(p, truth, o2, told2);
    assert SameReach(truth, truth);
    PlacedAll(truth, p, h1);
    PlacedAll(truth, p, h2);
    forall a, b | a in p.elements && b in p.elements ensures SamePlace(h1, h2, a, b) {
      HierarchyUnique(h1, truth, h2, truth, p.top, p.bottom, a, b);
      PlacedAt(truth, h1, a);
      PlacedAt(truth, h2, a);
    }
  }

  ghost predicate ToldTrue(truth: Graph<Element>, p: Problem, told: seq<(Element, Element)>) {
    forall i :: 0 <= i < |told| && told[i].0 in p.elements && told[i].1 in p.elements ==>
      told[i].0 in truth && told[i].1 in truth[told[i].0]
  }

  /** The two hierarchies agree on whether `a` and `b` share a node and on whether
      the node of `b` is a direct parent of the node of `a`. */
  ghost predicate SamePlace(h1: Hierarchy, h2: Hierarchy, a: Element, b: Element) {
    && a in h1.nodeOf && b in h1.nodeOf && a in h2.nodeOf && b in h2.nodeOf
    && h1.nodeOf[a] < |h1.nodes| && h2.nodeOf[a] < |h2.nodes|
    && (h1.nodeOf[a] == h1.nodeOf[b] <==> h2.nodeOf[a] == h2.nodeOf[b])
    && (h1.nodeOf[b] in h1.nodes[h1.nodeOf[a]].parents <==> h2.nodeOf[b] in h2.nodes[h2.nodeOf[a]].parents)
  }

  lemma PlacedAll(truth: Graph<Element>, p: Problem, h: Hierarchy)
    requires TruthOk(truth, p) && Represents(h, truth)
    ensures p.elements <= h.nodeOf.Keys && truth.Keys == p.elements
  {
  }

  lemma PlacedAt(truth: Graph<Element>, h: Hierarchy, a: Element)
    requires Represents(h, truth) && a in truth
    ensures a in h.nodeOf && h.nodeOf[a] < |h.nodes|
  {
  }

  /** A whole classification: seed the told subsumptions, then classify. */
  method ClassifyFrom(p: Problem, ghost truth: Graph<Element>, o: Oracle, told: seq<(Element, Element)>) returns (h: Hierarchy)
    requires TruthOk(truth, p) && OracleOk(truth, p, o) && ToldTrue(truth, p, told)
    ensures Represents(h, truth) && Bounded(h, truth, p.top, p.bottom)
  {
    hide Represents, Bounded, OracleOk, TruthOk;
    var classifier := new QuasiOrderClassification(p, o, truth);
    classifier.InitialiseKnownUsingTold(told);
    ghost var runs;
    h, runs := classifier.Classify();
  }

  /** The oracle that reads its answers off the relation itself: a model of a
      satisfiable concept is one node labelled with its subsumers. */
  function RelationOracle(truth: Graph<Element>, p: Problem): Oracle {
    Oracle(
      (t, c) => if c !in truth || p.bottom in truth[c] then None else Some(ReadOff(truth[c], {}, Some([truth[c]]))),
      (t, a, c) => (c in truth && a in truth[c], None),
      (t, c, s) => if c in truth then Some(UnionResult(s * truth[c] != {}, s * truth[c])) else None,
      false, None, None, t => false)
  }

  /** The contract can be met for every relation. */
  lemma RelationOracleOk(truth: Graph<Element>, p: Problem)
    requires TruthOk(truth, p)
    ensures OracleOk(truth, p, RelationOracle(truth, p))
  {
    var o := RelationOracle(truth, p);
    forall t: nat, c | c in truth ensures ModelOk(truth, p, c, o.buildModel(t, c)) {
      if p.bottom !in truth[c] {
        assert [truth[c]][0] == truth[c];
        assert Occurs(c, [truth[c]]);
      }
    }
    forall t: nat, c, s | c in truth && s <= p.elements ensures UnionOk(truth, c, s, o.isSubsumedByUnion(t, c, s)) {
      if s * truth[c] == {} {
        forall x | x in s ensures x !in truth[c] {
          assert x !in s * truth[c];
        }
      }
    }
  }
}
