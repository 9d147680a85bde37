/** The classification problem: the oracle and its contract, the true
    subsumption relation, and the graphs the classifier keeps about it. */
module Subsumption {
  import opened Elements
  import opened Digraph
  import opened Hierarchies
  import opened HierarchyBuilding

  /** What one saturated model reveals (`ModelReadOff`). */
  datatype ReadOff = ReadOff(queryKnown: set<Element>, queryPossible: set<Element>, nodeLabels: Option<seq<set<Element>>>)

  /** The outcome of the batched union test (`UnionTestResult`). */
  datatype UnionResult = UnionResult(subsumed: bool, queryKnown: set<Element>)

  /** The subsumption oracle. Every answer may depend on a call number, so a
      stateful engine that answers differently each time is covered. The pools
      are described by their worker counts, the memory governor by `throttled`. */
  datatype Oracle = Oracle(
    buildModel: (nat, Element) -> Option<ReadOff>,
    doesSubsume: (nat, Element, Element) -> (bool, Option<ReadOff>),
    isSubsumedByUnion: (nat, Element, set<Element>) -> Option<UnionResult>,
    buildsInParallel: bool,
    streamingWorkers: Option<nat>,
    resolutionWorkers: Option<nat>,
    throttled: nat -> bool)

  datatype Problem = Problem(elements: set<Element>, top: Element, bottom: Element)

  /** The true subsumption relation on the elements: `truth[a]` are the subsumers
      of `a`. It is reflexive and transitive, has top above and bottom below
      everything, and top is satisfiable. */
  ghost predicate TruthOk(truth: Graph<Element>, p: Problem) {
    && truth.Keys == p.elements && p.top in p.elements && p.bottom in p.elements
    && (forall a :: a in truth ==> truth[a] <= p.elements && a in truth[a] && p.top in truth[a])
    && (forall a, b {:trigger b in truth[a]} :: a in truth && b in truth[a] ==> truth[b] <= truth[a])
    && truth[p.bottom] == p.elements
    && p.bottom !in truth[p.top]
  }

  ghost predicate Unsat(truth: Graph<Element>, p: Problem, a: Element) {
    a in truth && p.bottom in truth[a]
  }

  ghost predicate KnownOk(truth: Graph<Element>, c: Element, known: set<Element>) {
    c in truth && forall k :: k in known && k in truth ==> k in truth[c]
  }

  /** A node label holds satisfiable elements only, each with all its subsumers. */
  ghost predicate GoodLabel(truth: Graph<Element>, p: Problem, l: set<Element>) {
    forall x :: x in l && x in truth ==> p.bottom !in truth[x] && truth[x] <= l
  }

  ghost predicate GoodLabels(truth: Graph<Element>, p: Problem, labels: seq<set<Element>>) {
    forall i :: 0 <= i < |labels| ==> GoodLabel(truth, p, labels[i])
  }

  ghost predicate Occurs(c: Element, labels: seq<set<Element>>) {
    exists i :: 0 <= i < |labels| && c in labels[i]
  }

  /** `build_model` for an oracle that exposes node labels. */
  ghost predicate ModelOk(truth: Graph<Element>, p: Problem, c: Element, m: Option<ReadOff>) {
    && (m.None? <==> Unsat(truth, p, c))
    && (m.Some? ==>
          && KnownOk(truth, c, m.value.queryKnown)
          && m.value.nodeLabels.Some?
          && GoodLabels(truth, p, m.value.nodeLabels.value)
          && Occurs(c, m.value.nodeLabels.value))
  }

  /** `does_subsume_with_read_off`. */
  ghost predicate SubsumeOk(truth: Graph<Element>, p: Problem, parent: Element, child: Element, r: (bool, Option<ReadOff>)) {
    && child in truth
    && (r.0 <==> parent in truth[child])
    && (r.1.Some? ==>
          && KnownOk(truth, child, r.1.value.queryKnown)
          && (r.1.value.nodeLabels.Some? ==> GoodLabels(truth, p, r.1.value.nodeLabels.value)))
  }

  /** `is_subsumed_by_union`. */
  ghost predicate UnionOk(truth: Graph<Element>, child: Element, candidates: set<Element>, r: Option<UnionResult>) {
    && child in truth
    && (r.Some? ==>
          if r.value.subsumed then KnownOk(truth, child, r.value.queryKnown)
          else forall c :: c in candidates ==> c !in truth[child])
  }

  ghost predicate OracleOk(truth: Graph<Element>, p: Problem, o: Oracle) {
    && (forall t: nat, c {:trigger o.buildModel(t, c)} :: c in truth ==> ModelOk(truth, p, c, o.buildModel(t, c)))
    && (forall t: nat, a, c {:trigger o.doesSubsume(t, a, c)} :: a in truth && c in truth ==>
          SubsumeOk(truth, p, a, c, o.doesSubsume(t, a, c)))
    && (forall t: nat, c, s {:trigger o.isSubsumedByUnion(t, c, s)} :: c in truth && s <= p.elements ==>
          UnionOk(truth, c, s, o.isSubsumedByUnion(t, c, s)))
  }

  function AddEdge<V>(g: Graph<V>, a: V, b: V): Graph<V> {
    g[a := Succ(g, a) + {b}]
  }

  function AddEdges<V>(g: Graph<V>, a: V, bs: set<V>): Graph<V> {
    g[a := Succ(g, a) + bs]
  }

  function RemoveSuccessors<V>(g: Graph<V>, a: V, bs: set<V>): Graph<V> {
    if a in g then g[a := g[a] - bs] else g
  }

  function ClearSuccessors<V>(g: Graph<V>, a: V): Graph<V> {
    if a in g then g[a := {}] else g
  }

  /** The subsumer graph handed to the hierarchy builder: known successors plus
      top and the element itself, and everything above bottom. */
  function Extended(p: Problem, known: Graph<Element>): Graph<Element> {
    map e | e in p.elements :: if e == p.bottom then p.elements else Succ(known, e) + {p.top, e}
  }

  /** Every recorded subsumption is true. */
  ghost predicate Sound(truth: Graph<Element>, known: Graph<Element>) {
    forall a, b {:trigger b in Succ(known, a)} :: b in Succ(known, a) ==> a in truth && b in truth[a]
  }

  lemma AddEdgesSound(truth: Graph<Element>, known: Graph<Element>, c: Element, ks: set<Element>)
    requires Sound(truth, known) && c in truth && ks <= truth[c]
    ensures Sound(truth, AddEdges(known, c, ks)) && SubGraph(known, AddEdges(known, c, ks))
  {
    var r := AddEdges(known, c, ks);
    forall a, b | b in Succ(r, a) ensures a in truth && b in truth[a] {
      assert b in Succ(known, a) || (a == c && b in ks);
    }
  }

  lemma SubGraphTrans(g: Graph<Element>, g': Graph<Element>, g'': Graph<Element>)
    requires SubGraph(g, g') && SubGraph(g', g'')
    ensures SubGraph(g, g'')
  {
    forall v ensures Succ(g, v) <= Succ(g'', v) {
      assert Succ(g, v) <= Succ(g', v);
    }
  }

  lemma SoundReach(truth: Graph<Element>, p: Problem, known: Graph<Element>, a: Element, b: Element)
    requires TruthOk(truth, p) && Sound(truth, known) && a in truth && Reach(known, a, b)
    ensures b in truth[a]
  {
    ReachClosed(known, truth[a], a, b);
  }

  lemma SoundExtended(truth: Graph<Element>, p: Problem, known: Graph<Element>, a: Element, b: Element)
    requires TruthOk(truth, p) && Sound(truth, known) && a in truth && Reach(Extended(p, known), a, b)
    ensures b in truth[a]
  {
    var g := Extended(p, known);
    forall v | v in truth[a] ensures Succ(g, v) <= truth[a] {
      assert truth[v] <= truth[a];
      forall w | w in Succ(g, v) ensures w in truth[v] {
        if w in Succ(known, v) {
        }
      }
    }
    ReachClosed(g, truth[a], a, b);
  }

  lemma ExtendedContains(truth: Graph<Element>, p: Problem, known: Graph<Element>, a: Element, b: Element)
    requires TruthOk(truth, p) && Sound(truth, known) && Reach(known, a, b) && a in truth
    ensures Reach(Extended(p, known), a, b)
  {
    var g := Extended(p, known);
    forall v, w | w in Succ(known, v) ensures Reach(g, v, w) {
      assert v in truth && w in truth[v];
      assert w in Succ(g, v);
      ReachEdge(g, v, w);
    }
    ReachEmbeds(known, g, a, b);
  }

  lemma ExtendedMono(p: Problem, known: Graph<Element>, known': Graph<Element>, a: Element, b: Element)
    requires SubGraph(known, known') && Reach(Extended(p, known), a, b)
    ensures Reach(Extended(p, known'), a, b)
  {
    var g, g' := Extended(p, known), Extended(p, known');
    forall v ensures Succ(g, v) <= Succ(g', v) {
      assert Succ(known, v) <= Succ(known', v);
    }
    ReachMono(g, g', a, b);
  }

  lemma ExtendedTop(p: Problem, known: Graph<Element>, a: Element)
    requires a in p.elements && p.top in p.elements
    ensures Reach(Extended(p, known), a, p.top)
  {
    ReachEdge(Extended(p, known), a, p.top);
  }

  lemma ExtendedBottom(p: Problem, known: Graph<Element>, b: Element)
    requires b in p.elements && p.bottom in p.elements
    ensures Reach(Extended(p, known), p.bottom, b)
  {
    ReachEdge(Extended(p, known), p.bottom, b);
  }

  lemma ExtendedInside(truth: Graph<Element>, p: Problem, known: Graph<Element>)
    requires TruthOk(truth, p) && Sound(truth, known)
    ensures Inside(Extended(p, known)) == Extended(p, known)
  {
    var g := Extended(p, known);
    forall e | e in g ensures g[e] <= g.Keys && Inside(g)[e] == g[e] {
      forall w | w in g[e] ensures w in g {
        if w in Succ(known, e) {
          assert truth[e] <= p.elements;
        }
      }
      assert g[e] * g.Keys == g[e];
    }
  }

  /** `build_transitively_reduced_hierarchy`. */
  method BuildTransitivelyReduced(ghost truth: Graph<Element>, p: Problem, known: Graph<Element>) returns (h: Hierarchy)
    requires TruthOk(truth, p) && Sound(truth, known)
    ensures Represents(h, Extended(p, known))
    ensures Bounded(h, Extended(p, known), p.top, p.bottom)
  {
    hide Represents, Inside, HierarchyBuilder.Valid;
    ExtendedInside(truth, p, known);
    var builder := new HierarchyBuilder(p.top, p.bottom, Extended(p, known));
    h := builder.Run();
    ExtendedBounds(truth, p, known, h);
  }

  lemma ExtendedBounds(truth: Graph<Element>, p: Problem, known: Graph<Element>, h: Hierarchy)
    requires TruthOk(truth, p) && Sound(truth, known)
    requires Represents(h, Extended(p, known)) && h.top == 0 && h.bottom == 1 && ExtremesNamed(h, p.top, p.bottom)
    requires h.nodeOf[p.top] == h.top
    requires h.nodeOf[p.bottom] == h.bottom <==>
      !(Reach(Extended(p, known), p.top, p.bottom) && Reach(Extended(p, known), p.bottom, p.top))
    requires forall n: nat :: 2 <= n < |h.nodes| ==> UsedNode(h, Extended(p, known), n)
    ensures Bounded(h, Extended(p, known), p.top, p.bottom)
  {
    var g := Extended(p, known);
    if Reach(g, p.top, p.bottom) {
      SoundExtended(truth, p, known, p.top, p.bottom);
    }
    forall n: nat | n < |h.nodes| ensures h.nodes[n].representative in g && h.nodeOf[h.nodes[n].representative] == n {
      if n < 2 {
        var e := if n == 0 then p.top else p.bottom;
        assert h.nodes[h.nodeOf[e]].representative in h.nodes[h.nodeOf[e]].equivalents;
      } else {
        assert UsedNode(h, g, n);
      }
    }
  }
}
