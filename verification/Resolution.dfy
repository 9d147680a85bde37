/** Resolving the leftover possible subsumers of one element: the small hierarchy
    over them and what the enhanced traversal of it establishes. */
module Resolution {
  import opened Elements
  import opened Digraph
  import opened Hierarchies
  import opened Subsumption

  /** The sub-problem over the unknown possible subsumers. */
  function SmallProblem(p: Problem, unknown: set<Element>): Problem {
    Problem(unknown + {p.top, p.bottom}, p.top, p.bottom)
  }

  /** Known subsumptions among the unknowns, and each of them below top. */
  function SmallKnown(p: Problem, unknown: set<Element>, knownMap: Graph<Element>): Graph<Element> {
    map u | u in unknown :: Succ(knownMap, u) * unknown + {p.top}
  }

  ghost function Restrict(truth: Graph<Element>, elements: set<Element>): Graph<Element> {
    map a | a in truth && a in elements :: truth[a] * elements
  }

  /** Every recorded subsumer of a key is a true one. */
  ghost predicate MapSound(truth: Graph<Element>, knownMap: Graph<Element>) {
    forall u :: u in knownMap ==> u in truth && knownMap[u] <= truth[u]
  }

  lemma SmallOk(truth: Graph<Element>, p: Problem, unknown: set<Element>, knownMap: Graph<Element>)
    requires TruthOk(truth, p) && unknown <= p.elements && MapSound(truth, knownMap)
    ensures TruthOk(Restrict(truth, SmallProblem(p, unknown).elements), SmallProblem(p, unknown))
    ensures Sound(Restrict(truth, SmallProblem(p, unknown).elements), SmallKnown(p, unknown, knownMap))
  {
    var q := SmallProblem(p, unknown);
    var t := Restrict(truth, q.elements);
    assert t.Keys == q.elements;
    assert t[p.bottom] == q.elements;
    forall a, b | a in t && b in t[a] ensures t[b] <= t[a] {
      assert b in truth[a];
    }
  }

  ghost function SmallGraph(p: Problem, unknown: set<Element>, knownMap: Graph<Element>): Graph<Element> {
    Extended(SmallProblem(p, unknown), SmallKnown(p, unknown, knownMap))
  }

  /** `h` is the small hierarchy: it orders the unknowns by known subsumption. */
  ghost predicate SmallHierarchy(p: Problem, unknown: set<Element>, knownMap: Graph<Element>, h: Hierarchy) {
    var g := SmallGraph(p, unknown, knownMap);
    Represents(h, g) && Bounded(h, g, p.top, p.bottom)
  }

  /** `build_small_hierarchy` / `build_hierarchy_of_unknown_possible`. */
  method BuildSmallHierarchy(ghost truth: Graph<Element>, p: Problem, unknown: set<Element>, knownMap: Graph<Element>) returns (h: Hierarchy)
    requires TruthOk(truth, p) && unknown <= p.elements && MapSound(truth, knownMap)
    ensures SmallHierarchy(p, unknown, knownMap, h)
  {
    hide Represents, Bounded, TruthOk, Sound;
    SmallOk(truth, p, unknown, knownMap);
    ghost var q := SmallProblem(p, unknown);
    h := BuildTransitivelyReduced(Restrict(truth, q.elements), SmallProblem(p, unknown), SmallKnown(p, unknown, knownMap));
  }

  /** Every small-graph path is a true subsumption. */
  lemma SmallSound(truth: Graph<Element>, p: Problem, unknown: set<Element>, knownMap: Graph<Element>, a: Element, b: Element)
    requires TruthOk(truth, p) && unknown <= p.elements && MapSound(truth, knownMap)
    requires a in SmallGraph(p, unknown, knownMap) && Reach(SmallGraph(p, unknown, knownMap), a, b)
    ensures a in truth && b in truth[a]
  {
    SmallOk(truth, p, unknown, knownMap);
    var q := SmallProblem(p, unknown);
    SoundExtended(Restrict(truth, q.elements), q, SmallKnown(p, unknown, knownMap), a, b);
  }

  /** A label of the small hierarchy: its members are mutual subsumers. */
  lemma SmallMembers(truth: Graph<Element>, p: Problem, unknown: set<Element>, knownMap: Graph<Element>, h: Hierarchy, n: nat, x: Element)
    requires TruthOk(truth, p) && unknown <= p.elements && MapSound(truth, knownMap)
    requires SmallHierarchy(p, unknown, knownMap, h) && n < |h.nodes| && x in h.nodes[n].equivalents
    ensures var r := h.nodes[n].representative; r in truth && x in truth[r]
    ensures x in unknown || x == p.top || x == p.bottom
  {
    var g := SmallGraph(p, unknown, knownMap);
    var r := h.nodes[n].representative;
    assert x in h.nodes[h.nodeOf[r]].equivalents;
    ReachRefl(Up(h), n);
    assert Reach(g, r, x) <==> Reach(Up(h), n, n);
    SmallSound(truth, p, unknown, knownMap, r, x);
  }

  /** The representative of a node other than top is unknown or bottom. */
  lemma SmallRepresentative(p: Problem, unknown: set<Element>, knownMap: Graph<Element>, h: Hierarchy, n: nat)
    requires SmallHierarchy(p, unknown, knownMap, h) && n < |h.nodes| && n != h.top
    ensures h.nodes[n].representative in unknown || h.nodes[n].representative == p.bottom
  {
  }

  /** `w` lies below `c` in the small hierarchy, so it is subsumed by it. */
  lemma SmallBelow(truth: Graph<Element>, p: Problem, unknown: set<Element>, knownMap: Graph<Element>, h: Hierarchy, b: Element, n: nat)
    requires TruthOk(truth, p) && unknown <= p.elements && MapSound(truth, knownMap)
    requires SmallHierarchy(p, unknown, knownMap, h) && b in unknown && n < |h.nodes|
    requires b in h.nodeOf && Reach(Up(h), h.nodeOf[b], n)
    ensures b in truth && h.nodes[n].representative in truth[b]
  {
    var g := SmallGraph(p, unknown, knownMap);
    var r := h.nodes[n].representative;
    assert Reach(g, b, r) <==> Reach(Up(h), h.nodeOf[b], h.nodeOf[r]);
    SmallSound(truth, p, unknown, knownMap, b, r);
  }

  /** The traversal below confirmed nodes: nodes in `open` still have unvisited
      children; every visited subsumer of `e` has its members in `K`. */
  ghost predicate TraversalInv(truth: Graph<Element>, h: Hierarchy, e: Element, visited: set<nat>, open: set<nat>, K: iset<Element>) {
    && e in truth && h.top in visited
    && (forall v :: v in visited ==> v < |h.nodes|)
    && (forall v, x {:trigger x in h.nodes[v].equivalents} :: v in visited && v != h.top && h.nodes[v].representative in truth[e] ==>
          x in h.nodes[v].equivalents ==> x in K)
    && (forall v, c {:trigger c in h.nodes[v].children} ::
          v in visited && v !in open && (v == h.top || h.nodes[v].representative in truth[e]) && c in h.nodes[v].children ==>
          c in visited)
  }

  /** Every true subsumer among the unknowns is still possible or known. */
  ghost predicate CandidatesInv(truth: Graph<Element>, e: Element, unknown: set<Element>, possible: set<Element>, K: iset<Element>) {
    && e in truth && possible <= unknown
    && (forall x :: x in K ==> x in truth[e])
    && (forall b :: b in unknown && b in truth[e] ==> b in possible || b in K)
  }

  lemma TraversalStart(truth: Graph<Element>, h: Hierarchy, e: Element, K: iset<Element>)
    requires e in truth && h.top < |h.nodes|
    ensures TraversalInv(truth, h, e, {h.top}, {h.top}, K)
  {
  }

  /** Visiting one child. */
  lemma TraversalStep(truth: Graph<Element>, h: Hierarchy, e: Element, visited: set<nat>, open: set<nat>, K: iset<Element>,
                      c: nat, open': set<nat>, K': iset<Element>)
    requires TraversalInv(truth, h, e, visited, open, K) && c < |h.nodes| && c !in visited
    requires K <= K' && open <= open'
    requires h.nodes[c].representative in truth[e] ==> c in open' && (forall x :: x in h.nodes[c].equivalents ==> x in K')
    ensures TraversalInv(truth, h, e, visited + {c}, open', K')
  {
  }

  /** A node is finished once all its children are visited. */
  lemma TraversalClose(truth: Graph<Element>, h: Hierarchy, e: Element, visited: set<nat>, open: set<nat>, K: iset<Element>, v: nat)
    requires TraversalInv(truth, h, e, visited, open, K) && v < |h.nodes|
    requires h.nodes[v].children <= visited
    ensures TraversalInv(truth, h, e, visited, open - {v}, K)
  {
  }

  lemma TraversalWiden(truth: Graph<Element>, h: Hierarchy, e: Element, visited: set<nat>, open: set<nat>, open': set<nat>, K: iset<Element>)
    requires TraversalInv(truth, h, e, visited, open, K) && open <= open'
    ensures TraversalInv(truth, h, e, visited, open', K)
  {
  }

  lemma CandidatesGrow(truth: Graph<Element>, e: Element, unknown: set<Element>, possible: set<Element>, K: iset<Element>, K': iset<Element>)
    requires CandidatesInv(truth, e, unknown, possible, K) && K <= K' && forall x :: x in K' ==> x in truth[e]
    ensures CandidatesInv(truth, e, unknown, possible, K')
  {
  }

  /** The members of a node that subsumes `e` all subsume `e`. */
  lemma MembersSubsume(truth: Graph<Element>, p: Problem, unknown: set<Element>, knownMap: Graph<Element>, h: Hierarchy, e: Element, n: nat)
    requires TruthOk(truth, p) && unknown <= p.elements && MapSound(truth, knownMap)
    requires SmallHierarchy(p, unknown, knownMap, h) && n < |h.nodes|
    requires e in truth && h.nodes[n].representative in truth[e]
    ensures h.nodes[n].equivalents <= truth[e]
  {
    forall x | x in h.nodes[n].equivalents ensures x in truth[e] {
      SmallMembers(truth, p, unknown, knownMap, h, n, x);
    }
  }

  /** A finished traversal has confirmed every true subsumer among the unknowns,
      except members of the top node, which top itself leads to. */
  lemma TraversalComplete(truth: Graph<Element>, p: Problem, unknown: set<Element>, knownMap: Graph<Element>, h: Hierarchy,
                          e: Element, visited: set<nat>, K: iset<Element>, b: Element)
    requires TruthOk(truth, p) && unknown <= p.elements && MapSound(truth, knownMap)
    requires SmallHierarchy(p, unknown, knownMap, h)
    requires TraversalInv(truth, h, e, visited, {}, K)
    requires b in unknown && b in truth[e]
    ensures b in K || Reach(SmallGraph(p, unknown, knownMap), p.top, b)
  {
    var g := SmallGraph(p, unknown, knownMap);
    var n := h.nodeOf[b];
    if n == h.top {
      ReachRefl(Up(h), n);
      assert Reach(g, p.top, b) <==> Reach(Up(h), h.nodeOf[p.top], n);
    } else {
      TopReachesDown(p, unknown, knownMap, h, b);
      var S := set v | v in visited && (v == h.top || h.nodes[v].representative in truth[e]);
      if n !in S {
        var x, y := ReachExit(Down(h), S, h.top, n);
        assert y in h.nodes[x].children;
        UpDownInverse(h);
        ReachInverse(Up(h), Down(h), n, y);
        SmallBelow(truth, p, unknown, knownMap, h, b, y);
      } else {
        assert b in h.nodes[n].equivalents;
      }
    }
  }

  lemma TopReachesDown(p: Problem, unknown: set<Element>, knownMap: Graph<Element>, h: Hierarchy, b: Element)
    requires SmallHierarchy(p, unknown, knownMap, h) && b in unknown
    ensures b in h.nodeOf && Reach(Down(h), h.top, h.nodeOf[b])
  {
    var g := SmallGraph(p, unknown, knownMap);
    ExtendedTop(SmallProblem(p, unknown), SmallKnown(p, unknown, knownMap), b);
    assert Reach(Up(h), h.nodeOf[b], h.top);
    UpDownInverse(h);
    ReachInverse(Up(h), Down(h), h.nodeOf[b], h.top);
  }

  /** `knownMap` under-approximates reachability in `known`, possibly out of date. */
  ghost predicate MapWithin(known: Graph<Element>, knownMap: Graph<Element>) {
    forall u, x {:trigger x in Succ(knownMap, u)} :: x in Succ(knownMap, u) ==> Reach(known, u, x)
  }

  lemma MapWithinSound(truth: Graph<Element>, p: Problem, known: Graph<Element>, knownMap: Graph<Element>)
    requires TruthOk(truth, p) && Sound(truth, known) && MapWithin(known, knownMap) && knownMap.Keys <= p.elements
    ensures MapSound(truth, knownMap)
  {
    forall u, x | u in knownMap && x in knownMap[u] ensures x in truth[u] {
      assert x in Succ(knownMap, u);
      SoundReach(truth, p, known, u, x);
    }
  }

  lemma MapWithinMono(known: Graph<Element>, known': Graph<Element>, knownMap: Graph<Element>)
    requires MapWithin(known, knownMap) && SubGraph(known, known')
    ensures MapWithin(known', knownMap)
  {
    forall u, x | x in Succ(knownMap, u) ensures Reach(known', u, x) {
      ReachMono(known, known', u, x);
    }
  }

  /** Members of the small top node are above top in the extended known graph. */
  lemma SmallTopExtended(truth: Graph<Element>, p: Problem, known: Graph<Element>, unknown: set<Element>, knownMap: Graph<Element>, b: Element)
    requires TruthOk(truth, p) && Sound(truth, known) && unknown <= p.elements
    requires MapWithin(known, knownMap)
    requires Reach(SmallGraph(p, unknown, knownMap), p.top, b)
    ensures Reach(Extended(p, known), p.top, b)
  {
    var g, x := SmallGraph(p, unknown, knownMap), Extended(p, known);
    forall v, w | w in Succ(g, v) ensures Reach(x, v, w) {
      if v == p.bottom {
        ExtendedBottom(p, known, w);
      } else if w == p.top {
        ExtendedTop(p, known, v);
      } else if w == v {
        ReachRefl(x, v);
      } else {
        assert w in Succ(knownMap, v);
        ExtendedContains(truth, p, known, v, w);
      }
    }
    ReachEmbeds(g, x, p.top, b);
  }
}
