/** Recording the reduced parent links in the arena, and why the finished arena
    represents the graph it was built from. */
module HierarchyLinks {
  import opened Elements
  import opened Digraph
  import opened Hierarchies
  import opened Reduction

  /** The arena after `par` became the parents of `n`, with the inverse links. */
  function LinkParents(nodes: seq<HierarchyNode>, n: nat, par: set<nat>): (r: seq<HierarchyNode>)
    requires n < |nodes|
    ensures |r| == |nodes|
  {
    seq(|nodes|, i requires 0 <= i < |nodes| =>
      if i == n then nodes[i].(parents := par)
      else if i in par then nodes[i].(children := nodes[i].children + {n})
      else nodes[i])
  }

  /** Same representatives and members, whatever the links. */
  ghost predicate SameLabels(nodes: seq<HierarchyNode>, nodes': seq<HierarchyNode>) {
    && |nodes'| == |nodes|
    && forall i :: 0 <= i < |nodes| ==>
         nodes'[i].representative == nodes[i].representative && nodes'[i].equivalents == nodes[i].equivalents
  }

  /** Node `n` comes before position `k` of the topological order. */
  ghost predicate Earlier(topo: map<Element, int>, rep: map<nat, Element>, k: int, n: nat) {
    n in rep && rep[n] in topo && topo[rep[n]] < k
  }

  ghost predicate NodeReduced(g: Graph<Element>, rep: map<nat, Element>, nodes: seq<HierarchyNode>, n: nat) {
    && n < |nodes|
    && (forall m: nat {:trigger m in nodes[n].parents} {:trigger CoverOf(g, rep, n, m)} :: m in nodes[n].parents <==> CoverOf(g, rep, n, m))
    && (forall m: nat {:trigger Via(g, rep, n, nodes[n].parents, m)} {:trigger Below(g, rep, n, m)} ::
          Below(g, rep, n, m) ==> Via(g, rep, n, nodes[n].parents, m))
  }

  /** Nodes before position `k` have exactly their covers as parents, later ones none. */
  ghost predicate ParentsOk(g: Graph<Element>, topo: map<Element, int>, rep: map<nat, Element>, k: int, nodes: seq<HierarchyNode>) {
    && (forall n :: n in rep ==> n < |nodes|)
    && (forall n: nat {:trigger NodeReduced(g, rep, nodes, n)} :: Earlier(topo, rep, k, n) ==> NodeReduced(g, rep, nodes, n))
    && (forall n: nat {:trigger nodes[n].parents} :: n < |nodes| && !Earlier(topo, rep, k, n) ==> nodes[n].parents == {})
  }

  lemma LinkedAfter(nodes: seq<HierarchyNode>, n: nat, par: set<nat>)
    requires Linked(nodes) && n < |nodes| && nodes[n].parents == {} && n !in par
    requires forall m :: m in par ==> m < |nodes|
    ensures Linked(LinkParents(nodes, n, par))
  {
    var r := LinkParents(nodes, n, par);
    forall i, m | 0 <= i < |r| && m in r[i].parents ensures m < |r| && i in r[m].children {
      if i != n {
        assert m in nodes[i].parents;
      }
    }
    forall i, m | 0 <= i < |r| && m in r[i].children ensures m < |r| && i in r[m].parents {
      if m != n {
        assert m in nodes[i].children;
      }
    }
  }

  lemma ParentsAfter(g: Graph<Element>, topo: map<Element, int>, nodeOf: map<Element, nat>, rep: map<nat, Element>,
                     k: int, nodes: seq<HierarchyNode>, n: nat, par: set<nat>)
    requires Condensation(g, topo, nodeOf, rep) && ParentsOk(g, topo, rep, k, nodes)
    requires n in rep && topo[rep[n]] == k
    requires forall m :: m in par <==> CoverOf(g, rep, n, m)
    requires forall m :: Below(g, rep, n, m) ==> Via(g, rep, n, par, m)
    ensures ParentsOk(g, topo, rep, k + 1, LinkParents(nodes, n, par))
  {
    var r := LinkParents(nodes, n, par);
    forall i: nat | Earlier(topo, rep, k + 1, i) ensures NodeReduced(g, rep, r, i) {
      if i == n {
        assert r[n].parents == par;
      } else {
        assert nodeOf[rep[i]] == i && nodeOf[rep[n]] == n;
        assert NodeReduced(g, rep, nodes, i);
        assert r[i].parents == nodes[i].parents;
      }
    }
    forall i: nat | i < |r| && !Earlier(topo, rep, k + 1, i) ensures r[i].parents == {} {
      assert r[i].parents == nodes[i].parents;
    }
  }

  /** All parent links reduced. */
  ghost predicate AllReduced(g: Graph<Element>, rep: map<nat, Element>, nodes: seq<HierarchyNode>) {
    && (forall n :: n in rep ==> n < |nodes|)
    && (forall n: nat {:trigger NodeReduced(g, rep, nodes, n)} :: n in rep ==> NodeReduced(g, rep, nodes, n))
  }

  lemma UpImpliesBelow(h: Hierarchy, g: Graph<Element>, topo: map<Element, int>, nodeOf: map<Element, nat>, rep: map<nat, Element>, n: nat, m: nat)
    requires Condensation(g, topo, nodeOf, rep) && AllReduced(g, rep, h.nodes)
    requires n in rep && Reach(Up(h), n, m)
    ensures Below(g, rep, n, m)
  {
    var S := set k | k in rep && Below(g, rep, n, k);
    ReachRefl(g, rep[n]);
    forall k, p | k in S && p in Succ(Up(h), k) ensures p in S {
      assert NodeReduced(g, rep, h.nodes, k);
      assert CoverOf(g, rep, k, p);
      BelowTrans(g, rep, n, k, p);
    }
    ReachClosed(Up(h), S, n, m);
  }

  lemma {:induction false} BelowImpliesUp(h: Hierarchy, g: Graph<Element>, topo: map<Element, int>, nodeOf: map<Element, nat>, rep: map<nat, Element>, n: nat, m: nat)
    requires Condensation(g, topo, nodeOf, rep) && AllReduced(g, rep, h.nodes)
    requires forall a :: a in topo ==> 0 <= topo[a]
    requires Below(g, rep, n, m)
    ensures Reach(Up(h), n, m)
    decreases topo[rep[n]]
  {
    if n == m {
      ReachRefl(Up(h), n);
    } else {
      assert NodeReduced(g, rep, h.nodes, n);
      assert Via(g, rep, n, h.nodes[n].parents, m);
      var p :| p in h.nodes[n].parents && Below(g, rep, p, m);
      assert CoverOf(g, rep, n, p);
      ReachDescends(g, topo, nodeOf, rep, rep[n], rep[p]);
      assert nodeOf[rep[n]] != nodeOf[rep[p]];
      BelowImpliesUp(h, g, topo, nodeOf, rep, p, m);
      assert p in Succ(Up(h), n);
      ReachStep(Up(h), n, p, m);
    }
  }

  lemma UpIffBelow(h: Hierarchy, g: Graph<Element>, topo: map<Element, int>, nodeOf: map<Element, nat>, rep: map<nat, Element>, n: nat, m: nat)
    requires Condensation(g, topo, nodeOf, rep) && AllReduced(g, rep, h.nodes)
    requires forall a :: a in topo ==> 0 <= topo[a]
    requires n in rep
    ensures Reach(Up(h), n, m) <==> Below(g, rep, n, m)
  {
    if Reach(Up(h), n, m) {
      UpImpliesBelow(h, g, topo, nodeOf, rep, n, m);
    }
    if Below(g, rep, n, m) {
      BelowImpliesUp(h, g, topo, nodeOf, rep, n, m);
    }
  }

  lemma CoversIff(h: Hierarchy, g: Graph<Element>, topo: map<Element, int>, nodeOf: map<Element, nat>, rep: map<nat, Element>, n: nat, m: nat)
    requires Condensation(g, topo, nodeOf, rep) && AllReduced(g, rep, h.nodes)
    requires forall a :: a in topo ==> 0 <= topo[a]
    requires n in rep
    ensures Covers(Up(h), n, m) <==> CoverOf(g, rep, n, m)
  {
    UpIffBelow(h, g, topo, nodeOf, rep, n, m);
    if CoverOf(g, rep, n, m) {
      forall q: nat | q != n && q != m && Reach(Up(h), n, q) ensures !Reach(Up(h), q, m) {
        UpIffBelow(h, g, topo, nodeOf, rep, n, q);
        UpIffBelow(h, g, topo, nodeOf, rep, q, m);
      }
    }
    if Covers(Up(h), n, m) {
      forall q: nat | q != n && q != m && Below(g, rep, n, q) ensures !Below(g, rep, q, m) {
        UpIffBelow(h, g, topo, nodeOf, rep, n, q);
        UpIffBelow(h, g, topo, nodeOf, rep, q, m);
      }
    }
  }

  /** The finished arena orders its elements exactly as the graph does. */
  lemma FinishedOrder(h: Hierarchy, g: Graph<Element>, topo: map<Element, int>, rep: map<nat, Element>)
    requires Condensation(g, topo, h.nodeOf, rep) && AllReduced(g, rep, h.nodes)
    requires forall a :: a in topo ==> 0 <= topo[a]
    ensures Placed(h, g) && Ordered(h, g) && Reduced(h, g)
  {
    forall a, b | a in g && b in g
      ensures (h.nodeOf[a] == h.nodeOf[b] <==> Reach(g, a, b) && Reach(g, b, a))
      ensures (Reach(Up(h), h.nodeOf[a], h.nodeOf[b]) <==> Reach(g, a, b))
    {
      if Reach(g, a, b) {
        ReachDescends(g, topo, h.nodeOf, rep, a, b);
      }
      BelowFromReach(g, topo, h.nodeOf, rep, a, b);
      UpIffBelow(h, g, topo, h.nodeOf, rep, h.nodeOf[a], h.nodeOf[b]);
    }
    forall a, m: nat | a in g ensures m in h.nodes[h.nodeOf[a]].parents <==> Covers(Up(h), h.nodeOf[a], m) {
      CoversIff(h, g, topo, h.nodeOf, rep, h.nodeOf[a], m);
      assert NodeReduced(g, rep, h.nodes, h.nodeOf[a]);
    }
  }
}
