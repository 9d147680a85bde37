/** Hierarchies: the transitive reduction of a quasi-order, kept as an arena of
    nodes that group equivalent elements and link to their immediate neighbours. */
module Hierarchies {
  import opened Elements
  import opened Digraph

  datatype HierarchyNode = HierarchyNode(
    representative: Element,
    equivalents: set<Element>,
    parents: set<nat>,
    children: set<nat>)

  datatype Hierarchy = Hierarchy(
    nodes: seq<HierarchyNode>,
    top: nat,
    bottom: nat,
    nodeOf: map<Element, nat>)

  /** The parent links as a graph. */
  function Up(h: Hierarchy): Graph<nat> {
    map n: nat | n < |h.nodes| :: h.nodes[n].parents
  }

  /** The child links as a graph. */
  function Down(h: Hierarchy): Graph<nat> {
    map n: nat | n < |h.nodes| :: h.nodes[n].children
  }

  /** Parent and child links stay in range and are inverse to each other. */
  ghost predicate Linked(nodes: seq<HierarchyNode>) {
    && (forall n, m {:trigger m in nodes[n].parents} :: 0 <= n < |nodes| && m in nodes[n].parents ==>
          m < |nodes| && n in nodes[m].children)
    && (forall n, m {:trigger m in nodes[n].children} :: 0 <= n < |nodes| && m in nodes[n].children ==>
          m < |nodes| && n in nodes[m].parents)
  }

  /** `m` is an immediate strict ancestor of `n`: nothing lies between them. */
  ghost predicate Covers(up: Graph<nat>, n: nat, m: nat) {
    && m != n && Reach(up, n, m)
    && forall q: nat {:trigger Reach(up, q, m)} :: q != n && q != m && Reach(up, n, q) ==> !Reach(up, q, m)
  }

  /** Every element of `g` has a node. */
  ghost predicate Placed(h: Hierarchy, g: Graph<Element>) {
    && g.Keys <= h.nodeOf.Keys
    && (forall a :: a in g ==> h.nodeOf[a] < |h.nodes|)
  }

  /** Nodes list exactly the elements placed in them. */
  ghost predicate Grouped(h: Hierarchy, g: Graph<Element>)
    requires Placed(h, g)
  {
    && (forall a, b {:trigger b in h.nodes[h.nodeOf[a]].equivalents} :: a in g ==>
          (b in h.nodes[h.nodeOf[a]].equivalents <==> b in g && h.nodeOf[b] == h.nodeOf[a]))
    && (forall a :: a in g ==> h.nodes[h.nodeOf[a]].representative in h.nodes[h.nodeOf[a]].equivalents)
  }

  /** Two elements share a node exactly when each reaches the other, and a node
      lies above another exactly when its elements are reached from below. */
  ghost predicate Ordered(h: Hierarchy, g: Graph<Element>)
    requires Placed(h, g)
  {
    && (forall a, b {:trigger Reach(g, a, b)} :: a in g && b in g ==>
          (h.nodeOf[a] == h.nodeOf[b] <==> Reach(g, a, b) && Reach(g, b, a)))
    && (forall a, b {:trigger Reach(g, a, b)} :: a in g && b in g ==>
          (Reach(Up(h), h.nodeOf[a], h.nodeOf[b]) <==> Reach(g, a, b)))
  }

  ghost predicate Reduced(h: Hierarchy, g: Graph<Element>)
    requires Placed(h, g)
  {
    forall a, m {:trigger m in h.nodes[h.nodeOf[a]].parents} :: a in g ==>
      (m in h.nodes[h.nodeOf[a]].parents <==> Covers(Up(h), h.nodeOf[a], m))
  }

  /** `h` is the transitive reduction of reachability in `g`. */
  ghost predicate Represents(h: Hierarchy, g: Graph<Element>) {
    && Linked(h.nodes)
    && Placed(h, g)
    && Grouped(h, g)
    && Ordered(h, g)
    && Reduced(h, g)
  }

  /** Every node holds an element of `g`, and the extremes sit at `top` and `bottom`,
      which they represent. */
  ghost predicate Bounded(h: Hierarchy, g: Graph<Element>, top: Element, bottom: Element) {
    && top in g && bottom in g && g.Keys <= h.nodeOf.Keys
    && h.top == h.nodeOf[top] && h.bottom == h.nodeOf[bottom] && h.top != h.bottom
    && h.top < |h.nodes| && h.nodes[h.top].representative == top
    && h.bottom < |h.nodes| && h.nodes[h.bottom].representative == bottom
    && forall n: nat :: n < |h.nodes| ==> h.nodes[n].representative in g && h.nodeOf[h.nodes[n].representative] == n
  }

  lemma UpDownInverse(h: Hierarchy)
    requires Linked(h.nodes)
    ensures Inverse(Up(h), Down(h))
  {
  }

  /** A proper descendant of `n` lies at or below a child of `n`. */
  lemma LastStep(h: Hierarchy, m: nat, n: nat) returns (c: nat)
    requires Linked(h.nodes) && n < |h.nodes| && Reach(Up(h), m, n) && m != n
    ensures c in h.nodes[n].children && c < |h.nodes| && Reach(Up(h), m, c)
  {
    UpDownInverse(h);
    ReachInverse(Up(h), Down(h), m, n);
    c := ReachFirst(Down(h), n, m);
    ReachInverse(Up(h), Down(h), m, c);
  }

  lemma ChildReaches(h: Hierarchy, n: nat, c: nat)
    requires Linked(h.nodes) && n < |h.nodes| && c in h.nodes[n].children
    ensures c < |h.nodes| && Reach(Up(h), c, n)
  {
    assert n in Succ(Up(h), c);
    ReachEdge(Up(h), c, n);
  }

  lemma AncestorsInRange(h: Hierarchy, n: nat, m: nat)
    requires Linked(h.nodes) && n < |h.nodes| && Reach(Up(h), n, m)
    ensures m < |h.nodes|
  {
    ReachClosed(Up(h), Up(h).Keys, n, m);
  }

  /** The elements of `g` order two hierarchies of the same relation identically. */
  ghost predicate SameReach(g1: Graph<Element>, g2: Graph<Element>) {
    g1.Keys == g2.Keys && forall a, b {:trigger Reach(g1, a, b)} {:trigger Reach(g2, a, b)} ::
      a in g1 && b in g1 ==> (Reach(g1, a, b) <==> Reach(g2, a, b))
  }

  /** Being a cover only depends on the order of the elements. */
  ghost predicate CoversElement(g: Graph<Element>, a: Element, b: Element) {
    && Reach(g, a, b) && !Reach(g, b, a)
    && forall c {:trigger Reach(g, c, b)} :: c in g && Reach(g, a, c) && Reach(g, c, b) ==>
         Reach(g, c, a) || Reach(g, b, c)
  }

  lemma CoversToElements(h: Hierarchy, g: Graph<Element>, a: Element, b: Element)
    requires Placed(h, g) && Ordered(h, g) && a in g && b in g
    requires Covers(Up(h), h.nodeOf[a], h.nodeOf[b])
    ensures CoversElement(g, a, b)
  {
    assert Reach(g, a, b);
    forall c | c in g && Reach(g, a, c) && Reach(g, c, b) ensures Reach(g, c, a) || Reach(g, b, c) {
      var q := h.nodeOf[c];
      assert Reach(Up(h), q, h.nodeOf[b]);
    }
  }

  lemma CoversFromElements(h: Hierarchy, g: Graph<Element>, top: Element, bottom: Element, a: Element, b: Element)
    requires Linked(h.nodes) && Placed(h, g) && Ordered(h, g) && Bounded(h, g, top, bottom) && a in g && b in g
    requires CoversElement(g, a, b)
    ensures Covers(Up(h), h.nodeOf[a], h.nodeOf[b])
  {
    var n, m := h.nodeOf[a], h.nodeOf[b];
    forall q: nat | q != n && q != m && Reach(Up(h), n, q) ensures !Reach(Up(h), q, m) {
      AncestorsInRange(h, n, q);
      var c := h.nodes[q].representative;
      assert Reach(g, a, c);
      assert Reach(g, c, b) ==> Reach(g, c, a) || Reach(g, b, c);
    }
  }

  lemma CoversSame(g1: Graph<Element>, g2: Graph<Element>, a: Element, b: Element)
    requires SameReach(g1, g2) && a in g1 && b in g1
    ensures CoversElement(g1, a, b) ==> CoversElement(g2, a, b)
  {
    if CoversElement(g1, a, b) {
      assert Reach(g2, a, b) && !Reach(g2, b, a);
      forall c | c in g2 && Reach(g2, a, c) && Reach(g2, c, b) ensures Reach(g2, c, a) || Reach(g2, b, c) {
        assert Reach(g1, a, c) && Reach(g1, c, b);
      }
    }
  }

  lemma ParentIffCovers(h: Hierarchy, g: Graph<Element>, top: Element, bottom: Element, a: Element, b: Element)
    requires Represents(h, g) && Bounded(h, g, top, bottom) && a in g && b in g
    ensures h.nodeOf[b] in h.nodes[h.nodeOf[a]].parents <==> CoversElement(g, a, b)
    ensures h.nodeOf[a] == h.nodeOf[b] <==> Reach(g, a, b) && Reach(g, b, a)
  {
    if CoversElement(g, a, b) {
      CoversFromElements(h, g, top, bottom, a, b);
    }
    if h.nodeOf[b] in h.nodes[h.nodeOf[a]].parents {
      CoversToElements(h, g, a, b);
    }
  }

  /** The transitive reduction is unique: hierarchies of the same relation agree
      on which elements share a node and on every direct link. */
  lemma HierarchyUnique(h1: Hierarchy, g1: Graph<Element>, h2: Hierarchy, g2: Graph<Element>,
                        top: Element, bottom: Element, a: Element, b: Element)
    requires Represents(h1, g1) && Represents(h2, g2) && SameReach(g1, g2)
    requires Bounded(h1, g1, top, bottom) && Bounded(h2, g2, top, bottom)
    requires a in g1 && b in g1
    ensures h1.nodeOf[a] == h1.nodeOf[b] <==> h2.nodeOf[a] == h2.nodeOf[b]
    ensures h1.nodeOf[b] in h1.nodes[h1.nodeOf[a]].parents <==> h2.nodeOf[b] in h2.nodes[h2.nodeOf[a]].parents
  {
    ParentIffCovers(h1, g1, top, bottom, a, b);
    ParentIffCovers(h2, g2, top, bottom, a, b);
    CoversSame(g1, g2, a, b);
    CoversSame(g2, g1, a, b);
  }
}
