/** `build_hierarchy`: strongly connected components of the subsumer graph,
    then their transitive reduction. */
module HierarchyBuilding {
  import opened Elements
  import opened Digraph
  import opened Components
  import opened Visiting
  import opened Hierarchies
  import opened Reduction
  import opened HierarchyLinks

  /** The subsumer graph proper: successors that have an entry themselves. */
  function Inside(subsumers: Graph<Element>): Graph<Element> {
    map a | a in subsumers :: subsumers[a] * subsumers.Keys
  }

  ghost function Members(s: Search, i: int): set<Element> {
    set x | x in s.topo && s.topo[x] == i
  }

  /** The hierarchy nodes created so far match the components found so far. */
  ghost predicate NodesOk(s: Search, nodes: seq<HierarchyNode>, nodeOf: map<Element, nat>, order: seq<nat>, top: Element, bottom: Element) {
    && |order| == s.count && 2 <= |nodes|
    && (forall x :: x in s.topo ==> 0 <= s.topo[x] < s.count)
    && nodes[0].representative == top && nodes[1].representative == bottom
    && (forall n :: 0 <= n < |nodes| ==> nodes[n].parents == {} && nodes[n].children == {})
    && (forall i :: 0 <= i < |order| ==> order[i] < |nodes|)
    && (forall i :: 0 <= i < |order| ==> nodes[order[i]].equivalents == Members(s, i))
    && (forall i :: 0 <= i < |order| ==> nodes[order[i]].representative in Members(s, i))
    && (forall i, j :: 0 <= i < j < |order| ==> order[i] != order[j])
    && (forall n :: 2 <= n < |nodes| ==> n in order)
    && s.topo.Keys <= nodeOf.Keys
    && (forall x :: x in s.topo ==> nodeOf[x] == order[s.topo[x]])
    && ExtremesOk(s, nodes, order, top, bottom)
  }

  /** Nodes 0 and 1 wait for the components of top and bottom; a component with
      both goes to node 0. */
  ghost predicate ExtremesOk(s: Search, nodes: seq<HierarchyNode>, order: seq<nat>, top: Element, bottom: Element)
    requires |order| == s.count && 2 <= |nodes|
    requires forall x :: x in s.topo ==> 0 <= s.topo[x] < s.count
  {
    && (top in s.topo ==> order[s.topo[top]] == 0)
    && (bottom in s.topo && !(top in s.topo && s.topo[top] == s.topo[bottom]) ==> order[s.topo[bottom]] == 1)
    && (forall i :: 0 <= i < |order| && order[i] == 0 ==> top in Members(s, i))
    && (forall i :: 0 <= i < |order| && order[i] == 1 ==> bottom in Members(s, i))
    && (top !in s.topo ==> nodes[0].equivalents == {top})
    && (bottom !in s.topo ==> nodes[1].equivalents == {bottom})
  }

  /** The stack entries at position `k` and above. */
  ghost function Popped(stack: seq<Element>, k: int): set<Element> {
    set i | 0 <= k <= i < |stack| :: stack[i]
  }

  lemma PoppedNone(stack: seq<Element>)
    ensures Popped(stack, |stack|) == {}
  {
  }

  lemma PoppedStep(stack: seq<Element>, k: int)
    requires 0 <= k < |stack|
    ensures Popped(stack, k) == Popped(stack, k + 1) + {stack[k]}
  {
  }

  /** The inner loop of `visit` that pops the stack down to and including `x`. */
  method PopUntil(stack0: seq<Element>, x: Element, ghost k: nat) returns (stack: seq<Element>, comp: set<Element>)
    requires k < |stack0| && stack0[k] == x && forall i :: k < i < |stack0| ==> stack0[i] != x
    ensures stack == stack0[..k] && comp == Popped(stack0, k)
  {
    stack, comp := stack0, {};
    PoppedNone(stack0);
    var done := false;
    while !done
      invariant if done then |stack| == k else k < |stack|
      invariant stack <= stack0
      invariant comp == Popped(stack0, |stack|)
      decreases !done, |stack|
    {
      var popped := stack[|stack| - 1];
      stack := stack[..|stack| - 1];
      PoppedStep(stack0, |stack|);
      comp := comp + {popped};
      done := popped == x;
    }
  }

  /** Popping the finished component of `x` and assigning it the next index. */
  method PopComponent(ghost g: Graph<Element>, s: Search, x: Element) returns (t: Search, comp: set<Element>)
    requires Shape(g, s) && Open(s, x)
    ensures comp == Segment(s, x) && ClosedAt(s, t, x)
  {
    ghost var k := StackPosition(g, s, x);
    var stack;
    stack, comp := PopUntil(s.stack, x, k);
    PoppedSegment(g, s, x, k, comp, stack);
    t := s.(stack := stack, topo := Assign(s.topo, comp, s.count), count := s.count + 1);
  }

  lemma StackPosition(g: Graph<Element>, s: Search, x: Element) returns (k: nat)
    requires Shape(g, s) && Open(s, x)
    ensures k < |s.stack| && s.stack[k] == x && forall i :: k < i < |s.stack| ==> s.stack[i] != x
  {
    k :| 0 <= k < |s.stack| && s.stack[k] == x;
  }

  lemma PoppedSegment(g: Graph<Element>, s: Search, x: Element, k: nat, comp: set<Element>, stack: seq<Element>)
    requires Shape(g, s) && k < |s.stack| && s.stack[k] == x
    requires comp == Popped(s.stack, k)
    requires stack == s.stack[..k]
    ensures comp == Segment(s, x)
    ensures forall y :: y in stack <==> Open(s, y) && s.index[y] < s.index[x]
  {
    forall y ensures y in comp <==> y in Segment(s, x) {
      if y in Segment(s, x) {
        assert Open(s, y);
        var i :| 0 <= i < |s.stack| && s.stack[i] == y;
      }
    }
    forall y ensures y in stack <==> Open(s, y) && s.index[y] < s.index[x] {
      if Open(s, y) && s.index[y] < s.index[x] {
        var i :| 0 <= i < |s.stack| && s.stack[i] == y;
        assert s.stack[..k][i] == y;
      }
    }
  }

  /** The arena slot for a new component. */
  function SlotFor(nodes: seq<HierarchyNode>, comp: set<Element>, top: Element, bottom: Element): nat {
    if top in comp then 0 else if bottom in comp then 1 else |nodes|
  }

  /** The arena with `comp` recorded in slot `n`, created for `x` when it is new. */
  function Grow(nodes: seq<HierarchyNode>, comp: set<Element>, x: Element, n: nat): seq<HierarchyNode>
    requires n <= |nodes|
  {
    var arena := if n == |nodes| then nodes + [HierarchyNode(x, {x}, {}, {})] else nodes;
    arena[n := arena[n].(equivalents := arena[n].equivalents + comp)]
  }

  lemma MembersAfter(s: Search, t: Search, x: Element)
    requires x in s.index && ClosedAt(s, t, x) && 0 <= s.count
    requires forall y :: y in s.topo ==> 0 <= s.topo[y] < s.count
    ensures forall i :: i != s.count ==> Members(t, i) == Members(s, i)
    ensures Members(t, s.count) == Segment(s, x)
  {
  }

  lemma GrowExtremes(s: Search, t: Search, nodes: seq<HierarchyNode>, nodeOf: map<Element, nat>, order: seq<nat>,
                     top: Element, bottom: Element, x: Element)
    requires NodesOk(s, nodes, nodeOf, order, top, bottom)
    requires Open(s, x) && ClosedAt(s, t, x)
    ensures var comp := Segment(s, x); var n := SlotFor(nodes, comp, top, bottom);
            ExtremesOk(t, Grow(nodes, comp, x, n), order + [n], top, bottom)
  {
    MembersAfter(s, t, x);
    var comp := Segment(s, x);
    var n := SlotFor(nodes, comp, top, bottom);
    var order' := order + [n];
    forall i | 0 <= i < |order'| && order'[i] == 0 ensures top in Members(t, i) {
      assert i < |order| ==> order[i] == 0;
    }
    forall i | 0 <= i < |order'| && order'[i] == 1 ensures bottom in Members(t, i) {
      assert i < |order| ==> order[i] == 1;
    }
  }

  /** The new component is recorded in its slot, and the others stay. */
  lemma GrowArena(s: Search, t: Search, nodes: seq<HierarchyNode>, nodeOf: map<Element, nat>, order: seq<nat>,
                  top: Element, bottom: Element, x: Element)
    requires NodesOk(s, nodes, nodeOf, order, top, bottom)
    requires Open(s, x) && ClosedAt(s, t, x)
    ensures SlotFor(nodes, Segment(s, x), top, bottom) <= |nodes|
    ensures var comp := Segment(s, x); var n := SlotFor(nodes, comp, top, bottom);
      var nodes', order' := Grow(nodes, comp, x, n), order + [n];
      && |nodes'| >= |nodes| && nodes'[0].representative == top && nodes'[1].representative == bottom
      && (forall m :: 0 <= m < |nodes'| ==> nodes'[m].parents == {} && nodes'[m].children == {})
      && (forall i :: 0 <= i < |order'| ==> order'[i] < |nodes'|)
      && (forall i :: 0 <= i < |order'| ==> nodes'[order'[i]].equivalents == Members(t, i))
      && (forall i :: 0 <= i < |order'| ==> nodes'[order'[i]].representative in Members(t, i))
      && (forall m :: 2 <= m < |nodes'| ==> m in order')
  {
    hide ExtremesOk;
    MembersAfter(s, t, x);
    var comp := Segment(s, x);
    var n := SlotFor(nodes, comp, top, bottom);
    var nodes', order' := Grow(nodes, comp, x, n), order + [n];
    assert x in comp;
    SlotIsNew(s, nodes, nodeOf, order, top, bottom, x);
    assert nodes'[n].equivalents == comp;
    forall i | 0 <= i < |order'|
      ensures order'[i] < |nodes'| && nodes'[order'[i]].equivalents == Members(t, i) && nodes'[order'[i]].representative in Members(t, i)
    {
      if i < |order| {
        assert order'[i] == order[i] && order[i] != n && nodes'[order[i]] == nodes[order[i]];
      }
    }
    forall m | 2 <= m < |nodes'| ensures m in order' {
      assert order'[|order|] == n;
      assert m < |nodes| ==> m in order;
    }
  }

  /** Every member of a component is placed in its node. */
  lemma GrowPlaces(s: Search, t: Search, nodes: seq<HierarchyNode>, nodeOf: map<Element, nat>, order: seq<nat>,
                   top: Element, bottom: Element, x: Element)
    requires NodesOk(s, nodes, nodeOf, order, top, bottom)
    requires Open(s, x) && ClosedAt(s, t, x)
    ensures SlotFor(nodes, Segment(s, x), top, bottom) <= |nodes|
    ensures var comp := Segment(s, x); var n := SlotFor(nodes, comp, top, bottom);
      var nodeOf', order' := nodeOf + (map y | y in comp :: n), order + [n];
      && |order'| == t.count && (forall y :: y in t.topo ==> 0 <= t.topo[y] < t.count) && t.topo.Keys <= nodeOf'.Keys
      && (forall y :: y in t.topo ==> nodeOf'[y] == order'[t.topo[y]])
      && (forall i, j :: 0 <= i < j < |order'| ==> order'[i] != order'[j])
  {
    hide ExtremesOk, Grow;
    SlotIsNew(s, nodes, nodeOf, order, top, bottom, x);
    var n := SlotFor(nodes, Segment(s, x), top, bottom);
    var order' := order + [n];
    forall y | y in t.topo ensures 0 <= t.topo[y] < t.count {
      assert y in s.topo || y in Segment(s, x);
    }
    forall y | y in t.topo && y in s.topo ensures y !in Segment(s, x) && order'[t.topo[y]] == order[s.topo[y]] {
    }
  }

  /** Closing a component keeps the arena in step with the search. */
  lemma GrowNodes(s: Search, t: Search, nodes: seq<HierarchyNode>, nodeOf: map<Element, nat>, order: seq<nat>,
                  top: Element, bottom: Element, x: Element)
    requires NodesOk(s, nodes, nodeOf, order, top, bottom)
    requires Open(s, x) && ClosedAt(s, t, x)
    ensures SlotFor(nodes, Segment(s, x), top, bottom) <= |nodes|
    ensures var comp := Segment(s, x); var n := SlotFor(nodes, comp, top, bottom);
            NodesOk(t, Grow(nodes, comp, x, n), nodeOf + (map y | y in comp :: n), order + [n], top, bottom)
  {
    hide ExtremesOk, Grow, Members, Segment, SlotFor, ClosedAt;
    GrowArena(s, t, nodes, nodeOf, order, top, bottom, x);
    GrowPlaces(s, t, nodes, nodeOf, order, top, bottom, x);
    GrowExtremes(s, t, nodes, nodeOf, order, top, bottom, x);
  }

  lemma SlotIsNew(s: Search, nodes: seq<HierarchyNode>, nodeOf: map<Element, nat>, order: seq<nat>,
                  top: Element, bottom: Element, x: Element)
    requires NodesOk(s, nodes, nodeOf, order, top, bottom) && Open(s, x)
    ensures var n := SlotFor(nodes, Segment(s, x), top, bottom);
            n !in order && n <= |nodes| && (n < |nodes| ==> nodes[n].equivalents == {nodes[n].representative} <= Segment(s, x))
  {
    forall i | 0 <= i < |order| ensures order[i] != SlotFor(nodes, Segment(s, x), top, bottom) {
      assert order[i] == 0 ==> top in Members(s, i);
      assert order[i] == 1 ==> bottom in Members(s, i);
    }
  }

  lemma NodesSame(s: Search, t: Search, nodes: seq<HierarchyNode>, nodeOf: map<Element, nat>, order: seq<nat>, top: Element, bottom: Element)
    requires NodesOk(s, nodes, nodeOf, order, top, bottom) && t.topo == s.topo && t.count == s.count
    ensures NodesOk(t, nodes, nodeOf, order, top, bottom)
  {
    assert forall i :: Members(t, i) == Members(s, i);
  }

  lemma InsideSucc(subsumers: Graph<Element>, x: Element)
    requires x in subsumers
    ensures x in Inside(subsumers) && Inside(subsumers).Keys == subsumers.Keys
    ensures Succ(Inside(subsumers), x) == subsumers[x] * subsumers.Keys
  {
  }

  class HierarchyBuilder {
    const topElement: Element
    const bottomElement: Element
    const subsumers: Graph<Element>
    var s: Search
    var nodes: seq<HierarchyNode>
    var nodesByElements: map<Element, nat>
    var topologicalOrder: seq<nat>

    ghost predicate Valid(gray: set<Element>)
      reads this
    {
      && Inv(Inside(subsumers), s, gray)
      && NodesOk(s, nodes, nodesByElements, topologicalOrder, topElement, bottomElement)
    }

    constructor (top: Element, bottom: Element, subsumers: Graph<Element>)
      ensures topElement == top && bottomElement == bottom && this.subsumers == subsumers
      ensures Valid({}) && s.index == map[]
    {
      this.topElement, this.bottomElement, this.subsumers := top, bottom, subsumers;
      s := Search(map[], map[], map[], [], 0, 0);
      nodes := [HierarchyNode(top, {top}, {}, {}), HierarchyNode(bottom, {bottom}, {}, {})];
      nodesByElements := map[top := 0][bottom := 1];
      topologicalOrder := [];
    }

    /** The tail of `visit`: `x` is its own head, so its component is complete. */
    method CloseComponent(x: Element, ghost s0: Search, ghost gray: set<Element>)
      requires Inv(Inside(subsumers), s0, gray)
      requires LoopInv(Inside(subsumers), s0, s, gray, x, {}) && s.head[x] == x
      requires NodesOk(s, nodes, nodesByElements, topologicalOrder, topElement, bottomElement)
      modifies this
      ensures Valid(gray) && VisitPost(Inside(subsumers), s0, s, x)
    {
      hide Inv, NodesOk, LoopInv, VisitPost, Inside, ClosedAt;
      ghost var g := Inside(subsumers);
      LoopFacts(g, s0, s, gray, x, {});
      var closed, comp := PopComponent(g, s, x);
      GrowNodes(s, closed, nodes, nodesByElements, topologicalOrder, topElement, bottomElement, x);
      LoopEndClosed(g, s0, s, closed, gray, x);
      hide Segment, SlotFor, Grow, Shape;
      var n := SlotFor(nodes, comp, topElement, bottomElement);
      s := closed;
      nodes := Grow(nodes, comp, x, n);
      nodesByElements := nodesByElements + (map y | y in comp :: n);
      topologicalOrder := topologicalOrder + [n];
    }

    /** Tarjan's search from `x`. The ghost `gray` is the call stack. */
    method Visit(x: Element, ghost gray: set<Element>)
      requires Valid(gray) && x in subsumers && x !in s.index
      requires forall y :: y in gray ==> Reach(Inside(subsumers), y, x)
      modifies this
      ensures Valid(gray) && VisitPost(Inside(subsumers), old(s), s, x)
      decreases subsumers.Keys - s.index.Keys
    {
      hide Inv, NodesOk, LoopInv, VisitPost, Inside, Shape;
      ghost var g := Inside(subsumers);
      ghost var s0 := s;
      InsideSucc(subsumers, x);
      LoopStart(g, s, gray, x, subsumers[x]);
      NodesSame(s, Enter(s, x), nodes, nodesByElements, topologicalOrder, topElement, bottomElement);
      s := Enter(s, x);
      var todo := subsumers[x];
      while todo != {}
        invariant LoopInv(g, s0, s, gray, x, todo)
        invariant NodesOk(s, nodes, nodesByElements, topologicalOrder, topElement, bottomElement)
        invariant s0.index.Keys + {x} <= s.index.Keys && s0.head.Keys == s0.index.Keys
      {
        LoopFacts(g, s0, s, gray, x, todo);
        var z :| z in todo;
        if z in subsumers {
          ghost var t := s;
          if z !in s.index {
            CallStackReaches(g, s0, s, gray, x, todo, z);
            Visit(z, gray + {x});
          } else {
            VisitedPost(g, s, gray + {x}, z);
          }
          LoopStep(g, s0, t, s, gray, x, todo, z);
          if z !in s.topo {
            if s.index[s.head[z]] < s.index[s.head[x]] {
              NodesSame(s, Lower(s, x, s.head[z]), nodes, nodesByElements, topologicalOrder, topElement, bottomElement);
              s := Lower(s, x, s.head[z]);
            }
          }
        } else {
          SkipOutside(g, s0, s, gray, x, todo, z);
        }
        todo := todo - {z};
      }
      LoopFacts(g, s0, s, gray, x, todo);
      if s.head[x] == x {
        CloseComponent(x, s0, gray);
      } else {
        LoopEndOpen(g, s0, s, gray, x);
      }
    }

    /** Visits every element, starting from bottom. */
    method VisitAll()
      requires Valid({})
      modifies this
      ensures Valid({}) && s.topo.Keys == subsumers.Keys
    {
      hide Inv, NodesOk, VisitPost, Inside;
      if bottomElement in subsumers && bottomElement !in s.index {
        Visit(bottomElement, {});
      }
      var todo := subsumers.Keys;
      while todo != {}
        invariant Valid({}) && todo <= subsumers.Keys
        invariant forall x :: x in subsumers && x !in todo ==> x in s.index
      {
        var x :| x in todo;
        ghost var before := s;
        if x !in s.index {
          Visit(x, {});
          VisitGrows(Inside(subsumers), before, s, x);
        }
        todo := todo - {x};
      }
      AllAssigned(subsumers, s);
    }

    /** `run`: components first, then the transitive reduction. */
    method Run() returns (h: Hierarchy)
      requires Valid({})
      modifies this
      ensures Represents(h, Inside(subsumers))
      ensures h.top == 0 && h.bottom == 1 && ExtremesNamed(h, topElement, bottomElement)
      ensures topElement in subsumers ==> h.nodeOf[topElement] == h.top
      ensures bottomElement in subsumers ==>
        (h.nodeOf[bottomElement] == h.bottom <==>
         !(topElement in subsumers && Reach(Inside(subsumers), topElement, bottomElement) && Reach(Inside(subsumers), bottomElement, topElement)))
      ensures forall n: nat :: 2 <= n < |h.nodes| ==> UsedNode(h, subsumers, n)
    {
      VisitAll();
      var linked := ReduceAll(subsumers, s, nodes, nodesByElements, topologicalOrder, topElement, bottomElement);
      h := Hierarchy(linked, 0, 1, nodesByElements);
      Finished(subsumers, s, nodes, topologicalOrder, topElement, bottomElement, h);
    }
  }

  /** Node `n` is the node of its representative, an element of the graph. */
  ghost predicate UsedNode(h: Hierarchy, subsumers: Graph<Element>, n: nat) {
    && n < |h.nodes| && h.nodes[n].representative in subsumers && h.nodes[n].representative in h.nodeOf
    && h.nodeOf[h.nodes[n].representative] == n
  }

  /** Nodes 0 and 1 are represented by the top and bottom elements. */
  ghost predicate ExtremesNamed(h: Hierarchy, top: Element, bottom: Element) {
    2 <= |h.nodes| && h.nodes[0].representative == top && h.nodes[1].representative == bottom
  }

  lemma VisitGrows(g: Graph<Element>, s: Search, t: Search, x: Element)
    requires VisitPost(g, s, t, x)
    ensures s.index.Keys <= t.index.Keys && x in t.index
  {
  }

  /** With an empty call stack nothing is left open. */
  lemma AllAssigned(subsumers: Graph<Element>, s: Search)
    requires Inv(Inside(subsumers), s, {}) && forall x :: x in subsumers ==> x in s.index
    ensures s.topo.Keys == subsumers.Keys
  {
    var g := Inside(subsumers);
    forall x | x in subsumers ensures x in s.topo {
      assert Open(s, x) ==> Anchored(g, s, {}, x);
    }
  }

  /** The representative of every node in the order. */
  ghost function Reps(nodes: seq<HierarchyNode>, order: seq<nat>): map<nat, Element>
    requires forall i :: 0 <= i < |order| ==> order[i] < |nodes|
  {
    map n | n in order :: nodes[n].representative
  }

  /** The emitted components are connected and ordered by their edges. */
  lemma TopoFacts(g: Graph<Element>, s: Search)
    requires Inv(g, s, {}) && s.topo.Keys == g.Keys
    ensures forall a, b {:trigger b in Succ(g, a)} :: a in g && b in Succ(g, a) ==> b in g && s.topo[b] <= s.topo[a]
    ensures forall a, b {:trigger Reach(g, a, b)} :: a in g && b in g && s.topo[a] == s.topo[b] ==> Reach(g, a, b)
  {
  }

  /** Each component has its own node, represented by a member. */
  lemma RepsPlaced(g: Graph<Element>, s: Search, nodes: seq<HierarchyNode>, nodeOf: map<Element, nat>, order: seq<nat>,
                   top: Element, bottom: Element)
    requires NodesOk(s, nodes, nodeOf, order, top, bottom) && s.topo.Keys == g.Keys
    ensures var rep := Reps(nodes, order);
      && g.Keys <= nodeOf.Keys && (forall a :: a in g ==> nodeOf[a] in rep)
      && (forall n :: n in rep ==> rep[n] in g && nodeOf[rep[n]] == n)
  {
    hide ExtremesOk;
    var rep := Reps(nodes, order);
    forall n | n in rep ensures rep[n] in g && nodeOf[rep[n]] == n {
      var i :| 0 <= i < |order| && order[i] == n;
      assert rep[n] in Members(s, i);
    }
  }

  lemma SameComponentSameNode(s: Search, nodes: seq<HierarchyNode>, nodeOf: map<Element, nat>, order: seq<nat>,
                              top: Element, bottom: Element, a: Element, b: Element)
    requires NodesOk(s, nodes, nodeOf, order, top, bottom) && a in s.topo && b in s.topo
    ensures s.topo[a] == s.topo[b] <==> nodeOf[a] == nodeOf[b]
  {
    assert nodeOf[a] == order[s.topo[a]] && nodeOf[b] == order[s.topo[b]];
  }

  lemma SearchCondenses(subsumers: Graph<Element>, s: Search, nodes: seq<HierarchyNode>, nodeOf: map<Element, nat>, order: seq<nat>,
                        top: Element, bottom: Element)
    requires Inv(Inside(subsumers), s, {}) && NodesOk(s, nodes, nodeOf, order, top, bottom)
    requires s.topo.Keys == subsumers.Keys
    ensures Condensation(Inside(subsumers), s.topo, nodeOf, Reps(nodes, order))
  {
    var g := Inside(subsumers);
    assert s.topo.Keys == g.Keys;
    CondensesInside(g, s, nodes, nodeOf, order, top, bottom);
  }

  lemma CondensesInside(g: Graph<Element>, s: Search, nodes: seq<HierarchyNode>, nodeOf: map<Element, nat>, order: seq<nat>,
                        top: Element, bottom: Element)
    requires Inv(g, s, {}) && NodesOk(s, nodes, nodeOf, order, top, bottom) && s.topo.Keys == g.Keys
    ensures (forall i :: 0 <= i < |order| ==> order[i] < |nodes|) && Condensation(g, s.topo, nodeOf, Reps(nodes, order))
  {
    hide Inv, NodesOk, Reps;
    assert forall i :: 0 <= i < |order| ==> order[i] < |nodes| by { OrderInRange(s, nodes, nodeOf, order, top, bottom); }
    TopoFacts(g, s);
    RepsPlaced(g, s, nodes, nodeOf, order, top, bottom);
    forall a, b | a in g && b in g ensures s.topo[a] == s.topo[b] <==> nodeOf[a] == nodeOf[b] {
      SameComponentSameNode(s, nodes, nodeOf, order, top, bottom, a, b);
    }
  }

  lemma OrderInRange(s: Search, nodes: seq<HierarchyNode>, nodeOf: map<Element, nat>, order: seq<nat>, top: Element, bottom: Element)
    requires NodesOk(s, nodes, nodeOf, order, top, bottom)
    ensures forall i :: 0 <= i < |order| ==> order[i] < |nodes|
  {
  }

  /** The successors of all given elements that have an entry themselves. */
  function SuccessorSet(subsumers: Graph<Element>, equivalents: set<Element>): set<Element> {
    set x, y | x in equivalents && x in subsumers && y in subsumers[x] && y in subsumers :: y
  }

  lemma SuccessorsOf(subsumers: Graph<Element>, s: Search, nodes: seq<HierarchyNode>, nodeOf: map<Element, nat>, order: seq<nat>,
                     top: Element, bottom: Element, k: nat, successors: set<Element>)
    requires NodesOk(s, nodes, nodeOf, order, top, bottom) && s.topo.Keys == subsumers.Keys && k < |order|
    requires successors == SuccessorSet(subsumers, nodes[order[k]].equivalents)
    ensures forall y :: y in successors <==> y in Inside(subsumers) && IsSuccessor(Inside(subsumers), nodeOf, order[k], y)
  {
    var g := Inside(subsumers);
    var equivalents := nodes[order[k]].equivalents;
    assert equivalents == Members(s, k);
    forall x | x in g ensures x in equivalents <==> nodeOf[x] == order[k] {
      assert nodeOf[x] == order[s.topo[x]];
    }
    forall y | y in g && IsSuccessor(g, nodeOf, order[k], y) ensures y in successors {
      var x :| x in g && x in nodeOf && nodeOf[x] == order[k] && y in Succ(g, x);
      assert x in equivalents;
    }
    forall y | y in successors ensures IsSuccessor(g, nodeOf, order[k], y) {
      var x :| x in equivalents && x in subsumers && y in subsumers[x] && y in subsumers;
      assert y in Succ(g, x);
    }
  }

  lemma ClosuresAfter(g: Graph<Element>, topo: map<Element, int>, nodeOf: map<Element, nat>, rep: map<nat, Element>, k: int,
                      reachableFrom: map<nat, set<nat>>, n: nat, R: set<nat>)
    requires Condensation(g, topo, nodeOf, rep) && ClosuresOk(g, topo, rep, k, reachableFrom)
    requires n in rep && topo[rep[n]] == k && forall m :: m in R <==> Below(g, rep, n, m)
    ensures ClosuresOk(g, topo, rep, k + 1, reachableFrom[n := R])
  {
    forall n' | n' in rep && topo[rep[n']] < k + 1 ensures n' in reachableFrom[n := R] {
      assert nodeOf[rep[n']] == n' && nodeOf[rep[n]] == n;
    }
  }

  /** The reduction loop of `run`, over the components in topological order. */
  method ReduceAll(subsumers: Graph<Element>, s: Search, nodes0: seq<HierarchyNode>, nodeOf: map<Element, nat>, order: seq<nat>,
                   ghost top: Element, ghost bottom: Element)
    returns (nodes: seq<HierarchyNode>)
    requires Inv(Inside(subsumers), s, {}) && NodesOk(s, nodes0, nodeOf, order, top, bottom)
    requires s.topo.Keys == subsumers.Keys
    ensures SameLabels(nodes0, nodes) && Linked(nodes)
    ensures AllReduced(Inside(subsumers), Reps(nodes0, order), nodes)
  {
    hide *;
    OrderInRange(s, nodes0, nodeOf, order, top, bottom);
    ghost var g := Inside(subsumers);
    ghost var rep := Reps(nodes0, order);
    SearchCondenses(subsumers, s, nodes0, nodeOf, order, top, bottom);
    ReductionStart(s, nodes0, nodeOf, order, top, bottom, g);
    nodes := nodes0;
    var reachableFrom: map<nat, set<nat>> := map[];
    for k := 0 to |order|
      invariant SameLabels(nodes0, nodes) && Linked(nodes)
      invariant ParentsOk(g, s.topo, rep, k, nodes)
      invariant ClosuresOk(g, s.topo, rep, k, reachableFrom)
    {
      var n := order[k];
      OrderFacts(s, nodes0, nodeOf, order, top, bottom, k, nodes);
      var successors := SuccessorSet(subsumers, nodes[n].equivalents);
      SuccessorsOf(subsumers, s, nodes0, nodeOf, order, top, bottom, k, successors);
      var par, R := ReduceNode(g, s.topo, nodeOf, rep, n, successors, reachableFrom);
      RoundDone(g, s.topo, nodeOf, rep, k, nodes0, nodes, n, par);
      ClosuresAfter(g, s.topo, nodeOf, rep, k, reachableFrom, n, R);
      nodes := LinkParents(nodes, n, par);
      reachableFrom := reachableFrom[n := R];
    }
    AllRoundsDone(g, s, nodes0, nodeOf, order, top, bottom, nodes);
  }

  lemma ReductionStart(s: Search, nodes: seq<HierarchyNode>, nodeOf: map<Element, nat>, order: seq<nat>, top: Element, bottom: Element,
                       g: Graph<Element>)
    requires NodesOk(s, nodes, nodeOf, order, top, bottom)
    ensures Linked(nodes) && SameLabels(nodes, nodes)
    ensures ParentsOk(g, s.topo, Reps(nodes, order), 0, nodes)
    ensures ClosuresOk(g, s.topo, Reps(nodes, order), 0, map[])
  {
  }

  lemma OrderFacts(s: Search, nodes: seq<HierarchyNode>, nodeOf: map<Element, nat>, order: seq<nat>, top: Element, bottom: Element, k: nat,
                   nodes': seq<HierarchyNode>)
    requires NodesOk(s, nodes, nodeOf, order, top, bottom) && k < |order| && SameLabels(nodes, nodes')
    ensures var n := order[k]; var rep := Reps(nodes, order);
            n < |nodes| == |nodes'| && nodes'[n].equivalents == nodes[n].equivalents && n in rep && rep[n] == nodes[n].representative && rep[n] in s.topo && s.topo[rep[n]] == k
  {
    assert nodes[order[k]].representative in Members(s, k);
  }

  lemma RoundDone(g: Graph<Element>, topo: map<Element, int>, nodeOf: map<Element, nat>, rep: map<nat, Element>,
                  k: int, nodes0: seq<HierarchyNode>, nodes: seq<HierarchyNode>, n: nat, par: set<nat>)
    requires Condensation(g, topo, nodeOf, rep) && ParentsOk(g, topo, rep, k, nodes) && Linked(nodes) && SameLabels(nodes0, nodes)
    requires n in rep && n < |nodes| && rep[n] in topo && topo[rep[n]] == k
    requires forall m :: m in par <==> CoverOf(g, rep, n, m)
    requires forall m :: Below(g, rep, n, m) ==> Via(g, rep, n, par, m)
    ensures ParentsOk(g, topo, rep, k + 1, LinkParents(nodes, n, par)) && Linked(LinkParents(nodes, n, par))
    ensures SameLabels(nodes0, LinkParents(nodes, n, par))
  {
    ParentsAfter(g, topo, nodeOf, rep, k, nodes, n, par);
    LinkedAfter(nodes, n, par);
  }

  lemma AllRoundsDone(g: Graph<Element>, s: Search, nodes0: seq<HierarchyNode>, nodeOf: map<Element, nat>, order: seq<nat>,
                      top: Element, bottom: Element, nodes: seq<HierarchyNode>)
    requires NodesOk(s, nodes0, nodeOf, order, top, bottom)
    requires ParentsOk(g, s.topo, Reps(nodes0, order), |order|, nodes)
    ensures AllReduced(g, Reps(nodes0, order), nodes)
  {
    var rep := Reps(nodes0, order);
    forall n: nat | n in rep ensures NodeReduced(g, rep, nodes, n) {
      var i :| 0 <= i < |order| && order[i] == n;
      assert nodes0[n].representative in Members(s, i);
      assert Earlier(s.topo, rep, |order|, n);
    }
  }

  lemma FinishedGroups(subsumers: Graph<Element>, s: Search, nodes0: seq<HierarchyNode>, order: seq<nat>,
                       top: Element, bottom: Element, h: Hierarchy)
    requires NodesOk(s, nodes0, h.nodeOf, order, top, bottom) && s.topo.Keys == subsumers.Keys
    requires SameLabels(nodes0, h.nodes)
    ensures Placed(h, Inside(subsumers)) && Grouped(h, Inside(subsumers))
  {
    var g := Inside(subsumers);
    forall a | a in g
      ensures h.nodes[h.nodeOf[a]].equivalents == Members(s, s.topo[a])
      ensures h.nodes[h.nodeOf[a]].representative in h.nodes[h.nodeOf[a]].equivalents
    {
      assert h.nodeOf[a] == order[s.topo[a]];
    }
    forall a, b {:trigger b in h.nodes[h.nodeOf[a]].equivalents} | a in g
      ensures b in h.nodes[h.nodeOf[a]].equivalents <==> b in g && h.nodeOf[b] == h.nodeOf[a]
    {
      assert h.nodes[h.nodeOf[a]].equivalents == Members(s, s.topo[a]);
    }
  }

  lemma FinishedUsed(subsumers: Graph<Element>, s: Search, nodes0: seq<HierarchyNode>, order: seq<nat>,
                     top: Element, bottom: Element, h: Hierarchy, n: nat)
    requires NodesOk(s, nodes0, h.nodeOf, order, top, bottom) && s.topo.Keys == subsumers.Keys
    requires SameLabels(nodes0, h.nodes) && n in order
    ensures UsedNode(h, subsumers, n)
  {
    var i :| 0 <= i < |order| && order[i] == n;
    assert nodes0[n].representative in Members(s, i);
  }

  /** What `run` returns once the links are in place. */
  lemma Finished(subsumers: Graph<Element>, s: Search, nodes0: seq<HierarchyNode>, order: seq<nat>,
                 top: Element, bottom: Element, h: Hierarchy)
    requires Inv(Inside(subsumers), s, {}) && NodesOk(s, nodes0, h.nodeOf, order, top, bottom)
    requires s.topo.Keys == subsumers.Keys
    requires SameLabels(nodes0, h.nodes) && Linked(h.nodes) && AllReduced(Inside(subsumers), Reps(nodes0, order), h.nodes)
    ensures Represents(h, Inside(subsumers)) && ExtremesNamed(h, top, bottom)
    ensures top in subsumers ==> h.nodeOf[top] == 0
    ensures bottom in subsumers ==>
      (h.nodeOf[bottom] == 1 <==>
       !(top in subsumers && Reach(Inside(subsumers), top, bottom) && Reach(Inside(subsumers), bottom, top)))
    ensures forall n: nat :: 2 <= n < |h.nodes| ==> UsedNode(h, subsumers, n)
  {
    var g := Inside(subsumers);
    SearchCondenses(subsumers, s, nodes0, h.nodeOf, order, top, bottom);
    FinishedOrder(h, g, s.topo, Reps(nodes0, order));
    FinishedGroups(subsumers, s, nodes0, order, top, bottom, h);
    forall n: nat | 2 <= n < |h.nodes| ensures UsedNode(h, subsumers, n) {
      FinishedUsed(subsumers, s, nodes0, order, top, bottom, h, n);
    }
    FinishedBottom(subsumers, s, nodes0, order, top, bottom, h);
  }

  lemma FinishedBottom(subsumers: Graph<Element>, s: Search, nodes0: seq<HierarchyNode>, order: seq<nat>,
                       top: Element, bottom: Element, h: Hierarchy)
    requires NodesOk(s, nodes0, h.nodeOf, order, top, bottom)
    requires s.topo.Keys == subsumers.Keys
    requires Placed(h, Inside(subsumers)) && Ordered(h, Inside(subsumers))
    ensures top in subsumers ==> h.nodeOf[top] == 0
    ensures bottom in subsumers ==>
      (h.nodeOf[bottom] == 1 <==>
       !(top in subsumers && Reach(Inside(subsumers), top, bottom) && Reach(Inside(subsumers), bottom, top)))
  {
    var g := Inside(subsumers);
    if bottom in subsumers && top in subsumers {
      assert h.nodeOf[top] == h.nodeOf[bottom] <==> Reach(g, top, bottom) && Reach(g, bottom, top);
    }
  }
}
