/** `Hierarchy::find_position`: where an element sits in an existing hierarchy. */
module Placement {
  import opened Elements
  import opened Sequences
  import opened Digraph
  import opened Reachability
  import opened Hierarchies
  import opened BottomUp
  import opened HierarchySearch

  datatype Position = Existing(node: nat) | Between(parents: set<nat>, children: set<nat>)

  /** The subsumption oracle: `f(parent, child)`. */
  type Subsumes = (Element, Element) -> bool

  predicate Over(h: Hierarchy, f: Subsumes, e: Element, n: nat) {
    n < |h.nodes| && f(h.nodes[n].representative, e)
  }

  predicate Under(h: Hierarchy, f: Subsumes, e: Element, n: nat) {
    n < |h.nodes| && f(e, h.nodes[n].representative)
  }

  /** A hierarchy with least and greatest nodes, and an oracle that extends its
      order to `e`. */
  ghost predicate PlacementOk(h: Hierarchy, f: Subsumes, e: Element) {
    && Linked(h.nodes) && Acyclic(h) && h.top < |h.nodes| && h.bottom < |h.nodes|
    && (forall n: nat {:trigger Reach(Up(h), n, h.top)} :: n < |h.nodes| ==> Reach(Up(h), n, h.top))
    && (forall n: nat {:trigger Reach(Up(h), h.bottom, n)} :: n < |h.nodes| ==> Reach(Up(h), h.bottom, n))
    && Over(h, f, e, h.top) && Under(h, f, e, h.bottom)
    && (forall n: nat, q: nat {:trigger q in h.nodes[n].parents} :: n < |h.nodes| && q in h.nodes[n].parents && Over(h, f, e, n) ==> Over(h, f, e, q))
    && (forall n: nat, q: nat {:trigger q in h.nodes[n].children} :: n < |h.nodes| && q in h.nodes[n].children && Under(h, f, e, n) ==> Under(h, f, e, q))
    && (forall n: nat, m: nat {:trigger Reach(Up(h), n, m)} :: Under(h, f, e, n) && Over(h, f, e, m) ==> Reach(Up(h), n, m))
  }

  /** A minimal node above `e`, a maximal node below it. */
  ghost predicate MinimalOver(h: Hierarchy, f: Subsumes, e: Element, n: nat) {
    Over(h, f, e, n) && forall m: nat {:trigger Reach(Up(h), m, n)} :: Over(h, f, e, m) && Reach(Up(h), m, n) ==> m == n
  }

  ghost predicate MaximalUnder(h: Hierarchy, f: Subsumes, e: Element, n: nat) {
    Under(h, f, e, n) && forall m: nat {:trigger Reach(Up(h), n, m)} :: Under(h, f, e, m) && Reach(Up(h), n, m) ==> m == n
  }

  ghost function Overs(h: Hierarchy, f: Subsumes, e: Element): set<nat> {
    set n | n in Up(h) && Over(h, f, e, n)
  }

  ghost function Unders(h: Hierarchy, f: Subsumes, e: Element): set<nat> {
    set n | n in Up(h) && Under(h, f, e, n)
  }

  lemma LooplessBoth(h: Hierarchy)
    requires Linked(h.nodes) && Acyclic(h)
    ensures Loopless(Up(h)) && Loopless(Down(h)) && Inverse(Up(h), Down(h)) && Inverse(Down(h), Up(h))
    ensures Closed(Up(h), Up(h).Keys) && Closed(Down(h), Up(h).Keys)
  {
    UpDownInverse(h);
    forall n: nat, m: nat | m in Succ(Up(h), n) ensures !Reach(Up(h), m, n) {
      ReachEdge(Up(h), n, m);
    }
    forall n: nat, m: nat | m in Succ(Down(h), n) ensures !Reach(Down(h), m, n) {
      ReachInverse(Up(h), Down(h), n, m);
      assert n in Succ(Up(h), m);
      ReachEdge(Up(h), m, n);
    }
  }

  /** If `H` is closed under `back`, paths back from a member run forward inside `H`. */
  lemma WithinReach(g: Graph<nat>, back: Graph<nat>, H: set<nat>, u: nat, w: nat)
    requires Inverse(g, back) && Closed(back, H) && H <= g.Keys && u in H && Reach(back, u, w)
    ensures w in H && Reach(Within(g, H), w, u)
  {
    var inner := Within(g, H);
    var S := set v | v in H && Reach(inner, v, u);
    ReachRefl(inner, u);
    forall v: nat, q: nat | v in S && q in Succ(back, v) ensures q in S {
      assert v in Succ(g, q);
      assert v in Succ(inner, q);
      ReachStep(inner, q, v, u);
    }
    ReachClosed(back, S, u, w);
  }

  lemma OversHold(h: Hierarchy, f: Subsumes, e: Element, trueOf: nat -> bool)
    requires PlacementOk(h, f, e) && forall n: nat :: trueOf(n) == Over(h, f, e, n)
    ensures Closed(Up(h), Overs(h, f, e))
    ensures Exact(Up(h), None, trueOf, Up(h).Keys, Overs(h, f, e))
    ensures Connected(Down(h), Overs(h, f, e), Overs(h, f, e), {h.top})
  {
    var H := Overs(h, f, e);
    LooplessBoth(h);
    assert Closed(Up(h), H);
    forall u: nat ensures u in H <==> u in Up(h) && Holds(Up(h), None, trueOf, u) {
      if u in H {
        forall v: nat | Reach(Up(h), u, v) ensures Base(None, trueOf, v) {
          ReachClosed(Up(h), H, u, v);
        }
      } else {
        ReachRefl(Up(h), u);
      }
    }
    forall u: nat | u in H ensures FromStart(Down(h), H, {h.top}, u) {
      assert Reach(Up(h), u, h.top);
      WithinReach(Down(h), Up(h), H, u, h.top);
    }
  }

  lemma OverBetween(h: Hierarchy, f: Subsumes, e: Element, m: nat, n: nat)
    requires PlacementOk(h, f, e) && Over(h, f, e, m) && Over(h, f, e, n) && Reach(Up(h), m, n)
    ensures m == n || Succ(Down(h), n) * Overs(h, f, e) != {}
  {
    if m != n {
      var c := LastStep(h, m, n);
      OversClosed(h, f, e);
      ReachClosed(Up(h), Overs(h, f, e), m, c);
      assert c in Succ(Down(h), n) * Overs(h, f, e);
    }
  }

  lemma MinimalIff(h: Hierarchy, f: Subsumes, e: Element, n: nat)
    requires PlacementOk(h, f, e)
    ensures MinimalOver(h, f, e, n) <==> n in Overs(h, f, e) && Succ(Down(h), n) * Overs(h, f, e) == {}
  {
    var H := Overs(h, f, e);
    if n in H {
      if Succ(Down(h), n) * H == {} {
        forall m: nat | Over(h, f, e, m) && Reach(Up(h), m, n) ensures m == n {
          OverBetween(h, f, e, m, n);
        }
      } else {
        var c :| c in Succ(Down(h), n) * H;
        ChildReaches(h, n, c);
        assert c != n;
      }
    }
  }

  lemma OversClosed(h: Hierarchy, f: Subsumes, e: Element)
    requires PlacementOk(h, f, e)
    ensures Closed(Up(h), Overs(h, f, e)) && Closed(Down(h), Unders(h, f, e))
  {
  }

  /** The tests of the downward search: one for each node below top whose parents
      all subsume `e`, and none for any other node below top. */
  ghost predicate TestedDown(h: Hierarchy, f: Subsumes, e: Element, log: seq<nat>) {
    && Distinct(log)
    && forall n: nat {:trigger n in log} :: n < |h.nodes| && n != h.top ==>
         (n in log <==> forall q: nat :: q in h.nodes[n].parents ==> Over(h, f, e, q))
  }

  lemma DownTests(h: Hierarchy, f: Subsumes, e: Element, trueOf: nat -> bool, log: seq<nat>)
    requires PlacementOk(h, f, e) && Exact(Up(h), None, trueOf, Up(h).Keys, Overs(h, f, e))
    requires EvaluatedOnce(Up(h), None, trueOf, Down(h), Overs(h, f, e), log)
    ensures TestedDown(h, f, e, log)
  {
    hide Holds;
    LooplessBoth(h);
    forall n: nat | n < |h.nodes| && n != h.top
      ensures n in log <==> forall q: nat :: q in h.nodes[n].parents ==> Over(h, f, e, q)
    {
      assert Evaluable(Up(h), None, trueOf, n) <==> forall q: nat :: q in Succ(Up(h), n) ==> q in Overs(h, f, e);
      assert Reach(Up(h), n, h.top);
      var c := ReachFirst(Up(h), n, h.top);
      assert n in Succ(Down(h), c);
    }
  }

  /** `find_parents`: exactly the minimal nodes above `e`. */
  method FindParents(h: Hierarchy, f: Subsumes, e: Element) returns (parents: set<nat>, ghost log: seq<nat>)
    requires PlacementOk(h, f, e)
    ensures forall n: nat :: n in parents <==> MinimalOver(h, f, e, n)
    ensures TestedDown(h, f, e, log)
  {
    hide MinimalOver, Exact, Connected, EvaluatedOnce, TestedDown;
    LooplessBoth(h);
    var trueOf := (u: nat) => Over(h, f, e, u);
    OversHold(h, f, e, trueOf);
    assert Elems([h.top]) == {h.top};
    parents, log := Search([h.top], None, Down(h), Up(h), trueOf, Up(h).Keys, Overs(h, f, e), Overs(h, f, e));
    DownTests(h, f, e, trueOf, log);
    forall n: nat ensures n in parents <==> MinimalOver(h, f, e, n) {
      MinimalIff(h, f, e, n);
    }
  }

  lemma {:induction false} MinimalExists(h: Hierarchy, f: Subsumes, e: Element, n: nat) returns (m: nat)
    requires PlacementOk(h, f, e) && Over(h, f, e, n)
    ensures MinimalOver(h, f, e, m)
    decreases Below(h, n)
  {
    MinimalIff(h, f, e, n);
    if Succ(Down(h), n) * Overs(h, f, e) == {} {
      m := n;
    } else {
      var c: nat :| c in Succ(Down(h), n) * Overs(h, f, e);
      ChildBelowLess(h, n, c);
      m := MinimalExists(h, f, e, c);
    }
  }

  // --- the common lower cone of the parents -------------------------------------

  ghost predicate FromAny(g: Graph<nat>, S: set<nat>, n: nat) {
    exists s: nat :: s in S && Reach(g, s, n)
  }

  /** Open vertices are seen; all others have their successors either in `hits`
      or seen. */
  ghost predicate ConeInv(g: Graph<nat>, marked: set<nat>, parent: nat, hits: set<nat>, visited: set<nat>, open: set<nat>) {
    && hits <= marked && visited !! marked && open <= visited + {parent} && visited <= Vertices(g)
    && (forall n: nat :: n in hits || n in visited ==> Reach(g, parent, n))
    && (forall v: nat, w: nat {:trigger w in Succ(g, v)} :: (v in visited || v == parent) && v !in open && w in Succ(g, v) ==> w in hits || w in visited)
  }

  lemma ConeStep(g: Graph<nat>, marked: set<nat>, parent: nat, hits: set<nat>, visited: set<nat>, rest: set<nat>, current: nat, open: set<nat>)
    requires ConeInv(g, marked, parent, hits, visited, rest + {current})
    requires open == rest + (Succ(g, current) - marked - visited)
    ensures ConeInv(g, marked, parent, hits + Succ(g, current) * marked, visited + (Succ(g, current) - marked), open)
  {
    ReachRefl(g, parent);
    forall n: nat | n in Succ(g, current) ensures Reach(g, parent, n) && n in Vertices(g) {
      ReachSnoc(g, parent, current, n);
    }
  }

  lemma ConeVisited(g: Graph<nat>, marked: set<nat>, parent: nat, hits: set<nat>, visited: set<nat>, open: set<nat>)
    requires ConeInv(g, marked, parent, hits, visited, open)
    ensures visited <= Vertices(g)
  {
  }

  /** One vertex of the first traversal: children inside the cone are hits, the
      others are visited once. */
  method ScanChildren(children: set<nat>, marked: set<nat>, hits: set<nat>, visited: set<nat>, queue: seq<nat>)
    returns (hits': set<nat>, visited': set<nat>, queue': seq<nat>)
    ensures hits' == hits + children * marked
    ensures visited' == visited + (children - marked)
    ensures Elems(queue') == Elems(queue) + (children - marked - visited)
    ensures visited' == visited ==> queue' == queue
  {
    hits', visited', queue' := hits, visited, queue;
    var todo := children;
    while todo != {}
      invariant todo <= children
      invariant hits' == hits + (children - todo) * marked
      invariant visited' == visited + (children - todo - marked)
      invariant Elems(queue') == Elems(queue) + (children - todo - marked - visited)
      invariant visited' == visited ==> queue' == queue
    {
      var child: nat :| child in todo;
      if child in marked {
        hits' := hits' + {child};
      } else if child !in visited' {
        visited' := visited' + {child};
        ElemsSnoc(queue', child);
        queue' := queue' + [child];
      }
      todo := todo - {child};
    }
  }

  /** The first traversal: the edges on which paths from `parent` enter the cone. */
  method EnterCone(g: Graph<nat>, marked: set<nat>, parent: nat) returns (hits: set<nat>, ghost visited: set<nat>)
    ensures ConeInv(g, marked, parent, hits, visited, {})
  {
    hide ConeInv, Vertices;
    var seen: set<nat> := {};
    hits := {};
    var queue := [parent];
    ConeStart(g, marked, parent);
    while |queue| > 0
      invariant ConeInv(g, marked, parent, hits, seen, Elems(queue))
      decreases Vertices(g) - seen, |queue|
    {
      var current := queue[0];
      ElemsFirst(queue);
      ghost var rest, oldHits, oldSeen := queue[1..], hits, seen;
      hits, seen, queue := ScanChildren(Succ(g, current), marked, hits, seen, queue[1..]);
      ConeStep(g, marked, parent, oldHits, oldSeen, Elems(rest), current, Elems(queue));
      ConeVisited(g, marked, parent, hits, seen, Elems(queue));
    }
    ElemsNone(queue);
    visited := seen;
  }

  lemma ConeStart(g: Graph<nat>, marked: set<nat>, parent: nat)
    ensures ConeInv(g, marked, parent, {}, {}, Elems([parent]))
  {
    assert parent in [parent];
  }

  /** The second traversal: everything below the hits. */
  method CloseDown(g: Graph<nat>, hits: set<nat>) returns (r: set<nat>)
    ensures hits <= r && Closed(g, r)
    ensures forall n: nat :: n in r ==> FromAny(g, hits, n)
  {
    hide FromAny, Vertices;
    r := hits;
    var queue: seq<nat> := InSomeOrder<nat>(hits);
    ElemsListing(hits, queue);
    forall n: nat | n in hits ensures FromAny(g, hits, n) {
      FromSelf(g, hits, n);
    }
    while |queue| > 0
      invariant hits <= r <= hits + Vertices(g) && Elems(queue) <= r
      invariant forall n: nat :: n in r ==> FromAny(g, hits, n)
      invariant forall v: nat {:trigger Succ(g, v)} :: v in r && v !in Elems(queue) ==> Succ(g, v) <= r
      decreases hits + Vertices(g) - r, |queue|
    {
      var current := queue[0];
      ElemsFirst(queue);
      FromNext(g, hits, current);
      var unused;
      assert Succ(g, current) <= Vertices(g) by { SuccWithin(g, current); }
      unused, r, queue := ScanChildren(Succ(g, current), {}, {}, r, queue[1..]);
    }
    ElemsNone(queue);
  }

  lemma FromSelf(g: Graph<nat>, S: set<nat>, n: nat)
    requires n in S
    ensures FromAny(g, S, n)
  {
    ReachRefl(g, n);
  }

  lemma FromNext(g: Graph<nat>, S: set<nat>, v: nat)
    requires FromAny(g, S, v)
    ensures forall w: nat :: w in Succ(g, v) ==> FromAny(g, S, w)
  {
    var s: nat :| s in S && Reach(g, s, v);
    forall w: nat | w in Succ(g, v) ensures FromAny(g, S, w) {
      ReachSnoc(g, s, v, w);
    }
  }

  /** Intersects a cone with the vertices below one more parent. */
  method MeetCone(g: Graph<nat>, marked: set<nat>, parent: nat) returns (r: set<nat>)
    requires Closed(g, marked) && parent !in marked
    ensures forall n: nat :: n in r <==> n in marked && Reach(g, parent, n)
  {
    hide ConeInv, Closed, FromAny;
    var hits, visited := EnterCone(g, marked, parent);
    r := CloseDown(g, hits);
    forall n: nat ensures n in r <==> n in marked && Reach(g, parent, n) {
      ConeExact(g, marked, parent, hits, visited, r, n);
    }
  }

  lemma ConeExact(g: Graph<nat>, marked: set<nat>, parent: nat, hits: set<nat>, visited: set<nat>, r: set<nat>, n: nat)
    requires Closed(g, marked) && parent !in marked && ConeInv(g, marked, parent, hits, visited, {})
    requires hits <= r && Closed(g, r) && forall m: nat :: m in r ==> FromAny(g, hits, m)
    ensures n in r <==> n in marked && Reach(g, parent, n)
  {
    hide Closed, ConeInv, FromAny;
    if n in r {
      ConeSound(g, marked, parent, hits, visited, n);
    }
    if n in marked && Reach(g, parent, n) {
      ConeEntered(g, marked, parent, hits, visited, r, n);
    }
  }

  /** What lies below a hit lies in the cone and below the parent. */
  lemma ConeSound(g: Graph<nat>, marked: set<nat>, parent: nat, hits: set<nat>, visited: set<nat>, n: nat)
    requires Closed(g, marked) && ConeInv(g, marked, parent, hits, visited, {}) && FromAny(g, hits, n)
    ensures n in marked && Reach(g, parent, n)
  {
    hide Closed;
    var s: nat :| s in hits && Reach(g, s, n);
    ReachTrans(g, parent, s, n);
    ReachClosed(g, marked, s, n);
  }

  /** A path from the parent into the cone passes a hit. */
  lemma ConeEntered(g: Graph<nat>, marked: set<nat>, parent: nat, hits: set<nat>, visited: set<nat>, r: set<nat>, n: nat)
    requires parent !in marked && ConeInv(g, marked, parent, hits, visited, {}) && hits <= r && Closed(g, r)
    requires n in marked && Reach(g, parent, n)
    ensures n in r
  {
    hide Closed;
    var x, y := ReachExit(g, visited + {parent}, parent, n);
    ReachClosed(g, r, y, n);
  }

  ghost predicate BelowAll(h: Hierarchy, ps: set<nat>, n: nat) {
    forall p: nat {:trigger Reach(Up(h), n, p)} :: p in ps ==> Reach(Up(h), n, p)
  }

  ghost predicate Antichain(h: Hierarchy, ps: set<nat>) {
    forall p: nat, q: nat {:trigger Reach(Up(h), p, q)} :: p in ps && q in ps && Reach(Up(h), p, q) ==> p == q
  }

  lemma BelowAllClosed(h: Hierarchy, ps: set<nat>, marked: set<nat>)
    requires Linked(h.nodes) && forall n: nat :: n in marked <==> BelowAll(h, ps, n)
    ensures Closed(Down(h), marked)
  {
    UpDownInverse(h);
    forall n: nat, c: nat | n in marked && c in Succ(Down(h), n) ensures c in marked {
      assert n in Succ(Up(h), c);
      forall p: nat | p in ps ensures Reach(Up(h), c, p) {
        ReachStep(Up(h), c, n, p);
      }
    }
  }

  lemma BelowOneMore(h: Hierarchy, ps: set<nat>, p: nat, n: nat)
    requires Linked(h.nodes)
    ensures BelowAll(h, ps + {p}, n) <==> BelowAll(h, ps, n) && Reach(Down(h), p, n)
  {
    UpDownInverse(h);
    ReachInverse(Up(h), Down(h), n, p);
  }

  /** `marked` in `find_children`: exactly the nodes below every parent. */
  method CommonLowerCone(h: Hierarchy, parents: set<nat>) returns (marked: set<nat>)
    requires Linked(h.nodes) && parents != {} && Antichain(h, parents)
    ensures forall n: nat :: n in marked <==> BelowAll(h, parents, n)
  {
    hide BelowAll;
    var first: nat :| first in parents;
    marked := ReachableFrom(Down(h), first);
    forall n: nat ensures n in marked <==> BelowAll(h, {first}, n) {
      BelowOneMore(h, {}, first, n);
      assert BelowAll(h, {}, n) by { BelowNone(h, n); }
      assert {} + {first} == {first};
    }
    var todo := parents - {first};
    assert parents - todo == {first};
    while todo != {}
      invariant todo <= parents && first in parents - todo
      invariant forall n: nat :: n in marked <==> BelowAll(h, parents - todo, n)
    {
      var p: nat :| p in todo;
      assert parents - todo != {} by { assert first in parents - todo; }
      BelowAllClosed(h, parents - todo, marked);
      NotBelow(h, parents, parents - todo, p);
      ghost var before := marked;
      marked := MeetCone(Down(h), marked, p);
      assert parents - (todo - {p}) == parents - todo + {p};
      forall n: nat ensures n in marked <==> BelowAll(h, parents - todo + {p}, n) {
        BelowOneMore(h, parents - todo, p, n);
      }
      todo := todo - {p};
    }
    assert parents - todo == parents;
  }

  lemma BelowNone(h: Hierarchy, n: nat)
    ensures BelowAll(h, {}, n)
  {
  }

  lemma NotBelow(h: Hierarchy, parents: set<nat>, ps: set<nat>, p: nat)
    requires Antichain(h, parents) && p in parents && ps <= parents && ps != {} && p !in ps
    ensures !BelowAll(h, ps, p)
  {
    var q: nat :| q in ps;
    assert !Reach(Up(h), p, q);
  }

  // --- the maximal nodes below the element ----------------------------------------

  lemma UndersHold(h: Hierarchy, f: Subsumes, e: Element, trueOf: nat -> bool, parents: set<nat>, marked: set<nat>, start: set<nat>)
    requires PlacementOk(h, f, e) && forall n: nat :: trueOf(n) == Under(h, f, e, n)
    requires forall p: nat :: p in parents ==> Over(h, f, e, p)
    requires forall n: nat :: n in marked <==> BelowAll(h, parents, n)
    requires forall n: nat :: n in start <==> n in marked && n < |h.nodes| && h.bottom in h.nodes[n].children && Under(h, f, e, n)
    ensures Exact(Down(h), Some(marked), trueOf, Up(h).Keys, Unders(h, f, e))
    ensures Connected(Up(h), Unders(h, f, e), Unders(h, f, e) - {h.bottom}, start)
  {
    var H := Unders(h, f, e);
    LooplessBoth(h);
    OversClosed(h, f, e);
    forall u: nat ensures u in H <==> u in Up(h) && Holds(Down(h), Some(marked), trueOf, u) {
      if u in H {
        forall v: nat | Reach(Down(h), u, v) ensures Base(Some(marked), trueOf, v) {
          ReachClosed(Down(h), H, u, v);
        }
      } else {
        ReachRefl(Down(h), u);
      }
    }
    forall u: nat | u in H - {h.bottom} ensures FromStart(Up(h), H, start, u) {
      UnderFromStart(h, f, e, parents, marked, start, u);
    }
    forall u: nat | u in H - {h.bottom} ensures Succ(Up(h), u) * H <= H - {h.bottom} && u !in Succ(Down(h), h.bottom) {
      BottomIsLeast(h, f, e, u);
    }
    forall u: nat | u in start ensures u in H - {h.bottom} {
      ReachRefl(Up(h), h.bottom);
    }
  }

  /** No node has the bottom node as a parent. */
  lemma BottomIsLeast(h: Hierarchy, f: Subsumes, e: Element, u: nat)
    requires PlacementOk(h, f, e) && u < |h.nodes|
    ensures h.bottom !in Succ(Up(h), u) && u !in Succ(Down(h), h.bottom)
  {
    LooplessBoth(h);
    assert Reach(Up(h), h.bottom, u);
  }

  lemma UnderFromStart(h: Hierarchy, f: Subsumes, e: Element, parents: set<nat>, marked: set<nat>, start: set<nat>, u: nat)
    requires PlacementOk(h, f, e) && Under(h, f, e, u) && u != h.bottom
    requires forall p: nat :: p in parents ==> Over(h, f, e, p)
    requires forall n: nat :: n in marked <==> BelowAll(h, parents, n)
    requires forall n: nat :: n in start <==> n in marked && n < |h.nodes| && h.bottom in h.nodes[n].children && Under(h, f, e, n)
    ensures start != {} && FromStart(Up(h), Unders(h, f, e), start, u)
  {
    var H := Unders(h, f, e);
    LooplessBoth(h);
    OversClosed(h, f, e);
    assert Reach(Up(h), h.bottom, u);
    var c := ReachFirst(Up(h), h.bottom, u);
    ReachInverse(Up(h), Down(h), c, u);
    WithinReach(Up(h), Down(h), H, u, c);
    assert BelowAll(h, parents, c);
    assert c in start;
  }

  lemma UnderBetween(h: Hierarchy, f: Subsumes, e: Element, n: nat, m: nat)
    requires PlacementOk(h, f, e) && Under(h, f, e, n) && Under(h, f, e, m) && Reach(Up(h), n, m)
    ensures m == n || Succ(Up(h), n) * Unders(h, f, e) != {}
  {
    if m != n {
      LooplessBoth(h);
      OversClosed(h, f, e);
      var c := ReachFirst(Up(h), n, m);
      ReachInverse(Up(h), Down(h), c, m);
      ReachClosed(Down(h), Unders(h, f, e), m, c);
      assert c in Succ(Up(h), n) * Unders(h, f, e);
    }
  }

  lemma MaximalIff(h: Hierarchy, f: Subsumes, e: Element, n: nat)
    requires PlacementOk(h, f, e)
    ensures MaximalUnder(h, f, e, n) <==> n in Unders(h, f, e) && Succ(Up(h), n) * Unders(h, f, e) == {}
  {
    if n in Unders(h, f, e) {
      if Succ(Up(h), n) * Unders(h, f, e) == {} {
        forall m: nat | Under(h, f, e, m) && Reach(Up(h), n, m) ensures m == n {
          UnderBetween(h, f, e, n, m);
        }
      } else {
        var c :| c in Succ(Up(h), n) * Unders(h, f, e);
        LooplessBoth(h);
        ReachEdge(Up(h), n, c);
        ReachRefl(Up(h), n);
        assert c != n;
      }
    }
  }

  /** The children of the bottom-most step: subsumed nodes of the cone directly
      above bottom. */
  method AboveBottom(h: Hierarchy, f: Subsumes, e: Element, marked: set<nat>) returns (r: set<nat>)
    requires h.bottom < |h.nodes| && forall n: nat :: n in marked ==> n < |h.nodes|
    ensures forall n: nat :: n in r <==> n in marked && n < |h.nodes| && h.bottom in h.nodes[n].children && Under(h, f, e, n)
  {
    r := {};
    var todo := marked;
    while todo != {}
      invariant todo <= marked
      invariant forall n: nat :: n in r <==> n in marked - todo && n < |h.nodes| && h.bottom in h.nodes[n].children && Under(h, f, e, n)
    {
      var n: nat :| n in todo;
      if h.bottom in h.nodes[n].children && f(e, h.nodes[n].representative) {
        r := r + {n};
      }
      todo := todo - {n};
    }
  }

  ghost predicate Equivalent(h: Hierarchy, f: Subsumes, e: Element, n: nat) {
    Over(h, f, e, n) && Under(h, f, e, n)
  }

  /** A node equivalent to `e` is its only minimal ancestor and its only maximal
      descendant. */
  lemma EquivalentOnly(h: Hierarchy, f: Subsumes, e: Element, n: nat, m: nat)
    requires PlacementOk(h, f, e) && Equivalent(h, f, e, n)
    ensures MinimalOver(h, f, e, m) <==> m == n
    ensures MaximalUnder(h, f, e, m) <==> m == n
  {
    forall q: nat | (Over(h, f, e, q) && Reach(Up(h), q, n)) || (Under(h, f, e, q) && Reach(Up(h), n, q)) ensures q == n {
      if Over(h, f, e, q) {
        assert Reach(Up(h), n, q);
      } else {
        assert Reach(Up(h), q, n);
      }
      BothWays(h, n, q);
    }
    if MinimalOver(h, f, e, m) {
      assert Reach(Up(h), n, m);
    }
    if MaximalUnder(h, f, e, m) {
      assert Reach(Up(h), m, n);
    }
  }

  lemma BothWays(h: Hierarchy, n: nat, q: nat)
    requires Linked(h.nodes) && Acyclic(h) && Reach(Up(h), n, q) && Reach(Up(h), q, n)
    ensures n == q
  {
  }

  lemma ParentsAntichain(h: Hierarchy, f: Subsumes, e: Element, parents: set<nat>)
    requires PlacementOk(h, f, e) && forall n: nat :: n in parents <==> MinimalOver(h, f, e, n)
    ensures parents != {} && Antichain(h, parents) && forall p: nat :: p in parents ==> Over(h, f, e, p)
  {
    var m := MinimalExists(h, f, e, h.top);
  }

  lemma ConeInRange(h: Hierarchy, parents: set<nat>, marked: set<nat>)
    requires Linked(h.nodes) && parents != {} && forall p: nat :: p in parents ==> p < |h.nodes|
    requires forall n: nat :: n in marked <==> BelowAll(h, parents, n)
    ensures forall n: nat :: n in marked ==> n < |h.nodes|
  {
    var p: nat :| p in parents;
    forall n: nat | n in marked ensures n < |h.nodes| {
      assert Reach(Up(h), n, p);
      UpDownInverse(h);
      ReachInverse(Up(h), Down(h), n, p);
      ReachClosed(Down(h), Up(h).Keys, p, n);
    }
  }

  ghost predicate ChildrenUnder(h: Hierarchy, f: Subsumes, e: Element, n: nat)
    requires n < |h.nodes|
  {
    forall c: nat :: c in h.nodes[n].children ==> Under(h, f, e, c)
  }

  ghost predicate AboveInner(h: Hierarchy, n: nat) {
    n < |h.nodes| && exists c: nat :: c in h.nodes[n].children && c != h.bottom
  }

  /** The tests of the upward search: among the nodes above something other than
      bottom, one for each in the cone whose children are all subsumed by `e`, and
      none for any other. */
  ghost predicate TestedUp(h: Hierarchy, f: Subsumes, e: Element, parents: set<nat>, log: seq<nat>) {
    && Distinct(log)
    && forall n: nat {:trigger n in log} :: AboveInner(h, n) ==>
         (n in log <==> BelowAll(h, parents, n) && ChildrenUnder(h, f, e, n))
  }

  lemma UpTests(h: Hierarchy, f: Subsumes, e: Element, trueOf: nat -> bool, parents: set<nat>, marked: set<nat>, log: seq<nat>)
    requires PlacementOk(h, f, e) && Exact(Down(h), Some(marked), trueOf, Up(h).Keys, Unders(h, f, e))
    requires forall n: nat :: n in marked <==> BelowAll(h, parents, n)
    requires EvaluatedOnce(Down(h), Some(marked), trueOf, Up(h), Unders(h, f, e) - {h.bottom}, log)
    ensures TestedUp(h, f, e, parents, log)
  {
    hide Holds, BelowAll;
    LooplessBoth(h);
    forall n: nat | AboveInner(h, n) ensures n in log <==> BelowAll(h, parents, n) && ChildrenUnder(h, f, e, n) {
      assert Evaluable(Down(h), Some(marked), trueOf, n) <==>
        n in marked && forall c: nat :: c in Succ(Down(h), n) ==> c in Unders(h, f, e);
      var c: nat :| c in h.nodes[n].children && c != h.bottom;
      assert n in Succ(Up(h), c);
    }
  }

  /** Without a subsumed node other than bottom, nothing needs a test. */
  lemma NoTests(h: Hierarchy, f: Subsumes, e: Element, parents: set<nat>, marked: set<nat>)
    requires PlacementOk(h, f, e)
    requires forall p: nat :: p in parents ==> Over(h, f, e, p)
    requires forall m: nat :: m in marked <==> BelowAll(h, parents, m)
    requires forall m: nat :: !(m in marked && m < |h.nodes| && h.bottom in h.nodes[m].children && Under(h, f, e, m))
    ensures TestedUp(h, f, e, parents, [])
  {
    hide BelowAll;
    forall n: nat | AboveInner(h, n) ensures !ChildrenUnder(h, f, e, n) {
      var c: nat :| c in h.nodes[n].children && c != h.bottom;
      if Under(h, f, e, c) {
        UnderFromStart(h, f, e, parents, marked, {}, c);
      }
    }
  }

  /** `find_children`: exactly the maximal nodes below `e`. */
  method FindChildren(h: Hierarchy, f: Subsumes, e: Element, parents: set<nat>) returns (children: set<nat>, ghost log: seq<nat>)
    requires PlacementOk(h, f, e)
    requires forall n: nat :: n in parents <==> MinimalOver(h, f, e, n)
    ensures forall n: nat :: n in children <==> MaximalUnder(h, f, e, n)
    ensures if exists p: nat :: p in parents && Under(h, f, e, p) then log == [] else TestedUp(h, f, e, parents, log)
  {
    hide MinimalOver, MaximalUnder, Exact, Connected, BelowAll, Antichain, EvaluatedOnce, TestedUp;
    children, log := {}, [];
    ParentsAntichain(h, f, e, parents);
    if |parents| == 1 {
      var only: nat :| only in parents;
      OnlyMember(parents, only);
      if f(e, h.nodes[only].representative) {
        forall n: nat ensures n in parents <==> MaximalUnder(h, f, e, n) {
          EquivalentOnly(h, f, e, only, n);
        }
        return parents, [];
      }
    }
    NoneUnder(h, f, e, parents);
    var marked := CommonLowerCone(h, parents);
    ConeInRange(h, parents, marked);
    var start := AboveBottom(h, f, e, marked);
    if start == {} {
      children := {h.bottom};
      NoTests(h, f, e, parents, marked);
      forall n: nat ensures n in children <==> MaximalUnder(h, f, e, n) {
        BottomMaximal(h, f, e, parents, marked, n);
      }
    } else {
      var queue: seq<nat> := InSomeOrder<nat>(start);
      ElemsListing(start, queue);
      var trueOf := (u: nat) => Under(h, f, e, u);
      LooplessBoth(h);
      UndersHold(h, f, e, trueOf, parents, marked, start);
      children, log := Search(queue, Some(marked), Up(h), Down(h), trueOf, Up(h).Keys, Unders(h, f, e), Unders(h, f, e) - {h.bottom});
      UpTests(h, f, e, trueOf, parents, marked, log);
      forall n: nat ensures n in children <==> MaximalUnder(h, f, e, n) {
        MaximalIff(h, f, e, n);
        BottomNotMaximal(h, f, e, start);
      }
    }
  }

  /** A subsumed parent is the only parent. */
  lemma NoneUnder(h: Hierarchy, f: Subsumes, e: Element, parents: set<nat>)
    requires PlacementOk(h, f, e) && forall n: nat :: n in parents <==> MinimalOver(h, f, e, n)
    ensures (exists p: nat :: p in parents && Under(h, f, e, p)) ==> |parents| == 1
  {
    if exists p: nat :: p in parents && Under(h, f, e, p) {
      var p: nat :| p in parents && Under(h, f, e, p);
      forall m: nat ensures m in parents <==> m == p {
        EquivalentOnly(h, f, e, p, m);
      }
      assert parents == {p};
    }
  }

  lemma OnlyMember(s: set<nat>, n: nat)
    requires |s| == 1 && n in s
    ensures s == {n}
  {
    assert |s - {n}| == 0;
  }

  lemma BottomMaximal(h: Hierarchy, f: Subsumes, e: Element, parents: set<nat>, marked: set<nat>, n: nat)
    requires PlacementOk(h, f, e)
    requires forall p: nat :: p in parents ==> Over(h, f, e, p)
    requires forall m: nat :: m in marked <==> BelowAll(h, parents, m)
    requires forall m: nat :: !(m in marked && m < |h.nodes| && h.bottom in h.nodes[m].children && Under(h, f, e, m))
    ensures MaximalUnder(h, f, e, n) <==> n == h.bottom
  {
    forall m: nat | Under(h, f, e, m) ensures m == h.bottom {
      if m != h.bottom {
        UnderFromStart(h, f, e, parents, marked, {}, m);
      }
    }
  }

  lemma BottomNotMaximal(h: Hierarchy, f: Subsumes, e: Element, start: set<nat>)
    requires PlacementOk(h, f, e) && start != {}
    requires forall n: nat :: n in start ==> n < |h.nodes| && h.bottom in h.nodes[n].children && Under(h, f, e, n)
    ensures Succ(Up(h), h.bottom) * Unders(h, f, e) != {}
  {
    var n: nat :| n in start;
    UpDownInverse(h);
    assert n in Succ(Up(h), h.bottom);
    assert n in Succ(Up(h), h.bottom) * Unders(h, f, e);
  }

  /** `find_position`: the equivalent node if there is one, and otherwise exactly
      the minimal nodes above and the maximal nodes below. */
  method FindPosition(h: Hierarchy, f: Subsumes, e: Element) returns (r: Position, ghost downLog: seq<nat>, ghost upLog: seq<nat>)
    requires PlacementOk(h, f, e)
    ensures forall n: nat :: r == Existing(n) <==> Equivalent(h, f, e, n)
    ensures r.Between? ==> r.parents != {} && r.parents != r.children
    ensures r.Between? ==> forall n: nat :: n in r.parents <==> MinimalOver(h, f, e, n)
    ensures r.Between? ==> forall n: nat :: n in r.children <==> MaximalUnder(h, f, e, n)
    ensures TestedDown(h, f, e, downLog)
    ensures r.Existing? ==> upLog == []
    ensures r.Between? ==> TestedUp(h, f, e, r.parents, upLog)
  {
    hide PlacementOk, TestedDown, TestedUp;
    var parents, children;
    parents, downLog := FindParents(h, f, e);
    children, upLog := FindChildren(h, f, e, parents);
    ParentsAntichain(h, f, e, parents);
    if parents == children {
      var n: nat :| n in parents;
      assert Equivalent(h, f, e, n);
      forall m: nat | Equivalent(h, f, e, m) ensures m == n {
        EquivalentOnly(h, f, e, n, m);
        EquivalentOnly(h, f, e, m, m);
      }
      r := Existing(n);
    } else {
      forall n: nat ensures !Equivalent(h, f, e, n) {
        NotEquivalent(h, f, e, parents, children, n);
      }
      assert forall p: nat :: p in parents && Under(h, f, e, p) ==> Equivalent(h, f, e, p);
      r := Between(parents, children);
    }
  }

  lemma NotEquivalent(h: Hierarchy, f: Subsumes, e: Element, parents: set<nat>, children: set<nat>, n: nat)
    requires PlacementOk(h, f, e) && parents != children
    requires forall m: nat :: m in parents <==> MinimalOver(h, f, e, m)
    requires forall m: nat :: m in children <==> MaximalUnder(h, f, e, m)
    ensures !Equivalent(h, f, e, n)
  {
    if Equivalent(h, f, e, n) {
      forall m: nat ensures m in parents <==> m in children {
        EquivalentOnly(h, f, e, n, m);
      }
    }
  }

  // --- when the search may be used --------------------------------------------------

  /** `f` orders the elements of `g` as reachability does and orders `e`
      transitively among them, between the extremes. */
  ghost predicate OrdersWith(g: Graph<Element>, f: Subsumes, e: Element, top: Element, bottom: Element) {
    && (forall a, b {:trigger Reach(g, a, b)} :: a in g && b in g ==> (f(b, a) <==> Reach(g, a, b)))
    && (forall a, b {:trigger f(b, a)} :: a in g && b in g && f(b, a) && f(a, e) ==> f(b, e))
    && (forall a, b {:trigger f(b, a)} :: a in g && b in g && f(e, b) && f(b, a) ==> f(e, a))
    && (forall a, b {:trigger f(b, e), f(e, a)} :: a in g && b in g && f(e, a) && f(b, e) ==> f(b, a))
    && (forall a {:trigger Reach(g, a, top)} :: a in g ==> Reach(g, a, top))
    && (forall a {:trigger Reach(g, bottom, a)} :: a in g ==> Reach(g, bottom, a))
    && f(top, e) && f(e, bottom)
  }

  lemma NodeOrder(h: Hierarchy, g: Graph<Element>, f: Subsumes, e: Element, top: Element, bottom: Element, n: nat, m: nat)
    requires Represents(h, g) && Bounded(h, g, top, bottom) && OrdersWith(g, f, e, top, bottom) && n < |h.nodes| && m < |h.nodes|
    ensures Reach(Up(h), n, m) <==> f(h.nodes[m].representative, h.nodes[n].representative)
    ensures Reach(Up(h), n, h.top) && Reach(Up(h), h.bottom, n)
  {
    hide Grouped, Reduced, Linked;
    var a, b := h.nodes[n].representative, h.nodes[m].representative;
    assert Reach(g, a, b) <==> Reach(Up(h), n, m);
    assert Reach(g, a, top) && Reach(g, bottom, a);
  }

  lemma LinkOrder(h: Hierarchy, n: nat, q: nat)
    requires Linked(h.nodes) && n < |h.nodes|
    ensures q in h.nodes[n].parents ==> q < |h.nodes| && Reach(Up(h), n, q)
    ensures q in h.nodes[n].children ==> q < |h.nodes| && Reach(Up(h), q, n)
  {
    if q in h.nodes[n].parents {
      assert q in Succ(Up(h), n);
      ReachEdge(Up(h), n, q);
    }
    if q in h.nodes[n].children {
      ChildReaches(h, n, q);
    }
  }

  /** Any built hierarchy can be searched with an oracle that extends its order. */
  lemma BuiltHierarchyPlaces(h: Hierarchy, g: Graph<Element>, f: Subsumes, e: Element, top: Element, bottom: Element)
    requires Represents(h, g) && Bounded(h, g, top, bottom) && OrdersWith(g, f, e, top, bottom)
    ensures PlacementOk(h, f, e)
  {
    RepresentsAcyclic(h, g, top, bottom);
    assert Linked(h.nodes);
    forall n: nat, m: nat | n < |h.nodes| && m < |h.nodes|
      ensures Reach(Up(h), n, m) <==> f(h.nodes[m].representative, h.nodes[n].representative)
      ensures Reach(Up(h), n, h.top) && Reach(Up(h), h.bottom, n)
    {
      NodeOrder(h, g, f, e, top, bottom, n, m);
    }
    forall n: nat, q: nat | n < |h.nodes| && q in h.nodes[n].parents && Over(h, f, e, n) ensures Over(h, f, e, q) {
      LinkOrder(h, n, q);
    }
    forall n: nat, q: nat | n < |h.nodes| && q in h.nodes[n].children && Under(h, f, e, n) ensures Under(h, f, e, q) {
      LinkOrder(h, n, q);
    }
  }
}
