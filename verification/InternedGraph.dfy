/** `Graph`: a directed graph that interns its elements as dense ids and keeps
    successor sets of ids. */
module InternedGraph {
  import opened Digraph
  import opened Reachability
  import opened Sequences

  /** `ids` and `elems` are inverse to each other, and edges use existing ids. */
  ghost predicate Interned<T(!new)>(ids: map<T, nat>, elems: seq<T>, succ: Graph<nat>) {
    && (forall t :: t in ids ==> ids[t] < |elems| && elems[ids[t]] == t)
    && (forall i :: 0 <= i < |elems| ==> elems[i] in ids && ids[elems[i]] == i)
    && (forall i: nat :: i in succ ==> i < |elems|)
    && forall i: nat, j: nat {:trigger j in Succ(succ, i)} :: j in Succ(succ, i) ==> j < |elems|
  }

  /** The graph over elements that the ids stand for. */
  ghost function View<T(!new)>(ids: map<T, nat>, elems: seq<T>, succ: Graph<nat>): Graph<T>
    requires Interned(ids, elems, succ)
  {
    map t | t in ids && ids[t] in succ :: set u | u in ids && ids[u] in Succ(succ, ids[t])
  }

  lemma ViewEdge<T(!new)>(ids: map<T, nat>, elems: seq<T>, succ: Graph<nat>, a: T, b: T)
    requires Interned(ids, elems, succ)
    ensures b in Succ(View(ids, elems, succ), a) <==> a in ids && b in ids && ids[b] in Succ(succ, ids[a])
  {
  }

  lemma InRange<T(!new)>(ids: map<T, nat>, elems: seq<T>, succ: Graph<nat>, i: nat, j: nat)
    requires Interned(ids, elems, succ) && i < |elems| && Reach(succ, i, j)
    ensures j < |elems|
  {
    var S := set k: nat | 0 <= k < |elems| && elems[k] in ids;
    assert forall v: nat, w: nat :: v in S && w in Succ(succ, v) ==> w in S;
    ReachClosed(succ, S, i, j);
  }

  /** Reachability over ids is reachability over elements. */
  lemma ViewReach<T(!new)>(ids: map<T, nat>, elems: seq<T>, succ: Graph<nat>, a: T, b: T)
    requires Interned(ids, elems, succ) && a in ids && b in ids
    ensures Reach(View(ids, elems, succ), a, b) <==> Reach(succ, ids[a], ids[b])
  {
    var g := View(ids, elems, succ);
    if Reach(g, a, b) {
      var S := set t | t in ids && Reach(succ, ids[a], ids[t]);
      ReachRefl(succ, ids[a]);
      forall t, u | t in S && u in Succ(g, t) ensures u in S {
        ViewEdge(ids, elems, succ, t, u);
        ReachSnoc(succ, ids[a], ids[t], ids[u]);
      }
      ReachClosed(g, S, a, b);
    }
    if Reach(succ, ids[a], ids[b]) {
      var S := set k: nat | 0 <= k < |elems| && Reach(g, a, elems[k]);
      ReachRefl(g, a);
      forall v: nat, w: nat | v in S && w in Succ(succ, v) ensures w in S {
        ViewEdge(ids, elems, succ, elems[v], elems[w]);
        ReachSnoc(g, a, elems[v], elems[w]);
      }
      ReachClosed(succ, S, ids[a], ids[b]);
    }
  }

  lemma ViewReachKnown<T(!new)>(ids: map<T, nat>, elems: seq<T>, succ: Graph<nat>, a: T, b: T)
    requires Interned(ids, elems, succ) && Reach(View(ids, elems, succ), a, b) && a != b
    ensures a in ids && b in ids
  {
    var g := View(ids, elems, succ);
    var c := ReachFirst(g, a, b);
    ViewEdge(ids, elems, succ, a, c);
    var S := set t | t in ids;
    ReachClosed(g, S, a, b);
  }

  // --- transitive closure ------------------------------------------------------------

  /** A path with at least one edge. */
  ghost predicate Plus<V(!new)>(g: Graph<V>, a: V, b: V) {
    exists c :: c in Succ(g, a) && Reach(g, c, b)
  }

  /** `g` holds every edge of `g0` and otherwise only paths of `g0`. */
  ghost predicate Between(g0: Graph<nat>, g: Graph<nat>) {
    && g.Keys == g0.Keys && SubGraph(g0, g)
    && forall v: nat, w: nat {:trigger w in Succ(g, v)} :: w in Succ(g, v) ==> Plus(g0, v, w)
  }

  lemma PlusReach(g: Graph<nat>, a: nat, b: nat)
    requires Plus(g, a, b)
    ensures Reach(g, a, b)
  {
    var c: nat :| c in Succ(g, a) && Reach(g, c, b);
    ReachStep(g, a, c, b);
  }

  lemma PlusSnoc(g: Graph<nat>, a: nat, b: nat, c: nat)
    requires Plus(g, a, b) && Reach(g, b, c)
    ensures Plus(g, a, c)
  {
    var x: nat :| x in Succ(g, a) && Reach(g, x, b);
    ReachTrans(g, x, b, c);
  }

  /** Reading successor sets that are already closed does not change the closure. */
  lemma PlusBetween(g0: Graph<nat>, g: Graph<nat>, a: nat, b: nat)
    requires Between(g0, g)
    ensures Plus(g, a, b) <==> Plus(g0, a, b)
  {
    if Plus(g, a, b) {
      var c: nat :| c in Succ(g, a) && Reach(g, c, b);
      forall v: nat, w: nat | w in Succ(g, v) ensures Reach(g0, v, w) {
        PlusReach(g0, v, w);
      }
      ReachEmbeds(g, g0, c, b);
      PlusSnoc(g0, a, c, b);
    }
    if Plus(g0, a, b) {
      var c: nat :| c in Succ(g0, a) && Reach(g0, c, b);
      ReachMono(g0, g, c, b);
    }
  }

  /** The inner worklist of `transitively_close` for one key. */
  method ReachPlus(g: Graph<nat>, key: nat) returns (reachable: set<nat>)
    ensures forall w: nat :: w in reachable <==> Plus(g, key, w)
  {
    hide Plus;
    reachable := Succ(g, key);
    var stack: seq<nat> := InSomeOrder<nat>(reachable);
    forall w: nat | w in reachable ensures Plus(g, key, w) {
      PlusEdge(g, key, w);
    }
    SuccWithin(g, key);
    while |stack| > 0
      invariant Succ(g, key) <= reachable <= Vertices(g)
      invariant forall w: nat :: w in reachable ==> Plus(g, key, w)
      invariant forall w: nat :: w in stack ==> w in reachable
      invariant forall v: nat, w: nat {:trigger w in Succ(g, v)} :: v in reachable && v !in stack && w in Succ(g, v) ==> w in reachable
      decreases Vertices(g) - reachable, |stack|
    {
      var onPath := stack[|stack| - 1];
      ghost var before := stack;
      stack := stack[..|stack| - 1];
      assert forall v: nat :: v in before ==> v in stack || v == onPath;
      SuccWithin(g, onPath);
      forall w: nat | w in Succ(g, onPath) ensures Plus(g, key, w) {
        ReachEdge(g, onPath, w);
        PlusSnoc(g, key, onPath, w);
      }
      reachable, stack := PushNew(reachable, stack, Succ(g, onPath));
    }
    forall w: nat | Plus(g, key, w) ensures w in reachable {
      PlusClosed(g, key, reachable, w);
    }
  }

  lemma PlusEdge(g: Graph<nat>, a: nat, b: nat)
    requires b in Succ(g, a)
    ensures Plus(g, a, b)
  {
    ReachRefl(g, b);
  }

  lemma PlusClosed(g: Graph<nat>, key: nat, S: set<nat>, w: nat)
    requires Succ(g, key) <= S && Closed(g, S) && Plus(g, key, w)
    ensures w in S
  {
    var c: nat :| c in Succ(g, key) && Reach(g, c, w);
    ReachClosed(g, S, c, w);
  }

  /** Inserts the members of `next`, stacking the new ones. */
  method PushNew(seen: set<nat>, stack: seq<nat>, next: set<nat>) returns (seen': set<nat>, stack': seq<nat>)
    ensures seen' == seen + next
    ensures forall n: nat :: n in stack' <==> n in stack || n in next - seen
    ensures seen' == seen ==> stack' == stack
  {
    seen', stack' := seen, stack;
    var todo := next;
    while todo != {}
      invariant todo <= next && seen' == seen + (next - todo)
      invariant forall n: nat :: n in stack' <==> n in stack || n in next - todo - seen
      invariant seen' == seen ==> stack' == stack
    {
      var n: nat :| n in todo;
      if n !in seen' {
        seen', stack' := seen' + {n}, stack' + [n];
      }
      todo := todo - {n};
    }
  }

  /** The successors of `v` in `g` are its closure in `g0`. */
  ghost predicate ClosedAt(g0: Graph<nat>, g: Graph<nat>, v: nat) {
    forall w: nat :: w in Succ(g, v) <==> Plus(g0, v, w)
  }

  /** Closing one more key keeps the graph between the original and its closure. */
  lemma CloseKey(g0: Graph<nat>, g: Graph<nat>, key: nat, reachable: set<nat>)
    requires Between(g0, g) && key in g && forall w: nat :: w in reachable <==> Plus(g, key, w)
    ensures Between(g0, g[key := reachable]) && ClosedAt(g0, g[key := reachable], key)
    ensures forall v: nat :: v != key && ClosedAt(g0, g, v) ==> ClosedAt(g0, g[key := reachable], v)
  {
    hide Plus;
    var g' := g[key := reachable];
    assert forall v: nat :: v != key ==> Succ(g', v) == Succ(g, v);
    assert ClosedAt(g0, g', key) by {
      KeyClosed(g0, g, key, reachable);
    }
    assert Between(g0, g') by {
      StillBetween(g0, g, key, reachable);
    }
  }

  lemma KeyClosed(g0: Graph<nat>, g: Graph<nat>, key: nat, reachable: set<nat>)
    requires Between(g0, g) && forall w: nat :: w in reachable <==> Plus(g, key, w)
    ensures forall w: nat :: w in reachable <==> Plus(g0, key, w)
    ensures Succ(g0, key) <= reachable
  {
    hide Plus, Between;
    forall w: nat ensures w in reachable <==> Plus(g0, key, w) {
      PlusBetween(g0, g, key, w);
    }
    forall w: nat | w in Succ(g0, key) ensures w in reachable {
      PlusEdge(g0, key, w);
    }
  }

  lemma StillBetween(g0: Graph<nat>, g: Graph<nat>, key: nat, reachable: set<nat>)
    requires Between(g0, g) && key in g && forall w: nat :: w in reachable <==> Plus(g, key, w)
    ensures Between(g0, g[key := reachable])
  {
    hide Plus;
    KeyClosed(g0, g, key, reachable);
    var g' := g[key := reachable];
    forall v: nat, w: nat | w in Succ(g', v) ensures Plus(g0, v, w) {
      if v != key {
        assert w in Succ(g, v);
      }
    }
  }

  /** The loop of `transitively_close`, over the keys in arbitrary order. */
  method ClosedGraph(g0: Graph<nat>) returns (g: Graph<nat>)
    ensures g.Keys == g0.Keys
    ensures forall v: nat, w: nat {:trigger w in Succ(g, v)} :: w in Succ(g, v) <==> Plus(g0, v, w)
  {
    hide Plus, Between, ClosedAt;
    g := g0;
    BetweenStart(g0);
    var todo := g0.Keys;
    while todo != {}
      invariant todo <= g.Keys == g0.Keys && Between(g0, g)
      invariant forall v: nat :: v in g && v !in todo ==> ClosedAt(g0, g, v)
    {
      var key: nat :| key in todo;
      var reachable := ReachPlus(g, key);
      CloseKey(g0, g, key, reachable);
      g := g[key := reachable];
      todo := todo - {key};
    }
    forall v: nat, w: nat ensures w in Succ(g, v) <==> Plus(g0, v, w) {
      AllClosed(g0, g, v, w);
    }
  }

  lemma BetweenStart(g: Graph<nat>)
    ensures Between(g, g)
  {
    forall v: nat, w: nat | w in Succ(g, v) ensures Plus(g, v, w) {
      PlusEdge(g, v, w);
    }
  }

  lemma AllClosed(g0: Graph<nat>, g: Graph<nat>, v: nat, w: nat)
    requires g.Keys == g0.Keys && (v in g ==> ClosedAt(g0, g, v))
    ensures w in Succ(g, v) <==> Plus(g0, v, w)
  {
  }

  lemma ViewPlus<T(!new)>(ids: map<T, nat>, elems: seq<T>, succ: Graph<nat>, a: T, b: T)
    requires Interned(ids, elems, succ)
    ensures Plus(View(ids, elems, succ), a, b) <==> a in ids && b in ids && Plus(succ, ids[a], ids[b])
  {
    var g := View(ids, elems, succ);
    if Plus(g, a, b) {
      var c :| c in Succ(g, a) && Reach(g, c, b);
      ViewEdge(ids, elems, succ, a, c);
      if c != b {
        ViewReachKnown(ids, elems, succ, c, b);
      }
      ViewReach(ids, elems, succ, c, b);
    }
    if a in ids && b in ids && Plus(succ, ids[a], ids[b]) {
      var i: nat :| i in Succ(succ, ids[a]) && Reach(succ, i, ids[b]);
      ViewEdge(ids, elems, succ, a, elems[i]);
      ViewReach(ids, elems, succ, elems[i], b);
    }
  }

  /** The closed id graph views as the closure of the viewed graph. */
  lemma ViewClosed<T(!new)>(ids: map<T, nat>, elems: seq<T>, g0: Graph<nat>, g: Graph<nat>)
    requires Interned(ids, elems, g0) && g.Keys == g0.Keys
    requires forall v: nat, w: nat {:trigger w in Succ(g, v)} :: w in Succ(g, v) <==> Plus(g0, v, w)
    ensures Interned(ids, elems, g)
    ensures forall a, b {:trigger b in Succ(View(ids, elems, g), a)} :: b in Succ(View(ids, elems, g), a) <==> Plus(View(ids, elems, g0), a, b)
  {
    forall i: nat, j: nat | j in Succ(g, i) ensures j < |elems| {
      assert i in g;
      PlusReach(g0, i, j);
      InRange(ids, elems, g0, i, j);
    }
    forall a, b ensures b in Succ(View(ids, elems, g), a) <==> Plus(View(ids, elems, g0), a, b) {
      ViewEdge(ids, elems, g, a, b);
      ViewPlus(ids, elems, g0, a, b);
    }
  }

  // --- the graph object ---------------------------------------------------------------------

  /** Ids assigned before stay, and a new element gets the next one. */
  lemma InternKeeps<T(!new)>(ids: map<T, nat>, elems: seq<T>, succ: Graph<nat>, t: T)
    requires Interned(ids, elems, succ) && t !in ids
    ensures Interned(ids[t := |elems|], elems + [t], succ)
    ensures forall a, b {:trigger b in Succ(View(ids[t := |elems|], elems + [t], succ), a)} ::
      b in Succ(View(ids[t := |elems|], elems + [t], succ), a) <==> b in Succ(View(ids, elems, succ), a)
  {
    var ids', elems' := ids[t := |elems|], elems + [t];
    assert Interned(ids', elems', succ);
    forall a, b ensures b in Succ(View(ids', elems', succ), a) <==> b in Succ(View(ids, elems, succ), a) {
      ViewEdge(ids', elems', succ, a, b);
      ViewEdge(ids, elems, succ, a, b);
    }
  }

  lemma EdgeKeeps<T(!new)>(ids: map<T, nat>, elems: seq<T>, succ: Graph<nat>, from: T, to: T)
    requires Interned(ids, elems, succ) && from in ids && to in ids
    ensures var succ' := succ[ids[from] := Succ(succ, ids[from]) + {ids[to]}];
      && Interned(ids, elems, succ')
      && forall a, b {:trigger b in Succ(View(ids, elems, succ'), a)} ::
           b in Succ(View(ids, elems, succ'), a) <==> b in Succ(View(ids, elems, succ), a) || (a == from && b == to)
  {
    var succ' := succ[ids[from] := Succ(succ, ids[from]) + {ids[to]}];
    forall i: nat, j: nat | j in Succ(succ', i) ensures j < |elems| {
      assert j in Succ(succ, i) || j == ids[to];
    }
    assert Interned(ids, elems, succ');
    forall a, b ensures b in Succ(View(ids, elems, succ'), a) <==> b in Succ(View(ids, elems, succ), a) || (a == from && b == to) {
      ViewEdge(ids, elems, succ', a, b);
      ViewEdge(ids, elems, succ, a, b);
    }
  }

  class Store<T(==, !new)> {
    var elements: set<T>
    var ids: map<T, nat>
    var elems: seq<T>
    var successors: Graph<nat>

    ghost predicate Valid() reads this {
      Interned(ids, elems, successors)
    }

    ghost function Edges(): Graph<T>
      requires Valid()
      reads this
    {
      View(ids, elems, successors)
    }

    constructor ()
      ensures Valid() && elements == {} && elems == [] && forall a, b :: b !in Succ(Edges(), a)
    {
      elements, ids, elems, successors := {}, map[], [], map[];
    }

    /** The id of `t`, allocated on first use. */
    method Intern(t: T) returns (id: nat)
      requires Valid()
      modifies this`ids, this`elems
      ensures Valid() && t in ids && ids[t] == id
      ensures t in old(ids) ==> elems == old(elems) && ids == old(ids)
      ensures t !in old(ids) ==> id == |old(elems)| && elems == old(elems) + [t] && ids == old(ids)[t := id]
      ensures forall u :: u in old(ids) ==> u in ids && ids[u] == old(ids)[u]
      ensures forall a, b {:trigger b in Succ(Edges(), a)} :: b in Succ(Edges(), a) <==> b in Succ(old(Edges()), a)
    {
      if t in ids {
        return ids[t];
      }
      InternKeeps(ids, elems, successors, t);
      id := |elems|;
      elems := elems + [t];
      ids := ids[t := id];
    }

    method AddEdge(from: T, to: T)
      requires Valid()
      modifies this
      ensures Valid() && elements == old(elements) + {from, to}
      ensures forall a, b {:trigger b in Succ(Edges(), a)} :: b in Succ(Edges(), a) <==> b in Succ(old(Edges()), a) || (a == from && b == to)
    {
      hide Interned, View;
      var fromId := Intern(from);
      ghost var e1 := Edges();
      var toId := Intern(to);
      ghost var e2 := Edges();
      EdgeKeeps(ids, elems, successors, from, to);
      successors := successors[fromId := Succ(successors, fromId) + {toId}];
      elements := elements + {from, to};
    }

    /** `transitively_close`: exactly the transitive closure of the edges, whatever
        order the keys are visited in. */
    method TransitivelyClose()
      requires Valid()
      modifies this`successors
      ensures Valid()
      ensures forall a, b {:trigger b in Succ(Edges(), a)} :: b in Succ(Edges(), a) <==> Plus(old(Edges()), a, b)
    {
      hide Interned, View, Plus;
      var g := ClosedGraph(successors);
      ViewClosed(ids, elems, successors, g);
      successors := g;
    }

    /** `get_reachable_successors`. */
    method GetReachableSuccessors(from: T) returns (r: set<T>)
      requires Valid()
      ensures forall t :: t in r <==> Reach(Edges(), from, t)
    {
      if from !in ids {
        ReachRefl(Edges(), from);
        forall t | Reach(Edges(), from, t) ensures t == from {
          if t != from {
            ViewReachKnown(ids, elems, successors, from, t);
          }
        }
        return {from};
      }
      var visited := ReachableFrom(successors, ids[from]);
      forall i: nat | i in visited ensures i < |elems| {
        InRange(ids, elems, successors, ids[from], i);
      }
      r := set i | i in visited :: elems[i];
      forall t ensures t in r <==> Reach(Edges(), from, t) {
        ReachableElement(ids, elems, successors, from, t, visited, r);
      }
    }

    /** `is_reachable_successor`: agrees with membership in
        `get_reachable_successors`. */
    method IsReachableSuccessor(from: T, to: T) returns (r: bool)
      requires Valid()
      ensures r <==> Reach(Edges(), from, to)
    {
      if from == to {
        ReachRefl(Edges(), from);
        return true;
      }
      if from !in ids || to !in ids {
        if Reach(Edges(), from, to) {
          ViewReachKnown(ids, elems, successors, from, to);
        }
        return false;
      }
      ViewReach(ids, elems, successors, from, to);
      r := ReachesId(successors, ids[from], ids[to]);
    }

    /** `clone`: re-interned, with the same edges. */
    method Clone() returns (c: Store<T>)
      requires Valid()
      ensures fresh(c) && c.Valid()
      ensures SubGraph(c.Edges(), Edges()) && SubGraph(Edges(), c.Edges())
      ensures elements <= c.elements && forall t :: t in c.elements ==> t in elements || t in ids
    {
      hide Interned, View;
      c := new Store<T>();
      ghost var none := c.Edges();
      c.elements := elements;
      assert c.Edges() == none;
      var todo := set i, j | i in successors && j in successors[i] :: (i, j);
      ghost var all := todo;
      assert all - todo == {};
      while todo != {}
        invariant c.Valid() && fresh(c) && todo <= all
        invariant forall i: nat, j: nat {:trigger (i, j) in all} :: (i, j) in all <==> i in successors && j in successors[i]
        invariant elements <= c.elements && forall t :: t in c.elements ==> t in elements || t in ids
        invariant CopiedSoFar(ids, elems, all - todo, c.Edges())
      {
        var edge :| edge in todo;
        EdgeInRange(ids, elems, successors, edge.0, edge.1);
        ghost var before := c.Edges();
        c.AddEdge(elems[edge.0], elems[edge.1]);
        CopyOne(ids, elems, successors, all - todo, edge, before, c.Edges());
        assert all - (todo - {edge}) == all - todo + {edge} by { assert edge in all; }
        todo := todo - {edge};
      }
      assert all - {} == all;
      CopiedAll(ids, elems, successors, all, c.Edges());
    }
  }

  /** `copy` has exactly the edges `done`, under their elements' names. */
  ghost predicate CopiedSoFar<T(!new)>(ids: map<T, nat>, elems: seq<T>, done: set<(nat, nat)>, copy: Graph<T>) {
    forall a, b {:trigger b in Succ(copy, a)} :: b in Succ(copy, a) <==> a in ids && b in ids && (ids[a], ids[b]) in done
  }

  lemma EdgeInRange<T(!new)>(ids: map<T, nat>, elems: seq<T>, succ: Graph<nat>, i: nat, j: nat)
    requires Interned(ids, elems, succ) && i in succ && j in succ[i]
    ensures i < |elems| && j < |elems| && elems[i] in ids && elems[j] in ids
  {
    assert j in Succ(succ, i);
  }

  lemma CopyOne<T(!new)>(ids: map<T, nat>, elems: seq<T>, succ: Graph<nat>, done: set<(nat, nat)>, edge: (nat, nat), before: Graph<T>, after: Graph<T>)
    requires Interned(ids, elems, succ) && edge.0 < |elems| && edge.1 < |elems| && CopiedSoFar(ids, elems, done, before)
    requires forall a, b {:trigger b in Succ(after, a)} :: b in Succ(after, a) <==> b in Succ(before, a) || (a == elems[edge.0] && b == elems[edge.1])
    ensures CopiedSoFar(ids, elems, done + {edge}, after)
  {
    forall a, b ensures b in Succ(after, a) <==> a in ids && b in ids && (ids[a], ids[b]) in done + {edge} {
      assert b in Succ(before, a) <==> a in ids && b in ids && (ids[a], ids[b]) in done;
    }
  }

  lemma CopiedAll<T(!new)>(ids: map<T, nat>, elems: seq<T>, succ: Graph<nat>, all: set<(nat, nat)>, copy: Graph<T>)
    requires Interned(ids, elems, succ) && CopiedSoFar(ids, elems, all, copy)
    requires forall i: nat, j: nat {:trigger (i, j) in all} :: (i, j) in all <==> i in succ && j in succ[i]
    ensures SubGraph(copy, View(ids, elems, succ)) && SubGraph(View(ids, elems, succ), copy)
  {
    forall a, b ensures b in Succ(copy, a) <==> b in Succ(View(ids, elems, succ), a) {
      ViewEdge(ids, elems, succ, a, b);
      if a in ids && b in ids {
        assert (ids[a], ids[b]) in all <==> ids[a] in succ && ids[b] in succ[ids[a]];
      }
    }
  }

  lemma ReachableElement<T(!new)>(ids: map<T, nat>, elems: seq<T>, succ: Graph<nat>, from: T, t: T, visited: set<nat>, r: set<T>)
    requires Interned(ids, elems, succ) && from in ids
    requires forall i: nat :: i in visited <==> Reach(succ, ids[from], i)
    requires forall i: nat :: i in visited ==> i < |elems|
    requires r == set i | i in visited :: elems[i]
    ensures t in r <==> Reach(View(ids, elems, succ), from, t)
  {
    if t in r {
      var i: nat :| i in visited && elems[i] == t;
      ViewReach(ids, elems, succ, from, t);
    }
    if Reach(View(ids, elems, succ), from, t) {
      if t != from {
        ViewReachKnown(ids, elems, succ, from, t);
      }
      ViewReach(ids, elems, succ, from, t);
      assert elems[ids[t]] == t && ids[t] in visited;
    }
  }

  /** The search of `is_reachable_successor`, which stops at the first edge into
      the target. */
  method ReachesId(g: Graph<nat>, from: nat, to: nat) returns (r: bool)
    requires from != to
    ensures r <==> Reach(g, from, to)
  {
    var seen: set<nat> := {};
    var queue := [from];
    ReachRefl(g, from);
    while |queue| > 0
      invariant seen <= Vertices(g) + {from} && to !in seen && to !in queue
      invariant forall v: nat :: v in seen || v in queue ==> Reach(g, from, v) && v in Vertices(g) + {from}
      invariant from in seen || from in queue
      invariant forall v: nat, w: nat {:trigger w in Succ(g, v)} :: v in seen && w in Succ(g, v) ==> w in seen || w in queue
      decreases Vertices(g) + {from} - seen, |queue|
    {
      var current := queue[0];
      ghost var before := queue;
      queue := queue[1..];
      assert before == [current] + queue;
      if to in Succ(g, current) {
        ReachSnoc(g, from, current, to);
        return true;
      }
      if current !in seen {
        seen := seen + {current};
        queue := Enqueue(g, from, current, queue, Succ(g, current));
      }
    }
    assert Closed(g, seen);
    if Reach(g, from, to) {
      ReachClosed(g, seen, from, to);
    }
    return false;
  }
}
