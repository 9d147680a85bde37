/** Finite directed graphs as successor maps, and reachability in them.
    Every other module reasons about reachability through the lemmas here. */
module Digraph {

  type Graph<V> = map<V, set<V>>

  /** The successors of `v`; a vertex without an entry has none. */
  function Succ<V>(g: Graph<V>, v: V): set<V> {
    if v in g then g[v] else {}
  }

  /** `p` lists the vertices after `a` on a path from `a` to `b`. */
  ghost predicate Path<V>(g: Graph<V>, a: V, b: V, p: seq<V>) {
    if |p| == 0 then a == b else p[0] in Succ(g, a) && Path(g, p[0], b, p[1..])
  }

  /** Reflexive-transitive reachability. */
  ghost predicate Reach<V(!new)>(g: Graph<V>, a: V, b: V) {
    exists p: seq<V> :: Path(g, a, b, p)
  }

  /** `S` contains every successor of its members. */
  ghost predicate Closed<V(!new)>(g: Graph<V>, S: set<V>) {
    forall v :: v in S ==> Succ(g, v) <= S
  }

  /** Every edge of `g` is a path of `h`. */
  ghost predicate Embeds<V(!new)>(g: Graph<V>, h: Graph<V>) {
    forall v, w :: w in Succ(g, v) ==> Reach(h, v, w)
  }

  /** Every edge of `g` is an edge of `h`. */
  ghost predicate SubGraph<V(!new)>(g: Graph<V>, h: Graph<V>) {
    forall v :: Succ(g, v) <= Succ(h, v)
  }

  /** `h` holds exactly the edges of `g`, reversed. */
  ghost predicate Inverse<V(!new)>(g: Graph<V>, h: Graph<V>) {
    forall v, w {:trigger w in Succ(g, v)} {:trigger v in Succ(h, w)} :: w in Succ(g, v) <==> v in Succ(h, w)
  }

  lemma ReachRefl<V(!new)>(g: Graph<V>, a: V)
    ensures Reach(g, a, a)
  {
    assert Path(g, a, a, []);
  }

  lemma ReachEdge<V(!new)>(g: Graph<V>, a: V, b: V)
    requires b in Succ(g, a)
    ensures Reach(g, a, b)
  {
    assert Path(g, b, b, [b][1..]);
    assert Path(g, a, b, [b]);
  }

  lemma {:induction false} PathConcat<V>(g: Graph<V>, a: V, b: V, c: V, p: seq<V>, q: seq<V>)
    requires Path(g, a, b, p) && Path(g, b, c, q)
    ensures Path(g, a, c, p + q)
    decreases |p|
  {
    if |p| == 0 {
      assert p + q == q;
    } else {
      PathConcat(g, p[0], b, c, p[1..], q);
      assert (p + q)[1..] == p[1..] + q;
    }
  }

  lemma ReachTrans<V(!new)>(g: Graph<V>, a: V, b: V, c: V)
    requires Reach(g, a, b) && Reach(g, b, c)
    ensures Reach(g, a, c)
  {
    var p :| Path(g, a, b, p);
    var q :| Path(g, b, c, q);
    PathConcat(g, a, b, c, p, q);
  }

  lemma ReachStep<V(!new)>(g: Graph<V>, a: V, b: V, c: V)
    requires b in Succ(g, a) && Reach(g, b, c)
    ensures Reach(g, a, c)
  {
    ReachEdge(g, a, b);
    ReachTrans(g, a, b, c);
  }

  lemma ReachSnoc<V(!new)>(g: Graph<V>, a: V, b: V, c: V)
    requires Reach(g, a, b) && c in Succ(g, b)
    ensures Reach(g, a, c)
  {
    ReachEdge(g, b, c);
    ReachTrans(g, a, b, c);
  }

  lemma {:induction false} PathClosed<V(!new)>(g: Graph<V>, S: set<V>, a: V, b: V, p: seq<V>)
    requires Closed(g, S) && a in S && Path(g, a, b, p)
    ensures b in S
    decreases |p|
  {
    if |p| > 0 {
      PathClosed(g, S, p[0], b, p[1..]);
    }
  }

  /** Induction over reachability: a closed set containing the start contains the end. */
  lemma ReachClosed<V(!new)>(g: Graph<V>, S: set<V>, a: V, b: V)
    requires Closed(g, S) && a in S && Reach(g, a, b)
    ensures b in S
  {
    var p :| Path(g, a, b, p);
    PathClosed(g, S, a, b, p);
  }

  lemma {:induction false} PathExit<V(!new)>(g: Graph<V>, S: set<V>, a: V, b: V, p: seq<V>) returns (x: V, y: V)
    requires a in S && b !in S && Path(g, a, b, p)
    ensures x in S && y !in S && y in Succ(g, x) && Reach(g, a, x) && Reach(g, y, b)
    decreases |p|
  {
    if p[0] in S {
      x, y := PathExit(g, S, p[0], b, p[1..]);
      ReachStep(g, a, p[0], x);
    } else {
      x, y := a, p[0];
      ReachRefl(g, a);
      assert Path(g, p[0], b, p[1..]);
    }
  }

  /** A path that leaves `S` uses an edge that leaves `S`. */
  lemma ReachExit<V(!new)>(g: Graph<V>, S: set<V>, a: V, b: V) returns (x: V, y: V)
    requires a in S && b !in S && Reach(g, a, b)
    ensures x in S && y !in S && y in Succ(g, x) && Reach(g, a, x) && Reach(g, y, b)
  {
    var p :| Path(g, a, b, p);
    x, y := PathExit(g, S, a, b, p);
  }

  lemma {:induction false} PathEmbeds<V(!new)>(g: Graph<V>, h: Graph<V>, a: V, b: V, p: seq<V>)
    requires Embeds(g, h) && Path(g, a, b, p)
    ensures Reach(h, a, b)
    decreases |p|
  {
    if |p| == 0 {
      ReachRefl(h, a);
    } else {
      PathEmbeds(g, h, p[0], b, p[1..]);
      ReachTrans(h, a, p[0], b);
    }
  }

  lemma ReachEmbeds<V(!new)>(g: Graph<V>, h: Graph<V>, a: V, b: V)
    requires Embeds(g, h) && Reach(g, a, b)
    ensures Reach(h, a, b)
  {
    var p :| Path(g, a, b, p);
    PathEmbeds(g, h, a, b, p);
  }

  /** Reachability grows with the edge set. */
  lemma ReachMono<V(!new)>(g: Graph<V>, h: Graph<V>, a: V, b: V)
    requires SubGraph(g, h) && Reach(g, a, b)
    ensures Reach(h, a, b)
  {
    forall v, w | w in Succ(g, v) ensures Reach(h, v, w) {
      ReachEdge(h, v, w);
    }
    ReachEmbeds(g, h, a, b);
  }

  lemma {:induction false} PathInverse<V(!new)>(g: Graph<V>, h: Graph<V>, a: V, b: V, p: seq<V>)
    requires Inverse(g, h) && Path(g, a, b, p)
    ensures Reach(h, b, a)
    decreases |p|
  {
    if |p| == 0 {
      ReachRefl(h, a);
    } else {
      PathInverse(g, h, p[0], b, p[1..]);
      ReachSnoc(h, b, p[0], a);
    }
  }

  lemma ReachInverse<V(!new)>(g: Graph<V>, h: Graph<V>, a: V, b: V)
    requires Inverse(g, h)
    ensures Reach(g, a, b) <==> Reach(h, b, a)
  {
    if Reach(g, a, b) {
      var p :| Path(g, a, b, p);
      PathInverse(g, h, a, b, p);
    }
    if Reach(h, b, a) {
      var p :| Path(h, b, a, p);
      PathInverse(h, g, b, a, p);
    }
  }

  /** A path between different vertices starts with an edge. */
  lemma ReachFirst<V(!new)>(g: Graph<V>, a: V, b: V) returns (c: V)
    requires Reach(g, a, b) && a != b
    ensures c in Succ(g, a) && Reach(g, c, b)
  {
    var p :| Path(g, a, b, p);
    c := p[0];
    assert Path(g, c, b, p[1..]);
  }
}
