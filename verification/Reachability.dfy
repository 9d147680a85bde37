/** Breadth-first reachability, as `Graph::get_reachable_successors` and
    `Hierarchy::reachable` compute it. */
module Reachability {
  import opened Digraph

  /** Every vertex mentioned by `g`. */
  ghost function Vertices<V>(g: Graph<V>): set<V> {
    g.Keys + set x, y | x in g && y in g[x] :: y
  }

  lemma SuccWithin<V>(g: Graph<V>, v: V)
    ensures Succ(g, v) <= Vertices(g)
  {
  }

  method ReachableFrom<V(==, !new)>(g: Graph<V>, start: V) returns (visited: set<V>)
    ensures forall v :: v in visited <==> Reach(g, start, v)
  {
    visited := {};
    var toVisit := [start];
    ReachRefl(g, start);
    while |toVisit| > 0
      invariant visited <= Vertices(g) + {start}
      invariant forall v :: v in visited ==> Reach(g, start, v)
      invariant forall i :: 0 <= i < |toVisit| ==> toVisit[i] in Vertices(g) + {start} && Reach(g, start, toVisit[i])
      invariant start in visited || start in toVisit
      invariant forall v, w {:trigger w in Succ(g, v)} :: v in visited && w in Succ(g, v) ==> w in visited || w in toVisit
      decreases Vertices(g) + {start} - visited, |toVisit|
    {
      var current := toVisit[0];
      ghost var queued := toVisit;
      toVisit := toVisit[1..];
      assert forall w :: w in queued ==> w == current || w in toVisit;
      if current !in visited {
        visited := visited + {current};
        var next := Succ(g, current);
        toVisit := Enqueue(g, start, current, toVisit, next);
      }
    }
    assert Closed(g, visited);
    forall v | Reach(g, start, v) ensures v in visited {
      ReachClosed(g, visited, start, v);
    }
  }

  /** Pushes the successors of `current` in arbitrary order. */
  method Enqueue<V(==, !new)>(ghost g: Graph<V>, ghost start: V, ghost current: V, queue: seq<V>, next: set<V>) returns (r: seq<V>)
    requires Reach(g, start, current) && next == Succ(g, current)
    requires forall i :: 0 <= i < |queue| ==> queue[i] in Vertices(g) + {start} && Reach(g, start, queue[i])
    ensures forall i :: 0 <= i < |r| ==> r[i] in Vertices(g) + {start} && Reach(g, start, r[i])
    ensures forall w :: w in r <==> w in queue || w in next
  {
    r := queue;
    var todo := next;
    while todo != {}
      invariant todo <= next
      invariant forall i :: 0 <= i < |r| ==> r[i] in Vertices(g) + {start} && Reach(g, start, r[i])
      invariant forall w :: w in r <==> w in queue || w in next - todo
    {
      var w :| w in todo;
      ReachSnoc(g, start, current, w);
      r := r + [w];
      todo := todo - {w};
    }
  }
}
