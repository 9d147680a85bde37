/** `Hierarchy::nodes_bottom_up`: every node after all of its children. */
module BottomUp {
  import opened Elements
  import opened Sequences
  import opened Digraph
  import opened Hierarchies

  /** Parent links have no cycles. */
  ghost predicate Acyclic(h: Hierarchy) {
    && (forall n: nat :: n < |h.nodes| ==> n !in h.nodes[n].parents)
    && (forall n: nat, m: nat {:trigger Reach(Up(h), n, m), Reach(Up(h), m, n)} ::
          Reach(Up(h), n, m) && Reach(Up(h), m, n) ==> n == m)
  }

  lemma RepresentsAcyclic(h: Hierarchy, g: Graph<Element>, top: Element, bottom: Element)
    requires Represents(h, g) && Bounded(h, g, top, bottom)
    ensures Acyclic(h)
  {
    forall n: nat | n < |h.nodes| ensures n !in h.nodes[n].parents {
      var a := h.nodes[n].representative;
      assert n == h.nodeOf[a];
      assert n in h.nodes[h.nodeOf[a]].parents <==> Covers(Up(h), n, n);
    }
    forall n: nat, m: nat | Reach(Up(h), n, m) && Reach(Up(h), m, n) ensures n == m {
      if n < |h.nodes| {
        AncestorsInRange(h, n, m);
        var a, b := h.nodes[n].representative, h.nodes[m].representative;
        assert Reach(g, a, b) && Reach(g, b, a);
      } else if n != m {
        var c := ReachFirst(Up(h), n, m);
      }
    }
  }

  ghost function Below(h: Hierarchy, n: nat): set<nat> {
    set m | m in Up(h) && Reach(Up(h), m, n)
  }

  lemma ChildBelowLess(h: Hierarchy, n: nat, c: nat)
    requires Linked(h.nodes) && Acyclic(h) && n < |h.nodes| && c in h.nodes[n].children
    ensures c < |h.nodes| && Below(h, c) < Below(h, n)
  {
    assert n in Succ(Up(h), c);
    ReachEdge(Up(h), c, n);
    forall m | m in Below(h, c) ensures m in Below(h, n) {
      ReachTrans(Up(h), m, c, n);
    }
    ReachRefl(Up(h), n);
    assert n in Below(h, n);
    assert n !in Below(h, c);
  }

  /** `order` lists distinct nodes, each after all of its children. */
  ghost predicate ChildrenFirst(h: Hierarchy, order: seq<nat>) {
    && (forall i :: 0 <= i < |order| ==> order[i] < |h.nodes|)
    && (forall i, j :: 0 <= i < j < |order| ==> order[i] != order[j])
    && (forall i, c {:trigger c in h.nodes[order[i]].children} :: 0 <= i < |order| && c in h.nodes[order[i]].children ==> c in order[..i])
  }

  /** `pending[n]` counts the children of `n` outside `done`, plus one while `n`
      is in `todo`. */
  ghost predicate PendingOk(h: Hierarchy, done: set<nat>, pending: seq<int>, todo: set<nat>) {
    && |pending| == |h.nodes|
    && (forall n: nat {:trigger pending[n]} :: n < |h.nodes| ==>
          pending[n] == |h.nodes[n].children - done| + (if n in todo then 1 else 0))
  }

  /** `ready` holds, once each, the nodes outside `done` with nothing pending. */
  ghost predicate ReadyOk(h: Hierarchy, done: set<nat>, ready: seq<nat>, pending: seq<int>) {
    && |pending| == |h.nodes|
    && (forall n :: n in ready ==> n < |h.nodes| && n !in done && pending[n] == 0)
    && (forall i, j :: 0 <= i < j < |ready| ==> ready[i] != ready[j])
    && (forall n: nat {:trigger pending[n]} :: n < |h.nodes| && pending[n] == 0 ==> n in done || n in ready)
  }

  /** The loop state of Kahn's algorithm. */
  ghost predicate KahnInv(h: Hierarchy, order: seq<nat>, ready: seq<nat>, pending: seq<int>) {
    && ChildrenFirst(h, order)
    && PendingOk(h, Elems(order), pending, {})
    && ReadyOk(h, Elems(order), ready, pending)
  }

  lemma {:induction false} AllListed(h: Hierarchy, order: seq<nat>, pending: seq<int>, n: nat)
    requires Linked(h.nodes) && Acyclic(h) && KahnInv(h, order, [], pending) && n < |h.nodes|
    ensures n in order
    decreases Below(h, n)
  {
    if n !in order {
      assert pending[n] != 0 by {
        assert n !in Elems(order);
      }
      assert h.nodes[n].children - Elems(order) != {};
      var c :| c in h.nodes[n].children - Elems(order);
      ChildBelowLess(h, n, c);
      AllListed(h, order, pending, c);
    }
  }

  lemma PendingShift(h: Hierarchy, done: set<nat>, pending: seq<int>, node: nat)
    requires Linked(h.nodes) && PendingOk(h, done, pending, {}) && node < |h.nodes| && node !in done
    ensures PendingOk(h, done + {node}, pending, h.nodes[node].parents)
  {
    forall n: nat | n < |h.nodes|
      ensures pending[n] == |h.nodes[n].children - (done + {node})| + (if n in h.nodes[node].parents then 1 else 0)
    {
      var before, after := h.nodes[n].children - done, h.nodes[n].children - (done + {node});
      if n in h.nodes[node].parents {
        assert node in before && before == after + {node};
      } else {
        assert node !in h.nodes[n].children;
        assert before == after;
      }
    }
  }

  lemma ReadyShift(h: Hierarchy, done: set<nat>, ready: seq<nat>, pending: seq<int>)
    requires ReadyOk(h, done, ready, pending) && |ready| > 0
    ensures ReadyOk(h, done + {ready[0]}, ready[1..], pending)
  {
    assert ready == [ready[0]] + ready[1..];
  }

  lemma OrderShift(h: Hierarchy, order: seq<nat>, node: nat)
    requires ChildrenFirst(h, order) && node < |h.nodes| && node !in order && h.nodes[node].children <= Elems(order)
    ensures ChildrenFirst(h, order + [node])
  {
    var order' := order + [node];
    forall i, c | 0 <= i < |order'| && c in h.nodes[order'[i]].children ensures c in order'[..i] {
      if i == |order| {
        assert order'[..i] == order;
        assert c in Elems(order);
      } else {
        assert order'[..i] == order[..i];
      }
    }
  }

  /** Taking the next ready node. */
  lemma TakeReady(h: Hierarchy, order: seq<nat>, ready: seq<nat>, pending: seq<int>)
    requires Linked(h.nodes) && KahnInv(h, order, ready, pending) && |ready| > 0
    ensures var node := ready[0]; var done := Elems(order + [node]);
            && node < |h.nodes| && ChildrenFirst(h, order + [node])
            && PendingOk(h, done, pending, h.nodes[node].parents)
            && ReadyOk(h, done, ready[1..], pending)
  {
    var node := ready[0];
    assert node in ready;
    ElemsSnoc(order, node);
    PendingShift(h, Elems(order), pending, node);
    ReadyShift(h, Elems(order), ready, pending);
    assert h.nodes[node].children - Elems(order) == {};
    OrderShift(h, order, node);
  }

  lemma PendingStep(h: Hierarchy, done: set<nat>, pending: seq<int>, todo: set<nat>, q: nat)
    requires PendingOk(h, done, pending, todo) && q in todo && q < |h.nodes|
    ensures PendingOk(h, done, pending[q := pending[q] - 1], todo - {q}) && pending[q] > 0
  {
  }

  lemma ReadyStep(h: Hierarchy, done: set<nat>, ready: seq<nat>, pending: seq<int>, q: nat)
    requires ReadyOk(h, done, ready, pending) && q < |h.nodes| && q !in done && pending[q] > 0
    ensures var pending' := pending[q := pending[q] - 1];
            ReadyOk(h, done, if pending'[q] == 0 then ready + [q] else ready, pending')
  {
    var pending' := pending[q := pending[q] - 1];
    assert q !in ready;
    if pending'[q] == 0 {
      assert forall n :: n in ready + [q] <==> n in ready || n == q;
    }
  }

  method NodesBottomUp(h: Hierarchy) returns (order: seq<nat>)
    requires Linked(h.nodes) && Acyclic(h)
    ensures ChildrenFirst(h, order) && forall n: nat :: n < |h.nodes| ==> n in order
  {
    hide PendingOk, ReadyOk, KahnInv, ChildrenFirst, Linked, Acyclic;
    order := [];
    var pending, ready := InitialReady(h);
    while |ready| > 0
      invariant KahnInv(h, order, ready, pending)
      decreases |h.nodes| - |order|
    {
      var node := ready[0];
      TakeReady(h, order, ready, pending);
      OrderBounded(h, order + [node]);
      order, ready := order + [node], ready[1..];
      ghost var done := Elems(order);
      var todo := h.nodes[node].parents;
      while todo != {}
        invariant todo <= h.nodes[node].parents
        invariant PendingOk(h, done, pending, todo) && ReadyOk(h, done, ready, pending)
      {
        var q: nat :| q in todo;
        ParentUnlisted(h, order, q);
        PendingLength(h, done, pending, todo);
        PendingStep(h, done, pending, todo, q);
        ReadyStep(h, done, ready, pending, q);
        pending := pending[q := pending[q] - 1];
        if pending[q] == 0 {
          ready := ready + [q];
        }
        todo := todo - {q};
      }
      KahnAgain(h, order, ready, pending);
    }
    forall n: nat | n < |h.nodes| ensures n in order {
      AllListed(h, order, pending, n);
    }
    KahnOrder(h, order, ready, pending);
  }

  method InitialReady(h: Hierarchy) returns (pending: seq<int>, ready: seq<nat>)
    ensures KahnInv(h, [], ready, pending)
  {
    pending := seq(|h.nodes|, i requires 0 <= i < |h.nodes| => |h.nodes[i].children|);
    ready := [];
    for n := 0 to |h.nodes|
      invariant forall i :: 0 <= i < |ready| ==> ready[i] < n && pending[ready[i]] == 0
      invariant forall i, j :: 0 <= i < j < |ready| ==> ready[i] != ready[j]
      invariant forall m: nat :: m < n && pending[m] == 0 ==> m in ready
    {
      if pending[n] == 0 {
        ready := ready + [n];
      }
    }
    assert Elems([]) == {};
  }

  lemma KahnOrder(h: Hierarchy, order: seq<nat>, ready: seq<nat>, pending: seq<int>)
    requires KahnInv(h, order, ready, pending)
    ensures ChildrenFirst(h, order)
  {
  }

  lemma PendingLength(h: Hierarchy, done: set<nat>, pending: seq<int>, todo: set<nat>)
    requires PendingOk(h, done, pending, todo)
    ensures |pending| == |h.nodes|
  {
  }

  lemma KahnAgain(h: Hierarchy, order: seq<nat>, ready: seq<nat>, pending: seq<int>)
    requires ChildrenFirst(h, order) && PendingOk(h, Elems(order), pending, {}) && ReadyOk(h, Elems(order), ready, pending)
    ensures KahnInv(h, order, ready, pending)
  {
  }

  lemma ParentUnlisted(h: Hierarchy, order: seq<nat>, q: nat)
    requires Linked(h.nodes) && Acyclic(h) && ChildrenFirst(h, order) && |order| > 0
    requires order[|order| - 1] < |h.nodes| && q in h.nodes[order[|order| - 1]].parents
    ensures q < |h.nodes| && q !in order && q !in Elems(order)
  {
    var last := order[|order| - 1];
    forall i | 0 <= i < |order| ensures order[i] != q {
      assert last in h.nodes[q].children;
    }
  }

  lemma OrderBounded(h: Hierarchy, order: seq<nat>)
    requires ChildrenFirst(h, order)
    ensures |order| <= |h.nodes|
  {
    var all := Up(h).Keys;
    DistinctBound(order, all);
    NodesCount(h);
  }

  lemma {:induction false} DistinctBound(order: seq<nat>, all: set<nat>)
    requires (forall i :: 0 <= i < |order| ==> order[i] in all) && forall i, j :: 0 <= i < j < |order| ==> order[i] != order[j]
    ensures |order| <= |all|
    decreases |order|
  {
    if |order| > 0 {
      var last := order[|order| - 1];
      DistinctBound(order[..|order| - 1], all - {last});
    }
  }

  lemma NodesCount(h: Hierarchy)
    ensures |Up(h).Keys| == |h.nodes|
  {
    RangeCount(|h.nodes|, Up(h).Keys);
  }

  lemma {:induction false} RangeCount(k: nat, s: set<nat>)
    requires forall n: nat :: n in s <==> n < k
    ensures |s| == k
    decreases k
  {
    if k > 0 {
      RangeCount(k - 1, s - {k - 1});
    } else {
      assert s == {};
    }
  }
}
