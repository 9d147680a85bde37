/** Transitive reduction of the components in topological order, as the second
    half of `HierarchyBuilder::run` performs it. */
module Reduction {
  import opened Elements
  import opened Digraph

  /** What the component search leaves behind: `rep` names one element of each
      used node, `topo` orders the components, edges never ascend in it. */
  ghost predicate Condensation(g: Graph<Element>, topo: map<Element, int>, nodeOf: map<Element, nat>, rep: map<nat, Element>) {
    && topo.Keys == g.Keys && g.Keys <= nodeOf.Keys
    && (forall a :: a in g ==> nodeOf[a] in rep)
    && (forall n :: n in rep ==> rep[n] in g && nodeOf[rep[n]] == n)
    && (forall a, b {:trigger nodeOf[a], nodeOf[b]} :: a in g && b in g ==> (topo[a] == topo[b] <==> nodeOf[a] == nodeOf[b]))
    && (forall a, b {:trigger b in Succ(g, a)} :: a in g && b in Succ(g, a) ==> b in g && topo[b] <= topo[a])
    && (forall a, b {:trigger Reach(g, a, b)} :: a in g && b in g && topo[a] == topo[b] ==> Reach(g, a, b))
  }

  lemma ReachDescends(g: Graph<Element>, topo: map<Element, int>, nodeOf: map<Element, nat>, rep: map<nat, Element>,
                      a: Element, b: Element)
    requires Condensation(g, topo, nodeOf, rep) && a in g && Reach(g, a, b)
    ensures b in g && topo[b] <= topo[a]
    ensures Reach(g, b, a) <==> nodeOf[a] == nodeOf[b]
  {
    ReachClosed(g, (set x | x in g && topo[x] <= topo[a]), a, b);
    if Reach(g, b, a) {
      ReachClosed(g, (set x | x in g && topo[x] <= topo[b]), b, a);
    }
  }

  /** Node `m` lies above node `n`. */
  ghost predicate Below(g: Graph<Element>, rep: map<nat, Element>, n: nat, m: nat) {
    n in rep && m in rep && Reach(g, rep[n], rep[m])
  }

  ghost predicate CoverOf(g: Graph<Element>, rep: map<nat, Element>, n: nat, m: nat) {
    && m != n && Below(g, rep, n, m)
    && forall q: nat {:trigger Below(g, rep, q, m)} :: q != n && q != m && Below(g, rep, n, q) ==> !Below(g, rep, q, m)
  }

  /** The successor elements of all members of node `n`. */
  ghost predicate IsSuccessor(g: Graph<Element>, nodeOf: map<Element, nat>, n: nat, y: Element) {
    exists x :: x in g && x in nodeOf && nodeOf[x] == n && y in Succ(g, x)
  }

  lemma BelowTrans(g: Graph<Element>, rep: map<nat, Element>, n: nat, m: nat, k: nat)
    requires Below(g, rep, n, m) && Below(g, rep, m, k)
    ensures Below(g, rep, n, k)
  {
    ReachTrans(g, rep[n], rep[m], rep[k]);
  }

  lemma BelowFromReach(g: Graph<Element>, topo: map<Element, int>, nodeOf: map<Element, nat>, rep: map<nat, Element>,
                       a: Element, b: Element)
    requires Condensation(g, topo, nodeOf, rep) && a in g && b in g
    ensures Reach(g, a, b) <==> Below(g, rep, nodeOf[a], nodeOf[b])
  {
    var x, y := rep[nodeOf[a]], rep[nodeOf[b]];
    assert nodeOf[x] == nodeOf[a] && nodeOf[y] == nodeOf[b];
    assert Reach(g, a, x) && Reach(g, x, a) && Reach(g, b, y) && Reach(g, y, b);
    if Reach(g, a, b) {
      ReachTrans(g, x, a, b);
      ReachTrans(g, x, b, y);
    }
    if Reach(g, x, y) {
      ReachTrans(g, a, x, y);
      ReachTrans(g, a, y, b);
    }
  }

  /** Whatever lies strictly above `n` lies above one of its direct successors. */
  lemma StepOut(g: Graph<Element>, topo: map<Element, int>, nodeOf: map<Element, nat>, rep: map<nat, Element>, n: nat, m: nat)
    returns (y: Element)
    requires Condensation(g, topo, nodeOf, rep) && Below(g, rep, n, m) && m != n
    ensures y in g && IsSuccessor(g, nodeOf, n, y) && nodeOf[y] != n && Below(g, rep, nodeOf[y], m)
  {
    var members := set x | x in g && nodeOf[x] == n;
    var x, y' := ReachExit(g, members, rep[n], rep[m]);
    y := y';
    BelowFromReach(g, topo, nodeOf, rep, y, rep[m]);
  }

  lemma SuccessorBelow(g: Graph<Element>, topo: map<Element, int>, nodeOf: map<Element, nat>, rep: map<nat, Element>, n: nat, y: Element)
    requires Condensation(g, topo, nodeOf, rep) && n in rep && IsSuccessor(g, nodeOf, n, y)
    ensures y in g && Below(g, rep, n, nodeOf[y]) && topo[y] <= topo[rep[n]]
    ensures nodeOf[y] != n ==> topo[y] < topo[rep[n]]
  {
    var x :| x in g && x in nodeOf && nodeOf[x] == n && y in Succ(g, x);
    ReachEdge(g, x, y);
    BelowFromReach(g, topo, nodeOf, rep, x, y);
    ReachDescends(g, topo, nodeOf, rep, x, y);
    assert nodeOf[rep[n]] == nodeOf[x];
  }

  /** `m` is in the upward closure recorded for `n` by its parents so far. */
  ghost predicate Via(g: Graph<Element>, rep: map<nat, Element>, n: nat, par: set<nat>, m: nat) {
    m == n || exists p :: p in par && Below(g, rep, p, m)
  }

  /** The inner loop: `par` are covers, `R` is their upward closure, successors
      outside `pending` are already in `R`. */
  ghost predicate InnerInv(g: Graph<Element>, topo: map<Element, int>, nodeOf: map<Element, nat>, rep: map<nat, Element>,
                           n: nat, par: set<nat>, R: set<nat>, pending: set<Element>)
  {
    && n in rep
    && (forall m {:trigger m in R} {:trigger Via(g, rep, n, par, m)} :: m in R <==> Via(g, rep, n, par, m))
    && (forall p :: p in par ==> CoverOf(g, rep, n, p))
    && (forall y :: y in pending ==> IsSuccessor(g, nodeOf, n, y))
    && (forall y {:trigger IsSuccessor(g, nodeOf, n, y)} :: y in g && y in nodeOf && IsSuccessor(g, nodeOf, n, y) && y !in pending ==>
          nodeOf[y] in R)
  }

  /** `y` is a highest pending successor in the topological order. */
  predicate IsMax(topo: map<Element, int>, pending: set<Element>, y: Element) {
    y in pending && y in topo && forall z :: z in pending && z in topo ==> topo[z] <= topo[y]
  }

  /** A highest pending successor that is not reachable yet is a cover. */
  lemma NextIsCover(g: Graph<Element>, topo: map<Element, int>, nodeOf: map<Element, nat>, rep: map<nat, Element>,
                    n: nat, par: set<nat>, R: set<nat>, pending: set<Element>, y: Element)
    requires Condensation(g, topo, nodeOf, rep) && InnerInv(g, topo, nodeOf, rep, n, par, R, pending)
    requires IsMax(topo, pending, y) && y in g && nodeOf[y] !in R
    ensures CoverOf(g, rep, n, nodeOf[y])
  {
    var m := nodeOf[y];
    SuccessorBelow(g, topo, nodeOf, rep, n, y);
    assert Via(g, rep, n, par, n);
    forall q: nat | q != n && q != m && Below(g, rep, n, q) ensures !Below(g, rep, q, m) {
      if Below(g, rep, q, m) {
        NoneBetween(g, topo, nodeOf, rep, n, par, R, pending, y, q);
      }
    }
  }

  lemma NoneBetween(g: Graph<Element>, topo: map<Element, int>, nodeOf: map<Element, nat>, rep: map<nat, Element>,
                    n: nat, par: set<nat>, R: set<nat>, pending: set<Element>, y: Element, q: nat)
    requires Condensation(g, topo, nodeOf, rep) && InnerInv(g, topo, nodeOf, rep, n, par, R, pending)
    requires IsMax(topo, pending, y) && y in g
    requires q != n && q != nodeOf[y] && Below(g, rep, n, q) && Below(g, rep, q, nodeOf[y])
    ensures nodeOf[y] in R
  {
    var m := nodeOf[y];
    var z := StepOut(g, topo, nodeOf, rep, n, q);
    ReachDescends(g, topo, nodeOf, rep, rep[q], rep[m]);
    ReachDescends(g, topo, nodeOf, rep, rep[nodeOf[z]], rep[q]);
    assert nodeOf[rep[nodeOf[z]]] == nodeOf[z] && nodeOf[rep[m]] == m && nodeOf[rep[q]] == q;
    assert topo[y] < topo[z];
    assert nodeOf[z] in R;
    var p :| p in par && Below(g, rep, p, nodeOf[z]);
    BelowTrans(g, rep, p, nodeOf[z], q);
    BelowTrans(g, rep, p, q, m);
    assert Via(g, rep, n, par, m);
  }

  /** Attaching a cover extends the closure by everything above it. */
  lemma AttachInv(g: Graph<Element>, topo: map<Element, int>, nodeOf: map<Element, nat>, rep: map<nat, Element>,
                  n: nat, par: set<nat>, R: set<nat>, pending: set<Element>, y: Element, above: set<nat>)
    requires Condensation(g, topo, nodeOf, rep) && InnerInv(g, topo, nodeOf, rep, n, par, R, pending)
    requires IsMax(topo, pending, y) && y in g && nodeOf[y] !in R
    requires forall m :: m in above <==> Below(g, rep, nodeOf[y], m)
    ensures InnerInv(g, topo, nodeOf, rep, n, par + {nodeOf[y]}, R + {nodeOf[y]} + above, pending - {y})
  {
    var m := nodeOf[y];
    var par', R' := par + {m}, R + {m} + above;
    NextIsCover(g, topo, nodeOf, rep, n, par, R, pending, y);
    ReachRefl(g, rep[m]);
    forall k: nat ensures k in R' <==> Via(g, rep, n, par', k) {
      assert k in R <==> Via(g, rep, n, par, k);
      if Via(g, rep, n, par', k) && k != n {
        var p :| p in par' && Below(g, rep, p, k);
      }
      if k in R' && k !in R {
        assert m in par' && Below(g, rep, m, k);
      }
    }
  }

  lemma DropInv(g: Graph<Element>, topo: map<Element, int>, nodeOf: map<Element, nat>, rep: map<nat, Element>,
                n: nat, par: set<nat>, R: set<nat>, pending: set<Element>, y: Element)
    requires Condensation(g, topo, nodeOf, rep) && InnerInv(g, topo, nodeOf, rep, n, par, R, pending)
    requires y in g && nodeOf[y] in R
    ensures InnerInv(g, topo, nodeOf, rep, n, par, R, pending - {y})
  {
  }

  /** Once no successor is pending, the closure and the covers are complete. */
  lemma InnerDone(g: Graph<Element>, topo: map<Element, int>, nodeOf: map<Element, nat>, rep: map<nat, Element>,
                  n: nat, par: set<nat>, R: set<nat>)
    requires Condensation(g, topo, nodeOf, rep) && InnerInv(g, topo, nodeOf, rep, n, par, R, {})
    ensures forall m :: m in R <==> Below(g, rep, n, m)
    ensures forall m :: m in par <==> CoverOf(g, rep, n, m)
    ensures forall m :: Below(g, rep, n, m) ==> Via(g, rep, n, par, m)
  {
    ReachRefl(g, rep[n]);
    forall m: nat ensures m in R <==> Below(g, rep, n, m) {
      if Below(g, rep, n, m) && m != n {
        var y := StepOut(g, topo, nodeOf, rep, n, m);
        assert nodeOf[y] in R;
        var p :| p in par && Below(g, rep, p, nodeOf[y]);
        BelowTrans(g, rep, p, nodeOf[y], m);
        assert Via(g, rep, n, par, m);
      }
      if m in R && m != n {
        assert Via(g, rep, n, par, m);
        var p :| p in par && Below(g, rep, p, m);
        BelowTrans(g, rep, n, p, m);
      }
      assert Via(g, rep, n, par, n);
    }
    forall m: nat | CoverOf(g, rep, n, m) ensures m in par {
      assert Via(g, rep, n, par, m);
      var p :| p in par && Below(g, rep, p, m);
    }
  }

  lemma MaxExists(topo: map<Element, int>, pending: set<Element>)
    requires pending != {} && pending <= topo.Keys
    ensures exists y :: IsMax(topo, pending, y)
    decreases |pending|
  {
    var y :| y in pending;
    if pending == {y} {
      assert IsMax(topo, pending, y);
    } else {
      MaxExists(topo, pending - {y});
      var z :| IsMax(topo, pending - {y}, z);
      assert IsMax(topo, pending, if topo[y] <= topo[z] then z else y);
    }
  }

  /** The closures recorded for nodes below position `k` of the order. */
  ghost predicate ClosuresOk(g: Graph<Element>, topo: map<Element, int>, rep: map<nat, Element>, k: int, reachableFrom: map<nat, set<nat>>) {
    && (forall n :: n in rep && rep[n] in topo && topo[rep[n]] < k ==> n in reachableFrom)
    && (forall n, m {:trigger m in reachableFrom[n]} :: n in reachableFrom ==>
          (m in reachableFrom[n] <==> Below(g, rep, n, m)))
  }

  /** One round of the reduction: walk the successors of node `n` from the highest
      in the topological order down, attaching those not reachable yet. */
  method ReduceNode(ghost g: Graph<Element>, topo: map<Element, int>, nodeOf: map<Element, nat>, ghost rep: map<nat, Element>,
                    n: nat, successors: set<Element>, reachableFrom: map<nat, set<nat>>)
    returns (par: set<nat>, R: set<nat>)
    requires Condensation(g, topo, nodeOf, rep) && n in rep
    requires forall y :: y in successors <==> y in g && IsSuccessor(g, nodeOf, n, y)
    requires ClosuresOk(g, topo, rep, topo[rep[n]], reachableFrom)
    ensures forall m :: m in R <==> Below(g, rep, n, m)
    ensures forall m :: m in par <==> CoverOf(g, rep, n, m)
    ensures forall m :: Below(g, rep, n, m) ==> Via(g, rep, n, par, m)
  {
    par, R := {}, {n};
    var pending := successors;
    while pending != {}
      invariant pending <= successors
      invariant InnerInv(g, topo, nodeOf, rep, n, par, R, pending)
    {
      MaxExists(topo, pending);
      var y :| y in pending && IsMax(topo, pending, y);
      var m := nodeOf[y];
      if m !in R {
        SuccessorBelow(g, topo, nodeOf, rep, n, y);
        assert Via(g, rep, n, par, n);
        assert nodeOf[rep[m]] == m;
        AttachInv(g, topo, nodeOf, rep, n, par, R, pending, y, reachableFrom[m]);
        par := par + {m};
        R := R + {m} + reachableFrom[m];
      } else {
        DropInv(g, topo, nodeOf, rep, n, par, R, pending, y);
      }
      pending := pending - {y};
    }
    InnerDone(g, topo, nodeOf, rep, n, par, R);
  }
}
