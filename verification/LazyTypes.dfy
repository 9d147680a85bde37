/** `InstanceManager::get_types`: types decided on demand, bottom up, testing only
    the nodes where the individual is marked as possible. */
module LazyTypes {
  import opened Elements
  import opened Digraph
  import opened Hierarchies
  import opened BottomUp
  import opened Instances
  import opened InstanceQueries

  /** The individual is known or possible at `m`. */
  ghost predicate Marked(c: Cache, m: nat, i: Individual) {
    i in KnownAt(c, m) || i in PossibleAt(c, m)
  }

  ghost predicate MarkedBelow(h: Hierarchy, c: Cache, n: nat, i: Individual) {
    exists m: nat :: Reach(Up(h), m, n) && Marked(c, m, i)
  }

  /** Instances are inherited by parents, and nothing false is known. */
  ghost predicate TruthFor(h: Hierarchy, truth: map<nat, set<Individual>>, c: Cache) {
    && truth.Keys == Up(h).Keys
    && (forall n: nat, q: nat {:trigger q in h.nodes[n].parents} :: n < |h.nodes| && q in h.nodes[n].parents ==> q in truth && truth[n] <= truth[q])
    && (forall n: nat :: n in c ==> n in truth && c[n].known <= truth[n])
  }

  /** `d` adds marks for `i` only, and only where a mark was below already. */
  ghost predicate Grown(h: Hierarchy, c: Cache, d: Cache, i: Individual) {
    && (forall n: nat, j {:trigger Marked(d, n, j)} :: Marked(c, n, j) ==> Marked(d, n, j))
    && (forall n: nat, j {:trigger Marked(d, n, j)} :: Marked(d, n, j) ==> Marked(c, n, j) || (j == i && MarkedBelow(h, c, n, i)))
  }

  /** What is decided about a node once it has been visited. */
  ghost predicate Decided(h: Hierarchy, truth: map<nat, set<Individual>>, c0: Cache, c: Cache, types: set<nat>, i: Individual, n: nat)
    requires n < |h.nodes|
  {
    && (n in types <==> n in truth && i in truth[n] && MarkedBelow(h, c0, n, i))
    && (n !in types && MarkedBelow(h, c0, n, i) ==> forall q: nat :: q in h.nodes[n].parents ==> Marked(c, q, i))
  }

  ghost predicate TypesInv(h: Hierarchy, truth: map<nat, set<Individual>>, c0: Cache, c: Cache, types: set<nat>, i: Individual, done: set<nat>) {
    && TruthFor(h, truth, c) && Grown(h, c0, c, i) && types <= done
    && forall n: nat {:trigger n in done} :: n in done ==> n < |h.nodes| && Decided(h, truth, c0, c, types, i, n)
  }

  /** With no type among its children, a node is marked exactly when something at
      or below it was. */
  lemma MarkedHere(h: Hierarchy, truth: map<nat, set<Individual>>, c0: Cache, c: Cache, types: set<nat>, i: Individual, done: set<nat>, n: nat)
    requires Linked(h.nodes) && TypesInv(h, truth, c0, c, types, i, done) && n < |h.nodes|
    requires forall k: nat :: k in h.nodes[n].children ==> k in done && k !in types
    ensures MarkedBelow(h, c0, n, i) <==> Marked(c, n, i)
  {
    if MarkedBelow(h, c0, n, i) {
      var m: nat :| Reach(Up(h), m, n) && Marked(c0, m, i);
      if m == n {
        assert Marked(c, n, i);
      } else {
        var k := LastStep(h, m, n);
        assert MarkedBelow(h, c0, k, i);
        assert k in done && Decided(h, truth, c0, c, types, i, k);
        assert n in h.nodes[k].parents;
      }
    }
    if Marked(c, n, i) {
      ReachRefl(Up(h), n);
    }
  }

  /** A node above a type is a type. */
  lemma TypeAbove(h: Hierarchy, truth: map<nat, set<Individual>>, c0: Cache, c: Cache, types: set<nat>, i: Individual, done: set<nat>, n: nat, k: nat)
    requires Linked(h.nodes) && TypesInv(h, truth, c0, c, types, i, done) && n < |h.nodes| && k in h.nodes[n].children && k in types
    ensures n in truth && i in truth[n] && MarkedBelow(h, c0, n, i)
  {
    ChildReaches(h, n, k);
    assert k in done && Decided(h, truth, c0, c, types, i, k);
    assert n in h.nodes[k].parents;
    var m: nat :| Reach(Up(h), m, k) && Marked(c0, m, i);
    ReachTrans(Up(h), m, k, n);
  }

  function AddPossible(c: Cache, q: nat, i: Individual): Cache {
    c[q := ConceptElement(KnownAt(c, q), PossibleAt(c, q) + {i})]
  }

  function SetToKnown(c: Cache, q: nat, i: Individual): Cache {
    c[q := ConceptElement(KnownAt(c, q) + {i}, PossibleAt(c, q) - {i})]
  }

  /** `d` is `c` with `i` possible at `qs` as well. */
  ghost predicate PushedTo(c: Cache, d: Cache, qs: set<nat>, i: Individual) {
    && c.Keys <= d.Keys <= c.Keys + qs
    && (forall n: nat {:trigger KnownAt(d, n)} :: KnownAt(d, n) == KnownAt(c, n))
    && (forall n: nat {:trigger PossibleAt(d, n)} :: PossibleAt(d, n) == PossibleAt(c, n) + if n in qs then {i} else {})
  }

  method PushPossible(c: Cache, parents: set<nat>, i: Individual) returns (d: Cache)
    ensures PushedTo(c, d, parents, i)
  {
    d := c;
    var todo := parents;
    while todo != {}
      invariant todo <= parents && PushedTo(c, d, parents - todo, i)
    {
      var q: nat :| q in todo;
      ghost var before := d;
      d := AddPossible(d, q, i);
      forall n: nat ensures KnownAt(d, n) == KnownAt(before, n) && PossibleAt(d, n) == PossibleAt(before, n) + if n == q then {i} else {} {
      }
      todo := todo - {q};
    }
    assert parents - todo == parents;
  }

  // --- one visit -----------------------------------------------------------------------------

  /** Growing marks further keeps what is decided. */
  lemma DecidedStays(h: Hierarchy, truth: map<nat, set<Individual>>, c0: Cache, c: Cache, d: Cache, types: set<nat>, types': set<nat>, i: Individual, n: nat)
    requires n < |h.nodes| && Decided(h, truth, c0, c, types, i, n) && (n in types' <==> n in types)
    requires forall q: nat :: q in h.nodes[n].parents && Marked(c, q, i) ==> Marked(d, q, i)
    ensures Decided(h, truth, c0, d, types', i, n)
  {
  }

  lemma VisitTypeAbove(h: Hierarchy, truth: map<nat, set<Individual>>, c0: Cache, c: Cache, types: set<nat>, i: Individual, done: set<nat>, n: nat, k: nat)
    requires Linked(h.nodes) && TypesInv(h, truth, c0, c, types, i, done) && n < |h.nodes| && n !in done && k in h.nodes[n].children && k in types
    ensures TypesInv(h, truth, c0, c, types + {n}, i, done + {n})
  {
    TypeAbove(h, truth, c0, c, types, i, done, n, k);
    forall x: nat | x in done + {n} ensures x < |h.nodes| && Decided(h, truth, c0, c, types + {n}, i, x) {
      if x != n {
        DecidedStays(h, truth, c0, c, c, types, types + {n}, i, x);
      }
    }
  }

  /** A refuted individual is pushed to the parents. */
  lemma VisitRefuted(h: Hierarchy, truth: map<nat, set<Individual>>, c0: Cache, c: Cache, d: Cache, types: set<nat>, i: Individual, done: set<nat>, n: nat)
    requires Linked(h.nodes) && TypesInv(h, truth, c0, c, types, i, done) && n < |h.nodes| && n !in done
    requires forall k: nat :: k in h.nodes[n].children ==> k in done && k !in types
    requires Marked(c, n, i) && n in truth && i !in truth[n] && PushedTo(c, d, h.nodes[n].parents, i)
    ensures TypesInv(h, truth, c0, d, types, i, done + {n})
  {
    MarkedHere(h, truth, c0, c, types, i, done, n);
    assert TruthFor(h, truth, d) by {
      forall m: nat | m in d ensures m in truth && d[m].known <= truth[m] {
        assert KnownAt(d, m) == KnownAt(c, m);
        if m !in c {
          assert m in h.nodes[n].parents;
        }
      }
    }
    PushGrows(h, c0, c, d, i, n);
    forall x: nat | x in done + {n} ensures x < |h.nodes| && Decided(h, truth, c0, d, types, i, x) {
      if x != n {
        DecidedStays(h, truth, c0, c, d, types, types, i, x);
      }
    }
  }

  lemma PushGrows(h: Hierarchy, c0: Cache, c: Cache, d: Cache, i: Individual, n: nat)
    requires Linked(h.nodes) && Grown(h, c0, c, i) && n < |h.nodes| && MarkedBelow(h, c0, n, i) && PushedTo(c, d, h.nodes[n].parents, i)
    ensures Grown(h, c0, d, i)
    ensures forall q: nat, j {:trigger Marked(d, q, j)} :: Marked(d, q, j) <==> Marked(c, q, j) || (q in h.nodes[n].parents && j == i)
  {
    forall q: nat | q in h.nodes[n].parents ensures MarkedBelow(h, c0, q, i) {
      var m: nat :| Reach(Up(h), m, n) && Marked(c0, m, i);
      assert q in Succ(Up(h), n);
      ReachSnoc(Up(h), m, n, q);
    }
    forall q: nat, j ensures Marked(d, q, j) <==> Marked(c, q, j) || (q in h.nodes[n].parents && j == i) {
      assert KnownAt(d, q) == KnownAt(c, q);
      assert PossibleAt(d, q) == PossibleAt(c, q) + if q in h.nodes[n].parents then {i} else {};
    }
  }

  /** A confirmed or already known individual makes the node a type. */
  lemma VisitKnown(h: Hierarchy, truth: map<nat, set<Individual>>, c0: Cache, c: Cache, d: Cache, types: set<nat>, i: Individual, done: set<nat>, n: nat)
    requires Linked(h.nodes) && TypesInv(h, truth, c0, c, types, i, done) && n < |h.nodes| && n !in done
    requires forall k: nat :: k in h.nodes[n].children ==> k in done && k !in types
    requires Marked(c, n, i) && n in truth && i in truth[n] && (d == c || d == SetToKnown(c, n, i))
    ensures TypesInv(h, truth, c0, d, types + {n}, i, done + {n})
  {
    MarkedHere(h, truth, c0, c, types, i, done, n);
    forall q: nat, j ensures Marked(d, q, j) <==> Marked(c, q, j) {
    }
    assert TruthFor(h, truth, d);
    forall x: nat | x in done + {n} ensures x < |h.nodes| && Decided(h, truth, c0, d, types + {n}, i, x) {
      if x != n {
        DecidedStays(h, truth, c0, c, d, types, types + {n}, i, x);
      }
    }
  }

  lemma VisitUnmarked(h: Hierarchy, truth: map<nat, set<Individual>>, c0: Cache, c: Cache, types: set<nat>, i: Individual, done: set<nat>, n: nat)
    requires Linked(h.nodes) && TypesInv(h, truth, c0, c, types, i, done) && n < |h.nodes| && n !in done
    requires forall k: nat :: k in h.nodes[n].children ==> k in done && k !in types
    requires !Marked(c, n, i)
    ensures TypesInv(h, truth, c0, c, types, i, done + {n})
  {
    MarkedHere(h, truth, c0, c, types, i, done, n);
    forall x: nat | x in done + {n} ensures x < |h.nodes| && Decided(h, truth, c0, c, types, i, x) {
      if x != n {
        DecidedStays(h, truth, c0, c, c, types, types, i, x);
      }
    }
  }

  /** The oracle for one individual; its answers may depend on a call number. */
  type TypeOracle = (nat, Element) -> bool

  /** The oracle answers the truth about `i`. */
  ghost predicate OracleFor(h: Hierarchy, truth: map<nat, set<Individual>>, i: Individual, isInstance: TypeOracle) {
    truth.Keys == Up(h).Keys &&
    forall t: nat, n: nat {:trigger isInstance(t, h.nodes[n].representative)} ::
      n < |h.nodes| ==> (isInstance(t, h.nodes[n].representative) <==> i in truth[n])
  }

  /** One iteration of `get_types`. */
  method VisitNode(h: Hierarchy, ghost truth: map<nat, set<Individual>>, ghost c0: Cache, c: Cache, types: set<nat>, i: Individual, isInstance: TypeOracle,
                   ghost done: set<nat>, n: nat, tick: nat)
    returns (d: Cache, types': set<nat>, tick': nat)
    requires Linked(h.nodes) && OracleFor(h, truth, i, isInstance) && TypesInv(h, truth, c0, c, types, i, done)
    requires n < |h.nodes| && n !in done && forall k: nat :: k in h.nodes[n].children ==> k in done
    ensures TypesInv(h, truth, c0, d, types', i, done + {n})
  {
    hide TypesInv, PushedTo, Linked;
    d, types', tick' := c, types, tick;
    if h.nodes[n].children * types != {} {
      ghost var k :| k in h.nodes[n].children * types;
      VisitTypeAbove(h, truth, c0, c, types, i, done, n, k);
      return c, types + {n}, tick;
    }
    Disjoint(h.nodes[n].children, types);
    KnownIsTrue(h, truth, c0, c, types, i, done, n);
    if i in PossibleAt(c, n) {
      tick' := tick + 1;
      if isInstance(tick, h.nodes[n].representative) {
        d := SetToKnown(c, n, i);
        VisitKnown(h, truth, c0, c, d, types, i, done, n);
      } else {
        d := PushPossible(c, h.nodes[n].parents, i);
        VisitRefuted(h, truth, c0, c, d, types, i, done, n);
        KnownIsTrue(h, truth, c0, d, types, i, done + {n}, n);
      }
    } else if i in KnownAt(c, n) {
      VisitKnown(h, truth, c0, c, c, types, i, done, n);
    } else {
      VisitUnmarked(h, truth, c0, c, types, i, done, n);
    }
    if i in KnownAt(d, n) {
      types' := types' + {n};
    }
  }

  lemma Disjoint(a: set<nat>, b: set<nat>)
    requires a * b == {}
    ensures forall k: nat :: k in a ==> k !in b
  {
    forall k: nat | k in a ensures k !in b {
      assert k !in a * b;
    }
  }

  lemma KnownIsTrue(h: Hierarchy, truth: map<nat, set<Individual>>, c0: Cache, c: Cache, types: set<nat>, i: Individual, done: set<nat>, n: nat)
    requires TypesInv(h, truth, c0, c, types, i, done)
    ensures i in KnownAt(c, n) ==> n in truth && i in truth[n]
  {
  }

  class InstanceManager {
    var conceptToElement: Cache
    var tick: nat

    constructor ()
      ensures conceptToElement == map[]
    {
      conceptToElement, tick := map[], 0;
    }

    /** `get_types`: exactly the true types at or above a mark (so all true types if
        and only if each has a mark at or below it), or the minimal ones of these. */
    method GetTypes(h: Hierarchy, ghost truth: map<nat, set<Individual>>, i: Individual, direct: bool, isInstance: TypeOracle)
      returns (types: set<nat>)
      requires Linked(h.nodes) && Acyclic(h) && OracleFor(h, truth, i, isInstance) && TruthFor(h, truth, conceptToElement)
      modifies this
      ensures TruthFor(h, truth, conceptToElement) && Grown(h, old(conceptToElement), conceptToElement, i)
      ensures !direct ==> forall n: nat :: n in types <==> IsType(h, truth, old(conceptToElement), i, n)
      ensures direct ==> forall n: nat :: n in types <==> IsMinimalType(h, truth, old(conceptToElement), i, n)
    {
      hide TypesInv, ChildrenFirst, Linked, Acyclic, OracleFor, TruthFor, Grown, IsMinimalType, IsType;
      ghost var c0 := conceptToElement;
      var order := NodesBottomUp(h);
      types := {};
      TypesStart(h, truth, c0, i);
      ghost var done: set<nat> := {};
      for k := 0 to |order|
        invariant TypesInv(h, truth, c0, conceptToElement, types, i, done)
        invariant forall n: nat :: n in done <==> n in order[..k]
      {
        OrderFacts(h, order, k);
        var d;
        d, types, tick := VisitNode(h, truth, c0, conceptToElement, types, i, isInstance, done, order[k], tick);
        conceptToElement := d;
        done := done + {order[k]};
        assert order[..k + 1] == order[..k] + [order[k]];
      }
      assert order[..|order|] == order;
      TypesDone(h, truth, c0, conceptToElement, types, i, done);
      if direct {
        forall n: nat ensures n in MinimalNodes(h, types) <==> IsMinimalType(h, truth, c0, i, n) {
          MinimalTypes(h, truth, c0, types, i, n);
        }
        types := MinimalNodes(h, types);
      }
    }
  }

  ghost predicate IsType(h: Hierarchy, truth: map<nat, set<Individual>>, c: Cache, i: Individual, n: nat) {
    n in truth && i in truth[n] && MarkedBelow(h, c, n, i)
  }

  ghost predicate IsMinimalType(h: Hierarchy, truth: map<nat, set<Individual>>, c: Cache, i: Individual, n: nat) {
    IsType(h, truth, c, i, n) && forall m: nat {:trigger Reach(Up(h), m, n)} :: m != n && Reach(Up(h), m, n) ==> !IsType(h, truth, c, i, m)
  }

  /** Everything true of `i` is a type that `get_types` finds. */
  ghost predicate FindsAll(h: Hierarchy, truth: map<nat, set<Individual>>, c: Cache, i: Individual) {
    forall n: nat {:trigger IsType(h, truth, c, i, n)} :: n in truth && i in truth[n] ==> IsType(h, truth, c, i, n)
  }

  /** The least truth in which the knowns of `c` hold and `i` is an instance of `n`. */
  ghost function LeastTruth(h: Hierarchy, c: Cache, i: Individual, n: nat): map<nat, set<Individual>> {
    map m | m in Up(h) :: (set k, j | k in c && j in c[k].known && Reach(Up(h), k, m) :: j) + if Reach(Up(h), n, m) then {i} else {}
  }

  lemma LeastTruthOk(h: Hierarchy, c: Cache, i: Individual, n: nat)
    requires Linked(h.nodes) && c.Keys <= Up(h).Keys && n < |h.nodes|
    ensures TruthFor(h, LeastTruth(h, c, i, n), c) && i in LeastTruth(h, c, i, n)[n]
  {
    var truth := LeastTruth(h, c, i, n);
    ReachRefl(Up(h), n);
    forall m: nat, q: nat | m < |h.nodes| && q in h.nodes[m].parents ensures q in truth && truth[m] <= truth[q] {
      assert q in Succ(Up(h), m);
      forall j | j in truth[m] ensures j in truth[q] {
        if j == i && Reach(Up(h), n, m) {
          ReachSnoc(Up(h), n, m, q);
        } else {
          var k: nat :| k in c && j in c[k].known && Reach(Up(h), k, m);
          ReachSnoc(Up(h), k, m, q);
        }
      }
    }
    forall m: nat | m in c ensures m in truth && c[m].known <= truth[m] {
      ReachRefl(Up(h), m);
    }
  }

  /** A truth of a consistent ontology: bottom has no instances. */
  ghost predicate ConsistentTruth(h: Hierarchy, truth: map<nat, set<Individual>>, c: Cache) {
    TruthFor(h, truth, c) && h.bottom in truth && truth[h.bottom] == {}
  }

  /** Every node but bottom has a mark of `i` at or below it. */
  ghost predicate AllMarked(h: Hierarchy, c: Cache, i: Individual) {
    forall n: nat {:trigger MarkedBelow(h, c, n, i)} :: n < |h.nodes| && n != h.bottom ==> MarkedBelow(h, c, n, i)
  }

  lemma LeastTruthConsistent(h: Hierarchy, c: Cache, i: Individual, n: nat)
    requires Proper(h) && c.Keys <= Up(h).Keys && KnownAt(c, h.bottom) == {} && n < |h.nodes| && n != h.bottom
    ensures ConsistentTruth(h, LeastTruth(h, c, i, n), c) && i in LeastTruth(h, c, i, n)[n]
  {
    LeastTruthOk(h, c, i, n);
    forall m: nat | Reach(Up(h), m, h.bottom) ensures m == h.bottom {
      OnlyBottomBelow(h, m);
    }
    assert LeastTruth(h, c, i, n)[h.bottom] == {};
  }

  /** The seeds find all types whatever is consistently true, if and only if every
      node but bottom has a mark of `i` at or below it. */
  lemma SeedsSuffice(h: Hierarchy, c: Cache, i: Individual)
    requires Proper(h) && c.Keys <= Up(h).Keys && KnownAt(c, h.bottom) == {}
    ensures AllMarked(h, c, i) <==>
      (forall truth: map<nat, set<Individual>> {:trigger ConsistentTruth(h, truth, c)} :: ConsistentTruth(h, truth, c) ==> FindsAll(h, truth, c, i))
  {
    if forall truth: map<nat, set<Individual>> {:trigger ConsistentTruth(h, truth, c)} :: ConsistentTruth(h, truth, c) ==> FindsAll(h, truth, c, i) {
      forall n: nat | n < |h.nodes| && n != h.bottom ensures MarkedBelow(h, c, n, i) {
        LeastTruthConsistent(h, c, i, n);
        assert FindsAll(h, LeastTruth(h, c, i, n), c, i);
        assert IsType(h, LeastTruth(h, c, i, n), c, i, n);
      }
    }
  }

  /** A node with nothing but bottom below it. */
  predicate Leaf(h: Hierarchy, n: nat) {
    n < |h.nodes| && n != h.bottom && h.nodes[n].children <= {h.bottom}
  }

  lemma {:induction false} LeafBelow(h: Hierarchy, n: nat) returns (m: nat)
    requires Proper(h) && n < |h.nodes| && n != h.bottom
    ensures Leaf(h, m) && Reach(Up(h), m, n)
    decreases Below(h, n)
  {
    if Leaf(h, n) {
      m := n;
      ReachRefl(Up(h), n);
    } else {
      var k: nat :| k in h.nodes[n].children && k != h.bottom;
      ChildReaches(h, n, k);
      ChildBelowLess(h, n, k);
      m := LeafBelow(h, k);
      ReachTrans(Up(h), m, k, n);
    }
  }

  /** For that it is enough, and needed, that `i` is marked at every leaf; a mark at
      bottom, which the read-off never makes, would do as well. */
  lemma LeavesDecide(h: Hierarchy, c: Cache, i: Individual)
    requires Proper(h) && forall n: nat {:trigger Reach(Up(h), h.bottom, n)} :: n < |h.nodes| ==> Reach(Up(h), h.bottom, n)
    ensures AllMarked(h, c, i) <==> Marked(c, h.bottom, i) || forall n: nat :: Leaf(h, n) ==> Marked(c, n, i)
  {
    if Marked(c, h.bottom, i) {
      forall n: nat | n < |h.nodes| ensures MarkedBelow(h, c, n, i) {
        assert Reach(Up(h), h.bottom, n);
      }
    } else {
      forall n: nat | Leaf(h, n) ensures MarkedBelow(h, c, n, i) <==> Marked(c, n, i) {
        MarkedLeaf(h, c, i, n);
      }
      if forall n: nat :: Leaf(h, n) ==> Marked(c, n, i) {
        forall n: nat | n < |h.nodes| && n != h.bottom ensures MarkedBelow(h, c, n, i) {
          var m := LeafBelow(h, n);
        }
      }
    }
  }

  lemma MarkedLeaf(h: Hierarchy, c: Cache, i: Individual, n: nat)
    requires Proper(h) && Leaf(h, n) && !Marked(c, h.bottom, i)
    ensures MarkedBelow(h, c, n, i) <==> Marked(c, n, i)
  {
    ReachRefl(Up(h), n);
    forall m: nat | Reach(Up(h), m, n) ensures m == n || m == h.bottom {
      if m != n {
        var k := LastStep(h, m, n);
        OnlyBottomBelow(h, m);
      }
    }
  }

  lemma TypesStart(h: Hierarchy, truth: map<nat, set<Individual>>, c: Cache, i: Individual)
    requires TruthFor(h, truth, c)
    ensures TypesInv(h, truth, c, c, {}, i, {})
  {
  }

  lemma OrderFacts(h: Hierarchy, order: seq<nat>, k: nat)
    requires ChildrenFirst(h, order) && k < |order|
    ensures order[k] < |h.nodes| && order[k] !in order[..k] && forall c: nat :: c in h.nodes[order[k]].children ==> c in order[..k]
  {
  }

  lemma TypesDone(h: Hierarchy, truth: map<nat, set<Individual>>, c0: Cache, c: Cache, types: set<nat>, i: Individual, done: set<nat>)
    requires TypesInv(h, truth, c0, c, types, i, done) && forall n: nat :: n < |h.nodes| ==> n in done
    ensures TruthFor(h, truth, c) && Grown(h, c0, c, i)
    ensures forall n: nat :: n in types <==> IsType(h, truth, c0, i, n)
    ensures forall n: nat :: n in types ==> n < |h.nodes|
  {
    forall n: nat ensures n in types <==> IsType(h, truth, c0, i, n) {
      if n < |h.nodes| {
        assert n in done && Decided(h, truth, c0, c, types, i, n);
      }
    }
  }

  /** Types are inherited, so a node without a child among them is minimal. */
  lemma MinimalTypes(h: Hierarchy, truth: map<nat, set<Individual>>, c: Cache, types: set<nat>, i: Individual, n: nat)
    requires Linked(h.nodes) && Acyclic(h) && TruthFor(h, truth, c) && (forall m: nat :: m in types <==> IsType(h, truth, c, i, m))
    requires forall m: nat :: m in types ==> m < |h.nodes|
    ensures n in MinimalNodes(h, types) <==> IsMinimalType(h, truth, c, i, n)
  {
    if n in types {
      forall m: nat | m != n && Reach(Up(h), m, n) && m in types ensures h.nodes[n].children * types != {} {
        var k := LastStep(h, m, n);
        TypeInherited(h, truth, c, i, m, k);
        assert k in h.nodes[n].children * types;
      }
      if h.nodes[n].children * types != {} {
        var k: nat :| k in h.nodes[n].children * types;
        ChildReaches(h, n, k);
        assert k != n;
      }
    }
  }

  lemma TypeInherited(h: Hierarchy, truth: map<nat, set<Individual>>, c: Cache, i: Individual, m: nat, n: nat)
    requires Linked(h.nodes) && TruthFor(h, truth, c) && IsType(h, truth, c, i, m) && Reach(Up(h), m, n)
    ensures IsType(h, truth, c, i, n)
  {
    var S := set q | q in truth && i in truth[q];
    ReachClosed(Up(h), S, m, n);
    var x: nat :| Reach(Up(h), x, m) && Marked(c, x, i);
    ReachTrans(Up(h), x, m, n);
  }
}
