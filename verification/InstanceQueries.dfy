/** Queries over a realised instance cache: `get_types_of`, `get_instances`. */
module InstanceQueries {
  import opened Elements
  import opened Digraph
  import opened Reachability
  import opened Hierarchies
  import opened BottomUp
  import opened Instances
  import opened InstanceManager

  /** No proper descendant of `n` has `i` as an instance. */
  ghost predicate MostSpecific(h: Hierarchy, truth: map<nat, set<Individual>>, n: nat, i: Individual) {
    n in truth && i in truth[n] && forall m: nat {:trigger Reach(Up(h), m, n)} :: m in truth && m != n && Reach(Up(h), m, n) ==> i !in truth[m]
  }

  /** What is known at or below `n` is known at `n` or at or below a child. */
  lemma KnownBelowStep(h: Hierarchy, c: Cache, n: nat, i: Individual)
    requires Linked(h.nodes) && n < |h.nodes|
    ensures KnownBelow(h, c, n, i) <==> i in KnownAt(c, n) || exists k :: k in h.nodes[n].children && KnownBelow(h, c, k, i)
  {
    if i in KnownAt(c, n) {
      ReachRefl(Up(h), n);
    } else if KnownBelow(h, c, n, i) {
      var m: nat :| Reach(Up(h), m, n) && i in KnownAt(c, m);
      var k := LastStep(h, m, n);
      assert KnownBelow(h, c, k, i);
    } else if exists k :: k in h.nodes[n].children && KnownBelow(h, c, k, i) {
      var k :| k in h.nodes[n].children && KnownBelow(h, c, k, i);
      var m: nat :| Reach(Up(h), m, k) && i in KnownAt(c, m);
      ChildReaches(h, n, k);
      ReachTrans(Up(h), m, k, n);
    }
  }

  lemma BottomKnowsNone(h: Hierarchy, truth: map<nat, set<Individual>>, individuals: set<Individual>, c: Cache, i: Individual)
    requires Proper(h) && InstancesOk(h, truth, individuals) && Realized(h, truth, c)
    ensures !KnownBelow(h, c, h.bottom, i)
  {
    assert i in truth[h.bottom] <==> KnownBelow(h, c, h.bottom, i);
  }

  /** A node is minimal among the types exactly when none of its children is a type. */
  lemma MinimalByChildren(h: Hierarchy, truth: map<nat, set<Individual>>, individuals: set<Individual>, n: nat, i: Individual)
    requires Proper(h) && InstancesOk(h, truth, individuals) && n < |h.nodes| && i in truth[n]
    ensures MostSpecific(h, truth, n, i) <==> forall k :: k in h.nodes[n].children ==> k !in truth || i !in truth[k]
  {
    if forall k :: k in h.nodes[n].children ==> k !in truth || i !in truth[k] {
      forall m: nat | m in truth && m != n && Reach(Up(h), m, n) ensures i !in truth[m] {
        var k := LastStep(h, m, n);
        TruthUp(h, truth, individuals, m, k);
      }
    } else {
      var k :| k in h.nodes[n].children && k in truth && i in truth[k];
      ChildReaches(h, n, k);
      assert k != n;
    }
  }

  /** `minimal_nodes`. */
  function MinimalNodes(h: Hierarchy, types: set<nat>): set<nat>
    requires forall n :: n in types ==> n < |h.nodes|
  {
    set n | n in types && h.nodes[n].children * types == {}
  }

  /** `get_types_of` after `realize`: exactly the true types, or the minimal ones. */
  method GetTypesOf(h: Hierarchy, c: Cache, ghost truth: map<nat, set<Individual>>, ghost individuals: set<Individual>, i: Individual, direct: bool)
    returns (types: set<nat>)
    requires Proper(h) && InstancesOk(h, truth, individuals) && Realized(h, truth, c)
    ensures !direct ==> forall n :: n in types <==> n in truth && i in truth[n]
    ensures direct ==> forall n: nat :: n in types <==> MostSpecific(h, truth, n, i)
  {
    var all := AllTypes(h, c, truth, i);
    if direct {
      types := MinimalNodes(h, all);
      forall n: nat ensures n in types <==> MostSpecific(h, truth, n, i) {
        if n in truth && i in truth[n] {
          MinimalByChildren(h, truth, individuals, n, i);
          assert forall k :: k in h.nodes[n].children && k in all ==> k in h.nodes[n].children * all;
        }
      }
    } else {
      types := all;
    }
  }

  /** The ancestors of all nodes that know `i`. */
  method AllTypes(h: Hierarchy, c: Cache, ghost truth: map<nat, set<Individual>>, i: Individual) returns (types: set<nat>)
    requires Linked(h.nodes) && Realized(h, truth, c)
    ensures forall n :: n in types <==> n in truth && i in truth[n]
  {
    types := {};
    var todo := c.Keys;
    while todo != {}
      invariant todo <= c.Keys && types <= Up(h).Keys && Closed(Up(h), types)
      invariant forall n: nat {:trigger n in types} :: n in types ==> KnownBelow(h, c, n, i)
      invariant forall m: nat, n: nat {:trigger Reach(Up(h), m, n)} :: m in c && m !in todo && i in KnownAt(c, m) && Reach(Up(h), m, n) ==> n in types
    {
      var node: nat :| node in todo;
      if i in c[node].known {
        if node !in types {
          var above := ReachableFrom(Up(h), node);
          forall n | n in above ensures n in Up(h) {
            AncestorsInRange(h, node, n);
          }
          forall n: nat | n in types + above ensures KnownBelow(h, c, n, i) {
            assert n in above ==> Reach(Up(h), node, n) && i in KnownAt(c, node);
          }
          forall n: nat, q: nat | n in above && q in Succ(Up(h), n) ensures q in above {
            ReachSnoc(Up(h), node, n, q);
          }
          types := types + above;
        } else {
          forall n: nat | Reach(Up(h), node, n) ensures n in types {
            ReachClosed(Up(h), types, node, n);
          }
        }
      }
      todo := todo - {node};
    }
    forall n: nat | n in truth && KnownBelow(h, c, n, i) ensures n in types {
      var m: nat :| Reach(Up(h), m, n) && i in KnownAt(c, m);
    }
  }

  /** `is_known_of_descendant`. */
  method IsKnownOfDescendant(h: Hierarchy, c: Cache, ghost truth: map<nat, set<Individual>>, ghost individuals: set<Individual>, n: nat, i: Individual)
    returns (r: bool)
    requires Proper(h) && InstancesOk(h, truth, individuals) && Realized(h, truth, c) && n < |h.nodes|
    ensures r <==> KnownBelow(h, c, n, i)
    decreases Below(h, n)
  {
    hide Proper, InstancesOk, Realized, KnownBelow;
    ProperLinks(h);
    if n == h.bottom {
      BottomKnowsNone(h, truth, individuals, c, i);
      return false;
    }
    KnownBelowStep(h, c, n, i);
    if i in KnownAt(c, n) {
      return true;
    }
    r := false;
    var todo := h.nodes[n].children;
    while todo != {} && !r
      invariant todo <= h.nodes[n].children
      invariant forall k :: k in h.nodes[n].children && k !in todo ==> !KnownBelow(h, c, k, i)
      invariant r ==> exists k :: k in h.nodes[n].children && KnownBelow(h, c, k, i)
      decreases !r, todo
    {
      var child: nat :| child in todo;
      ChildBelowLess(h, n, child);
      r := IsKnownOfDescendant(h, c, truth, individuals, child, i);
      if !r {
        todo := todo - {child};
      }
    }
  }

  /** `collect_instances`, not direct: everything known at or below `n`. */
  method CollectInstances(h: Hierarchy, c: Cache, ghost truth: map<nat, set<Individual>>, ghost individuals: set<Individual>, n: nat)
    returns (r: set<Individual>)
    requires Proper(h) && InstancesOk(h, truth, individuals) && Realized(h, truth, c) && n < |h.nodes|
    ensures forall i :: i in r <==> KnownBelow(h, c, n, i)
    decreases Below(h, n)
  {
    hide Proper, InstancesOk, Realized, KnownBelow;
    ProperLinks(h);
    r := KnownAt(c, n);
    var todo := h.nodes[n].children;
    while todo != {}
      invariant todo <= h.nodes[n].children
      invariant forall i :: i in r <==> i in KnownAt(c, n) || exists k :: k in h.nodes[n].children - todo && KnownBelow(h, c, k, i)
    {
      var child: nat :| child in todo;
      ghost var before := r;
      ChildBelowLess(h, n, child);
      if child != h.bottom {
        var more := CollectInstances(h, c, truth, individuals, child);
        r := r + more;
      } else {
        forall i ensures !KnownBelow(h, c, child, i) {
          BottomKnowsNone(h, truth, individuals, c, i);
        }
      }
      forall i ensures i in r <==> i in KnownAt(c, n) || exists k :: k in h.nodes[n].children - (todo - {child}) && KnownBelow(h, c, k, i) {
        CollectStep(h, c, n, todo, child, i);
      }
      todo := todo - {child};
    }
    assert h.nodes[n].children - {} == h.nodes[n].children;
    forall i ensures i in r <==> KnownBelow(h, c, n, i) {
      KnownBelowStep(h, c, n, i);
    }
  }

  lemma CollectStep(h: Hierarchy, c: Cache, n: nat, todo: set<nat>, child: nat, i: Individual)
    requires n < |h.nodes| && child in todo && todo <= h.nodes[n].children
    ensures (exists k :: k in h.nodes[n].children - (todo - {child}) && KnownBelow(h, c, k, i)) <==>
            (exists k :: k in h.nodes[n].children - todo && KnownBelow(h, c, k, i)) || KnownBelow(h, c, child, i)
  {
    if exists k :: k in h.nodes[n].children - (todo - {child}) && KnownBelow(h, c, k, i) {
      var k :| k in h.nodes[n].children - (todo - {child}) && KnownBelow(h, c, k, i);
      assert k == child || k in h.nodes[n].children - todo;
    }
    if KnownBelow(h, c, child, i) {
      assert child in h.nodes[n].children - (todo - {child});
    }
  }

  /** The direct instances: known here, and below no child. */
  method DirectInstances(h: Hierarchy, c: Cache, ghost truth: map<nat, set<Individual>>, ghost individuals: set<Individual>, n: nat)
    returns (r: set<Individual>)
    requires Proper(h) && InstancesOk(h, truth, individuals) && Realized(h, truth, c) && n < |h.nodes|
    ensures forall i :: i in r <==> MostSpecific(h, truth, n, i)
  {
    hide Proper, InstancesOk, Realized, KnownBelow, MostSpecific;
    r := {};
    var todo := KnownAt(c, n);
    while todo != {}
      invariant todo <= KnownAt(c, n)
      invariant forall i :: i in r <==> i in KnownAt(c, n) - todo && MostSpecific(h, truth, n, i)
    {
      var i :| i in todo;
      var below := KnownOfChild(h, c, truth, individuals, n, i);
      DirectIff(h, c, truth, individuals, n, i);
      if !below {
        r := r + {i};
      }
      todo := todo - {i};
    }
    forall i | MostSpecific(h, truth, n, i) ensures i in KnownAt(c, n) {
      DirectKnown(h, c, truth, individuals, n, i);
    }
  }

  method KnownOfChild(h: Hierarchy, c: Cache, ghost truth: map<nat, set<Individual>>, ghost individuals: set<Individual>, n: nat, i: Individual)
    returns (r: bool)
    requires Proper(h) && InstancesOk(h, truth, individuals) && Realized(h, truth, c) && n < |h.nodes|
    ensures r <==> exists k :: k in h.nodes[n].children && KnownBelow(h, c, k, i)
  {
    hide Proper, InstancesOk, Realized, KnownBelow;
    ProperLinks(h);
    r := false;
    var todo := h.nodes[n].children;
    while todo != {} && !r
      invariant todo <= h.nodes[n].children
      invariant forall k :: k in h.nodes[n].children && k !in todo ==> !KnownBelow(h, c, k, i)
      invariant r ==> exists k :: k in h.nodes[n].children && KnownBelow(h, c, k, i)
      decreases !r, todo
    {
      var child: nat :| child in todo;
      ChildBelowLess(h, n, child);
      r := IsKnownOfDescendant(h, c, truth, individuals, child, i);
      if !r {
        todo := todo - {child};
      }
    }
  }

  lemma ChildKnownIsTrue(h: Hierarchy, c: Cache, truth: map<nat, set<Individual>>, n: nat, i: Individual)
    requires Proper(h) && Realized(h, truth, c) && n < |h.nodes|
    ensures (exists k :: k in h.nodes[n].children && KnownBelow(h, c, k, i)) <==> exists k :: k in h.nodes[n].children && k in truth && i in truth[k]
  {
    forall k | k in h.nodes[n].children ensures k in truth && (i in truth[k] <==> KnownBelow(h, c, k, i)) {
      assert k < |h.nodes|;
      assert k in truth;
    }
  }

  lemma DirectIff(h: Hierarchy, c: Cache, truth: map<nat, set<Individual>>, individuals: set<Individual>, n: nat, i: Individual)
    requires Proper(h) && InstancesOk(h, truth, individuals) && Realized(h, truth, c) && n < |h.nodes| && i in KnownAt(c, n)
    ensures MostSpecific(h, truth, n, i) <==> !exists k :: k in h.nodes[n].children && KnownBelow(h, c, k, i)
  {
    KnownBelowStep(h, c, n, i);
    assert i in truth[n] <==> KnownBelow(h, c, n, i);
    MinimalByChildren(h, truth, individuals, n, i);
    ChildKnownIsTrue(h, c, truth, n, i);
  }

  lemma DirectKnown(h: Hierarchy, c: Cache, truth: map<nat, set<Individual>>, individuals: set<Individual>, n: nat, i: Individual)
    requires Proper(h) && InstancesOk(h, truth, individuals) && Realized(h, truth, c) && n < |h.nodes| && MostSpecific(h, truth, n, i)
    ensures i in KnownAt(c, n)
  {
    assert KnownBelow(h, c, n, i);
    var m: nat :| Reach(Up(h), m, n) && i in KnownAt(c, m);
    ReachRefl(Up(h), m);
    assert KnownBelow(h, c, m, i);
  }

  /** `get_instances` after `realize`: exactly the true instances of `node`, or
      those for which it is a most specific type. */
  method GetInstances(h: Hierarchy, c: Cache, ghost truth: map<nat, set<Individual>>, node: nat, direct: bool, individuals: set<Individual>)
    returns (r: set<Individual>)
    requires Proper(h) && InstancesOk(h, truth, individuals) && Realized(h, truth, c) && node < |h.nodes|
    ensures !direct ==> r == truth[node]
    ensures direct ==> forall i :: i in r <==> MostSpecific(h, truth, node, i)
  {
    if node == h.bottom {
      r := {};
    } else if !direct && node == h.top {
      r := individuals;
    } else if direct {
      r := DirectInstances(h, c, truth, individuals, node);
    } else {
      r := CollectInstances(h, c, truth, individuals, node);
      forall i ensures i in r <==> i in truth[node] {
        assert i in truth[node] <==> KnownBelow(h, c, node, i);
      }
    }
  }
}
