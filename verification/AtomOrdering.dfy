/** `swap_body_atoms`: the greedy reordering of the body of a query. */
module AtomOrdering {
  import opened Queries
  import opened Sequences

  function Count(terms: seq<Term>, bound: set<string>, wanted: bool): (n: nat)
    ensures n <= |terms|
  {
    if |terms| == 0 then 0
    else Count(terms[1..], bound, wanted) + if terms[0].Variable? && (terms[0].name in bound) == wanted then 1 else 0
  }

  /** `atom_goodness`. */
  function Goodness(atom: Atom, bound: set<string>): (g: int)
    ensures -20 <= g <= 200
  {
    Count(Terms(atom), bound, true) * 100 - Count(Terms(atom), bound, false) * 10
  }

  /** How many ends are variables that are bound, and how many unbound ones. */
  ghost function One(t: Term, bound: set<string>, wanted: bool): int {
    if t.Variable? && (t.name in bound <==> wanted) then 1 else 0
  }

  ghost function VariableEnds(atom: Atom, bound: set<string>, wanted: bool): int {
    match atom
    case ConceptAtom(_, t) => One(t, bound, wanted)
    case RoleAtom(_, a, b) => One(a, bound, wanted) + One(b, bound, wanted)
    case Equality(a, b) => One(a, bound, wanted) + One(b, bound, wanted)
    case Inequality(a, b) => One(a, bound, wanted) + One(b, bound, wanted)
  }

  /** More bound variables win; among equals, fewer unbound ones. */
  ghost predicate MoreSelective(a: Atom, b: Atom, bound: set<string>) {
    || VariableEnds(a, bound, true) > VariableEnds(b, bound, true)
    || (VariableEnds(a, bound, true) == VariableEnds(b, bound, true) && VariableEnds(a, bound, false) < VariableEnds(b, bound, false))
  }

  lemma CountEnds(atom: Atom, bound: set<string>, wanted: bool)
    ensures Count(Terms(atom), bound, wanted) == VariableEnds(atom, bound, wanted)
  {
    var ts := Terms(atom);
    if |ts| == 1 {
      assert ts[1..] == [];
    } else {
      assert ts[1..] == [ts[1]] && ts[1..][1..] == [];
    }
  }

  /** Goodness orders atoms by selectivity. */
  lemma GoodnessOrders(a: Atom, b: Atom, bound: set<string>)
    ensures Goodness(a, bound) > Goodness(b, bound) <==> MoreSelective(a, b, bound)
    ensures Goodness(a, bound) == Goodness(b, bound) <==> !MoreSelective(a, b, bound) && !MoreSelective(b, a, bound)
  {
    hide Count;
    CountEnds(a, bound, true);
    CountEnds(a, bound, false);
    CountEnds(b, bound, true);
    CountEnds(b, bound, false);
  }

  function Pick(atoms: seq<Atom>, order: seq<nat>): (r: seq<Atom>)
    requires forall k :: 0 <= k < |order| ==> order[k] < |atoms|
    ensures |r| == |order| && forall k :: 0 <= k < |r| ==> r[k] == atoms[order[k]]
  {
    seq(|order|, k requires 0 <= k < |order| => atoms[order[k]])
  }

  /** `order` visits every index of `atoms` once. */
  ghost predicate Permutes(order: seq<nat>, n: nat) {
    && |order| == n && Distinct(order)
    && (forall k :: 0 <= k < |order| ==> order[k] < n)
    && forall i: nat :: i < n ==> i in order
  }

  /** `i` beats every index not yet listed, the larger index winning ties. */
  ghost predicate Best(atoms: seq<Atom>, listed: seq<nat>, bound: set<string>, i: nat) {
    && i < |atoms|
    && forall j: nat {:trigger atoms[j]} :: j < |atoms| && j !in listed && j != i ==>
         (MoreSelective(atoms[i], atoms[j], bound)
          || (!MoreSelective(atoms[j], atoms[i], bound) && i > j))
  }

  /** Every choice after the first is the best available one, given the variables
      the chosen atoms have bound. */
  ghost predicate Greedy(atoms: seq<Atom>, order: seq<nat>)
    requires forall k :: 0 <= k < |order| ==> order[k] < |atoms|
  {
    forall k {:trigger order[k]} :: 1 <= k < |order| ==> Best(atoms, order[..k], Vars(Pick(atoms, order[..k])), order[k])
  }

  ghost function Range(n: nat): (s: set<nat>)
    ensures |s| == n && forall i: nat :: i in s <==> i < n
  {
    if n == 0 then {} else Range(n - 1) + {n - 1}
  }

  lemma {:induction false} ListSize(s: seq<nat>, t: set<nat>)
    requires forall i: nat :: i in t <==> i in s
    ensures |t| <= |s| && (Distinct(s) ==> |t| == |s|)
    decreases |s|
  {
    if |s| == 0 {
      assert t == {};
    } else {
      var init, last := s[..|s| - 1], s[|s| - 1];
      assert s == init + [last];
      if last in init {
        ListSize(init, t);
        var k :| 0 <= k < |init| && init[k] == last;
        assert !Distinct(s) by { assert s[k] == s[|s| - 1]; }
      } else {
        ListSize(init, t - {last});
      }
    }
  }

  /** A list shorter than the range misses an index; a distinct one of full length
      misses none. */
  lemma Pigeonhole(order: seq<nat>, n: nat)
    requires forall k :: 0 <= k < |order| ==> order[k] < n
    ensures |order| < n ==> exists i: nat :: i < n && i !in order
    ensures |order| == n && Distinct(order) ==> forall i: nat :: i < n ==> i in order
  {
    var all := Range(n);
    var t := set i | i in order;
    ListSize(order, t);
    if forall i: nat :: i < n ==> i in order {
      assert all <= t;
      assert all == t;
    } else {
      var i: nat :| i < n && i !in order;
      assert t <= all - {i};
      SubsetSize(t, all - {i});
    }
  }

  lemma SubsetSize(a: set<nat>, b: set<nat>)
    requires a <= b
    ensures |a| <= |b|
  {
    if a != {} {
      var x :| x in a;
      SubsetSize(a - {x}, b - {x});
    }
  }

  lemma VarsSnoc(atoms: seq<Atom>, a: Atom)
    ensures Vars(atoms + [a]) == Vars(atoms) + TermVars(Terms(a))
  {
    if |atoms| > 0 {
      VarsSnoc(atoms[1..], a);
      assert (atoms + [a])[1..] == atoms[1..] + [a];
    }
  }

  /** The reverse scan for the best unused atom; it always finds one. */
  method BestUnused(atoms: seq<Atom>, used: array<bool>, bound: set<string>, ghost order: seq<nat>) returns (best: nat)
    requires used.Length == |atoms| && |order| < |atoms|
    requires forall k :: 0 <= k < |order| ==> order[k] < |atoms|
    requires forall i: nat :: i < |atoms| ==> (used[i] <==> i in order)
    ensures best < |atoms| && best !in order && Best(atoms, order, bound, best)
  {
    hide MoreSelective, Goodness;
    Pigeonhole(order, |atoms|);
    var found, goodness := false, -1000;
    best := 0;
    var index := |atoms|;
    while index > 0
      invariant 0 <= index <= |atoms|
      invariant found <==> exists i: nat :: index <= i < |atoms| && i !in order
      invariant !found ==> goodness == -1000
      invariant found ==> index <= best < |atoms| && best !in order && goodness == Goodness(atoms[best], bound)
      invariant found ==> forall j: nat {:trigger atoms[j]} :: index <= j < |atoms| && j !in order && j != best ==>
        (goodness > Goodness(atoms[j], bound) || (goodness == Goodness(atoms[j], bound) && best > j))
    {
      index := index - 1;
      if !used[index] {
        var g := Goodness(atoms[index], bound);
        if g > goodness {
          found, goodness, best := true, g, index;
        }
      }
    }
    forall j: nat | j < |atoms| && j !in order && j != best
      ensures MoreSelective(atoms[best], atoms[j], bound) || (!MoreSelective(atoms[j], atoms[best], bound) && best > j)
    {
      GoodnessOrders(atoms[best], atoms[j], bound);
    }
  }

  /** `swap_body_atoms`: a greedy permutation that starts with the first atom. */
  method SwapBodyAtoms(atoms: seq<Atom>) returns (reordered: seq<Atom>, ghost order: seq<nat>)
    ensures Permutes(order, |atoms|) && reordered == Pick(atoms, order)
    ensures |atoms| > 0 ==> order[0] == 0
    ensures Greedy(atoms, order)
    ensures SameAtoms(atoms, reordered)
  {
    reordered, order := [], [];
    if |atoms| == 0 {
      return;
    }
    var used := new bool[|atoms|](i => false);
    var bound := Vars([atoms[0]]);
    reordered, order := [atoms[0]], [0];
    used[0] := true;
    while |reordered| != |atoms|
      invariant 1 <= |order| <= |atoms| && order[0] == 0 && Distinct(order)
      invariant forall k :: 0 <= k < |order| ==> order[k] < |atoms|
      invariant reordered == Pick(atoms, order) && bound == Vars(reordered)
      invariant forall i: nat :: i < |atoms| ==> (used[i] <==> i in order)
      invariant Greedy(atoms, order)
      decreases |atoms| - |reordered|
    {
      var best := BestUnused(atoms, used, bound, order);
      VarsSnoc(reordered, atoms[best]);
      GreedySnoc(atoms, order, best);
      reordered, order := reordered + [atoms[best]], order + [best];
      used[best] := true;
      bound := bound + TermVars(Terms(atoms[best]));
    }
    Pigeonhole(order, |atoms|);
    PermutesSame(atoms, order);
  }

  lemma GreedySnoc(atoms: seq<Atom>, order: seq<nat>, best: nat)
    requires best < |atoms| && best !in order && forall k :: 0 <= k < |order| ==> order[k] < |atoms|
    requires Distinct(order) && Greedy(atoms, order) && Best(atoms, order, Vars(Pick(atoms, order)), best)
    ensures Distinct(order + [best]) && Greedy(atoms, order + [best])
    ensures Pick(atoms, order + [best]) == Pick(atoms, order) + [atoms[best]]
  {
    var longer := order + [best];
    forall k | 1 <= k < |longer| ensures Best(atoms, longer[..k], Vars(Pick(atoms, longer[..k])), longer[k]) {
      assert longer[..k] == order[..k];
      if k == |order| {
        assert order[..k] == order;
      } else {
        assert longer[k] == order[k];
      }
    }
  }

  lemma PermutesSame(atoms: seq<Atom>, order: seq<nat>)
    requires Permutes(order, |atoms|)
    ensures SameAtoms(atoms, Pick(atoms, order))
  {
    var r := Pick(atoms, order);
    forall a ensures a in atoms <==> a in r {
      if a in atoms {
        var i: nat :| i < |atoms| && atoms[i] == a;
        assert i in order;
        var k :| 0 <= k < |order| && order[k] == i;
        assert r[k] == a;
      }
    }
  }
}
