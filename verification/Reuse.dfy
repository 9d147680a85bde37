/** The reuse table of the individual-reuse strategy, and the search for
    pairwise unequal witnesses. */
module Reuse {
  import opened Elements

  type Concept = Element

  /** A representative node and the branching point that introduced it. */
  type Info = (nat, int)

  type Table = map<Concept, Info>

  /** The table at the last push of a level, and what was recorded since, whether
      or not it was dropped again. */
  datatype Level = Level(saved: Table, touched: set<Concept>)

  function Minus(table: Table, dropped: set<Concept>): Table {
    map c | c in table && c !in dropped :: table[c]
  }

  function Trailing(trail: seq<Concept>): set<Concept> {
    set c | c in trail
  }

  /** Outside what was touched the table is as saved; a touched concept is in it
      only while the trail after watermark `w` lists it. */
  ghost predicate Restorable(table: Table, trail: seq<Concept>, w: nat, l: Level) {
    && w <= |trail|
    && Trailing(trail[w..]) <= l.touched
    && (forall c :: c in l.touched && c !in trail[w..] ==> c !in table)
    && Minus(table, l.touched) == Minus(l.saved, l.touched)
  }

  lemma RecordKeeps(table: Table, trail: seq<Concept>, w: nat, l: Level, c: Concept, info: Info)
    requires Restorable(table, trail, w, l)
    ensures Restorable(table[c := info], trail + [c], w, Level(l.saved, l.touched + {c}))
  {
    var touched := l.touched + {c};
    assert (trail + [c])[w..] == trail[w..] + [c];
    assert Minus(table[c := info], touched) == Minus(Minus(table, l.touched), {c});
    assert Minus(l.saved, touched) == Minus(Minus(l.saved, l.touched), {c});
  }

  /** With nothing lost since, what is absent now was absent at the push. */
  lemma AbsentThen(table: Table, trail: seq<Concept>, w: nat, l: Level, c: Concept)
    requires Restorable(table, trail, w, l) && c !in table && l.touched !! l.saved.Keys
    ensures c !in l.saved
  {
    assert c !in Minus(table, l.touched);
    assert c in Minus(l.saved, l.touched) <==> c in l.saved;
  }

  lemma PushKeeps(table: Table, trail: seq<Concept>)
    ensures Restorable(table, trail, |trail|, Level(table, {}))
  {
    assert trail[|trail|..] == [];
  }

  /** Dropping the trail after a later watermark keeps an earlier level restorable. */
  lemma DropKeeps(table: Table, trail: seq<Concept>, v: nat, l: Level, w: nat)
    requires Restorable(table, trail, v, l) && v <= w <= |trail|
    ensures Restorable(Minus(table, Trailing(trail[w..])), trail[..w], v, l)
  {
    assert trail[v..] == trail[v..w] + trail[w..];
    assert trail[..w][v..] == trail[v..w];
    forall c | c in l.touched && c !in trail[v..w] ensures c !in Minus(table, Trailing(trail[w..])) {
      assert c in trail[v..] ==> c in trail[w..];
    }
    assert Trailing(trail[w..]) <= l.touched;
    assert Minus(Minus(table, Trailing(trail[w..])), l.touched) == Minus(table, l.touched);
  }

  /** Dropping the whole trail after the watermark restores all but the touched. */
  lemma DropRestores(table: Table, trail: seq<Concept>, w: nat, l: Level)
    requires Restorable(table, trail, w, l)
    ensures Minus(table, Trailing(trail[w..])) == Minus(l.saved, l.touched)
    ensures Minus(l.saved, l.touched) == l.saved <==> l.touched !! l.saved.Keys
  {
    var r := Minus(table, Trailing(trail[w..]));
    forall c ensures c in r <==> c in Minus(table, l.touched) {
    }
    assert r == Minus(table, l.touched);
    if l.touched !! l.saved.Keys {
      assert Minus(l.saved, l.touched) == l.saved;
    } else {
      var c :| c in l.touched && c in l.saved;
      assert c !in Minus(l.saved, l.touched);
    }
  }

  class IndividualReuseStrategy {
    var reusedNodes: Table
    var reuseBacktracking: seq<Concept>
    var indicesByBranchingPoint: seq<nat>
    /** The levels that can be backtracked to. */
    ghost var levels: map<nat, Level>

    ghost predicate Valid() reads this {
      forall l: nat :: l in levels ==>
        l < |indicesByBranchingPoint| && Restorable(reusedNodes, reuseBacktracking, indicesByBranchingPoint[l], levels[l])
    }

    /** Since its push, no level has seen a concept recorded that it already had. */
    ghost predicate Disciplined() reads this {
      forall l: nat :: l in levels ==> levels[l].touched !! levels[l].saved.Keys
    }

    constructor ()
      ensures Valid() && Disciplined() && reusedNodes == map[] && levels == map[]
    {
      reusedNodes, reuseBacktracking, indicesByBranchingPoint := map[], [], [];
      levels := map[];
    }

    /** `clear`, before each reasoning task: the watermarks stay behind, but no
        level can be backtracked to. */
    method Clear()
      modifies this
      ensures Valid() && Disciplined() && reusedNodes == map[] && levels == map[]
      ensures indicesByBranchingPoint == old(indicesByBranchingPoint)
    {
      reusedNodes, reuseBacktracking := map[], [];
      levels := map[];
    }

    /** `record_reuse`; recording only absent concepts keeps the discipline. */
    method RecordReuse(concept: Concept, node: nat, branchingPoint: int)
      requires Valid()
      modifies this
      ensures Valid() && reusedNodes == old(reusedNodes)[concept := (node, branchingPoint)]
      ensures levels == map l | l in old(levels) :: Level(old(levels)[l].saved, old(levels)[l].touched + {concept})
      ensures indicesByBranchingPoint == old(indicesByBranchingPoint)
      ensures old(Disciplined()) && concept !in old(reusedNodes) ==> Disciplined()
    {
      ghost var table, trail, before := reusedNodes, reuseBacktracking, levels;
      reusedNodes := reusedNodes[concept := (node, branchingPoint)];
      reuseBacktracking := reuseBacktracking + [concept];
      levels := map l | l in before :: Level(before[l].saved, before[l].touched + {concept});
      forall l: nat | l in levels ensures Restorable(reusedNodes, reuseBacktracking, indicesByBranchingPoint[l], levels[l]) {
        RecordKeeps(table, trail, indicesByBranchingPoint[l], before[l], concept, (node, branchingPoint));
      }
      forall l: nat | l in levels && concept !in table && before[l].touched !! before[l].saved.Keys
        ensures levels[l].touched !! levels[l].saved.Keys
      {
        AbsentThen(table, trail, indicesByBranchingPoint[l], before[l], concept);
      }
    }

    /** `branching_point_pushed`: the level remembers the table as it is; no open
        level has a later watermark. */
    method BranchingPointPushed(level: nat)
      requires Valid()
      modifies this
      ensures Valid() && reusedNodes == old(reusedNodes)
      ensures levels == old(levels)[level := Level(reusedNodes, {})]
      ensures level < |indicesByBranchingPoint| && |old(indicesByBranchingPoint)| <= |indicesByBranchingPoint|
      ensures forall l: nat :: l in levels ==> indicesByBranchingPoint[l] <= indicesByBranchingPoint[level]
      ensures forall l: nat :: l in old(levels) && l != level ==> indicesByBranchingPoint[l] == old(indicesByBranchingPoint)[l]
      ensures old(Disciplined()) ==> Disciplined()
    {
      ghost var before := indicesByBranchingPoint;
      if level >= |indicesByBranchingPoint| {
        indicesByBranchingPoint := indicesByBranchingPoint + seq(level + 1 - |indicesByBranchingPoint|, _ => 0);
      }
      indicesByBranchingPoint := indicesByBranchingPoint[level := |reuseBacktracking|];
      ghost var open := levels;
      levels := levels[level := Level(reusedNodes, {})];
      PushKeeps(reusedNodes, reuseBacktracking);
      forall l: nat | l in levels ensures Restorable(reusedNodes, reuseBacktracking, indicesByBranchingPoint[l], levels[l]) {
        if l != level {
          assert Restorable(reusedNodes, reuseBacktracking, before[l], open[l]);
        }
      }
    }

    /** `backtrack`: the table is again what it was when `level` was last pushed,
        less the concepts recorded since; so it is exactly that if and only if no
        concept recorded since was in it then. The levels with later watermarks
        cannot be backtracked to any more. */
    method Backtrack(level: nat)
      requires Valid() && level in levels
      modifies this
      ensures Valid() && reusedNodes == Minus(old(levels)[level].saved, old(levels)[level].touched)
      ensures reusedNodes == old(levels)[level].saved <==> old(levels)[level].touched !! old(levels)[level].saved.Keys
      ensures old(Disciplined()) ==> Disciplined() && reusedNodes == old(levels)[level].saved
      ensures indicesByBranchingPoint == old(indicesByBranchingPoint)
      ensures levels == map l | l in old(levels) && indicesByBranchingPoint[l] <= indicesByBranchingPoint[level] :: old(levels)[l]
    {
      hide Restorable, Minus;
      var watermark := indicesByBranchingPoint[level];
      RestorableWithin(reusedNodes, reuseBacktracking, watermark, levels[level]);
      ghost var table, trail, open := reusedNodes, reuseBacktracking, levels;
      reusedNodes := DropAll(reusedNodes, reuseBacktracking[watermark..]);
      reuseBacktracking := reuseBacktracking[..watermark];
      DropRestores(table, trail, watermark, open[level]);
      levels := map l | l in open && indicesByBranchingPoint[l] <= watermark :: open[l];
      forall l: nat | l in levels ensures Restorable(reusedNodes, reuseBacktracking, indicesByBranchingPoint[l], levels[l]) {
        DropKeeps(table, trail, indicesByBranchingPoint[l], open[l], watermark);
      }
    }
  }

  lemma RestorableWithin(table: Table, trail: seq<Concept>, w: nat, l: Level)
    requires Restorable(table, trail, w, l)
    ensures w <= |trail|
  {
  }

  /** The drain of the trail: removes its concepts from the table one by one. */
  method DropAll(table: Table, dropped: seq<Concept>) returns (r: Table)
    ensures r == Minus(table, Trailing(dropped))
  {
    r := table;
    for i := 0 to |dropped|
      invariant r == Minus(table, Trailing(dropped[..i]))
    {
      assert dropped[..i + 1] == dropped[..i] + [dropped[i]];
      r := r - {dropped[i]};
    }
    assert dropped[..|dropped|] == dropped;
  }

  /** Recording a concept again after a push costs its earlier record. */
  method RecordedAgainIsLost(concept: Concept) returns (pushed: Table, restored: Table)
    ensures concept in pushed && concept !in restored
  {
    var strategy := new IndividualReuseStrategy();
    strategy.RecordReuse(concept, 1, 0);
    pushed := strategy.reusedNodes;
    strategy.BranchingPointPushed(0);
    strategy.RecordReuse(concept, 2, 0);
    strategy.Backtrack(0);
    restored := strategy.reusedNodes;
  }

  // --- pairwise unequal witnesses ------------------------------------------------------------------

  type Unequal = (nat, nat) -> bool

  /** Unequal in at least one direction. */
  predicate Apart(unequal: Unequal, a: nat, b: nat) {
    unequal(a, b) || unequal(b, a)
  }

  /** Increasing indices of pairwise unequal nodes, all at least `start`. */
  ghost predicate Choice(nodes: seq<nat>, unequal: Unequal, start: nat, picks: seq<nat>) {
    && (forall i :: 0 <= i < |picks| ==> start <= picks[i] < |nodes|)
    && (forall i, j :: 0 <= i < j < |picks| ==> picks[i] < picks[j])
    && forall i, j :: 0 <= i < j < |picks| ==> Apart(unequal, nodes[picks[i]], nodes[picks[j]])
  }

  ghost predicate ApartFromAll(nodes: seq<nat>, unequal: Unequal, selected: seq<nat>, picks: seq<nat>) {
    forall i, j :: 0 <= i < |selected| && 0 <= j < |picks| && picks[j] < |nodes| ==> Apart(unequal, selected[i], nodes[picks[j]])
  }

  /** `picks` completes the selection to `cardinality` nodes. */
  ghost predicate Completes(nodes: seq<nat>, unequal: Unequal, start: nat, selected: seq<nat>, cardinality: nat, picks: seq<nat>) {
    |selected| + |picks| == cardinality && Choice(nodes, unequal, start, picks) && ApartFromAll(nodes, unequal, selected, picks)
  }

  ghost predicate Completable(nodes: seq<nat>, unequal: Unequal, start: nat, selected: seq<nat>, cardinality: nat) {
    exists picks: seq<nat> :: Completes(nodes, unequal, start, selected, cardinality, picks)
  }

  ghost predicate Fits(unequal: Unequal, selected: seq<nat>, node: nat) {
    forall i :: 0 <= i < |selected| ==> Apart(unequal, selected[i], node)
  }

  /** Choosing `index` first. */
  lemma CompleteWith(nodes: seq<nat>, unequal: Unequal, start: nat, index: nat, selected: seq<nat>, cardinality: nat)
    requires start <= index < |nodes| && Fits(unequal, selected, nodes[index])
    requires Completable(nodes, unequal, index + 1, selected + [nodes[index]], cardinality)
    ensures Completable(nodes, unequal, start, selected, cardinality)
  {
    var longer := selected + [nodes[index]];
    var rest: seq<nat> :| Completes(nodes, unequal, index + 1, longer, cardinality, rest);
    var picks := [index] + rest;
    assert longer[|selected|] == nodes[index];
    forall i, j | 0 <= i < j < |picks| ensures picks[i] < picks[j] && Apart(unequal, nodes[picks[i]], nodes[picks[j]]) {
      assert picks[j] == rest[j - 1];
      if i > 0 {
        assert picks[i] == rest[i - 1];
      }
    }
    forall i, j | 0 <= i < |selected| && 0 <= j < |picks| && picks[j] < |nodes| ensures Apart(unequal, selected[i], nodes[picks[j]]) {
      if j > 0 {
        assert picks[j] == rest[j - 1] && longer[i] == selected[i];
      }
    }
    assert Completes(nodes, unequal, start, selected, cardinality, picks);
  }

  /** Every completion either starts with `index` or lies after it. */
  lemma CompleteWithout(nodes: seq<nat>, unequal: Unequal, index: nat, selected: seq<nat>, cardinality: nat)
    requires index < |nodes| && |selected| < cardinality && Completable(nodes, unequal, index, selected, cardinality)
    ensures Completable(nodes, unequal, index + 1, selected, cardinality)
      || (Fits(unequal, selected, nodes[index]) && Completable(nodes, unequal, index + 1, selected + [nodes[index]], cardinality))
  {
    var picks: seq<nat> :| Completes(nodes, unequal, index, selected, cardinality, picks);
    if picks[0] == index {
      var rest := picks[1..];
      var longer := selected + [nodes[index]];
      assert forall i :: 0 <= i < |rest| ==> rest[i] == picks[i + 1];
      forall i, j | 0 <= i < |longer| && 0 <= j < |rest| && rest[j] < |nodes| ensures Apart(unequal, longer[i], nodes[rest[j]]) {
        if i < |selected| {
          assert longer[i] == selected[i];
        }
      }
      assert Completes(nodes, unequal, index + 1, longer, cardinality, rest);
    } else {
      assert Completes(nodes, unequal, index + 1, selected, cardinality, picks);
    }
  }

  method FitsSelection(unequal: Unequal, selected: seq<nat>, node: nat) returns (fits: bool)
    ensures fits <==> Fits(unequal, selected, node)
  {
    for i := 0 to |selected|
      invariant forall k :: 0 <= k < i ==> Apart(unequal, selected[k], node)
    {
      if !unequal(node, selected[i]) && !unequal(selected[i], node) {
        return false;
      }
    }
    return true;
  }

  /** The recursive search, which pushes to and pops from the stack `selected`; on
      failure the stack is as it was. */
  method SearchSubset(nodes: seq<nat>, start: nat, selected: seq<nat>, cardinality: nat, unequal: Unequal) returns (found: bool, stack: seq<nat>)
    requires start <= |nodes| && |selected| <= cardinality
    ensures found <==> Completable(nodes, unequal, start, selected, cardinality)
    ensures found ==> |stack| == cardinality && selected <= stack
    ensures !found ==> stack == selected
    decreases |nodes| - start
  {
    hide Completable, Fits;
    stack := selected;
    if |stack| == cardinality {
      AlreadyComplete(nodes, unequal, start, selected, cardinality);
      return true, stack;
    }
    for index := start to |nodes|
      invariant stack == selected
      invariant Completable(nodes, unequal, start, selected, cardinality) ==> Completable(nodes, unequal, index, selected, cardinality)
    {
      var fits := FitsSelection(unequal, stack, nodes[index]);
      if fits {
        stack := stack + [nodes[index]];
        var deeper;
        deeper, stack := SearchSubset(nodes, index + 1, stack, cardinality, unequal);
        if deeper {
          CompleteWith(nodes, unequal, start, index, selected, cardinality);
          return true, stack;
        }
        stack := stack[..|stack| - 1];
      }
      if Completable(nodes, unequal, index, selected, cardinality) {
        CompleteWithout(nodes, unequal, index, selected, cardinality);
      }
    }
    NothingToChoose(nodes, unequal, selected, cardinality);
    return false, stack;
  }

  lemma AlreadyComplete(nodes: seq<nat>, unequal: Unequal, start: nat, selected: seq<nat>, cardinality: nat)
    requires |selected| == cardinality
    ensures Completable(nodes, unequal, start, selected, cardinality)
  {
    assert Completes(nodes, unequal, start, selected, cardinality, []);
  }

  lemma NothingToChoose(nodes: seq<nat>, unequal: Unequal, selected: seq<nat>, cardinality: nat)
    requires |selected| < cardinality
    ensures !Completable(nodes, unequal, |nodes|, selected, cardinality)
  {
    forall picks: seq<nat> ensures |picks| > 0 ==> !Choice(nodes, unequal, |nodes|, picks) {
      if |picks| > 0 {
        var first := picks[0];
      }
    }
  }

  lemma FromScratch(nodes: seq<nat>, unequal: Unequal, cardinality: nat, picks: seq<nat>)
    ensures |picks| == cardinality && Choice(nodes, unequal, 0, picks) <==> Completes(nodes, unequal, 0, [], cardinality, picks)
  {
  }

  /** `contains_subset_of_n_unequal_nodes`: some increasing choice of `cardinality`
      indices is pairwise unequal in at least one direction. */
  method ContainsSubsetOfNUnequalNodes(nodes: seq<nat>, cardinality: nat, unequal: Unequal) returns (found: bool)
    ensures found <==> exists picks: seq<nat> :: |picks| == cardinality && Choice(nodes, unequal, 0, picks)
  {
    var stack;
    found, stack := SearchSubset(nodes, 0, [], cardinality, unequal);
    forall picks: seq<nat>
      ensures |picks| == cardinality && Choice(nodes, unequal, 0, picks) <==> Completes(nodes, unequal, 0, [], cardinality, picks)
    {
      FromScratch(nodes, unequal, cardinality, picks);
    }
  }
}
