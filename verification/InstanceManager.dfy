/** `SeededClassInstanceManager`, class side: seeding, normalisation, realisation
    and the queries over the realised cache. */
module InstanceManager {
  import opened Elements
  import opened Sequences
  import opened Digraph
  import opened Reachability
  import opened Hierarchies
  import opened BottomUp
  import opened Instances

  /** The instance oracle; answers may depend on a call number. */
  type InstanceOracle = (nat, Element, Individual) -> bool

  /** What the oracle may confirm is true, and what is sure it always confirms. */
  ghost predicate InstanceOracleOk(h: Hierarchy, truth: map<nat, set<Individual>>, sure: map<nat, set<Individual>>, individuals: set<Individual>, o: InstanceOracle) {
    truth.Keys == Up(h).Keys == sure.Keys &&
    forall t: nat, n: nat, i {:trigger o(t, h.nodes[n].representative, i)} :: n < |h.nodes| && i in individuals ==>
      (o(t, h.nodes[n].representative, i) ==> i in truth[n]) && (i in sure[n] ==> o(t, h.nodes[n].representative, i))
  }

  /** Without the flag there is no possible instance anywhere. */
  ghost predicate FlagOk(c: Cache, found: bool) {
    !found ==> forall n :: n in c ==> c[n].possible == {}
  }

  /** Realised: no possibles are left, and the instances of a node are exactly the
      known instances of the nodes at or below it. */
  ghost predicate Realized(h: Hierarchy, truth: map<nat, set<Individual>>, c: Cache) {
    && c.Keys <= Up(h).Keys && truth.Keys == Up(h).Keys
    && (forall n :: n in c ==> c[n].possible == {})
    && (forall n: nat, i {:trigger KnownBelow(h, c, n, i)} :: n in truth ==> (i in truth[n] <==> KnownBelow(h, c, n, i)))
  }

  /** No possibles are left, only true instances are known, and every sure instance
      is known at or below its node. */
  ghost predicate Settles(h: Hierarchy, truth: map<nat, set<Individual>>, sure: map<nat, set<Individual>>, c: Cache) {
    && c.Keys <= Up(h).Keys && truth.Keys == Up(h).Keys == sure.Keys
    && (forall n :: n in c ==> c[n].possible == {})
    && (forall n: nat, i {:trigger KnownBelow(h, c, n, i)} :: n in truth && KnownBelow(h, c, n, i) ==> i in truth[n])
    && (forall n: nat, i {:trigger KnownBelow(h, c, n, i)} :: n in sure && i in sure[n] ==> KnownBelow(h, c, n, i))
  }

  /** What the model read-off guarantees: seeded knowns are true, every sure
      instance is seeded at its own node, nothing is possible at bottom. */
  ghost predicate Seeded(h: Hierarchy, truth: map<nat, set<Individual>>, sure: map<nat, set<Individual>>, individuals: set<Individual>, c: Cache) {
    && c.Keys <= Up(h).Keys && truth.Keys == Up(h).Keys == sure.Keys
    && (forall n :: n in c ==> c[n].known <= truth[n] && c[n].possible <= individuals)
    && PossibleAt(c, h.bottom) == {}
    && (forall n: nat {:trigger KnownAt(c, n)} :: n in sure ==> sure[n] <= KnownAt(c, n) + PossibleAt(c, n))
  }

  lemma SeededInv(h: Hierarchy, truth: map<nat, set<Individual>>, sure: map<nat, set<Individual>>, individuals: set<Individual>, c: Cache)
    requires Seeded(h, truth, sure, individuals, c)
    ensures CacheInv(h, truth, sure, individuals, c, {})
  {
    forall n: nat, i | n in sure && i in sure[n] ensures RecordedBelow(h, c, {}, n, i) {
      ReachRefl(Up(h), n);
      assert i in KnownAt(c, n) + PossibleAt(c, n);
      assert Records(c, {}, n, i);
    }
  }

  /** Once no node has possibles left, being recorded is being known. */
  lemma NothingPossible(h: Hierarchy, truth: map<nat, set<Individual>>, sure: map<nat, set<Individual>>, individuals: set<Individual>, c: Cache, done: set<nat>)
    requires InstancesOk(h, truth, individuals) && CacheInv(h, truth, sure, individuals, c, done)
    requires forall n :: n in c ==> c[n].possible == {}
    ensures Settles(h, truth, sure, c)
  {
    forall n: nat, i | n in sure && i in sure[n] ensures KnownBelow(h, c, n, i) {
      assert RecordedBelow(h, c, done, n, i);
      var m: nat :| Reach(Up(h), m, n) && Records(c, done, m, i);
      assert i in KnownAt(c, m);
    }
    forall n: nat, i | n in truth && KnownBelow(h, c, n, i) ensures i in truth[n] {
      var m: nat :| Reach(Up(h), m, n) && i in KnownAt(c, m);
      TruthUp(h, truth, individuals, m, n);
    }
  }

  /** `order` with its prefix of length `k` processed. */
  ghost predicate PossiblesAhead(h: Hierarchy, order: seq<nat>, k: nat, c: Cache) {
    k <= |order| && forall j :: 0 <= j < k ==> PossibleAt(c, order[j]) == {}
  }

  lemma ParentsAhead(h: Hierarchy, order: seq<nat>, k: nat)
    requires Linked(h.nodes) && ChildrenFirst(h, order) && k < |order|
    ensures order[k] < |h.nodes| && order[k] !in Elems(order[..k])
    ensures forall q :: q in h.nodes[order[k]].parents ==> q < |h.nodes| && q !in Elems(order[..k]) && q != order[k]
  {
    forall q | q in h.nodes[order[k]].parents ensures q !in Elems(order[..k]) && q != order[k] {
      assert order[k] in h.nodes[q].children;
    }
  }

  /** Asks the oracle about each possible instance of one node. */
  method DecidePossibles(o: InstanceOracle, h: Hierarchy, ghost truth: map<nat, set<Individual>>, ghost sure: map<nat, set<Individual>>, ghost individuals: set<Individual>,
                         n: nat, possibles: set<Individual>, tick: nat)
    returns (confirmed: set<Individual>, refuted: set<Individual>, tick': nat)
    requires InstanceOracleOk(h, truth, sure, individuals, o) && n < |h.nodes| && possibles <= individuals
    ensures SplitBy(truth, sure, n, possibles, confirmed, refuted)
  {
    confirmed, refuted, tick' := {}, {}, tick;
    var todo := possibles;
    while todo != {}
      invariant todo <= possibles
      invariant SplitBy(truth, sure, n, possibles - todo, confirmed, refuted)
    {
      var i :| i in todo;
      if o(tick', h.nodes[n].representative, i) {
        confirmed := confirmed + {i};
      } else {
        refuted := refuted + {i};
      }
      tick' := tick' + 1;
      todo := todo - {i};
    }
  }

  /** Pushes the refuted possibles of a node to all its parents. */
  method PushToParents(h: Hierarchy, ghost truth: map<nat, set<Individual>>, ghost individuals: set<Individual>, c: Cache, parents: set<nat>, refuted: set<Individual>)
    returns (r: Cache)
    requires InstancesOk(h, truth, individuals) && refuted <= individuals && forall q :: q in parents ==> q < |h.nodes|
    requires PushSound(h, truth, individuals, c, c, parents)
    ensures Pushed(c, r, parents, refuted) && PushSound(h, truth, individuals, c, r, parents)
  {
    hide InstancesOk, PushSound, Pushed;
    r := c;
    PushNone(c, refuted);
    var todo := parents;
    assert parents - todo == {};
    while todo != {}
      invariant todo <= parents
      invariant Pushed(c, r, parents - todo, refuted) && PushSound(h, truth, individuals, c, r, parents)
    {
      var q: nat :| q in todo;
      PushKeeps(h, truth, individuals, c, r, parents - todo, parents, q, refuted);
      r := PushTo(r, q, h.top, refuted);
      assert parents - (todo - {q}) == parents - todo + {q};
      todo := todo - {q};
    }
    assert parents - {} == parents;
  }

  lemma PushNone(c: Cache, refuted: set<Individual>)
    ensures Pushed(c, c, {}, refuted)
  {
  }

  /** The node of `order` at `k` done: nothing earlier regained a possible. */
  lemma AheadAfter(h: Hierarchy, truth: map<nat, set<Individual>>, individuals: set<Individual>, order: seq<nat>, k: nat, c: Cache, d: Cache, r: Cache)
    requires Linked(h.nodes) && ChildrenFirst(h, order) && k < |order| && PossiblesAhead(h, order, k, c)
    requires PossibleAt(d, order[k]) == {} && forall n: nat :: n != order[k] ==> PossibleAt(d, n) == PossibleAt(c, n)
    requires PushSound(h, truth, individuals, d, r, h.nodes[order[k]].parents)
    ensures PossiblesAhead(h, order, k + 1, r)
  {
    ParentsAhead(h, order, k);
    forall j | 0 <= j < k + 1 ensures PossibleAt(r, order[j]) == {} {
      assert j < k ==> order[j] in order[..k];
      assert order[j] !in h.nodes[order[k]].parents;
      assert PossibleAt(r, order[j]) == PossibleAt(d, order[j]);
    }
  }

  /** A label of an individual's node, mapped to its hierarchy node (or none):
      a known membership if asserted deterministically, a possible one otherwise. */
  datatype ReadOffConcept = ReadOffConcept(node: Option<nat>, known: bool)

  /** The cache gained exactly the known and possible memberships in `labels`. */
  ghost predicate SeededWith(c: Cache, r: Cache, individual: Individual, labels: seq<ReadOffConcept>) {
    && (forall n: nat, i {:trigger i in KnownAt(r, n)} ::
          i in KnownAt(r, n) <==> (i in KnownAt(c, n) || (i == individual && ReadOffConcept(Some(n), true) in labels)))
    && (forall n: nat, i {:trigger i in PossibleAt(r, n)} ::
          i in PossibleAt(r, n) <==> (i in PossibleAt(c, n) || (i == individual && ReadOffConcept(Some(n), false) in labels)))
  }

  /** The nodes the labels map to. */
  ghost function LabelNodes(labels: seq<ReadOffConcept>): set<nat> {
    set k | 0 <= k < |labels| && labels[k].node.Some? :: labels[k].node.value
  }

  lemma LabelNodesSnoc(labels: seq<ReadOffConcept>, l: ReadOffConcept)
    ensures LabelNodes(labels + [l]) == LabelNodes(labels) + if l.node.Some? then {l.node.value} else {}
  {
    var longer := labels + [l];
    assert forall k :: 0 <= k < |labels| ==> longer[k] == labels[k];
    assert longer[|labels|] == l;
  }

  function SeedLabel(c: Cache, individual: Individual, l: ReadOffConcept): Cache {
    match l.node
    case None => c
    case Some(n) =>
      var e := if n in c then c[n] else ConceptElement({}, {});
      if l.known then c[n := e.(known := e.known + {individual})]
      else c[n := e.(possible := e.possible + {individual})]
  }

  lemma SeedStep(c: Cache, r: Cache, individual: Individual, labels: seq<ReadOffConcept>, l: ReadOffConcept)
    requires SeededWith(c, r, individual, labels)
    ensures SeededWith(c, SeedLabel(r, individual, l), individual, labels + [l])
  {
    var r' := SeedLabel(r, individual, l);
    forall n: nat, i
      ensures i in KnownAt(r', n) <==> (i in KnownAt(c, n) || (i == individual && ReadOffConcept(Some(n), true) in labels + [l]))
    {
      assert i in KnownAt(r, n) <==> (i in KnownAt(c, n) || (i == individual && ReadOffConcept(Some(n), true) in labels));
    }
    forall n: nat, i
      ensures i in PossibleAt(r', n) <==> (i in PossibleAt(c, n) || (i == individual && ReadOffConcept(Some(n), false) in labels + [l]))
    {
      assert i in PossibleAt(r, n) <==> (i in PossibleAt(c, n) || (i == individual && ReadOffConcept(Some(n), false) in labels));
    }
  }

  class SeededClassInstanceManager {
    var conceptToElement: Cache
    var readingOffFoundPossible: bool
    var tick: nat

    constructor ()
      ensures conceptToElement == map[] && !readingOffFoundPossible
    {
      conceptToElement, readingOffFoundPossible, tick := map[], false, 0;
    }

    /** `read_off_types`: each label of an individual's node seeds a known or a
        possible instance. */
    method ReadOffTypes(individual: Individual, labels: seq<ReadOffConcept>)
      requires FlagOk(conceptToElement, readingOffFoundPossible)
      modifies this`conceptToElement, this`readingOffFoundPossible
      ensures FlagOk(conceptToElement, readingOffFoundPossible)
      ensures SeededWith(old(conceptToElement), conceptToElement, individual, labels)
      ensures conceptToElement.Keys == old(conceptToElement).Keys + LabelNodes(labels)
    {
      for k := 0 to |labels|
        invariant FlagOk(conceptToElement, readingOffFoundPossible)
        invariant conceptToElement.Keys == old(conceptToElement).Keys + LabelNodes(labels[..k])
        invariant SeededWith(old(conceptToElement), conceptToElement, individual, labels[..k])
      {
        assert labels[..k + 1] == labels[..k] + [labels[k]];
        SeedStep(old(conceptToElement), conceptToElement, individual, labels[..k], labels[k]);
        LabelNodesSnoc(labels[..k], labels[k]);
        conceptToElement := SeedLabel(conceptToElement, individual, labels[k]);
        if labels[k].node.Some? && !labels[k].known {
          readingOffFoundPossible := true;
        }
      }
      assert labels[..|labels|] == labels;
    }

    /** `seed_top_known`: the individual becomes a known instance of `top`, and
        nothing else changes. */
    method SeedTopKnown(top: nat, individual: Individual)
      modifies this`conceptToElement
      ensures conceptToElement.Keys == old(conceptToElement).Keys + {top}
      ensures FlagOk(old(conceptToElement), readingOffFoundPossible) ==> FlagOk(conceptToElement, readingOffFoundPossible)
      ensures KnownAt(conceptToElement, top) == KnownAt(old(conceptToElement), top) + {individual}
      ensures PossibleAt(conceptToElement, top) == PossibleAt(old(conceptToElement), top)
      ensures forall n: nat :: n != top ==>
        KnownAt(conceptToElement, n) == KnownAt(old(conceptToElement), n) && PossibleAt(conceptToElement, n) == PossibleAt(old(conceptToElement), n)
    {
      var e := if top in conceptToElement then conceptToElement[top] else ConceptElement({}, {});
      conceptToElement := conceptToElement[top := e.(known := e.known + {individual})];
    }

    /** `normalize_concept_instances`: strips from ancestors what a node records,
        walking up from bottom and stopping at nodes without elements. */
    method NormalizeConceptInstances(h: Hierarchy, ghost truth: map<nat, set<Individual>>, ghost sure: map<nat, set<Individual>>, ghost individuals: set<Individual>)
      returns (ghost walked: set<nat>)
      requires Proper(h) && CacheInv(h, truth, sure, individuals, conceptToElement, {})
      requires FlagOk(conceptToElement, readingOffFoundPossible)
      modifies this`conceptToElement
      ensures CacheInv(h, truth, sure, individuals, conceptToElement, {}) && FlagOk(conceptToElement, readingOffFoundPossible)
      ensures Smaller(old(conceptToElement), conceptToElement) && KeepsKnown(h, old(conceptToElement), conceptToElement)
      ensures h.nodes[h.bottom].parents <= walked && WalkedUp(h, conceptToElement, walked, {})
    {
      hide CacheInv, Proper, Smaller, WalkedUp, Elems, Strip, FlagOk, KeepsKnown;
      ProperLinks(h);
      var queued := h.nodes[h.bottom].parents;
      var toProcess: seq<nat> := InSomeOrder<nat>(queued);
      ElemsListing(queued, toProcess);
      WalkStart(h, conceptToElement, queued, Elems(toProcess));
      SmallerRefl(conceptToElement);
      KeepsKnownRefl(h, conceptToElement);
      while |toProcess| > 0
        invariant CacheInv(h, truth, sure, individuals, conceptToElement, {}) && FlagOk(conceptToElement, readingOffFoundPossible)
        invariant Smaller(old(conceptToElement), conceptToElement) && KeepsKnown(h, old(conceptToElement), conceptToElement) && h.nodes[h.bottom].parents <= queued
        invariant WalkedUp(h, conceptToElement, queued, Elems(toProcess))
        invariant queued <= Up(h).Keys && Elems(toProcess) <= Up(h).Keys
        decreases Up(h).Keys - queued, |toProcess|
      {
        var current := toProcess[0];
        ElemsFirst(toProcess);
        toProcess := toProcess[1..];
        ghost var c, seen, waiting := conceptToElement, queued, Elems(toProcess);
        if current in conceptToElement {
          var reached := ReachableFrom(Up(h), current);
          var ancestors := reached - {current};
          StripKeeps(h, truth, sure, individuals, conceptToElement, current, ancestors);
          conceptToElement := Strip(conceptToElement, current, ancestors);
          KeepsKnownStrip(h, old(conceptToElement), c, current, ancestors);
          SmallerStrip(old(conceptToElement), c, current, ancestors, readingOffFoundPossible);
          var unseen := h.nodes[current].parents - queued;
          var more: seq<nat> := InSomeOrder<nat>(unseen);
          assert unseen != {} || more == [];
          ElemsListing(unseen, more);
          ElemsConcat(toProcess, more);
          queued := queued + unseen;
          toProcess := toProcess + more;
          WalkStep(h, c, seen, waiting, current, ancestors, queued, Elems(toProcess));
        } else {
          WalkSkip(h, c, seen, waiting, current);
        }
      }
      ElemsNone(toProcess);
      walked := queued;
    }

    /** One round of `realize`. */
    method RealizeNode(h: Hierarchy, o: InstanceOracle, ghost truth: map<nat, set<Individual>>, ghost sure: map<nat, set<Individual>>, ghost individuals: set<Individual>, ghost order: seq<nat>, ghost k: nat, current: nat)
      requires Proper(h) && InstancesOk(h, truth, individuals) && InstanceOracleOk(h, truth, sure, individuals, o) && ChildrenFirst(h, order)
      requires k < |order| && order[k] == current
      requires CacheInv(h, truth, sure, individuals, conceptToElement, Elems(order[..k])) && PossiblesAhead(h, order, k, conceptToElement)
      requires current in conceptToElement && conceptToElement[current].possible != {}
      modifies this`conceptToElement, this`tick
      ensures CacheInv(h, truth, sure, individuals, conceptToElement, Elems(order[..k + 1])) && PossiblesAhead(h, order, k + 1, conceptToElement)
      ensures forall n: nat :: KnownAt(old(conceptToElement), n) <= KnownAt(conceptToElement, n)
    {
      hide Proper, InstancesOk, InstanceOracleOk, ChildrenFirst, CacheInv, PossiblesAhead, Pushed, PushSound;
      ProperLinks(h);
      ParentsAhead(h, order, k);
      var c := conceptToElement;
      var possibles := c[current].possible;
      var confirmed, refuted;
      PossiblesWithin(h, truth, sure, individuals, c, Elems(order[..k]), current);
      confirmed, refuted, tick := DecidePossibles(o, h, truth, sure, individuals, current, possibles, tick);
      var d := Decide(c, current, confirmed);
      DecideSound(h, truth, sure, individuals, c, Elems(order[..k]), current, confirmed, refuted, h.nodes[current].parents);
      var r := PushToParents(h, truth, individuals, d, h.nodes[current].parents, refuted);
      conceptToElement := r;
      DecideKeeps(h, truth, sure, individuals, c, r, Elems(order[..k]), current, confirmed, refuted);
      AheadAfter(h, truth, individuals, order, k, c, d, r);
      KnownGrows(c, current, confirmed, r, h.nodes[current].parents, refuted);
      assert order[..k + 1] == order[..k] + [current];
      ElemsSnoc(order[..k], current);
    }

    /** `realize`: no possibles are left, what is known is true, and what the oracle
        surely confirms or was known before is known at or below its node; so with an
        oracle that confirms everything true the cache answers exactly. */
    method Realize(h: Hierarchy, o: InstanceOracle, ghost truth: map<nat, set<Individual>>, ghost sure: map<nat, set<Individual>>, ghost individuals: set<Individual>)
      requires Proper(h) && InstancesOk(h, truth, individuals) && InstanceOracleOk(h, truth, sure, individuals, o)
      requires Seeded(h, truth, sure, individuals, conceptToElement) && FlagOk(conceptToElement, readingOffFoundPossible)
      modifies this
      ensures Settles(h, truth, sure, conceptToElement) && KeepsKnown(h, old(conceptToElement), conceptToElement)
      ensures sure == truth ==> Realized(h, truth, conceptToElement)
      ensures !readingOffFoundPossible
    {
      hide Proper, InstancesOk, InstanceOracleOk, ChildrenFirst, CacheInv, PossiblesAhead, Seeded, Realized, Settles, KeepsKnown;
      SeededInv(h, truth, sure, individuals, conceptToElement);
      ghost var walked := NormalizeConceptInstances(h, truth, sure, individuals);
      if !readingOffFoundPossible {
        NothingPossible(h, truth, sure, individuals, conceptToElement, {});
        SettledExactly(h, truth, sure, conceptToElement);
        return;
      }
      ProperLinks(h);
      var order := NodesBottomUp(h);
      RealizeStart(h, order, conceptToElement);
      for k := 0 to |order|
        invariant CacheInv(h, truth, sure, individuals, conceptToElement, Elems(order[..k])) && PossiblesAhead(h, order, k, conceptToElement)
        invariant KeepsKnown(h, old(conceptToElement), conceptToElement)
      {
        var current := order[k];
        if current == h.bottom || current !in conceptToElement || conceptToElement[current].possible == {} {
          RealizeSkip(h, truth, sure, individuals, order, k, conceptToElement);
        } else {
          ghost var c := conceptToElement;
          RealizeNode(h, o, truth, sure, individuals, order, k, current);
          KeepsKnownGrow(h, old(conceptToElement), c, conceptToElement);
        }
      }
      RealizeEnd(h, truth, sure, individuals, order, conceptToElement);
      SettledExactly(h, truth, sure, conceptToElement);
      readingOffFoundPossible := false;
    }
  }

  lemma SettledExactly(h: Hierarchy, truth: map<nat, set<Individual>>, sure: map<nat, set<Individual>>, c: Cache)
    requires Settles(h, truth, sure, c)
    ensures sure == truth ==> Realized(h, truth, c)
  {
  }

  lemma KnownGrows(c: Cache, current: nat, confirmed: set<Individual>, r: Cache, parents: set<nat>, refuted: set<Individual>)
    requires current in c && Pushed(Decide(c, current, confirmed), r, parents, refuted)
    ensures forall n: nat :: KnownAt(c, n) <= KnownAt(r, n)
  {
    var d := Decide(c, current, confirmed);
    forall n: nat ensures KnownAt(c, n) <= KnownAt(r, n) {
      assert KnownAt(c, n) <= KnownAt(d, n) <= KnownAt(r, n);
    }
  }

  lemma PossiblesWithin(h: Hierarchy, truth: map<nat, set<Individual>>, sure: map<nat, set<Individual>>, individuals: set<Individual>, c: Cache, done: set<nat>, n: nat)
    requires CacheInv(h, truth, sure, individuals, c, done) && n in c
    ensures c[n].possible <= individuals
  {
  }

  lemma ProperLinks(h: Hierarchy)
    requires Proper(h)
    ensures Linked(h.nodes) && Acyclic(h) && h.bottom < |h.nodes| && h.top < |h.nodes|
    ensures forall n: nat, q :: n < |h.nodes| && q in h.nodes[n].parents ==> q < |h.nodes|
  {
  }

  lemma DecideSound(h: Hierarchy, truth: map<nat, set<Individual>>, sure: map<nat, set<Individual>>, individuals: set<Individual>, c: Cache, done: set<nat>, current: nat,
                    confirmed: set<Individual>, refuted: set<Individual>, parents: set<nat>)
    requires CacheInv(h, truth, sure, individuals, c, done) && current in c
    requires SplitBy(truth, sure, current, c[current].possible, confirmed, refuted)
    ensures PushSound(h, truth, individuals, Decide(c, current, confirmed), Decide(c, current, confirmed), parents)
    ensures refuted <= individuals
    ensures PossibleAt(Decide(c, current, confirmed), current) == {}
    ensures forall n: nat :: n != current ==> PossibleAt(Decide(c, current, confirmed), n) == PossibleAt(c, n)
  {
  }

  lemma RealizeStart(h: Hierarchy, order: seq<nat>, c: Cache)
    ensures Elems(order[..0]) == {} && PossiblesAhead(h, order, 0, c)
  {
  }

  lemma RealizeSkip(h: Hierarchy, truth: map<nat, set<Individual>>, sure: map<nat, set<Individual>>, individuals: set<Individual>, order: seq<nat>, k: nat, c: Cache)
    requires k < |order| && CacheInv(h, truth, sure, individuals, c, Elems(order[..k])) && PossiblesAhead(h, order, k, c)
    requires order[k] == h.bottom || order[k] !in c || c[order[k]].possible == {}
    ensures CacheInv(h, truth, sure, individuals, c, Elems(order[..k + 1])) && PossiblesAhead(h, order, k + 1, c)
  {
    var done, done' := Elems(order[..k]), Elems(order[..k + 1]);
    assert order[..k + 1] == order[..k] + [order[k]];
    ElemsSnoc(order[..k], order[k]);
    assert PossibleAt(c, order[k]) == {};
    forall n: nat, i | n in sure && i in sure[n] ensures RecordedBelow(h, c, done', n, i) {
      assert RecordedBelow(h, c, done, n, i);
      var m: nat :| Reach(Up(h), m, n) && Records(c, done, m, i);
      assert Records(c, done', m, i);
    }
  }

  lemma RealizeEnd(h: Hierarchy, truth: map<nat, set<Individual>>, sure: map<nat, set<Individual>>, individuals: set<Individual>, order: seq<nat>, c: Cache)
    requires InstancesOk(h, truth, individuals) && CacheInv(h, truth, sure, individuals, c, Elems(order[..|order|]))
    requires PossiblesAhead(h, order, |order|, c) && forall n: nat :: n < |h.nodes| ==> n in order
    ensures Settles(h, truth, sure, c)
  {
    forall n | n in c ensures c[n].possible == {} {
      assert n in order;
      assert PossibleAt(c, n) == {};
    }
    NothingPossible(h, truth, sure, individuals, c, Elems(order[..|order|]));
  }

  // --- what normalisation achieves ------------------------------------------------------------

  /** Nothing was added. */
  ghost predicate Smaller(c: Cache, d: Cache) {
    d.Keys == c.Keys && forall n: nat :: n in d ==> d[n].known <= c[n].known && d[n].possible <= c[n].possible
  }

  /** No strict ancestor repeats what `n` records. */
  ghost predicate Specific(h: Hierarchy, c: Cache, n: nat) {
    forall a: nat {:trigger Reach(Up(h), n, a)} :: a != n && Reach(Up(h), n, a) ==>
      KnownAt(c, a) !! KnownAt(c, n) && PossibleAt(c, a) !! (KnownAt(c, n) + PossibleAt(c, n))
  }

  /** Every walked node with an element has handed on to its parents and is not
      repeated above, except those still waiting. */
  ghost predicate WalkedUp(h: Hierarchy, c: Cache, walked: set<nat>, waiting: set<nat>) {
    forall n: nat {:trigger Specific(h, c, n)} :: n in walked && n !in waiting && n in c && n < |h.nodes| ==>
      Specific(h, c, n) && h.nodes[n].parents <= walked
  }

  lemma SmallerRefl(c: Cache)
    ensures Smaller(c, c)
  {
  }

  lemma SmallerStrip(c0: Cache, c: Cache, current: nat, ancestors: set<nat>, found: bool)
    requires Smaller(c0, c) && FlagOk(c, found)
    ensures Smaller(c0, Strip(c, current, ancestors)) && FlagOk(Strip(c, current, ancestors), found)
  {
  }

  lemma SpecificStrip(h: Hierarchy, c: Cache, current: nat, ancestors: set<nat>, n: nat)
    requires forall a: nat :: a in ancestors <==> Reach(Up(h), current, a) && a != current
    requires n == current || Specific(h, c, n)
    ensures Specific(h, Strip(c, current, ancestors), n)
  {
    var d := Strip(c, current, ancestors);
    forall a: nat | a != n && Reach(Up(h), n, a)
      ensures KnownAt(d, a) !! KnownAt(d, n) && PossibleAt(d, a) !! (KnownAt(d, n) + PossibleAt(d, n))
    {
      assert KnownAt(d, a) <= KnownAt(c, a) && PossibleAt(d, a) <= PossibleAt(c, a);
      assert KnownAt(d, n) <= KnownAt(c, n) && PossibleAt(d, n) <= PossibleAt(c, n);
    }
  }

  lemma WalkStart(h: Hierarchy, c: Cache, queued: set<nat>, waiting: set<nat>)
    requires queued <= waiting
    ensures WalkedUp(h, c, queued, waiting)
  {
  }

  lemma WalkStep(h: Hierarchy, c: Cache, seen: set<nat>, waiting: set<nat>, current: nat, ancestors: set<nat>, queued: set<nat>, waiting': set<nat>)
    requires WalkedUp(h, c, seen, waiting + {current}) && current < |h.nodes|
    requires forall a: nat :: a in ancestors <==> Reach(Up(h), current, a) && a != current
    requires queued == seen + (h.nodes[current].parents - seen) && waiting' == waiting + (h.nodes[current].parents - seen)
    ensures WalkedUp(h, Strip(c, current, ancestors), queued, waiting')
  {
    var d := Strip(c, current, ancestors);
    forall n: nat | n in queued && n !in waiting' && n in d && n < |h.nodes| ensures Specific(h, d, n) && h.nodes[n].parents <= queued {
      if n != current {
        assert Specific(h, c, n);
      }
      SpecificStrip(h, c, current, ancestors, n);
    }
  }

  lemma WalkSkip(h: Hierarchy, c: Cache, seen: set<nat>, waiting: set<nat>, current: nat)
    requires WalkedUp(h, c, seen, waiting + {current}) && current !in c
    ensures WalkedUp(h, c, seen, waiting)
  {
  }
}
