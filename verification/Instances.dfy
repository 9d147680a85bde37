/** The known/possible instance cache of `SeededClassInstanceManager`: what its
    normalisation and realisation steps keep. */
module Instances {
  import opened Elements
  import opened Digraph
  import opened Hierarchies
  import opened BottomUp

  /** `AtomicConceptElement`: the known and possible instances of one node. */
  datatype ConceptElement = ConceptElement(known: set<Individual>, possible: set<Individual>)

  type Cache = map<nat, ConceptElement>

  function KnownAt(c: Cache, n: nat): set<Individual> {
    if n in c then c[n].known else {}
  }

  function PossibleAt(c: Cache, n: nat): set<Individual> {
    if n in c then c[n].possible else {}
  }

  /** The hierarchies instance queries run on: acyclic, nothing below bottom. */
  ghost predicate Proper(h: Hierarchy) {
    Linked(h.nodes) && Acyclic(h) && h.top < |h.nodes| && h.bottom < |h.nodes| && h.nodes[h.bottom].children == {}
  }

  /** Every classified hierarchy is one. */
  lemma ClassifiedProper(h: Hierarchy, g: Graph<Element>, top: Element, bottom: Element)
    requires Represents(h, g) && Bounded(h, g, top, bottom)
    requires forall a :: a in g ==> Reach(g, bottom, a)
    ensures Proper(h)
  {
    RepresentsAcyclic(h, g, top, bottom);
    forall n: nat | n < |h.nodes| ensures n !in h.nodes[h.bottom].children {
      BottomLeast(h, g, top, bottom, n);
      assert Reach(Up(h), n, h.bottom) ==> n == h.bottom;
      if h.bottom in Succ(Up(h), n) {
        ReachEdge(Up(h), n, h.bottom);
      }
    }
  }

  lemma BottomLeast(h: Hierarchy, g: Graph<Element>, top: Element, bottom: Element, n: nat)
    requires Represents(h, g) && Bounded(h, g, top, bottom) && n < |h.nodes|
    requires forall a :: a in g ==> Reach(g, bottom, a)
    ensures Reach(Up(h), h.bottom, n)
  {
    var a := h.nodes[n].representative;
    assert Reach(g, bottom, a);
  }

  /** Nothing but bottom lies at or below bottom. */
  lemma OnlyBottomBelow(h: Hierarchy, m: nat)
    requires Proper(h) && Reach(Up(h), m, h.bottom)
    ensures m == h.bottom
  {
    if m != h.bottom {
      var k := LastStep(h, m, h.bottom);
    }
  }

  /** The true instances per node: inherited upwards, none at bottom, everyone at top. */
  ghost predicate InstancesOk(h: Hierarchy, truth: map<nat, set<Individual>>, individuals: set<Individual>) {
    && truth.Keys == Up(h).Keys
    && h.top < |h.nodes| && truth[h.top] == individuals
    && h.bottom < |h.nodes| && truth[h.bottom] == {}
    && (forall n: nat :: n < |h.nodes| ==> truth[n] <= individuals)
    && (forall n: nat, q: nat {:trigger q in h.nodes[n].parents} :: n < |h.nodes| && q in h.nodes[n].parents ==> q in truth && truth[n] <= truth[q])
  }

  /** `i` is recorded at `m` or below: known, or possible at a node not done yet. */
  ghost predicate Records(c: Cache, done: set<nat>, m: nat, i: Individual) {
    i in KnownAt(c, m) || (m !in done && i in PossibleAt(c, m))
  }

  ghost predicate RecordedBelow(h: Hierarchy, c: Cache, done: set<nat>, n: nat, i: Individual) {
    exists m: nat :: Reach(Up(h), m, n) && Records(c, done, m, i)
  }

  /** `i` is a known instance of some node at or below `n`. */
  ghost predicate KnownBelow(h: Hierarchy, c: Cache, n: nat, i: Individual) {
    exists m: nat :: Reach(Up(h), m, n) && i in KnownAt(c, m)
  }

  /** Nothing false is known, nothing is possible at bottom, and every instance the
      oracle is sure to confirm is recorded at or below its node. */
  ghost predicate CacheInv(h: Hierarchy, truth: map<nat, set<Individual>>, sure: map<nat, set<Individual>>, individuals: set<Individual>, c: Cache, done: set<nat>) {
    && c.Keys <= Up(h).Keys && truth.Keys == Up(h).Keys == sure.Keys
    && (forall n :: n in c ==> c[n].known <= truth[n] && c[n].possible <= individuals)
    && PossibleAt(c, h.bottom) == {}
    && (forall n: nat, i {:trigger RecordedBelow(h, c, done, n, i)} :: n in sure && i in sure[n] ==> RecordedBelow(h, c, done, n, i))
  }

  lemma TruthUp(h: Hierarchy, truth: map<nat, set<Individual>>, individuals: set<Individual>, m: nat, n: nat)
    requires InstancesOk(h, truth, individuals) && m < |h.nodes| && Reach(Up(h), m, n)
    ensures n in truth && truth[m] <= truth[n]
  {
    var S := set q | q in truth && truth[m] <= truth[q];
    ReachClosed(Up(h), S, m, n);
  }

  /** Stripping from `ancestors` what `current` records. */
  function Strip(c: Cache, current: nat, ancestors: set<nat>): Cache {
    map n | n in c ::
      if n in ancestors then ConceptElement(c[n].known - KnownAt(c, current), c[n].possible - KnownAt(c, current) - PossibleAt(c, current))
      else c[n]
  }

  /** A stripped record leaves one below it behind. */
  lemma StripRecords(h: Hierarchy, c: Cache, current: nat, ancestors: set<nat>, m: nat, i: Individual)
    requires forall a: nat :: a in ancestors <==> Reach(Up(h), current, a) && a != current
    requires Records(c, {}, m, i)
    ensures exists m': nat :: Reach(Up(h), m', m) && Records(Strip(c, current, ancestors), {}, m', i)
  {
    var r := Strip(c, current, ancestors);
    if Records(r, {}, m, i) {
      ReachRefl(Up(h), m);
    } else {
      assert m in ancestors;
      assert Records(r, {}, current, i);
    }
  }

  lemma StripKeeps(h: Hierarchy, truth: map<nat, set<Individual>>, sure: map<nat, set<Individual>>, individuals: set<Individual>, c: Cache, current: nat, ancestors: set<nat>)
    requires CacheInv(h, truth, sure, individuals, c, {})
    requires forall a: nat :: a in ancestors <==> Reach(Up(h), current, a) && a != current
    ensures CacheInv(h, truth, sure, individuals, Strip(c, current, ancestors), {})
  {
    var r := Strip(c, current, ancestors);
    forall n: nat, i | n in sure && i in sure[n] ensures RecordedBelow(h, r, {}, n, i) {
      assert RecordedBelow(h, c, {}, n, i);
      var m: nat :| Reach(Up(h), m, n) && Records(c, {}, m, i);
      StripRecords(h, c, current, ancestors, m, i);
      var m': nat :| Reach(Up(h), m', m) && Records(r, {}, m', i);
      ReachTrans(Up(h), m', m, n);
    }
  }

  /** What was known stays known at the node or below it. */
  ghost predicate KeepsKnown(h: Hierarchy, c: Cache, d: Cache) {
    forall n: nat, i {:trigger i in KnownAt(c, n)} :: i in KnownAt(c, n) ==> KnownBelow(h, d, n, i)
  }

  lemma KeepsKnownRefl(h: Hierarchy, c: Cache)
    ensures KeepsKnown(h, c, c)
  {
    forall n: nat, i | i in KnownAt(c, n) ensures KnownBelow(h, c, n, i) {
      ReachRefl(Up(h), n);
    }
  }

  lemma KeepsKnownStrip(h: Hierarchy, c0: Cache, c: Cache, current: nat, ancestors: set<nat>)
    requires KeepsKnown(h, c0, c) && forall a: nat :: a in ancestors <==> Reach(Up(h), current, a) && a != current
    ensures KeepsKnown(h, c0, Strip(c, current, ancestors))
  {
    var r := Strip(c, current, ancestors);
    forall n: nat, i | i in KnownAt(c0, n) ensures KnownBelow(h, r, n, i) {
      var m: nat :| Reach(Up(h), m, n) && i in KnownAt(c, m);
      if i !in KnownAt(r, m) {
        assert m in ancestors && i in KnownAt(r, current);
        ReachTrans(Up(h), current, m, n);
      }
    }
  }

  lemma KeepsKnownGrow(h: Hierarchy, c0: Cache, c: Cache, r: Cache)
    requires KeepsKnown(h, c0, c) && forall n: nat :: KnownAt(c, n) <= KnownAt(r, n)
    ensures KeepsKnown(h, c0, r)
  {
    forall n: nat, i | i in KnownAt(c0, n) ensures KnownBelow(h, r, n, i) {
      var m: nat :| Reach(Up(h), m, n) && i in KnownAt(c, m);
      assert KnownAt(c, m) <= KnownAt(r, m);
    }
  }

  /** The cache after the possibles of `current` were decided: `confirmed` become
      known there. */
  function Decide(c: Cache, current: nat, confirmed: set<Individual>): Cache
    requires current in c
  {
    c[current := ConceptElement(c[current].known + confirmed, {})]
  }

  /** Pushing refuted possibles to one parent; top, if it has an element already,
      takes them as known. */
  function PushTo(c: Cache, parent: nat, top: nat, refuted: set<Individual>): Cache {
    var e := if parent in c then c[parent] else ConceptElement({}, {});
    if parent == top && parent in c then c[parent := e.(known := e.known + refuted)]
    else c[parent := e.(possible := e.possible + refuted)]
  }

  /** `r` records at least what `c` records, and `refuted` at every node of `pushed`. */
  ghost predicate Pushed(c: Cache, r: Cache, pushed: set<nat>, refuted: set<Individual>) {
    && c.Keys <= r.Keys
    && (forall n: nat {:trigger KnownAt(r, n)} :: KnownAt(c, n) <= KnownAt(r, n))
    && (forall n: nat {:trigger PossibleAt(r, n)} :: PossibleAt(c, n) <= PossibleAt(r, n))
    && (forall n: nat :: n in pushed ==> refuted <= KnownAt(r, n) + PossibleAt(r, n))
  }

  /** Only parents changed, and what they gained is sound. */
  ghost predicate PushSound(h: Hierarchy, truth: map<nat, set<Individual>>, individuals: set<Individual>, c: Cache, r: Cache, parents: set<nat>) {
    && r.Keys <= Up(h).Keys && truth.Keys == Up(h).Keys
    && (forall n :: n in r ==> r[n].known <= truth[n] && r[n].possible <= individuals)
    && (forall n: nat {:trigger PossibleAt(r, n)} :: n !in parents ==> PossibleAt(r, n) == PossibleAt(c, n))
  }

  lemma PushKeeps(h: Hierarchy, truth: map<nat, set<Individual>>, individuals: set<Individual>, c: Cache, r: Cache,
                  pushed: set<nat>, parents: set<nat>, q: nat, refuted: set<Individual>)
    requires InstancesOk(h, truth, individuals) && refuted <= individuals
    requires Pushed(c, r, pushed, refuted) && PushSound(h, truth, individuals, c, r, parents) && q in parents && q < |h.nodes|
    ensures var r' := PushTo(r, q, h.top, refuted);
            Pushed(c, r', pushed + {q}, refuted) && PushSound(h, truth, individuals, c, r', parents)
  {
    var r' := PushTo(r, q, h.top, refuted);
    assert forall n: nat :: n != q ==> KnownAt(r', n) == KnownAt(r, n) && PossibleAt(r', n) == PossibleAt(r, n);
    assert KnownAt(r, q) <= KnownAt(r', q) && PossibleAt(r, q) <= PossibleAt(r', q);
  }

  /** The possibles of a node are split into confirmed ones, which are true and
      include the sure ones, and refuted ones. */
  ghost predicate SplitBy(truth: map<nat, set<Individual>>, sure: map<nat, set<Individual>>, n: nat, possible: set<Individual>,
                          confirmed: set<Individual>, refuted: set<Individual>)
    requires n in truth && n in sure
  {
    possible * sure[n] <= confirmed <= possible * truth[n] && refuted == possible - confirmed
  }

  /** Deciding the possibles of `current` and pushing the refuted ones up keeps
      every sure instance recorded. */
  lemma DecideKeeps(h: Hierarchy, truth: map<nat, set<Individual>>, sure: map<nat, set<Individual>>, individuals: set<Individual>, c: Cache, r: Cache, done: set<nat>, current: nat,
                    confirmed: set<Individual>, refuted: set<Individual>)
    requires Proper(h) && InstancesOk(h, truth, individuals) && CacheInv(h, truth, sure, individuals, c, done)
    requires current in c && current !in done && h.nodes[current].parents !! done + {current}
    requires SplitBy(truth, sure, current, c[current].possible, confirmed, refuted)
    requires Pushed(Decide(c, current, confirmed), r, h.nodes[current].parents, refuted)
    requires PushSound(h, truth, individuals, Decide(c, current, confirmed), r, h.nodes[current].parents)
    ensures CacheInv(h, truth, sure, individuals, r, done + {current})
  {
    forall n: nat, i | n in sure && i in sure[n] ensures RecordedBelow(h, r, done + {current}, n, i) {
      assert RecordedBelow(h, c, done, n, i);
      var m: nat :| Reach(Up(h), m, n) && Records(c, done, m, i);
      DecideRecords(h, truth, sure, c, r, done, current, confirmed, refuted, n, m, i);
    }
    assert h.bottom !in h.nodes[current].parents;
    assert PossibleAt(r, h.bottom) == PossibleAt(Decide(c, current, confirmed), h.bottom);
  }

  lemma DecideRecords(h: Hierarchy, truth: map<nat, set<Individual>>, sure: map<nat, set<Individual>>, c: Cache, r: Cache, done: set<nat>, current: nat,
                      confirmed: set<Individual>, refuted: set<Individual>, n: nat, m: nat, i: Individual)
    requires Linked(h.nodes) && truth.Keys == Up(h).Keys == sure.Keys
    requires current in c && current in truth && h.nodes[current].parents !! done + {current}
    requires SplitBy(truth, sure, current, c[current].possible, confirmed, refuted)
    requires Pushed(Decide(c, current, confirmed), r, h.nodes[current].parents, refuted)
    requires n in sure && i in sure[n] && Reach(Up(h), m, n) && Records(c, done, m, i)
    ensures RecordedBelow(h, r, done + {current}, n, i)
  {
    var d := Decide(c, current, confirmed);
    if m != current || i in KnownAt(d, current) {
      assert KnownAt(d, m) <= KnownAt(r, m) && PossibleAt(d, m) <= PossibleAt(r, m);
      assert Records(r, done + {current}, m, i);
    } else {
      assert i in refuted && n != current;
      var q := ReachFirst(Up(h), current, n);
      assert q in h.nodes[current].parents;
      assert Records(r, done + {current}, q, i);
    }
  }
}
