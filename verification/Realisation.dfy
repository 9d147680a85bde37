/** Realisation end to end: classify, read the individuals' labels off the saturated
    model, realise, and answer queries about types and instances. */
module Realisation {
  import opened Elements
  import opened Digraph
  import opened Hierarchies
  import opened Subsumption
  import opened ClassificationTheorems
  import opened Instances
  import opened InstanceManager
  import opened InstanceQueries

  /** An atomic concept on an individual's node in the saturated model, and whether
      it was asserted deterministically. */
  datatype Label = Label(concept: Element, known: bool)

  type Labels = map<Individual, seq<Label>>

  /** The classes each individual truly belongs to. */
  type Types = map<Individual, set<Element>>

  /** In a consistent ontology the types of an individual include top, exclude
      bottom and are closed under subsumption. */
  ghost predicate TypesOk(truth: Graph<Element>, p: Problem, individuals: set<Individual>, types: Types) {
    && types.Keys == individuals
    && (forall i :: i in types ==> types[i] <= p.elements && p.top in types[i] && p.bottom !in types[i])
    && (forall i, e {:trigger e in types[i]} :: i in types && e in types[i] ==> e in truth && truth[e] <= types[i])
  }

  /** The saturated model labels an individual with satisfiable concepts, truly where
      deterministic, and with all its types. */
  ghost predicate ReadOffOk(truth: Graph<Element>, p: Problem, types: Types, labels: Labels) {
    && labels.Keys == types.Keys
    && (forall i, l {:trigger l in labels[i]} :: i in labels && l in labels[i] && l.concept in p.elements ==>
          !Unsat(truth, p, l.concept) && (l.known ==> l.concept in types[i]))
    && (forall i, e {:trigger e in types[i]} :: i in types && e in types[i] && e != p.top ==>
          Label(e, true) in labels[i] || Label(e, false) in labels[i])
  }

  /** An entailment test, which may fail; answers may depend on a call number. */
  type InstanceTest = (nat, Element, Individual) -> Option<bool>

  /** The test is truthful whenever it answers. */
  ghost predicate EntailsOk(p: Problem, types: Types, test: InstanceTest) {
    forall t: nat, e, i {:trigger test(t, e, i)} :: e in p.elements && i in types && test(t, e, i).Some? ==> (test(t, e, i).value <==> e in types[i])
  }

  /** The oracle of `realize`: a failing test counts as negative. */
  function Confirms(test: InstanceTest): InstanceOracle {
    (t: nat, e: Element, i: Individual) => test(t, e, i) == Some(true)
  }

  ghost predicate Must(test: InstanceTest, e: Element, i: Individual) {
    forall t: nat {:trigger test(t, e, i)} :: test(t, e, i) == Some(true)
  }

  ghost predicate May(test: InstanceTest, e: Element, i: Individual) {
    exists t: nat :: test(t, e, i) == Some(true)
  }

  /** The node of a concept; top, bottom and unclassified concepts are skipped. */
  function NodeFor(p: Problem, h: Hierarchy, e: Element): Option<nat> {
    if e == p.top || e == p.bottom || e !in p.elements || e !in h.nodeOf then None else Some(h.nodeOf[e])
  }

  function AtNodes(p: Problem, h: Hierarchy, ls: seq<Label>): seq<ReadOffConcept> {
    seq(|ls|, k requires 0 <= k < |ls| => ReadOffConcept(NodeFor(p, h, ls[k].concept), ls[k].known))
  }

  lemma AtNodesMember(p: Problem, h: Hierarchy, ls: seq<Label>, n: nat, known: bool)
    ensures ReadOffConcept(Some(n), known) in AtNodes(p, h, ls) <==>
      exists e :: Label(e, known) in ls && NodeFor(p, h, e) == Some(n)
  {
    var at := AtNodes(p, h, ls);
    if ReadOffConcept(Some(n), known) in at {
      var k :| 0 <= k < |at| && at[k] == ReadOffConcept(Some(n), known);
      assert ls[k] == Label(ls[k].concept, known) && ls[k] in ls;
    }
    if exists e :: Label(e, known) in ls && NodeFor(p, h, e) == Some(n) {
      var e :| Label(e, known) in ls && NodeFor(p, h, e) == Some(n);
      var k :| 0 <= k < |ls| && ls[k] == Label(e, known);
      assert at[k] == ReadOffConcept(Some(n), known);
    }
  }

  // --- the true instances of the nodes -----------------------------------------------------

  /** `h` is the classified hierarchy of the truth. */
  ghost predicate Classified(truth: Graph<Element>, p: Problem, h: Hierarchy) {
    TruthOk(truth, p) && Represents(h, truth) && Bounded(h, truth, p.top, p.bottom)
  }

  ghost function NodeTruth(h: Hierarchy, types: Types): map<nat, set<Individual>> {
    map n | n in Up(h) :: set i | i in types && h.nodes[n].representative in types[i]
  }

  lemma PlacedIn(truth: Graph<Element>, p: Problem, h: Hierarchy)
    requires Classified(truth, p, h)
    ensures truth.Keys == p.elements && p.elements <= h.nodeOf.Keys && h.top < |h.nodes| && h.bottom < |h.nodes| && Linked(h.nodes)
    ensures p.top in p.elements && p.bottom in p.elements && h.nodeOf[p.top] == h.top && h.nodeOf[p.bottom] == h.bottom
    ensures h.nodes[h.top].representative == p.top && h.nodes[h.bottom].representative == p.bottom
    ensures forall e :: e in p.elements ==> h.nodeOf[e] < |h.nodes|
    ensures forall n: nat :: n < |h.nodes| ==> h.nodes[n].representative in p.elements && h.nodeOf[h.nodes[n].representative] == n
  {
  }

  /** An individual is an instance of a class's node iff of the class. */
  lemma TruthAtClass(truth: Graph<Element>, p: Problem, h: Hierarchy, types: Types, e: Element, i: Individual)
    requires Classified(truth, p, h) && TypesOk(truth, p, types.Keys, types) && e in p.elements && i in types
    ensures e in h.nodeOf && h.nodeOf[e] in NodeTruth(h, types)
    ensures i in NodeTruth(h, types)[h.nodeOf[e]] <==> e in types[i]
  {
    PlacedIn(truth, p, h);
    hide Classified, Represents, Bounded;
    var rep := h.nodes[h.nodeOf[e]].representative;
    assert rep in truth[e] && e in truth[rep] by {
      SameNodeEquivalent(truth, p, h, e, rep);
    }
  }

  lemma SameNodeEquivalent(truth: Graph<Element>, p: Problem, h: Hierarchy, a: Element, b: Element)
    requires Classified(truth, p, h) && a in p.elements && b in p.elements
    ensures a in truth && b in truth && a in h.nodeOf && b in h.nodeOf
    ensures h.nodeOf[a] == h.nodeOf[b] <==> b in truth[a] && a in truth[b]
    ensures Reach(Up(h), h.nodeOf[a], h.nodeOf[b]) <==> b in truth[a]
  {
    PlacedIn(truth, p, h);
    ClassificationExact(truth, p, h, a, b);
  }

  lemma NodeTruthOk(truth: Graph<Element>, p: Problem, h: Hierarchy, types: Types)
    requires Classified(truth, p, h) && TypesOk(truth, p, types.Keys, types)
    ensures Proper(h) && InstancesOk(h, NodeTruth(h, types), types.Keys)
  {
    hide Classified, Represents, Bounded, Proper, Linked, TruthOk;
    PlacedIn(truth, p, h);
    ClassifiedIsProper(truth, p, h);
    var t := NodeTruth(h, types);
    assert t[h.top] == types.Keys;
    assert t[h.bottom] == {};
    forall n: nat, q: nat | n < |h.nodes| && q in h.nodes[n].parents ensures q in t && t[n] <= t[q] {
      ParentSubsumes(truth, p, h, n, q);
    }
  }

  lemma ClassifiedIsProper(truth: Graph<Element>, p: Problem, h: Hierarchy)
    requires Classified(truth, p, h)
    ensures Proper(h)
  {
    forall a | a in truth ensures Reach(truth, p.bottom, a) {
      ReachEdge(truth, p.bottom, a);
    }
    ClassifiedProper(h, truth, p.top, p.bottom);
  }

  lemma ParentSubsumes(truth: Graph<Element>, p: Problem, h: Hierarchy, n: nat, q: nat)
    requires Classified(truth, p, h) && n < |h.nodes| && q in h.nodes[n].parents
    ensures q < |h.nodes| && h.nodes[n].representative in truth && h.nodes[q].representative in truth[h.nodes[n].representative]
  {
    PlacedIn(truth, p, h);
    hide Classified, Represents, Bounded;
    assert q in Succ(Up(h), n);
    ReachEdge(Up(h), n, q);
    SameNodeEquivalent(truth, p, h, h.nodes[n].representative, h.nodes[q].representative);
  }

  // --- seeding from the labels -----------------------------------------------------------------

  ghost predicate Labelled(p: Problem, h: Hierarchy, labels: Labels, i: Individual, n: nat, known: bool) {
    i in labels && ReadOffConcept(Some(n), known) in AtNodes(p, h, labels[i])
  }

  /** The cache holds exactly what the labels of the individuals `done` say, with all
      of them known at top. */
  ghost predicate SeededFor(p: Problem, h: Hierarchy, labels: Labels, c: Cache, done: set<Individual>) {
    && c.Keys <= Up(h).Keys
    && (forall n: nat, i {:trigger i in KnownAt(c, n)} :: i in KnownAt(c, n) <==> i in done && (n == h.top || Labelled(p, h, labels, i, n, true)))
    && (forall n: nat, i {:trigger i in PossibleAt(c, n)} :: i in PossibleAt(c, n) <==> i in done && Labelled(p, h, labels, i, n, false))
  }

  lemma SeedOne(p: Problem, h: Hierarchy, labels: Labels, c: Cache, d: Cache, e: Cache, done: set<Individual>, i: Individual)
    requires SeededFor(p, h, labels, c, done) && i in labels && h.top < |h.nodes|
    requires forall x :: x in p.elements && x in h.nodeOf ==> h.nodeOf[x] < |h.nodes|
    requires SeededWith(c, d, i, AtNodes(p, h, labels[i])) && d.Keys == c.Keys + LabelNodes(AtNodes(p, h, labels[i]))
    requires e.Keys == d.Keys + {h.top} && KnownAt(e, h.top) == KnownAt(d, h.top) + {i} && PossibleAt(e, h.top) == PossibleAt(d, h.top)
    requires forall n: nat :: n != h.top ==> KnownAt(e, n) == KnownAt(d, n) && PossibleAt(e, n) == PossibleAt(d, n)
    ensures SeededFor(p, h, labels, e, done + {i})
  {
    assert LabelNodes(AtNodes(p, h, labels[i])) <= Up(h).Keys;
    forall n: nat, j ensures j in KnownAt(e, n) <==> j in done + {i} && (n == h.top || Labelled(p, h, labels, j, n, true)) {
      assert j in KnownAt(d, n) <==> (j in KnownAt(c, n) || (j == i && Labelled(p, h, labels, i, n, true)));
    }
    forall n: nat, j ensures j in PossibleAt(e, n) <==> j in done + {i} && Labelled(p, h, labels, j, n, false) {
      assert j in PossibleAt(d, n) <==> (j in PossibleAt(c, n) || (j == i && Labelled(p, h, labels, i, n, false)));
    }
  }

  /** `i` is recorded as an instance of `m` to begin with, or may be confirmed. */
  ghost predicate Source(p: Problem, h: Hierarchy, labels: Labels, test: InstanceTest, m: nat, i: Individual) {
    m < |h.nodes| && (m == h.top || Labelled(p, h, labels, i, m, true) || May(test, h.nodes[m].representative, i))
  }

  ghost predicate SourceBelow(p: Problem, h: Hierarchy, labels: Labels, test: InstanceTest, n: nat, i: Individual) {
    exists m: nat :: Reach(Up(h), m, n) && Source(p, h, labels, test, m, i)
  }

  /** What realisation may find, and what it is sure to confirm. */
  ghost function Findable(p: Problem, h: Hierarchy, types: Types, labels: Labels, test: InstanceTest): map<nat, set<Individual>> {
    map n | n in Up(h) :: set i | i in types && SourceBelow(p, h, labels, test, n, i)
  }

  ghost function Sure(h: Hierarchy, types: Types, test: InstanceTest): map<nat, set<Individual>> {
    map n | n in Up(h) :: set i | i in types && Must(test, h.nodes[n].representative, i)
  }

  lemma SourceIsTrue(truth: Graph<Element>, p: Problem, h: Hierarchy, types: Types, labels: Labels, test: InstanceTest, m: nat, i: Individual)
    requires Classified(truth, p, h) && TypesOk(truth, p, types.Keys, types) && ReadOffOk(truth, p, types, labels) && EntailsOk(p, types, test)
    requires i in types && Source(p, h, labels, test, m, i)
    ensures i in NodeTruth(h, types)[m] && h.nodes[m].representative in types[i]
  {
    PlacedIn(truth, p, h);
    hide Classified, Represents, Bounded, Linked;
    if m == h.top || Labelled(p, h, labels, i, m, true) {
      KnownSeedTrue(truth, p, h, types, labels, m, i);
    }
  }

  lemma FindableOk(truth: Graph<Element>, p: Problem, h: Hierarchy, types: Types, labels: Labels, test: InstanceTest)
    requires Classified(truth, p, h) && TypesOk(truth, p, types.Keys, types) && ReadOffOk(truth, p, types, labels) && EntailsOk(p, types, test)
    ensures Proper(h) && InstancesOk(h, Findable(p, h, types, labels, test), types.Keys)
    ensures InstanceOracleOk(h, Findable(p, h, types, labels, test), Sure(h, types, test), types.Keys, Confirms(test))
  {
    hide Classified, Represents, Bounded, Linked, Proper, ReadOffOk, EntailsOk, Source;
    PlacedIn(truth, p, h);
    ClassifiedIsProper(truth, p, h);
    var t := Findable(p, h, types, labels, test);
    forall i | i in types ensures i in t[h.top] && i !in t[h.bottom] {
      TopIsSource(p, h, labels, test, i);
      BottomNotFound(truth, p, h, types, labels, test, i);
    }
    assert t[h.top] == types.Keys && t[h.bottom] == {};
    forall n: nat, q: nat | n < |h.nodes| && q in h.nodes[n].parents ensures q in t && t[n] <= t[q] {
      ParentSubsumes(truth, p, h, n, q);
      forall i | i in t[n] ensures i in t[q] {
        FoundAtParent(p, h, labels, test, n, q, i);
      }
    }
    forall u: nat, n: nat, i | n < |h.nodes| && i in types && Confirms(test)(u, h.nodes[n].representative, i) ensures i in t[n] {
      assert test(u, h.nodes[n].representative, i) == Some(true);
      ConfirmedIsFound(p, h, labels, test, n, i);
    }
  }

  lemma ConfirmedIsFound(p: Problem, h: Hierarchy, labels: Labels, test: InstanceTest, n: nat, i: Individual)
    requires n < |h.nodes| && May(test, h.nodes[n].representative, i)
    ensures SourceBelow(p, h, labels, test, n, i)
  {
    ReachRefl(Up(h), n);
  }

  lemma TopIsSource(p: Problem, h: Hierarchy, labels: Labels, test: InstanceTest, i: Individual)
    requires h.top < |h.nodes|
    ensures SourceBelow(p, h, labels, test, h.top, i)
  {
    ReachRefl(Up(h), h.top);
  }

  lemma FoundAtParent(p: Problem, h: Hierarchy, labels: Labels, test: InstanceTest, n: nat, q: nat, i: Individual)
    requires n < |h.nodes| && q in h.nodes[n].parents && SourceBelow(p, h, labels, test, n, i)
    ensures SourceBelow(p, h, labels, test, q, i)
  {
    var m: nat :| Reach(Up(h), m, n) && Source(p, h, labels, test, m, i);
    assert q in Succ(Up(h), n);
    ReachSnoc(Up(h), m, n, q);
  }

  lemma BottomNotFound(truth: Graph<Element>, p: Problem, h: Hierarchy, types: Types, labels: Labels, test: InstanceTest, i: Individual)
    requires Classified(truth, p, h) && TypesOk(truth, p, types.Keys, types) && ReadOffOk(truth, p, types, labels) && EntailsOk(p, types, test)
    requires i in types
    ensures !SourceBelow(p, h, labels, test, h.bottom, i)
  {
    hide Classified, Represents, Bounded, Linked, Proper, ReadOffOk, EntailsOk, Source;
    PlacedIn(truth, p, h);
    ClassifiedIsProper(truth, p, h);
    forall m: nat | Reach(Up(h), m, h.bottom) ensures !Source(p, h, labels, test, m, i) {
      OnlyBottomBelow(h, m);
      if Source(p, h, labels, test, h.bottom, i) {
        SourceIsTrue(truth, p, h, types, labels, test, h.bottom, i);
      }
    }
  }

  /** The read-off of a faithful model seeds everything `realize` needs. */
  lemma SeedsComplete(truth: Graph<Element>, p: Problem, h: Hierarchy, types: Types, labels: Labels, test: InstanceTest, c: Cache)
    requires Classified(truth, p, h) && TypesOk(truth, p, types.Keys, types) && ReadOffOk(truth, p, types, labels) && EntailsOk(p, types, test)
    requires SeededFor(p, h, labels, c, types.Keys)
    ensures Seeded(h, Findable(p, h, types, labels, test), Sure(h, types, test), types.Keys, c)
  {
    PlacedIn(truth, p, h);
    hide Classified, Represents, Bounded, Linked;
    var t, sure := Findable(p, h, types, labels, test), Sure(h, types, test);
    forall n: nat, i | n in c && i in c[n].known ensures i in t[n] {
      assert i in KnownAt(c, n);
      ReachRefl(Up(h), n);
      assert Source(p, h, labels, test, n, i);
    }
    forall n: nat, i | n in c && i in c[n].possible ensures i in types {
      assert i in PossibleAt(c, n);
    }
    forall i ensures i !in PossibleAt(c, h.bottom) {
      if i in types {
        NoneAtBottom(truth, p, h, types, labels, i);
      }
    }
    forall n: nat, i | n in sure && i in sure[n] ensures i in KnownAt(c, n) + PossibleAt(c, n) {
      assert test(0, h.nodes[n].representative, i) == Some(true);
      TrueIsSeeded(truth, p, h, types, labels, n, i);
      assert i in KnownAt(c, n) || i in PossibleAt(c, n);
    }
  }

  lemma KnownSeedTrue(truth: Graph<Element>, p: Problem, h: Hierarchy, types: Types, labels: Labels, n: nat, i: Individual)
    requires Classified(truth, p, h) && TypesOk(truth, p, types.Keys, types) && ReadOffOk(truth, p, types, labels)
    requires i in types && n < |h.nodes| && (n == h.top || Labelled(p, h, labels, i, n, true))
    ensures i in NodeTruth(h, types)[n]
  {
    PlacedIn(truth, p, h);
    hide Classified, Represents, Bounded, Linked;
    if n != h.top {
      AtNodesMember(p, h, labels[i], n, true);
      var e :| Label(e, true) in labels[i] && NodeFor(p, h, e) == Some(n);
      TruthAtClass(truth, p, h, types, e, i);
    }
  }

  lemma NoneAtBottom(truth: Graph<Element>, p: Problem, h: Hierarchy, types: Types, labels: Labels, i: Individual)
    requires Classified(truth, p, h) && TypesOk(truth, p, types.Keys, types) && ReadOffOk(truth, p, types, labels) && i in types
    ensures !Labelled(p, h, labels, i, h.bottom, false)
  {
    PlacedIn(truth, p, h);
    hide Classified, Represents, Bounded, Linked;
    AtNodesMember(p, h, labels[i], h.bottom, false);
    forall e | Label(e, false) in labels[i] && e in p.elements ensures h.nodeOf[e] != h.bottom {
      SameNodeEquivalent(truth, p, h, e, p.bottom);
    }
  }

  lemma TrueIsSeeded(truth: Graph<Element>, p: Problem, h: Hierarchy, types: Types, labels: Labels, n: nat, i: Individual)
    requires Classified(truth, p, h) && TypesOk(truth, p, types.Keys, types) && ReadOffOk(truth, p, types, labels)
    requires n < |h.nodes| && i in NodeTruth(h, types)[n]
    ensures i in types && (n == h.top || Labelled(p, h, labels, i, n, true) || Labelled(p, h, labels, i, n, false))
  {
    PlacedIn(truth, p, h);
    hide Classified, Represents, Bounded, Linked;
    var e := h.nodes[n].representative;
    if n != h.top {
      assert e != p.top && e != p.bottom && NodeFor(p, h, e) == Some(n);
      AtNodesMember(p, h, labels[i], n, true);
      AtNodesMember(p, h, labels[i], n, false);
    }
  }

  // --- the whole pipeline --------------------------------------------------------------------------

  /** Reads off every individual's labels and makes it a known instance of top. */
  method SeedFromModel(m: SeededClassInstanceManager, p: Problem, h: Hierarchy, individuals: seq<Individual>, labels: Labels)
    requires m.conceptToElement == map[] && !m.readingOffFoundPossible && h.top < |h.nodes|
    requires forall i :: i in individuals ==> i in labels
    requires forall x :: x in p.elements && x in h.nodeOf ==> h.nodeOf[x] < |h.nodes|
    modifies m
    ensures SeededFor(p, h, labels, m.conceptToElement, (set i | i in individuals))
    ensures FlagOk(m.conceptToElement, m.readingOffFoundPossible)
  {
    hide SeededFor, SeededWith, FlagOk;
    ghost var done: set<Individual> := {};
    SeedNone(p, h, labels);
    for k := 0 to |individuals|
      invariant SeededFor(p, h, labels, m.conceptToElement, done) && FlagOk(m.conceptToElement, m.readingOffFoundPossible)
      invariant forall i :: i in done <==> i in individuals[..k]
    {
      var i := individuals[k];
      ghost var c := m.conceptToElement;
      m.ReadOffTypes(i, AtNodes(p, h, labels[i]));
      ghost var d := m.conceptToElement;
      m.SeedTopKnown(h.top, i);
      SeedOne(p, h, labels, c, d, m.conceptToElement, done, i);
      done := done + {i};
      assert individuals[..k + 1] == individuals[..k] + [i];
    }
    assert individuals[..|individuals|] == individuals;
    assert done == set i | i in individuals;
  }

  lemma SeedNone(p: Problem, h: Hierarchy, labels: Labels)
    ensures SeededFor(p, h, labels, map[], {}) && FlagOk(map[], false)
  {
  }

  /** The cache answers queries over the classified hierarchy exactly. */
  ghost predicate Answers(truth: Graph<Element>, p: Problem, h: Hierarchy, types: Types, c: Cache) {
    && Classified(truth, p, h) && TypesOk(truth, p, types.Keys, types)
    && Realized(h, NodeTruth(h, types), c)
  }

  /** `f` is known of `i` from the labels, or its test succeeds: at every call, or
      at some call. */
  ghost predicate Support(p: Problem, h: Hierarchy, labels: Labels, test: InstanceTest, i: Individual, f: Element, always: bool)
    requires i in labels && f in h.nodeOf && h.nodeOf[f] < |h.nodes|
  {
    || f == p.top || Label(f, true) in labels[i]
    || (if always then Must(test, h.nodes[h.nodeOf[f]].representative, i) else May(test, h.nodes[h.nodeOf[f]].representative, i))
  }

  /** `e` subsumes a supported class. */
  ghost predicate Supported(truth: Graph<Element>, p: Problem, h: Hierarchy, labels: Labels, test: InstanceTest, i: Individual, e: Element, always: bool)
    requires i in labels
  {
    exists f :: f in p.elements && f in truth && e in truth[f] && f in h.nodeOf && h.nodeOf[f] < |h.nodes| && Support(p, h, labels, test, i, f, always)
  }

  ghost predicate NeverFails(p: Problem, types: Types, test: InstanceTest) {
    forall t: nat, e, i {:trigger test(t, e, i)} :: e in p.elements && i in types ==> test(t, e, i).Some?
  }

  /** A test that succeeds once succeeds always. */
  ghost predicate Lasting(p: Problem, types: Types, test: InstanceTest) {
    forall e, i {:trigger May(test, e, i)} :: e in p.elements && i in types && May(test, e, i) ==> Must(test, e, i)
  }

  /** The classes the realised cache assigns. */
  ghost function FoundTypes(p: Problem, h: Hierarchy, types: Types, c: Cache): Types {
    map i | i in types :: set e | e in p.elements && e in h.nodeOf && KnownBelow(h, c, h.nodeOf[e], i)
  }

  lemma FoundMeans(truth: Graph<Element>, p: Problem, h: Hierarchy, types: Types, labels: Labels, test: InstanceTest, c0: Cache, c: Cache)
    requires Classified(truth, p, h) && TypesOk(truth, p, types.Keys, types) && ReadOffOk(truth, p, types, labels) && EntailsOk(p, types, test)
    requires SeededFor(p, h, labels, c0, types.Keys) && KeepsKnown(h, c0, c)
    requires Settles(h, Findable(p, h, types, labels, test), Sure(h, types, test), c)
    ensures Answers(truth, p, h, FoundTypes(p, h, types, c), c)
  {
    hide Classified, Represents, Bounded, Linked, ReadOffOk, EntailsOk, SeededFor, KeepsKnown, Findable, Sure, Settles, Realized, TypesOk;
    FoundTypesOk(truth, p, h, types, labels, test, c0, c);
    FoundRealized(truth, p, h, types, labels, test, c0, c);
    assert FoundTypes(p, h, types, c).Keys == types.Keys;
  }

  lemma FoundTypesOk(truth: Graph<Element>, p: Problem, h: Hierarchy, types: Types, labels: Labels, test: InstanceTest, c0: Cache, c: Cache)
    requires Classified(truth, p, h) && TypesOk(truth, p, types.Keys, types) && ReadOffOk(truth, p, types, labels) && EntailsOk(p, types, test)
    requires SeededFor(p, h, labels, c0, types.Keys) && KeepsKnown(h, c0, c)
    requires Settles(h, Findable(p, h, types, labels, test), Sure(h, types, test), c)
    ensures TypesOk(truth, p, types.Keys, FoundTypes(p, h, types, c))
  {
    hide Classified, Represents, Bounded, Linked, ReadOffOk, EntailsOk, SeededFor, KeepsKnown, Findable, Sure, Settles, SourceBelow, KnownBelow;
    PlacedIn(truth, p, h);
    var found := FoundTypes(p, h, types, c);
    forall i | i in types ensures p.top in found[i] && p.bottom !in found[i] {
      TopFound(p, h, types, labels, c0, c, i);
      KnownIsFindable(truth, p, h, types, labels, test, c, h.bottom, i);
      BottomNotFound(truth, p, h, types, labels, test, i);
    }
    forall i, e | i in types && e in found[i] ensures e in truth && truth[e] <= found[i] {
      forall f | f in truth[e] ensures f in found[i] {
        FoundAbove(truth, p, h, c, e, f, i);
      }
    }
  }

  lemma FoundRealized(truth: Graph<Element>, p: Problem, h: Hierarchy, types: Types, labels: Labels, test: InstanceTest, c0: Cache, c: Cache)
    requires Classified(truth, p, h) && TypesOk(truth, p, types.Keys, types) && ReadOffOk(truth, p, types, labels) && EntailsOk(p, types, test)
    requires SeededFor(p, h, labels, c0, types.Keys) && KeepsKnown(h, c0, c)
    requires Settles(h, Findable(p, h, types, labels, test), Sure(h, types, test), c)
    ensures Realized(h, NodeTruth(h, FoundTypes(p, h, types, c)), c)
  {
    hide Classified, Represents, Bounded, Linked, ReadOffOk, EntailsOk, SeededFor, KeepsKnown, Findable, Sure, SourceBelow, KnownBelow, TypesOk;
    PlacedIn(truth, p, h);
    var found := FoundTypes(p, h, types, c);
    forall n: nat, i | n < |h.nodes| ensures i in NodeTruth(h, found)[n] <==> KnownBelow(h, c, n, i) {
      KnownIsFindable(truth, p, h, types, labels, test, c, n, i);
    }
  }

  lemma TopFound(p: Problem, h: Hierarchy, types: Types, labels: Labels, c0: Cache, c: Cache, i: Individual)
    requires SeededFor(p, h, labels, c0, types.Keys) && KeepsKnown(h, c0, c) && i in types
    ensures KnownBelow(h, c, h.top, i)
  {
    assert i in KnownAt(c0, h.top);
  }

  lemma KnownIsFindable(truth: Graph<Element>, p: Problem, h: Hierarchy, types: Types, labels: Labels, test: InstanceTest, c: Cache, n: nat, i: Individual)
    requires Settles(h, Findable(p, h, types, labels, test), Sure(h, types, test), c) && n < |h.nodes|
    ensures KnownBelow(h, c, n, i) ==> i in types && SourceBelow(p, h, labels, test, n, i)
  {
  }

  lemma FoundAbove(truth: Graph<Element>, p: Problem, h: Hierarchy, c: Cache, e: Element, f: Element, i: Individual)
    requires Classified(truth, p, h) && e in p.elements && e in truth && f in truth[e] && e in h.nodeOf && KnownBelow(h, c, h.nodeOf[e], i)
    ensures f in p.elements && f in h.nodeOf && KnownBelow(h, c, h.nodeOf[f], i)
  {
    assert f in p.elements by {
      TruthStaysIn(truth, p, h, e, f);
    }
    hide Classified;
    SameNodeEquivalent(truth, p, h, e, f);
    var m: nat :| Reach(Up(h), m, h.nodeOf[e]) && i in KnownAt(c, m);
    ReachTrans(Up(h), m, h.nodeOf[e], h.nodeOf[f]);
  }

  lemma TruthStaysIn(truth: Graph<Element>, p: Problem, h: Hierarchy, e: Element, f: Element)
    requires Classified(truth, p, h) && e in truth && f in truth[e]
    ensures f in p.elements
  {
  }

  /** Nothing unsupported is found, and everything always supported is. */
  lemma FoundSupported(truth: Graph<Element>, p: Problem, h: Hierarchy, types: Types, labels: Labels, test: InstanceTest, c0: Cache, c: Cache, i: Individual, e: Element)
    requires Classified(truth, p, h) && TypesOk(truth, p, types.Keys, types) && ReadOffOk(truth, p, types, labels) && EntailsOk(p, types, test)
    requires SeededFor(p, h, labels, c0, types.Keys) && KeepsKnown(h, c0, c)
    requires Settles(h, Findable(p, h, types, labels, test), Sure(h, types, test), c)
    requires i in types && i in labels && e in p.elements
    ensures e in FoundTypes(p, h, types, c)[i] ==> Supported(truth, p, h, labels, test, i, e, false)
    ensures Supported(truth, p, h, labels, test, i, e, true) ==> e in FoundTypes(p, h, types, c)[i]
  {
    hide Classified, Represents, Bounded, Linked, EntailsOk, SeededFor, KeepsKnown;
    PlacedIn(truth, p, h);
    if e in FoundTypes(p, h, types, c)[i] {
      KnownIsFindable(truth, p, h, types, labels, test, c, h.nodeOf[e], i);
      var m: nat :| Reach(Up(h), m, h.nodeOf[e]) && Source(p, h, labels, test, m, i);
      SourceSupports(truth, p, h, labels, test, m, i, e);
    }
    if Supported(truth, p, h, labels, test, i, e, true) {
      var f :| f in p.elements && f in truth && e in truth[f] && f in h.nodeOf && h.nodeOf[f] < |h.nodes| && Support(p, h, labels, test, i, f, true);
      SupportFound(truth, p, h, types, labels, test, c0, c, f, i);
      FoundAbove(truth, p, h, c, f, e, i);
    }
  }

  lemma SourceSupports(truth: Graph<Element>, p: Problem, h: Hierarchy, labels: Labels, test: InstanceTest, m: nat, i: Individual, e: Element)
    requires Classified(truth, p, h) && i in labels && e in p.elements && e in h.nodeOf
    requires Source(p, h, labels, test, m, i) && Reach(Up(h), m, h.nodeOf[e])
    ensures Supported(truth, p, h, labels, test, i, e, false)
  {
    hide Classified, Represents, Bounded, Linked;
    PlacedIn(truth, p, h);
    var f := h.nodes[m].representative;
    if m != h.top && Labelled(p, h, labels, i, m, true) {
      AtNodesMember(p, h, labels[i], m, true);
      f :| Label(f, true) in labels[i] && NodeFor(p, h, f) == Some(m);
    }
    SameNodeEquivalent(truth, p, h, f, e);
    assert Support(p, h, labels, test, i, f, false);
  }

  lemma SupportFound(truth: Graph<Element>, p: Problem, h: Hierarchy, types: Types, labels: Labels, test: InstanceTest, c0: Cache, c: Cache, f: Element, i: Individual)
    requires Classified(truth, p, h) && TypesOk(truth, p, types.Keys, types) && ReadOffOk(truth, p, types, labels)
    requires SeededFor(p, h, labels, c0, types.Keys) && KeepsKnown(h, c0, c)
    requires Settles(h, Findable(p, h, types, labels, test), Sure(h, types, test), c)
    requires i in types && i in labels && f in p.elements && f in h.nodeOf && h.nodeOf[f] < |h.nodes| && Support(p, h, labels, test, i, f, true)
    ensures KnownBelow(h, c, h.nodeOf[f], i)
  {
    hide Classified, Represents, Bounded, Linked;
    PlacedIn(truth, p, h);
    var n := h.nodeOf[f];
    if Must(test, h.nodes[n].representative, i) {
      assert i in Sure(h, types, test)[n];
    } else {
      if f != p.top {
        assert f != p.bottom && NodeFor(p, h, f) == Some(n);
        AtNodesMember(p, h, labels[i], n, true);
      }
      assert i in KnownAt(c0, n);
    }
  }

  /** What may be supported is true, so nothing false is found. */
  lemma SupportedTrue(truth: Graph<Element>, p: Problem, h: Hierarchy, types: Types, labels: Labels, test: InstanceTest, i: Individual, e: Element)
    requires Classified(truth, p, h) && TypesOk(truth, p, types.Keys, types) && ReadOffOk(truth, p, types, labels) && EntailsOk(p, types, test)
    requires i in types && i in labels && Supported(truth, p, h, labels, test, i, e, false)
    ensures e in types[i]
  {
    hide Classified, Represents, Bounded, Linked;
    PlacedIn(truth, p, h);
    var f :| f in p.elements && f in truth && e in truth[f] && f in h.nodeOf && h.nodeOf[f] < |h.nodes| && Support(p, h, labels, test, i, f, false);
    if f != p.top && Label(f, true) !in labels[i] {
      SameNodeEquivalent(truth, p, h, h.nodes[h.nodeOf[f]].representative, f);
    }
    assert f in types[i];
  }

  /** With an unfailing test every type is supported; with a lasting one, support at
      some call is support at every call. */
  lemma SupportCases(truth: Graph<Element>, p: Problem, h: Hierarchy, types: Types, labels: Labels, test: InstanceTest, i: Individual, e: Element)
    requires Classified(truth, p, h) && TypesOk(truth, p, types.Keys, types) && EntailsOk(p, types, test) && i in types && i in labels && e in p.elements
    ensures NeverFails(p, types, test) && e in types[i] ==> Supported(truth, p, h, labels, test, i, e, true)
    ensures Lasting(p, types, test) && Supported(truth, p, h, labels, test, i, e, false) ==> Supported(truth, p, h, labels, test, i, e, true)
  {
    hide Classified, Represents, Bounded, Linked;
    PlacedIn(truth, p, h);
    var rep := h.nodes[h.nodeOf[e]].representative;
    if NeverFails(p, types, test) && e in types[i] {
      SameNodeEquivalent(truth, p, h, e, rep);
      SameNodeEquivalent(truth, p, h, e, e);
      assert Must(test, rep, i);
      assert Support(p, h, labels, test, i, e, true);
    }
    if Lasting(p, types, test) && Supported(truth, p, h, labels, test, i, e, false) {
      var f :| f in p.elements && f in truth && e in truth[f] && f in h.nodeOf && h.nodeOf[f] < |h.nodes| && Support(p, h, labels, test, i, f, false);
      assert Support(p, h, labels, test, i, f, true);
    }
  }

  /** What the pipeline finds: true types, closed under subsumption, between those
      supported at every call and those supported at some call. */
  ghost predicate Finds(truth: Graph<Element>, p: Problem, h: Hierarchy, types: Types, labels: Labels, test: InstanceTest, found: Types) {
    && found.Keys == types.Keys == labels.Keys
    && (forall i :: i in types ==> found[i] <= types[i])
    && (forall i, e {:trigger e in found[i]} :: i in types && e in p.elements && Supported(truth, p, h, labels, test, i, e, true) ==> e in found[i])
    && (forall i, e {:trigger e in found[i]} :: i in types && e in found[i] ==> Supported(truth, p, h, labels, test, i, e, false))
  }

  lemma FoundFinds(truth: Graph<Element>, p: Problem, h: Hierarchy, types: Types, labels: Labels, test: InstanceTest, c0: Cache, c: Cache)
    requires Classified(truth, p, h) && TypesOk(truth, p, types.Keys, types) && ReadOffOk(truth, p, types, labels) && EntailsOk(p, types, test)
    requires SeededFor(p, h, labels, c0, types.Keys) && KeepsKnown(h, c0, c)
    requires Settles(h, Findable(p, h, types, labels, test), Sure(h, types, test), c)
    ensures Finds(truth, p, h, types, labels, test, FoundTypes(p, h, types, c))
  {
    hide Classified, EntailsOk, SeededFor, KeepsKnown, Settles, Supported;
    var found := FoundTypes(p, h, types, c);
    forall i, e | i in types && e in p.elements
      ensures e in found[i] ==> e in types[i] && Supported(truth, p, h, labels, test, i, e, false)
      ensures Supported(truth, p, h, labels, test, i, e, true) ==> e in found[i]
    {
      FoundSupported(truth, p, h, types, labels, test, c0, c, i, e);
      if e in found[i] {
        SupportedTrue(truth, p, h, types, labels, test, i, e);
      }
    }
  }

  /** If no test fails exactly the types are found; if tests fail for good, exactly
      when each type subsumes one known from its label or confirmed. */
  lemma ExactWhen(truth: Graph<Element>, p: Problem, h: Hierarchy, types: Types, labels: Labels, test: InstanceTest, found: Types)
    requires Classified(truth, p, h) && TypesOk(truth, p, types.Keys, types) && EntailsOk(p, types, test)
    requires Finds(truth, p, h, types, labels, test, found)
    ensures NeverFails(p, types, test) ==> found == types
    ensures Lasting(p, types, test) ==>
      (found == types <==> forall i, e {:trigger e in types[i]} :: i in types && e in types[i] ==> Supported(truth, p, h, labels, test, i, e, true))
  {
    hide Classified, EntailsOk, Supported, NeverFails, Lasting;
    forall i, e | i in types && e in types[i]
      ensures e in p.elements
      ensures NeverFails(p, types, test) ==> e in found[i]
      ensures Lasting(p, types, test) ==> (e in found[i] <==> Supported(truth, p, h, labels, test, i, e, true))
    {
      SupportCases(truth, p, h, types, labels, test, i, e);
    }
    if NeverFails(p, types, test) {
      forall i | i in types ensures found[i] == types[i] {
      }
    }
    if Lasting(p, types, test) && forall i, e {:trigger e in types[i]} :: i in types && e in types[i] ==> Supported(truth, p, h, labels, test, i, e, true) {
      forall i | i in types ensures found[i] == types[i] {
        forall e | e in types[i] ensures e in found[i] {
          assert Supported(truth, p, h, labels, test, i, e, true);
        }
      }
    }
  }

  /** Classify, seed from the model, realise: for every subsumption oracle meeting its
      contract, every faithful read-off and every truthful test, whose failures count
      as negative. The cache answers exactly for the types `found`. */
  method ClassifyAndRealize(p: Problem, ghost truth: Graph<Element>, o: Oracle, told: seq<(Element, Element)>,
                            individuals: seq<Individual>, labels: Labels, ghost types: Types, test: InstanceTest)
    returns (h: Hierarchy, c: Cache, ghost found: Types)
    requires TruthOk(truth, p) && OracleOk(truth, p, o) && ToldTrue(truth, p, told)
    requires TypesOk(truth, p, (set i | i in individuals), types) && ReadOffOk(truth, p, types, labels) && EntailsOk(p, types, test)
    ensures Answers(truth, p, h, found, c)
    ensures Finds(truth, p, h, types, labels, test, found)
    ensures NeverFails(p, types, test) ==> found == types
  {
    hide TruthOk, OracleOk, Represents, Bounded, ReadOffOk, EntailsOk, Realized, Seeded, SeededFor, Proper, InstancesOk, InstanceOracleOk, FlagOk, Linked;
    hide Settles, KeepsKnown, Answers, Finds, NeverFails, Findable, Sure, FoundTypes;
    h := ClassifyFrom(p, truth, o, told);
    PlacedIn(truth, p, h);
    var m := new SeededClassInstanceManager();
    LabelsCover(truth, p, types, labels);
    SeedFromModel(m, p, h, individuals, labels);
    ghost var c0 := m.conceptToElement;
    SeedsComplete(truth, p, h, types, labels, test, c0);
    FindableOk(truth, p, h, types, labels, test);
    m.Realize(h, Confirms(test), Findable(p, h, types, labels, test), Sure(h, types, test), types.Keys);
    c := m.conceptToElement;
    found := FoundTypes(p, h, types, c);
    FoundMeans(truth, p, h, types, labels, test, c0, c);
    FoundFinds(truth, p, h, types, labels, test, c0, c);
    ExactWhen(truth, p, h, types, labels, test, found);
  }

  lemma LabelsCover(truth: Graph<Element>, p: Problem, types: Types, labels: Labels)
    requires ReadOffOk(truth, p, types, labels)
    ensures labels.Keys == types.Keys
  {
  }

  /** `e` is a type of `i` and nothing strictly more specific is. */
  ghost predicate MostSpecificType(truth: Graph<Element>, types: Types, i: Individual, e: Element)
    requires i in types
  {
    && e in types[i] && e in truth
    && forall f {:trigger f in types[i]} :: f in types[i] && f in truth && e in truth[f] ==> f in truth[e]
  }

  /** A node is a most specific type of an individual iff its classes are. */
  lemma SpecificAtClass(truth: Graph<Element>, p: Problem, h: Hierarchy, types: Types, e: Element, i: Individual)
    requires Classified(truth, p, h) && TypesOk(truth, p, types.Keys, types) && e in p.elements && i in types
    ensures e in h.nodeOf && (MostSpecific(h, NodeTruth(h, types), h.nodeOf[e], i) <==> MostSpecificType(truth, types, i, e))
  {
    PlacedIn(truth, p, h);
    hide Classified, Represents, Bounded, Linked;
    var t, n := NodeTruth(h, types), h.nodeOf[e];
    TruthAtClass(truth, p, h, types, e, i);
    if e in types[i] && MostSpecificType(truth, types, i, e) {
      forall m: nat | m in t && m != n && Reach(Up(h), m, n) ensures i !in t[m] {
        var f := h.nodes[m].representative;
        SameNodeEquivalent(truth, p, h, f, e);
        SameNodeEquivalent(truth, p, h, e, f);
      }
    }
    if e in types[i] && MostSpecific(h, t, n, i) {
      forall f | f in types[i] && f in truth && e in truth[f] ensures f in truth[e] {
        SameNodeEquivalent(truth, p, h, f, e);
        TruthAtClass(truth, p, h, types, f, i);
        assert Reach(Up(h), h.nodeOf[f], n);
      }
    }
  }

  /** The types of an individual, as classes: all of them, or the most specific. */
  method TypesOf(ghost truth: Graph<Element>, ghost p: Problem, h: Hierarchy, ghost types: Types, c: Cache, i: Individual, direct: bool) returns (r: set<nat>)
    requires Answers(truth, p, h, types, c) && i in types
    ensures p.elements <= h.nodeOf.Keys
    ensures forall e :: e in p.elements ==> (h.nodeOf[e] in r <==> if direct then MostSpecificType(truth, types, i, e) else e in types[i])
  {
    hide Classified, TypesOk, Realized, Proper, InstancesOk, MostSpecific, MostSpecificType;
    NodeTruthOk(truth, p, h, types);
    r := GetTypesOf(h, c, NodeTruth(h, types), types.Keys, i, direct);
    forall e | e in p.elements
      ensures e in h.nodeOf && (h.nodeOf[e] in r <==> if direct then MostSpecificType(truth, types, i, e) else e in types[i])
    {
      TruthAtClass(truth, p, h, types, e, i);
      SpecificAtClass(truth, p, h, types, e, i);
    }
  }

  /** The instances of a class: all of them, or those for which it is most specific. */
  method InstancesOf(ghost truth: Graph<Element>, ghost p: Problem, h: Hierarchy, ghost types: Types, individuals: set<Individual>, c: Cache, e: Element, direct: bool)
    returns (r: set<Individual>)
    requires Answers(truth, p, h, types, c) && individuals == types.Keys && e in p.elements
    ensures forall i :: i in types ==> (i in r <==> if direct then MostSpecificType(truth, types, i, e) else e in types[i])
    ensures r <= individuals
  {
    PlacedIn(truth, p, h);
    hide Classified, TypesOk, Realized, Proper, InstancesOk, MostSpecific, MostSpecificType, Linked;
    NodeTruthOk(truth, p, h, types);
    r := GetInstances(h, c, NodeTruth(h, types), h.nodeOf[e], direct, individuals);
    forall i | i in types
      ensures i in r <==> if direct then MostSpecificType(truth, types, i, e) else e in types[i]
    {
      TruthAtClass(truth, p, h, types, e, i);
      SpecificAtClass(truth, p, h, types, e, i);
    }
    assert forall i :: MostSpecific(h, NodeTruth(h, types), h.nodeOf[e], i) ==> i in types by {
      SpecificIsTyped(h, types, h.nodeOf[e]);
    }
  }

  lemma SpecificIsTyped(h: Hierarchy, types: Types, n: nat)
    ensures forall i :: MostSpecific(h, NodeTruth(h, types), n, i) ==> i in types
  {
  }
}
