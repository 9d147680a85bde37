/** The invariant of the resolution phase: every true subsumption is recorded or
    still possible, and nothing false is recorded. */
module Settling {
  import opened Elements
  import opened Digraph
  import opened Hierarchies
  import opened Subsumption
  import opened Harvesting
  import opened LeafStrategy
  import opened Resolution
  import opened IsolatedResolution

  /** Every true subsumer of `e` is possible or reached from `e`. */
  ghost predicate Settled(truth: Graph<Element>, p: Problem, known: Graph<Element>, possible: set<Element>, e: Element) {
    forall b {:trigger b in possible} :: e in truth && b in truth[e] ==> b in possible || Reach(Extended(p, known), e, b)
  }

  ghost predicate ResolutionInv(truth: Graph<Element>, p: Problem, known: Graph<Element>, possible: Graph<Element>) {
    && Sound(truth, known)
    && (forall e {:trigger Settled(truth, p, known, Succ(possible, e), e)} :: e in truth ==> Settled(truth, p, known, Succ(possible, e), e))
    && (forall e {:trigger Succ(possible, e)} :: e in truth ==> Succ(possible, e) <= p.elements)
  }

  /** `possible'` has no edge that `possible` lacks. */
  ghost predicate Shrinks(possible: Graph<Element>, possible': Graph<Element>) {
    forall e {:trigger Succ(possible', e)} :: Succ(possible', e) <= Succ(possible, e)
  }

  lemma ShrinksTrans(g: Graph<Element>, g': Graph<Element>, g'': Graph<Element>)
    requires Shrinks(g, g') && Shrinks(g', g'')
    ensures Shrinks(g, g'')
  {
    forall e ensures Succ(g'', e) <= Succ(g, e) {
      assert Succ(g'', e) <= Succ(g', e);
    }
  }

  lemma CoveredSettles(truth: Graph<Element>, p: Problem, known: Graph<Element>, possible: Graph<Element>)
    requires TruthOk(truth, p) && Sound(truth, known) && PossibleOk(truth, p, possible)
    requires forall e :: e in p.elements ==> Covered(truth, p, known, possible, e)
    ensures ResolutionInv(truth, p, known, possible)
  {
    forall e | e in truth ensures Settled(truth, p, known, Succ(possible, e), e) && Succ(possible, e) <= p.elements {
      assert Covered(truth, p, known, possible, e);
      assert PossibleAt(truth, p, possible, e);
      forall b | b in truth[e] ensures b in Succ(possible, e) || Reach(Extended(p, known), e, b) {
        if Unsat(truth, p, e) {
          ExtendedBottom(p, known, b);
          ReachTrans(Extended(p, known), e, p.bottom, b);
        }
      }
    }
  }

  lemma SettledMono(truth: Graph<Element>, p: Problem, known: Graph<Element>, known': Graph<Element>, possible: set<Element>, e: Element)
    requires Settled(truth, p, known, possible, e) && SubGraph(known, known')
    ensures Settled(truth, p, known', possible, e)
  {
    forall b | e in truth && b in truth[e] ensures b in possible || Reach(Extended(p, known'), e, b) {
      if b !in possible {
        ExtendedMono(p, known, known', e, b);
      }
    }
  }

  /** Adding true edges keeps the invariant. */
  lemma LearnSettles(truth: Graph<Element>, p: Problem, known: Graph<Element>, possible: Graph<Element>, c: Element, ks: set<Element>)
    requires ResolutionInv(truth, p, known, possible) && c in truth && ks <= truth[c]
    ensures ResolutionInv(truth, p, AddEdges(known, c, ks), possible) && SubGraph(known, AddEdges(known, c, ks))
  {
    AddEdgesSound(truth, known, c, ks);
    forall e | e in truth ensures Settled(truth, p, AddEdges(known, c, ks), Succ(possible, e), e) {
      SettledMono(truth, p, known, AddEdges(known, c, ks), Succ(possible, e), e);
    }
  }

  /** Pruning by model labels keeps the invariant. */
  lemma PruneSettles(truth: Graph<Element>, p: Problem, known: Graph<Element>, possible: Graph<Element>, labels: seq<set<Element>>)
    requires TruthOk(truth, p) && ResolutionInv(truth, p, known, possible) && GoodLabels(truth, p, labels)
    ensures ResolutionInv(truth, p, known, PruneAll(p, possible, labels)) && Shrinks(possible, PruneAll(p, possible, labels))
  {
    var r := PruneAll(p, possible, labels);
    forall e ensures Succ(r, e) <= Succ(possible, e) {
      PruneShrinks(p, possible, labels, e);
    }
    forall e | e in truth ensures Settled(truth, p, known, Succ(r, e), e) {
      assert Settled(truth, p, known, Succ(possible, e), e);
      forall b | b in truth[e] ensures b in Succ(r, e) || Reach(Extended(p, known), e, b) {
        if b in Succ(possible, e) {
          PruneKeepsTrue(truth, p, possible, labels, e, b);
        }
      }
    }
  }

  lemma {:induction false} PruneShrinks(p: Problem, possible: Graph<Element>, labels: seq<set<Element>>, e: Element)
    ensures Succ(PruneAll(p, possible, labels), e) <= Succ(possible, e)
    decreases |labels|
  {
    if |labels| > 0 {
      PruneShrinks(p, PruneLabel(p, possible, labels[0]), labels[1..], e);
    }
  }

  /** Replacing the possibles of one element by a smaller set that still settles it. */
  lemma NarrowSettles(truth: Graph<Element>, p: Problem, known: Graph<Element>, possible: Graph<Element>, possible': Graph<Element>, c: Element)
    requires ResolutionInv(truth, p, known, possible) && Shrinks(possible, possible')
    requires forall e :: e != c ==> Succ(possible', e) == Succ(possible, e)
    requires Settled(truth, p, known, Succ(possible', c), c)
    ensures ResolutionInv(truth, p, known, possible')
  {
    forall e | e in truth ensures Settled(truth, p, known, Succ(possible', e), e) && Succ(possible', e) <= p.elements {
      assert Settled(truth, p, known, Succ(possible, e), e);
      assert Succ(possible', e) <= Succ(possible, e) <= p.elements;
    }
  }

  /** Removing what is already known settles as much as before. */
  lemma RemoveKnownSettles(truth: Graph<Element>, p: Problem, known: Graph<Element>, possible: Graph<Element>, c: Element, ks: set<Element>)
    requires TruthOk(truth, p) && ResolutionInv(truth, p, known, possible) && c in truth
    requires forall b :: b in ks ==> Reach(known, c, b)
    ensures ResolutionInv(truth, p, known, RemoveSuccessors(possible, c, ks))
    ensures Shrinks(possible, RemoveSuccessors(possible, c, ks))
  {
    var r := RemoveSuccessors(possible, c, ks);
    assert Settled(truth, p, known, Succ(possible, c), c);
    forall b | b in truth[c] ensures b in Succ(r, c) || Reach(Extended(p, known), c, b) {
      if b in ks {
        ExtendedContains(truth, p, known, c, b);
      }
    }
    NarrowSettles(truth, p, known, possible, r, c);
  }

  /** Clearing an element all of whose possibles are resolved. */
  lemma ClearSettles(truth: Graph<Element>, p: Problem, known: Graph<Element>, possible: Graph<Element>, c: Element)
    requires ResolutionInv(truth, p, known, possible) && Settled(truth, p, known, {}, c)
    ensures ResolutionInv(truth, p, known, ClearSuccessors(possible, c))
    ensures Shrinks(possible, ClearSuccessors(possible, c)) && Succ(ClearSuccessors(possible, c), c) == {}
  {
    NarrowSettles(truth, p, known, possible, ClearSuccessors(possible, c), c);
  }

  /** A dispatched task covers whatever is not reached yet. */
  ghost predicate TaskCovers(truth: Graph<Element>, p: Problem, known: Graph<Element>, task: ResolveTask) {
    TaskOk(truth, p, known, task) && Settled(truth, p, known, task.unknown, task.picked)
  }

  lemma TaskCoversMono(truth: Graph<Element>, p: Problem, known: Graph<Element>, known': Graph<Element>, task: ResolveTask)
    requires TaskCovers(truth, p, known, task) && SubGraph(known, known')
    ensures TaskCovers(truth, p, known', task)
  {
    MapWithinMono(known, known', task.knownMap);
    SettledMono(truth, p, known, known', task.unknown, task.picked);
  }

  /** Folding a delta into the graphs settles its element, however stale the task was. */
  lemma DeltaSettles(truth: Graph<Element>, p: Problem, known: Graph<Element>, possible: Graph<Element>, task: ResolveTask, delta: ResolveDelta)
    requires TruthOk(truth, p) && ResolutionInv(truth, p, known, possible)
    requires TaskCovers(truth, p, known, task) && DeltaOk(truth, p, known, task, delta)
    ensures var known' := AddEdges(known, delta.picked, delta.newKnowns);
            var possible' := ClearSuccessors(PruneAll(p, possible, delta.prunedLabels), delta.picked);
            && ResolutionInv(truth, p, known', possible') && SubGraph(known, known')
            && Shrinks(possible, possible') && Succ(possible', delta.picked) == {}
  {
    var e := delta.picked;
    var known' := AddEdges(known, e, delta.newKnowns);
    var pruned := PruneAll(p, possible, delta.prunedLabels);
    LearnSettles(truth, p, known, possible, e, delta.newKnowns);
    PruneSettles(truth, p, known', possible, delta.prunedLabels);
    SettledMono(truth, p, known, known', task.unknown, e);
    forall b | b in truth[e] ensures Reach(Extended(p, known'), e, b) {
      assert b in task.unknown || b !in task.unknown;
    }
    ClearSettles(truth, p, known', pruned, e);
    ShrinksTrans(possible, pruned, ClearSuccessors(pruned, e));
  }

  /** With no possibles left, the extended known graph is the truth. */
  lemma ResolutionExact(truth: Graph<Element>, p: Problem, known: Graph<Element>, possible: Graph<Element>)
    requires TruthOk(truth, p) && ResolutionInv(truth, p, known, possible)
    requires forall e :: e in truth && !Unsat(truth, p, e) ==> Succ(possible, e) == {}
    requires forall e :: Unsat(truth, p, e) ==> Reach(Extended(p, known), e, p.bottom)
    ensures SameReach(Extended(p, known), truth)
  {
    var g := Extended(p, known);
    forall a, b | a in g && b in g ensures Reach(g, a, b) <==> Reach(truth, a, b) {
      TruthReach(truth, p, a, b);
      if Reach(g, a, b) {
        SoundExtended(truth, p, known, a, b);
      }
      if b in truth[a] {
        if Unsat(truth, p, a) {
          ExtendedBottom(p, known, b);
          ReachTrans(g, a, p.bottom, b);
        } else {
          assert Settled(truth, p, known, Succ(possible, a), a);
          assert b !in Succ(possible, a);
        }
      }
    }
  }

  /** The truth is its own reachability. */
  lemma TruthReach(truth: Graph<Element>, p: Problem, a: Element, b: Element)
    requires TruthOk(truth, p) && a in truth
    ensures Reach(truth, a, b) <==> b in truth[a]
  {
    if Reach(truth, a, b) {
      ReachClosed(truth, truth[a], a, b);
    }
    if b in truth[a] {
      ReachEdge(truth, a, b);
    }
  }

  /** A hierarchy of one graph is a hierarchy of any graph with the same reachability. */
  lemma RepresentsTransfer(h: Hierarchy, g: Graph<Element>, g': Graph<Element>, top: Element, bottom: Element)
    requires Represents(h, g) && Bounded(h, g, top, bottom) && SameReach(g, g')
    ensures Represents(h, g') && Bounded(h, g', top, bottom)
  {
    forall a, b | a in g' && b in g'
      ensures h.nodeOf[a] == h.nodeOf[b] <==> Reach(g', a, b) && Reach(g', b, a)
      ensures Reach(Up(h), h.nodeOf[a], h.nodeOf[b]) <==> Reach(g', a, b)
    {
      assert Reach(g, a, b) <==> Reach(g', a, b);
      assert Reach(g, b, a) <==> Reach(g', b, a);
    }
  }

  /** Everything recorded above `e` so far. */
  ghost function KnownOf(known: Graph<Element>, e: Element): iset<Element> {
    iset x | Reach(known, e, x)
  }

  /** Resolving `e` in place: the graphs keep the phase invariant, and every true
      subsumer among the initial `unknown` is still possible or already known. */
  ghost predicate InPlace(truth: Graph<Element>, p: Problem, known: Graph<Element>, possible: Graph<Element>, e: Element, unknown: set<Element>) {
    && TruthOk(truth, p) && ResolutionInv(truth, p, known, possible) && e in truth && unknown <= p.elements
    && CandidatesInv(truth, e, unknown, Succ(possible, e), KnownOf(known, e))
  }

  lemma KnownTrue(truth: Graph<Element>, p: Problem, known: Graph<Element>, e: Element)
    requires TruthOk(truth, p) && Sound(truth, known) && e in truth
    ensures forall x :: x in KnownOf(known, e) ==> x in truth[e]
  {
    forall x | x in KnownOf(known, e) ensures x in truth[e] {
      SoundReach(truth, p, known, e, x);
    }
  }

  lemma KnownGrows(known: Graph<Element>, e: Element, ks: set<Element>)
    ensures KnownOf(known, e) <= KnownOf(AddEdges(known, e, ks), e)
    ensures forall k :: k in ks ==> k in KnownOf(AddEdges(known, e, ks), e)
  {
    var g := AddEdges(known, e, ks);
    assert SubGraph(known, g);
    forall x | x in KnownOf(known, e) ensures x in KnownOf(g, e) {
      ReachMono(known, g, e, x);
    }
    forall k | k in ks ensures k in KnownOf(g, e) {
      ReachEdge(g, e, k);
    }
  }

  lemma InPlaceLearn(truth: Graph<Element>, p: Problem, known: Graph<Element>, possible: Graph<Element>, e: Element, unknown: set<Element>, ks: set<Element>)
    requires InPlace(truth, p, known, possible, e, unknown) && ks <= truth[e]
    ensures InPlace(truth, p, AddEdges(known, e, ks), possible, e, unknown)
    ensures SubGraph(known, AddEdges(known, e, ks))
    ensures KnownOf(known, e) <= KnownOf(AddEdges(known, e, ks), e)
    ensures forall k :: k in ks ==> k in KnownOf(AddEdges(known, e, ks), e)
  {
    var g := AddEdges(known, e, ks);
    LearnSettles(truth, p, known, possible, e, ks);
    KnownGrows(known, e, ks);
    KnownTrue(truth, p, g, e);
    CandidatesGrow(truth, e, unknown, Succ(possible, e), KnownOf(known, e), KnownOf(g, e));
  }

  lemma InPlacePrune(truth: Graph<Element>, p: Problem, known: Graph<Element>, possible: Graph<Element>, e: Element, unknown: set<Element>, labels: seq<set<Element>>)
    requires InPlace(truth, p, known, possible, e, unknown) && GoodLabels(truth, p, labels)
    ensures InPlace(truth, p, known, PruneAll(p, possible, labels), e, unknown)
    ensures Shrinks(possible, PruneAll(p, possible, labels))
  {
    var r := PruneAll(p, possible, labels);
    PruneSettles(truth, p, known, possible, labels);
    forall b | b in unknown && b in truth[e] ensures b in Succ(r, e) || b in KnownOf(known, e) {
      if b in Succ(possible, e) {
        PruneKeepsTrue(truth, p, possible, labels, e, b);
      }
    }
    assert Succ(r, e) <= Succ(possible, e);
  }

  lemma InPlaceRemove(truth: Graph<Element>, p: Problem, known: Graph<Element>, possible: Graph<Element>, e: Element, unknown: set<Element>, ks: set<Element>)
    requires InPlace(truth, p, known, possible, e, unknown) && forall b :: b in ks <==> Reach(known, e, b)
    ensures InPlace(truth, p, known, RemoveSuccessors(possible, e, ks), e, unknown)
    ensures Shrinks(possible, RemoveSuccessors(possible, e, ks))
  {
    RemoveKnownSettles(truth, p, known, possible, e, ks);
    var r := RemoveSuccessors(possible, e, ks);
    assert Succ(r, e) == Succ(possible, e) - ks;
  }

  lemma InPlaceStart(truth: Graph<Element>, p: Problem, known: Graph<Element>, possible: Graph<Element>, e: Element)
    requires TruthOk(truth, p) && ResolutionInv(truth, p, known, possible) && e in truth
    ensures InPlace(truth, p, known, possible, e, Succ(possible, e))
  {
    KnownTrue(truth, p, known, e);
  }

  /** Once the traversal is done, the element's possibles may be cleared. */
  lemma InPlaceDone(truth: Graph<Element>, p: Problem, known0: Graph<Element>, possible0: Graph<Element>,
                    known: Graph<Element>, e: Element, unknown: set<Element>, small: set<Element>, knownMap: Graph<Element>)
    requires TruthOk(truth, p) && Sound(truth, known) && SubGraph(known0, known) && e in truth
    requires Settled(truth, p, known0, unknown, e)
    requires MapWithin(known0, knownMap) && small <= p.elements
    requires forall b :: b in unknown && b in truth[e] ==> b in KnownOf(known, e) || Reach(SmallGraph(p, small, knownMap), p.top, b)
    ensures Settled(truth, p, known, {}, e)
  {
    MapWithinMono(known0, known, knownMap);
    forall b | b in truth[e] ensures Reach(Extended(p, known), e, b) {
      if b in unknown {
        if b in KnownOf(known, e) {
          ExtendedContains(truth, p, known, e, b);
        } else {
          SmallTopExtended(truth, p, known, small, knownMap, b);
          ExtendedTop(p, known, e);
          ReachTrans(Extended(p, known), e, p.top, b);
        }
      } else {
        ExtendedMono(p, known0, known, e, b);
      }
    }
  }
}
