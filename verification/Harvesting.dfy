/** Harvesting and pruning possible subsumers from the node labels of models. */
module Harvesting {
  import opened Elements
  import opened Digraph
  import opened Subsumption

  /** One label: a concept seen for the first time takes the whole label, a
      concept seen before keeps what the label confirms. */
  function HarvestLabel(p: Problem, possible: Graph<Element>, l: set<Element>): Graph<Element> {
    var inside := l * p.elements;
    map e | e in possible.Keys + inside ::
      if e !in inside then Succ(possible, e)
      else if Succ(possible, e) == {} then inside
      else Succ(possible, e) * inside
  }

  function HarvestAll(p: Problem, possible: Graph<Element>, labels: seq<set<Element>>): Graph<Element>
    decreases |labels|
  {
    if |labels| == 0 then possible else HarvestAll(p, HarvestLabel(p, possible, labels[0]), labels[1..])
  }

  /** One label in the prune-only variant: empty sets stay empty. */
  function PruneLabel(p: Problem, possible: Graph<Element>, l: set<Element>): Graph<Element> {
    var inside := l * p.elements;
    map e | e in possible :: if e in inside then possible[e] * inside else possible[e]
  }

  function PruneAll(p: Problem, possible: Graph<Element>, labels: seq<set<Element>>): Graph<Element>
    decreases |labels|
  {
    if |labels| == 0 then possible else PruneAll(p, PruneLabel(p, possible, labels[0]), labels[1..])
  }

  /** A nonempty possible set contains the concept itself. */
  ghost predicate SelfPossible(possible: Graph<Element>) {
    forall e {:trigger Succ(possible, e)} :: Succ(possible, e) != {} ==> e in Succ(possible, e)
  }

  /** `x` is an element that appears in every label in which `e` appears. */
  ghost predicate InMeet(p: Problem, labels: seq<set<Element>>, e: Element, x: Element) {
    x in p.elements && forall i :: 0 <= i < |labels| && e in labels[i] ==> x in labels[i]
  }

  lemma SplitFirst(p: Problem, labels: seq<set<Element>>, e: Element, x: Element)
    requires |labels| > 0
    ensures Occurs(e, labels) <==> e in labels[0] || Occurs(e, labels[1..])
    ensures InMeet(p, labels, e, x) <==> (e in labels[0] ==> x in labels[0]) && InMeet(p, labels[1..], e, x)
  {
    assert forall i :: 1 <= i < |labels| ==> labels[i] == labels[1..][i - 1];
    if InMeet(p, labels[1..], e, x) && (e in labels[0] ==> x in labels[0]) {
      forall i | 0 <= i < |labels| && e in labels[i] ensures x in labels[i] {
        assert i > 0 ==> labels[1..][i - 1] == labels[i];
      }
    }
    if InMeet(p, labels, e, x) {
      forall i | 0 <= i < |labels[1..]| && e in labels[1..][i] ensures x in labels[1..][i] {
        assert labels[i + 1] == labels[1..][i];
      }
    }
  }

  lemma HarvestLabelSelf(p: Problem, possible: Graph<Element>, l: set<Element>)
    requires SelfPossible(possible)
    ensures SelfPossible(HarvestLabel(p, possible, l))
  {
    var r := HarvestLabel(p, possible, l);
    forall e | Succ(r, e) != {} ensures e in Succ(r, e) {
      assert Succ(possible, e) != {} ==> e in Succ(possible, e);
    }
  }

  /** Harvesting any labels leaves a concept's possible set unchanged if the
      concept occurs in none of them, and otherwise cuts it to (or, if it was
      empty, sets it to) the intersection of the labels it occurs in. */
  lemma {:induction false} HarvestMeaning(p: Problem, possible: Graph<Element>, labels: seq<set<Element>>, e: Element)
    requires SelfPossible(possible) && e in p.elements
    ensures SelfPossible(HarvestAll(p, possible, labels))
    ensures !Occurs(e, labels) ==> Succ(HarvestAll(p, possible, labels), e) == Succ(possible, e)
    ensures Occurs(e, labels) ==> forall x ::
      x in Succ(HarvestAll(p, possible, labels), e) <==>
      (Succ(possible, e) == {} || x in Succ(possible, e)) && InMeet(p, labels, e, x)
    decreases |labels|
  {
    if |labels| > 0 {
      var next := HarvestLabel(p, possible, labels[0]);
      HarvestLabelSelf(p, possible, labels[0]);
      HarvestMeaning(p, next, labels[1..], e);
      SplitFirst(p, labels, e, e);
      assert Succ(possible, e) != {} ==> e in Succ(possible, e);
      if e in labels[0] {
        assert e in Succ(next, e);
      }
      forall x {
        SplitFirst(p, labels, e, x);
      }
      if Occurs(e, labels) && !Occurs(e, labels[1..]) {
        forall x ensures InMeet(p, labels[1..], e, x) <==> x in p.elements {
        }
      }
    }
  }

  /** Starting from no possibles: empty iff the concept occurred in no label,
      otherwise exactly the intersection of the labels containing it. */
  lemma HarvestFromNothing(p: Problem, labels: seq<set<Element>>, e: Element)
    requires e in p.elements
    ensures Succ(HarvestAll(p, map[], labels), e) == {} <==> !Occurs(e, labels)
    ensures Occurs(e, labels) ==> forall x :: x in Succ(HarvestAll(p, map[], labels), e) <==> InMeet(p, labels, e, x)
  {
    HarvestMeaning(p, map[], labels, e);
    if Occurs(e, labels) {
      assert InMeet(p, labels, e, e);
    }
  }

  lemma OccursByMultiset(labels1: seq<set<Element>>, labels2: seq<set<Element>>)
    requires multiset(labels1) == multiset(labels2)
    ensures forall i :: 0 <= i < |labels1| ==> labels1[i] in labels2
  {
    forall i | 0 <= i < |labels1| ensures labels1[i] in labels2 {
      assert labels1[i] in multiset(labels1);
    }
  }

  lemma MeetByMultiset(p: Problem, labels1: seq<set<Element>>, labels2: seq<set<Element>>, e: Element, x: Element)
    requires multiset(labels1) == multiset(labels2)
    ensures Occurs(e, labels1) ==> Occurs(e, labels2)
    ensures InMeet(p, labels2, e, x) ==> InMeet(p, labels1, e, x)
  {
    OccursByMultiset(labels1, labels2);
  }

  /** Permuting models and labels does not change any possible set. */
  lemma HarvestPermutation(p: Problem, possible: Graph<Element>, labels1: seq<set<Element>>, labels2: seq<set<Element>>, e: Element)
    requires SelfPossible(possible) && e in p.elements && multiset(labels1) == multiset(labels2)
    ensures Succ(HarvestAll(p, possible, labels1), e) == Succ(HarvestAll(p, possible, labels2), e)
  {
    HarvestMeaning(p, possible, labels1, e);
    HarvestMeaning(p, possible, labels2, e);
    MeetByMultiset(p, labels1, labels2, e, e);
    MeetByMultiset(p, labels2, labels1, e, e);
    if Occurs(e, labels1) {
      forall x ensures InMeet(p, labels1, e, x) <==> InMeet(p, labels2, e, x) {
        MeetByMultiset(p, labels1, labels2, e, x);
        MeetByMultiset(p, labels2, labels1, e, x);
      }
    }
  }

  /** Pruning removes exactly the candidates some label of the concept lacks. */
  lemma {:induction false} PruneMeaning(p: Problem, possible: Graph<Element>, labels: seq<set<Element>>, e: Element)
    ensures PruneAll(p, possible, labels).Keys == possible.Keys
    ensures e !in p.elements ==> Succ(PruneAll(p, possible, labels), e) == Succ(possible, e)
    ensures e in p.elements && Succ(possible, e) <= p.elements ==> forall x ::
      x in Succ(PruneAll(p, possible, labels), e) <==> x in Succ(possible, e) && InMeet(p, labels, e, x)
    decreases |labels|
  {
    if |labels| > 0 {
      PruneMeaning(p, PruneLabel(p, possible, labels[0]), labels[1..], e);
      forall x {
        SplitFirst(p, labels, e, x);
      }
    }
  }

  /** Leaf-phase invariant of the possible graph: a concept with possibles is
      satisfiable, has all its true subsumers among them, and so do these. */
  ghost predicate PossibleAt(truth: Graph<Element>, p: Problem, possible: Graph<Element>, e: Element) {
    Succ(possible, e) != {} ==>
      && e in truth && !Unsat(truth, p, e)
      && truth[e] <= Succ(possible, e) <= p.elements
      && forall b :: b in truth[e] ==> Succ(possible, b) != {}
  }

  ghost predicate PossibleOk(truth: Graph<Element>, p: Problem, possible: Graph<Element>) {
    forall e {:trigger PossibleAt(truth, p, possible, e)} {:trigger Succ(possible, e)} :: PossibleAt(truth, p, possible, e)
  }

  lemma HarvestKeeps(truth: Graph<Element>, p: Problem, possible: Graph<Element>, l: set<Element>)
    requires TruthOk(truth, p) && PossibleOk(truth, p, possible) && GoodLabel(truth, p, l)
    ensures PossibleOk(truth, p, HarvestLabel(p, possible, l))
    ensures forall e :: Succ(possible, e) != {} ==> Succ(HarvestLabel(p, possible, l), e) != {}
    ensures forall e :: e in l && e in p.elements ==> Succ(HarvestLabel(p, possible, l), e) != {}
  {
    var r := HarvestLabel(p, possible, l);
    forall e | Succ(possible, e) != {} || (e in l && e in p.elements)
      ensures Succ(r, e) != {}
      ensures e in truth && !Unsat(truth, p, e) && truth[e] <= Succ(r, e) <= p.elements
    {
      assert PossibleAt(truth, p, possible, e);
      assert e in truth[e];
      assert e in Succ(r, e);
    }
    forall e ensures PossibleAt(truth, p, r, e) {
      if Succ(r, e) != {} {
        assert Succ(possible, e) != {} || (e in l && e in p.elements);
        forall b | b in truth[e] ensures Succ(r, b) != {} {
          assert PossibleAt(truth, p, possible, e);
        }
      }
    }
  }

  /** Harvesting the labels of a model keeps the invariant, loses nothing that
      was processed, and processes every concept that occurs in a label. */
  lemma {:induction false} HarvestAllKeeps(truth: Graph<Element>, p: Problem, possible: Graph<Element>, labels: seq<set<Element>>)
    requires TruthOk(truth, p) && PossibleOk(truth, p, possible) && GoodLabels(truth, p, labels)
    ensures PossibleOk(truth, p, HarvestAll(p, possible, labels))
    ensures forall e :: Succ(possible, e) != {} ==> Succ(HarvestAll(p, possible, labels), e) != {}
    ensures forall e :: Occurs(e, labels) && e in p.elements ==> Succ(HarvestAll(p, possible, labels), e) != {}
    decreases |labels|
  {
    if |labels| > 0 {
      assert GoodLabel(truth, p, labels[0]);
      HarvestKeeps(truth, p, possible, labels[0]);
      assert GoodLabels(truth, p, labels[1..]);
      HarvestAllKeeps(truth, p, HarvestLabel(p, possible, labels[0]), labels[1..]);
      forall e | Occurs(e, labels) && e in p.elements ensures Succ(HarvestAll(p, possible, labels), e) != {} {
        SplitFirst(p, labels, e, e);
      }
    }
  }

  /** Pruning never removes a true subsumer. */
  lemma PruneKeepsTrue(truth: Graph<Element>, p: Problem, possible: Graph<Element>, labels: seq<set<Element>>, e: Element, b: Element)
    requires TruthOk(truth, p) && GoodLabels(truth, p, labels) && Succ(possible, e) <= p.elements
    requires e in truth && b in truth[e] && b in Succ(possible, e)
    ensures b in Succ(PruneAll(p, possible, labels), e)
  {
    PruneMeaning(p, possible, labels, e);
    forall i | 0 <= i < |labels| && e in labels[i] ensures b in labels[i] {
      assert GoodLabel(truth, p, labels[i]);
    }
  }

  /** The loop of `update_possible_subsumers` over the concepts of one label. */
  method UpdateForLabel(p: Problem, possible: Graph<Element>, l: set<Element>) returns (r: Graph<Element>)
    ensures r == HarvestLabel(p, possible, l)
  {
    var inside := l * p.elements;
    r := possible;
    var todo := inside;
    while todo != {}
      invariant todo <= inside && r.Keys == possible.Keys + (inside - todo)
      invariant forall e :: e in r ==> r[e] == if e in inside - todo then HarvestLabel(p, possible, l)[e] else Succ(possible, e)
    {
      var c :| c in todo;
      if Succ(r, c) == {} {
        r := AddEdges(r, c, inside);
      } else {
        var toRemove := set x | x in Succ(r, c) && x !in inside;
        r := RemoveSuccessors(r, c, toRemove);
      }
      todo := todo - {c};
    }
  }

  /** `update_possible_subsumers`. */
  method UpdatePossibleSubsumers(p: Problem, possible: Graph<Element>, labels: seq<set<Element>>) returns (r: Graph<Element>)
    ensures r == HarvestAll(p, possible, labels)
  {
    r := possible;
    for i := 0 to |labels|
      invariant HarvestAll(p, r, labels[i..]) == HarvestAll(p, possible, labels)
    {
      assert labels[i..][0] == labels[i] && labels[i..][1..] == labels[i + 1..];
      r := UpdateForLabel(p, r, labels[i]);
    }
  }

  /** The loop of `prune_possible_subsumers` over the concepts of one label. */
  method PruneForLabel(p: Problem, possible: Graph<Element>, l: set<Element>) returns (r: Graph<Element>)
    ensures r == PruneLabel(p, possible, l)
  {
    var inside := l * p.elements;
    r := possible;
    var todo := inside;
    while todo != {}
      invariant todo <= inside && r.Keys == possible.Keys
      invariant forall e :: e in r ==> r[e] == if e in inside - todo then possible[e] * inside else possible[e]
    {
      var c :| c in todo;
      if Succ(r, c) != {} {
        var toRemove := set x | x in Succ(r, c) && x !in inside;
        r := RemoveSuccessors(r, c, toRemove);
      }
      todo := todo - {c};
    }
  }

  /** `prune_possible_subsumers`. */
  method PrunePossibleSubsumers(p: Problem, possible: Graph<Element>, labels: seq<set<Element>>) returns (r: Graph<Element>)
    ensures r == PruneAll(p, possible, labels)
  {
    r := possible;
    for i := 0 to |labels|
      invariant PruneAll(p, r, labels[i..]) == PruneAll(p, possible, labels)
    {
      assert labels[i..][0] == labels[i] && labels[i..][1..] == labels[i + 1..];
      r := PruneForLabel(p, r, labels[i]);
    }
  }
}
