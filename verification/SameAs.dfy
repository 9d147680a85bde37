/** The same-as partition of the seeded instance manager: definite merges are
    joined at once, possible ones are confirmed lazily. */
module SameAs {
  import opened Elements

  type Classes = map<Individual, set<Individual>>

  type Pair = (Individual, Individual)

  /** The ground truth, and an oracle that may fail and whose answer may depend on
      a call number. */
  type Truth = (Individual, Individual) -> bool

  type SameOracle = (nat, Individual, Individual) -> Option<bool>

  /** `same_as_individuals`: an individual without an entry is alone. */
  function ClassOf(classes: Classes, a: Individual): set<Individual> {
    if a in classes then classes[a] else {a}
  }

  /** The stored classes partition the individuals. */
  ghost predicate Partition(classes: Classes) {
    && (forall a :: a in classes ==> a in classes[a])
    && forall a, b {:trigger b in ClassOf(classes, a)} :: b in ClassOf(classes, a) ==> ClassOf(classes, b) == ClassOf(classes, a)
  }

  /** `S` contains the whole class of each member. */
  ghost predicate Blocks(classes: Classes, S: set<Individual>) {
    forall a :: a in S ==> ClassOf(classes, a) <= S
  }

  function Record(classes: Classes, merged: set<Individual>): Classes {
    map a | a in classes.Keys + merged :: if a in merged then merged else classes[a]
  }

  /** Recording a union of classes as one class keeps the partition. */
  lemma RecordKeeps(classes: Classes, merged: set<Individual>)
    requires Partition(classes) && Blocks(classes, merged)
    ensures Partition(Record(classes, merged))
    ensures forall a :: ClassOf(Record(classes, merged), a) == if a in merged then merged else ClassOf(classes, a)
  {
    var after := Record(classes, merged);
    forall a ensures ClassOf(after, a) == if a in merged then merged else ClassOf(classes, a) {
    }
    forall a, b | b in ClassOf(after, a) ensures ClassOf(after, b) == ClassOf(after, a) {
      if a !in merged {
        assert b in ClassOf(classes, a);
        assert a in ClassOf(classes, b) by { assert ClassOf(classes, b) == ClassOf(classes, a); }
        assert b !in merged;
      }
    }
  }

  // --- the equivalence closure of the definite pairs --------------------------------------

  /** `S` respects the initial classes and never separates a pair. */
  ghost predicate Saturated(classes: Classes, pairs: seq<Pair>, S: set<Individual>) {
    Blocks(classes, S) && forall i :: 0 <= i < |pairs| ==> (pairs[i].0 in S <==> pairs[i].1 in S)
  }

  /** The equivalence closure of the classes and the pairs: no saturated set
      separates `x` from `y`. */
  ghost predicate Joined(classes: Classes, pairs: seq<Pair>, x: Individual, y: Individual) {
    forall S: set<Individual> :: Saturated(classes, pairs, S) && x in S ==> y in S
  }

  /** `after` is the equivalence closure. */
  ghost predicate ClosureOf(after: Classes, classes: Classes, pairs: seq<Pair>) {
    forall x, y {:trigger y in ClassOf(after, x)} :: y in ClassOf(after, x) <==> Joined(classes, pairs, x, y)
  }

  /** A saturated set stays saturated for `after`: nothing was merged needlessly. */
  ghost predicate Coarsest(after: Classes, classes: Classes, pairs: seq<Pair>) {
    forall S: set<Individual> :: Saturated(classes, pairs, S) ==> Blocks(after, S)
  }

  /** Every pair and every initial class lies within one class. */
  ghost predicate Covers(after: Classes, classes: Classes, pairs: seq<Pair>) {
    && (forall i :: 0 <= i < |pairs| ==> ClassOf(after, pairs[i].0) == ClassOf(after, pairs[i].1))
    && forall a :: ClassOf(classes, a) <= ClassOf(after, a)
  }

  lemma ClosureFrom(after: Classes, classes: Classes, pairs: seq<Pair>)
    requires Partition(after) && Coarsest(after, classes, pairs) && Covers(after, classes, pairs)
    ensures ClosureOf(after, classes, pairs)
  {
    forall x, y ensures y in ClassOf(after, x) <==> Joined(classes, pairs, x, y) {
      var S := ClassOf(after, x);
      ClassSaturated(after, classes, pairs, x);
    }
  }

  lemma ClassSaturated(after: Classes, classes: Classes, pairs: seq<Pair>, x: Individual)
    requires Partition(after) && Covers(after, classes, pairs)
    ensures Saturated(classes, pairs, ClassOf(after, x)) && x in ClassOf(after, x)
  {
    var S := ClassOf(after, x);
    forall a | a in S ensures ClassOf(classes, a) <= S {
      assert ClassOf(after, a) == S;
    }
    forall i | 0 <= i < |pairs| ensures pairs[i].0 in S <==> pairs[i].1 in S {
      var a, b := pairs[i].0, pairs[i].1;
      assert ClassOf(after, a) == ClassOf(after, b);
      assert a in ClassOf(after, a) && b in ClassOf(after, b);
    }
  }

  /** Joining one more pair. */
  lemma UnionKeeps(before: Classes, classes: Classes, pairs: seq<Pair>, a: Individual, b: Individual, after: Classes)
    requires Partition(before) && Coarsest(before, classes, pairs) && Covers(before, classes, pairs)
    requires after == if ClassOf(before, a) == ClassOf(before, b) then before else Record(before, ClassOf(before, a) + ClassOf(before, b))
    ensures Partition(after) && Coarsest(after, classes, pairs + [(a, b)]) && Covers(after, classes, pairs + [(a, b)])
  {
    var longer := pairs + [(a, b)];
    var merged := ClassOf(before, a) + ClassOf(before, b);
    assert Blocks(before, merged);
    RecordKeeps(before, merged);
    assert longer[|pairs|] == (a, b);
    forall S: set<Individual> | Saturated(classes, longer, S) ensures Blocks(after, S) {
      assert Saturated(classes, pairs, S) by {
        forall i | 0 <= i < |pairs| ensures pairs[i].0 in S <==> pairs[i].1 in S {
          assert longer[i] == pairs[i];
        }
      }
      SaturatedMerge(before, a, b, S);
    }
    forall i | 0 <= i < |longer| ensures ClassOf(after, longer[i].0) == ClassOf(after, longer[i].1) {
      if i < |pairs| {
        assert longer[i] == pairs[i];
        assert ClassOf(before, pairs[i].0) == ClassOf(before, pairs[i].1);
        InMerged(before, merged, pairs[i].0, pairs[i].1);
      }
    }
  }

  /** Members of one class are merged together or not at all. */
  lemma InMerged(classes: Classes, merged: set<Individual>, x: Individual, y: Individual)
    requires Partition(classes) && Blocks(classes, merged) && ClassOf(classes, x) == ClassOf(classes, y)
    ensures x in merged <==> y in merged
  {
    assert x in ClassOf(classes, x) && y in ClassOf(classes, y);
  }

  lemma SaturatedMerge(before: Classes, a: Individual, b: Individual, S: set<Individual>)
    requires Partition(before) && Blocks(before, S) && (a in S <==> b in S)
    ensures Blocks(Record(before, ClassOf(before, a) + ClassOf(before, b)), S)
  {
    var merged := ClassOf(before, a) + ClassOf(before, b);
    RecordKeeps(before, merged);
    forall x | x in S && x in merged ensures merged <= S {
      assert x in ClassOf(before, a) || x in ClassOf(before, b);
      assert a in ClassOf(before, x) || b in ClassOf(before, x) by {
        assert a in ClassOf(before, a) && b in ClassOf(before, b);
      }
    }
  }

  /** Individual merges read off the model; the flag says whether one is definite. */
  type Seed = seq<(Individual, Individual, bool)>

  /** The definite pairs of a seed, in order. */
  function Definite(seed: Seed): (r: seq<Pair>)
    ensures forall p :: p in r <==> (p.0, p.1, true) in seed
  {
    if |seed| == 0 then []
    else
      var rest := Definite(seed[..|seed| - 1]);
      var last := seed[|seed| - 1];
      assert seed == seed[..|seed| - 1] + [last];
      if last.2 then rest + [(last.0, last.1)] else rest
  }

  /** No set that respects the earlier classes and every pair flagged definite
      separates `x` from `y`: their equivalence closure. */
  ghost predicate SeedRespects(classes: Classes, seed: Seed, S: set<Individual>) {
    Blocks(classes, S) && forall a, b {:trigger (a, b, true) in seed} :: (a, b, true) in seed ==> (a in S <==> b in S)
  }

  ghost predicate SeedJoins(classes: Classes, seed: Seed, x: Individual, y: Individual) {
    forall S: set<Individual> {:trigger SeedRespects(classes, seed, S)} :: SeedRespects(classes, seed, S) && x in S ==> y in S
  }

  /** `after` is the equivalence closure of the earlier classes and the definite pairs. */
  ghost predicate SeedClosed(classes: Classes, seed: Seed, after: Classes) {
    forall x, y {:trigger y in ClassOf(after, x)} :: y in ClassOf(after, x) <==> SeedJoins(classes, seed, x, y)
  }

  /** The pairs flagged as merely possible are listed unless already decided. */
  ghost predicate SeedListed(classes: Classes, seed: Seed, possible: seq<Pair>, possible': seq<Pair>) {
    forall p {:trigger p in possible'} :: p in possible' <==> p in possible || ((p.0, p.1, false) in seed && !SeedJoins(classes, seed, p.0, p.1))
  }

  lemma SaturatedIff(classes: Classes, seed: Seed, S: set<Individual>)
    ensures Saturated(classes, Definite(seed), S) <==> SeedRespects(classes, seed, S)
  {
    var pairs := Definite(seed);
    if Saturated(classes, pairs, S) {
      forall a, b | (a, b, true) in seed ensures a in S <==> b in S {
        assert (a, b) in pairs;
        var i :| 0 <= i < |pairs| && pairs[i] == (a, b);
      }
    }
    if SeedRespects(classes, seed, S) {
      forall i | 0 <= i < |pairs| ensures pairs[i].0 in S <==> pairs[i].1 in S {
        assert pairs[i] in pairs && (pairs[i].0, pairs[i].1, true) in seed;
      }
    }
  }

  lemma JoinedBySeed(classes: Classes, seed: Seed, x: Individual, y: Individual)
    ensures Joined(classes, Definite(seed), x, y) <==> SeedJoins(classes, seed, x, y)
  {
    forall S: set<Individual> ensures Saturated(classes, Definite(seed), S) <==> SeedRespects(classes, seed, S) {
      SaturatedIff(classes, seed, S);
    }
    if Joined(classes, Definite(seed), x, y) {
      forall S: set<Individual> | SeedRespects(classes, seed, S) && x in S ensures y in S {
        assert Saturated(classes, Definite(seed), S);
      }
    }
    if SeedJoins(classes, seed, x, y) {
      forall S: set<Individual> | Saturated(classes, Definite(seed), S) && x in S ensures y in S {
        assert SeedRespects(classes, seed, S);
      }
    }
  }

  // --- possible pairs -----------------------------------------------------------------------

  ghost predicate Equivalence(same: Truth) {
    && (forall a :: same(a, a))
    && (forall a, b :: same(a, b) ==> same(b, a))
    && forall a, b, c {:trigger same(a, b), same(b, c)} :: same(a, b) && same(b, c) ==> same(a, c)
  }

  /** Everything stored as one class is the same. */
  ghost predicate Sound(classes: Classes, same: Truth) {
    forall a, b {:trigger b in ClassOf(classes, a)} :: b in ClassOf(classes, a) ==> same(a, b)
  }

  /** `S` respects the classes and every true possible pair. */
  ghost predicate LinkClosed(classes: Classes, possible: seq<Pair>, same: Truth, S: set<Individual>) {
    Blocks(classes, S) && forall p :: p in possible && same(p.0, p.1) ==> (p.0 in S <==> p.1 in S)
  }

  /** Truly equal individuals are linked by classes and true possible pairs. */
  ghost predicate Complete(classes: Classes, possible: seq<Pair>, same: Truth) {
    forall S: set<Individual> {:trigger LinkClosed(classes, possible, same, S)} :: LinkClosed(classes, possible, same, S) ==> Respects(same, S)
  }

  ghost predicate Respects(same: Truth, S: set<Individual>) {
    forall x, y {:trigger same(x, y)} :: same(x, y) && x in S ==> y in S
  }

  /** It is enough that each true pair is in one class or listed. */
  lemma ListedComplete(classes: Classes, possible: seq<Pair>, same: Truth)
    requires forall x, y {:trigger same(x, y)} :: same(x, y) ==> y in ClassOf(classes, x) || (x, y) in possible || (y, x) in possible
    requires Equivalence(same)
    ensures Complete(classes, possible, same)
  {
    forall S: set<Individual> | LinkClosed(classes, possible, same, S) ensures Respects(same, S) {
      forall x, y | same(x, y) && x in S ensures y in S {
        if y !in ClassOf(classes, x) {
          if (x, y) in possible {
            assert (x, y).0 == x && (x, y).1 == y;
          } else {
            assert (y, x) in possible && (y, x).0 == y && (y, x).1 == x;
          }
        }
      }
    }
  }

  /** A pair with exactly one end in the class. */
  predicate Touches(cls: set<Individual>, p: Pair) {
    (p.0 in cls) != (p.1 in cls)
  }

  function Outside(cls: set<Individual>, p: Pair): Individual {
    if p.0 in cls then p.1 else p.0
  }

  /** `find_map`: the outer end of the first pair that touches the class. */
  method FindCandidate(possible: seq<Pair>, cls: set<Individual>) returns (r: Option<Individual>)
    ensures r.None? <==> forall i :: 0 <= i < |possible| ==> !Touches(cls, possible[i])
    ensures r.Some? ==> exists i :: 0 <= i < |possible| && Touches(cls, possible[i]) && r.value == Outside(cls, possible[i])
                          && forall k :: 0 <= k < i ==> !Touches(cls, possible[k])
  {
    for i := 0 to |possible|
      invariant forall k :: 0 <= k < i ==> !Touches(cls, possible[k])
    {
      if Touches(cls, possible[i]) {
        return Some(Outside(cls, possible[i]));
      }
    }
    return None;
  }

  predicate Refuted(cls: set<Individual>, candidate: Individual, p: Pair) {
    (p.0 in cls && p.1 == candidate) || (p.1 in cls && p.0 == candidate)
  }

  /** `retain`: drops the pairs that link the class to the candidate. */
  function DropRefuted(possible: seq<Pair>, cls: set<Individual>, candidate: Individual): (r: seq<Pair>)
    ensures forall p :: p in r <==> p in possible && !Refuted(cls, candidate, p)
    ensures |r| <= |possible| && ((exists p :: p in possible && Refuted(cls, candidate, p)) ==> |r| < |possible|)
  {
    if |possible| == 0 then []
    else if Refuted(cls, candidate, possible[0]) then DropRefuted(possible[1..], cls, candidate)
    else [possible[0]] + DropRefuted(possible[1..], cls, candidate)
  }

  ghost function Ends(possible: seq<Pair>): set<Individual> {
    (set i | 0 <= i < |possible| :: possible[i].0) + (set i | 0 <= i < |possible| :: possible[i].1)
  }

  /** The oracle answers truthfully whenever it answers. */
  ghost predicate Exact(isSame: SameOracle, same: Truth) {
    Equivalence(same) && forall t: nat, a, b {:trigger isSame(t, a, b)} :: isSame(t, a, b).Some? ==> isSame(t, a, b).value == same(a, b)
  }

  /** What the expansion of one class relies on and keeps. */
  ghost predicate Expanding(classes: Classes, possible: seq<Pair>, same: Truth, individual: Individual, cls: set<Individual>) {
    && Equivalence(same) && Sound(classes, same) && Complete(classes, possible, same)
    && forall x :: x in cls ==> same(individual, x)
  }

  /** A confirmed candidate brings its whole class. */
  lemma Confirm(classes: Classes, possible: seq<Pair>, same: Truth, individual: Individual, cls: set<Individual>, anchor: Individual, candidate: Individual)
    requires Expanding(classes, possible, same, individual, cls) && anchor in cls && same(anchor, candidate)
    ensures Expanding(classes, possible, same, individual, cls + ClassOf(classes, candidate) + {candidate})
  {
    assert same(individual, anchor);
    forall x | x in ClassOf(classes, candidate) ensures same(individual, x) {
      assert same(candidate, x);
      assert same(individual, candidate);
    }
  }

  /** Dropping the pairs of a refuted candidate loses nothing true. */
  lemma Refute(classes: Classes, possible: seq<Pair>, same: Truth, individual: Individual, cls: set<Individual>, anchor: Individual, candidate: Individual)
    requires Expanding(classes, possible, same, individual, cls) && anchor in cls && !same(anchor, candidate)
    ensures Expanding(classes, DropRefuted(possible, cls, candidate), same, individual, cls)
  {
    var rest := DropRefuted(possible, cls, candidate);
    forall x | x in cls ensures !same(x, candidate) && !same(candidate, x) {
      assert same(individual, x) && same(individual, anchor);
      assert same(anchor, individual);
      assert same(anchor, x);
    }
    forall S: set<Individual> | LinkClosed(classes, rest, same, S) ensures Respects(same, S) {
      assert LinkClosed(classes, possible, same, S);
    }
  }

  /** When no pair touches the class any more it is the true class. */
  lemma Expanded(classes: Classes, possible: seq<Pair>, same: Truth, individual: Individual, cls: set<Individual>)
    requires Expanding(classes, possible, same, individual, cls) && individual in cls && Blocks(classes, cls)
    requires forall i :: 0 <= i < |possible| ==> !Touches(cls, possible[i])
    ensures forall x :: x in cls <==> same(individual, x)
    ensures Sound(Record(classes, cls), same) && (Partition(classes) ==> Complete(Record(classes, cls), possible, same))
  {
    forall p | p in possible ensures p.0 in cls <==> p.1 in cls {
      var i :| 0 <= i < |possible| && possible[i] == p;
      assert !Touches(cls, possible[i]);
    }
    assert LinkClosed(classes, possible, same, cls);
    assert Respects(same, cls);
    forall a, b | b in ClassOf(Record(classes, cls), a) ensures same(a, b) {
      if a in cls {
        assert same(individual, a) && same(a, individual) && same(individual, b);
      } else {
        assert b in ClassOf(classes, a);
      }
    }
    if Partition(classes) {
      RecordKeeps(classes, cls);
      forall S: set<Individual> | LinkClosed(Record(classes, cls), possible, same, S) ensures Respects(same, S) {
        CoarserBlocks(classes, cls, S);
        assert LinkClosed(classes, possible, same, S);
      }
    }
  }

  lemma CoarserBlocks(classes: Classes, merged: set<Individual>, S: set<Individual>)
    requires Partition(classes) && Blocks(classes, merged) && Blocks(Record(classes, merged), S)
    ensures Blocks(classes, S)
  {
    RecordKeeps(classes, merged);
    forall a | a in S ensures ClassOf(classes, a) <= S {
      assert ClassOf(Record(classes, merged), a) <= S;
    }
  }

  class SameAsIndex {
    var classes: Classes
    var possible: seq<Pair>
    var tick: nat

    ghost predicate Valid() reads this {
      Partition(classes)
    }

    constructor ()
      ensures Valid() && classes == map[] && possible == []
    {
      classes, possible, tick := map[], [], 0;
    }

    predicate IsSameIndividual(a: Individual, b: Individual)
      reads this
    {
      a == b || b in ClassOf(classes, a)
    }

    method UnionSameAs(a: Individual, b: Individual)
      modifies this`classes
      ensures classes == if ClassOf(old(classes), a) == ClassOf(old(classes), b) then old(classes)
                         else Record(old(classes), ClassOf(old(classes), a) + ClassOf(old(classes), b))
    {
      var classA, classB := ClassOf(classes, a), ClassOf(classes, b);
      if classA == classB {
        return;
      }
      classes := Record(classes, classA + classB);
    }

    /** `seed_same_as`: the classes become the equivalence closure of what they were
        and the definite pairs; the other pairs are kept if still undecided. */
    method SeedSameAs(individuals: seq<Individual>, seed: Seed)
      requires Valid()
      modifies this
      ensures Valid() && SeedClosed(old(classes), seed, classes)
      ensures forall a :: a in individuals ==> a in classes
      ensures SeedListed(old(classes), seed, old(possible), possible)
    {
      hide Partition, Coarsest, Covers, Joined, ClosureOf;
      ghost var start := classes;
      for i := 0 to |individuals|
        invariant Partition(classes) && classes.Keys >= start.Keys && possible == old(possible)
        invariant forall a :: ClassOf(classes, a) == ClassOf(start, a)
        invariant forall k :: 0 <= k < i ==> individuals[k] in classes
      {
        SingletonKeeps(classes, individuals[i]);
        if individuals[i] !in classes {
          classes := classes[individuals[i] := {individuals[i]}];
        }
      }
      SameClasses(start, classes);
      ghost var seeded := classes;
      assert Definite(seed[..0]) == [];
      for i := 0 to |seed|
        invariant Partition(classes) && possible == old(possible) && classes.Keys >= seeded.Keys
        invariant Coarsest(classes, start, Definite(seed[..i])) && Covers(classes, start, Definite(seed[..i]))
      {
        assert seed[..i + 1][..i] == seed[..i];
        assert Definite(seed[..i + 1]) == if seed[i].2 then Definite(seed[..i]) + [(seed[i].0, seed[i].1)] else Definite(seed[..i]);
        ghost var before := classes;
        if seed[i].2 {
          UnionSameAs(seed[i].0, seed[i].1);
          UnionKeeps(before, start, Definite(seed[..i]), seed[i].0, seed[i].1, classes);
        }
      }
      assert seed[..|seed|] == seed;
      ClosureFrom(classes, start, Definite(seed));
      for i := 0 to |seed|
        invariant forall p :: p in possible <==> p in old(possible) || ((p.0, p.1, false) in seed[..i] && !Joined(start, Definite(seed), p.0, p.1))
        invariant Partition(classes) && ClosureOf(classes, start, Definite(seed))
        invariant classes.Keys >= seeded.Keys
      {
        var (a, b, definite) := seed[i];
        JoinedIff(classes, start, Definite(seed), a, b);
        assert seed[..i + 1] == seed[..i] + [seed[i]];
        if !definite && !IsSameIndividual(a, b) {
          possible := possible + [(a, b)];
        }
      }
      SeedResult(start, seed, classes, old(possible), possible);
    }

    /** `get_same_as_individuals`: terminates and keeps the partition for every
        oracle; with a truthful one and complete candidates it answers the true class. */
    method GetSameAsIndividuals(individual: Individual, isSame: SameOracle, ghost same: Truth) returns (r: Option<set<Individual>>)
      requires Valid()
      modifies this
      ensures Valid() && (r.None? ==> classes == old(classes))
      ensures r.Some? ==> individual in r.value && Blocks(old(classes), r.value) && classes == Record(old(classes), r.value)
      ensures forall p :: p in possible ==> p in old(possible)
      ensures Exact(isSame, same) && Sound(old(classes), same) && Complete(old(classes), old(possible), same) ==>
        Sound(classes, same) && Complete(classes, possible, same) && (r.Some? ==> forall x :: x in r.value <==> same(individual, x))
    {
      hide Expanding, Exact, Sound, Complete, Partition, Blocks;
      var cls := ClassOf(classes, individual) + {individual};
      StartExpanding(classes, possible, isSame, same, individual);
      ghost var good := Exact(isSame, same) && Sound(classes, same) && Complete(classes, possible, same);
      while true
        invariant classes == old(classes) && individual in cls && Blocks(classes, cls)
        invariant forall p :: p in possible ==> p in old(possible)
        invariant good ==> Expanding(classes, possible, same, individual, cls)
        decreases Ends(old(possible)) - cls, |possible|
      {
        var candidate := FindCandidate(possible, cls);
        if candidate.None? {
          break;
        }
        var c := candidate.value;
        CandidateIsEnd(possible, old(possible), cls, c);
        var anchor :| anchor in cls;
        var answer := isSame(tick, anchor, c);
        tick := tick + 1;
        if answer.None? {
          if good {
            ExpandingMeans(classes, possible, same, individual, cls);
          }
          return None;
        }
        if good {
          OracleSays(isSame, same, tick - 1, anchor, c);
        }
        if answer.value {
          BlocksGrow(classes, cls, c);
          if good {
            Confirm(classes, possible, same, individual, cls, anchor, c);
          }
          cls := cls + ClassOf(classes, c) + {c};
        } else {
          if good {
            Refute(classes, possible, same, individual, cls, anchor, c);
          }
          possible := DropRefuted(possible, cls, c);
        }
      }
      RecordKeeps(classes, cls);
      if good {
        Expanded(classes, possible, same, individual, cls);
      }
      classes := Record(classes, cls);
      return Some(cls);
    }
  }

  lemma SeedResult(classes: Classes, seed: Seed, after: Classes, possible: seq<Pair>, possible': seq<Pair>)
    requires ClosureOf(after, classes, Definite(seed))
    requires forall p {:trigger p in possible'} :: p in possible' <==> p in possible || ((p.0, p.1, false) in seed && !Joined(classes, Definite(seed), p.0, p.1))
    ensures SeedClosed(classes, seed, after) && SeedListed(classes, seed, possible, possible')
  {
    hide Joined, SeedJoins;
    forall x, y ensures Joined(classes, Definite(seed), x, y) <==> SeedJoins(classes, seed, x, y) {
      JoinedBySeed(classes, seed, x, y);
    }
  }

  /** `S` respects every definite pair and every true pair among the possible ones. */
  ghost predicate SeedLinks(seed: Seed, same: Truth, S: set<Individual>) {
    forall a, b, definite {:trigger (a, b, definite) in seed} :: (a, b, definite) in seed && (definite || same(a, b)) ==> (a in S <==> b in S)
  }

  /** What a faithful read-off of the merges guarantees: definite merges are true, and
      truly equal individuals are linked by definite and true possible merges. */
  ghost predicate SeedFaithful(seed: Seed, same: Truth) {
    && Equivalence(same)
    && (forall a, b {:trigger (a, b, true) in seed} :: (a, b, true) in seed ==> same(a, b))
    && forall S: set<Individual> {:trigger SeedLinks(seed, same, S)} :: SeedLinks(seed, same, S) ==> Respects(same, S)
  }

  /** Seeding an empty index from a faithful read-off leaves it sound and complete. */
  lemma SeedSuffices(seed: Seed, same: Truth, classes: Classes, possible: seq<Pair>)
    requires SeedFaithful(seed, same) && Partition(classes) && SeedClosed(map[], seed, classes) && SeedListed(map[], seed, [], possible)
    ensures Sound(classes, same) && Complete(classes, possible, same)
  {
    forall a, b | b in ClassOf(classes, a) ensures same(a, b) {
      ClassIsTrue(seed, same, classes, a, b);
    }
    forall S: set<Individual> | LinkClosed(classes, possible, same, S) ensures Respects(same, S) {
      LinkClosedLinks(seed, same, classes, possible, S);
    }
  }

  /** The true class of `a` respects the definite pairs, so no class exceeds it. */
  lemma ClassIsTrue(seed: Seed, same: Truth, classes: Classes, a: Individual, b: Individual)
    requires SeedFaithful(seed, same) && Partition(classes) && SeedClosed(map[], seed, classes) && b in ClassOf(classes, a)
    ensures same(a, b)
  {
    var S := set x | x in ClassOf(classes, a) && same(a, x);
    forall x, y | (x, y, true) in seed ensures x in S <==> y in S {
      assert same(x, y) && same(y, x);
      DefiniteTogether(seed, classes, x, y);
      assert y in ClassOf(classes, x) && x in ClassOf(classes, y);
    }
    assert SeedRespects(map[], seed, S);
    assert SeedJoins(map[], seed, a, b);
    assert a in ClassOf(classes, a) && same(a, a);
  }

  lemma DefiniteTogether(seed: Seed, classes: Classes, x: Individual, y: Individual)
    requires SeedClosed(map[], seed, classes) && (x, y, true) in seed
    ensures y in ClassOf(classes, x) && x in ClassOf(classes, y)
  {
    assert SeedJoins(map[], seed, x, y) && SeedJoins(map[], seed, y, x);
  }

  lemma LinkClosedLinks(seed: Seed, same: Truth, classes: Classes, possible: seq<Pair>, S: set<Individual>)
    requires SeedFaithful(seed, same) && Partition(classes) && SeedClosed(map[], seed, classes) && SeedListed(map[], seed, [], possible)
    requires LinkClosed(classes, possible, same, S)
    ensures Respects(same, S)
  {
    forall a, b, definite | (a, b, definite) in seed && (definite || same(a, b)) ensures a in S <==> b in S {
      if definite {
        DefiniteTogether(seed, classes, a, b);
      } else if (a, b) in possible {
        assert (a, b).0 == a && (a, b).1 == b;
      } else {
        assert SeedJoins(map[], seed, a, b);
        assert b in ClassOf(classes, a);
        assert a in ClassOf(classes, a) && ClassOf(classes, b) == ClassOf(classes, a);
      }
    }
    assert SeedLinks(seed, same, S);
  }

  /** From an empty index: seed the merges of the model, then ask. With a faithful
      read-off and truthful answers the true class is returned. */
  method SameAsFromModel(individuals: seq<Individual>, seed: Seed, individual: Individual, isSame: SameOracle, ghost same: Truth) returns (r: Option<set<Individual>>)
    requires SeedFaithful(seed, same) && Exact(isSame, same)
    ensures r.Some? ==> forall x :: x in r.value <==> same(individual, x)
  {
    hide SeedFaithful, Exact, SeedClosed, SeedListed, Sound, Complete, Partition, Blocks;
    var index := new SameAsIndex();
    index.SeedSameAs(individuals, seed);
    SeedSuffices(seed, same, index.classes, index.possible);
    r := index.GetSameAsIndividuals(individual, isSame, same);
  }

  lemma SingletonKeeps(classes: Classes, a: Individual)
    requires Partition(classes)
    ensures a !in classes ==> Partition(classes[a := {a}])
    ensures a !in classes ==> forall b :: ClassOf(classes[a := {a}], b) == ClassOf(classes, b)
  {
    if a !in classes {
      var after := classes[a := {a}];
      assert forall b :: ClassOf(after, b) == ClassOf(classes, b);
    }
  }

  lemma SameClasses(start: Classes, classes: Classes)
    requires forall a :: ClassOf(classes, a) == ClassOf(start, a)
    ensures Coarsest(classes, start, []) && Covers(classes, start, [])
  {
  }

  lemma JoinedIff(after: Classes, classes: Classes, pairs: seq<Pair>, a: Individual, b: Individual)
    requires Partition(after) && ClosureOf(after, classes, pairs)
    ensures Joined(classes, pairs, a, b) <==> (a == b || b in ClassOf(after, a))
  {
  }

  lemma StartExpanding(classes: Classes, possible: seq<Pair>, isSame: SameOracle, same: Truth, individual: Individual)
    requires Partition(classes)
    ensures ClassOf(classes, individual) + {individual} == ClassOf(classes, individual) && Blocks(classes, ClassOf(classes, individual))
    ensures Exact(isSame, same) && Sound(classes, same) && Complete(classes, possible, same) ==>
      Expanding(classes, possible, same, individual, ClassOf(classes, individual))
  {
  }

  lemma CandidateIsEnd(possible: seq<Pair>, original: seq<Pair>, cls: set<Individual>, c: Individual)
    requires forall p :: p in possible ==> p in original
    requires exists i :: 0 <= i < |possible| && Touches(cls, possible[i]) && c == Outside(cls, possible[i])
    ensures c !in cls && c in Ends(original)
    ensures |DropRefuted(possible, cls, c)| < |possible|
  {
    var i :| 0 <= i < |possible| && Touches(cls, possible[i]) && c == Outside(cls, possible[i]);
    var p := possible[i];
    assert p in original && p in possible && Refuted(cls, c, p);
    var k :| 0 <= k < |original| && original[k] == p;
    assert original[k].0 in Ends(original) && original[k].1 in Ends(original);
  }

  lemma ExpandingMeans(classes: Classes, possible: seq<Pair>, same: Truth, individual: Individual, cls: set<Individual>)
    requires Expanding(classes, possible, same, individual, cls)
    ensures Sound(classes, same) && Complete(classes, possible, same)
  {
  }

  lemma OracleSays(isSame: SameOracle, same: Truth, t: nat, a: Individual, b: Individual)
    requires Exact(isSame, same) && isSame(t, a, b).Some?
    ensures isSame(t, a, b).value == same(a, b)
  {
  }

  lemma BlocksGrow(classes: Classes, cls: set<Individual>, c: Individual)
    requires Partition(classes) && Blocks(classes, cls)
    ensures Blocks(classes, cls + ClassOf(classes, c) + {c})
  {
  }
}
