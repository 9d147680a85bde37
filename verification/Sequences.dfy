/** Sequences as worklists: their members, their distinctness, and listing a set. */
module Sequences {

  function Elems(s: seq<nat>): set<nat> {
    set n | n in s
  }

  ghost predicate Distinct<T>(s: seq<T>) {
    forall i, j :: 0 <= i < j < |s| ==> s[i] != s[j]
  }

  lemma ElemsMembers(s: seq<nat>)
    ensures forall n: nat :: n in Elems(s) <==> n in s
  {
  }

  lemma ElemsNone(s: seq<nat>)
    requires |s| == 0
    ensures Elems(s) == {}
  {
  }

  lemma ElemsOne(n: nat)
    ensures Elems([n]) == {n}
  {
  }

  lemma ElemsFirst(s: seq<nat>)
    requires |s| > 0
    ensures Elems(s) == Elems(s[1..]) + {s[0]}
  {
    assert s == [s[0]] + s[1..];
  }

  lemma ElemsSnoc(s: seq<nat>, n: nat)
    ensures Elems(s + [n]) == Elems(s) + {n}
  {
    forall m ensures m in s + [n] <==> m in s || m == n {
    }
  }

  lemma ElemsConcat(a: seq<nat>, b: seq<nat>)
    ensures Elems(a + b) == Elems(a) + Elems(b)
  {
    forall n ensures n in a + b <==> n in a || n in b {
    }
  }

  lemma ElemsListing(s: set<nat>, q: seq<nat>)
    requires forall n: nat :: n in q <==> n in s
    ensures Elems(q) == s
  {
  }

  /** The members of a set in arbitrary order, as hash-set iteration yields them. */
  method InSomeOrder<T(==)>(s: set<T>) returns (r: seq<T>)
    ensures (forall x :: x in r <==> x in s) && |r| == |s| && Distinct(r)
  {
    r := [];
    var todo := s;
    while todo != {}
      invariant todo <= s && |r| == |s| - |todo|
      invariant forall x :: x in r <==> x in s - todo
      invariant Distinct(r)
    {
      var x :| x in todo;
      assert x !in r;
      forall i | 0 <= i < |r| ensures r[i] != x {
        assert r[i] in r;
      }
      r := r + [x];
      todo := todo - {x};
    }
  }
}
