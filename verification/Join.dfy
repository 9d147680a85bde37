/** `ConjunctiveQuery::evaluate`: the reordered, index-driven, backtracking join. */
module Join {
  import opened Elements
  import opened Sequences
  import opened Queries
  import opened AtomOrdering

  type Row = seq<Option<string>>

  datatype QueryError = Unsatisfiable | NotANamedClass | UnknownTerm(iri: string)

  datatype Outcome = Success | Failure(error: QueryError)

  /** The terms of the bound nodes; a variable on a node without a term is absent. */
  function NamesOf(m: Materialization, b: Binding): map<string, string> {
    map v | v in b && b[v] in m.nodeToTerm :: m.nodeToTerm[b[v]]
  }

  function Cell(m: Materialization, t: Term, b: Binding): Option<string> {
    match t
    case Variable(v) => if v in b && b[v] in m.nodeToTerm then Some(m.nodeToTerm[b[v]]) else None
    case Constant(i) => Some(i)
  }

  /** The answer row of one solution. */
  function Project(m: Materialization, answerTerms: seq<Term>, b: Binding): Row {
    seq(|answerTerms|, i requires 0 <= i < |answerTerms| => Cell(m, answerTerms[i], b))
  }

  function Projected(m: Materialization, answerTerms: seq<Term>, sols: seq<Binding>): seq<Row> {
    seq(|sols|, i requires 0 <= i < |sols| => Project(m, answerTerms, sols[i]))
  }

  lemma ProjectedConcat(m: Materialization, answerTerms: seq<Term>, a: seq<Binding>, b: seq<Binding>)
    ensures Projected(m, answerTerms, a + b) == Projected(m, answerTerms, a) + Projected(m, answerTerms, b)
  {
  }

  lemma {:induction false} OverSnoc(m: Materialization, atoms: seq<Atom>, b: Binding, rows: seq<seq<nat>>, row: seq<nat>)
    requires |atoms| > 0 && |row| == |Terms(atoms[0])| && forall i :: 0 <= i < |rows| ==> |rows[i]| == |Terms(atoms[0])|
    ensures SolutionsOver(m, atoms, b, rows + [row]) == SolutionsOver(m, atoms, b, rows) + SolutionsWith(m, atoms, b, row)
    decreases |rows|
  {
    if |rows| == 0 {
      assert rows + [row] == [row];
      assert SolutionsOver(m, atoms, b, [row][1..]) == [];
    } else {
      OverSnoc(m, atoms, b, rows[1..], row);
      assert (rows + [row])[1..] == rows[1..] + [row];
    }
  }

  /** The first `k + 1` rows contribute what the first `k` do and then row `k`. */
  lemma OverTake(m: Materialization, atoms: seq<Atom>, b: Binding, answerTerms: seq<Term>, k: nat)
    requires |atoms| > 0 && k < |Rows(m, atoms[0])|
    ensures forall i :: 0 <= i < k ==> |Rows(m, atoms[0])[..k][i]| == |Terms(atoms[0])|
    ensures Projected(m, answerTerms, SolutionsOver(m, atoms, b, Rows(m, atoms[0])[..k + 1])) ==
      Projected(m, answerTerms, SolutionsOver(m, atoms, b, Rows(m, atoms[0])[..k]))
      + Projected(m, answerTerms, SolutionsWith(m, atoms, b, Rows(m, atoms[0])[k]))
  {
    var rows := Rows(m, atoms[0]);
    assert rows[..k + 1] == rows[..k] + [rows[k]];
    OverSnoc(m, atoms, b, rows[..k], rows[k]);
    ProjectedConcat(m, answerTerms, SolutionsOver(m, atoms, b, rows[..k]), SolutionsWith(m, atoms, b, rows[k]));
  }

  lemma BindDenoted(m: Materialization, b: Binding, terms: seq<Term>, row: seq<nat>)
    requires Denotes(m, b, terms, row)
    ensures Bind(m, b, terms, row) == Some(b)
    decreases |terms|
  {
    if |terms| > 0 {
      DenotesCons(m, b, terms, row);
      BindDenoted(m, b, terms[1..], row[1..]);
    }
  }

  /** With every term bound, the atom is a filter. */
  lemma FilterAtom(m: Materialization, atoms: seq<Atom>, b: Binding, row: seq<nat>)
    requires |atoms| > 0 && FullyBound(b, Terms(atoms[0])) && Denotes(m, b, Terms(atoms[0]), row)
    ensures Solutions(m, atoms, b) == if row in Rows(m, atoms[0]) then Solutions(m, atoms[1..], b) else []
  {
    var rows := Candidates(m, b, atoms[0]);
    if row in Rows(m, atoms[0]) {
      assert row in rows;
      assert rows == [row];
      BindDenoted(m, b, Terms(atoms[0]), row);
      assert SolutionsOver(m, atoms, b, rows[1..]) == [];
      assert SolutionsWith(m, atoms, b, rows[0]) == Solutions(m, atoms[1..], b);
      assert SolutionsOver(m, atoms, b, rows) == Solutions(m, atoms[1..], b);
    } else if |rows| > 0 {
      DenotesOne(m, b, Terms(atoms[0]), row, rows[0]);
    }
  }

  /** An unresolvable constant leaves no solutions. */
  lemma {:induction false} UnresolvedOver(m: Materialization, atoms: seq<Atom>, b: Binding, rows: seq<seq<nat>>, k: nat)
    requires |atoms| > 0 && forall i :: 0 <= i < |rows| ==> |rows[i]| == |Terms(atoms[0])|
    requires k < |Terms(atoms[0])| && Terms(atoms[0])[k].Constant? && Terms(atoms[0])[k].iri !in m.termToNode
    ensures SolutionsOver(m, atoms, b, rows) == []
    decreases |rows|
  {
    if |rows| > 0 {
      UnresolvedOver(m, atoms, b, rows[1..], k);
      BindLeast(m, b, Terms(atoms[0]), rows[0]);
      assert forall s: Binding :: Resolve(m, s, Terms(atoms[0])[k]).None?;
    }
  }

  lemma BindOne(m: Materialization, b: Binding, t: Term, n: nat)
    ensures Bind(m, b, [t], [n]) == BindTerm(m, b, t, n)
  {
    match BindTerm(m, b, t, n) {
      case None =>
      case Some(b') => assert Bind(m, b', [t][1..], [n][1..]) == Some(b');
    }
  }

  lemma BindTwo(m: Materialization, b: Binding, s: Term, t: Term, x: nat, y: nat)
    ensures Bind(m, b, [s, t], [x, y]) ==
      match BindTerm(m, b, s, x) { case None => None case Some(b1) => BindTerm(m, b1, t, y) }
  {
    assert [s, t][1..] == [t] && [x, y][1..] == [y];
    match BindTerm(m, b, s, x) {
      case None =>
      case Some(b1) => BindOne(m, b1, t, y);
    }
  }

  lemma RowsOfConcept(m: Materialization, atom: Atom)
    requires atom.ConceptAtom?
    ensures |Rows(m, atom)| == |ConceptExtension(m, atom.class_)|
    ensures forall i :: 0 <= i < |Rows(m, atom)| ==> Rows(m, atom)[i] == [ConceptExtension(m, atom.class_)[i]]
    ensures forall n: nat :: [n] in Rows(m, atom) <==> n in ConceptExtension(m, atom.class_)
  {
    var ext, rows := ConceptExtension(m, atom.class_), Rows(m, atom);
    forall n: nat ensures [n] in rows <==> n in ext {
      if [n] in rows {
        var i :| 0 <= i < |rows| && rows[i] == [n];
        assert ext[i] == [n][0];
      }
      if n in ext {
        var i :| 0 <= i < |ext| && ext[i] == n;
        assert rows[i] == [n];
      }
    }
  }

  lemma RowsOfPair(m: Materialization, atom: Atom)
    requires !atom.ConceptAtom?
    ensures |Rows(m, atom)| == |PairExtension(m, atom)|
    ensures forall i :: 0 <= i < |Rows(m, atom)| ==> Rows(m, atom)[i] == [PairExtension(m, atom)[i].0, PairExtension(m, atom)[i].1]
    ensures forall x: nat, y: nat {:trigger (x, y) in PairExtension(m, atom)} ::
      [x, y] in Rows(m, atom) <==> (x, y) in PairExtension(m, atom)
  {
    var ext, rows := PairExtension(m, atom), Rows(m, atom);
    forall x: nat, y: nat ensures [x, y] in rows <==> (x, y) in ext {
      if [x, y] in rows {
        var i :| 0 <= i < |rows| && rows[i] == [x, y];
        assert ext[i].0 == [x, y][0] && ext[i].1 == [x, y][1];
        assert ext[i] == (x, y);
      }
      if (x, y) in ext {
        var i :| 0 <= i < |ext| && ext[i] == (x, y);
        assert rows[i] == [x, y];
      }
    }
  }

  lemma NoRows(m: Materialization, answerTerms: seq<Term>)
    ensures Projected(m, answerTerms, []) == []
  {
  }

  /** A scan visits all rows; before the first it has contributed nothing. */
  lemma ScanBounds(m: Materialization, atoms: seq<Atom>, b: Binding, answerTerms: seq<Term>)
    requires |atoms| > 0 && !FullyBound(b, Terms(atoms[0]))
    ensures Solutions(m, atoms, b) == SolutionsOver(m, atoms, b, Rows(m, atoms[0])[..|Rows(m, atoms[0])|])
    ensures Projected(m, answerTerms, SolutionsOver(m, atoms, b, Rows(m, atoms[0])[..0])) == []
  {
    var rows := Rows(m, atoms[0]);
    assert rows[..|rows|] == rows;
    assert SolutionsOver(m, atoms, b, rows[..0]) == [];
  }

  lemma ConceptBound(m: Materialization, atoms: seq<Atom>, b: Binding, answerTerms: seq<Term>)
    requires |atoms| > 0 && atoms[0].ConceptAtom? && Bound(b, atoms[0].term)
    ensures var node := Resolve(m, b, atoms[0].term);
      Projected(m, answerTerms, Solutions(m, atoms, b)) ==
      if node.Some? && node.value in ConceptExtension(m, atoms[0].class_) then Projected(m, answerTerms, Solutions(m, atoms[1..], b)) else []
  {
    var node := Resolve(m, b, atoms[0].term);
    assert Terms(atoms[0]) == [atoms[0].term];
    RowsOfConcept(m, atoms[0]);
    if node.Some? {
      FilterAtom(m, atoms, b, [node.value]);
    } else {
      UnresolvedOver(m, atoms, b, Candidates(m, b, atoms[0]), 0);
    }
  }

  lemma ConceptRow(m: Materialization, atoms: seq<Atom>, b: Binding, n: nat)
    requires |atoms| > 0 && atoms[0].ConceptAtom? && !Bound(b, atoms[0].term)
    ensures SolutionsWith(m, atoms, b, [n]) == Solutions(m, atoms[1..], b[atoms[0].term.name := n])
  {
    assert Terms(atoms[0]) == [atoms[0].term];
    BindOne(m, b, atoms[0].term, n);
  }

  lemma RebindSame(b: Binding, b': Binding, v: string, n: nat)
    requires v !in b && b' - {v} == b
    ensures b'[v := n] == b[v := n] && b'[v := n] - {v} == b
  {
    forall w ensures w in b <==> w in b' && w != v {
      assert w in b' - {v} <==> w in b;
    }
    forall w | w in b ensures b'[w] == b[w] {
      assert (b' - {v})[w] == b[w];
    }
  }

  lemma PairUnresolved(m: Materialization, atoms: seq<Atom>, b: Binding, answerTerms: seq<Term>)
    requires |atoms| > 0 && !atoms[0].ConceptAtom?
    requires (Bound(b, atoms[0].from) && Resolve(m, b, atoms[0].from).None?) || (Bound(b, atoms[0].to) && Resolve(m, b, atoms[0].to).None?)
    ensures Projected(m, answerTerms, Solutions(m, atoms, b)) == []
  {
    assert Terms(atoms[0]) == [atoms[0].from, atoms[0].to];
    var k := if Bound(b, atoms[0].from) && Resolve(m, b, atoms[0].from).None? then 0 else 1;
    UnresolvedOver(m, atoms, b, Candidates(m, b, atoms[0]), k);
  }

  lemma PairBound(m: Materialization, atoms: seq<Atom>, b: Binding, answerTerms: seq<Term>, x: nat, y: nat)
    requires |atoms| > 0 && !atoms[0].ConceptAtom? && Bound(b, atoms[0].from) && Bound(b, atoms[0].to)
    requires Resolve(m, b, atoms[0].from) == Some(x) && Resolve(m, b, atoms[0].to) == Some(y)
    ensures Projected(m, answerTerms, Solutions(m, atoms, b)) ==
      if (x, y) in PairExtension(m, atoms[0]) then Projected(m, answerTerms, Solutions(m, atoms[1..], b)) else []
  {
    assert Terms(atoms[0]) == [atoms[0].from, atoms[0].to];
    RowsOfPair(m, atoms[0]);
    FilterAtom(m, atoms, b, [x, y]);
  }

  /** A tuple that misses the bound second endpoint matches nothing. */
  lemma SkippedTo(m: Materialization, b: Binding, s: Term, t: Term, x: nat, y: nat)
    requires Resolve(m, b, t).Some? && Resolve(m, b, t) != Some(y)
    ensures Bind(m, b, [s, t], [x, y]).None?
  {
    BindTwo(m, b, s, t, x, y);
  }

  /** A bound variable resolves through its node, or else through its name. */
  function ResolveBound(m: Materialization, binding: map<string, string>, nodeBinding: Binding, t: Term): Option<nat> {
    match t
    case Variable(v) =>
      if v in nodeBinding then Some(nodeBinding[v])
      else if v in binding && binding[v] in m.termToNode then Some(m.termToNode[binding[v]])
      else None
    case Constant(i) => if i in m.termToNode then Some(m.termToNode[i]) else None
  }

  lemma ResolveBoundMeans(m: Materialization, b: Binding, t: Term)
    ensures ResolveBound(m, NamesOf(m, b), b, t) == Resolve(m, b, t)
  {
  }

  class ConjunctiveQuery {
    const m: Materialization
    const answerTerms: seq<Term>
    var binding: map<string, string>
    var boundSoFar: set<string>
    var nodeBinding: Binding
    var collector: seq<Row>

    /** The three maps describe one assignment. */
    ghost predicate Valid() reads this {
      boundSoFar == nodeBinding.Keys && binding == NamesOf(m, nodeBinding)
    }

    constructor (m: Materialization, answerTerms: seq<Term>)
      ensures Valid() && nodeBinding == map[] && collector == [] && this.m == m && this.answerTerms == answerTerms
    {
      this.m := m;
      this.answerTerms := answerTerms;
      binding, boundSoFar, nodeBinding, collector := map[], {}, map[], [];
    }

    predicate IsBound(t: Term)
      reads this
    {
      t.Variable? ==> t.name in boundSoFar
    }

    method BindVariable(v: string, node: nat)
      requires Valid()
      modifies this
      ensures Valid() && nodeBinding == old(nodeBinding)[v := node] && collector == old(collector)
    {
      nodeBinding := nodeBinding[v := node];
      boundSoFar := boundSoFar + {v};
      if node in m.nodeToTerm {
        binding := binding[v := m.nodeToTerm[node]];
      } else {
        binding := binding - {v};
      }
    }

    method Unbind(v: string)
      requires Valid()
      modifies this
      ensures Valid() && nodeBinding == old(nodeBinding) - {v} && collector == old(collector)
    {
      binding := binding - {v};
      boundSoFar := boundSoFar - {v};
      nodeBinding := nodeBinding - {v};
    }

    /** One endpoint of a matched tuple: bind it, or check it against the node it
        already has. */
    method BindEndpoint(v: string, node: nat) returns (ok: bool, newly: bool)
      requires Valid()
      modifies this
      ensures Valid() && collector == old(collector)
      ensures newly <==> v !in old(nodeBinding)
      ensures nodeBinding == if newly then old(nodeBinding)[v := node] else old(nodeBinding)
      ensures BindTerm(m, old(nodeBinding), Variable(v), node) == if ok then Some(nodeBinding) else None
    {
      if v in nodeBinding {
        ok, newly := nodeBinding[v] == node, false;
      } else {
        BindVariable(v, node);
        ok, newly := true, true;
      }
    }

    method EmitAnswers()
      requires Valid()
      modifies this`collector
      ensures collector == old(collector) + [Project(m, answerTerms, nodeBinding)]
      ensures AnswerRow(m, answerTerms, nodeBinding, collector[|old(collector)|])
    {
      var names := binding;
      var answer: Row := seq(|answerTerms|, i requires 0 <= i < |answerTerms| =>
        match answerTerms[i]
        case Variable(v) => if v in names then Some(names[v]) else None
        case Constant(c) => Some(c));
      assert answer == Project(m, answerTerms, nodeBinding);
      ProjectMeans(m, answerTerms, nodeBinding);
      collector := collector + [answer];
    }

    /** `join`: appends the answers of all solutions of the remaining atoms and
        restores the three maps. */
    method Join(ordered: seq<Atom>)
      requires Valid()
      modifies this
      ensures Valid() && nodeBinding == old(nodeBinding)
      ensures collector == old(collector) + Projected(m, answerTerms, Solutions(m, ordered, old(nodeBinding)))
      decreases |ordered|, 2
    {
      if |ordered| == 0 {
        EmitAnswers();
      } else if ordered[0].ConceptAtom? {
        MatchConceptAtom(ordered);
      } else {
        MatchPairAtom(ordered);
      }
    }

    method MatchConceptAtom(ordered: seq<Atom>)
      requires Valid() && |ordered| > 0 && ordered[0].ConceptAtom?
      modifies this
      ensures Valid() && nodeBinding == old(nodeBinding)
      ensures collector == old(collector) + Projected(m, answerTerms, Solutions(m, ordered, old(nodeBinding)))
      decreases |ordered|, 1
    {
      hide Solutions, SolutionsOver, SolutionsWith, Projected, NamesOf;
      var term := ordered[0].term;
      var extension := ConceptExtension(m, ordered[0].class_);
      ghost var b := nodeBinding;
      if IsBound(term) {
        var node := ResolveBound(m, binding, nodeBinding, term);
        ResolveBoundMeans(m, b, term);
        ConceptBound(m, ordered, b, answerTerms);
        if node.Some? && node.value in extension {
          Join(ordered[1..]);
        }
      } else {
        var v := term.name;
        RowsOfConcept(m, ordered[0]);
        assert Terms(ordered[0]) == [term];
        assert !Bound(b, Terms(ordered[0])[0]);
        ScanBounds(m, ordered, b, answerTerms);
        for i := 0 to |extension|
          invariant Valid() && nodeBinding - {v} == b
          invariant collector == old(collector) + Projected(m, answerTerms, SolutionsOver(m, ordered, b, Rows(m, ordered[0])[..i]))
        {
          OverTake(m, ordered, b, answerTerms, i);
          ConceptRow(m, ordered, b, extension[i]);
          RebindSame(b, nodeBinding, v, extension[i]);
          BindVariable(v, extension[i]);
          Join(ordered[1..]);
        }
        Unbind(v);
      }
    }

    method MatchPairAtom(ordered: seq<Atom>)
      requires Valid() && |ordered| > 0 && !ordered[0].ConceptAtom?
      modifies this
      ensures Valid() && nodeBinding == old(nodeBinding)
      ensures collector == old(collector) + Projected(m, answerTerms, Solutions(m, ordered, old(nodeBinding)))
      decreases |ordered|, 1
    {
      hide Solutions, SolutionsOver, SolutionsWith, Projected, NamesOf;
      var from, to := ordered[0].from, ordered[0].to;
      var extension := PairExtension(m, ordered[0]);
      ghost var b := nodeBinding;
      var fromBound, toBound := IsBound(from), IsBound(to);
      var fromNode := if fromBound then ResolveBound(m, binding, nodeBinding, from) else None;
      var toNode := if toBound then ResolveBound(m, binding, nodeBinding, to) else None;
      ResolveBoundMeans(m, b, from);
      ResolveBoundMeans(m, b, to);
      if (fromBound && fromNode.None?) || (toBound && toNode.None?) {
        PairUnresolved(m, ordered, b, answerTerms);
        return;
      }
      if fromBound && toBound {
        PairBound(m, ordered, b, answerTerms, fromNode.value, toNode.value);
        if (fromNode.value, toNode.value) in extension {
          Join(ordered[1..]);
        }
        return;
      }
      RowsOfPair(m, ordered[0]);
      assert Terms(ordered[0]) == [from, to];
      assert !Bound(b, Terms(ordered[0])[0]) || !Bound(b, Terms(ordered[0])[1]);
      ScanBounds(m, ordered, b, answerTerms);
      for i := 0 to |extension|
        invariant Valid() && nodeBinding == b
        invariant collector == old(collector) + Projected(m, answerTerms, SolutionsOver(m, ordered, b, Rows(m, ordered[0])[..i]))
      {
        OverTake(m, ordered, b, answerTerms, i);
        MatchTuple(ordered, fromNode, toNode, extension[i]);
      }
    }

    /** One tuple of the extension: skipped if it misses a bound endpoint, and
        otherwise bound, joined and unbound. */
    method MatchTuple(ordered: seq<Atom>, fromNode: Option<nat>, toNode: Option<nat>, tuple: (nat, nat))
      requires Valid() && |ordered| > 0 && !ordered[0].ConceptAtom?
      requires fromNode == Resolve(m, nodeBinding, ordered[0].from) && (IsBound(ordered[0].from) ==> fromNode.Some?)
      requires toNode == Resolve(m, nodeBinding, ordered[0].to) && (IsBound(ordered[0].to) ==> toNode.Some?)
      modifies this
      ensures Valid() && nodeBinding == old(nodeBinding)
      ensures collector == old(collector) + Projected(m, answerTerms, SolutionsWith(m, ordered, old(nodeBinding), [tuple.0, tuple.1]))
      decreases |ordered|, 0
    {
      hide Solutions, SolutionsOver, Projected, NamesOf;
      var from, to := ordered[0].from, ordered[0].to;
      ghost var b := nodeBinding;
      BindTwo(m, b, from, to, tuple.0, tuple.1);
      NoRows(m, answerTerms);
      if fromNode.Some? && tuple.0 != fromNode.value {
        return;
      }
      if toNode.Some? && tuple.1 != toNode.value {
        SkippedTo(m, b, from, to, tuple.0, tuple.1);
        return;
      }
      var ok, newFrom, newTo := true, false, false;
      if fromNode.None? {
        ok, newFrom := BindEndpoint(from.name, tuple.0);
      }
      ghost var b1 := nodeBinding;
      if ok && toNode.None? {
        ok, newTo := BindEndpoint(to.name, tuple.1);
      }
      ghost var b2 := nodeBinding;
      if ok {
        Join(ordered[1..]);
      }
      if newFrom {
        Unbind(from.name);
      }
      if newTo {
        Unbind(to.name);
      }
    }
  }

  // --- evaluation -----------------------------------------------------------------------

  predicate KnownTerm(m: Materialization, t: Term) {
    t.Constant? ==> t.iri in m.termToNode
  }

  /** The atom belongs to the query vocabulary and its constants are loaded. */
  predicate GoodAtom(m: Materialization, atom: Atom) {
    && (atom.ConceptAtom? ==> atom.class_.Named?)
    && forall i :: 0 <= i < |Terms(atom)| ==> KnownTerm(m, Terms(atom)[i])
  }

  /** What is reported for the first bad atom. */
  ghost predicate Reports(m: Materialization, atom: Atom, error: QueryError) {
    match error
    case Unsatisfiable => false
    case NotANamedClass => atom.ConceptAtom? && !atom.class_.Named?
    case UnknownTerm(iri) =>
      && (atom.ConceptAtom? ==> atom.class_.Named?)
      && Constant(iri) in Terms(atom) && iri !in m.termToNode
  }

  method ValidateAtom(m: Materialization, atom: Atom) returns (r: Outcome)
    ensures r == Success <==> GoodAtom(m, atom)
    ensures r.Failure? ==> Reports(m, atom, r.error)
  {
    if atom.ConceptAtom? && !atom.class_.Named? {
      return Failure(NotANamedClass);
    }
    var terms := Terms(atom);
    for i := 0 to |terms|
      invariant forall k :: 0 <= k < i ==> KnownTerm(m, terms[k])
    {
      if terms[i].Constant? && terms[i].iri !in m.termToNode {
        return Failure(UnknownTerm(terms[i].iri));
      }
    }
    return Success;
  }

  method Validate(m: Materialization, atoms: seq<Atom>) returns (r: Outcome)
    ensures r == Success <==> forall i :: 0 <= i < |atoms| ==> GoodAtom(m, atoms[i])
    ensures r.Failure? ==> exists i :: 0 <= i < |atoms| && !GoodAtom(m, atoms[i]) && Reports(m, atoms[i], r.error)
                             && forall k :: 0 <= k < i ==> GoodAtom(m, atoms[k])
  {
    for i := 0 to |atoms|
      invariant forall k :: 0 <= k < i ==> GoodAtom(m, atoms[k])
    {
      r := ValidateAtom(m, atoms[i]);
      if r.Failure? {
        return;
      }
    }
    return Success;
  }

  /** `s` assigns nodes to exactly the body variables, and every atom holds by the
      stored tables. */
  ghost predicate AnswersBody(m: Materialization, atoms: seq<Atom>, s: Binding) {
    && (forall v {:trigger v in s} :: v in s <==> exists i :: 0 <= i < |atoms| && Mentions(atoms[i], v))
    && (forall i :: 0 <= i < |atoms| ==> AtomHolds(m, s, atoms[i]))
  }

  /** The naive semantics: `sols` lists the satisfying assignments of the body
      variables, each once if no table repeats a row. */
  ghost predicate Enumerates(m: Materialization, atoms: seq<Atom>, sols: seq<Binding>) {
    && (forall s: Binding {:trigger AnswersBody(m, atoms, s)} :: s in sols <==> AnswersBody(m, atoms, s))
    && (DistinctTables(m) || DistinctRows(m, atoms) ==> Distinct(sols))
  }

  lemma AnswersBodyIff(m: Materialization, atoms: seq<Atom>, s: Binding)
    ensures AnswersBody(m, atoms, s) <==> s.Keys == Vars(atoms) && Satisfies(m, s, atoms)
  {
    forall i | 0 <= i < |atoms| ensures SatisfiesAtom(m, s, atoms[i]) <==> AtomHolds(m, s, atoms[i]) {
      AtomMeaning(m, s, atoms[i]);
    }
    forall v ensures v in Vars(atoms) <==> exists i :: 0 <= i < |atoms| && Mentions(atoms[i], v) {
      VarsMember(atoms, v);
      forall i | 0 <= i < |atoms| ensures Mentions(atoms[i], v) <==> v in TermVars(Terms(atoms[i])) {
        MentionsIff(atoms[i], v);
      }
      if v in Vars(atoms) {
        var a :| a in atoms && v in TermVars(Terms(a));
        var i :| 0 <= i < |atoms| && atoms[i] == a;
        assert Mentions(atoms[i], v);
      }
    }
  }

  lemma EnumeratesReordered(m: Materialization, atoms: seq<Atom>, ordered: seq<Atom>)
    requires SameAtoms(atoms, ordered)
    ensures Enumerates(m, atoms, Solutions(m, ordered, map[]))
    ensures DistinctRows(m, atoms) ==> multiset(Solutions(m, ordered, map[])) == multiset(Solutions(m, atoms, map[]))
  {
    hide AnswersBody, Solutions, Satisfies;
    forall s: Binding ensures s in Solutions(m, ordered, map[]) <==> AnswersBody(m, atoms, s) {
      SolutionsExact(m, ordered, map[], s);
      SameAtomsMean(m, atoms, ordered, map[], s);
      AnswersBodyIff(m, atoms, s);
    }
    if DistinctTables(m) {
      forall i | 0 <= i < |atoms| ensures Distinct(Rows(m, atoms[i])) {
        TablesGiveRows(m, atoms[i]);
      }
    }
    if DistinctRows(m, atoms) {
      forall i | 0 <= i < |ordered| ensures Distinct(Rows(m, ordered[i])) {
        assert ordered[i] in atoms;
      }
      SolutionsDistinct(m, ordered, map[]);
      OrderIrrelevant(m, ordered, atoms, map[]);
    }
  }

  /** The answer row of a solution, column by column: the term of the node a variable
      is bound to, nothing for an unbound variable or a node without a term, and a
      constant as it is. */
  ghost predicate AnswerRow(m: Materialization, answerTerms: seq<Term>, s: Binding, row: Row) {
    && |row| == |answerTerms|
    && (forall j, v {:trigger answerTerms[j], v in s} :: 0 <= j < |row| && answerTerms[j] == Variable(v) ==>
          row[j] == if v in s && s[v] in m.nodeToTerm then Some(m.nodeToTerm[s[v]]) else None)
    && (forall j, i {:trigger answerTerms[j], Some(i)} :: 0 <= j < |row| && answerTerms[j] == Constant(i) ==> row[j] == Some(i))
  }

  lemma ProjectMeans(m: Materialization, answerTerms: seq<Term>, s: Binding)
    ensures AnswerRow(m, answerTerms, s, Project(m, answerTerms, s))
  {
  }

  /** `evaluate`: one answer row for each assignment of nodes to the body variables
      that satisfies every atom; `None` for `m` is an unsatisfiable ontology. */
  method Evaluate(m: Option<Materialization>, atoms: seq<Atom>, answerTerms: seq<Term>)
    returns (outcome: Outcome, answers: seq<Row>, ghost sols: seq<Binding>)
    ensures outcome == Success <==> m.Some? && forall i :: 0 <= i < |atoms| ==> GoodAtom(m.value, atoms[i])
    ensures outcome == Failure(Unsatisfiable) <==> m.None?
    ensures outcome == Success ==> Enumerates(m.value, atoms, sols)
    ensures outcome == Success ==> answers == Projected(m.value, answerTerms, sols)
    ensures outcome == Success ==> |answers| == |sols| && forall k :: 0 <= k < |sols| ==> AnswerRow(m.value, answerTerms, sols[k], answers[k])
    ensures outcome.Failure? ==> answers == []
  {
    hide Enumerates, AnswerRow, Solutions, Greedy, Permutes, GoodAtom;
    answers, sols := [], [];
    if m.None? {
      return Failure(Unsatisfiable), [], [];
    }
    outcome := Validate(m.value, atoms);
    if outcome == Success {
      var ordered, order := SwapBodyAtoms(atoms);
      var query := new ConjunctiveQuery(m.value, answerTerms);
      query.Join(ordered);
      answers, sols := query.collector, Solutions(m.value, ordered, map[]);
      EnumeratesReordered(m.value, atoms, ordered);
      forall k | 0 <= k < |sols| ensures AnswerRow(m.value, answerTerms, sols[k], answers[k]) {
        ProjectMeans(m.value, answerTerms, sols[k]);
      }
    }
  }
}
