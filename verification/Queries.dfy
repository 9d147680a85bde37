/** Conjunctive queries over a materialised model: terms, atoms, and what it
    means for an assignment of nodes to variables to satisfy a query. */
module Queries {
  import opened Elements
  import opened Sequences

  datatype Term = Variable(name: string) | Constant(iri: string)

  /** Only named classes belong to the query vocabulary. */
  datatype ClassExpression = Named(name: string) | Complex

  datatype Role = AtomicRole(name: string) | InverseRole(name: string)

  datatype Atom =
    | ConceptAtom(class_: ClassExpression, term: Term)
    | RoleAtom(role: Role, from: Term, to: Term)
    | Equality(from: Term, to: Term)
    | Inequality(from: Term, to: Term)

  /** The saturated model: extension tables over canonical nodes, the node of each
      loaded individual, and the individual that represents a node. */
  datatype Materialization = Materialization(
    concepts: map<string, seq<nat>>,
    roles: map<string, seq<(nat, nat)>>,
    equalities: seq<(nat, nat)>,
    inequalities: seq<(nat, nat)>,
    termToNode: map<string, nat>,
    nodeToTerm: map<nat, string>)

  /** An assignment of nodes to variables. */
  type Binding = map<string, nat>

  function Terms(atom: Atom): seq<Term> {
    match atom
    case ConceptAtom(_, t) => [t]
    case RoleAtom(_, s, t) => [s, t]
    case Equality(s, t) => [s, t]
    case Inequality(s, t) => [s, t]
  }

  function TermVars(terms: seq<Term>): set<string> {
    set i | 0 <= i < |terms| && terms[i].Variable? :: terms[i].name
  }

  function Vars(atoms: seq<Atom>): set<string> {
    if |atoms| == 0 then {} else TermVars(Terms(atoms[0])) + Vars(atoms[1..])
  }

  function Swapped(pairs: seq<(nat, nat)>): seq<(nat, nat)> {
    seq(|pairs|, i requires 0 <= i < |pairs| => (pairs[i].1, pairs[i].0))
  }

  function ConceptExtension(m: Materialization, class_: ClassExpression): seq<nat> {
    if class_.Named? && class_.name in m.concepts then m.concepts[class_.name] else []
  }

  /** An inverse role reads the atomic role's tuples with the ends exchanged. */
  function RoleExtension(m: Materialization, role: Role): seq<(nat, nat)> {
    var pairs := if role.name in m.roles then m.roles[role.name] else [];
    if role.InverseRole? then Swapped(pairs) else pairs
  }

  function PairExtension(m: Materialization, atom: Atom): seq<(nat, nat)>
    requires !atom.ConceptAtom?
  {
    match atom
    case RoleAtom(role, _, _) => RoleExtension(m, role)
    case Equality(_, _) => m.equalities
    case Inequality(_, _) => m.inequalities
  }

  /** The stored rows of the predicate of `atom`. */
  function Rows(m: Materialization, atom: Atom): (rows: seq<seq<nat>>)
    ensures forall i :: 0 <= i < |rows| ==> |rows[i]| == |Terms(atom)|
  {
    if atom.ConceptAtom? then
      var ext := ConceptExtension(m, atom.class_);
      seq(|ext|, i requires 0 <= i < |ext| => [ext[i]])
    else
      var ext := PairExtension(m, atom);
      seq(|ext|, i requires 0 <= i < |ext| => [ext[i].0, ext[i].1])
  }

  /** The node a term denotes, if it denotes one. */
  function Resolve(m: Materialization, s: Binding, t: Term): Option<nat> {
    match t
    case Variable(v) => if v in s then Some(s[v]) else None
    case Constant(i) => if i in m.termToNode then Some(m.termToNode[i]) else None
  }

  /** The terms denote exactly the nodes of `row`. */
  predicate Denotes(m: Materialization, s: Binding, terms: seq<Term>, row: seq<nat>) {
    |terms| == |row| && forall i :: 0 <= i < |terms| ==> Resolve(m, s, terms[i]) == Some(row[i])
  }

  ghost predicate SatisfiesAtom(m: Materialization, s: Binding, atom: Atom) {
    exists i :: 0 <= i < |Rows(m, atom)| && Denotes(m, s, Terms(atom), Rows(m, atom)[i])
  }

  /** Query semantics: every atom holds under `s`. */
  ghost predicate Satisfies(m: Materialization, s: Binding, atoms: seq<Atom>) {
    forall i :: 0 <= i < |atoms| ==> SatisfiesAtom(m, s, atoms[i])
  }

  /** `s` agrees with `b` wherever `b` is defined. */
  ghost predicate Extends(s: Binding, b: Binding) {
    forall v :: v in b ==> v in s && s[v] == b[v]
  }

  /** What a query asks for: assignments of exactly the body variables. */
  ghost predicate IsSolution(m: Materialization, atoms: seq<Atom>, b: Binding, s: Binding) {
    Extends(s, b) && s.Keys == b.Keys + Vars(atoms) && Satisfies(m, s, atoms)
  }

  // --- depth-first enumeration -----------------------------------------------------

  function BindTerm(m: Materialization, b: Binding, t: Term, n: nat): Option<Binding> {
    if Resolve(m, b, t) == Some(n) then Some(b)
    else if t.Variable? && t.name !in b then Some(b[t.name := n])
    else None
  }

  /** Matches a row against the terms, binding unbound variables left to right. */
  function Bind(m: Materialization, b: Binding, terms: seq<Term>, row: seq<nat>): Option<Binding>
    requires |terms| == |row|
    decreases |terms|
  {
    if |terms| == 0 then Some(b)
    else match BindTerm(m, b, terms[0], row[0])
      case None => None
      case Some(b') => Bind(m, b', terms[1..], row[1..])
  }

  predicate Bound(b: Binding, t: Term) {
    t.Variable? ==> t.name in b
  }

  predicate FullyBound(b: Binding, terms: seq<Term>) {
    forall i :: 0 <= i < |terms| ==> Bound(b, terms[i])
  }

  /** The rows the retrieval for `atom` visits: with every term bound a single
      membership check, and otherwise a scan of the extension. */
  function Candidates(m: Materialization, b: Binding, atom: Atom): (rows: seq<seq<nat>>)
    ensures forall i :: 0 <= i < |rows| ==> |rows[i]| == |Terms(atom)| && rows[i] in Rows(m, atom)
  {
    if FullyBound(b, Terms(atom)) then FirstDenoted(m, b, Terms(atom), Rows(m, atom)) else Rows(m, atom)
  }

  function FirstDenoted(m: Materialization, b: Binding, terms: seq<Term>, rows: seq<seq<nat>>): (r: seq<seq<nat>>)
    ensures |r| <= 1 && forall i :: 0 <= i < |r| ==> r[i] in rows && Denotes(m, b, terms, r[i])
    ensures forall row :: row in rows && Denotes(m, b, terms, row) ==> row in r
  {
    if |rows| == 0 then []
    else if Denotes(m, b, terms, rows[0]) then
      assert forall row :: row in rows && Denotes(m, b, terms, row) ==> row == rows[0] by {
        forall row | row in rows && Denotes(m, b, terms, row) ensures row == rows[0] {
          DenotesOne(m, b, terms, row, rows[0]);
        }
      }
      [rows[0]]
    else FirstDenoted(m, b, terms, rows[1..])
  }

  lemma DenotesOne(m: Materialization, s: Binding, terms: seq<Term>, r1: seq<nat>, r2: seq<nat>)
    requires Denotes(m, s, terms, r1) && Denotes(m, s, terms, r2)
    ensures r1 == r2
  {
    forall i | 0 <= i < |r1| ensures r1[i] == r2[i] {
      assert Resolve(m, s, terms[i]) == Some(r1[i]);
    }
  }

  /** The solutions in the order the nested loops find them. */
  function Solutions(m: Materialization, atoms: seq<Atom>, b: Binding): seq<Binding>
    decreases |atoms|, 1, 0
  {
    if |atoms| == 0 then [b] else SolutionsOver(m, atoms, b, Candidates(m, b, atoms[0]))
  }

  function SolutionsOver(m: Materialization, atoms: seq<Atom>, b: Binding, rows: seq<seq<nat>>): seq<Binding>
    requires |atoms| > 0 && forall i :: 0 <= i < |rows| ==> |rows[i]| == |Terms(atoms[0])|
    decreases |atoms|, 0, |rows|
  {
    if |rows| == 0 then []
    else SolutionsWith(m, atoms, b, rows[0]) + SolutionsOver(m, atoms, b, rows[1..])
  }

  function SolutionsWith(m: Materialization, atoms: seq<Atom>, b: Binding, row: seq<nat>): seq<Binding>
    requires |atoms| > 0 && |row| == |Terms(atoms[0])|
    decreases |atoms|, 0, 0
  {
    match Bind(m, b, Terms(atoms[0]), row)
    case None => []
    case Some(b') => Solutions(m, atoms[1..], b')
  }

  // --- the enumeration is exact ------------------------------------------------------

  lemma ResolveExtends(m: Materialization, s: Binding, b: Binding, t: Term)
    requires Extends(s, b) && Resolve(m, b, t).Some?
    ensures Resolve(m, s, t) == Resolve(m, b, t)
  {
  }

  lemma BindTermMeans(m: Materialization, b: Binding, t: Term, n: nat)
    ensures match BindTerm(m, b, t, n)
      case None => forall s :: Extends(s, b) ==> Resolve(m, s, t) != Some(n)
      case Some(b') => (
        && Extends(b', b) && b'.Keys == b.Keys + TermVars([t]) && Resolve(m, b', t) == Some(n)
        && forall s :: Extends(s, b) && Resolve(m, s, t) == Some(n) ==> Extends(s, b'))
  {
    assert t.Variable? ==> [t][0].name in TermVars([t]);
  }

  lemma TermVarsCons(terms: seq<Term>)
    requires |terms| > 0
    ensures TermVars(terms) == TermVars([terms[0]]) + TermVars(terms[1..])
  {
    forall v ensures v in TermVars(terms) <==> v in TermVars([terms[0]]) + TermVars(terms[1..]) {
      if v in TermVars(terms) {
        var i :| 0 <= i < |terms| && terms[i].Variable? && terms[i].name == v;
        if i == 0 {
          assert [terms[0]][0].name in TermVars([terms[0]]);
        } else {
          assert terms[1..][i - 1].name in TermVars(terms[1..]);
        }
      }
      if v in TermVars(terms[1..]) {
        var i :| 0 <= i < |terms[1..]| && terms[1..][i].Variable? && terms[1..][i].name == v;
        assert terms[i + 1].name == v;
      }
    }
  }

  lemma DenotesCons(m: Materialization, s: Binding, terms: seq<Term>, row: seq<nat>)
    requires |terms| == |row| > 0
    ensures Denotes(m, s, terms, row) <==> Resolve(m, s, terms[0]) == Some(row[0]) && Denotes(m, s, terms[1..], row[1..])
  {
    if Resolve(m, s, terms[0]) == Some(row[0]) && Denotes(m, s, terms[1..], row[1..]) {
      forall i | 0 <= i < |terms| ensures Resolve(m, s, terms[i]) == Some(row[i]) {
        if i > 0 {
          assert Resolve(m, s, terms[1..][i - 1]) == Some(row[1..][i - 1]);
        }
      }
    }
  }

  lemma ExtendsTrans(a: Binding, b: Binding, c: Binding)
    requires Extends(a, b) && Extends(b, c)
    ensures Extends(a, c)
  {
  }

  /** `Bind` finds the least extension of `b` under which the terms denote `row`. */
  lemma {:induction false} BindLeast(m: Materialization, b: Binding, terms: seq<Term>, row: seq<nat>)
    requires |terms| == |row|
    ensures match Bind(m, b, terms, row)
      case None => forall s :: Extends(s, b) ==> !Denotes(m, s, terms, row)
      case Some(b') => (
        && Extends(b', b) && b'.Keys == b.Keys + TermVars(terms) && Denotes(m, b', terms, row)
        && forall s :: Extends(s, b) && Denotes(m, s, terms, row) ==> Extends(s, b'))
    decreases |terms|
  {
    if |terms| > 0 {
      BindTermMeans(m, b, terms[0], row[0]);
      TermVarsCons(terms);
      forall s ensures Denotes(m, s, terms, row) <==> Resolve(m, s, terms[0]) == Some(row[0]) && Denotes(m, s, terms[1..], row[1..]) {
        DenotesCons(m, s, terms, row);
      }
      match BindTerm(m, b, terms[0], row[0]) {
        case None =>
        case Some(b1) =>
          BindLeast(m, b1, terms[1..], row[1..]);
          match Bind(m, b1, terms[1..], row[1..]) {
            case None =>
            case Some(b2) =>
              ExtendsTrans(b2, b1, b);
              ResolveExtends(m, b2, b1, terms[0]);
          }
      }
    } else {
      assert TermVars(terms) == {};
    }
  }

  lemma SatisfiesCons(m: Materialization, s: Binding, atoms: seq<Atom>)
    requires |atoms| > 0
    ensures Satisfies(m, s, atoms) <==> SatisfiesAtom(m, s, atoms[0]) && Satisfies(m, s, atoms[1..])
  {
    if SatisfiesAtom(m, s, atoms[0]) && Satisfies(m, s, atoms[1..]) {
      forall i | 0 <= i < |atoms| ensures SatisfiesAtom(m, s, atoms[i]) {
        if i > 0 {
          assert SatisfiesAtom(m, s, atoms[1..][i - 1]);
        }
      }
    }
  }

  lemma {:induction false} OverMember(m: Materialization, atoms: seq<Atom>, b: Binding, rows: seq<seq<nat>>, s: Binding)
    requires |atoms| > 0 && forall i :: 0 <= i < |rows| ==> |rows[i]| == |Terms(atoms[0])|
    ensures s in SolutionsOver(m, atoms, b, rows) <==>
      exists i :: 0 <= i < |rows| && s in SolutionsWith(m, atoms, b, rows[i])
    decreases |rows|
  {
    if |rows| > 0 {
      OverMember(m, atoms, b, rows[1..], s);
      if s in SolutionsOver(m, atoms, b, rows[1..]) {
        var i :| 0 <= i < |rows[1..]| && s in SolutionsWith(m, atoms, b, rows[1..][i]);
        assert s in SolutionsWith(m, atoms, b, rows[i + 1]);
      } else {
        forall i | 0 < i < |rows| ensures s !in SolutionsWith(m, atoms, b, rows[i]) {
          assert rows[i] == rows[1..][i - 1];
        }
      }
    }
  }

  /** The rows visited are enough: any satisfying assignment uses one of them. */
  lemma CandidatesEnough(m: Materialization, b: Binding, atom: Atom, s: Binding)
    requires Extends(s, b)
    ensures SatisfiesAtom(m, s, atom) <==>
      exists i :: 0 <= i < |Candidates(m, b, atom)| && Denotes(m, s, Terms(atom), Candidates(m, b, atom)[i])
  {
    var rows, cands := Rows(m, atom), Candidates(m, b, atom);
    if SatisfiesAtom(m, s, atom) {
      var i :| 0 <= i < |rows| && Denotes(m, s, Terms(atom), rows[i]);
      if FullyBound(b, Terms(atom)) {
        forall k | 0 <= k < |Terms(atom)| ensures Resolve(m, b, Terms(atom)[k]) == Some(rows[i][k]) {
          assert Bound(b, Terms(atom)[k]) && Resolve(m, s, Terms(atom)[k]) == Some(rows[i][k]);
        }
        assert rows[i] in cands;
      }
    }
    forall i | 0 <= i < |cands| && Denotes(m, s, Terms(atom), cands[i]) ensures SatisfiesAtom(m, s, atom) {
      assert cands[i] in rows;
    }
  }

  /** One row contributes exactly the solutions that make the terms denote it. */
  lemma WithExact(m: Materialization, atoms: seq<Atom>, b: Binding, row: seq<nat>, s: Binding)
    requires |atoms| > 0 && |row| == |Terms(atoms[0])|
    requires forall b' :: s in Solutions(m, atoms[1..], b') <==> IsSolution(m, atoms[1..], b', s)
    ensures s in SolutionsWith(m, atoms, b, row) <==>
      Extends(s, b) && s.Keys == b.Keys + Vars(atoms) && Satisfies(m, s, atoms[1..]) && Denotes(m, s, Terms(atoms[0]), row)
  {
    BindLeast(m, b, Terms(atoms[0]), row);
    match Bind(m, b, Terms(atoms[0]), row) {
      case None =>
      case Some(b') =>
        assert b'.Keys + Vars(atoms[1..]) == b.Keys + Vars(atoms);
        if Extends(s, b') {
          ExtendsTrans(s, b', b);
          DenotesExtends(m, s, b', Terms(atoms[0]), row);
        }
    }
  }

  lemma DenotesExtends(m: Materialization, s: Binding, b: Binding, terms: seq<Term>, row: seq<nat>)
    requires Extends(s, b) && Denotes(m, b, terms, row)
    ensures Denotes(m, s, terms, row)
  {
    forall i | 0 <= i < |terms| ensures Resolve(m, s, terms[i]) == Some(row[i]) {
      ResolveExtends(m, s, b, terms[i]);
    }
  }

  /** The nested loops enumerate exactly the satisfying assignments. */
  lemma {:induction false} SolutionsExact(m: Materialization, atoms: seq<Atom>, b: Binding, s: Binding)
    ensures s in Solutions(m, atoms, b) <==> IsSolution(m, atoms, b, s)
    decreases |atoms|
  {
    if |atoms| == 0 {
      NothingLeft(m, b, s);
    } else {
      var rows := Candidates(m, b, atoms[0]);
      forall b' ensures s in Solutions(m, atoms[1..], b') <==> IsSolution(m, atoms[1..], b', s) {
        SolutionsExact(m, atoms[1..], b', s);
      }
      OverMember(m, atoms, b, rows, s);
      forall i | 0 <= i < |rows| ensures s in SolutionsWith(m, atoms, b, rows[i]) <==>
        Extends(s, b) && s.Keys == b.Keys + Vars(atoms) && Satisfies(m, s, atoms[1..]) && Denotes(m, s, Terms(atoms[0]), rows[i])
      {
        WithExact(m, atoms, b, rows[i], s);
      }
      SatisfiesCons(m, s, atoms);
      if Extends(s, b) {
        CandidatesEnough(m, b, atoms[0], s);
      }
    }
  }

  lemma NothingLeft(m: Materialization, b: Binding, s: Binding)
    ensures s == b <==> IsSolution(m, [], b, s)
  {
    if IsSolution(m, [], b, s) {
      assert s.Keys == b.Keys;
    }
  }

  // --- each solution once ----------------------------------------------------------------

  /** No extension table lists a row twice. */
  ghost predicate DistinctRows(m: Materialization, atoms: seq<Atom>) {
    forall i :: 0 <= i < |atoms| ==> Distinct(Rows(m, atoms[i]))
  }

  lemma DistinctConcat<T>(a: seq<T>, b: seq<T>)
    requires Distinct(a) && Distinct(b) && forall x :: x in a ==> x !in b
    ensures Distinct(a + b)
  {
    forall i, j | 0 <= i < j < |a + b| ensures (a + b)[i] != (a + b)[j] {
      if i < |a| <= j {
        assert a[i] in a && b[j - |a|] in b;
      }
    }
  }

  lemma WithDenotes(m: Materialization, atoms: seq<Atom>, b: Binding, row: seq<nat>, s: Binding)
    requires |atoms| > 0 && |row| == |Terms(atoms[0])| && s in SolutionsWith(m, atoms, b, row)
    ensures Denotes(m, s, Terms(atoms[0]), row)
  {
    forall b' ensures s in Solutions(m, atoms[1..], b') <==> IsSolution(m, atoms[1..], b', s) {
      SolutionsExact(m, atoms[1..], b', s);
    }
    WithExact(m, atoms, b, row, s);
  }

  lemma {:induction false} OverDistinct(m: Materialization, atoms: seq<Atom>, b: Binding, rows: seq<seq<nat>>)
    requires |atoms| > 0 && Distinct(rows) && forall i :: 0 <= i < |rows| ==> |rows[i]| == |Terms(atoms[0])|
    requires forall i :: 0 <= i < |rows| ==> Distinct(SolutionsWith(m, atoms, b, rows[i]))
    ensures Distinct(SolutionsOver(m, atoms, b, rows))
    decreases |rows|
  {
    if |rows| > 0 {
      OverDistinct(m, atoms, b, rows[1..]);
      forall s | s in SolutionsWith(m, atoms, b, rows[0]) ensures s !in SolutionsOver(m, atoms, b, rows[1..]) {
        WithDenotes(m, atoms, b, rows[0], s);
        OverMember(m, atoms, b, rows[1..], s);
        forall i | 0 <= i < |rows[1..]| ensures s !in SolutionsWith(m, atoms, b, rows[1..][i]) {
          OtherRow(m, atoms, b, rows[0], rows[1..][i], s);
        }
      }
      DistinctConcat(SolutionsWith(m, atoms, b, rows[0]), SolutionsOver(m, atoms, b, rows[1..]));
    }
  }

  lemma OtherRow(m: Materialization, atoms: seq<Atom>, b: Binding, r1: seq<nat>, r2: seq<nat>, s: Binding)
    requires |atoms| > 0 && |r1| == |r2| == |Terms(atoms[0])| && r1 != r2 && Denotes(m, s, Terms(atoms[0]), r1)
    ensures s !in SolutionsWith(m, atoms, b, r2)
  {
    if s in SolutionsWith(m, atoms, b, r2) {
      WithDenotes(m, atoms, b, r2, s);
      DenotesOne(m, s, Terms(atoms[0]), r1, r2);
    }
  }

  /** Over duplicate-free tables every solution is found exactly once. */
  lemma {:induction false} SolutionsDistinct(m: Materialization, atoms: seq<Atom>, b: Binding)
    requires DistinctRows(m, atoms)
    ensures Distinct(Solutions(m, atoms, b))
    decreases |atoms|
  {
    if |atoms| > 0 {
      var rows := Candidates(m, b, atoms[0]);
      assert Distinct(Rows(m, atoms[0]));
      assert DistinctRows(m, atoms[1..]) by {
        forall i | 0 <= i < |atoms[1..]| ensures Distinct(Rows(m, atoms[1..][i])) {
          assert atoms[1..][i] == atoms[i + 1];
        }
      }
      forall i | 0 <= i < |rows| ensures Distinct(SolutionsWith(m, atoms, b, rows[i])) {
        match Bind(m, b, Terms(atoms[0]), rows[i]) {
          case None =>
          case Some(b') => SolutionsDistinct(m, atoms[1..], b');
        }
      }
      OverDistinct(m, atoms, b, rows);
    }
  }

  // --- the order of the atoms is irrelevant ------------------------------------------------

  ghost predicate SameAtoms(atoms1: seq<Atom>, atoms2: seq<Atom>) {
    forall a :: a in atoms1 <==> a in atoms2
  }

  lemma {:induction false} VarsMember(atoms: seq<Atom>, v: string)
    ensures v in Vars(atoms) <==> exists a :: a in atoms && v in TermVars(Terms(a))
    decreases |atoms|
  {
    if |atoms| > 0 {
      VarsMember(atoms[1..], v);
      assert atoms == [atoms[0]] + atoms[1..];
    }
  }

  lemma SameAtomsMean(m: Materialization, atoms1: seq<Atom>, atoms2: seq<Atom>, b: Binding, s: Binding)
    requires SameAtoms(atoms1, atoms2)
    ensures IsSolution(m, atoms1, b, s) <==> IsSolution(m, atoms2, b, s)
  {
    forall v ensures v in Vars(atoms1) <==> v in Vars(atoms2) {
      VarsMember(atoms1, v);
      VarsMember(atoms2, v);
    }
    assert Vars(atoms1) == Vars(atoms2);
    SatisfiesAll(m, s, atoms1);
    SatisfiesAll(m, s, atoms2);
  }

  lemma SatisfiesAll(m: Materialization, s: Binding, atoms: seq<Atom>)
    ensures Satisfies(m, s, atoms) <==> forall a :: a in atoms ==> SatisfiesAtom(m, s, a)
  {
    if forall a :: a in atoms ==> SatisfiesAtom(m, s, a) {
      forall i | 0 <= i < |atoms| ensures SatisfiesAtom(m, s, atoms[i]) {
        assert atoms[i] in atoms;
      }
    }
  }

  lemma DistinctMultiset<T>(s: seq<T>, x: T)
    requires Distinct(s)
    ensures multiset(s)[x] == if x in s then 1 else 0
  {
    if |s| > 0 {
      var init, last := s[..|s| - 1], s[|s| - 1];
      assert s == init + [last];
      DistinctMultiset(init, x);
    }
  }

  /** Any two orders of the body atoms find the same solutions, each once. */
  lemma OrderIrrelevant(m: Materialization, atoms1: seq<Atom>, atoms2: seq<Atom>, b: Binding)
    requires SameAtoms(atoms1, atoms2) && DistinctRows(m, atoms1) && DistinctRows(m, atoms2)
    ensures multiset(Solutions(m, atoms1, b)) == multiset(Solutions(m, atoms2, b))
  {
    SolutionsDistinct(m, atoms1, b);
    SolutionsDistinct(m, atoms2, b);
    forall s ensures multiset(Solutions(m, atoms1, b))[s] == multiset(Solutions(m, atoms2, b))[s] {
      SolutionsExact(m, atoms1, b, s);
      SolutionsExact(m, atoms2, b, s);
      SameAtomsMean(m, atoms1, atoms2, b, s);
      DistinctMultiset(Solutions(m, atoms1, b), s);
      DistinctMultiset(Solutions(m, atoms2, b), s);
    }
  }

  // --- what the tables say ---------------------------------------------------------------------

  /** The term stands for node `n` under `s`. */
  ghost predicate Stands(m: Materialization, s: Binding, t: Term, n: nat) {
    match t
    case Variable(v) => v in s && s[v] == n
    case Constant(i) => i in m.termToNode && m.termToNode[i] == n
  }

  /** The ends stand for a pair, read in the given direction, of `table`. */
  ghost predicate PairStored(m: Materialization, s: Binding, from: Term, to: Term, table: seq<(nat, nat)>, inverse: bool) {
    exists x: nat, y: nat :: Stands(m, s, from, x) && Stands(m, s, to, y) && (if inverse then (y, x) else (x, y)) in table
  }

  /** An atom holds when the nodes its terms stand for are stored in the table of its
      predicate; an inverse role reads the pairs of its atomic role backwards. */
  ghost predicate AtomHolds(m: Materialization, s: Binding, atom: Atom) {
    match atom
    case ConceptAtom(Complex, _) => false
    case ConceptAtom(Named(name), t) => name in m.concepts && exists n: nat :: Stands(m, s, t, n) && n in m.concepts[name]
    case RoleAtom(AtomicRole(name), a, b) => name in m.roles && PairStored(m, s, a, b, m.roles[name], false)
    case RoleAtom(InverseRole(name), a, b) => name in m.roles && PairStored(m, s, a, b, m.roles[name], true)
    case Equality(a, b) => PairStored(m, s, a, b, m.equalities, false)
    case Inequality(a, b) => PairStored(m, s, a, b, m.inequalities, false)
  }

  /** The variable occurs in the atom. */
  ghost predicate Mentions(atom: Atom, v: string) {
    match atom
    case ConceptAtom(_, t) => t == Variable(v)
    case RoleAtom(_, a, b) => a == Variable(v) || b == Variable(v)
    case Equality(a, b) => a == Variable(v) || b == Variable(v)
    case Inequality(a, b) => a == Variable(v) || b == Variable(v)
  }

  lemma StandsIff(m: Materialization, s: Binding, t: Term, n: nat)
    ensures Stands(m, s, t, n) <==> Resolve(m, s, t) == Some(n)
  {
  }

  lemma ConceptHolds(m: Materialization, s: Binding, atom: Atom)
    requires atom.ConceptAtom?
    ensures SatisfiesAtom(m, s, atom) <==> AtomHolds(m, s, atom)
  {
    var rows := Rows(m, atom);
    if SatisfiesAtom(m, s, atom) {
      var i :| 0 <= i < |rows| && Denotes(m, s, Terms(atom), rows[i]);
      StandsIff(m, s, atom.term, rows[i][0]);
      assert Terms(atom)[0] == atom.term;
    }
    if AtomHolds(m, s, atom) {
      var table := m.concepts[atom.class_.name];
      var n: nat :| Stands(m, s, atom.term, n) && n in table;
      var i :| 0 <= i < |table| && table[i] == n;
      StandsIff(m, s, atom.term, n);
      assert rows[i] == [n] && Denotes(m, s, Terms(atom), rows[i]);
    }
  }

  lemma PairHolds(m: Materialization, s: Binding, atom: Atom, table: seq<(nat, nat)>, inverse: bool)
    requires !atom.ConceptAtom? && |Rows(m, atom)| == |table|
    requires forall i :: 0 <= i < |table| ==> Rows(m, atom)[i] == if inverse then [table[i].1, table[i].0] else [table[i].0, table[i].1]
    ensures SatisfiesAtom(m, s, atom) <==> PairStored(m, s, atom.from, atom.to, table, inverse)
  {
    hide Rows, Denotes;
    var rows := Rows(m, atom);
    if SatisfiesAtom(m, s, atom) {
      var i :| 0 <= i < |rows| && Denotes(m, s, Terms(atom), rows[i]);
      var (x, y) := if inverse then (table[i].1, table[i].0) else (table[i].0, table[i].1);
      PairDenotes(m, s, atom, x, y);
      assert (if inverse then (y, x) else (x, y)) == table[i];
    }
    if PairStored(m, s, atom.from, atom.to, table, inverse) {
      var x: nat, y: nat :| Stands(m, s, atom.from, x) && Stands(m, s, atom.to, y) && (if inverse then (y, x) else (x, y)) in table;
      var i :| 0 <= i < |table| && table[i] == if inverse then (y, x) else (x, y);
      PairDenotes(m, s, atom, x, y);
      assert rows[i] == [x, y];
    }
  }

  lemma PairDenotes(m: Materialization, s: Binding, atom: Atom, x: nat, y: nat)
    requires !atom.ConceptAtom?
    ensures Denotes(m, s, Terms(atom), [x, y]) <==> Stands(m, s, atom.from, x) && Stands(m, s, atom.to, y)
  {
    var ts := Terms(atom);
    assert ts == [atom.from, atom.to];
    StandsIff(m, s, ts[0], x);
    StandsIff(m, s, ts[1], y);
    assert [x, y][0] == x && [x, y][1] == y;
  }

  /** The rows the join reads are what the tables say. */
  lemma AtomMeaning(m: Materialization, s: Binding, atom: Atom)
    ensures SatisfiesAtom(m, s, atom) <==> AtomHolds(m, s, atom)
  {
    match atom {
      case ConceptAtom(_, _) => ConceptHolds(m, s, atom);
      case RoleAtom(AtomicRole(name), _, _) =>
        PairHolds(m, s, atom, if name in m.roles then m.roles[name] else [], false);
      case RoleAtom(InverseRole(name), _, _) =>
        PairHolds(m, s, atom, if name in m.roles then m.roles[name] else [], true);
      case Equality(_, _) => PairHolds(m, s, atom, m.equalities, false);
      case Inequality(_, _) => PairHolds(m, s, atom, m.inequalities, false);
    }
  }

  lemma MentionsIff(atom: Atom, v: string)
    ensures Mentions(atom, v) <==> v in TermVars(Terms(atom))
  {
    var ts := Terms(atom);
    if Mentions(atom, v) {
      assert ts[0] == Variable(v) || ts[|ts| - 1] == Variable(v);
    }
    if v in TermVars(ts) {
      var i :| 0 <= i < |ts| && ts[i].Variable? && ts[i].name == v;
    }
  }

  /** No stored table lists a node or a pair twice. */
  ghost predicate DistinctTables(m: Materialization) {
    && (forall name :: name in m.concepts ==> Distinct(m.concepts[name]))
    && (forall name :: name in m.roles ==> Distinct(m.roles[name]))
    && Distinct(m.equalities) && Distinct(m.inequalities)
  }

  lemma TablesGiveRows(m: Materialization, atom: Atom)
    requires DistinctTables(m)
    ensures Distinct(Rows(m, atom))
  {
    var rows := Rows(m, atom);
    forall i, j | 0 <= i < j < |rows| ensures rows[i] != rows[j] {
      if atom.ConceptAtom? {
        assert rows[i][0] != rows[j][0];
      } else {
        var ext := PairExtension(m, atom);
        assert Distinct(ext);
        assert ext[i] != ext[j];
        assert rows[i][0] != rows[j][0] || rows[i][1] != rows[j][1];
      }
    }
  }
}
