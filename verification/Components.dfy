/** The depth-first search state behind `HierarchyBuilder::visit` and the
    invariants that make its `scc_head` low-link variant of Tarjan's algorithm
    compute strongly connected components in reverse topological order. */
module Components {
  import opened Elements
  import opened Digraph

  /** Per-vertex search data. A vertex without an `index` entry is unvisited,
      one without a `topo` entry is not assigned to a component yet. */
  datatype Search = Search(
    index: map<Element, int>,
    head: map<Element, Element>,
    topo: map<Element, int>,
    stack: seq<Element>,
    next: int,
    count: int)

  /** Visited but not yet assigned to a component. */
  predicate Open(s: Search, x: Element) {
    x in s.index && x !in s.topo
  }

  ghost predicate Shape(g: Graph<Element>, s: Search) {
    && s.topo.Keys <= s.index.Keys <= g.Keys
    && s.head.Keys == s.index.Keys
    && 0 <= s.count
    && (forall x :: x in s.index ==> s.index[x] < s.next)
    && (forall x :: x in s.topo ==> 0 <= s.topo[x] < s.count)
    && (forall i :: 0 <= i < |s.stack| ==> Open(s, s.stack[i]))
    && (forall x :: Open(s, x) ==> x in s.stack)
    && (forall i, j :: 0 <= i < j < |s.stack| ==> s.index[s.stack[i]] < s.index[s.stack[j]])
  }

  /** Components are emitted after everything they reach, and are connected. */
  ghost predicate Assigned(g: Graph<Element>, s: Search) {
    && (forall x, y {:trigger y in Succ(g, x)} :: x in s.topo && y in Succ(g, x) ==> y in s.topo && s.topo[y] <= s.topo[x])
    && (forall x, y {:trigger Reach(g, x, y)} :: x in s.topo && y in s.topo && s.topo[x] == s.topo[y] ==> Reach(g, x, y))
  }

  /** Vertices no longer on the call stack have only visited successors. */
  ghost predicate Explored(g: Graph<Element>, s: Search, gray: set<Element>) {
    forall x, y {:trigger y in Succ(g, x)} :: x in s.index && x !in gray && y in Succ(g, x) ==> y in s.index
  }

  /** The call stack `gray` reaches everything pushed after it ... */
  ghost predicate GrayReach(g: Graph<Element>, s: Search, gray: set<Element>) {
    && (forall x :: x in gray ==> Open(s, x))
    && (forall x, y {:trigger Reach(g, x, y)} :: x in gray && Open(s, y) && s.index[x] <= s.index[y] ==> Reach(g, x, y))
  }

  ghost predicate IsAnchor(g: Graph<Element>, s: Search, gray: set<Element>, y: Element, x: Element) {
    x in gray && x in s.index && y in s.index && s.index[x] <= s.index[y] && Reach(g, y, x)
  }

  ghost predicate Anchored(g: Graph<Element>, s: Search, gray: set<Element>, y: Element) {
    exists x :: IsAnchor(g, s, gray, y, x)
  }

  /** ... and everything open reaches back into the call stack. */
  ghost predicate BackReach(g: Graph<Element>, s: Search, gray: set<Element>) {
    forall y {:trigger Anchored(g, s, gray, y)} :: Open(s, y) ==> Anchored(g, s, gray, y)
  }

  ghost predicate HeadOk(g: Graph<Element>, s: Search, y: Element)
    requires y in s.head && y in s.index
  {
    var h := s.head[y];
    Open(s, h) && (h == y || s.index[h] < s.index[y]) && Reach(g, y, h)
  }

  ghost predicate Heads(g: Graph<Element>, s: Search) {
    s.head.Keys == s.index.Keys && forall y {:trigger HeadOk(g, s, y)} :: Open(s, y) ==> HeadOk(g, s, y)
  }

  ghost predicate Inv(g: Graph<Element>, s: Search, gray: set<Element>) {
    && Shape(g, s)
    && Assigned(g, s)
    && Explored(g, s, gray)
    && GrayReach(g, s, gray)
    && BackReach(g, s, gray)
    && Heads(g, s)
  }

  /** `t` continues `s`: nothing recorded in `s` changes, open vertices stay open. */
  ghost predicate Extends(s: Search, t: Search) {
    && s.index.Keys <= t.index.Keys
    && (forall x :: x in s.index ==> t.index[x] == s.index[x])
    && s.topo.Keys <= t.topo.Keys
    && (forall x :: x in s.topo ==> t.topo[x] == s.topo[x])
    && (forall x :: Open(s, x) ==> Open(t, x))
    && s.next <= t.next
    && s.count <= t.count
    && (forall x :: x in t.index && x !in s.index ==> s.next <= t.index[x])
  }

  ghost predicate SameHeads(s: Search, t: Search, except: set<Element>) {
    forall x :: x in s.head && x !in except ==> x in t.head && t.head[x] == s.head[x]
  }

  /** No edge from an open vertex in `from` leads below the head of `x`. */
  ghost predicate Low(g: Graph<Element>, s: Search, x: Element, from: iset<Element>)
    requires x in s.head && s.head[x] in s.index
  {
    forall y, z {:trigger z in Succ(g, y)} :: y in from && Open(s, y) && z in Succ(g, y) && Open(s, z) ==>
      s.index[s.head[x]] <= s.index[z]
  }

  /** The successors of `x` outside `todo` are visited and not below its head. */
  ghost predicate LowSelf(g: Graph<Element>, s: Search, x: Element, todo: set<Element>)
    requires x in s.head && s.head[x] in s.index
  {
    forall z :: z in Succ(g, x) && z !in todo ==>
      z in s.index && (Open(s, z) ==> s.index[s.head[x]] <= s.index[z])
  }

  ghost function Above(s: Search, x: Element): iset<Element>
    requires x in s.index
  {
    iset y | y in s.index && s.index[x] < s.index[y]
  }

  ghost function NewSince(s: Search, t: Search): iset<Element> {
    iset y | y in t.index && y !in s.index
  }

  function Enter(s: Search, x: Element): Search {
    s.(index := s.index[x := s.next], head := s.head[x := x], stack := s.stack + [x], next := s.next + 1)
  }

  lemma EnterShape(g: Graph<Element>, s: Search, x: Element)
    requires Shape(g, s) && x in g && x !in s.index
    ensures Shape(g, Enter(s, x)) && Extends(s, Enter(s, x))
  {
    var t := Enter(s, x);
    assert forall y :: Open(t, y) <==> Open(s, y) || y == x;
    forall y | Open(t, y) ensures y in t.stack {
      assert t.stack[|s.stack|] == x;
    }
  }

  lemma EnterAnchored(g: Graph<Element>, s: Search, gray: set<Element>, x: Element, y: Element)
    requires BackReach(g, s, gray) && x !in s.index && Open(Enter(s, x), y)
    ensures Anchored(g, Enter(s, x), gray + {x}, y)
  {
    var t := Enter(s, x);
    if y == x {
      ReachRefl(g, x);
      assert IsAnchor(g, t, gray + {x}, x, x);
    } else {
      assert Anchored(g, s, gray, y);
      var z :| IsAnchor(g, s, gray, y, z);
      assert IsAnchor(g, t, gray + {x}, y, z);
    }
  }

  lemma EnterHeads(g: Graph<Element>, s: Search, x: Element)
    requires Heads(g, s) && x !in s.index && x !in s.topo
    ensures Heads(g, Enter(s, x))
  {
    var t := Enter(s, x);
    forall y | Open(t, y) ensures HeadOk(g, t, y) {
      if y == x {
        ReachRefl(g, x);
      } else {
        assert HeadOk(g, s, y);
      }
    }
  }

  lemma EnterGrayReach(g: Graph<Element>, s: Search, gray: set<Element>, x: Element)
    requires Shape(g, s) && GrayReach(g, s, gray) && x !in s.index
    requires forall y :: y in gray ==> Reach(g, y, x)
    ensures GrayReach(g, Enter(s, x), gray + {x})
  {
    var t := Enter(s, x);
    forall y, z | y in gray + {x} && Open(t, z) && t.index[y] <= t.index[z] ensures Reach(g, y, z) {
      if z == x && y == x {
        ReachRefl(g, x);
      }
    }
  }

  /** Pushing an unvisited vertex that the whole call stack reaches. */
  lemma EnterInv(g: Graph<Element>, s: Search, gray: set<Element>, x: Element)
    requires Inv(g, s, gray) && x in g && x !in s.index
    requires forall y :: y in gray ==> Reach(g, y, x)
    ensures Inv(g, Enter(s, x), gray + {x})
    ensures Extends(s, Enter(s, x))
  {
    EnterShape(g, s, x);
    EnterGrayReach(g, s, gray, x);
    EnterHeads(g, s, x);
    forall y | Open(Enter(s, x), y) ensures Anchored(g, Enter(s, x), gray + {x}, y) {
      EnterAnchored(g, s, gray, x, y);
    }
  }

  function Lower(s: Search, x: Element, h: Element): Search {
    s.(head := s.head[x := h])
  }

  lemma LowerHeads(g: Graph<Element>, s: Search, x: Element, z: Element)
    requires Heads(g, s) && Open(s, x) && Open(s, z) && z in Succ(g, x)
    requires HeadOk(g, s, x) && HeadOk(g, s, z)
    requires s.index[s.head[z]] < s.index[s.head[x]]
    ensures Heads(g, Lower(s, x, s.head[z]))
  {
    var t := Lower(s, x, s.head[z]);
    forall y | Open(t, y) ensures HeadOk(g, t, y) {
      assert HeadOk(g, s, y);
      if y == x {
        ReachStep(g, x, z, s.head[z]);
      }
    }
  }

  /** Moving the head of `x` down to the head of an open successor. */
  lemma LowerInv(g: Graph<Element>, s: Search, gray: set<Element>, x: Element, z: Element)
    requires Inv(g, s, gray) && Open(s, x) && Open(s, z) && z in Succ(g, x)
    requires HeadOk(g, s, x) && HeadOk(g, s, z)
    requires s.index[s.head[z]] < s.index[s.head[x]]
    ensures Inv(g, Lower(s, x, s.head[z]), gray)
  {
    var t := Lower(s, x, s.head[z]);
    LowerHeads(g, s, x, z);
    LowerShape(g, s, x, s.head[z]);
    LowerBackReach(g, s, gray, x, s.head[z]);
  }

  lemma LowerShape(g: Graph<Element>, s: Search, x: Element, h: Element)
    requires Shape(g, s) && x in s.index
    ensures Shape(g, Lower(s, x, h))
  {
    assert forall y :: Open(Lower(s, x, h), y) <==> Open(s, y);
  }

  lemma LowerBackReach(g: Graph<Element>, s: Search, gray: set<Element>, x: Element, h: Element)
    requires BackReach(g, s, gray)
    ensures BackReach(g, Lower(s, x, h), gray)
  {
    var t := Lower(s, x, h);
    forall y | Open(t, y) ensures Anchored(g, t, gray, y) {
      assert Anchored(g, s, gray, y);
      var a :| IsAnchor(g, s, gray, y, a);
      assert IsAnchor(g, t, gray, y, a);
    }
  }

  lemma LeaveAnchored(g: Graph<Element>, s: Search, gray: set<Element>, x: Element, y: Element)
    requires BackReach(g, s, gray + {x}) && Open(s, x) && Open(s, y)
    requires x in s.head && HeadOk(g, s, x) && s.head[x] != x
    ensures Anchored(g, s, gray, y)
  {
    assert Anchored(g, s, gray + {x}, y);
    var a :| IsAnchor(g, s, gray + {x}, y, a);
    if a == x {
      var h := s.head[x];
      assert Anchored(g, s, gray + {x}, h);
      var b :| IsAnchor(g, s, gray + {x}, h, b);
      ReachTrans(g, y, x, h);
      ReachTrans(g, y, h, b);
      assert IsAnchor(g, s, gray, y, b);
    } else {
      assert IsAnchor(g, s, gray, y, a);
    }
  }

  /** A finished vertex whose head lies strictly below it stays open. */
  lemma LeaveInv(g: Graph<Element>, s: Search, gray: set<Element>, x: Element)
    requires Inv(g, s, gray + {x}) && Open(s, x) && s.head[x] != x
    requires forall z :: z in Succ(g, x) ==> z in s.index
    ensures Inv(g, s, gray)
  {
    assert HeadOk(g, s, x);
    forall y | Open(s, y) ensures Anchored(g, s, gray, y) {
      LeaveAnchored(g, s, gray, x, y);
    }
    LeaveGray(g, s, gray, x);
  }

  lemma LeaveGray(g: Graph<Element>, s: Search, gray: set<Element>, x: Element)
    requires GrayReach(g, s, gray + {x}) && Explored(g, s, gray + {x})
    requires forall z :: z in Succ(g, x) ==> z in s.index
    ensures GrayReach(g, s, gray) && Explored(g, s, gray)
  {
    forall y | y in gray ensures Open(s, y) {
      assert y in gray + {x};
    }
  }

  /** The open vertices pushed at or after `x`: the component that `x` closes. */
  function Segment(s: Search, x: Element): set<Element>
    requires x in s.index
  {
    set y | y in s.index && y !in s.topo && s.index[x] <= s.index[y]
  }

  /** `topo` with every member of `comp` assigned to component `c`. */
  function Assign(topo: map<Element, int>, comp: set<Element>, c: int): map<Element, int> {
    topo + (map y | y in comp :: c)
  }

  /** `t` is `s` after popping the segment of `x` into a new component. */
  ghost predicate ClosedAt(s: Search, t: Search, x: Element)
    requires x in s.index
  {
    && t.index == s.index && t.head == s.head && t.next == s.next
    && t.count == s.count + 1
    && t.topo == Assign(s.topo, Segment(s, x), s.count)
    && t.stack <= s.stack
    && (forall y :: y in t.stack <==> Open(s, y) && s.index[y] < s.index[x])
  }

  ghost predicate ReadyToClose(g: Graph<Element>, s: Search, gray: set<Element>, x: Element) {
    && Inv(g, s, gray + {x}) && x !in gray && Open(s, x) && s.head[x] == x
    && (forall y :: y in gray ==> s.index[y] < s.index[x])
    && LowSelf(g, s, x, {})
    && Low(g, s, x, Above(s, x))
  }

  /** The new component together with the earlier ones is closed under edges. */
  lemma SegmentClosed(g: Graph<Element>, s: Search, gray: set<Element>, x: Element)
    requires ReadyToClose(g, s, gray, x)
    ensures Closed(g, Segment(s, x) + s.topo.Keys)
  {
    var S := Segment(s, x) + s.topo.Keys;
    forall y, z | y in S && z in Succ(g, y) ensures z in S {
      if y in Segment(s, x) && z !in s.topo {
        if s.index[y] == s.index[x] {
          SegmentDistinct(g, s, y, x);
        }
        assert y == x || y in Above(s, x);
        assert z in s.index;
        assert Open(s, z);
      }
    }
  }

  lemma SegmentDistinct(g: Graph<Element>, s: Search, y: Element, x: Element)
    requires Shape(g, s) && Open(s, x) && Open(s, y) && s.index[y] == s.index[x]
    ensures y == x
  {
    var i :| 0 <= i < |s.stack| && s.stack[i] == x;
    var j :| 0 <= j < |s.stack| && s.stack[j] == y;
    if i < j || j < i {
      assert false;
    }
  }

  lemma SegmentConnected(g: Graph<Element>, s: Search, gray: set<Element>, x: Element, y: Element)
    requires ReadyToClose(g, s, gray, x) && y in Segment(s, x)
    ensures Reach(g, x, y) && Reach(g, y, x)
  {
    assert x in gray + {x} && Open(s, y);
    assert Anchored(g, s, gray + {x}, y);
    var a :| IsAnchor(g, s, gray + {x}, y, a);
    if a != x {
      SegmentClosed(g, s, gray, x);
      ReachClosed(g, Segment(s, x) + s.topo.Keys, y, a);
      assert false;
    }
  }

  lemma CloseOpenIff(s: Search, t: Search, x: Element)
    requires x in s.index && ClosedAt(s, t, x)
    ensures forall y :: Open(t, y) <==> Open(s, y) && s.index[y] < s.index[x]
  {
  }

  lemma CloseShape(g: Graph<Element>, s: Search, t: Search, x: Element)
    requires Shape(g, s) && Open(s, x) && ClosedAt(s, t, x)
    ensures Shape(g, t)
    ensures forall y :: Open(t, y) <==> Open(s, y) && s.index[y] < s.index[x]
  {
    CloseOpenIff(s, t, x);
    assert t.topo.Keys == s.topo.Keys + Segment(s, x);
    forall y | y in t.topo ensures 0 <= t.topo[y] < t.count {
      assert y !in Segment(s, x) ==> y in s.topo && t.topo[y] == s.topo[y];
    }
    forall i | 0 <= i < |t.stack| ensures t.stack[i] == s.stack[i] && Open(t, t.stack[i]) {
      assert t.stack[i] in t.stack;
    }
  }

  lemma CloseAssigned(g: Graph<Element>, s: Search, t: Search, gray: set<Element>, x: Element)
    requires ReadyToClose(g, s, gray, x) && ClosedAt(s, t, x)
    ensures Assigned(g, t)
  {
    SegmentClosed(g, s, gray, x);
    var S := Segment(s, x);
    forall y, z | y in t.topo && z in Succ(g, y) ensures z in t.topo && t.topo[z] <= t.topo[y] {
      assert y in S + s.topo.Keys;
    }
    forall y, z | y in t.topo && z in t.topo && t.topo[y] == t.topo[z] ensures Reach(g, y, z) {
      if y in S {
        SegmentConnected(g, s, gray, x, y);
        SegmentConnected(g, s, gray, x, z);
        ReachTrans(g, y, x, z);
      }
    }
  }

  lemma CloseOpen(g: Graph<Element>, s: Search, t: Search, gray: set<Element>, x: Element, y: Element)
    requires ReadyToClose(g, s, gray, x) && ClosedAt(s, t, x)
    requires Open(s, y) && s.index[y] < s.index[x]
    ensures y in t.head && HeadOk(g, t, y) && Anchored(g, t, gray, y)
  {
    assert HeadOk(g, s, y);
    assert Anchored(g, s, gray + {x}, y);
    var a :| IsAnchor(g, s, gray + {x}, y, a);
    assert IsAnchor(g, t, gray, y, a);
  }

  /** Popping the segment of a vertex that is its own head completes a component. */
  lemma CloseInv(g: Graph<Element>, s: Search, t: Search, gray: set<Element>, x: Element)
    requires ReadyToClose(g, s, gray, x) && ClosedAt(s, t, x)
    ensures Inv(g, t, gray)
  {
    CloseShape(g, s, t, x);
    CloseAssigned(g, s, t, gray, x);
    forall y | Open(t, y) ensures y in t.head && HeadOk(g, t, y) && Anchored(g, t, gray, y) {
      CloseOpen(g, s, t, gray, x, y);
    }
    LeaveGray(g, s, gray, x);
  }
}
