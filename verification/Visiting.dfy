/** What one call of `HierarchyBuilder::visit` establishes, and how the loop over
    a vertex's successors keeps it. */
module Visiting {
  import opened Elements
  import opened Digraph
  import opened Components

  /** The effect of visiting `x` (or of finding it visited) on the search `s`. */
  ghost predicate VisitPost(g: Graph<Element>, s: Search, t: Search, x: Element) {
    && Extends(s, t) && SameHeads(s, t, {})
    && x in t.index && x in t.head
    && (x in t.topo ==> forall y :: y in t.index && y !in s.index ==> y in t.topo)
    && (Open(t, x) ==> t.head[x] in t.index && Low(g, t, x, NewSince(s, t)))
  }

  /** The state between two successors of `x`, for a visit that started in `s`. */
  ghost predicate LoopInv(g: Graph<Element>, s: Search, t: Search, gray: set<Element>, x: Element, todo: set<Element>) {
    && Inv(g, t, gray + {x})
    && Extends(s, t) && SameHeads(s, t, {})
    && x !in gray && x !in s.index && Open(t, x) && t.index[x] == s.next
    && (forall y :: y in gray ==> y in t.index && t.index[y] < s.next)
    && HeadOk(g, t, x)
    && LowSelf(g, t, x, todo)
    && Low(g, t, x, Above(t, x))
  }

  lemma ExtendsTrans(s: Search, t: Search, u: Search)
    requires Extends(s, t) && Extends(t, u)
    ensures Extends(s, u)
  {
  }

  lemma LoopStart(g: Graph<Element>, s: Search, gray: set<Element>, x: Element, todo: set<Element>)
    requires Inv(g, s, gray) && x in g && x !in s.index && Succ(g, x) <= todo
    requires forall y :: y in gray ==> Reach(g, y, x)
    ensures LoopInv(g, s, Enter(s, x), gray, x, todo) && s.head.Keys == s.index.Keys
  {
    EnterInv(g, s, gray, x);
    var t := Enter(s, x);
    assert forall y :: y in gray ==> Open(s, y);
    assert HeadOk(g, t, x);
  }

  lemma LoopFacts(g: Graph<Element>, s: Search, t: Search, gray: set<Element>, x: Element, todo: set<Element>)
    requires LoopInv(g, s, t, gray, x, todo)
    ensures Inv(g, t, gray + {x}) && Shape(g, t) && Open(t, x) && x in t.head && t.head[x] in t.index
  {
  }

  /** The whole call stack reaches every successor of its innermost vertex. */
  lemma CallStackReaches(g: Graph<Element>, s: Search, t: Search, gray: set<Element>, x: Element, todo: set<Element>, z: Element)
    requires LoopInv(g, s, t, gray, x, todo) && z in Succ(g, x)
    ensures forall y :: y in gray + {x} ==> Reach(g, y, z)
  {
    forall y | y in gray + {x} ensures Reach(g, y, z) {
      assert Reach(g, y, x);
      ReachSnoc(g, y, x, z);
    }
  }

  lemma SkipOutside(g: Graph<Element>, s: Search, t: Search, gray: set<Element>, x: Element, todo: set<Element>, z: Element)
    requires LoopInv(g, s, t, gray, x, todo) && z !in Succ(g, x)
    ensures LoopInv(g, s, t, gray, x, todo - {z})
  {
  }

  /** A successor that is already visited has the post-state of a visit. */
  lemma VisitedPost(g: Graph<Element>, s: Search, gray: set<Element>, z: Element)
    requires Inv(g, s, gray) && z in s.index
    ensures VisitPost(g, s, s, z)
  {
    if Open(s, z) {
      assert HeadOk(g, s, z);
    }
  }

  /** Edges from above `x` after visiting its successor `z`. */
  lemma AboveAfterVisit(g: Graph<Element>, s: Search, t: Search, u: Search, gray: set<Element>, x: Element,
                        todo: set<Element>, z: Element, y: Element, w: Element)
    requires LoopInv(g, s, t, gray, x, todo)
    requires Inv(g, u, gray + {x}) && VisitPost(g, t, u, z)
    requires Open(u, y) && t.index[x] < u.index[y] && w in Succ(g, y) && Open(u, w)
    ensures u.index[t.head[x]] <= u.index[w] || (Open(u, z) && u.index[u.head[z]] <= u.index[w])
  {
    if y in t.index {
      assert Open(t, y) && y in Above(t, x);
      assert y !in gray + {x};
      assert w in t.index;
      assert Open(t, w);
    } else {
      assert y in NewSince(t, u);
    }
  }

  function LowerTo(t: Search, x: Element, z: Element): Search
    requires x in t.head && t.head[x] in t.index
    requires Open(t, z) ==> z in t.head && t.head[z] in t.index
  {
    if Open(t, z) && t.index[t.head[z]] < t.index[t.head[x]] then Lower(t, x, t.head[z]) else t
  }

  /** The loop invariant without the clause on edges from above `x`. */
  lemma AfterVisit(g: Graph<Element>, s: Search, t: Search, u: Search, gray: set<Element>, x: Element,
                   todo: set<Element>, z: Element)
    requires LoopInv(g, s, t, gray, x, todo)
    requires Inv(g, u, gray + {x}) && VisitPost(g, t, u, z)
    ensures Extends(s, u) && SameHeads(s, u, {}) && Open(u, x) && u.index[x] == s.next
    ensures forall y :: y in gray ==> y in u.index && u.index[y] < s.next
    ensures x in u.head && u.head[x] == t.head[x] && HeadOk(g, u, x)
    ensures z in u.index && z in u.head && s.index.Keys + {x} <= u.index.Keys
    ensures Open(u, z) ==> HeadOk(g, u, z)
    ensures LowSelf(g, u, x, todo)
  {
    ExtendsTrans(s, t, u);
    assert HeadOk(g, u, x);
    if Open(u, z) {
      assert HeadOk(g, u, z);
    }
  }

  /** Lowering the head of `x` keeps the search invariant and the history. */
  lemma LowerToInv(g: Graph<Element>, s: Search, u: Search, gray: set<Element>, x: Element, z: Element)
    requires Inv(g, u, gray) && Extends(s, u) && SameHeads(s, u, {}) && x !in s.head
    requires Open(u, x) && z in Succ(g, x) && z in u.index && HeadOk(g, u, x)
    requires Open(u, z) ==> HeadOk(g, u, z)
    ensures var v := LowerTo(u, x, z); Inv(g, v, gray) && Extends(s, v) && SameHeads(s, v, {}) && HeadOk(g, v, x)
  {
    if LowerTo(u, x, z) != u {
      LowerInv(g, u, gray, x, z);
      assert HeadOk(g, LowerTo(u, x, z), x);
    }
  }

  lemma LowAfter(g: Graph<Element>, s: Search, t: Search, u: Search, gray: set<Element>, x: Element,
                 todo: set<Element>, z: Element)
    requires LoopInv(g, s, t, gray, x, todo)
    requires Inv(g, u, gray + {x}) && VisitPost(g, t, u, z)
    requires x in u.head && u.head[x] == t.head[x] && u.head[x] in u.index && x in u.index && u.index[x] == t.index[x]
    requires Open(u, z) ==> z in u.head && u.head[z] in u.index
    ensures var v := LowerTo(u, x, z); v.head[x] in v.index && Low(g, v, x, Above(v, x))
  {
    var v := LowerTo(u, x, z);
    forall y, w | y in Above(v, x) && Open(v, y) && w in Succ(g, y) && Open(v, w)
      ensures v.index[v.head[x]] <= v.index[w]
    {
      AboveAfterVisit(g, s, t, u, gray, x, todo, z, y, w);
    }
  }

  lemma LoopStep(g: Graph<Element>, s: Search, t: Search, u: Search, gray: set<Element>, x: Element,
                 todo: set<Element>, z: Element)
    requires LoopInv(g, s, t, gray, x, todo) && z in Succ(g, x)
    requires s.head.Keys == s.index.Keys
    requires Inv(g, u, gray + {x}) && VisitPost(g, t, u, z)
    ensures s.index.Keys + {x} <= u.index.Keys && z in u.index
    ensures x in u.head && u.head[x] in u.index
    ensures Open(u, z) ==> z in u.head && u.head[z] in u.index
    ensures LoopInv(g, s, LowerTo(u, x, z), gray, x, todo - {z})
  {
    hide BackReach, GrayReach, Explored, Assigned, Anchored, Low, LowSelf, SameHeads, Extends, Heads;
    AfterVisit(g, s, t, u, gray, x, todo, z);
    LowerToInv(g, s, u, gray + {x}, x, z);
    LowAfter(g, s, t, u, gray, x, todo, z);
    LowSelfAfter(g, u, x, todo, z);
  }

  lemma LowSelfAfter(g: Graph<Element>, u: Search, x: Element, todo: set<Element>, z: Element)
    requires x in u.head && u.head[x] in u.index && LowSelf(g, u, x, todo)
    requires z in u.index && z in u.head && u.head.Keys == u.index.Keys
    requires Open(u, z) ==> u.head[z] in u.index && u.index[u.head[z]] <= u.index[z]
    ensures var v := LowerTo(u, x, z); v.head[x] in v.index && LowSelf(g, v, x, todo - {z})
  {
  }

  /** The end of a visit that leaves `x` on the stack. */
  lemma LoopEndOpen(g: Graph<Element>, s: Search, t: Search, gray: set<Element>, x: Element)
    requires LoopInv(g, s, t, gray, x, {}) && t.head[x] != x
    ensures Inv(g, t, gray) && VisitPost(g, s, t, x)
  {
    LeaveInv(g, t, gray, x);
    forall y, z | y in NewSince(s, t) && Open(t, y) && z in Succ(g, y) && Open(t, z)
      ensures t.index[t.head[x]] <= t.index[z]
    {
      if t.index[y] == t.index[x] {
        SegmentDistinct(g, t, y, x);
      } else {
        assert y in Above(t, x);
      }
    }
  }

  lemma CloseExtends(s: Search, t: Search, u: Search, x: Element)
    requires Extends(s, t) && SameHeads(s, t, {}) && x !in s.index && x in t.index && t.index[x] == s.next
    requires forall y :: y in s.index ==> s.index[y] < s.next
    requires ClosedAt(t, u, x)
    ensures Extends(s, u) && SameHeads(s, u, {})
    ensures forall y :: y in u.index && y !in s.index ==> y in u.topo
  {
  }

  /** The end of a visit that completes the component of `x`. */
  lemma LoopEndClosed(g: Graph<Element>, s: Search, t: Search, u: Search, gray: set<Element>, x: Element)
    requires Inv(g, s, gray)
    requires LoopInv(g, s, t, gray, x, {}) && t.head[x] == x && ClosedAt(t, u, x)
    ensures Inv(g, u, gray) && VisitPost(g, s, u, x)
  {
    CloseInv(g, t, u, gray, x);
    CloseExtends(s, t, u, x);
    assert x in Segment(t, x);
  }
}
