/** What is painted over the embedded browser (src/browserHost.ts `occludersOver`, src/browserOcclusion.ts,
    src/browserBounds.ts `overlaps`): a pruning walk of the visible tree that has to answer a question about
    every element of it. */
module OcclusionWalk {

  datatype Rect = Rect(x: real, y: real, width: real, height: real)

  datatype Style = Style(position: string, zIndex: string, pointerEvents: string)

  /** An element as the walk reads it.  `visible` is the answer to "is this subtree rendered", which a box-less
      element gives as well; `painted` says it is on the short list of click-through surfaces. */
  datatype Element = Element(id: nat, visible: bool, rect: Rect, style: Style, painted: bool, children: seq<Element>)

  predicate Overlaps(a: Rect, b: Rect) {
    a.x < b.x + b.width && b.x < a.x + a.width && a.y < b.y + b.height && b.y < a.y + a.height
  }

  /** The point lies inside the rectangle, not on its edge. */
  predicate Inside(x: real, y: real, r: Rect) {
    r.x < x < r.x + r.width && r.y < y < r.y + r.height
  }

  lemma Between(lo: real, hi: real, lo': real, hi': real) returns (m: real)
    requires lo < hi && lo' < hi' && lo < hi' && lo' < hi
    ensures lo < m < hi && lo' < m < hi'
  {
    var left := if lo < lo' then lo' else lo;
    var right := if hi < hi' then hi else hi';
    m := (left + right) / 2.0;
  }

  /** Two rectangles with an inside overlap exactly when their insides share a point; touching edges are no overlap. */
  lemma OverlapsMeansShared(a: Rect, b: Rect)
    requires a.width > 0.0 && a.height > 0.0 && b.width > 0.0 && b.height > 0.0
    ensures Overlaps(a, b) <==> exists x, y :: Inside(x, y, a) && Inside(x, y, b)
  {
    if Overlaps(a, b) {
      var x := Between(a.x, a.x + a.width, b.x, b.x + b.width);
      var y := Between(a.y, a.y + a.height, b.y, b.y + b.height);
      assert Inside(x, y, a) && Inside(x, y, b);
    }
  }

  predicate StacksAboveFlow(s: Style) {
    (s.position != "" && s.position != "static") || (s.zIndex != "" && s.zIndex != "auto")
  }

  predicate IsSurface(s: Style) {
    s.pointerEvents != "none"
  }

  predicate Occludes(view: Rect, e: Element) {
    StacksAboveFlow(e.style) && (e.painted || IsSurface(e.style)) && Overlaps(view, e.rect)
  }

  /** A positive rectangle that covers part of the view. */
  predicate Counted(view: Rect, e: Element) {
    e.rect.width > 0.0 && e.rect.height > 0.0 && Occludes(view, e)
  }

  /** The element is the host or one of its ancestors. */
  predicate Contains(e: Element, host: nat) {
    e.id == host || exists c :: c in e.children && Contains(c, host)
  }

  /** What covers a view: a positive rectangle that shares a point with it, of an element lifted out of the page's flow
      by its position or its layer, that takes clicks or is one of those known to paint without taking them. */
  lemma CountedMeans(view: Rect, e: Element)
    requires view.width > 0.0 && view.height > 0.0
    ensures Counted(view, e) <==>
              && e.rect.width > 0.0 && e.rect.height > 0.0
              && (exists x, y :: Inside(x, y, view) && Inside(x, y, e.rect))
              && (e.style.position !in {"", "static"} || e.style.zIndex !in {"", "auto"})
              && (e.painted || e.style.pointerEvents != "none")
  {
    hide Overlaps, Inside;
    if e.rect.width > 0.0 && e.rect.height > 0.0 { OverlapsMeansShared(view, e.rect); }
  }

  /** Each element is a child of the one before. */
  predicate Descends(p: seq<Element>) {
    |p| <= 1 || (p[1] in p[0].children && Descends(p[1..]))
  }

  /** A line of descent from `e` to an element with the host's identity. */
  predicate Leads(e: Element, p: seq<Element>, host: nat) {
    p != [] && p[0] == e && Descends(p) && p[|p| - 1].id == host
  }

  lemma {:induction false} LineTo(e: Element, host: nat) returns (p: seq<Element>)
    requires Contains(e, host)
    ensures Leads(e, p, host)
    decreases e
  {
    if e.id == host {
      p := [e];
    } else {
      var c :| c in e.children && Contains(c, host);
      var q := LineTo(c, host);
      p := [e] + q;
      assert p[1..] == q;
    }
  }

  lemma {:induction false} LineContains(e: Element, p: seq<Element>, host: nat)
    requires Leads(e, p, host)
    ensures Contains(e, host)
    decreases |p|
  {
    if |p| > 1 { LineContains(p[1], p[1..], host); }
  }

  /** An element contains the host exactly when a line of descent leads from it to the host. */
  lemma ContainsMeans(e: Element, host: nat)
    ensures Contains(e, host) <==> exists p :: Leads(e, p, host)
  {
    if Contains(e, host) {
      var p := LineTo(e, host);
      assert Leads(e, p, host);
    }
    if p :| Leads(e, p, host) { LineContains(e, p, host); }
  }

  // ------------------------------------------------------------------ the walk

  function VisitAll(cs: seq<Element>, host: nat, view: Rect): seq<Element>
    decreases cs
  {
    if cs == [] then [] else VisitAll(cs[..|cs| - 1], host, view) + VisitOne(cs[|cs| - 1], host, view)
  }

  function VisitOne(c: Element, host: nat, view: Rect): seq<Element>
    decreases c
  {
    if c.id == host || !c.visible then []
    else if !Contains(c, host) && Counted(view, c) then [c]
    else VisitAll(c.children, host, view)
  }

  /** The recursive walk: prunes what is invisible, never counts what contains the host, does not descend into what
      it has counted, and descends into everything else whether or not it reaches the view. */
  method Visit(el: Element, host: nat, view: Rect, found: seq<Element>) returns (found': seq<Element>)
    ensures found' == found + VisitAll(el.children, host, view)
    decreases el
  {
    found' := found;
    var i := 0;
    while i < |el.children|
      invariant 0 <= i <= |el.children| && found' == found + VisitAll(el.children[..i], host, view)
    {
      var child := el.children[i];
      assert el.children[..i + 1][..i] == el.children[..i];
      if child.id == host || !child.visible {
      } else if Contains(child, host) {
        found' := Visit(child, host, view, found');
      } else {
        var covered := false;
        if child.rect.width > 0.0 && child.rect.height > 0.0 && Overlaps(view, child.rect) {
          if Occludes(view, child) {
            found' := found' + [child];
            covered := true;
          }
        }
        if !covered { found' := Visit(child, host, view, found'); }
      }
      i := i + 1;
    }
    assert el.children[..|el.children|] == el.children;
  }

  method OccludersOver(body: Element, host: nat, view: Rect) returns (found: seq<Element>)
    ensures found == VisitAll(body.children, host, view)
  {
    found := Visit(body, host, view, []);
  }

  // ------------------------------------------------------------------ the question it answers

  /** A path down from some siblings: every element on it is rendered and none is the host. */
  predicate OnScreen(cs: seq<Element>, p: seq<Element>, host: nat) {
    && p != [] && p[0] in cs && p[0].visible && p[0].id != host
    && (|p| == 1 || OnScreen(p[0].children, p[1..], host))
  }

  /** The path ends at an element that covers the view and does not contain the host. */
  predicate Covers(cs: seq<Element>, p: seq<Element>, host: nat, view: Rect) {
    OnScreen(cs, p, host) && !Contains(p[|p| - 1], host) && Counted(view, p[|p| - 1])
  }

  /** Nothing above the end of the path covers the view. */
  predicate Topmost(p: seq<Element>, host: nat, view: Rect) {
    p == [] || |p| == 1 || ((Contains(p[0], host) || !Counted(view, p[0])) && Topmost(p[1..], host, view))
  }

  lemma {:induction false} FoundHasPath(cs: seq<Element>, host: nat, view: Rect, x: Element) returns (p: seq<Element>)
    requires x in VisitAll(cs, host, view)
    ensures Covers(cs, p, host, view) && Topmost(p, host, view) && p[|p| - 1] == x
    decreases cs, 1
  {
    var n := |cs| - 1;
    if x in VisitAll(cs[..n], host, view) {
      p := FoundHasPath(cs[..n], host, view, x);
    } else {
      p := FoundInOne(cs, cs[n], host, view, x);
    }
  }

  lemma {:induction false} FoundInOne(cs: seq<Element>, c: Element, host: nat, view: Rect, x: Element)
    returns (p: seq<Element>)
    requires c in cs && x in VisitOne(c, host, view)
    ensures Covers(cs, p, host, view) && Topmost(p, host, view) && p[|p| - 1] == x
    decreases c, 0
  {
    if !Contains(c, host) && Counted(view, c) {
      p := [c];
    } else {
      var q := FoundHasPath(c.children, host, view, x);
      p := [c] + q;
      assert p[1..] == q;
    }
  }

  lemma {:induction false} InAll(cs: seq<Element>, c: Element, host: nat, view: Rect, x: Element)
    requires c in cs && x in VisitOne(c, host, view)
    ensures x in VisitAll(cs, host, view)
    decreases |cs|
  {
    var n := |cs| - 1;
    if c != cs[n] {
      assert cs == cs[..n] + [cs[n]];
      InAll(cs[..n], c, host, view, x);
    }
  }

  lemma {:induction false} PathIsFound(cs: seq<Element>, host: nat, view: Rect, p: seq<Element>)
    requires Covers(cs, p, host, view) && Topmost(p, host, view)
    ensures p[|p| - 1] in VisitAll(cs, host, view)
    decreases |p|
  {
    if |p| > 1 {
      PathIsFound(p[0].children, host, view, p[1..]);
    }
    InAll(cs, p[0], host, view, p[|p| - 1]);
  }

  /** The walk returns exactly the topmost occluders. */
  lemma WalkFindsTopmost(cs: seq<Element>, host: nat, view: Rect, x: Element)
    ensures x in VisitAll(cs, host, view) <==>
            exists p :: Covers(cs, p, host, view) && Topmost(p, host, view) && p[|p| - 1] == x
  {
    if x in VisitAll(cs, host, view) {
      var p := FoundHasPath(cs, host, view, x);
    }
    if p :| Covers(cs, p, host, view) && Topmost(p, host, view) && p[|p| - 1] == x {
      PathIsFound(cs, host, view, p);
    }
  }

  /** A path to a covering element has a topmost covering element on it. */
  lemma {:induction false} FirstCovering(cs: seq<Element>, host: nat, view: Rect, p: seq<Element>)
    returns (q: seq<Element>)
    requires Covers(cs, p, host, view)
    ensures Covers(cs, q, host, view) && Topmost(q, host, view)
    decreases |p|
  {
    if |p| == 1 {
      q := p;
    } else if !Contains(p[0], host) && Counted(view, p[0]) {
      q := [p[0]];
    } else {
      var r := FirstCovering(p[0].children, host, view, p[1..]);
      q := [p[0]] + r;
      assert q[1..] == r;
    }
  }

  /** Pruning loses nothing: the walk comes back empty exactly when no element outside the host's subtree and its
      chain of ancestors, rendered all the way down from the body, has a positive rectangle that covers the view. */
  lemma WalkAnswersTheGlobalQuestion(body: Element, host: nat, view: Rect)
    ensures VisitAll(body.children, host, view) == [] <==> !exists p :: Covers(body.children, p, host, view)
  {
    var cs := body.children;
    if VisitAll(cs, host, view) != [] {
      var p := FoundHasPath(cs, host, view, VisitAll(cs, host, view)[0]);
      assert Covers(cs, p, host, view);
    }
    if p :| Covers(cs, p, host, view) {
      var q := FirstCovering(cs, host, view, p);
      PathIsFound(cs, host, view, q);
    }
  }
}
