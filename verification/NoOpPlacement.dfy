// The no-op checks of ReparentMember and ReparentMemberToPageRoot
// (src/hybrid/topologyplacementmutation.cpp) reject exactly the placements that would give
// the same container back under another name for one split.

module NoOpPlacement {
  import opened Basics
  import opened Layout
  import opened LayoutEdits
  import opened Containers
  import opened ContainerProofs
  import opened Topologies
  import opened WindowContainerObject

  // The same tree with split `x` called `s`.
  ghost function RenameSplit(t: LayoutNode, x: string, s: string): LayoutNode {
    match t
    case Leaf(_, _) => t
    case Split(id, o, r, first, second) =>
      Split(if id == x then s else id, o, r, RenameSplit(first, x, s), RenameSplit(second, x, s))
  }

  ghost function RenameSplitOn(p: ContainerPage, x: string, s: string): ContainerPage {
    p.(root := RenameSplit(p.root, x, s))
  }

  ghost function RenameSplitIn(c: Container, x: string, s: string): Container {
    c.(pages := seq(|c.pages|, i requires 0 <= i < |c.pages| => RenameSplitOn(c.pages[i], x, s)))
  }

  // Some split has the two windows as its two leaves, in the requested arrangement.
  ghost predicate HasPair(t: LayoutNode, w: string, target: string, o: Orientation, r: real, p: Position) {
    t.Split? &&
      (|| (&& t.orientation == o && t.ratio == r
           && IsLeafWindow(t.first, if p.First? then w else target)
           && IsLeafWindow(t.second, if p.First? then target else w))
       || HasPair(t.first, w, target, o, r, p)
       || HasPair(t.second, w, target, o, r, p))
  }

  lemma {:induction false} PairWindows(t: LayoutNode, w: string, target: string, o: Orientation, r: real, p: Position)
    requires HasPair(t, w, target, o, r, p)
    ensures w in Windows(t) && target in Windows(t)
  {
    if HasPair(t.first, w, target, o, r, p) {
      PairWindows(t.first, w, target, o, r, p);
    } else if HasPair(t.second, w, target, o, r, p) {
      PairWindows(t.second, w, target, o, r, p);
    }
  }

  lemma PairPaths(t: LayoutNode, a: string, b: string)
    requires t.Split? && a != b && IsLeafWindow(t.first, a) && IsLeafWindow(t.second, b)
    ensures FindPath(t, a) == Some([First]) && FindPath(t, b) == Some([Second])
  {
    assert FindPath(t.first, a) == Some([]) && FindPath(t.second, b) == Some([]) && FindPath(t.first, b).None?;
    assert [First] + [] == [First] && [Second] + [] == [Second];
  }

  // The source's check, pointer comparisons included, looks for such a pair.
  lemma {:induction false} CheckFindsPair(t: LayoutNode, w: string, target: string, o: Orientation, r: real,
                                          p: Position)
    requires WellFormed(t) && w != target
    ensures IsDirectSiblingNoOp(t, w, target, o, r, p) <==> HasPair(t, w, target, o, r, p)
  {
    if t.Split? {
      var a := if p.First? then w else target;
      var b := if p.First? then target else w;
      if IsLeafWindow(t.first, a) && IsLeafWindow(t.second, b) {
        PairPaths(t, a, b);
      }
      CheckFindsPair(t.first, w, target, o, r, p);
      CheckFindsPair(t.second, w, target, o, r, p);
    }
  }

  lemma {:induction false} RenameMisses(t: LayoutNode, x: string, s: string)
    requires x !in Ids(t)
    ensures RenameSplit(t, x, s) == t
  {
    if t.Split? {
      RenameMisses(t.first, x, s);
      RenameMisses(t.second, x, s);
    }
  }

  lemma {:induction false} RenameKeepsPairs(t: LayoutNode, x: string, s: string,
                                            w: string, target: string, o: Orientation, r: real, p: Position)
    ensures HasPair(RenameSplit(t, x, s), w, target, o, r, p) <==> HasPair(t, w, target, o, r, p)
  {
    if t.Split? {
      RenameKeepsPairs(t.first, x, s, w, target, o, r, p);
      RenameKeepsPairs(t.second, x, s, w, target, o, r, p);
    }
  }

  lemma {:induction false} SplittingMakesPair(t: LayoutNode, target: string, leafId: string, w: string,
                                              s: string, o: Orientation, r: real, p: Position)
    requires SplitAtWindow(t, target, Leaf(leafId, w), s, o, r, p).Some?
    ensures HasPair(SplitAtWindow(t, target, Leaf(leafId, w), s, o, r, p).value, w, target, o, r, p)
  {
    if t.Split? {
      if SplitAtWindow(t.first, target, Leaf(leafId, w), s, o, r, p).Some? {
        SplittingMakesPair(t.first, target, leafId, w, s, o, r, p);
      } else {
        SplittingMakesPair(t.second, target, leafId, w, s, o, r, p);
      }
    }
  }

  // Taking a paired leaf out and putting it back only renames the pair's split.
  lemma {:induction false} PairReproduced(t: LayoutNode, w: string, target: string, s: string,
                                          o: Orientation, r: real, p: Position) returns (x: string)
    requires WellFormed(t) && HasPair(t, w, target, o, r, p) && w != target
    ensures x in Ids(t)
    ensures RemoveWindow(t, w).RemovedDescendant?
    ensures var d := RemoveWindow(t, w);
      SplitAtWindow(d.rest, target, Leaf(d.leafId, w), s, o, r, p) == Some(RenameSplit(t, x, s))
  {
    RemoveWindowEffect(t.first, w);
    RemoveWindowEffect(t.second, w);
    var leaf := Leaf(if RemoveWindow(t, w).NotFound? then "" else RemoveWindow(t, w).leafId, w);
    SplitAtWindowEffect(t.first, target, leaf.id, w, s, o, r, p);
    if HasPair(t.first, w, target, o, r, p) {
      PairWindows(t.first, w, target, o, r, p);
      x := PairReproduced(t.first, w, target, s, o, r, p);
      RenameMisses(t.second, x, s);
    } else if HasPair(t.second, w, target, o, r, p) {
      PairWindows(t.second, w, target, o, r, p);
      x := PairReproduced(t.second, w, target, s, o, r, p);
      RenameMisses(t.first, x, s);
    } else {
      x := t.id;
      RenameMisses(t.first, x, s);
      RenameMisses(t.second, x, s);
    }
  }

  // -------------------------------------------------------------- containers

  ghost predicate SameUpToSplitName(c: Container, c': Container, s: string) {
    exists x :: c' == RenameSplitIn(c, x, s)
  }

  lemma RenamedPage(c: Container, i: nat, x: string, s: string)
    requires ValidContainer(c) && i < |c.pages| && x in Ids(c.pages[i].root)
    ensures RenameSplitIn(c, x, s) == WithRoot(c, i, RenameSplit(c.pages[i].root, x, s))
  {
    var qs := RenameSplitIn(c, x, s).pages;
    forall k | 0 <= k < |c.pages| && k != i ensures qs[k] == c.pages[k] {
      Strangers(c.id, c.pages, k, i);
      RenameMisses(c.pages[k].root, x, s);
    }
    OnePatch(c.pages, qs, i);
  }

  lemma ReparentIsNoOp(c: Container, w: string, target: string, s: string, o: Orientation, r: real, p: Position, i: nat)
    requires ValidContainer(c) && w != target && i < |c.pages|
    requires HasPair(c.pages[i].root, w, target, o, r, p)
    requires DetachWindow(c, w).Some? && Reattach(DetachWindow(c, w).value, target, s, o, r, p).Some?
    ensures SameUpToSplitName(c, Reattach(DetachWindow(c, w).value, target, s, o, r, p).value, s)
  {
    var root := c.pages[i].root;
    assert WellFormed(root) by {
      assert c.pages[i] in c.pages;
    }
    hide WellFormed, ValidContainer, HasPair, WindowsOf, HandlesOf, IdsOf, RenameSplit, RemoveWindow, SplitAtWindow,
         Windows, Ids, WindowPage;
    var x := PairReproduced(root, w, target, s, o, r, p);
    PairWindows(root, w, target, o, r, p);
    OnlyPage(c, w, i);
    var d := DetachWindow(c, w).value;
    RemoveWindowEffect(root, w);
    DetachWindowEffect(c, w);
    OnlyPage(d.rest, target, i);
    RenamedPage(c, i, x, s);
    TwicePatched(c, i, RemoveWindow(root, w).rest, RenameSplit(root, x, s));
    hide WithRoot;
    assert d.rest == WithRoot(c, i, RemoveWindow(root, w).rest);
  }

  lemma TwicePatched(c: Container, i: nat, first: LayoutNode, second: LayoutNode)
    requires i < |c.pages|
    ensures WithRoot(c, i, first).pages[i].root == first
    ensures WithRoot(WithRoot(c, i, first), i, second) == WithRoot(c, i, second)
  {
  }

  // In a valid container a page that shows a window is the page that does.
  lemma OnlyPage(c: Container, w: string, i: nat)
    requires ValidContainer(c) && i < |c.pages| && w in Windows(c.pages[i].root)
    ensures WindowPage(c.pages, w) == Some(i)
  {
    var k := WindowPage(c.pages, w);
    assert c.pages[i] in c.pages;
    if k.Some? && k.value != i {
      Strangers(c.id, c.pages, k.value, i);
    }
  }

  // Rejected as already in place if and only if detaching the member and splitting beside the
  // target again would reproduce the container up to the new split's name.
  lemma ReparentNoOpIff(c: Container, w: string, target: string, s: string, o: Orientation, r: real, p: Position)
    requires ValidContainer(c) && w != target
    requires DetachWindow(c, w).Some? && Reattach(DetachWindow(c, w).value, target, s, o, r, p).Some?
    ensures (exists q :: q in c.pages && IsDirectSiblingNoOp(q.root, w, target, o, r, p)) <==>
      SameUpToSplitName(c, Reattach(DetachWindow(c, w).value, target, s, o, r, p).value, s)
  {
    hide WellFormed, WindowsOf, HandlesOf, IdsOf;
    var d := DetachWindow(c, w).value;
    var c' := Reattach(d, target, s, o, r, p).value;
    forall q | q in c.pages
      ensures IsDirectSiblingNoOp(q.root, w, target, o, r, p) <==> HasPair(q.root, w, target, o, r, p)
    {
      CheckFindsPair(q.root, w, target, o, r, p);
    }
    if i :| 0 <= i < |c.pages| && HasPair(c.pages[i].root, w, target, o, r, p) {
      ReparentIsNoOp(c, w, target, s, o, r, p, i);
      assert c.pages[i] in c.pages;
    }
    if x :| c' == RenameSplitIn(c, x, s) {
      var i := WindowPage(d.rest.pages, target).value;
      SplittingMakesPair(d.rest.pages[i].root, target, d.leafNodeId, w, s, o, r, p);
      assert HasPair(c'.pages[i].root, w, target, o, r, p);
      RenameKeepsPairs(c.pages[i].root, x, s, w, target, o, r, p);
      assert c.pages[i] in c.pages;
    }
  }

  lemma DetachedFromRoot(c: Container, w: string, o: Orientation, r: real, p: Position, i: nat)
    requires ValidContainer(c) && i < |c.pages| && IsRootSiblingNoOp(c.pages[i].root, w, o, r, p)
    ensures var root := c.pages[i].root;
      var leaf, rest := if p.First? then root.first else root.second, if p.First? then root.second else root.first;
      && DetachWindow(c, w) == Some(DetachedWindow(WithRoot(c, i, rest), w, leaf.id, c.pages[i].id))
  {
    var root := c.pages[i].root;
    assert c.pages[i] in c.pages;
    RemoveWindowEffect(root.first, w);
    OnlyPage(c, w, i);
    if p.First? {
      assert RemoveWindow(root, w) == RemovedDescendant(root.first.id, root.second);
    } else {
      assert w !in Windows(root.first);
      assert RemoveWindow(root.second, w) == RemoveThisNode(root.second.id);
      assert RemoveWindow(root, w) == RemovedDescendant(root.second.id, root.first);
    }
  }

  lemma SamePageAgain(c: Container, i: nat, root: LayoutNode)
    requires i < |c.pages| && PageIndex(c.pages, c.pages[i].id) == Some(i)
    ensures PageIndex(WithRoot(c, i, root).pages, c.pages[i].id) == Some(i)
  {
    FirstPage(WithRoot(c, i, root).pages, c.pages[i].id, i);
  }

  lemma ReparentToRootIsNoOp(c: Container, w: string, pageId: string, s: string, o: Orientation, r: real, p: Position,
                             i: nat)
    requires ValidContainer(c) && PageIndex(c.pages, pageId) == Some(i)
    requires IsRootSiblingNoOp(c.pages[i].root, w, o, r, p)
    requires DetachWindow(c, w).Some? && ReattachToRoot(DetachWindow(c, w).value, pageId, s, o, r, p).Some?
    ensures SameUpToSplitName(c, ReattachToRoot(DetachWindow(c, w).value, pageId, s, o, r, p).value, s)
  {
    hide ValidContainer, DetachWindow;
    var root := c.pages[i].root;
    RootIdAlone(c, i);
    DetachedFromRoot(c, w, o, r, p, i);
    SamePageAgain(c, i, if p.First? then root.second else root.first);
    RenameMisses(root.first, root.id, s);
    RenameMisses(root.second, root.id, s);
    RenamedPage(c, i, root.id, s);
    var c' := ReattachToRoot(DetachWindow(c, w).value, pageId, s, o, r, p).value;
    assert c' == WithRoot(c, i, RenameSplit(root, root.id, s));
  }

  lemma RootIdAlone(c: Container, i: nat)
    requires ValidContainer(c) && i < |c.pages| && c.pages[i].root.Split?
    ensures var root := c.pages[i].root; root.id !in Ids(root.first) && root.id !in Ids(root.second)
  {
    assert c.pages[i] in c.pages;
  }

  lemma RenamedAt(c: Container, x: string, s: string)
    ensures |RenameSplitIn(c, x, s).pages| == |c.pages|
    ensures forall k :: 0 <= k < |c.pages| ==> RenameSplitIn(c, x, s).pages[k] == RenameSplitOn(c.pages[k], x, s)
  {
  }

  lemma SamePageId(c: Container, i: nat, k: nat)
    requires ValidContainer(c) && i < |c.pages| && k < |c.pages| && c.pages[i].id == c.pages[k].id
    ensures i == k
  {
    if i != k {
      Strangers(c.id, c.pages, i, k);
    }
  }

  lemma ReparentToRootNoOpIff(c: Container, w: string, pageId: string, s: string, o: Orientation, r: real,
                              p: Position, i: nat)
    requires ValidContainer(c) && PageIndex(c.pages, pageId) == Some(i)
    requires DetachWindow(c, w).Some? && ReattachToRoot(DetachWindow(c, w).value, pageId, s, o, r, p).Some?
    ensures IsRootSiblingNoOp(c.pages[i].root, w, o, r, p) <==>
      SameUpToSplitName(c, ReattachToRoot(DetachWindow(c, w).value, pageId, s, o, r, p).value, s)
  {
    hide ValidContainer, DetachWindow, PageIndex, RenameSplitIn;
    var d := DetachWindow(c, w).value;
    var c' := ReattachToRoot(d, pageId, s, o, r, p).value;
    if IsRootSiblingNoOp(c.pages[i].root, w, o, r, p) {
      ReparentToRootIsNoOp(c, w, pageId, s, o, r, p, i);
    }
    if x :| c' == RenameSplitIn(c, x, s) {
      var k := PageIndex(d.rest.pages, pageId).value;
      DetachedWindowId(c, w);
      RenamedAt(c, x, s);
      assert c.pages[k].id == c'.pages[k].id == pageId;
      SamePageId(c, i, k);
      var root := c.pages[i].root;
      assert c'.pages[i].root == RenameSplit(root, x, s);
      assert c'.pages[i].root == Beside(s, o, r, p, Leaf(d.leafNodeId, w), d.rest.pages[k].root);
      assert root.Split? && root.orientation == o && root.ratio == r;
      assert IsLeafWindow(if p.First? then RenameSplit(root.first, x, s) else RenameSplit(root.second, x, s), w);
    }
  }

  lemma DetachedWindowId(c: Container, w: string)
    ensures DetachWindow(c, w).Some? ==> DetachWindow(c, w).value.windowId == w
  {
  }
}
