// What each operation on a container accepts, and exactly which container it then leaves: told
// from pages, paths and fields, without the functions that compute it.

module ContainerMeaning {
  import opened Basics
  import opened Layout
  import opened LayoutEdits
  import opened Names
  import opened Containers
  import opened ContainerProofs

  // ----------------------------------------------------------------- vocabulary

  // An identity that a container can still give away.
  ghost predicate Unused(c: Container, id: string) {
    id != "" && id != c.id && id !in IdsOf(c.pages)
  }

  // The two nodes under a new split, the newcomer on the side asked for.
  function Joined(splitId: string, o: Orientation, r: real, p: Position, newcomer: LayoutNode,
                  existing: LayoutNode): LayoutNode
  {
    match p
    case First => Split(splitId, o, r, newcomer, existing)
    case Second => Split(splitId, o, r, existing, newcomer)
  }

  // The container in which one node of one page has given way to another.
  function Patched(c: Container, i: nat, path: seq<Position>, node: LayoutNode): Container
    requires i < |c.pages|
  {
    c.(pages := c.pages[i := c.pages[i].(root := Graft(c.pages[i].root, path, node))])
  }

  // The leaf that shows the target now shares a new split with a new leaf.
  ghost predicate SplitBeside(c: Container, c': Container, target: string, leafId: string, w: string, splitId: string,
                              o: Orientation, r: real, p: Position)
  {
    exists i: nat, path, old' :: i < |c.pages| && At(c.pages[i].root, path) == Some(Leaf(old', target)) &&
      c' == Patched(c, i, path, Joined(splitId, o, r, p, Leaf(leafId, w), Leaf(old', target)))
  }

  // The whole page now shares a new split with a new leaf.
  ghost predicate SplitAtRoot(c: Container, c': Container, pageId: string, leafId: string, w: string, splitId: string,
                              o: Orientation, r: real, p: Position)
  {
    exists i: nat :: i < |c.pages| && c.pages[i].id == pageId &&
      c' == Patched(c, i, [], Joined(splitId, o, r, p, Leaf(leafId, w), c.pages[i].root))
  }

  // The page's place in the list goes to nobody, and its being active to a neighbour.
  function Without(c: Container, i: nat): Container
    requires i < |c.pages|
  {
    c.(pages := c.pages[..i] + c.pages[i + 1..],
       activePageId :=
         if c.activePageId != c.pages[i].id then c.activePageId
         else if i + 1 < |c.pages| then c.pages[i + 1].id
         else if i > 0 then c.pages[i - 1].id
         else "")
  }

  // The leaf is gone: with its page if it is all the page has, and otherwise with its parent,
  // whose place its sibling takes.
  ghost predicate TakenOut(c: Container, c': Container, leafId: string, w: string) {
    || (exists i: nat :: i < |c.pages| && c.pages[i].root == Leaf(leafId, w) && c' == Without(c, i))
    || (exists i: nat, path, side :: i < |c.pages| && LeafUnder(c.pages[i].root, path, side, leafId, w) &&
         c' == Patched(c, i, path, Child(At(c.pages[i].root, path).value, Opposite(side))))
  }

  ghost predicate LeafUnder(root: LayoutNode, path: seq<Position>, side: Position, leafId: string, w: string) {
    && At(root, path).Some? && At(root, path).value.Split?
    && Child(At(root, path).value, side) == Leaf(leafId, w)
  }

  // The page stands at the index, under a number nobody else has and its own one if that is free.
  ghost predicate PageAt(ps: seq<ContainerPage>, qs: seq<ContainerPage>, page: ContainerPage, d: int) {
    && 0 <= d <= |ps| && |qs| == |ps| + 1 && qs == ps[..d] + [qs[d]] + ps[d..]
    && qs[d].id == page.id && qs[d].root == page.root && qs[d].name == page.name && qs[d].number > 0
    && (forall p :: p in ps ==> p.number != qs[d].number)
    && (page.number > 0 && (forall p :: p in ps ==> p.number != page.number) ==> qs[d].number == page.number)
  }

  // What a page must bring to be taken in.
  ghost predicate Acceptable(c: Container, page: ContainerPage) {
    && ValidName(page.name) && WellFormed(page.root)
    && Unused(c, page.id) && page.id !in Ids(page.root)
    && (forall id :: id in Ids(page.root) ==> Unused(c, id))
    && Windows(page.root) !! WindowsOf(c.pages)
  }

  // Room for one more page.
  predicate Roomy(c: Container) {
    |c.pages| < 0x7FFF_FFFF
  }

  // ------------------------------------------------------------------ operations

  lemma JoinedIsBeside(splitId: string, o: Orientation, r: real, p: Position, newcomer: LayoutNode,
                       existing: LayoutNode)
    ensures Beside(splitId, o, r, p, newcomer, existing) == Joined(splitId, o, r, p, newcomer, existing)
  {
  }

  lemma WithRootPatches(c: Container, i: nat, path: seq<Position>, node: LayoutNode)
    requires i < |c.pages|
    ensures WithRoot(c, i, Graft(c.pages[i].root, path, node)) == Patched(c, i, path, node)
    ensures Graft(c.pages[i].root, [], node) == node
  {
  }

  lemma PathShows(t: LayoutNode, w: string)
    requires WellFormed(t) && w in Windows(t)
    ensures FindPath(t, w).Some?
  {
    FindWindowFinds(t, w);
  }

  lemma SplitWindowMeaning(c: Container, r: SplitRequest)
    ensures SplitWindow(c, r).Some? <==>
      && ValidContainer(c) && r.targetWindowId in WindowsOf(c.pages)
      && r.newWindowId != "" && r.newWindowId !in WindowsOf(c.pages)
      && Unused(c, r.newLeafNodeId) && Unused(c, r.splitNodeId) && r.newLeafNodeId != r.splitNodeId
      && 0.0 < r.ratio < 1.0
    ensures SplitWindow(c, r).Some? ==>
      SplitBeside(c, SplitWindow(c, r).value, r.targetWindowId, r.newLeafNodeId, r.newWindowId, r.splitNodeId,
                  r.orientation, r.ratio, r.position)
  {
    hide WellFormed, IdsOf, ValidContainer, Graft, Beside, SplitAtWindow, FindPath, Joined;
    var k := WindowPage(c.pages, r.targetWindowId);
    if k.Some? {
      var i, target := k.value, r.targetWindowId;
      var root, newcomer := c.pages[i].root, Leaf(r.newLeafNodeId, r.newWindowId);
      SplitAtWindowExact(root, target, newcomer, r.splitNodeId, r.orientation, r.ratio, r.position);
      var path := FindPath(root, target).value;
      var leaf := At(root, path).value;
      JoinedIsBeside(r.splitNodeId, r.orientation, r.ratio, r.position, newcomer, leaf);
      WithRootPatches(c, i, path, Joined(r.splitNodeId, r.orientation, r.ratio, r.position, newcomer, leaf));
      assert leaf == Leaf(leaf.id, target);
      assert c.pages[i] in c.pages;
    }
  }

  lemma SplitPageMeaning(c: Container, r: PageSplitRequest)
    ensures SplitPage(c, r).Some? <==>
      && ValidContainer(c) && HasPage(c.pages, r.pageId)
      && r.newWindowId != "" && r.newWindowId !in WindowsOf(c.pages)
      && Unused(c, r.newLeafNodeId) && Unused(c, r.splitNodeId) && r.newLeafNodeId != r.splitNodeId
      && 0.0 < r.ratio < 1.0
    ensures SplitPage(c, r).Some? ==>
      SplitAtRoot(c, SplitPage(c, r).value, r.pageId, r.newLeafNodeId, r.newWindowId, r.splitNodeId,
                  r.orientation, r.ratio, r.position)
  {
    hide WellFormed, IdsOf, WindowsOf, ValidContainer, Graft, Beside, Joined;
    PageIndexMeaning(c.pages, r.pageId);
    var k := PageIndex(c.pages, r.pageId);
    if k.Some? {
      var i, newcomer := k.value, Leaf(r.newLeafNodeId, r.newWindowId);
      JoinedIsBeside(r.splitNodeId, r.orientation, r.ratio, r.position, newcomer, c.pages[i].root);
      WithRootPatches(c, i, [], Joined(r.splitNodeId, r.orientation, r.ratio, r.position, newcomer, c.pages[i].root));
    }
  }

  lemma PageIndexMeaning(ps: seq<ContainerPage>, pageId: string)
    ensures PageIndex(ps, pageId).Some? <==> HasPage(ps, pageId)
  {
    if PageIndex(ps, pageId).Some? {
      assert ps[PageIndex(ps, pageId).value] in ps;
    }
  }

  lemma WindowPageMeaning(ps: seq<ContainerPage>, w: string)
    ensures WindowPage(ps, w).Some? <==> w in WindowsOf(ps)
  {
    if WindowPage(ps, w).Some? {
      assert ps[WindowPage(ps, w).value] in ps;
    }
  }

  lemma WithoutIs(c: Container, i: nat)
    requires ValidContainer(c) && i < |c.pages|
    ensures WithoutPage(c, i) == Without(c, i)
  {
    if |c.pages| == 1 {
      assert HasPage(c.pages, c.activePageId);
    }
  }

  lemma DetachWindowMeaning(c: Container, w: string)
    ensures DetachWindow(c, w).Some? <==> ValidContainer(c) && w in WindowsOf(c.pages)
    ensures DetachWindow(c, w).Some? ==>
      var d := DetachWindow(c, w).value; d.windowId == w && TakenOut(c, d.rest, d.leafNodeId, w)
  {
    hide WellFormed, ValidContainer, Graft, RemoveWindow, Without, WithoutPage, At, Child;
    WindowPageMeaning(c.pages, w);
    var k := WindowPage(c.pages, w);
    if ValidContainer(c) && k.Some? {
      var i, root := k.value, c.pages[k.value].root;
      RemoveWindowEffect(root, w);
      WithoutIs(c, i);
      if RemoveWindow(root, w).RemovedDescendant? {
        var path, side := RemoveWindowExact(root, w);
        WithRootPatches(c, i, path, Child(At(root, path).value, Opposite(side)));
        assert LeafUnder(root, path, side, RemoveWindow(root, w).leafId, w);
      }
    }
  }

  lemma DetachPageMeaning(c: Container, pageId: string)
    ensures DetachPage(c, pageId).Some? <==> ValidContainer(c) && HasPage(c.pages, pageId)
    ensures DetachPage(c, pageId).Some? ==>
      var d := DetachPage(c, pageId).value;
      exists i: nat :: i < |c.pages| && c.pages[i] == d.page && d.page.id == pageId && d.rest == Without(c, i)
  {
    hide ValidContainer, Without, WithoutPage;
    PageIndexMeaning(c.pages, pageId);
    if ValidContainer(c) && HasPage(c.pages, pageId) {
      WithoutIs(c, PageIndex(c.pages, pageId).value);
    }
  }

  lemma ActivatePageMeaning(c: Container, pageId: string)
    ensures ActivatePage(c, pageId) ==
            if ValidContainer(c) && (exists p :: p in c.pages && p.id == pageId) then Some(c.(activePageId := pageId))
            else None
  {
    hide ValidContainer;
  }

  lemma RenamePageMeaning(c: Container, pageId: string, name: string)
    ensures RenamePage(c, pageId, name).Some? <==> HasPage(c.pages, pageId) && ValidName(Trimmed(name))
    ensures RenamePage(c, pageId, name).Some? ==>
      exists i: nat :: i < |c.pages| && c.pages[i].id == pageId &&
        RenamePage(c, pageId, name).value == c.(pages := c.pages[i := c.pages[i].(name := Trimmed(name))])
  {
    hide ValidName, Trimmed;
    PageIndexMeaning(c.pages, pageId);
  }

  lemma AddPageMeaning(c: Container, page: ContainerPage)
    requires c.id != "" && (c.pages == [] || ValidContainer(c)) && Roomy(c)
    ensures AddPage(c, page).Some? <==> Acceptable(c, page)
    ensures AddPage(c, page).Some? ==>
      var c' := AddPage(c, page).value;
      && c'.id == c.id && PageAt(c.pages, c'.pages, page, |c.pages|)
      && c'.activePageId == (if c.pages == [] then page.id else c.activePageId)
  {
    hide ValidContainer, Acceptable, Numbered, AddPage;
    AcceptableMeaning(c, page);
    if AddPage(c, page).Some? {
      AddPageEffect(c, page);
      AddedGood(c, page);
      AddedApart(c, Numbered(c.pages, page));
      NumberedAt(c.pages, page);
    } else if Acceptable(c, page) {
      AddPageSucceeds(c, page);
    }
    hide ValidName, WellFormed, IdsOf, WindowsOf, PageAt;
  }

  lemma AddedGood(c: Container, page: ContainerPage)
    requires AddPage(c, page).Some?
    ensures GoodPages(c.id, c.pages + [Numbered(c.pages, page)])
    ensures var added := Numbered(c.pages, page);
      added.id == page.id && added.root == page.root && added.name == page.name
  {
    hide GoodPages;
  }

  lemma NumberedAt(ps: seq<ContainerPage>, page: ContainerPage)
    requires |ps| < 0x7FFF_FFFF
    ensures PageAt(ps, ps + [Numbered(ps, page)], page, |ps|)
  {
    PageNumberAssigned(ps, page);
    NumbersMeaning(ps);
    hide Numbered, Numbers;
    assert ps + [Numbered(ps, page)] == ps[..|ps|] + [Numbered(ps, page)] + ps[|ps|..];
  }

  lemma NumbersMeaning(ps: seq<ContainerPage>)
    ensures forall n :: n in Numbers(ps) <==> exists p :: p in ps && p.number == n
  {
  }

  lemma AcceptableMeaning(c: Container, page: ContainerPage)
    ensures Acceptable(c, page) <==>
      && ValidName(page.name) && page.id != "" && page.id !in Ids(page.root) && WellFormed(page.root)
      && PageIds(page) !! IdsOf(c.pages) + {c.id} && Windows(page.root) !! WindowsOf(c.pages)
  {
    if WellFormed(page.root) {
      LeafIdentities(page.root, "");
    }
    hide ValidName, WellFormed, Ids, Windows, IdsOf, WindowsOf;
  }

  lemma AddedApart(c: Container, added: ContainerPage)
    requires GoodPages(c.id, c.pages + [added])
    ensures PageWellFormed(added) && PageIds(added) !! IdsOf(c.pages) + {c.id}
    ensures Windows(added.root) !! WindowsOf(c.pages)
  {
    AppendPage(c.id, c.pages, added);
  }

  // The page found leaves its place and stands at the index; the others keep their order.
  ghost predicate Reordered(ps: seq<ContainerPage>, qs: seq<ContainerPage>, pageId: string, d: int) {
    exists i: nat :: i < |ps| && ps[i].id == pageId && 0 <= d < |ps| && i != d &&
      var rest := ps[..i] + ps[i + 1..]; qs == rest[..d] + [ps[i]] + rest[d..]
  }

  lemma MovePageMeaning(c: Container, pageId: string, d: int)
    ensures MovePage(c, pageId, d).Some? <==>
      ValidContainer(c) && HasPage(c.pages, pageId) && 0 <= d < |c.pages| && c.pages[d].id != pageId
    ensures MovePage(c, pageId, d).Some? ==>
      var c' := MovePage(c, pageId, d).value;
      c' == c.(pages := c'.pages) && Reordered(c.pages, c'.pages, pageId, d)
  {
    PageIndexMeaning(c.pages, pageId);
    if ValidContainer(c) && HasPage(c.pages, pageId) && 0 <= d < |c.pages| {
      var i := PageIndex(c.pages, pageId).value;
      if i != d {
        Strangers(c.id, c.pages, i, d);
      }
    }
    hide ValidContainer, HasPage;
  }

  lemma {:induction false} SetNodeRatioExact(t: LayoutNode, splitId: string, ratio: real) returns (path: seq<Position>)
    requires SetNodeRatio(t, splitId, ratio).Some?
    ensures At(t, path).Some? && At(t, path).value.Split? && At(t, path).value.id == splitId
    ensures SetNodeRatio(t, splitId, ratio) == Some(Graft(t, path, At(t, path).value.(ratio := ratio)))
  {
    path := [];
    if t.id != splitId {
      if SetNodeRatio(t.first, splitId, ratio).Some? {
        var deeper := SetNodeRatioExact(t.first, splitId, ratio);
        path := [First] + deeper;
      } else {
        var deeper := SetNodeRatioExact(t.second, splitId, ratio);
        path := [Second] + deeper;
      }
    }
  }

  // One split of one page has the ratio, and nothing else has changed.
  ghost predicate Resized(c: Container, c': Container, splitId: string, ratio: real) {
    exists i: nat, path, node :: i < |c.pages| && At(c.pages[i].root, path) == Some(node) && node.Split? &&
      node.id == splitId && c' == Patched(c, i, path, node.(ratio := ratio))
  }

  lemma SetSplitRatioMeaning(c: Container, splitId: string, ratio: real)
    ensures SetSplitRatio(c, splitId, ratio).Some? <==>
      && ValidContainer(c) && 0.0 < ratio < 1.0
      && FindContainerNode(c.pages, splitId).Some? && FindContainerNode(c.pages, splitId).value.Split?
    ensures SetSplitRatio(c, splitId, ratio).Some? ==>
      Resized(c, SetSplitRatio(c, splitId, ratio).value, splitId, ratio)
  {
    hide WellFormed, Graft, SetNodeRatio;
    if ValidContainer(c) && 0.0 < ratio < 1.0 {
      SetSplitRatioEffect(c, splitId, ratio);
      if SetSplitRatio(c, splitId, ratio).Some? {
        var i := NodePage(c.pages, splitId).value;
        var path := SetNodeRatioExact(c.pages[i].root, splitId, ratio);
        WithRootPatches(c, i, path, At(c.pages[i].root, path).value.(ratio := ratio));
      }
    }
    hide ValidContainer, WithRoot, Patched, FindNode;
  }

  lemma {:induction false} ReplaceWindowIdExact(t: LayoutNode, outgoing: string, incoming: string)
    returns (path: seq<Position>, leafId: string)
    requires ReplaceWindowId(t, outgoing, incoming).Some?
    ensures At(t, path) == Some(Leaf(leafId, outgoing))
    ensures ReplaceWindowId(t, outgoing, incoming) == Some(Graft(t, path, Leaf(leafId, incoming)))
  {
    path, leafId := [], t.id;
    if t.Split? {
      if ReplaceWindowId(t.first, outgoing, incoming).Some? {
        var deeper, id := ReplaceWindowIdExact(t.first, outgoing, incoming);
        path, leafId := [First] + deeper, id;
      } else {
        var deeper, id := ReplaceWindowIdExact(t.second, outgoing, incoming);
        path, leafId := [Second] + deeper, id;
      }
    }
  }

  // One leaf shows the other window, and nothing else has changed.
  ghost predicate Replaced(c: Container, c': Container, outgoing: string, incoming: string) {
    exists i: nat, path, leafId :: i < |c.pages| && At(c.pages[i].root, path) == Some(Leaf(leafId, outgoing)) &&
      c' == Patched(c, i, path, Leaf(leafId, incoming))
  }

  lemma ReplaceWindowMeaning(c: Container, outgoing: string, incoming: string)
    requires ValidContainer(c)
    ensures ReplaceWindow(c, outgoing, incoming).Some? <==>
      && incoming != "" && outgoing in WindowsOf(c.pages) && incoming !in WindowsOf(c.pages)
    ensures ReplaceWindow(c, outgoing, incoming).Some? ==>
      Replaced(c, ReplaceWindow(c, outgoing, incoming).value, outgoing, incoming)
  {
    NoEmptyWindow(c.id, c.pages);
    WindowPageMeaning(c.pages, outgoing);
    if ReplaceWindow(c, outgoing, incoming).Some? {
      var i := WindowPage(c.pages, outgoing).value;
      ReplacesOnePage(c, outgoing, incoming, i);
      var path, leafId := ReplaceWindowIdExact(c.pages[i].root, outgoing, incoming);
      WithRootPatches(c, i, path, Leaf(leafId, incoming));
    }
    hide ValidContainer, Graft, ReplaceWindowId, WithRoot, Patched;
  }

  // The same tree, but that the two windows have traded leaves.
  ghost predicate Traded(t: LayoutNode, t': LayoutNode, a: string, b: string) {
    match t
    case Leaf(id, w) => t' == Leaf(id, if w == a then b else if w == b then a else w)
    case Split(id, o, r, first, second) =>
      && t'.Split? && t'.id == id && t'.orientation == o && t'.ratio == r
      && Traded(first, t'.first, a, b) && Traded(second, t'.second, a, b)
  }

  lemma {:induction false} RelabelTrades(t: LayoutNode, a: string, b: string)
    ensures Traded(t, Relabel(t, a, b), a, b)
  {
    if t.Split? {
      RelabelTrades(t.first, a, b);
      RelabelTrades(t.second, a, b);
    }
  }

  lemma SwapWindowsMeaning(c: Container, a: string, b: string)
    ensures SwapWindows(c, a, b).Some? <==>
      ValidContainer(c) && a != b && a in WindowsOf(c.pages) && b in WindowsOf(c.pages)
    ensures SwapWindows(c, a, b).Some? ==>
      var c' := SwapWindows(c, a, b).value;
      && c' == c.(pages := c'.pages) && |c'.pages| == |c.pages|
      && forall i :: 0 <= i < |c.pages| ==>
           && c'.pages[i] == c.pages[i].(root := c'.pages[i].root)
           && Traded(c.pages[i].root, c'.pages[i].root, a, b)
  {
    hide ValidContainer, WindowsOf, Traded;
    forall i | 0 <= i < |c.pages| ensures Traded(c.pages[i].root, Relabel(c.pages[i].root, a, b), a, b) {
      RelabelTrades(c.pages[i].root, a, b);
    }
  }
}
