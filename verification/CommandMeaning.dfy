// What each of the twenty-three commands accepts, and exactly which topology it then makes: told
// from pages, paths and fields, without the functions that compute it.

module CommandMeaning {
  import opened Basics
  import opened Layout
  import opened LayoutEdits
  import opened Names
  import opened Containers
  import opened ContainerProofs
  import opened ContainerMeaning
  import opened Topologies
  import opened TopologyProofs
  import opened WindowTopologyObject
  import opened NoOpPlacement
  import opened CommandEffects

  // -------------------------------------------------------- inside one container

  // The page a command makes for one window.
  function Single(pageId: string, leafId: string, w: string): ContainerPage {
    ContainerPage(pageId, Leaf(leafId, w), "", 0)
  }

  // Some page shows the window alone and has this ID.
  predicate OnlyOn(c: Container, w: string, pageId: string) {
    exists i :: 0 <= i < |c.pages| && c.pages[i].id == pageId && c.pages[i].root.Leaf? && c.pages[i].root.windowId == w
  }

  ghost predicate NodeKnown(c: Container, id: string) {
    exists i :: 0 <= i < |c.pages| && id in Ids(c.pages[i].root)
  }

  ghost predicate WithinAccepts(c: Container, command: Command)
    requires Within(command) && ValidContainer(c)
  {
    match command
    case MoveMemberToPage(_, w, newPageId, targetPageId, _) => ExtractAccepts(c, w, newPageId, targetPageId)
    case ReorderPage(_, pageId, index) =>
      HasPage(c.pages, pageId) && 0 <= index < |c.pages| && c.pages[index].id != pageId
    case ActivateContainerPage(_, pageId) => HasPage(c.pages, pageId) && c.activePageId != pageId
    case RenameContainerPage(_, pageId, name) => HasPage(c.pages, pageId) && ValidName(Trimmed(name))
    case ResizeSplit(_, splitId, ratio) =>
      && 0.0 < ratio < 1.0 && FindContainerNode(c.pages, splitId).Some?
      && var node := FindContainerNode(c.pages, splitId).value; node.Split? && node.ratio != ratio
    case ReorderMembers(_, a, b) => a != b && a in WindowsOf(c.pages) && b in WindowsOf(c.pages)
    case ReparentMember(_, w, target, splitId, o, r, p) => ReparentAccepts(c, w, target, splitId, o, r, p)
    case ReparentMemberToPageRoot(_, w, pageId, splitId, o, r, p) => RootAccepts(c, w, pageId, splitId, o, r, p)
  }

  ghost predicate ExtractAccepts(c: Container, w: string, newPageId: string, targetPageId: string) {
    && w in WindowsOf(c.pages) && HasPage(c.pages, targetPageId) && !OnlyOn(c, w, targetPageId)
    && var d := DetachWindow(c, w);
       d.Some? && Acceptable(d.value.rest, Single(newPageId, d.value.leafNodeId, w))
  }

  ghost predicate ReparentAccepts(c: Container, w: string, target: string, splitId: string, o: Orientation, r: real,
                                  p: Position)
  {
    && w != target && w in WindowsOf(c.pages) && target in WindowsOf(c.pages)
    && 0.0 < r < 1.0 && !NodeKnown(c, splitId)
    && (forall q :: q in c.pages ==> !HasPair(q.root, w, target, o, r, p))
    && var d := DetachWindow(c, w); d.Some? && Unused(d.value.rest, splitId)
  }

  ghost predicate RootAccepts(c: Container, w: string, pageId: string, splitId: string, o: Orientation, r: real,
                              p: Position)
  {
    && w in WindowsOf(c.pages) && HasPage(c.pages, pageId) && !OnlyOn(c, w, pageId)
    && 0.0 < r < 1.0 && !NodeKnown(c, splitId)
    && (forall q :: q in c.pages && q.id == pageId ==> !RootPair(q.root, w, o, r, p))
    && var d := DetachWindow(c, w); d.Some? && Unused(d.value.rest, splitId)
  }

  // The window already is the child asked for of a root split of this orientation and ratio.
  predicate RootPair(root: LayoutNode, w: string, o: Orientation, r: real, p: Position) {
    && root.Split? && root.orientation == o && root.ratio == r
    && match p
       case First => root.first.Leaf? && root.first.windowId == w
       case Second => root.second.Leaf? && root.second.windowId == w
  }

  ghost predicate WithinMakes(c: Container, c': Container, command: Command)
    requires Within(command)
  {
    match command
    case MoveMemberToPage(_, w, newPageId, targetPageId, activate) =>
      ExtractMakes(c, c', w, newPageId, targetPageId, activate)
    case ReorderPage(_, pageId, index) => c' == c.(pages := c'.pages) && Reordered(c.pages, c'.pages, pageId, index)
    case ActivateContainerPage(_, pageId) => c' == c.(activePageId := pageId)
    case RenameContainerPage(_, pageId, name) =>
      exists i: nat :: i < |c.pages| && c.pages[i].id == pageId &&
        c' == c.(pages := c.pages[i := c.pages[i].(name := Trimmed(name))])
    case ResizeSplit(_, splitId, ratio) => Resized(c, c', splitId, ratio)
    case ReorderMembers(_, a, b) =>
      && c' == c.(pages := c'.pages) && |c'.pages| == |c.pages|
      && forall i :: 0 <= i < |c.pages| ==>
           c'.pages[i] == c.pages[i].(root := c'.pages[i].root) && Traded(c.pages[i].root, c'.pages[i].root, a, b)
    case ReparentMember(_, w, target, splitId, o, r, p) => ReparentMakes(c, c', w, target, splitId, o, r, p)
    case ReparentMemberToPageRoot(_, w, pageId, splitId, o, r, p) => RootMakes(c, c', w, pageId, splitId, o, r, p)
  }

  // The member leaves its leaf, takes it along, and has a page of its own right after the target.
  ghost predicate ExtractMakes(c: Container, c': Container, w: string, newPageId: string, targetPageId: string,
                               activate: bool)
  {
    exists rest, leafId, i: nat :: TakenOut(c, rest, leafId, w) && Follows(rest, c', targetPageId,
      Single(newPageId, leafId, w), i) && c'.activePageId == if activate then newPageId else rest.activePageId
  }

  ghost predicate Follows(rest: Container, c': Container, targetPageId: string, page: ContainerPage, i: nat) {
    && i < |rest.pages| && rest.pages[i].id == targetPageId && c'.id == rest.id
    && PageAt(rest.pages, c'.pages, page, i + 1)
  }

  // The member leaves its leaf, takes it along, and shares a new split with the target, which is
  // more than a new name for an old split.
  ghost predicate ReparentMakes(c: Container, c': Container, w: string, target: string, splitId: string, o: Orientation,
                                r: real, p: Position)
  {
    && !SameUpToSplitName(c, c', splitId)
    && exists rest, leafId :: TakenOut(c, rest, leafId, w) && SplitBeside(rest, c', target, leafId, w, splitId, o, r, p)
  }

  ghost predicate RootMakes(c: Container, c': Container, w: string, pageId: string, splitId: string, o: Orientation,
                            r: real, p: Position)
  {
    && !SameUpToSplitName(c, c', splitId)
    && exists rest, leafId :: TakenOut(c, rest, leafId, w) && SplitAtRoot(rest, c', pageId, leafId, w, splitId, o, r, p)
  }

  lemma OtherId(c: Container, i: nat, k: nat)
    requires ValidContainer(c) && i < |c.pages| && k < |c.pages| && i != k
    ensures c.pages[i].id != c.pages[k].id
  {
    Strangers(c.id, c.pages, i, k);
  }

  // Where a page appended as the last one comes to stand when it is moved.
  lemma ShiftedPage(ps: seq<ContainerPage>, added: seq<ContainerPage>, qs: seq<ContainerPage>, page: ContainerPage,
                    index: nat)
    requires PageAt(ps, added, page, |ps|) && index <= |ps| && qs == ps[..index] + [added[|ps|]] + ps[index..]
    ensures PageAt(ps, qs, page, index)
  {
    assert qs[index] == added[|ps|];
  }

  lemma PageInsertedMeaning(c: Container, page: ContainerPage, index: nat, activate: bool)
    requires ValidContainer(c) && Roomy(c) && index <= |c.pages|
    ensures PageInserted(c, page, index, activate).Some? <==> Acceptable(c, page)
    ensures PageInserted(c, page, index, activate).Some? ==>
      var c' := PageInserted(c, page, index, activate).value;
      && c'.id == c.id && PageAt(c.pages, c'.pages, page, index)
      && c'.activePageId == (if activate || c.pages == [] then page.id else c.activePageId)
  {
    NonEmptyId(c);
    hide ValidContainer, AddPage, MovePage, Acceptable, Numbered, PageAt;
    AddPageMeaning(c, page);
    if AddPage(c, page).Some? {
      InsertedAt(c, page, index);
      var added := AddPage(c, page).value;
      AddPageEffect(c, page);
      var moved := if index == |c.pages| then added else MovePage(added, page.id, index).value;
      ActivatePageMeaning(moved, page.id);
    }
  }

  lemma NonEmptyId(c: Container)
    requires ValidContainer(c)
    ensures c.id != ""
  {
  }

  // An appended page can be moved anywhere before its place.
  lemma InsertedAt(c: Container, page: ContainerPage, index: nat)
    requires ValidContainer(c) && Roomy(c) && index <= |c.pages| && AddPage(c, page).Some?
    ensures var added := AddPage(c, page).value;
      && |added.pages| == |c.pages| + 1
      && (index != |c.pages| ==> MovePage(added, page.id, index).Some?)
      && var moved := if index == |c.pages| then added else MovePage(added, page.id, index).value;
         && ValidContainer(moved) && moved.id == c.id && PageAt(c.pages, moved.pages, page, index)
         && HasPage(moved.pages, page.id)
         && moved.activePageId == (if c.pages == [] then page.id else c.activePageId)
  {
    NonEmptyId(c);
    hide ValidContainer, AddPage, MovePage, Numbered, PageAt;
    AddPageMeaning(c, page);
    AddPageEffect(c, page);
    var added := AddPage(c, page).value;
    AddedLast(c.pages, added.pages, page);
    if index != |c.pages| {
      OtherId(added, index, |c.pages|);
      MovePageMeaning(added, page.id, index);
      MovePageEffect(added, page.id, index);
    }
    InsertedPage(c, page, index);
    var moved := if index == |c.pages| then added else MovePage(added, page.id, index).value;
    ShiftedPage(c.pages, added.pages, moved.pages, page, index);
    StandsAt(c.pages, moved.pages, page, index);
  }

  lemma AddedLast(ps: seq<ContainerPage>, qs: seq<ContainerPage>, page: ContainerPage)
    requires PageAt(ps, qs, page, |ps|)
    ensures |qs| == |ps| + 1 && qs[|ps|].id == page.id && HasPage(qs, page.id) && qs == ps + [qs[|ps|]]
  {
    assert qs[|ps|] in qs;
  }

  lemma StandsAt(ps: seq<ContainerPage>, qs: seq<ContainerPage>, page: ContainerPage, index: nat)
    requires PageAt(ps, qs, page, index)
    ensures HasPage(qs, page.id)
  {
    assert qs[index] in qs;
  }

  // ---------------------------------------------------------------- reparenting

  lemma NodeFound(c: Container, id: string)
    ensures FindContainerNode(c.pages, id).Some? <==> NodeKnown(c, id)
    ensures FindContainerNode(c.pages, id).Some? ==> FindContainerNode(c.pages, id).value.id == id
  {
    if i :| 0 <= i < |c.pages| && id in Ids(c.pages[i].root) {
      assert c.pages[i] in c.pages;
    }
    var k := NodePage(c.pages, id);
    if k.Some? {
      FindNodeFinds(c.pages[k.value].root, id);
    }
  }

  // The leaf a member leaves behind is a node of the container and free in what is left.
  lemma LeftLeaf(c: Container, w: string)
    requires DetachWindow(c, w).Some?
    ensures var d := DetachWindow(c, w).value;
      && NodeKnown(c, d.leafNodeId) && Unused(d.rest, d.leafNodeId) && w !in WindowsOf(d.rest.pages) && w != ""
      && ValidContainer(d.rest) && d.rest.id == c.id && WindowsOf(d.rest.pages) == WindowsOf(c.pages) - {w}
  {
    DetachWindowEffect(c, w);
    var leafId := DetachWindow(c, w).value.leafNodeId;
    var p :| p in c.pages && (w, leafId) in Handles(p.root);
    var i :| 0 <= i < |c.pages| && c.pages[i] == p;
    LeafIdentities(p.root, w);
  }

  lemma PairChecked(c: Container, w: string, target: string, o: Orientation, r: real, p: Position)
    requires ValidContainer(c) && w != target
    ensures (forall q :: q in c.pages ==> !IsDirectSiblingNoOp(q.root, w, target, o, r, p)) <==>
              forall q :: q in c.pages ==> !HasPair(q.root, w, target, o, r, p)
  {
    forall q | q in c.pages
      ensures IsDirectSiblingNoOp(q.root, w, target, o, r, p) <==> HasPair(q.root, w, target, o, r, p)
    {
      CheckFindsPair(q.root, w, target, o, r, p);
    }
  }

  // A member is reparented beside a target exactly when both are members, the new split's ID and
  // ratio are good, and it does not already stand so.
  lemma ReparentedMeaning(c: Container, w: string, target: string, s: string, o: Orientation, r: real, p: Position)
    requires ValidContainer(c)
    ensures Reparented(c, w, target, s, o, r, p).Some? <==> ReparentAccepts(c, w, target, s, o, r, p)
    ensures Reparented(c, w, target, s, o, r, p).Some? ==>
      ReparentMakes(c, Reparented(c, w, target, s, o, r, p).value, w, target, s, o, r, p)
  {
    hide ValidContainer, WindowsOf, FindContainerNode, IsDirectSiblingNoOp, HasPair, TakenOut, SplitBeside,
         DetachWindow, SplitWindow, Unused, NodeKnown, SameUpToSplitName;
    NodeFound(c, s);
    DetachWindowMeaning(c, w);
    if w != target && w in WindowsOf(c.pages) && target in WindowsOf(c.pages) {
      PairChecked(c, w, target, o, r, p);
      LeftLeaf(c, w);
      var d := DetachWindow(c, w).value;
      SplitWindowMeaning(d.rest, SplitRequest(target, w, d.leafNodeId, s, o, r, p));
      if Reparented(c, w, target, s, o, r, p).Some? {
        ReparentNoOpIff(c, w, target, s, o, r, p);
      }
    }
  }

  lemma PageUnique(c: Container, pageId: string, i: nat)
    requires ValidContainer(c) && PageIndex(c.pages, pageId) == Some(i)
    ensures forall k :: 0 <= k < |c.pages| && c.pages[k].id == pageId ==> k == i
    ensures forall q :: q in c.pages && q.id == pageId ==> q == c.pages[i]
  {
    forall k | 0 <= k < |c.pages| && c.pages[k].id == pageId ensures k == i {
      if k != i {
        OtherId(c, i, k);
      }
    }
  }

  // The same at a page's root.
  lemma ReparentedToRootMeaning(c: Container, w: string, pageId: string, s: string, o: Orientation, r: real,
                                p: Position)
    requires ValidContainer(c)
    ensures ReparentedToRoot(c, w, pageId, s, o, r, p).Some? <==> RootAccepts(c, w, pageId, s, o, r, p)
    ensures ReparentedToRoot(c, w, pageId, s, o, r, p).Some? ==>
      RootMakes(c, ReparentedToRoot(c, w, pageId, s, o, r, p).value, w, pageId, s, o, r, p)
  {
    hide ValidContainer, WindowsOf, FindContainerNode, TakenOut, SplitAtRoot, DetachWindow, SplitPage, Unused,
         NodeKnown, SameUpToSplitName, PageIndex, HasPage, IsRootSiblingNoOp, RootPair, OnlyOn, IsLeafWindow;
    NodeFound(c, s);
    DetachWindowMeaning(c, w);
    PageIndexMeaning(c.pages, pageId);
    var k := PageIndex(c.pages, pageId);
    if k.Some? && w in WindowsOf(c.pages) {
      RootChecked(c, w, pageId, o, r, p, k.value);
      LeftLeaf(c, w);
      var d := DetachWindow(c, w).value;
      if !OnlyOn(c, w, pageId) {
        PageStays(c, w, pageId, k.value);
      }
      SplitPageMeaning(d.rest, PageSplitRequest(pageId, w, d.leafNodeId, s, o, r, p));
      if ReparentedToRoot(c, w, pageId, s, o, r, p).Some? {
        ReparentToRootNoOpIff(c, w, pageId, s, o, r, p, k.value);
      }
    }
  }

  lemma RootChecked(c: Container, w: string, pageId: string, o: Orientation, r: real, p: Position, i: nat)
    requires ValidContainer(c) && PageIndex(c.pages, pageId) == Some(i)
    ensures IsLeafWindow(c.pages[i].root, w) <==> OnlyOn(c, w, pageId)
    ensures IsRootSiblingNoOp(c.pages[i].root, w, o, r, p) <==>
              exists q :: q in c.pages && q.id == pageId && RootPair(q.root, w, o, r, p)
  {
    PageUnique(c, pageId, i);
    assert c.pages[i] in c.pages;
    hide ValidContainer;
  }

  lemma PageStays(c: Container, w: string, pageId: string, i: nat)
    requires DetachWindow(c, w).Some? && PageIndex(c.pages, pageId) == Some(i) && !OnlyOn(c, w, pageId)
    ensures HasPage(DetachWindow(c, w).value.rest.pages, pageId)
  {
    PageSurvives(c, w, i);
  }

  // A member gets a page of its own exactly when it is one, the target page exists and is not the
  // one it would leave empty, and the new page is acceptable.
  lemma ExtractedMeaning(c: Container, w: string, newPageId: string, targetPageId: string, activate: bool)
    requires ValidContainer(c) && Roomy(c)
    ensures ExtractedToPage(c, w, newPageId, targetPageId, activate).Some? <==>
              ExtractAccepts(c, w, newPageId, targetPageId)
    ensures ExtractedToPage(c, w, newPageId, targetPageId, activate).Some? ==>
      ExtractMakes(c, ExtractedToPage(c, w, newPageId, targetPageId, activate).value, w, newPageId, targetPageId,
      activate)
  {
    hide ValidContainer, WindowsOf, TakenOut, DetachWindow, PageInserted, Acceptable, HasPage, OnlyOn, PageAt;
    DetachWindowMeaning(c, w);
    WindowPageMeaning(c.pages, w);
    PageIndexMeaning(c.pages, targetPageId);
    if w in WindowsOf(c.pages) && HasPage(c.pages, targetPageId) {
      var i := PageIndex(c.pages, targetPageId).value;
      OnlyPageChecked(c, w, targetPageId);
      LeftLeaf(c, w);
      var d := DetachWindow(c, w).value;
      RoomLeft(c, w);
      if !OnlyOn(c, w, targetPageId) {
        PageStays(c, w, targetPageId, i);
        PageIndexMeaning(d.rest.pages, targetPageId);
        var k := PageIndex(d.rest.pages, targetPageId).value;
        PageInsertedMeaning(d.rest, Single(newPageId, d.leafNodeId, w), k + 1, activate);
        if ExtractedToPage(c, w, newPageId, targetPageId, activate).Some? {
          assert Follows(d.rest, ExtractedToPage(c, w, newPageId, targetPageId, activate).value, targetPageId,
                         Single(newPageId, d.leafNodeId, w), k);
        }
      }
    }
  }

  lemma OnlyPageChecked(c: Container, w: string, pageId: string)
    requires ValidContainer(c) && WindowPage(c.pages, w).Some?
    ensures var s := WindowPage(c.pages, w).value;
      OnlyOn(c, w, pageId) <==> c.pages[s].id == pageId && c.pages[s].root.Leaf?
  {
    var s := WindowPage(c.pages, w).value;
    if i :| 0 <= i < |c.pages| && c.pages[i].id == pageId && c.pages[i].root.Leaf? && c.pages[i].root.windowId == w {
      if i != s {
        Strangers(c.id, c.pages, i, s);
      }
    }
  }

  lemma RoomLeft(c: Container, w: string)
    requires DetachWindow(c, w).Some? && Roomy(c)
    ensures Roomy(DetachWindow(c, w).value.rest)
  {
  }

  // ------------------------------------------------------------ all eight at once

  lemma WithinMeaning(c: Container, command: Command)
    requires Within(command) && ValidContainer(c) && Roomy(c)
    ensures WithinContainer(c, command).Some? <==> WithinAccepts(c, command)
    ensures WithinContainer(c, command).Some? ==> WithinMakes(c, WithinContainer(c, command).value, command)
  {
    hide ValidContainer, WindowsOf, ExtractedToPage, MovePage, ActivatePage, RenamePage, SetSplitRatio, SwapWindows,
         Reparented, ReparentedToRoot, FindContainerNode, ExtractAccepts, ExtractMakes, ReparentAccepts, ReparentMakes,
         RootAccepts, RootMakes, Reordered, Resized, Traded, ValidName, Trimmed;
    match command {
      case MoveMemberToPage(_, w, newPageId, targetPageId, activate) =>
        ExtractedMeaning(c, w, newPageId, targetPageId, activate);
      case ReorderPage(_, pageId, index) => MovePageMeaning(c, pageId, index);
      case ActivateContainerPage(_, pageId) => ActivatePageMeaning(c, pageId);
      case RenameContainerPage(_, pageId, name) => RenamePageMeaning(c, pageId, name);
      case ResizeSplit(_, splitId, ratio) => SetSplitRatioMeaning(c, splitId, ratio);
      case ReorderMembers(_, a, b) => SwapWindowsMeaning(c, a, b);
      case ReparentMember(_, w, target, splitId, o, r, p) => ReparentedMeaning(c, w, target, splitId, o, r, p);
      case ReparentMemberToPageRoot(_, w, pageId, splitId, o, r, p) =>
        ReparentedToRootMeaning(c, w, pageId, splitId, o, r, p);
    }
  }
}
