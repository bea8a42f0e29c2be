// The container object: src/core/windowcontainer.cpp step by step, each method proved to
// compute the operation of the same name in Containers and to leave the container untouched
// when it reports failure.

module WindowContainerObject {
  import opened Basics
  import opened Layout
  import opened LayoutEdits
  import opened Names
  import opened Containers
  import opened ContainerProofs

  // A mutator either performs the operation or reports failure and changes nothing.
  ghost predicate Outcome(ok: bool, before: Container, after: Container, operation: Option<Container>) {
    if ok then operation == Some(after) else operation.None? && after == before
  }

  // What the source holds as a pointer to a leaf.
  datatype LeafRef = LeafRef(page: nat, path: seq<Position>)

  class WindowContainer {
    var id: string
    var pages: seq<ContainerPage>
    var activePageId: string

    function Value(): Container
      reads this
    {
      Container(id, pages, activePageId)
    }

    constructor (containerId: string)
      ensures Value() == Container(containerId, [], "")
    {
      id, pages, activePageId := containerId, [], "";
    }

    constructor CopyOf(c: Container)
      ensures Value() == c
    {
      id, pages, activePageId := c.id, c.pages, c.activePageId;
    }

    // ---------------------------------------------------------------- lookups

    method FindPage(pageId: string) returns (r: Option<nat>)
      ensures r == PageIndex(pages, pageId)
      ensures r.Some? <==> HasPage(pages, pageId)
    {
      var i := 0;
      while i < |pages|
        invariant 0 <= i <= |pages|
        invariant forall k :: 0 <= k < i ==> pages[k].id != pageId
      {
        if pages[i].id == pageId {
          FirstPage(pages, pageId, i);
          assert pages[i] in pages;
          return Some(i);
        }
        i := i + 1;
      }
      return None;
    }

    method FindWindow(windowId: string) returns (r: Option<LayoutNode>)
      ensures r.Some? <==> windowId in WindowsOf(pages)
    {
      var i := 0;
      while i < |pages|
        invariant 0 <= i <= |pages|
        invariant forall k :: 0 <= k < i ==> windowId !in Windows(pages[k].root)
      {
        FindWindowFinds(pages[i].root, windowId);
        r := Layout.FindWindow(pages[i].root, windowId);
        if r.Some? {
          Belongs(pages, pages[i]);
          return;
        }
        i := i + 1;
      }
      r := None;
    }

    // The first page that shows a window.
    method FindWindowPage(windowId: string) returns (r: Option<nat>)
      ensures r == WindowPage(pages, windowId)
    {
      var i := 0;
      while i < |pages|
        invariant 0 <= i <= |pages|
        invariant forall k :: 0 <= k < i ==> windowId !in Windows(pages[k].root)
      {
        FindWindowFinds(pages[i].root, windowId);
        var leaf := Layout.FindWindow(pages[i].root, windowId);
        if leaf.Some? {
          FirstWindowPage(pages, windowId, i);
          return Some(i);
        }
        i := i + 1;
      }
      return None;
    }

    method FindNode(nodeId: string) returns (r: Option<LayoutNode>)
      ensures r == FindContainerNode(pages, nodeId)
      ensures r.Some? <==> exists p :: p in pages && nodeId in Ids(p.root)
    {
      var i := 0;
      while i < |pages|
        invariant 0 <= i <= |pages|
        invariant forall k :: 0 <= k < i ==> nodeId !in Ids(pages[k].root)
      {
        FindNodeFinds(pages[i].root, nodeId);
        r := Layout.FindNode(pages[i].root, nodeId);
        if r.Some? {
          assert pages[i] in pages;
          return;
        }
        i := i + 1;
      }
      r := None;
    }

    method ContainsStructuralId(x: string) returns (r: bool)
      ensures r <==> x == id || x in IdsOf(pages)
    {
      if id == x {
        return true;
      }
      var page := FindPage(x);
      if page.Some? {
        assert pages[page.value] in pages && x in PageIds(pages[page.value]);
        return true;
      }
      var node := FindNode(x);
      assert forall p :: p in pages ==> PageIds(p) == {p.id} + Ids(p.root);
      assert (exists p :: p in pages && x in Ids(p.root)) ==> x in IdsOf(pages);
      return node.Some?;
    }

    // The validator accumulates the identities of the pages it has accepted.
    method Validate() returns (valid: bool)
      ensures valid <==> ValidContainer(Value())
    {
      hide GoodPages, IdsOf, WindowsOf, Numbers, WellFormed, Ids, Windows;
      if id == "" {
        return false;
      }
      var structuralIds, windowIds, pageNumbers := {id}, {}, {};
      var i := 0;
      NoPages(id, pages);
      while i < |pages|
        invariant 0 <= i <= |pages|
        invariant GoodPages(id, pages[..i])
        invariant structuralIds == {id} + IdsOf(pages[..i])
        invariant windowIds == WindowsOf(pages[..i])
        invariant pageNumbers == Numbers(pages[..i])
      {
        var candidate := pages[i];
        NextPage(id, pages, i);
        PrefixGood(id, pages, i + 1);
        if candidate.number <= 0 || candidate.number in pageNumbers || !ValidName(candidate.name) {
          return false;
        }
        pageNumbers := pageNumbers + {candidate.number};
        if candidate.id == "" || candidate.id in structuralIds {
          return false;
        }
        structuralIds := structuralIds + {candidate.id};
        ValidateDecides(candidate.root, structuralIds, windowIds);
        var scan := Layout.Validate(candidate.root, structuralIds, windowIds);
        if !scan.valid {
          return false;
        }
        structuralIds, windowIds := scan.structuralIds, scan.windowIds;
        i := i + 1;
      }
      assert pages[..|pages|] == pages;
      if pages == [] {
        return activePageId == "";
      }
      var active := FindPage(activePageId);
      NamedPages(id, pages);
      return activePageId != "" && active.Some?;
    }

    // --------------------------------------------------------------- mutators

    // Where the source asserts that an accepted change leaves a valid container, so do the contracts.

    // The number given to a page that has none of its own.
    method NextNumber(numbers: set<int32>) returns (next: int32)
      ensures next == FreshNumber(numbers)
    {
      next := 1;
      var rest := numbers;
      while rest != {}
        invariant rest <= numbers
        invariant next > 0 && IsTop(numbers - rest, next - 1)
        decreases |rest|
      {
        var number :| number in rest;
        if number >= next && number < 0x7FFF_FFFF {
          next := number + 1;
        }
        assert forall x :: x in numbers - (rest - {number}) ==> x == number || x in numbers - rest;
        rest := rest - {number};
      }
      assert numbers - {} == numbers;
      TopUnique(numbers, next - 1);
      while next in numbers && next > 0
        invariant next >= 0
        invariant HighestFree(numbers, next) == FreshNumber(numbers)
        decreases next
      {
        next := next - 1;
      }
    }

    method AddPage(pageToAdd: ContainerPage) returns (ok: bool)
      modifies this
      ensures id == old(id)
      ensures Outcome(ok, old(Value()), Value(), Containers.AddPage(old(Value()), pageToAdd))
    {
      var candidate := new WindowContainer.CopyOf(Value());
      var numbers := {};
      var i := 0;
      while i < |pages|
        invariant 0 <= i <= |pages|
        invariant numbers == Numbers(pages[..i])
        invariant Value() == old(Value()) && candidate.Value() == old(Value())
      {
        assert pages[..i + 1] == pages[..i] + [pages[i]];
        numbers := numbers + {pages[i].number};
        i := i + 1;
      }
      assert pages[..|pages|] == pages;
      var page := pageToAdd;
      if page.number <= 0 || page.number in numbers {
        var next := NextNumber(numbers);
        page := page.(number := next);
      }
      assert page == Numbered(pages, pageToAdd);
      candidate.pages := candidate.pages + [page];
      if |candidate.pages| == 1 {
        candidate.activePageId := candidate.pages[0].id;
      }
      ok := candidate.Validate();
      if ok {
        pages, activePageId := candidate.pages, candidate.activePageId;
      }
    }

    method ActivatePage(pageId: string) returns (ok: bool)
      modifies this
      ensures id == old(id)
      ensures Outcome(ok, old(Value()), Value(), Containers.ActivatePage(old(Value()), pageId))
    {
      var valid := Validate();
      if !valid {
        return false;
      }
      var page := FindPage(pageId);
      if page.None? {
        return false;
      }
      activePageId := pageId;
      return true;
    }

    method MovePage(pageId: string, destinationIndex: int) returns (ok: bool)
      modifies this
      ensures id == old(id)
      ensures Outcome(ok, old(Value()), Value(), Containers.MovePage(old(Value()), pageId, destinationIndex))
      ensures ok ==> ValidContainer(Value())
    {
      var valid := Validate();
      if !valid {
        return false;
      }
      if destinationIndex < 0 || destinationIndex >= |pages| {
        return false;
      }
      var sourceIndex := FindPage(pageId);
      if sourceIndex.None? {
        return false;
      }
      if sourceIndex.value == destinationIndex {
        return false;
      }
      MovePageEffect(Value(), pageId, destinationIndex);
      pages := Moved(pages, sourceIndex.value, destinationIndex);
      return true;
    }

    method DetachPage(pageId: string) returns (detached: Option<ContainerPage>)
      modifies this
      ensures id == old(id)
      ensures match Containers.DetachPage(old(Value()), pageId)
              case Some(d) => detached == Some(d.page) && Value() == d.rest
              case None => detached.None? && Value() == old(Value())
      ensures detached.Some? ==> ValidContainer(Value())
    {
      hide ValidContainer, WindowsOf, HandlesOf, PageWellFormed;
      var valid := Validate();
      if !valid {
        return None;
      }
      var index := FindPage(pageId);
      if index.None? {
        return None;
      }
      DetachPageEffect(Value(), pageId);
      var removedActivePage := pageId == activePageId;
      detached := Some(pages[index.value]);
      pages := Removed(pages, index.value);
      if pages == [] {
        activePageId := "";
      } else if removedActivePage {
        activePageId := pages[Min(index.value, |pages| - 1)].id;
      }
    }

    method SplitWindow(request: SplitRequest) returns (ok: bool)
      modifies this
      ensures id == old(id)
      ensures Outcome(ok, old(Value()), Value(), Containers.SplitWindow(old(Value()), request))
      ensures ok ==> ValidContainer(Value())
    {
      hide ValidContainer, FreshSplit, HandlesOf, IdsOf;
      var fresh_ := AdmitsSplit(request.newWindowId, request.newLeafNodeId, request.splitNodeId, request.ratio);
      var target := FindWindow(request.targetWindowId);
      if !fresh_ || target.None? {
        return false;
      }
      var i := 0;
      while i < |pages|
        invariant 0 <= i <= |pages|
        invariant Value() == old(Value())
        invariant forall k :: 0 <= k < i ==> request.targetWindowId !in Windows(pages[k].root)
      {
        var root := SplitAtWindow(pages[i].root, request.targetWindowId,
                                  Leaf(request.newLeafNodeId, request.newWindowId),
                                  request.splitNodeId, request.orientation, request.ratio, request.position);
        SplitAtWindowEffect(pages[i].root, request.targetWindowId, request.newLeafNodeId, request.newWindowId,
                            request.splitNodeId, request.orientation, request.ratio, request.position);
        if root.Some? {
          FirstWindowPage(pages, request.targetWindowId, i);
          SplitWindowEffect(Value(), request);
          pages := pages[i := pages[i].(root := root.value)];
          return true;
        }
        i := i + 1;
      }
      // The target was found above, so some page has been split by now.
      assert false;
    }

    // The guards that splitWindow and splitPage share.
    method AdmitsSplit(windowId: string, leafId: string, splitId: string, ratio: real) returns (ok: bool)
      ensures ok <==> ValidContainer(Value()) && FreshSplit(Value(), windowId, leafId, splitId, ratio)
    {
      var valid := Validate();
      if !valid || windowId == "" || leafId == "" || splitId == "" {
        return false;
      }
      var duplicate := FindWindow(windowId);
      var leafKnown := ContainsStructuralId(leafId);
      var splitKnown := ContainsStructuralId(splitId);
      if duplicate.Some? || leafId == splitId || leafKnown || splitKnown {
        return false;
      }
      return 0.0 < ratio && ratio < 1.0;
    }

    method SplitPage(request: PageSplitRequest) returns (ok: bool)
      modifies this
      ensures id == old(id)
      ensures Outcome(ok, old(Value()), Value(), Containers.SplitPage(old(Value()), request))
      ensures ok ==> ValidContainer(Value())
    {
      var fresh_ := AdmitsSplit(request.newWindowId, request.newLeafNodeId, request.splitNodeId, request.ratio);
      var index := FindPage(request.pageId);
      if !fresh_ || index.None? {
        return false;
      }
      var existingRoot := pages[index.value].root;
      var newLeaf := Leaf(request.newLeafNodeId, request.newWindowId);
      var root :=
        if request.position.First?
        then Split(request.splitNodeId, request.orientation, request.ratio, newLeaf, existingRoot)
        else Split(request.splitNodeId, request.orientation, request.ratio, existingRoot, newLeaf);
      SplitPageEffect(Value(), request);
      pages := pages[index.value := pages[index.value].(root := root)];
      return true;
    }

    method SwapWindows(firstWindowId: string, secondWindowId: string) returns (ok: bool)
      modifies this
      ensures id == old(id)
      ensures Outcome(ok, old(Value()), Value(), Containers.SwapWindows(old(Value()), firstWindowId, secondWindowId))
      ensures ok ==> ValidContainer(Value())
    {
      hide WindowsOf, RelabelPages, Windows, FindPath, SetWindowAt, GoodPages;
      var valid := Validate();
      if !valid {
        return false;
      }
      assert ValidContainer(Value()) ==> GoodPages(id, pages);
      NoEmptyWindow(id, pages);
      if firstWindowId == "" || secondWindowId == "" || firstWindowId == secondWindowId {
        return false;
      }
      var firstLeaf: Option<LeafRef> := None;
      var secondLeaf: Option<LeafRef> := None;
      var i := 0;
      while i < |pages|
        invariant 0 <= i <= |pages|
        invariant Value() == old(Value())
        invariant LeafPointer(pages, i, firstWindowId, firstLeaf)
        invariant LeafPointer(pages, i, secondWindowId, secondLeaf)
      {
        FindWindowFinds(pages[i].root, firstWindowId);
        FindWindowFinds(pages[i].root, secondWindowId);
        if firstLeaf.None? {
          var path := FindPath(pages[i].root, firstWindowId);
          if path.Some? {
            firstLeaf := Some(LeafRef(i, path.value));
          }
        }
        if secondLeaf.None? {
          var path := FindPath(pages[i].root, secondWindowId);
          if path.Some? {
            secondLeaf := Some(LeafRef(i, path.value));
          }
        }
        i := i + 1;
      }
      PointersFind(pages, firstWindowId, firstLeaf);
      PointersFind(pages, secondWindowId, secondLeaf);
      if firstLeaf.None? || secondLeaf.None? {
        return false;
      }
      SwapIsRelabelling(id, pages, firstWindowId, secondWindowId, firstLeaf.value, secondLeaf.value);
      SwapWindowsEffect(Value(), firstWindowId, secondWindowId);
      pages := SetLeaf(pages, firstLeaf.value, secondWindowId);
      pages := SetLeaf(pages, secondLeaf.value, firstWindowId);
      return true;
    }

    method SetSplitRatio(splitNodeId: string, ratio: real) returns (ok: bool)
      modifies this
      ensures id == old(id)
      ensures Outcome(ok, old(Value()), Value(), Containers.SetSplitRatio(old(Value()), splitNodeId, ratio))
      ensures ok ==> ValidContainer(Value())
    {
      var valid := Validate();
      if !valid || ratio <= 0.0 || ratio >= 1.0 {
        return false;
      }
      var node := FindNode(splitNodeId);
      SetSplitRatioEffect(Value(), splitNodeId, ratio);
      if node.None? || !node.value.Split? {
        return false;
      }
      var i := 0;
      while i < |pages|
        invariant 0 <= i <= |pages|
        invariant Value() == old(Value())
        invariant forall k :: 0 <= k < i ==> splitNodeId !in Ids(pages[k].root)
      {
        var root := SetNodeRatio(pages[i].root, splitNodeId, ratio);
        RatioOnPage(Value(), i, splitNodeId, ratio);
        if root.Some? {
          pages := pages[i := pages[i].(root := root.value)];
          return true;
        }
        i := i + 1;
      }
      // The split was found above, so some page has been rewritten by now.
      assert false;
    }

    method DetachWindow(windowId: string) returns (detached: Option<(string, string)>)
      modifies this
      ensures id == old(id)
      ensures match Containers.DetachWindow(old(Value()), windowId)
              case Some(d) => detached == Some((windowId, d.leafNodeId)) && d.windowId == windowId && Value() == d.rest
              case None => detached.None? && Value() == old(Value())
      ensures detached.Some? ==> ValidContainer(Value())
    {
      hide ValidContainer, Layout.RemoveWindow, WellFormed, Ids, Windows, Handles;
      var valid := Validate();
      if !valid {
        return None;
      }
      var found := FindWindow(windowId);
      if found.None? {
        return None;
      }
      var index := 0;
      while index < |pages|
        invariant 0 <= index <= |pages|
        invariant Value() == old(Value())
        invariant forall k :: 0 <= k < index ==> windowId !in Windows(pages[k].root)
      {
        var sourcePageId := pages[index].id;
        var outcome := Layout.RemoveWindow(pages[index].root, windowId);
        RemoveWindowEffect(pages[index].root, windowId);
        if !outcome.NotFound? {
          FirstWindowPage(pages, windowId, index);
          DetachWindowEffect(Value(), windowId);
          if outcome.RemoveThisNode? {
            var removedActivePage := sourcePageId == activePageId;
            pages := Removed(pages, index);
            if pages == [] {
              activePageId := "";
            } else if removedActivePage {
              activePageId := pages[Min(index, |pages| - 1)].id;
            }
          } else {
            pages := pages[index := pages[index].(root := outcome.rest)];
          }
          return Some((windowId, outcome.leafId));
        }
        index := index + 1;
      }
      // The window was found above, so some page has lost it by now.
      assert false;
    }

    method ReplaceWindow(outgoing: string, incoming: string) returns (ok: bool)
      modifies this
      ensures id == old(id)
      ensures Outcome(ok, old(Value()), Value(), Containers.ReplaceWindow(old(Value()), outgoing, incoming))
    {
      if outgoing == "" || incoming == "" {
        return false;
      }
      var leaving := FindWindow(outgoing);
      if leaving.None? {
        return false;
      }
      var arriving := FindWindow(incoming);
      if arriving.Some? {
        return false;
      }
      ghost var before := pages;
      var replaced := false;
      var i := 0;
      while i < |pages|
        invariant 0 <= i <= |pages| == |before|
        invariant id == old(id) && activePageId == old(activePageId)
        invariant forall k :: 0 <= k < i ==> pages[k] == ReplacedPage(before[k], outgoing, incoming)
        invariant forall k :: i <= k < |pages| ==> pages[k] == before[k]
        invariant replaced <==> exists k :: 0 <= k < i && outgoing in Windows(before[k].root)
      {
        var root := ReplaceWindowId(pages[i].root, outgoing, incoming);
        ReplaceWindowFinds(pages[i].root, outgoing, incoming);
        if root.Some? {
          pages := pages[i := pages[i].(root := root.value)];
        }
        replaced := root.Some? || replaced;
        i := i + 1;
      }
      assert pages == Containers.ReplaceWindow(old(Value()), outgoing, incoming).value.pages;
      // The outgoing window was found above, so its page has been rewritten by now.
      assert replaced;
      return true;
    }

    method RenamePage(pageId: string, name: string) returns (ok: bool)
      modifies this
      ensures id == old(id)
      ensures Outcome(ok, old(Value()), Value(), Containers.RenamePage(old(Value()), pageId, name))
    {
      var normalized := Trimmed(name);
      if !ValidName(normalized) {
        return false;
      }
      var i := 0;
      while i < |pages|
        invariant 0 <= i <= |pages|
        invariant Value() == old(Value())
        invariant forall k :: 0 <= k < i ==> pages[k].id != pageId
      {
        if pages[i].id == pageId {
          FirstPage(pages, pageId, i);
          pages := pages[i := pages[i].(name := normalized)];
          return true;
        }
        i := i + 1;
      }
      return false;
    }
  }

  lemma TopUnique(used: set<int32>, m: int32)
    requires IsTop(used, m)
    ensures FreshNumber(used) == HighestFree(used, m + 1)
  {
    TopExists(used);
    var top :| IsTop(used, top) && FreshNumber(used) == HighestFree(used, top + 1);
    assert top == m;
  }

  lemma {:induction false} FirstWindowPage(ps: seq<ContainerPage>, w: string, i: nat)
    requires i < |ps| && w in Windows(ps[i].root)
    requires forall k :: 0 <= k < i ==> w !in Windows(ps[k].root)
    ensures WindowPage(ps, w) == Some(i)
  {
    FindWindowFinds(ps[0].root, w);
    if i > 0 {
      FirstWindowPage(ps[1..], w, i - 1);
    }
  }

  lemma {:induction false} ReplaceWindowFinds(t: LayoutNode, outgoing: string, incoming: string)
    ensures ReplaceWindowId(t, outgoing, incoming).Some? <==> outgoing in Windows(t)
  {
    if t.Split? {
      ReplaceWindowFinds(t.first, outgoing, incoming);
      ReplaceWindowFinds(t.second, outgoing, incoming);
    }
  }

  lemma RatioOnPage(c: Container, i: nat, splitNodeId: string, ratio: real)
    requires ValidContainer(c) && i < |c.pages|
    requires forall k :: 0 <= k < i ==> splitNodeId !in Ids(c.pages[k].root)
    ensures splitNodeId in Ids(c.pages[i].root) ==> FindNode(c.pages[i].root, splitNodeId).Some?
    ensures splitNodeId in Ids(c.pages[i].root) ==> NodePage(c.pages, splitNodeId) == Some(i)
    ensures SetNodeRatio(c.pages[i].root, splitNodeId, ratio).Some? ==> splitNodeId in Ids(c.pages[i].root)
    ensures splitNodeId in Ids(c.pages[i].root) && FindNode(c.pages[i].root, splitNodeId).value.Split? ==>
      SetNodeRatio(c.pages[i].root, splitNodeId, ratio).Some?
  {
    assert WellFormed(c.pages[i].root) by {
      assert c.pages[i] in c.pages;
    }
    hide ValidContainer, WellFormed, Ids;
    SetNodeRatioEffect(c.pages[i].root, splitNodeId, ratio);
    FindNodeFinds(c.pages[i].root, splitNodeId);
    match NodePage(c.pages, splitNodeId) {
      case None =>
      case Some(n) => assert n >= i;
    }
  }

  // A pointer is to the first leaf that shows the window among the pages visited so far.
  ghost predicate LeafPointer(ps: seq<ContainerPage>, n: nat, w: string, leaf: Option<LeafRef>)
    requires n <= |ps|
  {
    match leaf
    case None => forall k :: 0 <= k < n ==> w !in Windows(ps[k].root)
    case Some(LeafRef(i, path)) => i < n && w in Windows(ps[i].root) && FindPath(ps[i].root, w) == Some(path)
  }

  lemma PointersFind(ps: seq<ContainerPage>, w: string, leaf: Option<LeafRef>)
    requires LeafPointer(ps, |ps|, w, leaf)
    ensures leaf.Some? <==> w in WindowsOf(ps)
  {
    if leaf.Some? {
      Belongs(ps, ps[leaf.value.page]);
    }
  }

  function SetLeaf(ps: seq<ContainerPage>, leaf: LeafRef, w: string): (r: seq<ContainerPage>)
    requires leaf.page < |ps|
    ensures |r| == |ps|
  {
    ps[leaf.page := ps[leaf.page].(root := SetWindowAt(ps[leaf.page].root, leaf.path, w))]
  }

  lemma SwapIsRelabelling(cid: string, ps: seq<ContainerPage>, a: string, b: string,
                          p: LeafRef, q: LeafRef)
    requires GoodPages(cid, ps) && a != b
    requires LeafPointer(ps, |ps|, a, Some(p)) && LeafPointer(ps, |ps|, b, Some(q))
    ensures SetLeaf(SetLeaf(ps, p, b), q, a) == RelabelPages(ps, a, b)
  {
    var qs := SetLeaf(SetLeaf(ps, p, b), q, a);
    forall k | 0 <= k < |ps| ensures qs[k] == RelabelPages(ps, a, b)[k] {
      assert k != p.page ==> Apart(ps[k], ps[p.page]) by {
        if k != p.page { Strangers(cid, ps, k, p.page); }
      }
      assert k != q.page ==> Apart(ps[k], ps[q.page]) by {
        if k != q.page { Strangers(cid, ps, k, q.page); }
      }
      FindWindowFinds(ps[k].root, a);
      FindWindowFinds(ps[k].root, b);
      assert ps[k] in ps;
      SwapThroughPaths(ps[k].root, a, b);
    }
  }

  lemma {:induction false} FirstPage(ps: seq<ContainerPage>, pageId: string, i: nat)
    requires i < |ps| && ps[i].id == pageId
    requires forall k :: 0 <= k < i ==> ps[k].id != pageId
    ensures PageIndex(ps, pageId) == Some(i)
  {
    if i > 0 {
      FirstPage(ps[1..], pageId, i - 1);
    }
  }

  lemma NoPages(cid: string, ps: seq<ContainerPage>)
    ensures GoodPages(cid, ps[..0]) && IdsOf(ps[..0]) == {} && WindowsOf(ps[..0]) == {} && Numbers(ps[..0]) == {}
  {
  }

  lemma NamedPages(cid: string, ps: seq<ContainerPage>)
    requires GoodPages(cid, ps)
    ensures !HasPage(ps, "")
  {
  }

  // What the validator checks of one page against the sets filled so far.
  ghost predicate Accepts(structuralIds: set<string>, windowIds: set<string>, numbers: set<int32>, p: ContainerPage) {
    && p.number > 0 && p.number !in numbers && ValidName(p.name)
    && p.id != "" && p.id !in structuralIds
    && WellFormed(p.root) && Ids(p.root) !! structuralIds + {p.id} && Windows(p.root) !! windowIds
  }

  lemma NextPage(cid: string, ps: seq<ContainerPage>, i: nat)
    requires i < |ps| && GoodPages(cid, ps[..i])
    ensures GoodPages(cid, ps[..i + 1]) <==>
      Accepts({cid} + IdsOf(ps[..i]), WindowsOf(ps[..i]), Numbers(ps[..i]), ps[i])
    ensures IdsOf(ps[..i + 1]) == IdsOf(ps[..i]) + {ps[i].id} + Ids(ps[i].root)
    ensures WindowsOf(ps[..i + 1]) == WindowsOf(ps[..i]) + Windows(ps[i].root)
    ensures Numbers(ps[..i + 1]) == Numbers(ps[..i]) + {ps[i].number}
  {
    var prefix := ps[..i];
    assert ps[..i + 1] == prefix + [ps[i]];
    assert Numbers(prefix + [ps[i]]) == Numbers(prefix) + {ps[i].number};
    hide IdsOf, WindowsOf, Numbers, GoodPages;
    AppendPage(cid, prefix, ps[i]);
    ApartFromAll(prefix, ps[i]);
  }

  lemma PrefixGood(cid: string, ps: seq<ContainerPage>, n: nat)
    requires n <= |ps|
    ensures GoodPages(cid, ps) ==> GoodPages(cid, ps[..n])
  {
    if GoodPages(cid, ps) {
      Drawn(cid, ps, ps[..n], seq(n, k requires 0 <= k < n => k));
    }
  }

  lemma ApartFromAll(ps: seq<ContainerPage>, p: ContainerPage)
    ensures (forall q :: q in ps ==> Apart(q, p)) <==>
      p.number !in Numbers(ps) && PageIds(p) !! IdsOf(ps) && Windows(p.root) !! WindowsOf(ps)
  {
    if p.number !in Numbers(ps) && PageIds(p) !! IdsOf(ps) && Windows(p.root) !! WindowsOf(ps) {
      forall q | q in ps ensures Apart(q, p) {
        Belongs(ps, q);
        assert q.number in Numbers(ps);
      }
    }
  }
}
