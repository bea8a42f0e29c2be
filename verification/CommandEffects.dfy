// Closed forms for what the multi-step commands leave behind.

module CommandEffects {
  import opened Basics
  import opened Layout
  import opened Containers
  import opened ContainerProofs
  import opened Topologies
  import opened TopologyProofs
  import opened WindowContainerObject
  import opened WindowTopologyObject

  // The source pages stand, in order, at the requested index of the target's own; every tree,
  // name and identity survives, numbers survive unless taken, and the target's page stays active.
  lemma MergeResult(t: Topology, targetId: string, sourceId: string, d: int)
    requires Staged(t) && Apply(t, MergeContainers(targetId, sourceId, d)).Some?
    ensures targetId in t.containers && sourceId in t.containers && 0 <= d <= |t.containers[targetId].pages|
    ensures var t' := Apply(t, MergeContainers(targetId, sourceId, d)).value;
      var target, source := t.containers[targetId], t.containers[sourceId];
      && t'.containers.Keys == t.containers.Keys - {sourceId}
      && t'.containers[targetId].pages
           == target.pages[..d] + Renumbered(target.pages, source.pages) + target.pages[d..]
      && (target.pages != [] ==> t'.containers[targetId].activePageId == target.activePageId)
  {
    hide ValidContainer, AddPages;
    var target, source := t.containers[targetId], t.containers[sourceId];
    Member(t, targetId);
    AddPagesEffect(target, source.pages);
    AppendedInOrder(target, source.pages);
    SpliceOfAppended(target.pages, Renumbered(target.pages, source.pages), d);
  }

  lemma SpliceOfAppended<T>(a: seq<T>, b: seq<T>, d: nat)
    requires d <= |a|
    ensures Spliced(a + b, |a|, d) == a[..d] + b + a[d..]
  {
  }

  // A page whose number is free keeps it through a merge.
  lemma {:induction false} MergeKeepsFreeNumbers(existing: seq<ContainerPage>, ps: seq<ContainerPage>)
    requires forall p :: p in ps ==> p.number > 0 && p.number !in Numbers(existing)
    requires forall i, j :: 0 <= i < j < |ps| ==> ps[i].number != ps[j].number
    ensures Renumbered(existing, ps) == ps
    decreases |ps|
  {
    if ps != [] {
      var init, last := ps[..|ps| - 1], ps[|ps| - 1];
      MergeKeepsFreeNumbers(existing, init);
      assert last.number !in Numbers(existing + init) by {
        assert forall p :: p in existing + init ==> p in existing || p in init;
      }
      assert ps == init + [last];
    }
  }

  // An appended page moved to `d` stands between its new neighbours.
  lemma InsertedPage(c: Container, page: ContainerPage, d: nat)
    requires AddPage(c, page).Some? && d <= |c.pages|
    requires d == |c.pages| || MovePage(AddPage(c, page).value, page.id, d).Some?
    ensures var added := AddPage(c, page).value;
      var c' := if d == |c.pages| then added else MovePage(added, page.id, d).value;
      && c'.pages == c.pages[..d] + [Numbered(c.pages, page)] + c.pages[d..]
      && c'.activePageId == (if c.pages == [] then page.id else c.activePageId)
      && added.pages == c.pages + [Numbered(c.pages, page)]
  {
    hide ValidContainer, WindowsOf, HandlesOf;
    var numbered := Numbered(c.pages, page);
    AddPageEffect(c, page);
    if d != |c.pages| {
      LastPageIndex(AddPage(c, page).value, c.pages, numbered);
      MoveLast(c.pages, numbered, d);
    }
  }

  lemma LastPageIndex(added: Container, ps: seq<ContainerPage>, page: ContainerPage)
    requires ValidContainer(added) && added.pages == ps + [page]
    ensures PageIndex(added.pages, page.id) == Some(|ps|)
  {
    forall k | 0 <= k < |ps| ensures added.pages[k].id != page.id {
      Strangers(added.id, added.pages, k, |ps|);
    }
    FirstPage(added.pages, page.id, |ps|);
  }

  lemma MoveLast<T>(s: seq<T>, x: T, d: nat)
    requires d <= |s|
    ensures Moved(s + [x], |s|, d) == s[..d] + [x] + s[d..]
  {
    assert Removed(s + [x], |s|) == s;
  }

  // A window placed as a page stands at the requested index.
  lemma PlacedAsPage(c: Container, w: string, leafId: string, pageId: string, d: int)
    requires PlaceMember(c, w, leafId, MoveAsPage(pageId, d)).Some?
    ensures 0 <= d <= |c.pages|
    ensures var c' := PlaceMember(c, w, leafId, MoveAsPage(pageId, d)).value;
      && c'.pages == c.pages[..d] + [Numbered(c.pages, NewPage(pageId, leafId, w))] + c.pages[d..]
      && c'.activePageId == (if c.pages == [] then pageId else c.activePageId)
  {
    hide AddPage, MovePage;
    InsertedPage(c, NewPage(pageId, leafId, w), d);
  }

  // The extracted member's page comes directly after the target page.
  lemma ExtractedAfterTarget(c: Container, w: string, newPageId: string, targetPageId: string, activate: bool)
    requires ExtractedToPage(c, w, newPageId, targetPageId, activate).Some?
    ensures var c' := ExtractedToPage(c, w, newPageId, targetPageId, activate).value;
      var d := DetachWindow(c, w).value;
      var i := PageIndex(d.rest.pages, targetPageId).value;
      var extracted := Numbered(d.rest.pages, NewPage(newPageId, d.leafNodeId, w));
      && DetachWindow(c, w).Some? && PageIndex(d.rest.pages, targetPageId).Some?
      && c'.pages == d.rest.pages[..i + 1] + [extracted] + d.rest.pages[i + 1..]
      && c'.activePageId == (if activate then newPageId else d.rest.activePageId)
  {
    hide ValidContainer, DetachWindow, AddPage, MovePage;
    var d := DetachWindow(c, w).value;
    var page := NewPage(newPageId, d.leafNodeId, w);
    var i := PageIndex(d.rest.pages, targetPageId).value;
    AddedLength(d.rest, page);
    InsertedPage(d.rest, page, i + 1);
  }

  lemma AddedLength(c: Container, page: ContainerPage)
    ensures AddPage(c, page).Some? ==> |AddPage(c, page).value.pages| == |c.pages| + 1
  {
  }

  // Docking makes one page, numbered 1 and active, whose split holds the two windows in order.
  lemma DockResult(t: Topology, k: string, pageId: string, first: string, firstLeaf: string, second: string,
                   secondLeaf: string, splitId: string, o: Orientation, r: real, p: Position)
    requires Apply(t, DockIndependentWindows(k, pageId, first, firstLeaf, second, secondLeaf, splitId, o, r, p)).Some?
    ensures var command := DockIndependentWindows(k, pageId, first, firstLeaf, second, secondLeaf, splitId, o, r, p);
      var t' := Apply(t, command).value;
      var root := Beside(splitId, o, r, p, Leaf(secondLeaf, second), Leaf(firstLeaf, first));
      && t'.containers == t.containers[k := Container(k, [ContainerPage(pageId, root, "", 1)], pageId)]
      && t'.independent == t.independent - {first, second}
  {
    hide ValidContainer, Numbered;
    var page := NewPage(pageId, firstLeaf, first);
    var one := AddPage(Empty(k), page).value;
    FirstPageAdded(k, page);
    assert WindowPage(one.pages, first) == Some(0);
    var root := Beside(splitId, o, r, p, Leaf(secondLeaf, second), Leaf(firstLeaf, first));
    assert SplitAtWindow(one.pages[0].root, first, Leaf(secondLeaf, second), splitId, o, r, p) == Some(root);
    assert WithRoot(one, 0, root).pages == [ContainerPage(pageId, root, "", 1)];
  }

  lemma FirstPageAdded(k: string, page: ContainerPage)
    requires AddPage(Empty(k), page).Some? && page.number <= 0
    ensures AddPage(Empty(k), page).value == Container(k, [page.(number := 1)], page.id)
  {
    FirstNumber();
  }

  lemma FirstNumber()
    ensures FreshNumber(Numbers([])) == 1
  {
    assert IsTop({}, 0);
    TopUnique({}, 0);
    assert Numbers([]) == {};
  }
}
