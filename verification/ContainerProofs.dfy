// Every container operation keeps the container valid; what it does to the identities,
// windows and handles the container owns.

module ContainerProofs {
  import opened Basics
  import opened Layout
  import opened LayoutEdits
  import opened Names
  import opened Containers

  // ---------------------------------------------------------- lists of pages

  lemma AppendPage(cid: string, ps: seq<ContainerPage>, p: ContainerPage)
    ensures GoodPages(cid, ps + [p]) <==>
      && GoodPages(cid, ps) && PageWellFormed(p) && cid !in PageIds(p)
      && forall q :: q in ps ==> Apart(q, p)
    ensures IdsOf(ps + [p]) == IdsOf(ps) + PageIds(p)
    ensures WindowsOf(ps + [p]) == WindowsOf(ps) + Windows(p.root)
    ensures HandlesOf(ps + [p]) == HandlesOf(ps) + Handles(p.root)
  {
    var all := ps + [p];
    assert forall q :: q in all <==> q in ps || q == p;
    assert forall i :: 0 <= i < |ps| ==> all[i] == ps[i];
    assert all[|ps|] == p;
  }

  // A page's identities are among those of its list.
  lemma Belongs(ps: seq<ContainerPage>, p: ContainerPage)
    requires p in ps
    ensures PageIds(p) <= IdsOf(ps)
    ensures Windows(p.root) <= WindowsOf(ps)
    ensures Handles(p.root) <= HandlesOf(ps)
  {
  }

  lemma Strangers(cid: string, ps: seq<ContainerPage>, j: nat, k: nat)
    requires GoodPages(cid, ps) && j < |ps| && k < |ps| && j != k
    ensures Apart(ps[j], ps[k])
  {
    assert if j < k then Apart(ps[j], ps[k]) else Apart(ps[k], ps[j]);
  }

  // Pages that keep their identity in place keep the active page selectable.
  lemma StillActive(ps: seq<ContainerPage>, qs: seq<ContainerPage>, active: string)
    requires |ps| <= |qs| && HasPage(ps, active)
    requires forall k :: 0 <= k < |ps| ==> qs[k].id == ps[k].id
    ensures HasPage(qs, active)
  {
    var p :| p in ps && p.id == active;
    var k :| 0 <= k < |ps| && ps[k] == p;
    assert qs[k] in qs;
  }

  // A list drawn from another by distinct positions inherits its rules.
  lemma Drawn(cid: string, ps: seq<ContainerPage>, qs: seq<ContainerPage>, from: seq<nat>)
    requires GoodPages(cid, ps)
    requires |from| == |qs|
    requires forall k :: 0 <= k < |qs| ==> from[k] < |ps| && qs[k] == ps[from[k]]
    requires forall j, k :: 0 <= j < k < |qs| ==> from[j] != from[k]
    ensures GoodPages(cid, qs)
  {
    forall j, k | 0 <= j < k < |qs| ensures Apart(qs[j], qs[k]) {
      if from[j] < from[k] {
        assert Apart(ps[from[j]], ps[from[k]]);
      } else {
        assert Apart(ps[from[k]], ps[from[j]]);
      }
    }
  }

  lemma RemovedElements<T>(s: seq<T>, i: nat)
    requires i < |s|
    ensures forall q :: q in s <==> q == s[i] || q in Removed(s, i)
  {
    assert s == s[..i] + [s[i]] + s[i + 1..];
  }

  lemma RemovePage(cid: string, ps: seq<ContainerPage>, i: nat)
    requires i < |ps| && GoodPages(cid, ps)
    ensures GoodPages(cid, Removed(ps, i))
    ensures forall q :: q in ps <==> q == ps[i] || q in Removed(ps, i)
    ensures forall q :: q in Removed(ps, i) ==> Apart(q, ps[i])
  {
    var rest := Removed(ps, i);
    Drawn(cid, ps, rest, seq(|rest|, k requires 0 <= k < |rest| => if k < i then k else k + 1));
    RemovedElements(ps, i);
    forall q | q in rest ensures Apart(q, ps[i]) {
      var k :| 0 <= k < |rest| && rest[k] == q;
      assert k < i ==> Apart(ps[k], ps[i]);
      assert k >= i ==> Apart(ps[i], ps[k + 1]);
    }
  }

  lemma MovePages(cid: string, ps: seq<ContainerPage>, i: nat, d: nat)
    requires i < |ps| && d < |ps| && GoodPages(cid, ps)
    ensures GoodPages(cid, Moved(ps, i, d))
    ensures forall q :: q in Moved(ps, i, d) <==> q in ps
  {
    hide GoodPages;
    var moved := Moved(ps, i, d);
    var from: seq<nat> := seq(|ps|, k requires 0 <= k < |ps| =>
      if k == d then i else var j := if k < d then k else k - 1; if j < i then j else j + 1);
    Drawn(cid, ps, moved, from);
    RemovePage(cid, ps, i);
    assert forall q :: q in moved <==> q == ps[i] || q in Removed(ps, i);
  }

  // Replacing one page by one that brings in at most the given new identities.
  lemma ReplacePage(cid: string, ps: seq<ContainerPage>, i: nat, p: ContainerPage,
                    ids: set<string>, windows: set<string>)
    requires i < |ps| && GoodPages(cid, ps)
    requires PageWellFormed(p) && p.number == ps[i].number
    requires PageIds(p) <= PageIds(ps[i]) + ids && ids !! IdsOf(ps) + {cid}
    requires Windows(p.root) <= Windows(ps[i].root) + windows && windows !! WindowsOf(ps)
    ensures GoodPages(cid, ps[i := p])
    ensures WindowsOf(ps[i := p]) == WindowsOf(ps) - Windows(ps[i].root) + Windows(p.root)
    ensures IdsOf(ps[i := p]) <= IdsOf(ps) + ids
    ensures HandlesOf(ps[i := p]) <= HandlesOf(ps) + Handles(p.root)
  {
    var qs := ps[i := p];
    RemovePage(cid, ps, i);
    forall j, k | 0 <= j < k < |qs| ensures Apart(qs[j], qs[k]) {
      assert Apart(ps[j], ps[k]);
      assert ps[j] in ps && ps[k] in ps;
      assert PageIds(ps[j]) <= IdsOf(ps) && PageIds(ps[k]) <= IdsOf(ps);
      assert Windows(ps[j].root) <= WindowsOf(ps) && Windows(ps[k].root) <= WindowsOf(ps);
    }
    forall q | q in qs ensures PageWellFormed(q) && cid !in PageIds(q) {
      assert q == p || q in ps;
      assert cid !in PageIds(ps[i]);
    }
    PatchedWindows(cid, ps, i, p);
  }

  lemma PatchedWindows(cid: string, ps: seq<ContainerPage>, i: nat, p: ContainerPage)
    requires i < |ps| && GoodPages(cid, ps)
    ensures WindowsOf(ps[i := p]) == WindowsOf(ps) - Windows(ps[i].root) + Windows(p.root)
    ensures IdsOf(ps[i := p]) <= IdsOf(ps) + PageIds(p)
    ensures HandlesOf(ps[i := p]) <= HandlesOf(ps) + Handles(p.root)
  {
    var qs := ps[i := p];
    RemovePage(cid, ps, i);
    assert forall q :: q in qs ==> q == p || q in ps;
    assert qs[i] == p;
    forall w ensures w in WindowsOf(qs) <==> w in WindowsOf(ps) - Windows(ps[i].root) + Windows(p.root) {
      if w in WindowsOf(qs) && w !in Windows(p.root) {
        var k :| 0 <= k < |qs| && w in Windows(qs[k].root);
        assert if k < i then Apart(ps[k], ps[i]) else Apart(ps[i], ps[k]);
      }
      if w in WindowsOf(ps) && w !in Windows(ps[i].root) {
        var k :| 0 <= k < |ps| && w in Windows(ps[k].root);
        assert qs[k] == ps[k];
      }
    }
  }

  // ------------------------------------------------------------ page numbers

  // Every number from 1 to n is used.
  lemma {:induction false} Crowded(used: set<int32>, n: int32)
    requires n >= 0 && forall k: int32 :: 0 < k <= n ==> k in used
    ensures |used| >= n as int
    decreases n
  {
    if n > 0 {
      Crowded(used - {n}, n - 1);
    }
  }

  lemma {:induction false} HighestFreeIsFree(used: set<int32>, n: int32)
    requires n >= 0
    ensures var h := HighestFree(used, n);
      && 0 <= h <= n && (h == 0 || h !in used)
      && forall k: int32 :: h < k <= n ==> k in used
    decreases n
  {
    if n > 0 && n in used {
      HighestFreeIsFree(used, n - 1);
    }
  }

  // Any container with fewer than 2^31 - 1 pages has a positive unused number to give.
  lemma FreshNumberIsFresh(used: set<int32>)
    requires |used| < 0x7FFF_FFFF
    ensures FreshNumber(used) > 0 && FreshNumber(used) !in used
  {
    TopExists(used);
    var m :| IsTop(used, m) && FreshNumber(used) == HighestFree(used, m + 1);
    HighestFreeIsFree(used, m + 1);
    if FreshNumber(used) == 0 {
      assert m + 1 in used;
      Crowded(used, m + 1);
    }
  }

  lemma {:induction false} NumbersBound(ps: seq<ContainerPage>)
    ensures |Numbers(ps)| <= |ps|
  {
    if ps != [] {
      var rest := ps[..|ps| - 1];
      NumbersBound(rest);
      assert ps == rest + [ps[|ps| - 1]];
      assert Numbers(ps) == Numbers(rest) + {ps[|ps| - 1].number};
    }
  }

  // A page keeps a number that is positive and unused; otherwise it is given one that is.
  lemma PageNumberAssigned(ps: seq<ContainerPage>, page: ContainerPage)
    requires |ps| < 0x7FFF_FFFF
    ensures var n := Numbered(ps, page).number; n > 0 && n !in Numbers(ps)
    ensures page.number > 0 && page.number !in Numbers(ps) ==> Numbered(ps, page) == page
    ensures Numbered(ps, page).(number := page.number) == page
  {
    NumbersBound(ps);
    FreshNumberIsFresh(Numbers(ps));
  }

  // -------------------------------------------------------- whole operations

  lemma AddPageEffect(c: Container, page: ContainerPage)
    requires AddPage(c, page).Some?
    ensures var c' := AddPage(c, page).value;
      && ValidContainer(c') && c'.id == c.id
      && c'.pages == c.pages + [Numbered(c.pages, page)]
      && c'.activePageId == (if c.pages == [] then page.id else c.activePageId)
      && WindowsOf(c'.pages) == WindowsOf(c.pages) + Windows(page.root)
      && WindowsOf(c.pages) !! Windows(page.root)
      && HandlesOf(c'.pages) == HandlesOf(c.pages) + Handles(page.root)
  {
    AppendPage(c.id, c.pages, Numbered(c.pages, page));
  }

  lemma NumberedGood(cid: string, ps: seq<ContainerPage>, page: ContainerPage)
    requires GoodPages(cid, ps) && |ps| < 0x7FFF_FFFF
    requires ValidName(page.name) && page.id != "" && page.id !in Ids(page.root) && WellFormed(page.root)
    requires PageIds(page) !! IdsOf(ps) + {cid} && Windows(page.root) !! WindowsOf(ps)
    ensures GoodPages(cid, ps + [Numbered(ps, page)])
  {
    var added := Numbered(ps, page);
    PageNumberAssigned(ps, page);
    AppendPage(cid, ps, added);
    forall q | q in ps ensures Apart(q, added) {
      Belongs(ps, q);
      assert q.number in Numbers(ps);
    }
  }

  // When the page brings no identity the container already holds, adding it succeeds.
  lemma AddPageSucceeds(c: Container, page: ContainerPage)
    requires c.id != "" && (c.pages != [] ==> ValidContainer(c))
    requires |c.pages| < 0x7FFF_FFFF
    requires ValidName(page.name) && page.id != "" && page.id !in Ids(page.root) && WellFormed(page.root)
    requires PageIds(page) !! IdsOf(c.pages) + {c.id} && Windows(page.root) !! WindowsOf(c.pages)
    ensures AddPage(c, page).Some?
  {
    assert GoodPages(c.id, c.pages);
    hide GoodPages, IdsOf, WindowsOf, ValidName, WellFormed;
    NumberedGood(c.id, c.pages, page);
    var added := Numbered(c.pages, page);
    if c.pages == [] {
      assert (c.pages + [added])[0] == added;
    } else {
      StillActive(c.pages, c.pages + [added], c.activePageId);
    }
  }

  lemma MovedOthers<T>(s: seq<T>, from: nat, to: nat)
    requires from < |s| && to < |s|
    ensures Removed(Moved(s, from, to), to) == Removed(s, from)
  {
  }

  lemma MovePageEffect(c: Container, pageId: string, destination: int)
    requires MovePage(c, pageId, destination).Some?
    ensures var c' := MovePage(c, pageId, destination).value;
      && ValidContainer(c') && c'.id == c.id && c'.activePageId == c.activePageId
      && (forall q :: q in c'.pages <==> q in c.pages)
      && c'.pages[destination].id == pageId
      && Removed(c'.pages, destination) == Removed(c.pages, PageIndex(c.pages, pageId).value)
      && WindowsOf(c'.pages) == WindowsOf(c.pages)
      && HandlesOf(c'.pages) == HandlesOf(c.pages)
      && IdsOf(c'.pages) == IdsOf(c.pages)
  {
    MovePages(c.id, c.pages, PageIndex(c.pages, pageId).value, destination);
    MovedOthers(c.pages, PageIndex(c.pages, pageId).value, destination);
  }

  lemma WithoutPageEffect(c: Container, i: nat)
    requires ValidContainer(c) && i < |c.pages|
    ensures var c' := WithoutPage(c, i); var p := c.pages[i];
      && ValidContainer(c') && c'.id == c.id
      && WindowsOf(c.pages) == WindowsOf(c'.pages) + Windows(p.root)
      && WindowsOf(c'.pages) !! Windows(p.root)
      && IdsOf(c.pages) == IdsOf(c'.pages) + PageIds(p)
      && IdsOf(c'.pages) !! PageIds(p)
      && HandlesOf(c.pages) == HandlesOf(c'.pages) + Handles(p.root)
  {
    var c' := WithoutPage(c, i);
    RemovePage(c.id, c.pages, i);
    if c'.pages != [] {
      if c.pages[i].id == c.activePageId {
        assert c'.pages[Min(i, |c'.pages| - 1)] in c'.pages;
      } else {
        var p :| p in c.pages && p.id == c.activePageId;
        assert p in c'.pages;
      }
    }
  }

  // The page that follows, or at the end the one before it.
  function NeighbourId(ps: seq<ContainerPage>, i: nat): string
    requires i < |ps|
  {
    if i + 1 < |ps| then ps[i + 1].id else if i > 0 then ps[i - 1].id else ""
  }

  lemma DetachPageEffect(c: Container, pageId: string)
    requires DetachPage(c, pageId).Some?
    ensures var d := DetachPage(c, pageId).value;
      && ValidContainer(d.rest) && d.rest.id == c.id
      && d.page in c.pages && d.page.id == pageId && PageWellFormed(d.page) && c.id !in PageIds(d.page)
      && WindowsOf(c.pages) == WindowsOf(d.rest.pages) + Windows(d.page.root)
      && WindowsOf(d.rest.pages) !! Windows(d.page.root)
      && HandlesOf(c.pages) == HandlesOf(d.rest.pages) + Handles(d.page.root)
    ensures var d, i := DetachPage(c, pageId).value, PageIndex(c.pages, pageId).value;
      && c.pages[i] == d.page && d.rest.pages == Removed(c.pages, i)
      && d.rest.activePageId == if pageId != c.activePageId then c.activePageId else NeighbourId(c.pages, i)
  {
    WithoutPageEffect(c, PageIndex(c.pages, pageId).value);
  }

  // Putting a new root under page i, which loses and gains the given windows.
  lemma WithRootEffect(c: Container, i: nat, root: LayoutNode, ids: set<string>, lost: set<string>, gained: set<string>)
    requires ValidContainer(c) && i < |c.pages|
    requires WellFormed(root)
    requires Ids(root) <= Ids(c.pages[i].root) + ids && ids !! IdsOf(c.pages) + {c.id}
    requires lost <= Windows(c.pages[i].root) && gained !! WindowsOf(c.pages)
    requires Windows(root) == Windows(c.pages[i].root) - lost + gained
    ensures ValidContainer(WithRoot(c, i, root))
    ensures WindowsOf(WithRoot(c, i, root).pages) == WindowsOf(c.pages) - lost + gained
    ensures IdsOf(WithRoot(c, i, root).pages) <= IdsOf(c.pages) + ids
    ensures HandlesOf(WithRoot(c, i, root).pages) <= HandlesOf(c.pages) + Handles(root)
  {
    var p := c.pages[i].(root := root);
    Belongs(c.pages, c.pages[i]);
    ReplacePage(c.id, c.pages, i, p, ids, gained);
    StillActive(c.pages, c.pages[i := p], c.activePageId);
    Exchange(WindowsOf(c.pages), Windows(c.pages[i].root), lost, gained);
  }

  lemma SplitWindowEffect(c: Container, r: SplitRequest)
    requires SplitWindow(c, r).Some?
    ensures var c' := SplitWindow(c, r).value;
      && ValidContainer(c') && c'.id == c.id && |c'.pages| == |c.pages|
      && WindowsOf(c'.pages) == WindowsOf(c.pages) + {r.newWindowId}
      && HandlesOf(c'.pages) <= HandlesOf(c.pages) + {(r.newWindowId, r.newLeafNodeId)}
  {
    hide WindowsOf, IdsOf, HandlesOf;
    var i := WindowPage(c.pages, r.targetWindowId).value;
    var page := c.pages[i];
    Belongs(c.pages, page);
    SplitAtWindowEffect(page.root, r.targetWindowId, r.newLeafNodeId, r.newWindowId,
                        r.splitNodeId, r.orientation, r.ratio, r.position);
    WithRootEffect(c, i, SplitWindow(c, r).value.pages[i].root, {r.newLeafNodeId, r.splitNodeId}, {}, {r.newWindowId});
  }

  lemma SplitPageEffect(c: Container, r: PageSplitRequest)
    requires SplitPage(c, r).Some?
    ensures var c' := SplitPage(c, r).value;
      && ValidContainer(c') && c'.id == c.id && |c'.pages| == |c.pages|
      && WindowsOf(c'.pages) == WindowsOf(c.pages) + {r.newWindowId}
      && HandlesOf(c'.pages) <= HandlesOf(c.pages) + {(r.newWindowId, r.newLeafNodeId)}
  {
    hide WindowsOf, IdsOf, HandlesOf;
    var i := PageIndex(c.pages, r.pageId).value;
    var page := c.pages[i];
    Belongs(c.pages, page);
    WithRootEffect(c, i, SplitPage(c, r).value.pages[i].root, {r.newLeafNodeId, r.splitNodeId}, {}, {r.newWindowId});
  }

  lemma SetSplitRatioEffect(c: Container, splitNodeId: string, ratio: real)
    requires ValidContainer(c) && 0.0 < ratio < 1.0
    ensures var node := FindContainerNode(c.pages, splitNodeId);
      SetSplitRatio(c, splitNodeId, ratio).Some? <==> node.Some? && node.value.Split?
    ensures SetSplitRatio(c, splitNodeId, ratio).Some? ==>
      var c' := SetSplitRatio(c, splitNodeId, ratio).value;
      && ValidContainer(c') && c'.id == c.id && |c'.pages| == |c.pages|
      && WindowsOf(c'.pages) == WindowsOf(c.pages)
      && HandlesOf(c'.pages) <= HandlesOf(c.pages)
  {
    hide WindowsOf, IdsOf, HandlesOf;
    match NodePage(c.pages, splitNodeId) {
      case None =>
      case Some(i) =>
        var page := c.pages[i];
        SetNodeRatioEffect(page.root, splitNodeId, ratio);
        if SetSplitRatio(c, splitNodeId, ratio).Some? {
          Belongs(c.pages, page);
          WithRootEffect(c, i, SetSplitRatio(c, splitNodeId, ratio).value.pages[i].root, {}, {}, {});
        }
    }
  }

  lemma DetachWindowEffect(c: Container, w: string)
    requires DetachWindow(c, w).Some?
    ensures var d := DetachWindow(c, w).value;
      && ValidContainer(d.rest) && d.rest.id == c.id && d.windowId == w && w != ""
      && WindowsOf(d.rest.pages) == WindowsOf(c.pages) - {w} && w in WindowsOf(c.pages)
      && (w, d.leafNodeId) in HandlesOf(c.pages)
      && HandlesOf(d.rest.pages) <= HandlesOf(c.pages)
      && IdsOf(d.rest.pages) <= IdsOf(c.pages)
      && d.leafNodeId != "" && d.leafNodeId != c.id && d.leafNodeId !in IdsOf(d.rest.pages)
  {
    hide WindowsOf, IdsOf, HandlesOf;
    var i := WindowPage(c.pages, w).value;
    var page := c.pages[i];
    Belongs(c.pages, page);
    RemoveWindowEffect(page.root, w);
    LeafIdentities(page.root, w);
    match RemoveWindow(page.root, w) {
      case RemoveThisNode(leafId) =>
        WithoutPageEffect(c, i);
      case RemovedDescendant(leafId, rest) =>
        WithRootEffect(c, i, rest, {}, {w}, {});
        WithRootForgets(c, i, rest, leafId);
    }
  }

  // A page that shows something else besides the window outlives its departure.
  lemma PageSurvives(c: Container, w: string, i: nat)
    requires DetachWindow(c, w).Some? && i < |c.pages|
    requires !(c.pages[i].root.Leaf? && c.pages[i].root.windowId == w)
    ensures HasPage(DetachWindow(c, w).value.rest.pages, c.pages[i].id)
  {
    var s := WindowPage(c.pages, w).value;
    var rest := DetachWindow(c, w).value.rest;
    RemoveWindowEffect(c.pages[s].root, w);
    if i == s {
      assert rest.pages[i] in rest.pages;
    } else if |rest.pages| == |c.pages| {
      assert rest.pages[i] in rest.pages;
    } else {
      assert rest.pages[if i < s then i else i - 1] in rest.pages;
    }
  }

  lemma WithRootForgets(c: Container, i: nat, root: LayoutNode, id: string)
    requires ValidContainer(c) && i < |c.pages|
    requires id in Ids(c.pages[i].root) && id !in Ids(root)
    ensures id !in IdsOf(WithRoot(c, i, root).pages)
  {
    var ps, qs := c.pages, WithRoot(c, i, root).pages;
    forall q | q in qs ensures id !in PageIds(q) {
      var k :| 0 <= k < |qs| && qs[k] == q;
      assert ps[i] in ps;
      if k != i {
        Strangers(c.id, ps, k, i);
      }
    }
  }

  lemma {:induction false} LeafIdentities(t: LayoutNode, w: string)
    requires WellFormed(t)
    ensures w in Windows(t) ==> w != ""
    ensures "" !in Ids(t)
    ensures forall h :: h in Handles(t) ==> h.0 in Windows(t) && h.1 in Ids(t)
  {
    if t.Split? {
      LeafIdentities(t.first, w);
      LeafIdentities(t.second, w);
    }
  }

  lemma RelabelPageEffect(ps: seq<ContainerPage>, p: ContainerPage, a: string, b: string)
    requires p in ps && PageWellFormed(p) && a != "" && b != ""
    ensures var q := p.(root := Relabel(p.root, a, b));
      && PageWellFormed(q) && PageIds(q) == PageIds(p)
      && (forall w :: w in Windows(q.root) <==> Exchanged(a, b, w) in Windows(p.root))
      && (forall h :: h in Handles(q.root) ==> (Exchanged(a, b, h.0), h.1) in HandlesOf(ps))
  {
    Belongs(ps, p);
    RelabelEffect(p.root, a, b);
  }

  lemma NoEmptyWindow(cid: string, ps: seq<ContainerPage>)
    requires GoodPages(cid, ps)
    ensures "" !in WindowsOf(ps)
  {
    forall p | p in ps ensures "" !in Windows(p.root) {
      LeafIdentities(p.root, "");
    }
  }

  lemma RelabelPagesGood(cid: string, ps: seq<ContainerPage>, a: string, b: string)
    requires GoodPages(cid, ps) && a != "" && b != ""
    ensures GoodPages(cid, RelabelPages(ps, a, b))
  {
    var qs := RelabelPages(ps, a, b);
    forall q | q in qs ensures PageWellFormed(q) && cid !in PageIds(q) {
      var k :| 0 <= k < |qs| && qs[k] == q;
      RelabelPageEffect(ps, ps[k], a, b);
    }
    forall j, k | 0 <= j < k < |qs| ensures Apart(qs[j], qs[k]) {
      RelabelPageEffect(ps, ps[j], a, b);
      RelabelPageEffect(ps, ps[k], a, b);
      assert Apart(ps[j], ps[k]);
    }
  }

  lemma SwapWindowsEffect(c: Container, a: string, b: string)
    requires SwapWindows(c, a, b).Some?
    ensures var c' := SwapWindows(c, a, b).value;
      && ValidContainer(c') && c'.id == c.id && |c'.pages| == |c.pages|
      && (forall k :: 0 <= k < |c.pages| ==> c'.pages[k].id == c.pages[k].id)
      && WindowsOf(c'.pages) == WindowsOf(c.pages)
      && forall h :: h in HandlesOf(c'.pages) ==> (Exchanged(a, b, h.0), h.1) in HandlesOf(c.pages)
  {
    hide GoodPages, HandlesOf, WindowsOf;
    var ps, qs := c.pages, RelabelPages(c.pages, a, b);
    NoEmptyWindow(c.id, ps);
    RelabelPagesGood(c.id, ps, a, b);
    if ps != [] {
      StillActive(ps, qs, c.activePageId);
    }
    RelabelHandles(c.id, ps, a, b);
    forall w ensures w in WindowsOf(qs) <==> w in WindowsOf(ps) {
      RelabelWindows(ps, a, b, w);
    }
  }

  lemma RelabelHandles(cid: string, ps: seq<ContainerPage>, a: string, b: string)
    requires GoodPages(cid, ps) && a != "" && b != ""
    ensures forall h :: h in HandlesOf(RelabelPages(ps, a, b)) ==> (Exchanged(a, b, h.0), h.1) in HandlesOf(ps)
  {
    var qs := RelabelPages(ps, a, b);
    forall h | h in HandlesOf(qs) ensures (Exchanged(a, b, h.0), h.1) in HandlesOf(ps) {
      var k :| 0 <= k < |qs| && h in Handles(qs[k].root);
      RelabelPageEffect(ps, ps[k], a, b);
    }
  }

  lemma RelabelWindows(ps: seq<ContainerPage>, a: string, b: string, w: string)
    ensures w in WindowsOf(RelabelPages(ps, a, b)) <==> Exchanged(a, b, w) in WindowsOf(ps)
  {
    var qs := RelabelPages(ps, a, b);
    if w in WindowsOf(qs) {
      var k :| 0 <= k < |qs| && w in Windows(qs[k].root);
      RelabelEffect(ps[k].root, a, b);
      Belongs(ps, ps[k]);
    }
    if Exchanged(a, b, w) in WindowsOf(ps) {
      var k :| 0 <= k < |ps| && Exchanged(a, b, w) in Windows(ps[k].root);
      RelabelEffect(ps[k].root, a, b);
      Belongs(qs, qs[k]);
    }
  }

  lemma ReplaceWindowEffect(c: Container, outgoing: string, incoming: string)
    requires ValidContainer(c) && ReplaceWindow(c, outgoing, incoming).Some?
    ensures var c' := ReplaceWindow(c, outgoing, incoming).value;
      && ValidContainer(c') && c'.id == c.id && |c'.pages| == |c.pages|
      && WindowsOf(c'.pages) == WindowsOf(c.pages) - {outgoing} + {incoming}
      && forall h :: h in HandlesOf(c'.pages) ==> h in HandlesOf(c.pages) || h.0 == incoming
  {
    var i := WindowPage(c.pages, outgoing).value;
    hide WindowsOf, IdsOf, HandlesOf;
    var root := c.pages[i].root;
    Belongs(c.pages, c.pages[i]);
    ReplacesOnePage(c, outgoing, incoming, i);
    ReplaceWindowIdEffect(root, outgoing, incoming);
    WithRootEffect(c, i, ReplaceWindowId(root, outgoing, incoming).value, {}, {outgoing}, {incoming});
  }

  // In a valid container the loop over all pages rewrites exactly one of them.
  lemma ReplacesOnePage(c: Container, outgoing: string, incoming: string, i: nat)
    requires ValidContainer(c) && ReplaceWindow(c, outgoing, incoming).Some?
    requires i < |c.pages| && outgoing in Windows(c.pages[i].root)
    ensures var root := ReplaceWindowId(c.pages[i].root, outgoing, incoming);
      root.Some? && ReplaceWindow(c, outgoing, incoming).value == WithRoot(c, i, root.value)
  {
    hide GoodPages, HasPage, WindowsOf, ReplaceWindowId;
    var qs := ReplaceWindow(c, outgoing, incoming).value.pages;
    forall k | 0 <= k < |c.pages| && k != i ensures qs[k] == c.pages[k] {
      OtherPageKept(c, outgoing, incoming, i, k);
    }
    Belongs(c.pages, c.pages[i]);
    ReplaceWindowIdEffect(c.pages[i].root, outgoing, incoming);
    OnePatch(c.pages, qs, i);
  }

  lemma OnePatch<T>(s: seq<T>, t: seq<T>, i: nat)
    requires |s| == |t| && i < |s|
    requires forall k :: 0 <= k < |s| && k != i ==> t[k] == s[k]
    ensures t == s[i := t[i]]
  {
  }

  lemma OtherPageKept(c: Container, outgoing: string, incoming: string, i: nat, k: nat)
    requires GoodPages(c.id, c.pages) && i < |c.pages| && k < |c.pages| && k != i
    requires outgoing in Windows(c.pages[i].root)
    ensures ReplacedPage(c.pages[k], outgoing, incoming) == c.pages[k]
  {
    Strangers(c.id, c.pages, k, i);
    ReplaceWindowIdMisses(c.pages[k].root, outgoing, incoming);
  }

  lemma RenamePageEffect(c: Container, pageId: string, name: string)
    requires ValidContainer(c) && RenamePage(c, pageId, name).Some?
    ensures var c' := RenamePage(c, pageId, name).value;
      && ValidContainer(c') && c'.id == c.id && |c'.pages| == |c.pages|
      && WindowsOf(c'.pages) == WindowsOf(c.pages)
      && HandlesOf(c'.pages) <= HandlesOf(c.pages)
  {
    var i := PageIndex(c.pages, pageId).value;
    var p := c.pages[i].(name := Trimmed(name));
    assert c.pages[i] in c.pages;
    ReplacePage(c.id, c.pages, i, p, {}, {});
    assert Handles(c.pages[i].root) <= HandlesOf(c.pages);
    StillActive(c.pages, c.pages[i := p], c.activePageId);
  }

  // A published container has at least two members exactly when it is neither empty nor a
  // single leaf.
  lemma TwoMembers(c: Container)
    requires ValidContainer(c)
    ensures c.pages != [] && SingleWindowId(c).None? <==>
      exists a, b :: a != b && a in WindowsOf(c.pages) && b in WindowsOf(c.pages)
    ensures SingleWindowId(c).Some? ==> WindowsOf(c.pages) == {SingleWindowId(c).value}
    ensures c.pages == [] ==> WindowsOf(c.pages) == {}
  {
    if |c.pages| == 1 {
      assert c.pages == [c.pages[0]];
      assert WindowsOf(c.pages) == Windows(c.pages[0].root);
    }
    if c.pages != [] && SingleWindowId(c).None? {
      var p, q := c.pages[0], c.pages[|c.pages| - 1];
      Belongs(c.pages, p);
      Belongs(c.pages, q);
      if |c.pages| > 1 {
        Strangers(c.id, c.pages, 0, |c.pages| - 1);
        var a, b := SomeWindow(p.root), SomeWindow(q.root);
        assert a != b;
      } else {
        var a, b := SomeWindow(p.root.first), SomeWindow(p.root.second);
        assert a != b;
      }
    }
  }

  ghost function SomeWindow(t: LayoutNode): (w: string)
    ensures w in Windows(t)
  {
    match t
    case Leaf(_, w) => w
    case Split(_, _, _, first, _) => SomeWindow(first)
  }
}
