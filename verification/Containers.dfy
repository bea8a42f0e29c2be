// A window container as a value, and what each of its operations returns:
// src/core/windowcontainer.{h,cpp} and src/core/containerpage.cpp.

module Containers {
  import opened Basics
  import opened Layout
  import opened LayoutEdits
  import opened Names

  datatype ContainerPage = ContainerPage(id: string, root: LayoutNode, name: string, number: int32)

  datatype Container = Container(id: string, pages: seq<ContainerPage>, activePageId: string)

  datatype SplitRequest = SplitRequest(
    targetWindowId: string, newWindowId: string, newLeafNodeId: string, splitNodeId: string,
    orientation: Orientation, ratio: real, position: Position)

  datatype PageSplitRequest = PageSplitRequest(
    pageId: string, newWindowId: string, newLeafNodeId: string, splitNodeId: string,
    orientation: Orientation, ratio: real, position: Position)

  // ------------------------------------------------------------------ validity

  ghost function PageIds(p: ContainerPage): set<string> {
    {p.id} + Ids(p.root)
  }

  ghost predicate PageWellFormed(p: ContainerPage) {
    && p.number > 0 && ValidName(p.name)
    && p.id != "" && p.id !in Ids(p.root)
    && WellFormed(p.root)
  }

  ghost predicate Apart(p: ContainerPage, q: ContainerPage) {
    && PageIds(p) !! PageIds(q)
    && Windows(p.root) !! Windows(q.root)
    && p.number != q.number
  }

  // Structural identities (container, page, node) share one namespace; windows share another.
  ghost predicate GoodPages(containerId: string, ps: seq<ContainerPage>) {
    && (forall p :: p in ps ==> PageWellFormed(p) && containerId !in PageIds(p))
    && (forall i, j :: 0 <= i < j < |ps| ==> Apart(ps[i], ps[j]))
  }

  ghost predicate HasPage(ps: seq<ContainerPage>, pageId: string) {
    exists p :: p in ps && p.id == pageId
  }

  ghost predicate ValidContainer(c: Container) {
    && c.id != ""
    && GoodPages(c.id, c.pages)
    && (if c.pages == [] then c.activePageId == "" else HasPage(c.pages, c.activePageId))
  }

  ghost function IdsOf(ps: seq<ContainerPage>): set<string> {
    set p, x | p in ps && x in PageIds(p) :: x
  }

  ghost function WindowsOf(ps: seq<ContainerPage>): set<string> {
    set p, w | p in ps && w in Windows(p.root) :: w
  }

  ghost function HandlesOf(ps: seq<ContainerPage>): set<(string, string)> {
    set p, h | p in ps && h in Handles(p.root) :: h
  }

  // ------------------------------------------------------------------- lookups

  function PageIndex(ps: seq<ContainerPage>, pageId: string): (r: Option<nat>)
    ensures r.Some? ==> r.value < |ps| && ps[r.value].id == pageId
    ensures r.Some? ==> forall k :: 0 <= k < r.value ==> ps[k].id != pageId
    ensures r.None? ==> forall p :: p in ps ==> p.id != pageId
  {
    if ps == [] then None
    else if ps[0].id == pageId then Some(0)
    else
      match PageIndex(ps[1..], pageId)
      case Some(i) => Some(i + 1)
      case None => None
  }

  // The first page that shows a window.
  function WindowPage(ps: seq<ContainerPage>, w: string): (r: Option<nat>)
    ensures r.Some? ==> r.value < |ps| && w in Windows(ps[r.value].root)
    ensures r.Some? ==> forall k :: 0 <= k < r.value ==> w !in Windows(ps[k].root)
    ensures r.None? ==> forall p :: p in ps ==> w !in Windows(p.root)
  {
    if ps == [] then None
    else
      FindWindowFinds(ps[0].root, w);
      if FindWindow(ps[0].root, w).Some? then Some(0)
      else
        match WindowPage(ps[1..], w)
        case Some(i) => Some(i + 1)
        case None => None
  }

  // The first page whose tree holds a node.
  function NodePage(ps: seq<ContainerPage>, nodeId: string): (r: Option<nat>)
    ensures r.Some? ==> r.value < |ps| && nodeId in Ids(ps[r.value].root)
    ensures r.Some? ==> forall k :: 0 <= k < r.value ==> nodeId !in Ids(ps[k].root)
    ensures r.None? ==> forall p :: p in ps ==> nodeId !in Ids(p.root)
  {
    if ps == [] then None
    else
      FindNodeFinds(ps[0].root, nodeId);
      if FindNode(ps[0].root, nodeId).Some? then Some(0)
      else
        match NodePage(ps[1..], nodeId)
        case Some(i) => Some(i + 1)
        case None => None
  }

  function FindContainerNode(ps: seq<ContainerPage>, nodeId: string): Option<LayoutNode> {
    match NodePage(ps, nodeId)
    case Some(i) => FindNode(ps[i].root, nodeId)
    case None => None
  }

  function SingleWindowId(c: Container): Option<string> {
    if |c.pages| != 1 || !c.pages[0].root.Leaf? then None else Some(c.pages[0].root.windowId)
  }

  // -------------------------------------------------------------- page numbers

  // The greatest number up to `n` that no page uses, or 0 when there is none.
  ghost function HighestFree(used: set<int32>, n: int32): int32
    requires n >= 0
    decreases n
  {
    if n == 0 || n !in used then n else HighestFree(used, n - 1)
  }

  // `m` is the greatest used number that has a positive successor in `int`.
  ghost predicate IsTop(used: set<int32>, m: int32) {
    && 0 <= m < 0x7FFF_FFFF
    && (m == 0 || m in used)
    && forall x :: x in used && x < 0x7FFF_FFFF ==> x <= m
  }

  lemma {:induction false} TopExists(used: set<int32>)
    ensures exists m :: IsTop(used, m)
  {
    if used == {} {
      assert IsTop(used, 0);
    } else {
      var x :| x in used;
      TopExists(used - {x});
      var m :| IsTop(used - {x}, m);
      var top := if m < x < 0x7FFF_FFFF then x else m;
      assert forall y :: y in used ==> y == x || y in used - {x};
      assert IsTop(used, top);
    }
  }

  ghost function FreshNumber(used: set<int32>): int32 {
    TopExists(used);
    var m :| IsTop(used, m);
    HighestFree(used, m + 1)
  }

  ghost function Numbers(ps: seq<ContainerPage>): set<int32> {
    set p | p in ps :: p.number
  }

  ghost function Numbered(ps: seq<ContainerPage>, page: ContainerPage): ContainerPage {
    if page.number <= 0 || page.number in Numbers(ps) then page.(number := FreshNumber(Numbers(ps))) else page
  }

  // ---------------------------------------------------------------- operations

  ghost function AddPage(c: Container, page: ContainerPage): Option<Container> {
    var pages := c.pages + [Numbered(c.pages, page)];
    var candidate := c.(pages := pages, activePageId := if |pages| == 1 then page.id else c.activePageId);
    if ValidContainer(candidate) then Some(candidate) else None
  }

  function NewPage(pageId: string, leafNodeId: string, windowId: string): ContainerPage {
    ContainerPage(pageId, Leaf(leafNodeId, windowId), "", 0)
  }

  ghost function ActivatePage(c: Container, pageId: string): Option<Container> {
    if ValidContainer(c) && HasPage(c.pages, pageId) then Some(c.(activePageId := pageId)) else None
  }

  function Removed<T>(s: seq<T>, i: nat): seq<T>
    requires i < |s|
  {
    s[..i] + s[i + 1..]
  }

  // QVector::move: the element at `from` ends up at index `to`.
  function Moved<T>(s: seq<T>, from: nat, to: nat): seq<T>
    requires from < |s| && to < |s|
  {
    Removed(s, from)[..to] + [s[from]] + Removed(s, from)[to..]
  }

  ghost function MovePage(c: Container, pageId: string, destination: int): Option<Container> {
    if !ValidContainer(c) || destination < 0 || destination >= |c.pages| then None
    else
      match PageIndex(c.pages, pageId)
      case None => None
      case Some(i) => if i == destination then None else Some(c.(pages := Moved(c.pages, i, destination)))
  }

  // Deleting the active page activates the page that shifts into its slot, or the last one.
  function WithoutPage(c: Container, i: nat): Container
    requires i < |c.pages|
  {
    var pages := Removed(c.pages, i);
    c.(pages := pages,
       activePageId :=
         if pages == [] then ""
         else if c.pages[i].id == c.activePageId then pages[Min(i, |pages| - 1)].id
         else c.activePageId)
  }

  datatype DetachedPage = DetachedPage(rest: Container, page: ContainerPage)

  ghost function DetachPage(c: Container, pageId: string): Option<DetachedPage> {
    if !ValidContainer(c) then None
    else
      match PageIndex(c.pages, pageId)
      case None => None
      case Some(i) => Some(DetachedPage(WithoutPage(c, i), c.pages[i]))
  }

  // A new leaf and split are acceptable when both identities and the window are new and the
  // ratio leaves both children some space.
  ghost predicate FreshSplit(c: Container, windowId: string, leafId: string, splitId: string, ratio: real) {
    && windowId != "" && leafId != "" && splitId != ""
    && windowId !in WindowsOf(c.pages)
    && leafId != splitId
    && leafId != c.id && leafId !in IdsOf(c.pages)
    && splitId != c.id && splitId !in IdsOf(c.pages)
    && 0.0 < ratio < 1.0
  }

  function WithRoot(c: Container, i: nat, root: LayoutNode): Container
    requires i < |c.pages|
  {
    c.(pages := c.pages[i := c.pages[i].(root := root)])
  }

  ghost function SplitWindow(c: Container, r: SplitRequest): Option<Container> {
    if !ValidContainer(c) || !FreshSplit(c, r.newWindowId, r.newLeafNodeId, r.splitNodeId, r.ratio) then None
    else
      match WindowPage(c.pages, r.targetWindowId)
      case None => None
      case Some(i) =>
        match SplitAtWindow(c.pages[i].root, r.targetWindowId, Leaf(r.newLeafNodeId, r.newWindowId),
                                 r.splitNodeId, r.orientation, r.ratio, r.position)
        case None => None
        case Some(root) => Some(WithRoot(c, i, root))
  }

  ghost function SplitPage(c: Container, r: PageSplitRequest): Option<Container> {
    if !ValidContainer(c) || !FreshSplit(c, r.newWindowId, r.newLeafNodeId, r.splitNodeId, r.ratio) then None
    else
      match PageIndex(c.pages, r.pageId)
      case None => None
      case Some(i) =>
        Some(WithRoot(c, i, Beside(r.splitNodeId, r.orientation, r.ratio, r.position,
                                   Leaf(r.newLeafNodeId, r.newWindowId), c.pages[i].root)))
  }

  // Every page with the two windows exchanged.
  ghost function RelabelPages(ps: seq<ContainerPage>, a: string, b: string): seq<ContainerPage> {
    seq(|ps|, i requires 0 <= i < |ps| => ps[i].(root := Relabel(ps[i].root, a, b)))
  }

  ghost function SwapWindows(c: Container, a: string, b: string): Option<Container> {
    if !ValidContainer(c) || a == b || a !in WindowsOf(c.pages) || b !in WindowsOf(c.pages) then None
    else Some(c.(pages := RelabelPages(c.pages, a, b)))
  }

  ghost function SetSplitRatio(c: Container, splitNodeId: string, ratio: real): Option<Container> {
    if !ValidContainer(c) || ratio <= 0.0 || ratio >= 1.0 then None
    else
      match NodePage(c.pages, splitNodeId)
      case None => None
      case Some(i) =>
        match SetNodeRatio(c.pages[i].root, splitNodeId, ratio)
        case None => None
        case Some(root) => Some(WithRoot(c, i, root))
  }

  datatype DetachedWindow = DetachedWindow(rest: Container, windowId: string, leafNodeId: string, sourcePageId: string)

  // A page disappears with its only window.
  ghost function DetachWindow(c: Container, w: string): Option<DetachedWindow> {
    if !ValidContainer(c) then None
    else
      match WindowPage(c.pages, w)
      case None => None
      case Some(i) =>
        match RemoveWindow(c.pages[i].root, w)
        case NotFound => None
        case RemoveThisNode(leafId) => Some(DetachedWindow(WithoutPage(c, i), w, leafId, c.pages[i].id))
        case RemovedDescendant(leafId, rest) => Some(DetachedWindow(WithRoot(c, i, rest), w, leafId, c.pages[i].id))
  }

  function ReplacedPage(p: ContainerPage, outgoing: string, incoming: string): ContainerPage {
    match ReplaceWindowId(p.root, outgoing, incoming)
    case Some(root) => p.(root := root)
    case None => p
  }

  ghost function ReplaceWindow(c: Container, outgoing: string, incoming: string): Option<Container> {
    if outgoing == "" || incoming == "" || outgoing !in WindowsOf(c.pages) || incoming in WindowsOf(c.pages) then None
    else
      var pages := seq(|c.pages|, i requires 0 <= i < |c.pages| => ReplacedPage(c.pages[i], outgoing, incoming));
      Some(c.(pages := pages))
  }

  ghost function RenamePage(c: Container, pageId: string, name: string): Option<Container> {
    if !ValidName(Trimmed(name)) then None
    else
      match PageIndex(c.pages, pageId)
      case None => None
      case Some(i) => Some(c.(pages := c.pages[i := c.pages[i].(name := Trimmed(name))]))
  }
}
