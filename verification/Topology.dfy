// Session-wide window ownership and the commands that edit it: src/hybrid/windowtopology.cpp,
// src/hybrid/topologymutation.cpp, src/hybrid/topologyplacementmutation.cpp and
// src/hybrid/topologyadoptionmutation.cpp.

module Topologies {
  import opened Basics
  import opened Layout
  import opened Containers

  // Every known window is independent or shown by one container.
  datatype Topology = Topology(revision: uint64, containers: map<string, Container>, independent: set<string>)

  // ---------------------------------------------------------------- ownership

  ghost function Owned(t: Topology): set<string> {
    set k, w | k in t.containers && w in WindowsOf(t.containers[k].pages) :: w
  }

  ghost function AllWindows(t: Topology): set<string> {
    t.independent + Owned(t)
  }

  // Every persisted pairing of an owned window with its leaf node.
  ghost function AllHandles(t: Topology): set<(string, string)> {
    set k, h | k in t.containers && h in HandlesOf(t.containers[k].pages) :: h
  }

  // What holds between a command and its normalization: containers may have become empty or
  // singletons, but everything else about a published topology already holds.
  ghost predicate Staged(t: Topology) {
    && "" !in t.independent
    && (forall k :: k in t.containers ==>
         && t.containers[k].id == k
         && ValidContainer(t.containers[k])
         && WindowsOf(t.containers[k].pages) !! t.independent)
    && (forall k, l :: k in t.containers && l in t.containers && k != l ==>
         WindowsOf(t.containers[k].pages) !! WindowsOf(t.containers[l].pages))
  }

  predicate Dissolves(c: Container) {
    c.pages == [] || SingleWindowId(c).Some?
  }

  // What WindowTopology::validate accepts.
  ghost predicate ValidTopology(t: Topology) {
    Staged(t) && forall k :: k in t.containers ==> !Dissolves(t.containers[k])
  }

  ghost function OwnerOf(t: Topology, w: string): Option<string> {
    if k :| k in t.containers && w in WindowsOf(t.containers[k].pages) then Some(k) else None
  }

  function ContainerAt(t: Topology, k: string): Option<Container> {
    if k in t.containers then Some(t.containers[k]) else None
  }

  function Put(t: Topology, c: Container): Topology {
    t.(containers := t.containers[c.id := c])
  }

  function Drop(t: Topology, k: string): Topology {
    t.(containers := t.containers - {k})
  }

  // ----------------------------------------------------------------- commands

  datatype MemberDestination =
    | MoveAsPage(pageId: string, destinationPageIndex: int)
    | MoveAsSplit(targetWindowId: string, splitNodeId: string, orientation: Orientation, ratio: real,
                  position: Position)
    | MoveAsRootSplit(pageId: string, splitNodeId: string, orientation: Orientation, ratio: real, position: Position)

  datatype RegroupLayout =
    | RegroupAsSplit(pageId: string, independentLeafNodeId: string, splitNodeId: string,
                     orientation: Orientation, ratio: real, memberPosition: Position)
    | RegroupAsPages(independentPageId: string, memberPageId: string, independentLeafNodeId: string)

  datatype Command =
    | AddIndependentWindow(windowId: string)
    | ForgetWindow(windowId: string)
    | DockIndependentWindows(containerId: string, pageId: string, firstWindowId: string, firstLeafNodeId: string,
                             secondWindowId: string, secondLeafNodeId: string, splitNodeId: string,
                             orientation: Orientation, ratio: real, secondPosition: Position)
    | MergeContainers(targetContainerId: string, sourceContainerId: string, destinationPageIndex: int)
    | MovePageBetween(sourceContainerId: string, targetContainerId: string, pageId: string, destinationPageIndex: int)
    | DetachPageFrom(sourceContainerId: string, pageId: string, newContainerId: string)
    | MoveMemberToPage(containerId: string, windowId: string, newPageId: string, targetPageId: string, activate: bool)
    | RegroupPageWithIndependent(sourceContainerId: string, pageId: string, independentWindowId: string,
                                 newContainerId: string, independentPageId: string, independentLeafNodeId: string)
    | InsertIndependentWindow(targetContainerId: string, windowId: string, leafNodeId: string,
                              destination: MemberDestination, activate: bool)
    | GroupIndependentWindowsAsPages(containerId: string,
                                     firstWindowId: string, firstPageId: string, firstLeafNodeId: string,
                                     secondWindowId: string, secondPageId: string, secondLeafNodeId: string,
                                     activate: bool)
    | RegroupMemberWithIndependent(sourceContainerId: string, memberWindowId: string, independentWindowId: string,
                                   newContainerId: string, layout: RegroupLayout, activate: bool)
    | MoveMember(sourceContainerId: string, targetContainerId: string, windowId: string,
                 destination: MemberDestination, activate: bool)
    | ReorderPage(containerId: string, pageId: string, destinationPageIndex: int)
    | ActivateContainerPage(containerId: string, pageId: string)
    | RenameContainerPage(containerId: string, pageId: string, name: string)
    | ResizeSplit(containerId: string, splitNodeId: string, ratio: real)
    | ReorderMembers(containerId: string, firstWindowId: string, secondWindowId: string)
    | ReparentMember(containerId: string, windowId: string, targetWindowId: string, splitNodeId: string,
                     orientation: Orientation, ratio: real, position: Position)
    | ReparentMemberToPageRoot(containerId: string, windowId: string, pageId: string, splitNodeId: string,
                               orientation: Orientation, ratio: real, position: Position)
    | DetachMember(containerId: string, windowId: string)
    | ReleaseContainer(containerId: string)
    | AdoptIndependentLayout(container: Container)
    | ReplaceMemberWindow(containerId: string, outgoingWindowId: string, incomingWindowId: string)

  // ------------------------------------------------- edits inside one container

  function SplitRequestFor(d: MemberDestination, w: string, leafId: string): SplitRequest
    requires d.MoveAsSplit?
  {
    SplitRequest(d.targetWindowId, w, leafId, d.splitNodeId, d.orientation, d.ratio, d.position)
  }

  function PageSplitRequestFor(d: MemberDestination, w: string, leafId: string): PageSplitRequest
    requires d.MoveAsRootSplit?
  {
    PageSplitRequest(d.pageId, w, leafId, d.splitNodeId, d.orientation, d.ratio, d.position)
  }

  // A window arrives in a container as a page, beside a member, or beside a whole page.
  ghost function PlaceMember(c: Container, w: string, leafId: string, d: MemberDestination): Option<Container> {
    match d
    case MoveAsPage(pageId, index) =>
      :- Need(0 <= index <= |c.pages|);
      var added :- AddPage(c, NewPage(pageId, leafId, w));
      if index == |c.pages| then Some(added) else MovePage(added, pageId, index)
    case MoveAsRootSplit(_, _, _, _, _) => SplitPage(c, PageSplitRequestFor(d, w, leafId))
    case MoveAsSplit(_, _, _, _, _) => SplitWindow(c, SplitRequestFor(d, w, leafId))
  }

  // A split whose two children are exactly the leaves the placement would create, in order,
  // under the requested orientation and ratio. `findWindow` results are compared with the
  // child pointers through their paths.
  predicate IsDirectSiblingNoOp(node: LayoutNode, windowId: string, targetWindowId: string,
                                orientation: Orientation, ratio: real, position: Position)
  {
    if node.Leaf? then false
    else
      var firstId := if position.First? then windowId else targetWindowId;
      var secondId := if position.First? then targetWindowId else windowId;
      || (&& FindPath(node, firstId) == Some([First])
          && FindPath(node, secondId) == Some([Second])
          && IsLeafWindow(node.first, firstId) && IsLeafWindow(node.second, secondId)
          && node.orientation == orientation && node.ratio == ratio)
      || IsDirectSiblingNoOp(node.first, windowId, targetWindowId, orientation, ratio, position)
      || IsDirectSiblingNoOp(node.second, windowId, targetWindowId, orientation, ratio, position)
  }

  predicate IsLeafWindow(node: LayoutNode, windowId: string) {
    node.Leaf? && node.windowId == windowId
  }

  predicate IsRootSiblingNoOp(root: LayoutNode, windowId: string, orientation: Orientation, ratio: real,
                              position: Position) {
    && root.Split?
    && IsLeafWindow(if position.First? then root.first else root.second, windowId)
    && root.orientation == orientation && root.ratio == ratio
  }

  // What re-splitting beside the target makes of a container the member has left.
  ghost function Reattach(d: DetachedWindow, target: string, splitId: string,
                          orientation: Orientation, ratio: real, position: Position): Option<Container>
  {
    SplitWindow(d.rest, SplitRequest(target, d.windowId, d.leafNodeId, splitId, orientation, ratio, position))
  }

  ghost function ReattachToRoot(d: DetachedWindow, pageId: string, splitId: string,
                                orientation: Orientation, ratio: real, position: Position): Option<Container>
  {
    SplitPage(d.rest, PageSplitRequest(pageId, d.windowId, d.leafNodeId, splitId, orientation, ratio, position))
  }

  ghost function Reparented(c: Container, w: string, target: string, splitId: string,
                            orientation: Orientation, ratio: real, position: Position): Option<Container>
  {
    var apart := w != target && w in WindowsOf(c.pages) && target in WindowsOf(c.pages);
    :- Need(apart);
    :- Need(FindContainerNode(c.pages, splitId).None?);
    :- Need(forall p :: p in c.pages ==> !IsDirectSiblingNoOp(p.root, w, target, orientation, ratio, position));
    var d :- DetachWindow(c, w);
    Reattach(d, target, splitId, orientation, ratio, position)
  }

  ghost function ReparentedToRoot(c: Container, w: string, pageId: string, splitId: string,
                                  orientation: Orientation, ratio: real, position: Position): Option<Container>
  {
    var i :- PageIndex(c.pages, pageId);
    :- Need(w in WindowsOf(c.pages));
    :- Need(FindContainerNode(c.pages, splitId).None?);
    :- Need(!IsLeafWindow(c.pages[i].root, w));
    :- Need(!IsRootSiblingNoOp(c.pages[i].root, w, orientation, ratio, position));
    var d :- DetachWindow(c, w);
    ReattachToRoot(d, pageId, splitId, orientation, ratio, position)
  }

  // The member becomes a page of its own right after the target page.
  ghost function ExtractedToPage(c: Container, w: string, newPageId: string, targetPageId: string,
                                 activate: bool): Option<Container> {
    var s :- WindowPage(c.pages, w);
    :- Need(HasPage(c.pages, targetPageId));
    :- Need(c.pages[s].id != targetPageId || c.pages[s].root.Split?);
    var d :- DetachWindow(c, w);
    var i :- PageIndex(d.rest.pages, targetPageId);
    PageInserted(d.rest, NewPage(newPageId, d.leafNodeId, w), i + 1, activate)
  }

  // Appended, moved unless already in place, and activated if asked for.
  ghost function PageInserted(c: Container, page: ContainerPage, index: nat, activate: bool): Option<Container> {
    var added :- AddPage(c, page);
    var moved :- if index == |added.pages| - 1 then Some(added) else MovePage(added, page.id, index);
    if activate then ActivatePage(moved, page.id) else Some(moved)
  }

  ghost function GroupWith(group: Container, d: DetachedWindow, independentWindowId: string,
                           layout: RegroupLayout): Option<Container> {
    match layout
    case RegroupAsSplit(pageId, leafId, splitId, orientation, ratio, position) =>
      var one :- AddPage(group, NewPage(pageId, leafId, independentWindowId));
      SplitWindow(one,
                  SplitRequest(independentWindowId, d.windowId, d.leafNodeId, splitId, orientation, ratio, position))
    case RegroupAsPages(independentPageId, memberPageId, leafId) =>
      var one :- AddPage(group, NewPage(independentPageId, leafId, independentWindowId));
      AddPage(one, NewPage(memberPageId, d.leafNodeId, d.windowId))
  }

  function Empty(containerId: string): Container {
    Container(containerId, [], "")
  }

  // Appending pages one by one, each keeping its number when it can.
  ghost function AddPages(c: Container, ps: seq<ContainerPage>): (r: Option<Container>)
    ensures r.Some? ==> |r.value.pages| == |c.pages| + |ps|
    decreases |ps|
  {
    if ps == [] then Some(c)
    else
      var rest :- AddPages(c, ps[..|ps| - 1]);
      AddPage(rest, ps[|ps| - 1])
  }

  // The last `|pages| - n` pages brought forward to index `d`, in order.
  function Spliced<T>(s: seq<T>, n: nat, d: nat): seq<T>
    requires d <= n <= |s|
  {
    s[..d] + s[n..] + s[d..n]
  }

  // ------------------------------------------------------- what each command does

  ghost function Forgotten(t: Topology, command: Command): Option<Topology>
    requires command.ForgetWindow?
  {
    var ForgetWindow(w) := command;
    if w in t.independent then Some(t.(independent := t.independent - {w}))
    else
      var k :- OwnerOf(t, w);
      var d :- DetachWindow(t.containers[k], w);
      Some(Put(t, d.rest))
  }

  ghost function Docked(t: Topology, command: Command): Option<Topology>
    requires command.DockIndependentWindows?
  {
    var DockIndependentWindows(k, pageId, first, firstLeaf, second, secondLeaf, splitId, orientation, ratio, position)
      := command;
    :- Need(first != second && k !in t.containers && first in t.independent && second in t.independent);
    var one :- AddPage(Empty(k), NewPage(pageId, firstLeaf, first));
    var two :- SplitWindow(one, SplitRequest(first, second, secondLeaf, splitId, orientation, ratio, position));
    Some(Put(t, two).(independent := t.independent - {first, second}))
  }

  ghost function Merged(t: Topology, command: Command): Option<Topology>
    requires command.MergeContainers?
  {
    var MergeContainers(targetId, sourceId, index) := command;
    :- Need(targetId != sourceId);
    var target :- ContainerAt(t, targetId);
    var source :- ContainerAt(t, sourceId);
    var n := |target.pages|;
    :- Need(0 <= index <= n);
    var all :- AddPages(target, source.pages);
    Some(Drop(Put(t, all.(pages := Spliced(all.pages, n, index))), sourceId))
  }

  ghost function PageMoved(t: Topology, command: Command): Option<Topology>
    requires command.MovePageBetween?
  {
    var MovePageBetween(sourceId, targetId, pageId, index) := command;
    :- Need(sourceId != targetId);
    var source :- ContainerAt(t, sourceId);
    var target :- ContainerAt(t, targetId);
    :- Need(0 <= index <= |target.pages|);
    var d :- DetachPage(source, pageId);
    var added :- AddPage(target, d.page);
    var moved :- if index == |target.pages| then Some(added) else MovePage(added, pageId, index);
    Some(Put(Put(t, d.rest), moved))
  }

  ghost function PageDetached(t: Topology, command: Command): Option<Topology>
    requires command.DetachPageFrom?
  {
    var DetachPageFrom(sourceId, pageId, newId) := command;
    var source :- ContainerAt(t, sourceId);
    :- Need(|source.pages| > 1);
    var d :- DetachPage(source, pageId);
    if d.page.root.Leaf? then
      Some(Put(t, d.rest).(independent := t.independent + {d.page.root.windowId}))
    else
      :- Need(newId != "" && newId !in t.containers);
      var separated :- AddPage(Empty(newId), d.page);
      Some(Put(Put(t, d.rest), separated))
  }

  ghost function PageRegrouped(t: Topology, command: Command): Option<Topology>
    requires command.RegroupPageWithIndependent?
  {
    var RegroupPageWithIndependent(sourceId, pageId, w, newId, independentPageId, leafId) := command;
    :- Need(newId != "" && newId !in t.containers);
    var source :- ContainerAt(t, sourceId);
    :- Need(w in t.independent);
    var d :- DetachPage(source, pageId);
    var one :- AddPage(Empty(newId), NewPage(independentPageId, leafId, w));
    var group :- AddPage(one, d.page);
    Some(Put(Put(t, d.rest), group).(independent := t.independent - {w}))
  }

  ghost function Inserted(t: Topology, command: Command): Option<Topology>
    requires command.InsertIndependentWindow?
  {
    var InsertIndependentWindow(k, w, leafId, destination, activate) := command;
    :- Need(w in t.independent);
    var c :- ContainerAt(t, k);
    var placed :- PlaceMember(c, w, leafId, destination);
    :- Need(activate ==> destination.MoveAsPage?);
    var c' :- if activate then ActivatePage(placed, destination.pageId) else Some(placed);
    Some(Put(t, c').(independent := t.independent - {w}))
  }

  ghost function Grouped(t: Topology, command: Command): Option<Topology>
    requires command.GroupIndependentWindowsAsPages?
  {
    var GroupIndependentWindowsAsPages(k, first, firstPage, firstLeaf, second, secondPage, secondLeaf, activate)
      := command;
    :- Need(first != second && k !in t.containers && first in t.independent && second in t.independent);
    var one :- AddPage(Empty(k), NewPage(firstPage, firstLeaf, first));
    var two :- AddPage(one, NewPage(secondPage, secondLeaf, second));
    var group :- if activate then ActivatePage(two, secondPage) else Some(two);
    Some(Put(t, group).(independent := t.independent - {first, second}))
  }

  ghost function MemberRegrouped(t: Topology, command: Command): Option<Topology>
    requires command.RegroupMemberWithIndependent?
  {
    var RegroupMemberWithIndependent(sourceId, member, w, newId, layout, activate) := command;
    :- Need((activate ==> layout.RegroupAsPages?) && member != w && newId !in t.containers);
    var source :- ContainerAt(t, sourceId);
    :- Need(w in t.independent);
    var d :- DetachWindow(source, member);
    var grouped :- GroupWith(Empty(newId), d, w, layout);
    var group :- if activate then ActivatePage(grouped, layout.memberPageId) else Some(grouped);
    Some(Put(Put(t, d.rest), group).(independent := t.independent - {w}))
  }

  ghost function MemberMoved(t: Topology, command: Command): Option<Topology>
    requires command.MoveMember?
  {
    var MoveMember(sourceId, targetId, w, destination, activate) := command;
    :- Need(sourceId != targetId && (activate ==> destination.MoveAsPage?));
    var source :- ContainerAt(t, sourceId);
    var target :- ContainerAt(t, targetId);
    var d :- DetachWindow(source, w);
    var placed :- PlaceMember(target, w, d.leafNodeId, destination);
    var target' :- if activate then ActivatePage(placed, destination.pageId) else Some(placed);
    Some(Put(Put(t, d.rest), target'))
  }

  // Commands that work inside one container.
  predicate Within(command: Command) {
    || command.MoveMemberToPage? || command.ReorderPage? || command.ActivateContainerPage?
    || command.RenameContainerPage? || command.ResizeSplit? || command.ReorderMembers? || command.ReparentMember?
    || command.ReparentMemberToPageRoot?
  }

  ghost function WithinContainer(c: Container, command: Command): Option<Container>
    requires Within(command)
  {
    match command
    case MoveMemberToPage(_, w, newPageId, targetPageId, activate) =>
      ExtractedToPage(c, w, newPageId, targetPageId, activate)
    case ReorderPage(_, pageId, index) => MovePage(c, pageId, index)
    case ActivateContainerPage(_, pageId) => if c.activePageId == pageId then None else ActivatePage(c, pageId)
    case RenameContainerPage(_, pageId, name) => RenamePage(c, pageId, name)
    case ResizeSplit(_, splitId, ratio) =>
      var node := FindContainerNode(c.pages, splitId);
      if node.Some? && node.value.Split? && node.value.ratio == ratio then None else SetSplitRatio(c, splitId, ratio)
    case ReorderMembers(_, first, second) => SwapWindows(c, first, second)
    case ReparentMember(_, w, target, splitId, orientation, ratio, position) =>
      Reparented(c, w, target, splitId, orientation, ratio, position)
    case ReparentMemberToPageRoot(_, w, pageId, splitId, orientation, ratio, position) =>
      ReparentedToRoot(c, w, pageId, splitId, orientation, ratio, position)
  }

  ghost function Reworked(t: Topology, command: Command): Option<Topology>
    requires Within(command)
  {
    var c :- ContainerAt(t, command.containerId);
    var c' :- WithinContainer(c, command);
    Some(Put(t, c'))
  }

  ghost function MemberDetached(t: Topology, command: Command): Option<Topology>
    requires command.DetachMember?
  {
    var DetachMember(k, w) := command;
    var c :- ContainerAt(t, k);
    var d :- DetachWindow(c, w);
    Some(Put(t, d.rest).(independent := t.independent + {w}))
  }

  ghost function Released(t: Topology, command: Command): Option<Topology>
    requires command.ReleaseContainer?
  {
    var c :- ContainerAt(t, command.containerId);
    Some(Drop(t, command.containerId).(independent := t.independent + WindowsOf(c.pages)))
  }

  ghost function Adopted(t: Topology, command: Command): Option<Topology>
    requires command.AdoptIndependentLayout?
  {
    var AdoptIndependentLayout(c) := command;
    :- Need(ValidContainer(c) && c.id !in t.containers);
    :- Need(!Dissolves(c) && WindowsOf(c.pages) <= t.independent);
    Some(Put(t, c).(independent := t.independent - WindowsOf(c.pages)))
  }

  ghost function MemberReplaced(t: Topology, command: Command): Option<Topology>
    requires command.ReplaceMemberWindow?
  {
    var ReplaceMemberWindow(k, outgoing, incoming) := command;
    var c :- ContainerAt(t, k);
    :- Need(incoming in t.independent);
    var c' :- ReplaceWindow(c, outgoing, incoming);
    Some(Put(t, c').(independent := t.independent + {outgoing} - {incoming}))
  }

  ghost function Apply(t: Topology, command: Command): Option<Topology> {
    match command
    case AddIndependentWindow(w) =>
      :- Need(w != "" && w !in AllWindows(t));
      Some(t.(independent := t.independent + {w}))
    case ForgetWindow(_) => Forgotten(t, command)
    case DockIndependentWindows(_, _, _, _, _, _, _, _, _, _) => Docked(t, command)
    case MergeContainers(_, _, _) => Merged(t, command)
    case MovePageBetween(_, _, _, _) => PageMoved(t, command)
    case DetachPageFrom(_, _, _) => PageDetached(t, command)
    case RegroupPageWithIndependent(_, _, _, _, _, _) => PageRegrouped(t, command)
    case InsertIndependentWindow(_, _, _, _, _) => Inserted(t, command)
    case GroupIndependentWindowsAsPages(_, _, _, _, _, _, _, _) => Grouped(t, command)
    case RegroupMemberWithIndependent(_, _, _, _, _, _) => MemberRegrouped(t, command)
    case MoveMember(_, _, _, _, _) => MemberMoved(t, command)
    case DetachMember(_, _) => MemberDetached(t, command)
    case ReleaseContainer(_) => Released(t, command)
    case AdoptIndependentLayout(_) => Adopted(t, command)
    case ReplaceMemberWindow(_, _, _) => MemberReplaced(t, command)
    case _ => Reworked(t, command)
  }

  // Empty and singleton containers dissolve; a singleton's window becomes independent.
  ghost function Normalize(t: Topology): Topology {
    t.(containers := map k | k in t.containers && !Dissolves(t.containers[k]) :: t.containers[k],
       independent := t.independent + set k | k in t.containers && SingleWindowId(t.containers[k]).Some?
                                            :: SingleWindowId(t.containers[k]).value)
  }
}
