// The candidate that commands edit step by step: src/hybrid/windowtopology.cpp and the
// mutation files beside it. Every command method is proved to accept exactly what
// Topologies.Apply accepts and to reach the topology it describes.

module WindowTopologyObject {
  import opened Basics
  import opened Layout
  import opened Containers
  import opened ContainerProofs
  import opened Topologies
  import opened TopologyProofs
  import opened WindowContainerObject

  ghost predicate Performs(ok: bool, before: Topology, after: Topology, command: Command) {
    if ok then Apply(before, command) == Some(after) else Apply(before, command).None?
  }

  class WindowTopology {
    var revision: uint64
    var containers: map<string, Container>
    var independentWindows: set<string>

    function Value(): Topology
      reads this
    {
      Topology(revision, containers, independentWindows)
    }

    constructor CopyOf(t: Topology)
      ensures Value() == t
    {
      revision, containers, independentWindows := t.revision, t.containers, t.independent;
    }

    // ---------------------------------------------------------------- queries

    method OwnerOf(w: string) returns (owner: Option<string>)
      requires Staged(Value())
      ensures owner == Topologies.OwnerOf(Value(), w)
      ensures owner.Some? <==> w in Owned(Value())
    {
      var rest := containers.Keys;
      while rest != {}
        invariant rest <= containers.Keys
        invariant forall k :: k in containers && k !in rest ==> w !in WindowsOf(containers[k].pages)
        decreases |rest|
      {
        var k :| k in rest;
        var c := new WindowContainer.CopyOf(containers[k]);
        var leaf := c.FindWindow(w);
        if leaf.Some? {
          OwnerUnique(Value(), w, k);
          return Some(k);
        }
        rest := rest - {k};
      }
      return None;
    }

    // The windows of a container in page and leaf order.
    method ContainerWindows(c: Container) returns (windows: seq<string>)
      ensures forall w :: w in windows <==> w in WindowsOf(c.pages)
      ensures windows == Members(c.pages)
    {
      windows := [];
      var i := 0;
      while i < |c.pages|
        invariant 0 <= i <= |c.pages|
        invariant windows == Members(c.pages[..i])
      {
        assert c.pages[..i + 1][..i] == c.pages[..i];
        windows := windows + LeafOrder(c.pages[i].root);
        i := i + 1;
      }
      assert c.pages[..|c.pages|] == c.pages;
      MembersAreWindows(c.pages);
    }

    method Validate() returns (valid: bool)
      ensures valid <==> ValidTopology(Value())
    {
      hide WindowsOf, ValidContainer, ValidTopology, AllWindows;
      if "" in independentWindows {
        NoEmptyIndependent(Value());
        return false;
      }
      var ownedWindows := independentWindows;
      ghost var done := {};
      var rest := containers.Keys;
      NothingOwned(Value());
      while rest != {}
        invariant rest + done == containers.Keys && rest !! done
        invariant ValidTopology(Part(Value(), done))
        invariant ownedWindows == AllWindows(Part(Value(), done))
        decreases |rest|
      {
        var k :| k in rest;
        var c := containers[k];
        OneMore(Value(), done, k);
        PartValid(Value(), done + {k});
        if k != c.id {
          return false;
        }
        var container := new WindowContainer.CopyOf(c);
        var containerValid := container.Validate();
        if !containerValid {
          return false;
        }
        if c.pages == [] || SingleWindowId(c).Some? {
          return false;
        }
        var windows := ContainerWindows(c);
        DistinctMembers(c);
        var disjoint;
        disjoint, ownedWindows := TakeOwnership(windows, ownedWindows);
        if !disjoint {
          return false;
        }
        rest, done := rest - {k}, done + {k};
      }
      assert Part(Value(), containers.Keys) == Value();
      return true;
    }

    // Claims windows one after another until one is already taken.
    method TakeOwnership(windows: seq<string>, owned: set<string>) returns (disjoint: bool, owned': set<string>)
      requires AllDistinct(windows)
      ensures disjoint <==> forall w :: w in windows ==> w !in owned
      ensures disjoint ==> owned' == owned + set w | w in windows
    {
      owned' := owned;
      var i := 0;
      while i < |windows|
        invariant 0 <= i <= |windows|
        invariant forall j :: 0 <= j < i ==> windows[j] !in owned
        invariant owned' == owned + set w | w in windows[..i]
      {
        if windows[i] in owned' {
          return false, owned';
        }
        assert windows[..i + 1] == windows[..i] + [windows[i]];
        owned' := owned' + {windows[i]};
        i := i + 1;
      }
      assert windows[..|windows|] == windows;
      return true, owned';
    }

    // --------------------------------------------------------------- commands

    // The container object behind a name, or null.
    method Container(k: string) returns (c: WindowContainer?)
      ensures if k in containers then c != null && fresh(c) && c.Value() == containers[k] else c == null
      ensures Staged(Value()) && c != null ==> c.id == k
    {
      if k !in containers {
        return null;
      }
      c := new WindowContainer.CopyOf(containers[k]);
    }

    method ApplyAddIndependent(w: string) returns (ok: bool)
      requires Staged(Value())
      modifies this
      ensures Performs(ok, old(Value()), Value(), AddIndependentWindow(w))
    {
      if w == "" {
        return false;
      }
      var owner := OwnerOf(w);
      if w in independentWindows || owner.Some? {
        return false;
      }
      independentWindows := independentWindows + {w};
      return true;
    }

    method ApplyForget(w: string) returns (ok: bool)
      requires Staged(Value())
      modifies this
      ensures Performs(ok, old(Value()), Value(), ForgetWindow(w))
    {
      hide WindowsOf, HandlesOf, IdsOf, ValidContainer, Staged, AddPage, MovePage, DetachPage, DetachWindow,
           SplitWindow, SplitPage, Containers.ActivatePage, Containers.ReplaceWindow;
      if w in independentWindows {
        independentWindows := independentWindows - {w};
        return true;
      }
      var owner := OwnerOf(w);
      if owner.None? {
        return false;
      }
      var container := Container(owner.value);
      var detached := container.DetachWindow(w);
      if detached.None? {
        return false;
      }
      containers := containers[owner.value := container.Value()];
      return true;
    }

    method ApplyDock(command: Command) returns (ok: bool)
      requires command.DockIndependentWindows?
      modifies this
      ensures Performs(ok, old(Value()), Value(), command)
    {
      hide WindowsOf, HandlesOf, IdsOf, ValidContainer, Staged, AddPage, MovePage, DetachPage, DetachWindow,
           SplitWindow, SplitPage, Containers.ActivatePage, Containers.ReplaceWindow;
      var DockIndependentWindows(k, pageId, first, firstLeaf, second, secondLeaf, splitId, orientation, ratio, position)
        := command;
      if first == second || k in containers || first !in independentWindows || second !in independentWindows {
        return false;
      }
      var container := new WindowContainer(k);
      var added := container.AddPage(NewPage(pageId, firstLeaf, first));
      if !added {
        return false;
      }
      var request := SplitRequest(first, second, secondLeaf, splitId, orientation, ratio, position);
      var split := container.SplitWindow(request);
      if !split {
        return false;
      }
      independentWindows := independentWindows - {first};
      independentWindows := independentWindows - {second};
      containers := containers[container.id := container.Value()];
      assert old(independentWindows) - {first} - {second} == old(independentWindows) - {first, second};
      return true;
    }

    method ApplyMovePage(command: Command) returns (ok: bool)
      requires command.MovePageBetween? && Staged(Value())
      modifies this
      ensures Performs(ok, old(Value()), Value(), command)
    {
      hide WindowsOf, HandlesOf, IdsOf, ValidContainer, Staged, AddPage, MovePage, DetachPage, DetachWindow,
           SplitWindow, SplitPage, Containers.ActivatePage, Containers.ReplaceWindow;
      var MovePageBetween(sourceId, targetId, pageId, index) := command;
      if sourceId == targetId {
        return false;
      }
      var source := Container(sourceId);
      var target := Container(targetId);
      if source == null || target == null {
        return false;
      }
      var targetSize := |target.pages|;
      if index < 0 || index > targetSize {
        return false;
      }
      var page := source.DetachPage(pageId);
      if page.None? {
        return false;
      }
      ok := target.AddPage(page.value);
      if ok && index != targetSize {
        ok := target.MovePage(pageId, index);
      }
      containers := containers[sourceId := source.Value()][targetId := target.Value()];
    }

    method ApplyDetachPage(command: Command) returns (ok: bool)
      requires command.DetachPageFrom? && Staged(Value())
      modifies this
      ensures Performs(ok, old(Value()), Value(), command)
    {
      hide WindowsOf, HandlesOf, IdsOf, ValidContainer, Staged, AddPage, MovePage, DetachWindow, SplitWindow,
           SplitPage, Containers.ActivatePage, Containers.ReplaceWindow;
      var DetachPageFrom(sourceId, pageId, newId) := command;
      var source := Container(sourceId);
      if source == null || |source.pages| <= 1 {
        return false;
      }
      var page := source.FindPage(pageId);
      if page.None? {
        return false;
      }
      var createsContainer := source.pages[page.value].root.Split?;
      if createsContainer && (newId == "" || newId in containers) {
        return false;
      }
      var detached := source.DetachPage(pageId);
      if detached.None? {
        return false;
      }
      containers := containers[sourceId := source.Value()];
      if !createsContainer {
        independentWindows := independentWindows + {detached.value.root.windowId};
        return true;
      }
      var separated := new WindowContainer(newId);
      ok := separated.AddPage(detached.value);
      if ok {
        containers := containers[separated.id := separated.Value()];
      }
    }

    // A window arrives in a container: MoveMember and InsertIndependentWindow share this.
    method Place(target: WindowContainer, w: string, leafId: string, destination: MemberDestination) returns (ok: bool)
      modifies target
      ensures target.id == old(target.id)
      ensures ok ==> PlaceMember(old(target.Value()), w, leafId, destination) == Some(target.Value())
      ensures !ok ==> PlaceMember(old(target.Value()), w, leafId, destination).None?
    {
      hide WindowsOf, HandlesOf, IdsOf, ValidContainer, Staged, AddPage, MovePage, DetachPage, DetachWindow,
           SplitWindow, SplitPage, Containers.ActivatePage, Containers.ReplaceWindow;
      match destination {
        case MoveAsPage(pageId, index) =>
          var oldSize := |target.pages|;
          if index < 0 || index > oldSize {
            return false;
          }
          ok := target.AddPage(NewPage(pageId, leafId, w));
          if ok && index != oldSize {
            ok := target.MovePage(pageId, index);
          }
        case MoveAsRootSplit(_, _, _, _, _) =>
          ok := target.SplitPage(PageSplitRequestFor(destination, w, leafId));
        case MoveAsSplit(_, _, _, _, _) =>
          ok := target.SplitWindow(SplitRequestFor(destination, w, leafId));
      }
    }

    method ApplyMove(command: Command) returns (ok: bool)
      requires command.MoveMember? && Staged(Value())
      modifies this
      ensures Performs(ok, old(Value()), Value(), command)
    {
      hide WindowsOf, HandlesOf, IdsOf, ValidContainer, Staged, AddPage, MovePage, DetachPage, DetachWindow,
           SplitWindow, SplitPage, Containers.ActivatePage, Containers.ReplaceWindow;
      var MoveMember(sourceId, targetId, w, destination, activate) := command;
      if sourceId == targetId || (activate && !destination.MoveAsPage?) {
        return false;
      }
      var source := Container(sourceId);
      var target := Container(targetId);
      if source == null || target == null {
        return false;
      }
      var detached := source.DetachWindow(w);
      if detached.None? {
        return false;
      }
      ok := Place(target, detached.value.0, detached.value.1, destination);
      if ok && activate {
        ok := target.ActivatePage(destination.pageId);
      }
      containers := containers[sourceId := source.Value()][targetId := target.Value()];
    }

    method ApplyInsert(command: Command) returns (ok: bool)
      requires command.InsertIndependentWindow? && Staged(Value())
      modifies this
      ensures Performs(ok, old(Value()), Value(), command)
    {
      hide WindowsOf, HandlesOf, IdsOf, ValidContainer, Staged, AddPage, MovePage, DetachPage, DetachWindow,
           SplitWindow, SplitPage, Containers.ActivatePage, Containers.ReplaceWindow;
      var InsertIndependentWindow(k, w, leafId, destination, activate) := command;
      if w !in independentWindows {
        return false;
      }
      var target := Container(k);
      if target == null {
        return false;
      }
      var placed := Place(target, w, leafId, destination);
      if !placed {
        return false;
      }
      if activate {
        if !destination.MoveAsPage? {
          return false;
        }
        var active := target.ActivatePage(destination.pageId);
        if !active {
          return false;
        }
      }
      independentWindows := independentWindows - {w};
      containers := containers[k := target.Value()];
      return true;
    }

    method ApplyGroup(command: Command) returns (ok: bool)
      requires command.GroupIndependentWindowsAsPages?
      modifies this
      ensures Performs(ok, old(Value()), Value(), command)
    {
      hide WindowsOf, HandlesOf, IdsOf, ValidContainer, Staged, AddPage, MovePage, DetachPage, DetachWindow,
           SplitWindow, SplitPage, Containers.ActivatePage, Containers.ReplaceWindow;
      var GroupIndependentWindowsAsPages(k, first, firstPage, firstLeaf, second, secondPage, secondLeaf, activate)
        := command;
      if first == second || k in containers || first !in independentWindows || second !in independentWindows {
        return false;
      }
      var group := new WindowContainer(k);
      ok := group.AddPage(NewPage(firstPage, firstLeaf, first));
      if !ok {
        return;
      }
      ok := group.AddPage(NewPage(secondPage, secondLeaf, second));
      if !ok {
        return;
      }
      if activate {
        ok := group.ActivatePage(secondPage);
        if !ok {
          return;
        }
      }
      independentWindows := independentWindows - {first};
      independentWindows := independentWindows - {second};
      containers := containers[group.id := group.Value()];
      assert old(independentWindows) - {first} - {second} == old(independentWindows) - {first, second};
    }

    method ApplyRegroupMember(command: Command) returns (ok: bool)
      requires command.RegroupMemberWithIndependent? && Staged(Value())
      modifies this
      ensures Performs(ok, old(Value()), Value(), command)
    {
      hide WindowsOf, HandlesOf, IdsOf, ValidContainer, Staged, AddPage, MovePage, DetachPage, DetachWindow,
           SplitWindow, SplitPage, Containers.ActivatePage, Containers.ReplaceWindow;
      var RegroupMemberWithIndependent(sourceId, member, w, newId, layout, activate) := command;
      if (activate && !layout.RegroupAsPages?) || member == w || newId in containers {
        return false;
      }
      var source := Container(sourceId);
      if source == null || w !in independentWindows {
        return false;
      }
      var detached := source.DetachWindow(member);
      if detached.None? {
        return false;
      }
      containers := containers[sourceId := source.Value()];
      var leafNodeId := detached.value.1;
      var group := new WindowContainer(newId);
      match layout {
        case RegroupAsSplit(pageId, leafId, splitId, orientation, ratio, position) =>
          ok := group.AddPage(NewPage(pageId, leafId, w));
          if ok {
            ok := group.SplitWindow(SplitRequest(w, member, leafNodeId, splitId, orientation, ratio, position));
          }
        case RegroupAsPages(independentPageId, memberPageId, leafId) =>
          ok := group.AddPage(NewPage(independentPageId, leafId, w));
          if ok {
            ok := group.AddPage(NewPage(memberPageId, leafNodeId, member));
          }
      }
      if ok && activate {
        ok := group.ActivatePage(layout.memberPageId);
      }
      if ok {
        independentWindows := independentWindows - {w};
        containers := containers[group.id := group.Value()];
      }
    }

    method ApplyRegroupPage(command: Command) returns (ok: bool)
      requires command.RegroupPageWithIndependent? && Staged(Value())
      modifies this
      ensures Performs(ok, old(Value()), Value(), command)
    {
      hide WindowsOf, HandlesOf, IdsOf, ValidContainer, Staged, AddPage, MovePage, DetachPage, DetachWindow,
           SplitWindow, SplitPage, Containers.ActivatePage, Containers.ReplaceWindow;
      var RegroupPageWithIndependent(sourceId, pageId, w, newId, independentPageId, leafId) := command;
      if newId == "" || newId in containers {
        return false;
      }
      var source := Container(sourceId);
      if source == null || w !in independentWindows {
        return false;
      }
      var sourcePage := source.DetachPage(pageId);
      if sourcePage.None? {
        return false;
      }
      containers := containers[sourceId := source.Value()];
      var group := new WindowContainer(newId);
      ok := group.AddPage(NewPage(independentPageId, leafId, w));
      if ok {
        ok := group.AddPage(sourcePage.value);
      }
      if ok {
        independentWindows := independentWindows - {w};
        containers := containers[group.id := group.Value()];
      }
    }

    method ApplyMoveMemberToPage(command: Command) returns (ok: bool)
      requires command.MoveMemberToPage? && Staged(Value())
      modifies this
      ensures Performs(ok, old(Value()), Value(), command)
    {
      hide WindowsOf, HandlesOf, IdsOf, ValidContainer, Staged, ExtractedToPage;
      var MoveMemberToPage(k, w, newPageId, targetPageId, activate) := command;
      var container := Container(k);
      if container == null {
        return false;
      }
      assert ValidContainer(container.Value()) by {
        Member(Value(), k);
      }
      ok := ExtractToPage(container, w, newPageId, targetPageId, activate);
      containers := containers[k := container.Value()];
    }

    // The member becomes a page of its own right after the target page.
    static method ExtractToPage(container: WindowContainer, w: string, newPageId: string, targetPageId: string,
                                activate: bool)
        returns (ok: bool)
      requires ValidContainer(container.Value())
      modifies container
      ensures var placed := ExtractedToPage(old(container.Value()), w, newPageId, targetPageId, activate);
        if ok then placed == Some(container.Value()) else placed.None?
      ensures ok ==> container.id == old(container.id)
    {
      hide WindowsOf, HandlesOf, IdsOf, ValidContainer, AddPage, MovePage, DetachPage, DetachWindow, SplitWindow,
           SplitPage, Containers.ActivatePage, Containers.ReplaceWindow, WindowPage, PageInserted;
      var sourcePage := container.FindWindowPage(w);
      if sourcePage.None? {
        return false;
      }
      var target := container.FindPage(targetPageId);
      if target.None? {
        return false;
      }
      var page := container.pages[sourcePage.value];
      if page.id == targetPageId && !page.root.Split? {
        return false;
      }
      var detached := container.DetachWindow(w);
      if detached.None? {
        return false;
      }
      TargetPageStays(old(container.Value()), w, sourcePage.value, targetPageId);
      var targetIndex := container.FindPage(targetPageId);
      if targetIndex.None? {
        // Likewise: the target page is either another page or keeps another leaf.
        assert false;
      }
      var page' := NewPage(newPageId, detached.value.1, detached.value.0);
      ok := InsertPage(container, page', targetIndex.value + 1, activate);
    }

    static method InsertPage(container: WindowContainer, page: ContainerPage, destination: nat, activate: bool)
        returns (ok: bool)
      modifies container
      ensures var placed := PageInserted(old(container.Value()), page, destination, activate);
        if ok then placed == Some(container.Value()) else placed.None?
      ensures ok ==> container.id == old(container.id)
    {
      hide WindowsOf, HandlesOf, IdsOf, ValidContainer, AddPage, MovePage, Containers.ActivatePage;
      ok := container.AddPage(page);
      // addPage appends, so an already-correct append is left alone.
      if ok && destination != |container.pages| - 1 {
        ok := container.MovePage(page.id, destination);
      }
      if ok && activate {
        ok := container.ActivatePage(page.id);
      }
    }

    method ApplyReparent(command: Command) returns (ok: bool)
      requires command.ReparentMember? && Staged(Value())
      modifies this
      ensures Performs(ok, old(Value()), Value(), command)
    {
      hide WindowsOf, HandlesOf, IdsOf, ValidContainer, Staged, AddPage, MovePage, DetachPage, DetachWindow,
           SplitWindow, SplitPage, Containers.ActivatePage, Containers.ReplaceWindow;
      var ReparentMember(k, w, target, splitId, orientation, ratio, position) := command;
      if w == target {
        return false;
      }
      var container := Container(k);
      if container == null {
        return false;
      }
      var member := container.FindWindow(w);
      var beside := container.FindWindow(target);
      if member.None? || beside.None? {
        return false;
      }
      var node := container.FindNode(splitId);
      if node.Some? {
        return false;
      }
      var i := 0;
      while i < |container.pages|
        invariant 0 <= i <= |container.pages|
        invariant forall p :: p in container.pages[..i] ==>
          !IsDirectSiblingNoOp(p.root, w, target, orientation, ratio, position)
      {
        if IsDirectSiblingNoOp(container.pages[i].root, w, target, orientation, ratio, position) {
          assert container.pages[i] in container.pages;
          return false;
        }
        assert container.pages[..i + 1] == container.pages[..i] + [container.pages[i]];
        i := i + 1;
      }
      assert container.pages[..|container.pages|] == container.pages;
      var detached := container.DetachWindow(w);
      if detached.None? {
        return false;
      }
      var (movedId, leafId) := detached.value;
      ok := container.SplitWindow(SplitRequest(target, movedId, leafId, splitId, orientation, ratio, position));
      containers := containers[k := container.Value()];
    }

    method ApplyReparentToRoot(command: Command) returns (ok: bool)
      requires command.ReparentMemberToPageRoot? && Staged(Value())
      modifies this
      ensures Performs(ok, old(Value()), Value(), command)
    {
      hide WindowsOf, HandlesOf, IdsOf, ValidContainer, Staged, AddPage, MovePage, DetachPage, DetachWindow,
           SplitWindow, SplitPage, Containers.ActivatePage, Containers.ReplaceWindow;
      var ReparentMemberToPageRoot(k, w, pageId, splitId, orientation, ratio, position) := command;
      var container := Container(k);
      if container == null {
        return false;
      }
      var page := container.FindPage(pageId);
      if page.None? {
        return false;
      }
      var member := container.FindWindow(w);
      if member.None? {
        return false;
      }
      var node := container.FindNode(splitId);
      if node.Some? {
        return false;
      }
      var root := container.pages[page.value].root;
      if IsLeafWindow(root, w) || IsRootSiblingNoOp(root, w, orientation, ratio, position) {
        return false;
      }
      var detached := container.DetachWindow(w);
      if detached.None? {
        return false;
      }
      PageSurvives(old(containers)[k], w, page.value);
      page := container.FindPage(pageId);
      if page.None? {
        // The source re-resolves the page defensively; it is always still there.
        assert false;
      }
      var (movedId, leafId) := detached.value;
      ok := container.SplitPage(PageSplitRequest(pageId, movedId, leafId, splitId, orientation, ratio, position));
      containers := containers[k := container.Value()];
    }

    // Reorder, rename, activate, resize and swap: one container operation each.
    method ApplyWithin(command: Command) returns (ok: bool)
      requires || command.ReorderPage? || command.ActivateContainerPage? || command.RenameContainerPage?
               || command.ResizeSplit? || command.ReorderMembers?
      requires Staged(Value())
      modifies this
      ensures Performs(ok, old(Value()), Value(), command)
    {
      hide WindowsOf, HandlesOf, IdsOf, ValidContainer, Staged, WithinContainer, Topologies.Apply;
      WithinApplied(Value(), command);
      var k := command.containerId;
      var container := Container(k);
      if container == null {
        return false;
      }
      Member(Value(), k);
      ok := Rework(container, command);
      containers := containers[k := container.Value()];
    }

    static method Rework(container: WindowContainer, command: Command) returns (ok: bool)
      requires || command.ReorderPage? || command.ActivateContainerPage? || command.RenameContainerPage?
               || command.ResizeSplit? || command.ReorderMembers?
      requires ValidContainer(container.Value())
      modifies container
      ensures container.id == old(container.id)
      ensures Outcome(ok, old(container.Value()), container.Value(), WithinContainer(old(container.Value()), command))
    {
      hide WindowsOf, HandlesOf, IdsOf, ValidContainer, MovePage, SwapWindows, SetSplitRatio, RenamePage,
           Containers.ActivatePage;
      match command {
        case ReorderPage(_, pageId, index) =>
          ok := container.MovePage(pageId, index);
        case ActivateContainerPage(_, pageId) =>
          if container.activePageId == pageId {
            return false;
          }
          ok := container.ActivatePage(pageId);
        case RenameContainerPage(_, pageId, name) =>
          ok := container.RenamePage(pageId, name);
        case ResizeSplit(_, splitId, ratio) =>
          var node := container.FindNode(splitId);
          if node.Some? && node.value.Split? && node.value.ratio == ratio {
            return false;
          }
          ok := container.SetSplitRatio(splitId, ratio);
        case ReorderMembers(_, first, second) =>
          ok := container.SwapWindows(first, second);
      }
    }

    method ApplyDetach(k: string, w: string) returns (ok: bool)
      requires Staged(Value())
      modifies this
      ensures Performs(ok, old(Value()), Value(), DetachMember(k, w))
    {
      hide WindowsOf, HandlesOf, IdsOf, ValidContainer, Staged, AddPage, MovePage, DetachPage, DetachWindow,
           SplitWindow, SplitPage, Containers.ActivatePage, Containers.ReplaceWindow;
      var container := Container(k);
      if container == null {
        return false;
      }
      var detached := container.DetachWindow(w);
      if detached.None? {
        return false;
      }
      containers := containers[k := container.Value()];
      independentWindows := independentWindows + {detached.value.0};
      return true;
    }

    method ApplyRelease(k: string) returns (ok: bool)
      modifies this
      ensures Performs(ok, old(Value()), Value(), ReleaseContainer(k))
    {
      hide WindowsOf, Members;
      ok := k in containers;
      if ok {
        var windows := ContainerWindows(containers[k]);
        FreeAll(windows);
        assert (set w | w in windows) == WindowsOf(containers[k].pages);
        containers := containers - {k};
      }
    }

    method FreeAll(windows: seq<string>)
      modifies this`independentWindows
      ensures independentWindows == old(independentWindows) + set w | w in windows
    {
      var i := 0;
      while i < |windows|
        invariant 0 <= i <= |windows|
        invariant independentWindows == old(independentWindows) + set w | w in windows[..i]
      {
        assert windows[..i + 1] == windows[..i] + [windows[i]];
        independentWindows := independentWindows + {windows[i]};
        i := i + 1;
      }
      assert windows[..|windows|] == windows;
    }

    method ApplyReplaceMember(k: string, outgoing: string, incoming: string) returns (ok: bool)
      requires Staged(Value())
      modifies this
      ensures Performs(ok, old(Value()), Value(), ReplaceMemberWindow(k, outgoing, incoming))
    {
      hide WindowsOf, HandlesOf, IdsOf, ValidContainer, AddPage, MovePage, DetachPage, DetachWindow, SplitWindow,
           SplitPage, Containers.ActivatePage, Containers.ReplaceWindow;
      if k !in containers || incoming !in independentWindows {
        return false;
      }
      var candidate := new WindowContainer.CopyOf(containers[k]);
      ok := candidate.ReplaceWindow(outgoing, incoming);
      if ok {
        independentWindows := independentWindows + {outgoing};
        independentWindows := independentWindows - {incoming};
        containers := containers[k := candidate.Value()];
      }
    }

    method ApplyAdopt(c: Containers.Container) returns (ok: bool)
      modifies this
      ensures Performs(ok, old(Value()), Value(), AdoptIndependentLayout(c))
    {
      hide WindowsOf, ValidContainer, Dissolves, Members;
      var container := new WindowContainer.CopyOf(c);
      var valid := container.Validate();
      if !valid || c.id in containers {
        return false;
      }
      var members := ContainerWindows(c);
      FewMembers(c);
      if |members| < 2 {
        return false;
      }
      var i := 0;
      while i < |members|
        invariant 0 <= i <= |members|
        invariant forall j :: 0 <= j < i ==> members[j] in independentWindows
      {
        if members[i] !in independentWindows {
          assert members[i] in WindowsOf(c.pages);
          return false;
        }
        i := i + 1;
      }
      RemoveIndependent(members);
      containers := containers[c.id := c];
      assert (set w | w in members) == WindowsOf(c.pages);
      return true;
    }

    method RemoveIndependent(members: seq<string>)
      modifies this
      ensures revision == old(revision) && containers == old(containers)
      ensures independentWindows == old(independentWindows) - set w | w in members
    {
      var i := 0;
      while i < |members|
        invariant 0 <= i <= |members|
        invariant revision == old(revision) && containers == old(containers)
        invariant independentWindows == old(independentWindows) - set w | w in members[..i]
      {
        assert members[..i + 1] == members[..i] + [members[i]];
        independentWindows := independentWindows - {members[i]};
        i := i + 1;
      }
      assert members[..|members|] == members;
    }

    // The copying loop of a merge.
    method AppendAll(target: WindowContainer, sourcePages: seq<ContainerPage>) returns (ok: bool)
      modifies target
      ensures target.id == old(target.id)
      ensures if ok then AddPages(old(target.Value()), sourcePages) == Some(target.Value())
              else AddPages(old(target.Value()), sourcePages).None?
    {
      hide AddPage;
      var i := 0;
      while i < |sourcePages|
        invariant 0 <= i <= |sourcePages|
        invariant target.id == old(target.id)
        invariant AddPages(old(target.Value()), sourcePages[..i]) == Some(target.Value())
      {
        assert sourcePages[..i + 1][..i] == sourcePages[..i];
        var added := target.AddPage(sourcePages[i]);
        if !added {
          AddPagesStops(old(target.Value()), sourcePages, i + 1);
          return false;
        }
        i := i + 1;
      }
      assert sourcePages[..|sourcePages|] == sourcePages;
      return true;
    }

    // The moving loop of a merge: page by page to the requested index.
    method BringAllForward(target: WindowContainer, sourcePages: seq<ContainerPage>, originalTargetSize: nat,
                           index: nat)
      requires ValidContainer(target.Value())
      requires index <= originalTargetSize && originalTargetSize + |sourcePages| == |target.pages|
      requires forall k :: 0 <= k < |sourcePages| ==> target.pages[originalTargetSize + k].id == sourcePages[k].id
      modifies target
      ensures target.Value() == old(target.Value()).(pages := Spliced(old(target.pages), originalTargetSize, index))
    {
      hide ValidContainer, MovePage, Front, Spliced;
      ghost var all := target.Value();
      var i := 0;
      FrontEnds(all.pages, originalTargetSize, index);
      while i < |sourcePages|
        invariant 0 <= i <= |sourcePages|
        invariant target.Value() == all.(pages := Front(all.pages, originalTargetSize, index, i))
      {
        var destination := index + i;
        var pageId := sourcePages[i].id;
        BringForward(all, originalTargetSize, index, i);
        if target.pages[destination].id != pageId {
          var moved := target.MovePage(pageId, destination);
          // A page that is not in its place yet can always be moved there.
          assert moved;
        }
        i := i + 1;
      }
    }

    method ApplyMerge(command: Command) returns (ok: bool)
      requires command.MergeContainers? && Staged(Value())
      modifies this
      ensures Performs(ok, old(Value()), Value(), command)
    {
      hide AddPages, Spliced, Staged, ValidContainer;
      var MergeContainers(targetId, sourceId, index) := command;
      if targetId == sourceId {
        return false;
      }
      var target := Container(targetId);
      var source := Container(sourceId);
      if target == null || source == null {
        return false;
      }
      var originalTargetSize := |target.pages|;
      if index < 0 || index > originalTargetSize {
        return false;
      }
      Member(Value(), targetId);
      var sourcePages := source.pages;
      var appended := AppendAll(target, sourcePages);
      if !appended {
        return false;
      }
      MergeReady(containers[targetId], sourcePages);
      BringAllForward(target, sourcePages, originalTargetSize, index);
      containers := containers[targetId := target.Value()];
      containers := containers - {sourceId};
      return true;
    }

    method Apply(command: Command) returns (ok: bool)
      requires Staged(Value())
      modifies this
      ensures Performs(ok, old(Value()), Value(), command)
    {
      match command {
        case AddIndependentWindow(w) => ok := ApplyAddIndependent(w);
        case ForgetWindow(w) => ok := ApplyForget(w);
        case DockIndependentWindows(_, _, _, _, _, _, _, _, _, _) => ok := ApplyDock(command);
        case MergeContainers(_, _, _) => ok := ApplyMerge(command);
        case MovePageBetween(_, _, _, _) => ok := ApplyMovePage(command);
        case DetachPageFrom(_, _, _) => ok := ApplyDetachPage(command);
        case MoveMemberToPage(_, _, _, _, _) => ok := ApplyMoveMemberToPage(command);
        case RegroupPageWithIndependent(_, _, _, _, _, _) => ok := ApplyRegroupPage(command);
        case InsertIndependentWindow(_, _, _, _, _) => ok := ApplyInsert(command);
        case GroupIndependentWindowsAsPages(_, _, _, _, _, _, _, _) => ok := ApplyGroup(command);
        case RegroupMemberWithIndependent(_, _, _, _, _, _) => ok := ApplyRegroupMember(command);
        case MoveMember(_, _, _, _, _) => ok := ApplyMove(command);
        case ReparentMember(_, _, _, _, _, _, _) => ok := ApplyReparent(command);
        case ReparentMemberToPageRoot(_, _, _, _, _, _, _) => ok := ApplyReparentToRoot(command);
        case DetachMember(k, w) => ok := ApplyDetach(k, w);
        case ReleaseContainer(k) => ok := ApplyRelease(k);
        case AdoptIndependentLayout(c) => ok := ApplyAdopt(c);
        case ReplaceMemberWindow(k, outgoing, incoming) => ok := ApplyReplaceMember(k, outgoing, incoming);
        case _ => ok := ApplyWithin(command);
      }
    }

    method Normalize()
      requires Staged(Value())
      modifies this
      ensures Value() == Topologies.Normalize(old(Value()))
    {
      hide Staged, Dissolves, Dissolved, WithFreed, Topologies.Normalize;
      var containersToRemove := {};
      var rest := containers.Keys;
      ghost var t, done := Value(), {};
      NothingDissolved(t);
      while rest != {}
        invariant rest + done == containers.Keys && rest !! done
        invariant revision == old(revision) && containers == old(containers)
        invariant containersToRemove == Dissolved(t, done)
        invariant independentWindows == WithFreed(t, done)
        decreases |rest|
      {
        var k :| k in rest;
        OneMoreDissolved(t, done, k);
        if containers[k].pages == [] {
          containersToRemove := containersToRemove + {k};
        } else {
          var singleton := SingleWindowId(containers[k]);
          if singleton.Some? {
            independentWindows := independentWindows + {singleton.value};
            containersToRemove := containersToRemove + {k};
          }
        }
        rest, done := rest - {k}, done + {k};
      }
      assert done == containers.Keys;
      AllDissolved(t);
      containers := containers - containersToRemove;
    }
  }

  ghost function Dissolved(t: Topology, done: set<string>): set<string> {
    set k | k in done && k in t.containers && Dissolves(t.containers[k])
  }

  ghost function WithFreed(t: Topology, done: set<string>): set<string> {
    t.independent + set k | k in done && k in t.containers && SingleWindowId(t.containers[k]).Some?
                                       :: SingleWindowId(t.containers[k]).value
  }

  lemma NothingDissolved(t: Topology)
    ensures Dissolved(t, {}) == {} && WithFreed(t, {}) == t.independent
  {
  }

  lemma OneMoreDissolved(t: Topology, done: set<string>, k: string)
    requires k in t.containers
    ensures var c := t.containers[k];
      && (c.pages == [] || SingleWindowId(c).Some? ==> Dissolved(t, done + {k}) == Dissolved(t, done) + {k})
      && (c.pages != [] && SingleWindowId(c).None? ==> Dissolved(t, done + {k}) == Dissolved(t, done))
    ensures var single := SingleWindowId(t.containers[k]);
      && (single.Some? ==>
        t.containers[k].pages != [] && WithFreed(t, done + {k}) == WithFreed(t, done) + {single.value})
      && (single.None? ==> WithFreed(t, done + {k}) == WithFreed(t, done))
  {
  }

  lemma AllDissolved(t: Topology)
    ensures Topologies.Normalize(t) == t.(containers := t.containers - Dissolved(t, t.containers.Keys),
                                          independent := WithFreed(t, t.containers.Keys))
  {
    assert (set k | k in t.containers.Keys && k in t.containers && SingleWindowId(t.containers[k]).Some?
                  :: SingleWindowId(t.containers[k]).value)
        == set k | k in t.containers && SingleWindowId(t.containers[k]).Some? :: SingleWindowId(t.containers[k]).value;
  }

  // The target page is not the member's own page, or keeps another leaf there.
  lemma TargetPageStays(c: Container, w: string, s: nat, targetPageId: string)
    requires DetachWindow(c, w).Some? && WindowPage(c.pages, w) == Some(s)
    requires PageIndex(c.pages, targetPageId).Some?
    requires c.pages[s].id != targetPageId || c.pages[s].root.Split?
    ensures PageIndex(DetachWindow(c, w).value.rest.pages, targetPageId).Some?
  {
    var i := PageIndex(c.pages, targetPageId).value;
    if s != i {
      Strangers(c.id, c.pages, s, i);
    }
    PageSurvives(c, w, i);
  }

  // Once a page is refused, so is every longer list that starts with it.
  lemma {:induction false} AddPagesStops(c: Container, ps: seq<ContainerPage>, n: nat)
    requires 0 < n <= |ps| && AddPages(c, ps[..n]).None?
    ensures AddPages(c, ps).None?
    decreases |ps|
  {
    if n < |ps| {
      var init := ps[..|ps| - 1];
      assert init[..n] == ps[..n];
      AddPagesStops(c, init, n);
    } else {
      assert ps[..n] == ps;
    }
  }

  // The source pages as they are appended, each keeping its number when it can.
  ghost function Renumbered(existing: seq<ContainerPage>, ps: seq<ContainerPage>): (r: seq<ContainerPage>)
    ensures |r| == |ps|
    ensures forall k :: 0 <= k < |ps| ==> r[k].id == ps[k].id && r[k].root == ps[k].root && r[k].name == ps[k].name
  {
    if ps == [] then []
    else
      var r := Renumbered(existing, ps[..|ps| - 1]);
      r + [Numbered(existing + r, ps[|ps| - 1])]
  }

  // The appended pages follow the target's own, in order and with their identities and trees.
  lemma {:induction false} AppendedInOrder(c: Container, ps: seq<ContainerPage>)
    requires AddPages(c, ps).Some?
    ensures AddPages(c, ps).value.pages == c.pages + Renumbered(c.pages, ps)
    decreases |ps|
  {
    if ps == [] {
      assert c.pages + [] == c.pages;
    } else {
      var init, last := ps[..|ps| - 1], ps[|ps| - 1];
      AppendedInOrder(c, init);
      var r := Renumbered(c.pages, init);
      AddPageEffect(AddPages(c, init).value, last);
      assert c.pages + r + [Numbered(c.pages + r, last)] == c.pages + (r + [Numbered(c.pages + r, last)]);
    }
  }

  lemma MergeReady(c: Container, ps: seq<ContainerPage>)
    requires ValidContainer(c) && AddPages(c, ps).Some?
    ensures var all := AddPages(c, ps).value;
      && ValidContainer(all) && all.id == c.id
      && forall k :: 0 <= k < |ps| ==> all.pages[|c.pages| + k].id == ps[k].id
  {
    hide AddPages, Renumbered, WindowsOf, HandlesOf, ValidContainer;
    AddPagesEffect(c, ps);
    AppendedInOrder(c, ps);
    var r := Renumbered(c.pages, ps);
    forall k | 0 <= k < |ps| ensures (c.pages + r)[|c.pages| + k].id == ps[k].id {
      assert (c.pages + r)[|c.pages| + k] == r[k];
    }
  }

  // Every command that works inside one container reworks it.
  lemma WithinApplied(t: Topology, command: Command)
    requires Within(command)
    ensures Apply(t, command) == Reworked(t, command)
  {
    hide Reworked;
  }

  // The pages after the first `n`, of which `k` have been brought forward to `d`.
  ghost function Front<T>(s: seq<T>, n: nat, d: nat, k: nat): (r: seq<T>)
    requires d <= n && n + k <= |s|
    ensures |r| == |s|
  {
    s[..d] + s[n..n + k] + s[d..n] + s[n + k..]
  }

  lemma MoveFront<T>(s: seq<T>, n: nat, d: nat, k: nat)
    requires d <= n && n + k < |s|
    ensures Moved(Front(s, n, d, k), n + k, d + k) == Front(s, n, d, k + 1)
    ensures Front(s, n, d, k)[n + k] == s[n + k]
    ensures d == n ==> Front(s, n, d, k) == Front(s, n, d, k + 1)
    ensures d < n ==> Front(s, n, d, k)[d + k] == s[d]
  {
    hide Moved;
    var a, b, c, e := s[..d], s[n..n + k], s[d..n], s[n + k + 1..];
    assert s[n + k..] == [s[n + k]] + e;
    assert s[n..n + k + 1] == b + [s[n + k]];
    assert Front(s, n, d, k) == a + b + c + [s[n + k]] + e;
    assert Front(s, n, d, k + 1) == a + b + [s[n + k]] + c + e;
    MovedParts(a, b, c, s[n + k], e);
  }

  lemma MovedParts<T>(a: seq<T>, b: seq<T>, c: seq<T>, x: T, e: seq<T>)
    ensures Moved(a + b + c + [x] + e, |a| + |b| + |c|, |a| + |b|) == a + b + [x] + c + e
  {
    var all, rest := a + b + c + [x] + e, a + b + c + e;
    assert Removed(all, |a| + |b| + |c|) == rest;
    assert rest[..|a| + |b|] == a + b;
    assert rest[|a| + |b|..] == c + e;
  }

  // One step of the merge loop: the next source page either is in place or can be moved there.
  lemma BringForward(all: Container, n: nat, d: nat, k: nat)
    requires ValidContainer(all) && d <= n && n + k < |all.pages|
    ensures var c := all.(pages := Front(all.pages, n, d, k));
      var pageId := all.pages[n + k].id;
      && c.pages[d + k].id == pageId ==> c.pages == Front(all.pages, n, d, k + 1)
    ensures var c := all.(pages := Front(all.pages, n, d, k));
      var pageId := all.pages[n + k].id;
      && c.pages[d + k].id != pageId ==>
        MovePage(c, pageId, d + k) == Some(all.(pages := Front(all.pages, n, d, k + 1)))
  {
    hide GoodPages, Front, Moved, PageIndex;
    FrontValid(all, n, d, k);
    MoveFront(all.pages, n, d, k);
    OwnIndex(all.id, all.pages, n + k);
    OwnIndex(all.id, Front(all.pages, n, d, k), n + k);
  }

  lemma OwnIndex(cid: string, ps: seq<ContainerPage>, k: nat)
    requires GoodPages(cid, ps) && k < |ps|
    ensures PageIndex(ps, ps[k].id) == Some(k)
    ensures forall j :: 0 <= j < |ps| && j != k ==> ps[j].id != ps[k].id
  {
    hide GoodPages, PageIndex;
    forall j | 0 <= j < |ps| && j != k ensures ps[j].id != ps[k].id {
      Strangers(cid, ps, j, k);
    }
    FirstPage(ps, ps[k].id, k);
  }

  lemma FrontEnds<T>(s: seq<T>, n: nat, d: nat)
    requires d <= n <= |s|
    ensures Front(s, n, d, 0) == s
    ensures Front(s, n, d, |s| - n) == Spliced(s, n, d)
  {
  }

  lemma FrontElements<T>(s: seq<T>, n: nat, d: nat, k: nat)
    requires d <= n && n + k <= |s|
    ensures forall p :: p in Front(s, n, d, k) <==> p in s
  {
    assert s == s[..d] + s[d..n] + s[n..n + k] + s[n + k..];
  }

  lemma FrontGood(cid: string, ps: seq<ContainerPage>, n: nat, d: nat, k: nat)
    requires d <= n && n + k <= |ps| && GoodPages(cid, ps)
    ensures GoodPages(cid, Front(ps, n, d, k))
  {
    Drawn(cid, ps, Front(ps, n, d, k), seq(|ps|, j requires 0 <= j < |ps| =>
      if j < d then j else if j < d + k then j - d + n else if j < n + k then j - k else j));
  }

  lemma FrontValid(all: Container, n: nat, d: nat, k: nat)
    requires ValidContainer(all) && d <= n && n + k <= |all.pages|
    ensures ValidContainer(all.(pages := Front(all.pages, n, d, k)))
  {
    hide GoodPages;
    FrontGood(all.id, all.pages, n, d, k);
    FrontElements(all.pages, n, d, k);
  }

  // Fewer than two members is the same as empty or singleton.
  lemma FewMembers(c: Container)
    requires ValidContainer(c)
    ensures |Members(c.pages)| < 2 <==> Dissolves(c)
  {
    hide ValidContainer, WindowsOf, Members;
    TwoMembers(c);
    DistinctMembers(c);
    MembersAreWindows(c.pages);
    var ms := Members(c.pages);
    if |ms| >= 2 {
      assert ms[0] != ms[1] && ms[0] in ms && ms[1] in ms;
    } else {
      assert forall a, b :: a in ms && b in ms ==> a == b;
    }
  }

  // The topology with only some of its containers.
  ghost function Part(t: Topology, keys: set<string>): Topology {
    t.(containers := map k | k in t.containers && k in keys :: t.containers[k])
  }

  lemma NoEmptyIndependent(t: Topology)
    ensures "" in t.independent ==> !ValidTopology(t)
  {
  }

  lemma NothingOwned(t: Topology)
    requires "" !in t.independent
    ensures ValidTopology(Part(t, {})) && AllWindows(Part(t, {})) == t.independent
  {
  }

  lemma PartValid(t: Topology, keys: set<string>)
    ensures ValidTopology(t) ==> ValidTopology(Part(t, keys))
  {
  }

  // What the validator decides about one more container.
  lemma OneMore(t: Topology, done: set<string>, k: string)
    requires k in t.containers && k !in done && ValidTopology(Part(t, done))
    ensures var c := t.containers[k];
      ValidTopology(Part(t, done + {k})) <==>
        c.id == k && ValidContainer(c) && !Dissolves(c) && WindowsOf(c.pages) !! AllWindows(Part(t, done))
    ensures AllWindows(Part(t, done + {k})) == AllWindows(Part(t, done)) + WindowsOf(t.containers[k].pages)
  {
    hide WindowsOf, ValidContainer, Dissolves;
    var before, after, c := Part(t, done), Part(t, done + {k}), t.containers[k];
    assert forall l :: l in after.containers <==> l in before.containers || l == k;
    assert forall l :: l in after.containers ==> after.containers[l] == t.containers[l];
    assert forall l :: l in before.containers ==> before.containers[l] == t.containers[l] && l != k;
    if ValidTopology(after) {
      forall w | w in WindowsOf(c.pages) ensures w !in AllWindows(before) {
        assert forall l :: l in before.containers ==>
          WindowsOf(after.containers[l].pages) !! WindowsOf(after.containers[k].pages);
      }
    }
    forall l | l in before.containers ensures WindowsOf(before.containers[l].pages) <= AllWindows(before) {
    }
  }

  lemma OwnerUnique(t: Topology, w: string, k: string)
    requires Staged(t) && k in t.containers && w in WindowsOf(t.containers[k].pages)
    ensures Topologies.OwnerOf(t, w) == Some(k)
  {
    assert forall l :: l in t.containers && l != k ==> w !in WindowsOf(t.containers[l].pages);
  }

  ghost function Members(ps: seq<ContainerPage>): seq<string> {
    if ps == [] then [] else Members(ps[..|ps| - 1]) + LeafOrder(ps[|ps| - 1].root)
  }

  lemma {:induction false} MembersAreWindows(ps: seq<ContainerPage>)
    ensures forall w :: w in Members(ps) <==> w in WindowsOf(ps)
  {
    if ps != [] {
      var init, last := ps[..|ps| - 1], ps[|ps| - 1];
      MembersAreWindows(init);
      LeafOrderWindows(last.root);
      assert ps == init + [last];
      AppendPage("", init, last);
    }
  }

  ghost predicate AllDistinct(s: seq<string>) {
    forall i, j :: 0 <= i < j < |s| ==> s[i] != s[j]
  }

  lemma DistinctJoin(a: seq<string>, b: seq<string>)
    requires AllDistinct(a) && AllDistinct(b) && forall w :: w in a ==> w !in b
    ensures AllDistinct(a + b)
  {
    forall i, j | 0 <= i < j < |a + b| ensures (a + b)[i] != (a + b)[j] {
      assert i < |a| ==> (a + b)[i] in a;
      assert j >= |a| ==> (a + b)[j] in b;
    }
  }

  lemma {:induction false} DistinctLeaves(t: LayoutNode)
    requires WellFormed(t)
    ensures AllDistinct(LeafOrder(t))
  {
    if t.Split? {
      DistinctLeaves(t.first);
      DistinctLeaves(t.second);
      LeafOrderWindows(t.first);
      LeafOrderWindows(t.second);
      DistinctJoin(LeafOrder(t.first), LeafOrder(t.second));
    }
  }

  // A valid container lists no window twice.
  lemma DistinctMembers(c: Container)
    requires ValidContainer(c)
    ensures AllDistinct(Members(c.pages))
  {
    DistinctMembersOfPages(c.id, c.pages);
  }

  lemma {:induction false} DistinctMembersOfPages(cid: string, ps: seq<ContainerPage>)
    requires GoodPages(cid, ps)
    ensures AllDistinct(Members(ps))
  {
    if ps != [] {
      var init, last := ps[..|ps| - 1], ps[|ps| - 1];
      assert ps == init + [last];
      AppendPage(cid, init, last);
      DistinctMembersOfPages(cid, init);
      DistinctLeaves(last.root);
      MembersAreWindows(init);
      LeafOrderWindows(last.root);
      ApartFromAll(init, last);
      DistinctJoin(Members(init), LeafOrder(last.root));
    }
  }
}
