// Every accepted command keeps ownership intact, so that after normalization the validator
// has nothing left to reject.

module TopologyProofs {
  import opened Basics
  import opened Layout
  import opened LayoutEdits
  import opened Containers
  import opened ContainerProofs
  import opened Topologies

  // ----------------------------------------------- what a command may change

  // The windows known after a command: AddIndependentWindow and ForgetWindow alone change the set.
  ghost function ExpectedWindows(t: Topology, command: Command): set<string> {
    match command
    case AddIndependentWindow(w) => AllWindows(t) + {w}
    case ForgetWindow(w) => AllWindows(t) - {w}
    case _ => AllWindows(t)
  }

  // A window owned before and after keeps its leaf node, except that ReorderMembers makes its
  // two windows trade leaves.
  ghost predicate HandlesStable(t: Topology, t': Topology, command: Command) {
    forall h :: h in AllHandles(t') && h.0 in Owned(t) ==>
      (if command.ReorderMembers? then (Exchanged(command.firstWindowId, command.secondWindowId, h.0), h.1) else h)
        in AllHandles(t)
  }

  // The containers a command may create, rewrite or remove.
  ghost function Touched(t: Topology, command: Command): set<string> {
    match command
    case AddIndependentWindow(_) => {}
    case ForgetWindow(w) => if OwnerOf(t, w).Some? then {OwnerOf(t, w).value} else {}
    case DockIndependentWindows(k, _, _, _, _, _, _, _, _, _) => {k}
    case MergeContainers(a, b, _) => {a, b}
    case MovePageBetween(a, b, _, _) => {a, b}
    case DetachPageFrom(a, _, b) => {a, b}
    case MoveMemberToPage(k, _, _, _, _) => {k}
    case RegroupPageWithIndependent(a, _, _, b, _, _) => {a, b}
    case InsertIndependentWindow(k, _, _, _, _) => {k}
    case GroupIndependentWindowsAsPages(k, _, _, _, _, _, _, _) => {k}
    case RegroupMemberWithIndependent(a, _, _, b, _, _) => {a, b}
    case MoveMember(a, b, _, _, _) => {a, b}
    case AdoptIndependentLayout(c) => {c.id}
    case _ => {command.containerId}
  }

  ghost function WindowsAt(t: Topology, k: string): set<string> {
    if k in t.containers then WindowsOf(t.containers[k].pages) else {}
  }

  ghost function PageRoot(t: Topology, k: string, pageId: string): Option<LayoutNode> {
    var c :- ContainerAt(t, k);
    var i :- PageIndex(c.pages, pageId);
    Some(c.pages[i].root)
  }

  ghost function PageWindows(t: Topology, k: string, pageId: string): set<string> {
    match PageRoot(t, k, pageId)
    case None => {}
    case Some(root) => Windows(root)
  }

  // Where a command puts windows: who is independent and who is a member of the containers it
  // touches.
  ghost predicate Placed(t: Topology, t': Topology, command: Command) {
    match command
    case AddIndependentWindow(w) => t'.independent == t.independent + {w}
    case ForgetWindow(w) =>
      && t'.independent == t.independent - {w}
      && forall k :: k in t.containers ==> WindowsAt(t', k) == WindowsAt(t, k) - {w}
    case DockIndependentWindows(k, _, first, _, second, _, _, _, _, _) =>
      t'.independent == t.independent - {first, second} && WindowsAt(t', k) == {first, second}
    case MergeContainers(target, source, _) =>
      && t'.independent == t.independent && source !in t'.containers
      && WindowsAt(t', target) == WindowsAt(t, target) + WindowsAt(t, source)
    case MovePageBetween(source, target, pageId, _) =>
      && t'.independent == t.independent
      && WindowsAt(t', source) == WindowsAt(t, source) - PageWindows(t, source, pageId)
      && WindowsAt(t', target) == WindowsAt(t, target) + PageWindows(t, source, pageId)
    case DetachPageFrom(source, pageId, newId) =>
      && var moved, root := PageWindows(t, source, pageId), PageRoot(t, source, pageId);
      && WindowsAt(t', source) == WindowsAt(t, source) - moved
      && if root.Some? && root.value.Leaf? then t'.independent == t.independent + moved
         else t'.independent == t.independent && WindowsAt(t', newId) == moved
    case RegroupPageWithIndependent(source, pageId, w, newId, _, _) =>
      && t'.independent == t.independent - {w}
      && WindowsAt(t', source) == WindowsAt(t, source) - PageWindows(t, source, pageId)
      && WindowsAt(t', newId) == PageWindows(t, source, pageId) + {w}
    case InsertIndependentWindow(k, w, _, _, _) =>
      t'.independent == t.independent - {w} && WindowsAt(t', k) == WindowsAt(t, k) + {w}
    case GroupIndependentWindowsAsPages(k, first, _, _, second, _, _, _) =>
      t'.independent == t.independent - {first, second} && WindowsAt(t', k) == {first, second}
    case RegroupMemberWithIndependent(source, member, w, newId, _, _) =>
      && t'.independent == t.independent - {w}
      && WindowsAt(t', source) == WindowsAt(t, source) - {member} && WindowsAt(t', newId) == {w, member}
    case MoveMember(source, target, w, _, _) =>
      && t'.independent == t.independent
      && WindowsAt(t', source) == WindowsAt(t, source) - {w} && WindowsAt(t', target) == WindowsAt(t, target) + {w}
    case DetachMember(k, w) =>
      t'.independent == t.independent + {w} && WindowsAt(t', k) == WindowsAt(t, k) - {w}
    case ReleaseContainer(k) => t'.independent == t.independent + WindowsAt(t, k) && k !in t'.containers
    case AdoptIndependentLayout(c) =>
      t'.independent == t.independent - WindowsOf(c.pages) && WindowsAt(t', c.id) == WindowsOf(c.pages)
    case ReplaceMemberWindow(k, outgoing, incoming) =>
      && t'.independent == t.independent - {incoming} + {outgoing}
      && WindowsAt(t', k) == WindowsAt(t, k) - {outgoing} + {incoming}
    case _ => t'.independent == t.independent && WindowsAt(t', command.containerId) == WindowsAt(t, command.containerId)
  }

  // ------------------------------------------------------- editing few containers

  // The part of a topology that a command naming the given containers works on.
  ghost function Local(t: Topology, keys: set<string>): set<string> {
    t.independent + set k, w | k in keys && k in t.containers && w in WindowsOf(t.containers[k].pages) :: w
  }

  ghost predicate SameOutside(t: Topology, t': Topology, keys: set<string>) {
    forall k :: k !in keys ==> ContainerAt(t, k) == ContainerAt(t', k)
  }

  ghost predicate LocallyStaged(t: Topology, keys: set<string>) {
    && "" !in t.independent
    && (forall k :: k in keys && k in t.containers ==>
         && t.containers[k].id == k
         && ValidContainer(t.containers[k])
         && WindowsOf(t.containers[k].pages) !! t.independent)
    && (forall k, l :: k in keys && l in keys && k in t.containers && l in t.containers && k != l ==>
         WindowsOf(t.containers[k].pages) !! WindowsOf(t.containers[l].pages))
  }

  lemma LocalBelongs(t: Topology, keys: set<string>, k: string)
    requires k in t.containers
    ensures WindowsOf(t.containers[k].pages) <= Owned(t)
    ensures k in keys ==> WindowsOf(t.containers[k].pages) <= Local(t, keys)
  {
  }

  lemma Patch(t: Topology, t': Topology, keys: set<string>, gained: set<string>)
    requires Staged(t)
    requires SameOutside(t, t', keys) && LocallyStaged(t', keys)
    requires Local(t', keys) <= Local(t, keys) + gained && gained !! AllWindows(t)
    ensures Staged(t')
    ensures AllWindows(t') == AllWindows(t) - Local(t, keys) + Local(t', keys)
  {
    forall k | k in t'.containers && k !in keys
      ensures ContainerAt(t, k) == Some(t'.containers[k])
      ensures WindowsOf(t'.containers[k].pages) !! Local(t', keys)
      ensures WindowsOf(t'.containers[k].pages) !! Local(t, keys)
    {
      assert ContainerAt(t, k) == ContainerAt(t', k);
      LocalBelongs(t, keys, k);
    }
    forall k | k in t.containers && k !in keys ensures ContainerAt(t', k) == Some(t.containers[k]) {
      assert ContainerAt(t, k) == ContainerAt(t', k);
    }
    forall k, l | k in t'.containers && l in t'.containers && k != l
      ensures WindowsOf(t'.containers[k].pages) !! WindowsOf(t'.containers[l].pages)
    {
      LocalBelongs(t', keys, k);
      LocalBelongs(t', keys, l);
    }
    PatchedOwned(t, t', keys);
    PatchedOwned(t', t, keys);
  }

  lemma PatchedOwned(t: Topology, t': Topology, keys: set<string>)
    requires SameOutside(t, t', keys)
    ensures AllWindows(t) <= AllWindows(t') + Local(t, keys)
    ensures Local(t, keys) <= AllWindows(t)
  {
    forall w | w in Owned(t) ensures w in AllWindows(t') + Local(t, keys) {
      var k :| k in t.containers && w in WindowsOf(t.containers[k].pages);
      assert ContainerAt(t, k) == ContainerAt(t', k) || k in keys;
    }
  }

  lemma HandlesPatched(t: Topology, t': Topology, keys: set<string>, h: (string, string))
    requires SameOutside(t, t', keys) && h in AllHandles(t')
    ensures h in AllHandles(t) || exists k :: k in keys && k in t'.containers && h in HandlesOf(t'.containers[k].pages)
  {
    var k :| k in t'.containers && h in HandlesOf(t'.containers[k].pages);
    assert ContainerAt(t, k) == ContainerAt(t', k) || k in keys;
  }

  ghost function HandlesAt(t: Topology, k: string): set<(string, string)> {
    if k in t.containers then HandlesOf(t.containers[k].pages) else {}
  }

  lemma LocalSingle(t: Topology, a: string)
    ensures Local(t, {a}) == t.independent + WindowsAt(t, a)
  {
  }

  // A command that rewrites or creates one container.
  lemma OneContainer(t: Topology, c: Container, independent: set<string>, gained: set<string>)
    requires Staged(t) && ValidContainer(c) && "" !in independent
    requires WindowsOf(c.pages) !! independent
    requires WindowsOf(c.pages) + independent <= WindowsAt(t, c.id) + t.independent + gained
    requires gained !! AllWindows(t)
    ensures var t' := Put(t, c).(independent := independent);
      && Staged(t')
      && AllWindows(t') == AllWindows(t) - (WindowsAt(t, c.id) + t.independent) + (WindowsOf(c.pages) + independent)
      && forall h :: h in AllHandles(t') ==> h in AllHandles(t) || h in HandlesOf(c.pages)
  {
    hide WindowsOf, HandlesOf, ValidContainer, AllWindows, AllHandles, Staged, Local;
    var t' := Put(t, c).(independent := independent);
    LocalSingle(t, c.id);
    LocalSingle(t', c.id);
    Patch(t, t', {c.id}, gained);
    forall h | h in AllHandles(t') ensures h in AllHandles(t) || h in HandlesOf(c.pages) {
      HandlesPatched(t, t', {c.id}, h);
    }
  }

  lemma LocalPair(t: Topology, a: string, b: string)
    ensures Local(t, {a, b}) == t.independent + WindowsAt(t, a) + WindowsAt(t, b)
  {
  }

  // A command that rewrites or creates two containers.
  lemma TwoContainers(t: Topology, c: Container, d: Container, independent: set<string>)
    requires Staged(t) && ValidContainer(c) && ValidContainer(d) && c.id != d.id && "" !in independent
    requires WindowsOf(c.pages) !! independent && WindowsOf(d.pages) !! independent
    requires WindowsOf(c.pages) !! WindowsOf(d.pages)
    requires independent + WindowsOf(c.pages) + WindowsOf(d.pages) ==
      t.independent + WindowsAt(t, c.id) + WindowsAt(t, d.id)
    ensures var t' := Put(Put(t, c), d).(independent := independent);
      && Staged(t')
      && AllWindows(t') == AllWindows(t)
      && forall h :: h in AllHandles(t') ==> h in AllHandles(t) || h in HandlesOf(c.pages) || h in HandlesOf(d.pages)
  {
    hide WindowsOf, HandlesOf, ValidContainer, AllWindows, AllHandles, Staged, Local;
    var keys := {c.id, d.id};
    var t' := Put(Put(t, c), d).(independent := independent);
    LocalPair(t, c.id, d.id);
    LocalPair(t', c.id, d.id);
    Patch(t, t', keys, {});
    PatchedOwned(t, t', keys);
    forall h | h in AllHandles(t')
      ensures h in AllHandles(t) || h in HandlesOf(c.pages) || h in HandlesOf(d.pages)
    {
      HandlesPatched(t, t', keys, h);
    }
  }

  // What a container of a staged topology offers.
  lemma Member(t: Topology, k: string)
    requires Staged(t) && k in t.containers
    ensures ValidContainer(t.containers[k]) && t.containers[k].id == k
    ensures WindowsAt(t, k) == WindowsOf(t.containers[k].pages)
    ensures WindowsAt(t, k) <= Owned(t) && WindowsAt(t, k) !! t.independent
    ensures HandlesOf(t.containers[k].pages) <= AllHandles(t)
  {
  }

  ghost predicate Kept(t: Topology, t': Topology, command: Command) {
    && Staged(t')
    && AllWindows(t') == ExpectedWindows(t, command)
    && HandlesStable(t, t', command)
    && SameOutside(t, t', Touched(t, command))
  }

  lemma IndependentUnowned(t: Topology)
    requires Staged(t)
    ensures t.independent !! Owned(t)
  {
  }

  // A container rewritten without gaining or losing a window.
  lemma RewrittenContainer(t: Topology, k: string, c: Container)
    requires Staged(t) && k in t.containers && c.id == k && ValidContainer(c)
    requires WindowsOf(c.pages) == WindowsOf(t.containers[k].pages)
    ensures Staged(Put(t, c)) && AllWindows(Put(t, c)) == AllWindows(t)
    ensures forall h :: h in AllHandles(Put(t, c)) ==> h in AllHandles(t) || h in HandlesOf(c.pages)
  {
    hide WindowsOf, HandlesOf, ValidContainer, AllHandles;
    Member(t, k);
    assert Put(t, c).(independent := t.independent) == Put(t, c);
    OneContainer(t, c, t.independent, {});
    KnownWindows(t, k);
  }

  lemma KnownWindows(t: Topology, k: string)
    ensures WindowsAt(t, k) + t.independent <= AllWindows(t)
    ensures AllWindows(t) - (WindowsAt(t, k) + t.independent) + (WindowsAt(t, k) + t.independent) == AllWindows(t)
  {
  }

  // Leaves of windows owned before are leaves they had before.
  ghost predicate KeepsHandles(t: Topology, c: Container) {
    forall h :: h in HandlesOf(c.pages) && h.0 in Owned(t) ==> h in AllHandles(t)
  }

  predicate Conserving(command: Command) {
    !command.AddIndependentWindow? && !command.ForgetWindow? && !command.ReorderMembers?
  }

  // A conserving command that leaves one container and the independent windows changed.
  lemma KeptSingle(t: Topology, command: Command, c: Container, independent: set<string>)
    requires Staged(t) && Conserving(command) && c.id in Touched(t, command)
    requires ValidContainer(c) && "" !in independent && WindowsOf(c.pages) !! independent && KeepsHandles(t, c)
    requires WindowsOf(c.pages) + independent == WindowsAt(t, c.id) + t.independent
    ensures var t' := Put(t, c).(independent := independent);
      Kept(t, t', command) && WindowsAt(t', c.id) == WindowsOf(c.pages)
  {
    hide WindowsOf, HandlesOf, ValidContainer, AllWindows, AllHandles, Staged, Touched;
    NothingGained(t);
    OneContainer(t, c, independent, {});
    KnownWindows(t, c.id);
  }

  // The same for two containers.
  lemma KeptPair(t: Topology, command: Command, c: Container, d: Container, independent: set<string>)
    requires Staged(t) && Conserving(command) && Touched(t, command) == {c.id, d.id} && c.id != d.id
    requires ValidContainer(c) && ValidContainer(d) && "" !in independent && KeepsHandles(t, c) && KeepsHandles(t, d)
    requires WindowsOf(c.pages) !! independent && WindowsOf(d.pages) !! independent
    requires WindowsOf(c.pages) !! WindowsOf(d.pages)
    requires independent + WindowsOf(c.pages) + WindowsOf(d.pages) ==
      t.independent + WindowsAt(t, c.id) + WindowsAt(t, d.id)
    ensures var t' := Put(Put(t, c), d).(independent := independent);
      Kept(t, t', command) && WindowsAt(t', c.id) == WindowsOf(c.pages) && WindowsAt(t', d.id) == WindowsOf(d.pages)
  {
    hide WindowsOf, HandlesOf, ValidContainer, AllWindows, AllHandles, Staged, Touched;
    TwoContainers(t, c, d, independent);
  }

  lemma NothingGained(t: Topology)
    ensures {} !! AllWindows(t)
  {
  }

  // What a fresh container holds of formerly independent windows had no leaf before.
  lemma FreshHandles(t: Topology, c: Container)
    requires Staged(t) && WindowsOf(c.pages) <= t.independent
    ensures KeepsHandles(t, c)
  {
    hide HandlesOf, AllHandles, ValidContainer;
    IndependentUnowned(t);
    HandlesShown(c.pages);
  }

  // A fresh container takes over independent windows.
  lemma KeptFounding(t: Topology, command: Command, c: Container)
    requires Staged(t) && Conserving(command) && c.id in Touched(t, command)
    requires c.id !in t.containers && ValidContainer(c) && WindowsOf(c.pages) <= t.independent
    ensures var t' := Put(t, c).(independent := t.independent - WindowsOf(c.pages));
      Kept(t, t', command) && WindowsAt(t', c.id) == WindowsOf(c.pages)
  {
    FreshHandles(t, c);
    NoneIndependent(t);
    hide Kept, WindowsOf, HandlesOf, ValidContainer, Staged, KeepsHandles, Touched;
    assert WindowsOf(c.pages) + (t.independent - WindowsOf(c.pages)) == t.independent;
    KeptSingle(t, command, c, t.independent - WindowsOf(c.pages));
  }

  lemma NoneIndependent(t: Topology)
    requires Staged(t)
    ensures "" !in t.independent
  {
  }

  lemma {:induction false} HandlesOfTree(t: LayoutNode)
    ensures forall h :: h in Handles(t) ==> h.0 in Windows(t)
  {
    if t.Split? {
      HandlesOfTree(t.first);
      HandlesOfTree(t.second);
    }
  }

  lemma HandlesShown(ps: seq<ContainerPage>)
    ensures forall h :: h in HandlesOf(ps) ==> h.0 in WindowsOf(ps)
  {
    forall p | p in ps ensures forall h :: h in Handles(p.root) ==> h.0 in Windows(p.root) {
      HandlesOfTree(p.root);
    }
  }

  // ------------------------------------------------- edits inside one container

  lemma PlaceMemberEffect(c: Container, w: string, leafId: string, d: MemberDestination)
    requires PlaceMember(c, w, leafId, d).Some?
    ensures var c' := PlaceMember(c, w, leafId, d).value;
      && ValidContainer(c') && c'.id == c.id
      && WindowsOf(c'.pages) == WindowsOf(c.pages) + {w} && w !in WindowsOf(c.pages)
      && HandlesOf(c'.pages) <= HandlesOf(c.pages) + {(w, leafId)}
  {
    hide WindowsOf, HandlesOf, ValidContainer, IdsOf;
    match d {
      case MoveAsPage(pageId, index) =>
        AddPageEffect(c, NewPage(pageId, leafId, w));
        if index != |c.pages| {
          MovePageEffect(AddPage(c, NewPage(pageId, leafId, w)).value, pageId, index);
        }
      case MoveAsRootSplit(_, _, _, _, _) =>
        SplitPageEffect(c, PageSplitRequestFor(d, w, leafId));
      case MoveAsSplit(_, _, _, _, _) =>
        SplitWindowEffect(c, SplitRequestFor(d, w, leafId));
    }
  }

  lemma ActivatePageEffect(c: Container, pageId: string)
    requires ActivatePage(c, pageId).Some?
    ensures var c' := ActivatePage(c, pageId).value;
      ValidContainer(c') && c' == c.(activePageId := pageId)
  {
    assert c.pages != [];
  }

  // Detaching a member and putting it back elsewhere in the same container.
  ghost predicate SameMembers(c: Container, c': Container) {
    && ValidContainer(c') && c'.id == c.id
    && WindowsOf(c'.pages) == WindowsOf(c.pages)
    && HandlesOf(c'.pages) <= HandlesOf(c.pages)
  }

  lemma ReparentedEffect(c: Container, w: string, target: string, splitId: string,
                         orientation: Orientation, ratio: real, position: Position)
    requires Reparented(c, w, target, splitId, orientation, ratio, position).Some?
    ensures SameMembers(c, Reparented(c, w, target, splitId, orientation, ratio, position).value)
  {
    hide WindowsOf, HandlesOf, ValidContainer, IdsOf;
    DetachWindowEffect(c, w);
    var d := DetachWindow(c, w).value;
    SplitWindowEffect(d.rest, SplitRequest(target, w, d.leafNodeId, splitId, orientation, ratio, position));
  }

  lemma ReparentedToRootEffect(c: Container, w: string, pageId: string, splitId: string,
                               orientation: Orientation, ratio: real, position: Position)
    requires ReparentedToRoot(c, w, pageId, splitId, orientation, ratio, position).Some?
    ensures SameMembers(c, ReparentedToRoot(c, w, pageId, splitId, orientation, ratio, position).value)
  {
    hide WindowsOf, HandlesOf, ValidContainer, IdsOf;
    DetachWindowEffect(c, w);
    var d := DetachWindow(c, w).value;
    SplitPageEffect(d.rest, PageSplitRequest(pageId, w, d.leafNodeId, splitId, orientation, ratio, position));
  }

  lemma ExtractedToPageEffect(c: Container, w: string, newPageId: string, targetPageId: string, activate: bool)
    requires ExtractedToPage(c, w, newPageId, targetPageId, activate).Some?
    ensures SameMembers(c, ExtractedToPage(c, w, newPageId, targetPageId, activate).value)
  {
    hide WindowsOf, HandlesOf, ValidContainer, IdsOf, DetachWindow, PageInserted;
    DetachWindowEffect(c, w);
    var d := DetachWindow(c, w).value;
    var i := PageIndex(d.rest.pages, targetPageId).value;
    PageInsertedEffect(d.rest, NewPage(newPageId, d.leafNodeId, w), i + 1, activate);
  }

  lemma PageInsertedEffect(c: Container, page: ContainerPage, index: nat, activate: bool)
    requires ValidContainer(c) && PageInserted(c, page, index, activate).Some?
    ensures var c' := PageInserted(c, page, index, activate).value;
      && ValidContainer(c') && c'.id == c.id
      && WindowsOf(c'.pages) == WindowsOf(c.pages) + Windows(page.root)
      && HandlesOf(c'.pages) == HandlesOf(c.pages) + Handles(page.root)
  {
    hide WindowsOf, HandlesOf, ValidContainer, IdsOf, AddPage, MovePage, ActivatePage, Windows, Handles;
    AddPageEffect(c, page);
    var added := AddPage(c, page).value;
    if index != |added.pages| - 1 {
      MovePageEffect(added, page.id, index);
    }
    if activate {
      ActivatePageEffect(if index == |added.pages| - 1 then added else MovePage(added, page.id, index).value, page.id);
    }
  }

  lemma {:induction false} AddPagesEffect(c: Container, ps: seq<ContainerPage>)
    requires AddPages(c, ps).Some? && ValidContainer(c)
    ensures var c' := AddPages(c, ps).value;
      && ValidContainer(c') && c'.id == c.id
      && (c.pages != [] ==> c'.activePageId == c.activePageId)
      && WindowsOf(c'.pages) == WindowsOf(c.pages) + WindowsOf(ps)
      && HandlesOf(c'.pages) == HandlesOf(c.pages) + HandlesOf(ps)
    decreases |ps|
  {
    hide WindowsOf, HandlesOf, ValidContainer, AddPage;
    if ps == [] {
      NothingShown();
    } else {
      var init, last := ps[..|ps| - 1], ps[|ps| - 1];
      AddPagesEffect(c, init);
      AddPageEffect(AddPages(c, init).value, last);
      assert ps == init + [last];
      AppendPage(c.id, init, last);
    }
  }

  lemma SplicedElements<T>(s: seq<T>, n: nat, d: nat)
    requires d <= n <= |s|
    ensures forall p :: p in Spliced(s, n, d) <==> p in s
  {
    assert s == s[..d] + s[d..n] + s[n..];
  }

  lemma SplicedGood(cid: string, ps: seq<ContainerPage>, n: nat, d: nat)
    requires d <= n <= |ps| && GoodPages(cid, ps)
    ensures GoodPages(cid, Spliced(ps, n, d))
  {
    var m := |ps| - n;
    Drawn(cid, ps, Spliced(ps, n, d),
          seq(|ps|, k requires 0 <= k < |ps| => if k < d then k else if k < d + m then k - d + n else k - m));
  }

  lemma SplicedEffect(c: Container, n: nat, d: nat)
    requires d <= n <= |c.pages| && ValidContainer(c)
    ensures var c' := c.(pages := Spliced(c.pages, n, d));
      ValidContainer(c') && WindowsOf(c'.pages) == WindowsOf(c.pages) && HandlesOf(c'.pages) == HandlesOf(c.pages)
  {
    hide GoodPages;
    SplicedGood(c.id, c.pages, n, d);
    SplicedElements(c.pages, n, d);
  }

  lemma NothingShown()
    ensures WindowsOf([]) == {} && HandlesOf([]) == {} && IdsOf([]) == {}
  {
  }

  lemma GroupWithEffect(group: Container, d: DetachedWindow, w: string, layout: RegroupLayout)
    requires group.pages == [] && GroupWith(group, d, w, layout).Some?
    ensures var c := GroupWith(group, d, w, layout).value;
      && ValidContainer(c) && c.id == group.id
      && WindowsOf(c.pages) == {w, d.windowId}
      && forall h :: h in HandlesOf(c.pages) ==> h.0 == w || h == (d.windowId, d.leafNodeId)
  {
    hide WindowsOf, HandlesOf, ValidContainer, IdsOf, AddPage, SplitWindow;
    NothingShown();
    match layout {
      case RegroupAsSplit(pageId, leafId, splitId, orientation, ratio, position) =>
        var one := AddPage(group, NewPage(pageId, leafId, w)).value;
        AddPageEffect(group, NewPage(pageId, leafId, w));
        SplitWindowEffect(one, SplitRequest(w, d.windowId, d.leafNodeId, splitId, orientation, ratio, position));
      case RegroupAsPages(independentPageId, memberPageId, leafId) =>
        AddPageEffect(group, NewPage(independentPageId, leafId, w));
        AddPageEffect(AddPage(group, NewPage(independentPageId, leafId, w)).value,
                      NewPage(memberPageId, d.leafNodeId, d.windowId));
    }
  }

  // ------------------------------------------------------------- the commands

  lemma KeptAdd(t: Topology, command: Command)
    requires command.AddIndependentWindow? && Staged(t) && Apply(t, command).Some?
    ensures Kept(t, Apply(t, command).value, command)
  {
    IndependentUnowned(t);
  }

  lemma KeptForget(t: Topology, command: Command)
    requires command.ForgetWindow? && Staged(t) && Forgotten(t, command).Some?
    ensures var t', w := Forgotten(t, command).value, command.windowId;
      && Kept(t, t', command) && t'.independent == t.independent - {w}
      && forall k :: k in t.containers ==> WindowsAt(t', k) == WindowsAt(t, k) - {w}
  {
    hide WindowsOf, HandlesOf, ValidContainer, DetachWindow;
    var w := command.windowId;
    IndependentUnowned(t);
    if w !in t.independent {
      var k := OwnerOf(t, w).value;
      Member(t, k);
      DetachWindowEffect(t.containers[k], w);
      var rest := DetachWindow(t.containers[k], w).value.rest;
      OneContainer(t, rest, t.independent, {});
      assert Put(t, rest).(independent := t.independent) == Forgotten(t, command).value;
      OwnedOnce(t, k, w);
    } else {
      Unowned(t, w);
    }
  }

  lemma OwnedOnce(t: Topology, k: string, w: string)
    requires Staged(t) && k in t.containers && w in WindowsAt(t, k)
    ensures forall l :: l in t.containers && l != k ==> w !in WindowsAt(t, l)
  {
    hide WindowsOf;
    forall l | l in t.containers && l != k ensures w !in WindowsAt(t, l) {
      assert WindowsOf(t.containers[k].pages) !! WindowsOf(t.containers[l].pages);
    }
  }

  lemma Unowned(t: Topology, w: string)
    requires Staged(t) && w in t.independent
    ensures forall k :: k in t.containers ==> w !in WindowsAt(t, k)
  {
    hide WindowsOf;
    forall k | k in t.containers ensures w !in WindowsAt(t, k) {
      Member(t, k);
    }
  }

  lemma KeptDetach(t: Topology, command: Command)
    requires command.DetachMember? && Staged(t) && MemberDetached(t, command).Some?
    ensures var t', k, w := MemberDetached(t, command).value, command.containerId, command.windowId;
      && Kept(t, t', command)
      && t'.independent == t.independent + {w} && WindowsAt(t', k) == WindowsAt(t, k) - {w}
  {
    hide Kept, WindowsOf, HandlesOf, ValidContainer, DetachWindow;
    var k, w := command.containerId, command.windowId;
    Member(t, k);
    NoneIndependent(t);
    DetachWindowEffect(t.containers[k], w);
    KeptSingle(t, command, DetachWindow(t.containers[k], w).value.rest, t.independent + {w});
  }

  lemma KeptRelease(t: Topology, command: Command)
    requires command.ReleaseContainer? && Staged(t) && Released(t, command).Some?
    ensures var t', k := Released(t, command).value, command.containerId;
      Kept(t, t', command) && t'.independent == t.independent + WindowsAt(t, k) && k !in t'.containers
  {
    hide WindowsOf, HandlesOf, ValidContainer, AllWindows;
    var k := command.containerId;
    var t' := Released(t, command).value;
    Member(t, k);
    NoEmptyWindow(k, t.containers[k].pages);
    LocalSingle(t, k);
    LocalSingle(t', k);
    Patch(t, t', {k}, {});
    KnownWindows(t, k);
  }

  // Commands that work inside one container and keep its members.
  lemma KeptWithin(t: Topology, command: Command)
    requires Within(command) && !command.ReorderMembers? && Staged(t) && Reworked(t, command).Some?
    ensures var t' := Reworked(t, command).value;
      && Kept(t, t', command)
      && t'.independent == t.independent && WindowsAt(t', command.containerId) == WindowsAt(t, command.containerId)
  {
    hide Kept, WindowsOf, HandlesOf, ValidContainer, WithinContainer;
    var k := command.containerId;
    var c := WithinContainer(t.containers[k], command).value;
    Member(t, k);
    NoneIndependent(t);
    WithinEffect(t.containers[k], command);
    KeptSingle(t, command, c, t.independent);
    assert Put(t, c).(independent := t.independent) == Put(t, c);
  }

  lemma WithinEffect(c: Container, command: Command)
    requires Within(command) && !command.ReorderMembers? && ValidContainer(c) && WithinContainer(c, command).Some?
    ensures SameMembers(c, WithinContainer(c, command).value)
  {
    hide WindowsOf, HandlesOf, ValidContainer, MovePage, ActivatePage, RenamePage, SetSplitRatio,
         Reparented, ReparentedToRoot, ExtractedToPage;
    match command {
      case MoveMemberToPage(_, w, newPageId, targetPageId, activate) =>
        ExtractedToPageEffect(c, w, newPageId, targetPageId, activate);
      case ReorderPage(_, pageId, index) =>
        MovePageEffect(c, pageId, index);
      case ActivateContainerPage(_, pageId) =>
        ActivatePageEffect(c, pageId);
      case RenameContainerPage(_, pageId, name) =>
        RenamePageEffect(c, pageId, name);
      case ResizeSplit(_, splitId, ratio) =>
        RatioAccepted(c, splitId, ratio);
        SetSplitRatioEffect(c, splitId, ratio);
      case ReparentMember(_, w, target, splitId, orientation, ratio, position) =>
        ReparentedEffect(c, w, target, splitId, orientation, ratio, position);
      case ReparentMemberToPageRoot(_, w, pageId, splitId, orientation, ratio, position) =>
        ReparentedToRootEffect(c, w, pageId, splitId, orientation, ratio, position);
    }
  }

  lemma RatioAccepted(c: Container, splitId: string, ratio: real)
    ensures SetSplitRatio(c, splitId, ratio).Some? ==> ValidContainer(c) && 0.0 < ratio < 1.0
  {
  }

  lemma KeptReorderMembers(t: Topology, command: Command)
    requires command.ReorderMembers? && Staged(t) && Reworked(t, command).Some?
    ensures var t' := Reworked(t, command).value;
      && Kept(t, t', command)
      && t'.independent == t.independent && WindowsAt(t', command.containerId) == WindowsAt(t, command.containerId)
  {
    hide WindowsOf, HandlesOf, ValidContainer;
    var k, a, b := command.containerId, command.firstWindowId, command.secondWindowId;
    Member(t, k);
    SwapWindowsEffect(t.containers[k], a, b);
    var c := SwapWindows(t.containers[k], a, b).value;
    var t' := Put(t, c);
    RewrittenContainer(t, k, c);
    forall h | h in AllHandles(t') ensures (Exchanged(a, b, h.0), h.1) in AllHandles(t) {
      if h !in HandlesOf(c.pages) {
        OtherHandle(t, t', k, h, a, b);
      }
    }
  }

  // A handle of another container names neither of the two exchanged members.
  lemma OtherHandle(t: Topology, t': Topology, k: string, h: (string, string), a: string, b: string)
    requires Staged(t) && k in t.containers && k in t'.containers && SameOutside(t, t', {k})
    requires a in WindowsAt(t, k) && b in WindowsAt(t, k)
    requires h in AllHandles(t') && h !in HandlesOf(t'.containers[k].pages)
    ensures h in AllHandles(t) && Exchanged(a, b, h.0) == h.0
  {
    var l :| l in t'.containers && h in HandlesOf(t'.containers[l].pages);
    assert ContainerAt(t, l) == ContainerAt(t', l);
    HandlesShown(t.containers[l].pages);
    assert WindowsOf(t.containers[l].pages) !! WindowsOf(t.containers[k].pages);
  }

  lemma KeptReplace(t: Topology, command: Command)
    requires command.ReplaceMemberWindow? && Staged(t) && MemberReplaced(t, command).Some?
    ensures var t', k := MemberReplaced(t, command).value, command.containerId;
      var outgoing, incoming := command.outgoingWindowId, command.incomingWindowId;
      && Kept(t, t', command)
      && t'.independent == t.independent - {incoming} + {outgoing}
      && WindowsAt(t', k) == WindowsAt(t, k) - {outgoing} + {incoming}
  {
    hide Kept, WindowsOf, HandlesOf, ValidContainer, ReplaceWindow;
    var k, outgoing, incoming := command.containerId, command.outgoingWindowId, command.incomingWindowId;
    Member(t, k);
    NoneIndependent(t);
    IndependentUnowned(t);
    ReplaceAccepted(t.containers[k], outgoing, incoming);
    ReplaceWindowEffect(t.containers[k], outgoing, incoming);
    var c := ReplaceWindow(t.containers[k], outgoing, incoming).value;
    assert WindowsOf(c.pages) + (t.independent + {outgoing} - {incoming}) == WindowsAt(t, k) + t.independent;
    KeptSingle(t, command, c, t.independent + {outgoing} - {incoming});
  }

  lemma ReplaceAccepted(c: Container, outgoing: string, incoming: string)
    requires ReplaceWindow(c, outgoing, incoming).Some?
    ensures outgoing != "" && outgoing in WindowsOf(c.pages) && incoming !in WindowsOf(c.pages)
  {
  }

  // Commands that build one fresh container from independent windows.
  lemma KeptDock(t: Topology, command: Command)
    requires command.DockIndependentWindows? && Staged(t) && Docked(t, command).Some?
    ensures var t', both := Docked(t, command).value, {command.firstWindowId, command.secondWindowId};
      && Kept(t, t', command)
      && t'.independent == t.independent - both && WindowsAt(t', command.containerId) == both
  {
    hide Kept, WindowsOf, HandlesOf, ValidContainer, AddPage, SplitWindow;
    NothingShown();
    var DockIndependentWindows(k, pageId, first, firstLeaf, second, secondLeaf, splitId, orientation, ratio, position)
      := command;
    AddPageEffect(Empty(k), NewPage(pageId, firstLeaf, first));
    var one := AddPage(Empty(k), NewPage(pageId, firstLeaf, first)).value;
    var request := SplitRequest(first, second, secondLeaf, splitId, orientation, ratio, position);
    SplitWindowEffect(one, request);
    assert WindowsOf(SplitWindow(one, request).value.pages) == {first, second};
    KeptFounding(t, command, SplitWindow(one, request).value);
  }

  lemma KeptGroup(t: Topology, command: Command)
    requires command.GroupIndependentWindowsAsPages? && Staged(t) && Grouped(t, command).Some?
    ensures var t', both := Grouped(t, command).value, {command.firstWindowId, command.secondWindowId};
      && Kept(t, t', command)
      && t'.independent == t.independent - both && WindowsAt(t', command.containerId) == both
  {
    hide Kept, WindowsOf, HandlesOf, ValidContainer, AddPage, ActivatePage;
    var GroupIndependentWindowsAsPages(k, first, firstPage, firstLeaf, second, secondPage, secondLeaf, activate)
      := command;
    AddedPages(k, NewPage(firstPage, firstLeaf, first), NewPage(secondPage, secondLeaf, second));
    var one := AddPage(Empty(k), NewPage(firstPage, firstLeaf, first)).value;
    var two := AddPage(one, NewPage(secondPage, secondLeaf, second)).value;
    if activate {
      ActivatePageEffect(two, secondPage);
    }
    assert WindowsOf(two.pages) == {first, second};
    KeptFounding(t, command, if activate then ActivatePage(two, secondPage).value else two);
  }

  lemma AddedPages(k: string, p: ContainerPage, q: ContainerPage)
    requires AddPage(Empty(k), p).Some? && AddPage(AddPage(Empty(k), p).value, q).Some?
    ensures var two := AddPage(AddPage(Empty(k), p).value, q).value;
      && ValidContainer(two) && two.id == k && WindowsOf(two.pages) == Windows(p.root) + Windows(q.root)
      && HandlesOf(two.pages) == Handles(p.root) + Handles(q.root)
  {
    hide WindowsOf, HandlesOf, ValidContainer, AddPage, Windows;
    NothingShown();
    AddPageEffect(Empty(k), p);
    AddPageEffect(AddPage(Empty(k), p).value, q);
  }

  lemma KeptAdopt(t: Topology, command: Command)
    requires command.AdoptIndependentLayout? && Staged(t) && Adopted(t, command).Some?
    ensures var t', c := Adopted(t, command).value, command.container;
      && Kept(t, t', command)
      && t'.independent == t.independent - WindowsOf(c.pages) && WindowsAt(t', c.id) == WindowsOf(c.pages)
  {
    hide Kept, WindowsOf, HandlesOf, ValidContainer, Dissolves;
    KeptFounding(t, command, command.container);
  }

  lemma KeptInsert(t: Topology, command: Command)
    requires command.InsertIndependentWindow? && Staged(t) && Inserted(t, command).Some?
    ensures var t', k, w := Inserted(t, command).value, command.targetContainerId, command.windowId;
      && Kept(t, t', command)
      && t'.independent == t.independent - {w} && WindowsAt(t', k) == WindowsAt(t, k) + {w}
  {
    hide Kept, WindowsOf, HandlesOf, ValidContainer, PlaceMember, ActivatePage;
    var InsertIndependentWindow(k, w, leafId, destination, activate) := command;
    Member(t, k);
    NoneIndependent(t);
    IndependentUnowned(t);
    PlaceMemberEffect(t.containers[k], w, leafId, destination);
    var placed := PlaceMember(t.containers[k], w, leafId, destination).value;
    if activate {
      ActivatePageEffect(placed, destination.pageId);
    }
    var c := if activate then ActivatePage(placed, destination.pageId).value else placed;
    assert WindowsOf(c.pages) + (t.independent - {w}) == WindowsAt(t, k) + t.independent;
    KeptSingle(t, command, c, t.independent - {w});
  }

  // Commands that move a member or a page between two containers.
  lemma KeptMoveMember(t: Topology, command: Command)
    requires command.MoveMember? && Staged(t) && MemberMoved(t, command).Some?
    ensures var t', w := MemberMoved(t, command).value, command.windowId;
      && Kept(t, t', command) && t'.independent == t.independent
      && WindowsAt(t', command.sourceContainerId) == WindowsAt(t, command.sourceContainerId) - {w}
      && WindowsAt(t', command.targetContainerId) == WindowsAt(t, command.targetContainerId) + {w}
  {
    hide Kept, WindowsOf, HandlesOf, ValidContainer, DetachWindow, PlaceMember, ActivatePage;
    var MoveMember(sourceId, targetId, w, destination, activate) := command;
    var source, target := t.containers[sourceId], t.containers[targetId];
    TwoMembersOf(t, sourceId, targetId);
    DetachWindowEffect(source, w);
    var d := DetachWindow(source, w).value;
    PlaceMemberEffect(target, w, d.leafNodeId, destination);
    var placed := PlaceMember(target, w, d.leafNodeId, destination).value;
    if activate {
      ActivatePageEffect(placed, destination.pageId);
    }
    var target' := if activate then ActivatePage(placed, destination.pageId).value else placed;
    KeptPair(t, command, d.rest, target', t.independent);
  }

  lemma TwoMembersOf(t: Topology, k: string, l: string)
    requires Staged(t) && k in t.containers && l in t.containers && k != l
    ensures ValidContainer(t.containers[k]) && t.containers[k].id == k &&
      WindowsAt(t, k) == WindowsOf(t.containers[k].pages)
    ensures ValidContainer(t.containers[l]) && t.containers[l].id == l &&
      WindowsAt(t, l) == WindowsOf(t.containers[l].pages)
    ensures WindowsAt(t, k) !! t.independent && WindowsAt(t, l) !! t.independent && WindowsAt(t, k) !! WindowsAt(t, l)
    ensures HandlesOf(t.containers[k].pages) <= AllHandles(t) && HandlesOf(t.containers[l].pages) <= AllHandles(t)
    ensures "" !in t.independent
  {
    hide WindowsOf, HandlesOf, ValidContainer;
    Member(t, k);
    Member(t, l);
    assert WindowsOf(t.containers[k].pages) !! WindowsOf(t.containers[l].pages);
  }

  lemma DetachedPage(t: Topology, k: string, pageId: string)
    requires Staged(t) && k in t.containers && DetachPage(t.containers[k], pageId).Some?
    ensures var d, moved := DetachPage(t.containers[k], pageId).value, PageWindows(t, k, pageId);
      && ValidContainer(d.rest) && d.rest.id == k
      && PageRoot(t, k, pageId) == Some(d.page.root) && Windows(d.page.root) == moved
      && WindowsOf(d.rest.pages) == WindowsAt(t, k) - moved && moved <= WindowsAt(t, k)
      && HandlesOf(d.rest.pages) <= AllHandles(t) && Handles(d.page.root) <= AllHandles(t)
  {
    hide WindowsOf, HandlesOf, ValidContainer, DetachPage;
    Member(t, k);
    DetachPageEffect(t.containers[k], pageId);
  }

  lemma KeptMovePage(t: Topology, command: Command)
    requires command.MovePageBetween? && Staged(t) && PageMoved(t, command).Some?
    ensures var t', source, target := PageMoved(t, command).value, command.sourceContainerId, command.targetContainerId;
      var moved := PageWindows(t, source, command.pageId);
      && Kept(t, t', command) && t'.independent == t.independent
      && WindowsAt(t', source) == WindowsAt(t, source) - moved
      && WindowsAt(t', target) == WindowsAt(t, target) + moved
  {
    hide Kept, WindowsOf, HandlesOf, ValidContainer, DetachPage, AddPage, MovePage, PageWindows, PageRoot;
    var MovePageBetween(sourceId, targetId, pageId, index) := command;
    TwoMembersOf(t, sourceId, targetId);
    DetachedPage(t, sourceId, pageId);
    var d := DetachPage(t.containers[sourceId], pageId).value;
    AddPageEffect(t.containers[targetId], d.page);
    var added := AddPage(t.containers[targetId], d.page).value;
    if index != |t.containers[targetId].pages| {
      MovePageEffect(added, pageId, index);
    }
    var target' := if index == |t.containers[targetId].pages| then added else MovePage(added, pageId, index).value;
    KeptPair(t, command, d.rest, target', t.independent);
  }

  // Commands that separate a page or a member into a fresh container.
  lemma KeptDetachPage(t: Topology, command: Command)
    requires command.DetachPageFrom? && Staged(t) && PageDetached(t, command).Some?
    ensures var t', k, newId := PageDetached(t, command).value, command.sourceContainerId, command.newContainerId;
      var moved, root := PageWindows(t, k, command.pageId), PageRoot(t, k, command.pageId);
      && Kept(t, t', command) && WindowsAt(t', k) == WindowsAt(t, k) - moved && root.Some?
      && if root.value.Leaf? then t'.independent == t.independent + moved
         else t'.independent == t.independent && WindowsAt(t', newId) == moved
  {
    hide Kept, WindowsOf, HandlesOf, ValidContainer, DetachPage, AddPage, PageWindows, PageRoot;
    var DetachPageFrom(k, pageId, _) := command;
    DetachedPage(t, k, pageId);
    if DetachPage(t.containers[k], pageId).value.page.root.Leaf? {
      KeptFreePage(t, command);
    } else {
      KeptSeparatePage(t, command);
    }
  }

  lemma KeptFreePage(t: Topology, command: Command)
    requires command.DetachPageFrom? && Staged(t) && PageDetached(t, command).Some?
    requires DetachPage(t.containers[command.sourceContainerId], command.pageId).value.page.root.Leaf?
    ensures var t', k := PageDetached(t, command).value, command.sourceContainerId;
      var moved := PageWindows(t, k, command.pageId);
      && Kept(t, t', command)
      && WindowsAt(t', k) == WindowsAt(t, k) - moved && t'.independent == t.independent + moved
  {
    hide Kept, WindowsOf, HandlesOf, ValidContainer, DetachPage, AddPage, PageWindows, PageRoot;
    var DetachPageFrom(sourceId, pageId, _) := command;
    Member(t, sourceId);
    NoneIndependent(t);
    DetachPageEffect(t.containers[sourceId], pageId);
    DetachedPage(t, sourceId, pageId);
    var d := DetachPage(t.containers[sourceId], pageId).value;
    LeafIdentities(d.page.root, d.page.root.windowId);
    KeptSingle(t, command, d.rest, t.independent + {d.page.root.windowId});
  }

  lemma KeptSeparatePage(t: Topology, command: Command)
    requires command.DetachPageFrom? && Staged(t) && PageDetached(t, command).Some?
    requires DetachPage(t.containers[command.sourceContainerId], command.pageId).value.page.root.Split?
    ensures var t', k := PageDetached(t, command).value, command.sourceContainerId;
      var moved := PageWindows(t, k, command.pageId);
      && Kept(t, t', command) && t'.independent == t.independent
      && WindowsAt(t', k) == WindowsAt(t, k) - moved && WindowsAt(t', command.newContainerId) == moved
  {
    hide Kept, WindowsOf, HandlesOf, ValidContainer, DetachPage, AddPage, PageWindows, PageRoot;
    NothingShown();
    var DetachPageFrom(sourceId, pageId, newId) := command;
    Member(t, sourceId);
    NoneIndependent(t);
    DetachedPage(t, sourceId, pageId);
    var d := DetachPage(t.containers[sourceId], pageId).value;
    AddPageEffect(Empty(newId), d.page);
    KeptPair(t, command, d.rest, AddPage(Empty(newId), d.page).value, t.independent);
  }

  lemma KeptRegroupPage(t: Topology, command: Command)
    requires command.RegroupPageWithIndependent? && Staged(t) && PageRegrouped(t, command).Some?
    ensures var t', k, w := PageRegrouped(t, command).value, command.sourceContainerId, command.independentWindowId;
      var moved := PageWindows(t, k, command.pageId);
      && Kept(t, t', command) && t'.independent == t.independent - {w}
      && WindowsAt(t', k) == WindowsAt(t, k) - moved && WindowsAt(t', command.newContainerId) == moved + {w}
  {
    hide Kept, WindowsOf, HandlesOf, ValidContainer, DetachPage, AddPage, PageWindows, PageRoot;
    IndependentUnowned(t);
    var RegroupPageWithIndependent(sourceId, pageId, w, newId, independentPageId, leafId) := command;
    Member(t, sourceId);
    NoneIndependent(t);
    DetachedPage(t, sourceId, pageId);
    var d := DetachPage(t.containers[sourceId], pageId).value;
    var one := NewPage(independentPageId, leafId, w);
    AddedPages(newId, one, d.page);
    KeptPair(t, command, d.rest, AddPage(AddPage(Empty(newId), one).value, d.page).value, t.independent - {w});
  }

  lemma KeptRegroupMember(t: Topology, command: Command)
    requires command.RegroupMemberWithIndependent? && Staged(t) && MemberRegrouped(t, command).Some?
    ensures var t', k := MemberRegrouped(t, command).value, command.sourceContainerId;
      var w, member := command.independentWindowId, command.memberWindowId;
      && Kept(t, t', command) && t'.independent == t.independent - {w}
      && WindowsAt(t', k) == WindowsAt(t, k) - {member} && WindowsAt(t', command.newContainerId) == {w, member}
  {
    hide Kept, WindowsOf, HandlesOf, ValidContainer, DetachWindow, GroupWith, ActivatePage;
    IndependentUnowned(t);
    var RegroupMemberWithIndependent(sourceId, member, w, newId, layout, activate) := command;
    Member(t, sourceId);
    NoneIndependent(t);
    DetachWindowEffect(t.containers[sourceId], member);
    var d := DetachWindow(t.containers[sourceId], member).value;
    GroupWithEffect(Empty(newId), d, w, layout);
    var grouped := GroupWith(Empty(newId), d, w, layout).value;
    if activate {
      ActivatePageEffect(grouped, layout.memberPageId);
    }
    var group := if activate then ActivatePage(grouped, layout.memberPageId).value else grouped;
    KeptPair(t, command, d.rest, group, t.independent - {w});
  }

  lemma KeptMerge(t: Topology, command: Command)
    requires command.MergeContainers? && Staged(t) && Merged(t, command).Some?
    ensures var t', source, target := Merged(t, command).value, command.sourceContainerId, command.targetContainerId;
      && Kept(t, t', command) && t'.independent == t.independent
      && source !in t'.containers && WindowsAt(t', target) == WindowsAt(t, target) + WindowsAt(t, source)
  {
    hide WindowsOf, HandlesOf, GoodPages, AddPages, Spliced;
    var targetId, sourceId := command.targetContainerId, command.sourceContainerId;
    var target, source := t.containers[targetId], t.containers[sourceId];
    Member(t, targetId);
    Member(t, sourceId);
    AddPagesEffect(target, source.pages);
    var all := AddPages(target, source.pages).value;
    var merged := all.(pages := Spliced(all.pages, |target.pages|, command.destinationPageIndex));
    SplicedEffect(all, |target.pages|, command.destinationPageIndex);
    MergedContainer(t, targetId, sourceId, merged);
  }

  lemma MergedContainer(t: Topology, targetId: string, sourceId: string, merged: Container)
    requires Staged(t) && targetId in t.containers && sourceId in t.containers && targetId != sourceId
    requires ValidContainer(merged) && merged.id == targetId
    requires WindowsOf(merged.pages) == WindowsAt(t, targetId) + WindowsAt(t, sourceId)
    requires HandlesOf(merged.pages) == HandlesAt(t, targetId) + HandlesAt(t, sourceId)
    ensures var t' := Drop(Put(t, merged), sourceId);
      Staged(t') && AllWindows(t') == AllWindows(t) && forall h :: h in AllHandles(t') ==> h in AllHandles(t)
  {
    hide WindowsOf, HandlesOf, ValidContainer;
    var t' := Drop(Put(t, merged), sourceId);
    Member(t, targetId);
    Member(t, sourceId);
    LocalPair(t, targetId, sourceId);
    LocalPair(t', targetId, sourceId);
    Patch(t, t', {targetId, sourceId}, {});
    PatchedOwned(t, t', {targetId, sourceId});
  }

  // Commands that move windows between containers or found one.
  predicate Rehouses(command: Command) {
    || command.DockIndependentWindows? || command.MergeContainers? || command.MovePageBetween?
    || command.DetachPageFrom? || command.RegroupPageWithIndependent? || command.GroupIndependentWindowsAsPages?
    || command.RegroupMemberWithIndependent? || command.MoveMember? || command.AdoptIndependentLayout?
  }

  lemma RehousingKept(t: Topology, command: Command)
    requires Rehouses(command) && Staged(t) && Apply(t, command).Some?
    ensures Kept(t, Apply(t, command).value, command) && Placed(t, Apply(t, command).value, command)
  {
    hide Docked, Merged, PageMoved, PageDetached, PageRegrouped, Grouped, MemberRegrouped, MemberMoved, Adopted,
         Kept, WindowsAt, PageWindows, PageRoot, Staged, WindowsOf;
    match command {
      case DockIndependentWindows(_, _, _, _, _, _, _, _, _, _) => KeptDock(t, command);
      case MergeContainers(_, _, _) => KeptMerge(t, command);
      case MovePageBetween(_, _, _, _) => KeptMovePage(t, command);
      case DetachPageFrom(_, _, _) => KeptDetachPage(t, command);
      case RegroupPageWithIndependent(_, _, _, _, _, _) => KeptRegroupPage(t, command);
      case GroupIndependentWindowsAsPages(_, _, _, _, _, _, _, _) => KeptGroup(t, command);
      case RegroupMemberWithIndependent(_, _, _, _, _, _) => KeptRegroupMember(t, command);
      case MoveMember(_, _, _, _, _) => KeptMoveMember(t, command);
      case AdoptIndependentLayout(_) => KeptAdopt(t, command);
    }
  }

  lemma ResidentsKept(t: Topology, command: Command)
    requires !Rehouses(command) && Staged(t) && Apply(t, command).Some?
    ensures Kept(t, Apply(t, command).value, command) && Placed(t, Apply(t, command).value, command)
  {
    hide Forgotten, Inserted, MemberDetached, Released, Reworked, MemberReplaced, Kept, WindowsAt, PageWindows,
         PageRoot, Staged, WindowsOf;
    match command {
      case AddIndependentWindow(_) => KeptAdd(t, command);
      case ForgetWindow(_) => KeptForget(t, command);
      case InsertIndependentWindow(_, _, _, _, _) => KeptInsert(t, command);
      case DetachMember(_, _) => KeptDetach(t, command);
      case ReleaseContainer(_) => KeptRelease(t, command);
      case ReplaceMemberWindow(_, _, _) => KeptReplace(t, command);
      case ReorderMembers(_, _, _) => KeptReorderMembers(t, command);
      case _ => KeptWithin(t, command);
    }
  }

  // Every accepted command keeps ownership disjoint and valid, conserves the windows and keeps
  // every surviving leaf handle.
  lemma ApplyKeeps(t: Topology, command: Command)
    requires Staged(t) && Apply(t, command).Some?
    ensures Kept(t, Apply(t, command).value, command)
  {
    hide Apply, Staged, Kept, Placed;
    if Rehouses(command) {
      RehousingKept(t, command);
    } else {
      ResidentsKept(t, command);
    }
  }

  // Every accepted command puts the windows exactly where it says.
  lemma ApplyPlaces(t: Topology, command: Command)
    requires Staged(t) && Apply(t, command).Some?
    ensures Placed(t, Apply(t, command).value, command)
  {
    hide Apply, Staged, Kept, Placed;
    if Rehouses(command) {
      RehousingKept(t, command);
    } else {
      ResidentsKept(t, command);
    }
  }

  // ------------------------------------------------------------ normalization

  // Normalization turns any staged topology into one the validator accepts, without losing or
  // inventing a window.
  lemma NormalizeValidates(t: Topology)
    requires Staged(t)
    ensures ValidTopology(Normalize(t))
    ensures AllWindows(Normalize(t)) == AllWindows(t)
    ensures AllHandles(Normalize(t)) <= AllHandles(t)
  {
    var n := Normalize(t);
    forall k | k in t.containers
      ensures SingleWindowId(t.containers[k]).Some? ==> WindowsAt(t, k) == {SingleWindowId(t.containers[k]).value}
      ensures t.containers[k].pages == [] ==> WindowsAt(t, k) == {}
      ensures "" !in WindowsAt(t, k)
    {
      TwoMembers(t.containers[k]);
      NoEmptyWindow(k, t.containers[k].pages);
    }
    forall w | w in Owned(t) ensures w in AllWindows(n) {
      var k :| k in t.containers && w in WindowsOf(t.containers[k].pages);
      if !Dissolves(t.containers[k]) {
        assert k in n.containers;
      }
    }
    forall k | k in n.containers ensures WindowsOf(n.containers[k].pages) !! n.independent {
      assert forall l :: l in t.containers && l != k ==>
        WindowsOf(t.containers[k].pages) !! WindowsOf(t.containers[l].pages);
    }
  }

  // At least two members.
  ghost predicate Several(windows: set<string>) {
    exists a, b :: a != b && a in windows && b in windows
  }

  // Exactly the containers with fewer than two members dissolve, setting their members free;
  // every other container stays as it is.
  lemma NormalizeMeaning(t: Topology)
    requires Staged(t)
    ensures var n := Normalize(t);
      && n.revision == t.revision
      && (forall k :: k in n.containers <==> k in t.containers && Several(WindowsAt(t, k)))
      && (forall k :: k in n.containers ==> n.containers[k] == t.containers[k])
      && (forall w :: w in n.independent <==>
            w in t.independent || exists k :: k in t.containers && !Several(WindowsAt(t, k)) && w in WindowsAt(t, k))
  {
    var n := Normalize(t);
    forall k | k in t.containers
      ensures Dissolves(t.containers[k]) <==> !Several(WindowsAt(t, k))
      ensures Dissolves(t.containers[k]) ==>
        WindowsAt(t, k) == match SingleWindowId(t.containers[k]) case Some(w) => {w} case None => {}
    {
      TwoMembers(t.containers[k]);
    }
    hide WindowsAt, Several, ValidContainer, WindowsOf;
  }
}
