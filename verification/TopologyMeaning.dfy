// The twenty-three commands on a whole topology: exactly when each is accepted, and exactly which
// topology it makes.

module TopologyMeaning {
  import opened Basics
  import opened Layout
  import opened LayoutEdits
  import opened Names
  import opened Containers
  import opened ContainerProofs
  import opened ContainerMeaning
  import opened Topologies
  import opened TopologyProofs
  import opened WindowContainerObject
  import opened WindowTopologyObject
  import opened CommandEffects
  import opened CommandMeaning

  // ----------------------------------------------------------------- vocabulary

  predicate Three(a: string, b: string, c: string) {
    a != "" && b != "" && c != "" && a != b && a != c && b != c
  }

  predicate Four(a: string, b: string, c: string, d: string) {
    Three(a, b, c) && d != "" && d != a && d != b && d != c
  }

  predicate Five(a: string, b: string, c: string, d: string, e: string) {
    Four(a, b, c, d) && e != "" && e != a && e != b && e != c && e != d
  }

  // Two containers at most are ever put together.
  ghost predicate Room(t: Topology) {
    forall k, l :: k in t.containers && l in t.containers ==>
      |t.containers[k].pages| + |t.containers[l].pages| < 0x7FFF_FFFF
  }

  // The topology with these containers set and these windows independent.
  function With(t: Topology, k: string, c: Container, independent: set<string>): Topology {
    t.(containers := t.containers[k := c], independent := independent)
  }

  function With2(t: Topology, k: string, c: Container, l: string, d: Container, independent: set<string>): Topology {
    t.(containers := t.containers[k := c][l := d], independent := independent)
  }

  // -------------------------------------------------- placing a window in a container

  ghost predicate PlaceAccepts(c: Container, w: string, leafId: string, d: MemberDestination) {
    match d
    case MoveAsPage(pageId, index) => 0 <= index <= |c.pages| && Acceptable(c, Single(pageId, leafId, w))
    case MoveAsSplit(target, splitId, _, r, _) =>
      && target in WindowsOf(c.pages) && w != "" && w !in WindowsOf(c.pages)
      && Unused(c, leafId) && Unused(c, splitId) && leafId != splitId && 0.0 < r < 1.0
    case MoveAsRootSplit(pageId, splitId, _, r, _) =>
      && HasPage(c.pages, pageId) && w != "" && w !in WindowsOf(c.pages)
      && Unused(c, leafId) && Unused(c, splitId) && leafId != splitId && 0.0 < r < 1.0
  }

  // The window stands where the destination says: on a page of its own at the index, beside the
  // target, or beside a whole page.
  ghost predicate PlaceMakes(c: Container, c': Container, w: string, leafId: string, d: MemberDestination,
                             activate: bool)
  {
    match d
    case MoveAsPage(pageId, index) =>
      && c'.id == c.id && PageAt(c.pages, c'.pages, Single(pageId, leafId, w), index)
      && c'.activePageId == if activate || c.pages == [] then pageId else c.activePageId
    case MoveAsSplit(target, splitId, o, r, p) => SplitBeside(c, c', target, leafId, w, splitId, o, r, p)
    case MoveAsRootSplit(pageId, splitId, o, r, p) => SplitAtRoot(c, c', pageId, leafId, w, splitId, o, r, p)
  }

  ghost function Placing(c: Container, w: string, leafId: string, d: MemberDestination,
                         activate: bool): Option<Container> {
    var placed :- PlaceMember(c, w, leafId, d);
    if activate && d.MoveAsPage? then ActivatePage(placed, d.pageId) else Some(placed)
  }

  lemma PlacingMeaning(c: Container, w: string, leafId: string, d: MemberDestination, activate: bool)
    requires ValidContainer(c) && Roomy(c)
    ensures PlaceMember(c, w, leafId, d).Some? <==> PlaceAccepts(c, w, leafId, d)
    ensures Placing(c, w, leafId, d, activate).Some? <==> PlaceMember(c, w, leafId, d).Some?
    ensures Placing(c, w, leafId, d, activate).Some? ==>
      && PlaceMakes(c, Placing(c, w, leafId, d, activate).value, w, leafId, d, activate)
      && Placing(c, w, leafId, d, activate).value.id == c.id
  {
    NonEmptyId(c);
    hide ValidContainer, WindowsOf, Unused, Acceptable, AddPage, MovePage, SplitWindow, SplitPage, PageAt, SplitBeside,
         SplitAtRoot;
    match d {
      case MoveAsPage(pageId, index) =>
        AddPageMeaning(c, Single(pageId, leafId, w));
        if 0 <= index <= |c.pages| && AddPage(c, Single(pageId, leafId, w)).Some? {
          InsertedAt(c, Single(pageId, leafId, w), index);
          ActivatePageMeaning(PlaceMember(c, w, leafId, d).value, pageId);
        }
      case MoveAsSplit(_, _, _, _, _) =>
        SplitWindowMeaning(c, SplitRequestFor(d, w, leafId));
        if SplitWindow(c, SplitRequestFor(d, w, leafId)).Some? {
          SplitWindowEffect(c, SplitRequestFor(d, w, leafId));
        }
      case MoveAsRootSplit(_, _, _, _, _) =>
        SplitPageMeaning(c, PageSplitRequestFor(d, w, leafId));
        if SplitPage(c, PageSplitRequestFor(d, w, leafId)).Some? {
          SplitPageEffect(c, PageSplitRequestFor(d, w, leafId));
        }
    }
  }

  // -------------------------------------------------------------- fresh containers


  lemma EmptyAccepts(k: string, page: ContainerPage)
    ensures Acceptable(Empty(k), page) <==>
      && ValidName(page.name) && WellFormed(page.root) && page.id != "" && page.id != k && page.id !in Ids(page.root)
      && k !in Ids(page.root)
  {
    assert IdsOf([]) == {} && WindowsOf([]) == {};
    if WellFormed(page.root) {
      LeafIdentities(page.root, "");
    }
    hide ValidName, WellFormed;
  }

  // The first page of a container has number 1 unless it brings one.
  lemma FoundedMeaning(k: string, page: ContainerPage)
    ensures AddPage(Empty(k), page).Some? <==> k != "" && Acceptable(Empty(k), page)
    ensures AddPage(Empty(k), page).Some? && page.number <= 0 ==>
      AddPage(Empty(k), page).value == Container(k, [page.(number := 1)], page.id)
    ensures AddPage(Empty(k), page).Some? && page.number > 0 ==>
      AddPage(Empty(k), page).value == Container(k, [page], page.id)
  {
    hide Acceptable, PageAt;
    if k != "" {
      AddPageMeaning(Empty(k), page);
    }
    if AddPage(Empty(k), page).Some? {
      assert [] + [page] == [page] && Numbers([]) == {};
      if page.number <= 0 {
        FirstPageAdded(k, page);
      }
    }
  }

  lemma SecondNumber()
    ensures FreshNumber({1}) == 2
  {
    assert IsTop({1}, 1);
    TopUnique({1}, 1);
  }

  // What a container of one single-leaf page still has free.
  lemma OneLeafUses(k: string, pageId: string, leafId: string, w: string, number: int32)
    ensures var one := Container(k, [ContainerPage(pageId, Leaf(leafId, w), "", number)], pageId);
      && (forall id :: Unused(one, id) <==> id != "" && id != k && id != pageId && id != leafId)
      && WindowsOf(one.pages) == {w}
  {
    var page := ContainerPage(pageId, Leaf(leafId, w), "", number);
    assert IdsOf([page]) == PageIds(page) && WindowsOf([page]) == Windows(page.root) by {
      assert page in [page];
    }
  }

  lemma SingleAccepted(c: Container, pageId: string, leafId: string, w: string)
    requires w != ""
    ensures Acceptable(c, Single(pageId, leafId, w)) <==>
              Unused(c, pageId) && Unused(c, leafId) && pageId != leafId && w !in WindowsOf(c.pages)
  {
    assert ValidName("");
  }

  // A container founded on one single-leaf page.
  lemma FoundedOnLeaf(k: string, pageId: string, leafId: string, w: string)
    requires w != ""
    ensures AddPage(Empty(k), Single(pageId, leafId, w)).Some? <==> Three(k, pageId, leafId)
    ensures AddPage(Empty(k), Single(pageId, leafId, w)).Some? ==>
      var one := Container(k, [ContainerPage(pageId, Leaf(leafId, w), "", 1)], pageId);
      AddPage(Empty(k), Single(pageId, leafId, w)).value == one && ValidContainer(one) && Roomy(one)
  {
    FoundedMeaning(k, Single(pageId, leafId, w));
    SingleAccepted(Empty(k), pageId, leafId, w);
    assert IdsOf([]) == {} && WindowsOf([]) == {};
    if AddPage(Empty(k), Single(pageId, leafId, w)).Some? {
      AddPageEffect(Empty(k), Single(pageId, leafId, w));
    }
    hide AddPage, Acceptable, ValidContainer;
  }

  // Two windows docked under one split.
  lemma DockedPair(k: string, pageId: string, leafA: string, a: string, leafB: string, b: string, splitId: string,
                   o: Orientation, r: real, p: Position)
    requires a != "" && b != ""
    ensures var one := AddPage(Empty(k), Single(pageId, leafA, a));
      var request := SplitRequest(a, b, leafB, splitId, o, r, p);
      && (one.Some? && SplitWindow(one.value, request).Some? <==>
            a != b && Five(k, pageId, leafA, leafB, splitId) && 0.0 < r < 1.0)
      && (one.Some? && SplitWindow(one.value, request).Some? ==>
            var root := Joined(splitId, o, r, p, Leaf(leafB, b), Leaf(leafA, a));
            SplitWindow(one.value, request).value == Container(k, [ContainerPage(pageId, root, "", 1)], pageId))
  {
    FoundedOnLeaf(k, pageId, leafA, a);
    OneLeafUses(k, pageId, leafA, a, 1);
    var one, request := AddPage(Empty(k), Single(pageId, leafA, a)), SplitRequest(a, b, leafB, splitId, o, r, p);
    hide AddPage, ValidContainer, SplitWindow, SplitBeside, Unused, WindowsOf, Joined;
    if one.Some? {
      SplitWindowMeaning(one.value, request);
      if SplitWindow(one.value, request).Some? {
        OnlyLeafSplit(one.value, SplitWindow(one.value, request).value, pageId, leafA, a, leafB, b, splitId, o, r, p);
      }
    }
  }

  lemma OnlyLeafSplit(one: Container, two: Container, pageId: string, leafA: string, a: string, leafB: string,
                      b: string,
                      splitId: string, o: Orientation, r: real, p: Position)
    requires one == Container(one.id, [ContainerPage(pageId, Leaf(leafA, a), "", 1)], pageId)
    requires SplitBeside(one, two, a, leafB, b, splitId, o, r, p)
    ensures var root := Joined(splitId, o, r, p, Leaf(leafB, b), Leaf(leafA, a));
      two == Container(one.id, [ContainerPage(pageId, root, "", 1)], pageId)
  {
    var i: nat, path, leaf :| i < |one.pages| && At(one.pages[i].root, path) == Some(Leaf(leaf, a)) &&
      two == Patched(one, i, path, Joined(splitId, o, r, p, Leaf(leafB, b), Leaf(leaf, a)));
    hide Joined;
    assert i == 0 && path == [];
  }

  // Two windows on a page each.
  lemma GroupedPair(k: string, pageA: string, leafA: string, a: string, pageB: string, leafB: string, b: string)
    requires a != "" && b != ""
    ensures var one, page := AddPage(Empty(k), Single(pageA, leafA, a)), Single(pageB, leafB, b);
      && (one.Some? && AddPage(one.value, page).Some? <==> a != b && Five(k, pageA, leafA, pageB, leafB))
      && (one.Some? && AddPage(one.value, page).Some? ==>
            && ValidContainer(AddPage(one.value, page).value)
            && AddPage(one.value, page).value == Container(k, [ContainerPage(pageA, Leaf(leafA, a), "", 1),
                                                              ContainerPage(pageB, Leaf(leafB, b), "", 2)], pageA))
  {
    hide AddPage, ValidContainer, Unused, WindowsOf, Acceptable, PageAt;
    FoundedOnLeaf(k, pageA, leafA, a);
    OneLeafUses(k, pageA, leafA, a, 1);
    var one, page := AddPage(Empty(k), Single(pageA, leafA, a)), Single(pageB, leafB, b);
    if one.Some? {
      AddPageMeaning(one.value, page);
      SingleAccepted(one.value, pageB, leafB, b);
      SecondNumber();
      assert Numbers(one.value.pages) == {1};
      if AddPage(one.value, page).Some? {
        AddPageEffect(one.value, page);
      }
    }
  }

  // A window's page with a whole page behind it.
  lemma GroupedWithPage(k: string, pageId: string, leafId: string, w: string, page: ContainerPage)
    requires w != "" && PageWellFormed(page) && w !in Windows(page.root)
    ensures var one := AddPage(Empty(k), Single(pageId, leafId, w));
      && (one.Some? && AddPage(one.value, page).Some? <==>
            Three(k, pageId, leafId) && k !in PageIds(page) && pageId !in PageIds(page) && leafId !in PageIds(page))
      && (one.Some? && AddPage(one.value, page).Some? ==>
            var first, c := ContainerPage(pageId, Leaf(leafId, w), "", 1), AddPage(one.value, page).value;
            c.id == k && c.activePageId == pageId && |c.pages| == 2 && PageAt([first], c.pages, page, 1))
  {
    hide AddPage, ValidContainer;
    FoundedOnLeaf(k, pageId, leafId, w);
    OneLeafUses(k, pageId, leafId, w, 1);
    LeafIdentities(page.root, "");
    var one := AddPage(Empty(k), Single(pageId, leafId, w));
    if one.Some? {
      AddPageMeaning(one.value, page);
    }
  }

  // --------------------------------------------------------------- the commands

  // The window and leaf a member takes along.
  ghost function LeafOf(c: Container, w: string): string {
    match DetachWindow(c, w) case Some(d) => d.leafNodeId case None => ""
  }

  ghost predicate PageFree(c: Container, pageId: string, target: Container) {
    forall q, id :: q in c.pages && q.id == pageId && id in PageIds(q) ==> Unused(target, id)
  }

  ghost predicate RegroupAccepts(newId: string, w: string, leafId: string, layout: RegroupLayout) {
    match layout
    case RegroupAsSplit(pageId, ownLeaf, splitId, _, r, _) =>
      Five(newId, pageId, ownLeaf, leafId, splitId) && 0.0 < r < 1.0
    case RegroupAsPages(ownPage, memberPage, ownLeaf) => Five(newId, ownPage, ownLeaf, memberPage, leafId)
  }

  // When a command is accepted.
  ghost predicate Accepts(t: Topology, command: Command)
    requires Staged(t)
  {
    var at := t.containers;
    match command
    case AddIndependentWindow(w) => w != "" && w !in AllWindows(t)
    case ForgetWindow(w) => w in AllWindows(t)
    case DockIndependentWindows(k, pageId, first, firstLeaf, second, secondLeaf, splitId, _, r, _) =>
      && k !in at && first != second && first in t.independent && second in t.independent
      && Five(k, pageId, firstLeaf, secondLeaf, splitId) && 0.0 < r < 1.0
    case MergeContainers(target, source, index) =>
      && target != source && target in at && source in at && 0 <= index <= |at[target].pages|
      && forall q, id :: q in at[source].pages && id in PageIds(q) ==> Unused(at[target], id)
    case MovePageBetween(source, target, pageId, index) =>
      && source != target && source in at && target in at && 0 <= index <= |at[target].pages|
      && HasPage(at[source].pages, pageId) && PageFree(at[source], pageId, at[target])
    case DetachPageFrom(k, pageId, newId) =>
      && k in at && |at[k].pages| > 1 && HasPage(at[k].pages, pageId)
      && forall q :: q in at[k].pages && q.id == pageId && q.root.Split? ==>
           newId != "" && newId !in at && newId !in PageIds(q)
    case RegroupPageWithIndependent(k, pageId, w, newId, ownPage, ownLeaf) =>
      && newId !in at && k in at && w in t.independent && HasPage(at[k].pages, pageId) && Three(newId, ownPage, ownLeaf)
      && forall q :: q in at[k].pages && q.id == pageId ==>
           newId !in PageIds(q) && ownPage !in PageIds(q) && ownLeaf !in PageIds(q)
    case InsertIndependentWindow(k, w, leafId, destination, activate) =>
      && w in t.independent && k in at && PlaceAccepts(at[k], w, leafId, destination)
      && (activate ==> destination.MoveAsPage?)
    case GroupIndependentWindowsAsPages(k, first, firstPage, firstLeaf, second, secondPage, secondLeaf, _) =>
      && k !in at && first != second && first in t.independent && second in t.independent
      && Five(k, firstPage, firstLeaf, secondPage, secondLeaf)
    case RegroupMemberWithIndependent(k, member, w, newId, layout, activate) =>
      && (activate ==> layout.RegroupAsPages?) && newId !in at && k in at && w in t.independent
      && member in WindowsOf(at[k].pages) && RegroupAccepts(newId, w, LeafOf(at[k], member), layout)
    case MoveMember(source, target, w, destination, activate) =>
      && source != target && (activate ==> destination.MoveAsPage?) && source in at && target in at
      && w in WindowsOf(at[source].pages) && PlaceAccepts(at[target], w, LeafOf(at[source], w), destination)
    case DetachMember(k, w) => k in at && w in WindowsOf(at[k].pages)
    case ReleaseContainer(k) => k in at
    case AdoptIndependentLayout(c) =>
      ValidContainer(c) && c.id !in at && Several(WindowsOf(c.pages)) && WindowsOf(c.pages) <= t.independent
    case ReplaceMemberWindow(k, outgoing, incoming) =>
      k in at && incoming in t.independent && outgoing in WindowsOf(at[k].pages)
    case _ => command.containerId in at && WithinAccepts(at[command.containerId], command)
  }

  // The source is left by a page, which comes to stand in another container.
  ghost predicate PageLeaves(c: Container, rest: Container, page: ContainerPage, pageId: string) {
    exists i: nat :: i < |c.pages| && c.pages[i] == page && page.id == pageId && rest == Without(c, i)
  }

  // The source's pages stand in order at the index of the target's own, under their own numbers
  // unless those clash, and the target's page stays active.
  ghost predicate MergeMakes(target: Container, source: Container, merged: Container, index: int) {
    && 0 <= index <= |target.pages| && merged.id == target.id
    && (target.pages != [] ==> merged.activePageId == target.activePageId)
    && exists r: seq<ContainerPage> ::
         merged.pages == target.pages[..index] + r + target.pages[index..] && Brought(target.pages, source.pages, r)
  }

  ghost predicate Brought(ps: seq<ContainerPage>, qs: seq<ContainerPage>, r: seq<ContainerPage>) {
    && |r| == |qs|
    && (forall i :: 0 <= i < |r| ==> r[i] == qs[i].(number := r[i].number))
    && ((forall p, q :: p in ps && q in qs ==> p.number != q.number) ==> r == qs)
  }

  ghost predicate RegroupMakes(group: Container, newId: string, w: string, member: string, leafId: string,
                               layout: RegroupLayout, activate: bool)
  {
    match layout
    case RegroupAsSplit(pageId, ownLeaf, splitId, o, r, p) =>
      var root := Joined(splitId, o, r, p, Leaf(leafId, member), Leaf(ownLeaf, w));
      group == Container(newId, [ContainerPage(pageId, root, "", 1)], pageId)
    case RegroupAsPages(ownPage, memberPage, ownLeaf) =>
      group == Container(newId, [ContainerPage(ownPage, Leaf(ownLeaf, w), "", 1),
                                 ContainerPage(memberPage, Leaf(leafId, member), "", 2)],
                         if activate then memberPage else ownPage)
  }

  // A member leaves, and another set of windows is independent.
  ghost predicate MemberGone(t: Topology, t': Topology, k: string, w: string, free: set<string>)
  {
    && k in t.containers
    && exists rest: Container, leafId ::
      TakenOut(t.containers[k], rest, leafId, w) && t' == With(t, k, rest, free)
  }

  ghost predicate Merges(t: Topology, t': Topology, target: string, source: string, index: int)
  {
    && target in t.containers && source in t.containers
    && exists merged: Container ::
      && MergeMakes(t.containers[target], t.containers[source], merged, index)
      && t' == t.(containers := t.containers[target := merged] - {source})
  }

  ghost predicate PageMoves(t: Topology, t': Topology, source: string, target: string, pageId: string, index: int)
  {
    && source in t.containers && target in t.containers
    && exists rest: Container, page: ContainerPage, c: Container ::
      && PageLeaves(t.containers[source], rest, page, pageId)
      && c.id == target && PageAt(t.containers[target].pages, c.pages, page, index)
      && c.activePageId == (if t.containers[target].pages == [] then pageId else t.containers[target].activePageId)
      && t' == With2(t, source, rest, target, c, t.independent)
  }

  ghost predicate PageFreed(t: Topology, t': Topology, k: string, pageId: string, newId: string)
  {
    && k in t.containers
    && exists rest: Container, page: ContainerPage ::
      && PageLeaves(t.containers[k], rest, page, pageId)
      && t' == if page.root.Leaf? then With(t, k, rest, t.independent + {page.root.windowId})
               else With2(t, k, rest, newId, Container(newId, [page], pageId), t.independent)
  }

  ghost predicate PageRegroups(t: Topology, t': Topology, k: string, pageId: string, w: string, newId: string,
                               own: ContainerPage)
  {
    && k in t.containers
    && exists rest: Container, page: ContainerPage, group: Container ::
      && PageLeaves(t.containers[k], rest, page, pageId)
      && group.id == newId && group.activePageId == own.id && PageAt([own], group.pages, page, 1)
      && t' == With2(t, k, rest, newId, group, t.independent - {w})
  }

  ghost predicate Inserts(t: Topology, t': Topology, k: string, w: string, leafId: string, d: MemberDestination,
                          activate: bool)
  {
    && k in t.containers
    && exists c: Container ::
      PlaceMakes(t.containers[k], c, w, leafId, d, activate) && t' == With(t, k, c, t.independent - {w})
  }

  ghost predicate MemberRegroups(t: Topology, t': Topology, k: string, member: string, w: string, newId: string,
                                 layout: RegroupLayout, activate: bool)
  {
    && k in t.containers
    && exists rest: Container, leafId, group: Container ::
      && TakenOut(t.containers[k], rest, leafId, member)
      && RegroupMakes(group, newId, w, member, leafId, layout, activate)
      && t' == With2(t, k, rest, newId, group, t.independent - {w})
  }

  ghost predicate MemberMoves(t: Topology, t': Topology, source: string, target: string, w: string,
                              d: MemberDestination, activate: bool)
  {
    && source in t.containers && target in t.containers
    && exists rest: Container, leafId, c: Container ::
      && TakenOut(t.containers[source], rest, leafId, w)
      && PlaceMakes(t.containers[target], c, w, leafId, d, activate)
      && t' == With2(t, source, rest, target, c, t.independent)
  }

  ghost predicate MemberTrades(t: Topology, t': Topology, k: string, outgoing: string, incoming: string)
  {
    && k in t.containers
    && exists c: Container ::
      && Replaced(t.containers[k], c, outgoing, incoming)
      && t' == With(t, k, c, t.independent - {incoming} + {outgoing})
  }

  ghost predicate Reworks(t: Topology, t': Topology, k: string, command: Command)
    requires Within(command)
  {
    && k in t.containers
    && exists c: Container :: WithinMakes(t.containers[k], c, command) && t' == With(t, k, c, t.independent)
  }

  // What an accepted command makes of the topology.
  ghost predicate Makes(t: Topology, t': Topology, command: Command)
  {
    var at, free := t.containers, t.independent;
    match command
    case AddIndependentWindow(w) => t' == t.(independent := free + {w})
    case ForgetWindow(w) =>
      if w in free then t' == t.(independent := free - {w})
      else exists k :: k in at && w in WindowsOf(at[k].pages) && MemberGone(t, t', k, w, free)
    case DockIndependentWindows(k, pageId, first, firstLeaf, second, secondLeaf, splitId, o, r, p) =>
      var root := Joined(splitId, o, r, p, Leaf(secondLeaf, second), Leaf(firstLeaf, first));
      t' == With(t, k, Container(k, [ContainerPage(pageId, root, "", 1)], pageId), free - {first, second})
    case MergeContainers(target, source, index) => Merges(t, t', target, source, index)
    case MovePageBetween(source, target, pageId, index) => PageMoves(t, t', source, target, pageId, index)
    case DetachPageFrom(k, pageId, newId) => PageFreed(t, t', k, pageId, newId)
    case RegroupPageWithIndependent(k, pageId, w, newId, ownPage, ownLeaf) =>
      PageRegroups(t, t', k, pageId, w, newId, ContainerPage(ownPage, Leaf(ownLeaf, w), "", 1))
    case InsertIndependentWindow(k, w, leafId, destination, activate) =>
      Inserts(t, t', k, w, leafId, destination, activate)
    case GroupIndependentWindowsAsPages(k, first, firstPage, firstLeaf, second, secondPage, secondLeaf, activate) =>
      t' == With(t, k, Container(k, [ContainerPage(firstPage, Leaf(firstLeaf, first), "", 1),
                                     ContainerPage(secondPage, Leaf(secondLeaf, second), "", 2)],
                                 if activate then secondPage else firstPage), free - {first, second})
    case RegroupMemberWithIndependent(k, member, w, newId, layout, activate) =>
      MemberRegroups(t, t', k, member, w, newId, layout, activate)
    case MoveMember(source, target, w, destination, activate) =>
      MemberMoves(t, t', source, target, w, destination, activate)
    case DetachMember(k, w) => MemberGone(t, t', k, w, free + {w})
    case ReleaseContainer(k) =>
      k in at && t' == t.(containers := at - {k}, independent := free + WindowsOf(at[k].pages))
    case AdoptIndependentLayout(c) => t' == With(t, c.id, c, free - WindowsOf(c.pages))
    case ReplaceMemberWindow(k, outgoing, incoming) => MemberTrades(t, t', k, outgoing, incoming)
    case _ => Reworks(t, t', command.containerId, command)
  }

  // ----------------------------------------------------------- one command each

  lemma ForgottenMeaning(t: Topology, command: Command)
    requires command.ForgetWindow? && Staged(t)
    ensures Forgotten(t, command).Some? <==> Accepts(t, command)
    ensures Forgotten(t, command).Some? ==> Makes(t, Forgotten(t, command).value, command)
  {
    hide ValidContainer, WindowsOf, TakenOut, DetachWindow;
    var w := command.windowId;
    if w !in t.independent && OwnerOf(t, w).Some? {
      var k := OwnerOf(t, w).value;
      Member(t, k);
      DetachWindowMeaning(t.containers[k], w);
      LeftLeaf(t.containers[k], w);
    }
  }

  lemma DockedMeaning(t: Topology, command: Command)
    requires command.DockIndependentWindows? && Staged(t)
    ensures Docked(t, command).Some? <==> Accepts(t, command)
    ensures Docked(t, command).Some? ==> Makes(t, Docked(t, command).value, command)
  {
    var DockIndependentWindows(k, pageId, first, firstLeaf, second, secondLeaf, splitId, o, r, p) := command;
    NoneIndependent(t);
    hide AddPage, SplitWindow, Joined, Five, Staged;
    if first in t.independent && second in t.independent {
      DockedPair(k, pageId, firstLeaf, first, secondLeaf, second, splitId, o, r, p);
    }
  }

  lemma GroupedMeaning(t: Topology, command: Command)
    requires command.GroupIndependentWindowsAsPages? && Staged(t)
    ensures Grouped(t, command).Some? <==> Accepts(t, command)
    ensures Grouped(t, command).Some? ==> Makes(t, Grouped(t, command).value, command)
  {
    var GroupIndependentWindowsAsPages(k, first, firstPage, firstLeaf, second, secondPage, secondLeaf, activate)
      := command;
    NoneIndependent(t);
    GroupedSteps(t, command);
    hide GroupOf, Grouped, Five, Staged;
    if first in t.independent && second in t.independent {
      GroupOfMeaning(k, firstPage, firstLeaf, first, secondPage, secondLeaf, second, activate);
    }
  }

  // Two pages, the second one active if asked for.
  ghost function GroupOf(k: string, a: ContainerPage, b: ContainerPage, activate: bool): Option<Container> {
    var one :- AddPage(Empty(k), a);
    var two :- AddPage(one, b);
    if activate then ActivatePage(two, b.id) else Some(two)
  }

  lemma GroupedSteps(t: Topology, command: Command)
    requires command.GroupIndependentWindowsAsPages?
    ensures var GroupIndependentWindowsAsPages(k, first, firstPage, firstLeaf, second, secondPage, secondLeaf, activate)
        := command;
      var group := GroupOf(k, Single(firstPage, firstLeaf, first), Single(secondPage, secondLeaf, second), activate);
      Grouped(t, command) ==
        if first != second && k !in t.containers && first in t.independent && second in t.independent && group.Some?
        then Some(Put(t, group.value).(independent := t.independent - {first, second}))
        else None
  {
    hide AddPage, ActivatePage;
  }

  lemma GroupOfMeaning(k: string, pageA: string, leafA: string, a: string, pageB: string, leafB: string, b: string,
                       activate: bool)
    requires a != "" && b != ""
    ensures var group := GroupOf(k, Single(pageA, leafA, a), Single(pageB, leafB, b), activate);
      && (group.Some? <==> a != b && Five(k, pageA, leafA, pageB, leafB))
      && (group.Some? ==>
           group.value == Container(k, [ContainerPage(pageA, Leaf(leafA, a), "", 1),
                                        ContainerPage(pageB, Leaf(leafB, b), "", 2)],
                                    if activate then pageB else pageA))
  {
    hide AddPage, ActivatePage, Five, ValidContainer;
    GroupedPair(k, pageA, leafA, a, pageB, leafB, b);
    SecondActive(k, pageA, leafA, a, pageB, leafB, b);
  }

  lemma SecondActive(k: string, pageA: string, leafA: string, a: string, pageB: string, leafB: string, b: string)
    ensures var two := Container(k, [ContainerPage(pageA, Leaf(leafA, a), "", 1),
                                     ContainerPage(pageB, Leaf(leafB, b), "", 2)], pageA);
      ValidContainer(two) ==> ActivatePage(two, pageB) == Some(two.(activePageId := pageB))
  {
    var two := Container(k, [ContainerPage(pageA, Leaf(leafA, a), "", 1),
                             ContainerPage(pageB, Leaf(leafB, b), "", 2)], pageA);
    assert two.pages[1] in two.pages;
    ActivatePageMeaning(two, pageB);
    hide ValidContainer;
  }

  lemma DetachedMeaning(t: Topology, command: Command)
    requires command.DetachMember? && Staged(t)
    ensures MemberDetached(t, command).Some? <==> Accepts(t, command)
    ensures MemberDetached(t, command).Some? ==> Makes(t, MemberDetached(t, command).value, command)
  {
    hide ValidContainer, WindowsOf, TakenOut, DetachWindow;
    if command.containerId in t.containers {
      Member(t, command.containerId);
      DetachWindowMeaning(t.containers[command.containerId], command.windowId);
      if command.windowId in WindowsOf(t.containers[command.containerId].pages) {
        LeftLeaf(t.containers[command.containerId], command.windowId);
      }
    }
  }

  lemma ReleasedMeaning(t: Topology, command: Command)
    requires command.ReleaseContainer? && Staged(t)
    ensures Released(t, command).Some? <==> Accepts(t, command)
    ensures Released(t, command).Some? ==> Makes(t, Released(t, command).value, command)
  {
  }

  lemma AdoptedMeaning(t: Topology, command: Command)
    requires command.AdoptIndependentLayout? && Staged(t)
    ensures Adopted(t, command).Some? <==> Accepts(t, command)
    ensures Adopted(t, command).Some? ==> Makes(t, Adopted(t, command).value, command)
  {
    hide ValidContainer, WindowsOf, Dissolves, Several, Staged;
    if ValidContainer(command.container) {
      DissolvesIff(command.container);
    }
  }

  lemma DissolvesIff(c: Container)
    requires ValidContainer(c)
    ensures Dissolves(c) <==> !Several(WindowsOf(c.pages))
  {
    TwoMembers(c);
    hide ValidContainer, WindowsOf;
  }

  lemma MemberReplacedMeaning(t: Topology, command: Command)
    requires command.ReplaceMemberWindow? && Staged(t)
    ensures MemberReplaced(t, command).Some? <==> Accepts(t, command)
    ensures MemberReplaced(t, command).Some? ==> Makes(t, MemberReplaced(t, command).value, command)
  {
    hide ValidContainer, WindowsOf, ReplaceWindow, Replaced;
    var ReplaceMemberWindow(k, outgoing, incoming) := command;
    if k in t.containers && incoming in t.independent {
      Member(t, k);
      ReplaceWindowMeaning(t.containers[k], outgoing, incoming);
      IndependentUnowned(t);
      if ReplaceWindow(t.containers[k], outgoing, incoming).Some? {
        ReplaceWindowEffect(t.containers[k], outgoing, incoming);
        var c := ReplaceWindow(t.containers[k], outgoing, incoming).value;
        assert incoming != outgoing;
        assert t.independent + {outgoing} - {incoming} == t.independent - {incoming} + {outgoing};
      }
    }
  }

  lemma InsertedMeaning(t: Topology, command: Command)
    requires command.InsertIndependentWindow? && Staged(t) && Room(t)
    ensures Inserted(t, command).Some? <==> Accepts(t, command)
    ensures Inserted(t, command).Some? ==> Makes(t, Inserted(t, command).value, command)
  {
    hide ValidContainer, WindowsOf, PlaceMember, ActivatePage, PlaceAccepts, PlaceMakes;
    var InsertIndependentWindow(k, w, leafId, destination, activate) := command;
    if k in t.containers {
      Member(t, k);
      PlacingMeaning(t.containers[k], w, leafId, destination, activate);
    }
  }

  lemma ReworkedMeaning(t: Topology, command: Command)
    requires Within(command) && Staged(t) && Room(t)
    ensures Reworked(t, command).Some? <==> Accepts(t, command)
    ensures Reworked(t, command).Some? ==> Makes(t, Reworked(t, command).value, command)
  {
    hide ValidContainer, WindowsOf, WithinContainer, WithinAccepts, WithinMakes, Accepts, Makes;
    var k := command.containerId;
    WithinAccepted(t, command);
    if Reworked(t, command).Some? {
      WithinMade(t, Reworked(t, command).value, command);
    }
    if k in t.containers {
      Member(t, k);
      WithinMeaning(t.containers[k], command);
      if WithinContainer(t.containers[k], command).Some? {
        WithinKeepsId(t.containers[k], command);
      }
    }
  }

  lemma WithinAccepted(t: Topology, command: Command)
    requires Within(command) && Staged(t)
    ensures Accepts(t, command) <==>
              command.containerId in t.containers && WithinAccepts(t.containers[command.containerId], command)
  {
    hide WithinAccepts, Staged;
  }

  lemma WithinMade(t: Topology, t': Topology, command: Command)
    requires Within(command)
    ensures Makes(t, t', command) <==> Reworks(t, t', command.containerId, command)
  {
    hide Reworks;
  }

  lemma WithinKeepsId(c: Container, command: Command)
    requires Within(command) && ValidContainer(c) && WithinContainer(c, command).Some?
    ensures WithinContainer(c, command).value.id == c.id
  {
    hide ValidContainer, WithinContainer;
    if command.ReorderMembers? {
      SwapWindowsMeaning(c, command.firstWindowId, command.secondWindowId);
      SwapIs(c, command);
    } else {
      WithinEffect(c, command);
    }
  }

  lemma SwapIs(c: Container, command: Command)
    requires command.ReorderMembers?
    ensures WithinContainer(c, command) == SwapWindows(c, command.firstWindowId, command.secondWindowId)
  {
  }

  lemma MemberMovedMeaning(t: Topology, command: Command)
    requires command.MoveMember? && Staged(t) && Room(t)
    ensures MemberMoved(t, command).Some? <==> Accepts(t, command)
    ensures MemberMoved(t, command).Some? ==> Makes(t, MemberMoved(t, command).value, command)
  {
    hide ValidContainer, WindowsOf, DetachWindow, TakenOut, PlaceMember, ActivatePage, PlaceAccepts, PlaceMakes;
    var MoveMember(source, target, w, destination, activate) := command;
    if source != target && source in t.containers && target in t.containers {
      TwoMembersOf(t, source, target);
      DetachWindowMeaning(t.containers[source], w);
      if w in WindowsOf(t.containers[source].pages) {
        LeftLeaf(t.containers[source], w);
        PlacingMeaning(t.containers[target], w, LeafOf(t.containers[source], w), destination, activate);
      }
    }
  }

  lemma MemberRegroupedMeaning(t: Topology, command: Command)
    requires command.RegroupMemberWithIndependent? && Staged(t)
    ensures MemberRegrouped(t, command).Some? <==> Accepts(t, command)
    ensures MemberRegrouped(t, command).Some? ==> Makes(t, MemberRegrouped(t, command).value, command)
  {
    hide ValidContainer, WindowsOf, DetachWindow, TakenOut, GroupWith, RegroupAccepts, RegroupMakes, ActivatePage;
    var RegroupMemberWithIndependent(k, member, w, newId, layout, activate) := command;
    if k in t.containers && w in t.independent {
      Member(t, k);
      NoneIndependent(t);
      IndependentUnowned(t);
      DetachWindowMeaning(t.containers[k], member);
      if member in WindowsOf(t.containers[k].pages) && (activate ==> layout.RegroupAsPages?) {
        assert member != w;
        LeftLeaf(t.containers[k], member);
        RegroupMeaning(newId, DetachWindow(t.containers[k], member).value, w, layout, activate);
      }
    }
  }

  lemma RegroupMeaning(newId: string, d: DetachedWindow, w: string, layout: RegroupLayout, activate: bool)
    requires d.windowId != "" && w != "" && d.windowId != w && (activate ==> layout.RegroupAsPages?)
    ensures var grouped := GroupWith(Empty(newId), d, w, layout);
      && (grouped.Some? <==> RegroupAccepts(newId, w, d.leafNodeId, layout))
      && (grouped.Some? ==>
           var group := if activate then ActivatePage(grouped.value, layout.memberPageId) else grouped;
           && group.Some? && group.value.id == newId
           && RegroupMakes(group.value, newId, w, d.windowId, d.leafNodeId, layout, activate))
  {
    hide AddPage, SplitWindow, Five, Joined, ValidContainer;
    match layout {
      case RegroupAsSplit(pageId, ownLeaf, splitId, o, r, p) =>
        DockedPair(newId, pageId, ownLeaf, w, d.leafNodeId, d.windowId, splitId, o, r, p);
      case RegroupAsPages(ownPage, memberPage, ownLeaf) =>
        GroupedPair(newId, ownPage, ownLeaf, w, memberPage, d.leafNodeId, d.windowId);
        var grouped := GroupWith(Empty(newId), d, w, layout);
        if grouped.Some? {
          assert grouped.value.pages[1] in grouped.value.pages;
          ActivatePageMeaning(grouped.value, memberPage);
        }
    }
  }

  // What a page brings to a container that shares no window with its own.
  lemma PageAcceptable(c: Container, source: Container, page: ContainerPage)
    requires ValidContainer(source) && page in source.pages && WindowsOf(c.pages) !! WindowsOf(source.pages)
    ensures Acceptable(c, page) <==> forall id :: id in PageIds(page) ==> Unused(c, id)
    ensures PageWellFormed(page)
  {
    Belongs(source.pages, page);
    hide WindowsOf, IdsOf, ValidName, WellFormed;
  }

  lemma PageFreeMeaning(c: Container, pageId: string, page: ContainerPage, target: Container)
    requires ValidContainer(c) && page in c.pages && page.id == pageId
    ensures PageFree(c, pageId, target) <==> forall id :: id in PageIds(page) ==> Unused(target, id)
  {
    OnePage(c, pageId, page);
    hide ValidContainer, PageIds, Unused;
  }

  // A page ID is that of one page.
  lemma OnePage(c: Container, pageId: string, page: ContainerPage)
    requires ValidContainer(c) && page in c.pages && page.id == pageId
    ensures forall q :: q in c.pages && q.id == pageId ==> q == page
  {
    forall q | q in c.pages && q.id == pageId ensures q == page {
      var i :| 0 <= i < |c.pages| && c.pages[i] == q;
      var k :| 0 <= k < |c.pages| && c.pages[k] == page;
      if i != k {
        OtherId(c, i, k);
      }
    }
  }

  lemma LeavingPage(c: Container, pageId: string)
    requires ValidContainer(c) && HasPage(c.pages, pageId)
    ensures DetachPage(c, pageId).Some?
    ensures var d := DetachPage(c, pageId).value;
      && PageLeaves(c, d.rest, d.page, pageId) && d.page in c.pages && d.page.id == pageId && d.rest.id == c.id
      && PageWellFormed(d.page)
      && forall q :: q in c.pages && q.id == pageId ==> q == d.page
  {
    DetachPageMeaning(c, pageId);
    DetachPageEffect(c, pageId);
    OnePage(c, pageId, DetachPage(c, pageId).value.page);
    hide ValidContainer, DetachPage, WindowsOf, HandlesOf, PageWellFormed;
  }

  lemma PageMovedMeaning(t: Topology, command: Command)
    requires command.MovePageBetween? && Staged(t) && Room(t)
    ensures PageMoved(t, command).Some? <==> Accepts(t, command)
    ensures PageMoved(t, command).Some? ==> Makes(t, PageMoved(t, command).value, command)
  {
    hide ValidContainer, WindowsOf, DetachPage, AddPage, MovePage, PageAt, PageFree, PageLeaves, HasPage, Acceptable,
         PageWellFormed;
    var MovePageBetween(source, target, pageId, index) := command;
    if source != target && source in t.containers && target in t.containers {
      TwoMembersOf(t, source, target);
      var c, to := t.containers[source], t.containers[target];
      DetachPageMeaning(c, pageId);
      if HasPage(c.pages, pageId) {
        LeavingPage(c, pageId);
        var page := DetachPage(c, pageId).value.page;
        PageAcceptable(to, c, page);
        PageFreeMeaning(c, pageId, page, to);
        NonEmptyId(to);
        AddPageMeaning(to, page);
        if 0 <= index <= |to.pages| && AddPage(to, page).Some? {
          InsertedAt(to, page, index);
        }
      }
    }
  }

  lemma PageDetachedMeaning(t: Topology, command: Command)
    requires command.DetachPageFrom? && Staged(t)
    ensures PageDetached(t, command).Some? <==> Accepts(t, command)
    ensures PageDetached(t, command).Some? ==> Makes(t, PageDetached(t, command).value, command)
  {
    hide ValidContainer, WindowsOf, DetachPage, AddPage, PageLeaves, HasPage, Acceptable;
    var DetachPageFrom(k, pageId, newId) := command;
    if k in t.containers {
      Member(t, k);
      var c := t.containers[k];
      DetachPageMeaning(c, pageId);
      if HasPage(c.pages, pageId) {
        LeavingPage(c, pageId);
        var page := DetachPage(c, pageId).value.page;
        FoundedMeaning(newId, page);
        EmptyAccepts(newId, page);
        hide WellFormed, ValidName;
      }
    }
  }

  lemma PageRegroupedMeaning(t: Topology, command: Command)
    requires command.RegroupPageWithIndependent? && Staged(t)
    ensures PageRegrouped(t, command).Some? <==> Accepts(t, command)
    ensures PageRegrouped(t, command).Some? ==> Makes(t, PageRegrouped(t, command).value, command)
  {
    hide ValidContainer, WindowsOf, DetachPage, AddPage, PageLeaves, HasPage, PageAt, Three, PageWellFormed,
         PageIds, Staged, Makes;
    var RegroupPageWithIndependent(k, pageId, w, newId, ownPage, ownLeaf) := command;
    if PageRegrouped(t, command).Some? {
      PageRegroupedMakes(t, PageRegrouped(t, command).value, command);
    }
    if k in t.containers && w in t.independent {
      Member(t, k);
      NoneIndependent(t);
      var c := t.containers[k];
      DetachPageMeaning(c, pageId);
      if HasPage(c.pages, pageId) {
        LeavingPage(c, pageId);
        var page := DetachPage(c, pageId).value.page;
        Belongs(c.pages, page);
        GroupedWithPage(newId, ownPage, ownLeaf, w, page);
        ThreeNonEmpty(newId, ownPage, ownLeaf);
      }
    }
  }

  lemma PageRegroupedMakes(t: Topology, t': Topology, command: Command)
    requires command.RegroupPageWithIndependent?
    ensures var RegroupPageWithIndependent(k, pageId, w, newId, ownPage, ownLeaf) := command;
      Makes(t, t', command) <==>
        PageRegroups(t, t', k, pageId, w, newId, ContainerPage(ownPage, Leaf(ownLeaf, w), "", 1))
  {
    hide PageRegroups;
  }

  lemma ThreeNonEmpty(a: string, b: string, c: string)
    ensures Three(a, b, c) ==> a != ""
  {
  }

  // Pages are taken in one after another exactly when none brings an identity already there.
  lemma {:induction false} AddPagesMeaning(c: Container, source: Container, ps: seq<ContainerPage>)
    requires ValidContainer(c) && ValidContainer(source) && WindowsOf(c.pages) !! WindowsOf(source.pages)
    requires |ps| <= |source.pages| && ps == source.pages[..|ps|] && |c.pages| + |ps| < 0x7FFF_FFFF
    ensures AddPages(c, ps).Some? <==> forall q, id :: q in ps && id in PageIds(q) ==> Unused(c, id)
    ensures AddPages(c, ps).Some? ==> IdsOf(AddPages(c, ps).value.pages) == IdsOf(c.pages) + IdsOf(ps)
    decreases |ps|
  {
    hide ValidContainer, WindowsOf, AddPage, PageIds, Acceptable;
    if ps == [] {
      assert IdsOf([]) == {};
    } else {
      var init, last := ps[..|ps| - 1], ps[|ps| - 1];
      assert init == source.pages[..|init|] && ps == init + [last];
      AddPagesMeaning(c, source, init);
      if AddPages(c, init).Some? {
        NextPageMeaning(c, source, init, last);
      }
    }
  }

  lemma NextPageMeaning(c: Container, source: Container, init: seq<ContainerPage>, last: ContainerPage)
    requires ValidContainer(c) && ValidContainer(source) && WindowsOf(c.pages) !! WindowsOf(source.pages)
    requires |init| < |source.pages| && init + [last] == source.pages[..|init| + 1]
    requires |c.pages| + |init| + 1 < 0x7FFF_FFFF && AddPages(c, init).Some?
    requires IdsOf(AddPages(c, init).value.pages) == IdsOf(c.pages) + IdsOf(init)
    ensures AddPage(AddPages(c, init).value, last).Some? <==> forall id :: id in PageIds(last) ==> Unused(c, id)
    ensures AddPage(AddPages(c, init).value, last).Some? ==>
      IdsOf(AddPage(AddPages(c, init).value, last).value.pages) == IdsOf(c.pages) + IdsOf(init + [last])
  {
    hide ValidContainer, WindowsOf, AddPage, AddPages, IdsOf, PageIds, PageWellFormed, Acceptable, Numbered, Unused;
    var now := AddPages(c, init).value;
    AddPagesEffect(c, init);
    NonEmptyId(now);
    ApartFromBefore(source, init, last);
    FreeNext(c, now, init, last);
    AddPageMeaning(now, last);
    AppendPage(c.id, init, last);
    if AddPage(now, last).Some? {
      AddPageEffect(now, last);
      NumberedIds(now.pages, last);
      assert IdsOf(c.pages) + IdsOf(init) + PageIds(last) == IdsOf(c.pages) + (IdsOf(init) + PageIds(last));
    }
  }

  lemma FreeNext(c: Container, now: Container, init: seq<ContainerPage>, last: ContainerPage)
    requires now.id == c.id && IdsOf(now.pages) == IdsOf(c.pages) + IdsOf(init)
    requires WindowsOf(now.pages) !! Windows(last.root) && PageWellFormed(last) && PageIds(last) !! IdsOf(init)
    ensures Acceptable(now, last) <==> forall id :: id in PageIds(last) ==> Unused(c, id)
  {
    hide WindowsOf, IdsOf, ValidName, WellFormed;
    assert forall id :: id in PageIds(last) ==> (Unused(now, id) <==> Unused(c, id));
  }

  lemma NumberedIds(ps: seq<ContainerPage>, page: ContainerPage)
    ensures IdsOf(ps + [Numbered(ps, page)]) == IdsOf(ps) + PageIds(page)
  {
    AppendPage("", ps, Numbered(ps, page));
  }

  lemma ApartFromBefore(source: Container, init: seq<ContainerPage>, last: ContainerPage)
    requires ValidContainer(source) && |init| < |source.pages| && init + [last] == source.pages[..|init| + 1]
    ensures PageWellFormed(last) && PageIds(last) !! IdsOf(init) && Windows(last.root) !! WindowsOf(init)
    ensures Windows(last.root) <= WindowsOf(source.pages) && WindowsOf(init) <= WindowsOf(source.pages)
  {
    assert source.pages[|init|] == last && last in source.pages;
    forall q | q in init ensures Apart(q, last) && q in source.pages {
      var i :| 0 <= i < |init| && init[i] == q;
      assert source.pages[i] == q;
      Strangers(source.id, source.pages, i, |init|);
    }
  }

  lemma MergedPages(target: Container, source: Container, all: Container, index: nat)
    requires index <= |target.pages| && all.pages == target.pages + Renumbered(target.pages, source.pages)
    requires all.id == target.id && (target.pages != [] ==> all.activePageId == target.activePageId)
    requires ValidContainer(source)
    ensures MergeMakes(target, source, all.(pages := Spliced(all.pages, |target.pages|, index)), index)
  {
    hide Renumbered, ValidContainer, Spliced, Brought;
    RenumberedBrought(target.pages, source);
    SpliceOfAppended(target.pages, Renumbered(target.pages, source.pages), index);
  }

  lemma RenumberedBrought(ps: seq<ContainerPage>, source: Container)
    requires ValidContainer(source)
    ensures Brought(ps, source.pages, Renumbered(ps, source.pages))
  {
    if forall p, q :: p in ps && q in source.pages ==> p.number != q.number {
      SourceNumbers(source);
      MergeKeepsFreeNumbers(ps, source.pages);
    }
    hide Renumbered, ValidContainer;
  }

  lemma SourceNumbers(source: Container)
    requires ValidContainer(source)
    ensures forall p :: p in source.pages ==> p.number > 0
    ensures forall i, j :: 0 <= i < j < |source.pages| ==> source.pages[i].number != source.pages[j].number
  {
    forall i, j | 0 <= i < j < |source.pages| ensures source.pages[i].number != source.pages[j].number {
      Strangers(source.id, source.pages, i, j);
    }
  }

  lemma MergedMeaning(t: Topology, command: Command)
    requires command.MergeContainers? && Staged(t) && Room(t)
    ensures Merged(t, command).Some? <==> Accepts(t, command)
    ensures Merged(t, command).Some? ==> Makes(t, Merged(t, command).value, command)
  {
    hide ValidContainer, WindowsOf, AddPages, Spliced, MergeMakes, PageIds, Unused, Renumbered;
    var MergeContainers(targetId, sourceId, index) := command;
    if targetId != sourceId && targetId in t.containers && sourceId in t.containers {
      TwoMembersOf(t, targetId, sourceId);
      var target, source := t.containers[targetId], t.containers[sourceId];
      assert source.pages[..|source.pages|] == source.pages;
      AddPagesMeaning(target, source, source.pages);
      if AddPages(target, source.pages).Some? && 0 <= index <= |target.pages| {
        AddPagesEffect(target, source.pages);
        AppendedInOrder(target, source.pages);
        MergedPages(target, source, AddPages(target, source.pages).value, index);
      }
    }
  }

  // ------------------------------------------------------------ all twenty-three

  lemma RehousingMeaning(t: Topology, command: Command)
    requires Rehouses(command) && Staged(t) && Room(t)
    ensures Apply(t, command).Some? <==> Accepts(t, command)
    ensures Apply(t, command).Some? ==> Makes(t, Apply(t, command).value, command)
  {
    hide Docked, Merged, Topologies.PageMoved, PageDetached, PageRegrouped, Grouped, MemberRegrouped, MemberMoved,
         Adopted, Makes, Accepts, Staged;
    match command {
      case DockIndependentWindows(_, _, _, _, _, _, _, _, _, _) => DockedMeaning(t, command);
      case MergeContainers(_, _, _) => MergedMeaning(t, command);
      case MovePageBetween(_, _, _, _) => PageMovedMeaning(t, command);
      case DetachPageFrom(_, _, _) => PageDetachedMeaning(t, command);
      case RegroupPageWithIndependent(_, _, _, _, _, _) => PageRegroupedMeaning(t, command);
      case GroupIndependentWindowsAsPages(_, _, _, _, _, _, _, _) => GroupedMeaning(t, command);
      case RegroupMemberWithIndependent(_, _, _, _, _, _) => MemberRegroupedMeaning(t, command);
      case MoveMember(_, _, _, _, _) => MemberMovedMeaning(t, command);
      case AdoptIndependentLayout(_) => AdoptedMeaning(t, command);
    }
  }

  lemma ResidentsMeaning(t: Topology, command: Command)
    requires !Rehouses(command) && Staged(t) && Room(t)
    ensures Apply(t, command).Some? <==> Accepts(t, command)
    ensures Apply(t, command).Some? ==> Makes(t, Apply(t, command).value, command)
  {
    hide Forgotten, Inserted, MemberDetached, Released, Reworked, MemberReplaced, Staged;
    match command {
      case AddIndependentWindow(_) =>
      case ForgetWindow(_) => ForgottenMeaning(t, command);
      case InsertIndependentWindow(_, _, _, _, _) => InsertedMeaning(t, command);
      case DetachMember(_, _) => DetachedMeaning(t, command);
      case ReleaseContainer(_) => ReleasedMeaning(t, command);
      case ReplaceMemberWindow(_, _, _) => MemberReplacedMeaning(t, command);
      case _ => ReworkedMeaning(t, command);
    }
  }

  // Every command is accepted exactly when its identities, members and arguments are in order, and
  // then makes exactly the topology it describes.
  lemma ApplyMeaning(t: Topology, command: Command)
    requires Staged(t) && Room(t)
    ensures Apply(t, command).Some? <==> Accepts(t, command)
    ensures Apply(t, command).Some? ==> Makes(t, Apply(t, command).value, command)
  {
    hide Apply, Staged, Makes, Accepts, Room;
    if Rehouses(command) {
      RehousingMeaning(t, command);
    } else {
      ResidentsMeaning(t, command);
    }
  }
}
