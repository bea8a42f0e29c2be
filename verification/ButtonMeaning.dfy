// What one sample of the button resolver answers, button by button and told from the fields of
// the bindings: which page is in force, which press engages a layer, which binding a press
// gets, and in which order the edges come.

module ButtonMeaning {
  import opened Basics
  import opened ButtonLayers

  // ------------------------------------------------------------------ the pages

  ghost predicate FirstWith(pages: seq<ButtonPage>, id: string, page: ButtonPage) {
    exists i :: 0 <= i < |pages| && pages[i] == page && page.id == id && forall j :: 0 <= j < i ==> pages[j].id != id
  }

  function Reads(page: ButtonPage, b: Button): Binding {
    if b in page.bindings then page.bindings[b] else Binding("none", "", [], [], [], "", "", "", "")
  }

  // A held page or a page to hold makes a press engage a layer.
  predicate Engages(b: Binding) {
    if b.action == "hold-page" then b.page != "" else b.holdPage != ""
  }

  predicate PureModifier(b: Binding) {
    b.action == "combination" && |b.modifiers| > 0 && |b.keys| == 0 && |b.mouseButtons| == 0
  }

  // The page that the newest held modifier names, or else the active page.
  ghost predicate InForce(p: Profile, held: map<Button, Binding>, modifiers: seq<Button>, page: ButtonPage) {
    if modifiers != [] && modifiers[|modifiers| - 1] in held then
      var newest := held[modifiers[|modifiers| - 1]];
      var id := if newest.action == "hold-page" then newest.page else newest.holdPage;
      if exists q :: q in p.pages && q.id == id then FirstWith(p.pages, id, page)
      else FirstWith(p.pages, p.activePage, page)
    else
      FirstWith(p.pages, p.activePage, page)
  }

  lemma {:induction false} FindPageMeaning(pages: seq<ButtonPage>, id: string)
    ensures match FindPage(pages, id)
            case Some(page) => FirstWith(pages, id, page) && page in pages
            case None => forall q :: q in pages ==> q.id != id
  {
    if pages != [] && pages[0].id == id {
      assert pages[0] in pages;
    } else if pages != [] {
      FindPageMeaning(pages[1..], id);
      if FindPage(pages[1..], id).Some? {
        var page := FindPage(pages[1..], id).value;
        var i :| 0 <= i < |pages[1..]| && pages[1..][i] == page && page.id == id
                 && forall j :: 0 <= j < i ==> pages[1..][j].id != id;
        assert pages[i + 1] == page;
        assert forall j :: 0 <= j < i + 1 ==> pages[j].id != id by {
          assert forall j :: 0 < j < i + 1 ==> pages[j] == pages[1..][j - 1];
        }
      }
    }
  }

  lemma FirstUnique(pages: seq<ButtonPage>, id: string, a: ButtonPage, b: ButtonPage)
    requires FirstWith(pages, id, a) && FirstWith(pages, id, b)
    ensures a == b
  {
    var i :| 0 <= i < |pages| && pages[i] == a && a.id == id && forall j :: 0 <= j < i ==> pages[j].id != id;
    var k :| 0 <= k < |pages| && pages[k] == b && b.id == id && forall j :: 0 <= j < k ==> pages[j].id != id;
    assert i == k;
  }

  lemma ActiveMeaning(p: Profile, page: ButtonPage)
    requires WellFormedProfile(p)
    ensures FirstWith(p.pages, p.activePage, page) <==> page == ActivePage(p)
  {
    FindPageMeaning(p.pages, p.activePage);
    if FirstWith(p.pages, p.activePage, page) {
      FirstUnique(p.pages, p.activePage, page, ActivePage(p));
    }
  }

  lemma InForceMeaning(p: Profile, held: map<Button, Binding>, modifiers: seq<Button>, page: ButtonPage)
    requires WellFormedProfile(p) && forall b :: b in modifiers ==> b in held
    ensures InForce(p, held, modifiers, page) <==> page == EffectivePage(p, held, modifiers)
  {
    ActiveMeaning(p, page);
    hide FindPage, FirstWith, ActivePage;
    if modifiers != [] {
      var newest := modifiers[|modifiers| - 1];
      assert newest in held;
      var id := LayerOf(held[newest]);
      FindPageMeaning(p.pages, id);
      if FindPage(p.pages, id).Some? && FirstWith(p.pages, id, page) {
        FirstUnique(p.pages, id, page, FindPage(p.pages, id).value);
      }
    }
  }

  // ------------------------------------------------------------------ the state

  // A listed button that goes down with this sample.
  ghost predicate Fresh(s: Layers, pressed: set<Button>, b: Button) {
    b in Known() && b in pressed && b !in s.physical
  }

  // What becomes of one button, given the active page and the pages in force before and after.
  ghost predicate Meant(s: Layers, active: ButtonPage, before: ButtonPage, page: ButtonPage, pressed: set<Button>,
                        next: Layers, b: Button)
  {
    if Fresh(s, pressed, b) then
      // A press is bound on the active page if it engages a layer there, and on the page in
      // force otherwise.
      && b in next.held && b !in next.quarantined
      && next.held[b] == Reads(if Engages(Reads(active, b)) then active else page, b)
      && (b in next.modifiers <==> Engages(Reads(active, b)))
    else if b in s.held && b in pressed then
      if before.id == page.id || b in s.modifiers || s.held[b].action == "hold-gyro" || PureModifier(s.held[b]) then
        && b in next.held && next.held[b] == s.held[b] && b !in next.quarantined
        && (b in next.modifiers <==> b in s.modifiers)
      else
        b !in next.held && b !in next.modifiers && b in next.quarantined
    else
      b !in next.held && b !in next.modifiers && (b in next.quarantined <==> b in s.quarantined && b in pressed)
  }

  lemma FreshArrives(s: Layers, p: Profile, pressed: set<Button>, b: Button)
    requires WellFormedProfile(p)
    ensures Fresh(s, pressed, b) <==> b in Arrived(s, pressed)
    ensures b in Activators(s, p, pressed) <==> Fresh(s, pressed, b) && Engages(Reads(ActivePage(p), b))
  {
    hide Known, ActivePage;
  }

  // What the sets of a sample say about one button: where it comes from,
  lemma OriginAt(s: Layers, p: Profile, pressed: set<Button>, b: Button)
    requires WellFormedProfile(p) && Consistent(s)
    ensures b in Activators(s, p, pressed) ==> b in Arrived(s, pressed)
    ensures b in Arrived(s, pressed) ==> b !in s.held && b !in s.quarantined
    ensures b in Retired(Engaged(s, p, pressed), LayerChanges(s, p, pressed)) ==> b in s.held && b in pressed
  {
    ActivatorsArrive(s, p, pressed);
    SampleSets(s, p, pressed);
    hide Activators, LayerChanges, Known, Arrived, Engaged, Retired;
    assert b in s.held || b in s.quarantined ==> b in s.physical;
  }

  // whether it is held and under which binding,
  lemma HeldAt(s: Layers, p: Profile, pressed: set<Button>, b: Button)
    requires WellFormedProfile(p) && Consistent(s)
    ensures var e, n, arrived, activators := Engaged(s, p, pressed), Next(s, p, pressed), Arrived(s, pressed),
                                             Activators(s, p, pressed);
      var retired, page := Retired(e, LayerChanges(s, p, pressed)), EffectivePage(p, e.held, e.modifiers);
      && (b in n.held <==> (b in s.held && b in pressed && b !in retired) || b in arrived)
      && (b in arrived ==> n.held[b] == Bound(if b in activators then ActivePage(p).bindings else page.bindings, b))
      && (b in s.held && b in pressed && b !in retired ==> n.held[b] == s.held[b])
  {
    OriginAt(s, p, pressed, b);
    HeldAfter(s, p, pressed);
    GoneAt(s, pressed, b);
    var e, activators := Engaged(s, p, pressed), Activators(s, p, pressed);
    Overlaid(s.held, Gone(s, pressed) * s.held.Keys, activators, ActivePage(p), Retired(e, LayerChanges(s, p, pressed)),
             Arrived(s, pressed) - activators, EffectivePage(p, e.held, e.modifiers), b);
    hide Activators, LayerChanges, Next, EffectivePage, Arrived, Engaged, ActivePage, Retired, Consistent, Bound,
         Gone, BoundAll;
  }

  lemma GoneAt(s: Layers, pressed: set<Button>, b: Button)
    requires Consistent(s)
    ensures b in Gone(s, pressed) * s.held.Keys <==> b in s.held && b !in pressed
  {
    hide Known;
    assert b in s.held ==> b in s.physical;
  }

  lemma Overlaid(h: map<Button, Binding>, gone: set<Button>, activators: set<Button>, active: ButtonPage,
                 taken: set<Button>, plain: set<Button>, page: ButtonPage, b: Button)
    ensures var n := h - gone + BoundAll(activators, active) - taken + BoundAll(plain, page);
      && (b in n <==> (((b in h && b !in gone) || b in activators) && b !in taken) || b in plain)
      && (b in plain ==> n[b] == Bound(page.bindings, b))
      && (b in activators && b !in taken && b !in plain ==> n[b] == Bound(active.bindings, b))
      && (b in h && b !in gone && b !in activators && b !in taken && b !in plain ==> n[b] == h[b])
  {
    hide Bound;
  }

  // and whether it is a modifier or in quarantine.
  lemma MarksAt(s: Layers, p: Profile, pressed: set<Button>, b: Button)
    requires WellFormedProfile(p) && Consistent(s)
    ensures var n := Next(s, p, pressed);
      && (b in n.modifiers <==> (b in s.modifiers && b in pressed) || b in Activators(s, p, pressed))
      && (b in n.quarantined <==>
           (b in s.quarantined && b in pressed) || b in Retired(Engaged(s, p, pressed), LayerChanges(s, p, pressed)))
  {
    EngagedFacts(s, p, pressed);
    NextFacts(s, p, pressed);
    hide Activators, LayerChanges, Next, Engaged, Retired, Consistent, Arrived, Distinct;
  }

  lemma NextMeaning(s: Layers, p: Profile, pressed: set<Button>, b: Button)
    requires WellFormedProfile(p) && Consistent(s)
    ensures var e := Engaged(s, p, pressed);
      Meant(s, ActivePage(p), EffectivePage(p, s.held, s.modifiers), EffectivePage(p, e.held, e.modifiers), pressed,
            Next(s, p, pressed), b)
  {
    OriginAt(s, p, pressed, b);
    HeldAt(s, p, pressed, b);
    MarksAt(s, p, pressed, b);
    FreshArrives(s, p, pressed, b);
    if b in s.held && b in pressed {
      RetiredIff(s, p, pressed, b);
    }
    BoundReads(ActivePage(p), b);
    BoundReads(EffectivePage(p, Engaged(s, p, pressed).held, Engaged(s, p, pressed).modifiers), b);
    assert b in s.modifiers ==> b in s.held;
    hide Activators, LayerChanges, Next, EffectivePage, Arrived, Engaged, ActivePage, Retired, Engages, Fresh, Bound,
         Consistent, PureModifier, Reads;
  }

  lemma BoundReads(page: ButtonPage, b: Button)
    ensures Bound(page.bindings, b) == Reads(page, b)
  {
  }

  // A change of layer retires a held button that neither is a modifier nor holds on by itself.
  lemma RetiredIff(s: Layers, p: Profile, pressed: set<Button>, b: Button)
    requires WellFormedProfile(p) && Consistent(s) && b in s.held && b in pressed
    ensures var e := Engaged(s, p, pressed);
      b in Retired(e, LayerChanges(s, p, pressed)) <==>
        && EffectivePage(p, s.held, s.modifiers).id != EffectivePage(p, e.held, e.modifiers).id
        && b !in s.modifiers && s.held[b].action != "hold-gyro" && !PureModifier(s.held[b])
  {
    SurvivorStays(s, p, pressed, b);
    hide Engaged, EffectivePage;
  }

  // Modifiers keep their bindings through the rest of a sample, so that the page in force stays.
  lemma ModifierKept(s: Layers, p: Profile, pressed: set<Button>, b: Button)
    requires WellFormedProfile(p) && Consistent(s) && b in Engaged(s, p, pressed).modifiers
    ensures b in Engaged(s, p, pressed).held && b in Next(s, p, pressed).held
    ensures Next(s, p, pressed).held[b] == Engaged(s, p, pressed).held[b]
  {
    EngagedFacts(s, p, pressed);
    HeldAfter(s, p, pressed);
    OriginAt(s, p, pressed, b);
    var e, activators := Engaged(s, p, pressed), Activators(s, p, pressed);
    var taken := Retired(e, LayerChanges(s, p, pressed));
    RetiredFacts(e, LayerChanges(s, p, pressed));
    assert b in s.modifiers ==> b in s.held;
    hide Engaged, Activators, Retired, LayerChanges, Next, Arrived, EffectivePage, Consistent, BoundAll, Distinct;
    Overlaid(e.held, {}, {}, ActivePage(p), taken, Arrived(s, pressed) - activators,
             EffectivePage(p, e.held, e.modifiers), b);
    NothingOverlaid(e.held, ActivePage(p));
  }

  lemma NothingOverlaid(h: map<Button, Binding>, page: ButtonPage)
    ensures h - {} + BoundAll({}, page) == h
  {
  }

  lemma PageAfter(s: Layers, p: Profile, pressed: set<Button>)
    requires WellFormedProfile(p) && Consistent(s)
    ensures var e, n := Engaged(s, p, pressed), Next(s, p, pressed);
      && EffectivePage(p, n.held, n.modifiers) == EffectivePage(p, e.held, e.modifiers)
      && forall b :: b in n.modifiers ==> b in n.held
  {
    hide Engaged, Activators, Retired, LayerChanges, Next, Arrived, EffectivePage, Consistent;
    NextFacts(s, p, pressed);
    ConsistentNext(s, p, pressed);
    ModifiersHeld(Next(s, p, pressed));
    var e, n := Engaged(s, p, pressed), Next(s, p, pressed);
    if e.modifiers != [] {
      ModifierKept(s, p, pressed, e.modifiers[|e.modifiers| - 1]);
    }
    SamePageInForce(p, e.held, n.held, e.modifiers);
  }

  lemma ModifiersHeld(s: Layers)
    requires Consistent(s)
    ensures forall b :: b in s.modifiers ==> b in s.held
  {
  }

  lemma SamePageInForce(p: Profile, held: map<Button, Binding>, later: map<Button, Binding>, modifiers: seq<Button>)
    requires WellFormedProfile(p)
    ensures modifiers == [] || Bound(held, modifiers[|modifiers| - 1]) == Bound(later, modifiers[|modifiers| - 1]) ==>
      EffectivePage(p, held, modifiers) == EffectivePage(p, later, modifiers)
  {
    hide Bound, FindPage;
  }

  // ------------------------------------------------------------------ the edges

  // What an observer's belief before and after has to do with an edge.
  ghost predicate Turns(e: ButtonEdge, before: map<Button, Binding>, after: map<Button, Binding>) {
    if e.down then e.button !in before && e.button in after && after[e.button] == e.binding
    else e.button in before && before[e.button] == e.binding && e.button !in after
  }

  // With one edge per button, each tells what is held before and after, and no other button's
  // hold changes.
  lemma {:induction false} OneEachReplay(edges: seq<ButtonEdge>, before: map<Button, Binding>, after: map<Button,
                                         Binding>)
    requires OneEach(edges) && Replay(edges, before) == Some(after)
    ensures forall e :: e in edges ==> Turns(e, before, after)
    ensures forall b :: b !in ButtonsOf(edges) ==>
      (b in before <==> b in after) && (b in before ==> before[b] == after[b])
  {
    if edges != [] {
      var init, last := edges[..|edges| - 1], edges[|edges| - 1];
      assert edges == init + [last];
      ButtonsOfMore(init, last);
      var middle := Replay(init, before).value;
      ReplayJoins(init, [last], before);
      LastReplay(middle, last, after);
      hide Replay, ButtonsOf;
      OneEachReplay(init, before, middle);
    }
  }

  lemma ButtonsOfMore(init: seq<ButtonEdge>, last: ButtonEdge)
    requires OneEach(init + [last])
    ensures OneEach(init) && ButtonsOf(init + [last]) == ButtonsOf(init) + {last.button}
    ensures last.button !in ButtonsOf(init) && forall e :: e in init ==> e.button in ButtonsOf(init)
  {
    var edges := init + [last];
    assert edges[|init|] == last;
    assert forall i :: 0 <= i < |init| ==> edges[i] == init[i];
  }

  lemma LastReplay(middle: map<Button, Binding>, last: ButtonEdge, after: map<Button, Binding>)
    requires Replay([last], middle) == Some(after)
    ensures Turns(last, middle, after)
    ensures forall b :: b != last.button ==> (b in middle <==> b in after) && (b in middle ==> middle[b] == after[b])
  {
    assert Replay([last][..0], middle) == Some(middle);
  }

  // The edges are exactly a down for each fresh press under its new binding, and an up for each
  // button no longer held under its old one; no button has two.
  lemma EdgesMeaning(s: Layers, p: Profile, pressed: set<Button>, next: Layers, edges: seq<ButtonEdge>)
    requires WellFormedProfile(p) && Consistent(s) && Sampled(s, p, pressed, next, edges)
    ensures OneEach(edges)
    ensures forall e :: e in edges <==>
      || (e.down && Fresh(s, pressed, e.button) && e.button in next.held && e.binding == next.held[e.button])
      || (!e.down && e.button in s.held && e.button !in next.held && e.binding == s.held[e.button])
  {
    AtMostOneEdge(s, p, pressed, next, edges);
    SampleReplays(s, p, pressed, next, edges);
    OneEachReplay(edges, s.held, next.held);
    SampleSets(s, p, pressed);
    hide Sampled, Replay, Consistent, Fresh, Arrived, Gone, Retired, Engaged, LayerChanges, OneEach, ButtonsOf, Known;
    forall e: ButtonEdge
      ensures e in edges <==>
        || (e.down && Fresh(s, pressed, e.button) && e.button in next.held && e.binding == next.held[e.button])
        || (!e.down && e.button in s.held && e.button !in next.held && e.binding == s.held[e.button])
    {
      ConcernedAt(s, p, pressed, next, edges, e.button);
    }
  }

  // The buttons that have an edge: those pressed, and those held before and not after.
  lemma ConcernedAt(s: Layers, p: Profile, pressed: set<Button>, next: Layers, edges: seq<ButtonEdge>, b: Button)
    requires WellFormedProfile(p) && Consistent(s) && Sampled(s, p, pressed, next, edges)
    ensures Fresh(s, pressed, b) ==> b in next.held && b !in s.held
    ensures !Fresh(s, pressed, b) && b in next.held ==> b in s.held
    ensures b in ButtonsOf(edges) <==> Fresh(s, pressed, b) || (b in s.held && b !in next.held)
    ensures b in ButtonsOf(edges) <==> exists e :: e in edges && e.button == b
  {
    hide Sampled, Next, Consistent, Fresh, Arrived, Gone, Retired, Engaged, LayerChanges, OneEach, Activators, Bound,
         ActivePage, EffectivePage, ButtonsOf;
    AtMostOneEdge(s, p, pressed, next, edges);
    SampledNext(s, p, pressed, next, edges);
    FreshArrives(s, p, pressed, b);
    OriginAt(s, p, pressed, b);
    HeldAt(s, p, pressed, b);
    GoneAt(s, pressed, b);
    ButtonOfEdge(edges, b);
  }

  lemma ButtonOfEdge(edges: seq<ButtonEdge>, b: Button)
    ensures b in ButtonsOf(edges) <==> exists e :: e in edges && e.button == b
  {
    if e :| e in edges && e.button == b {
      var i :| 0 <= i < |edges| && edges[i] == e;
      assert edges[i].button == b;
    }
  }

  // ------------------------------------------------------------------- the order

  ghost predicate Ascending(buttons: seq<Button>) {
    forall i, j :: 0 <= i < j < |buttons| ==> Rank(buttons[i]) < Rank(buttons[j])
  }

  lemma IdsAscend()
    ensures Ascending(ButtonIds())
  {
    assert forall i :: 0 <= i < |ButtonIds()| ==> Rank(ButtonIds()[i]) == i;
  }

  lemma {:induction false} KeepAscends(buttons: seq<Button>, kept: set<Button>)
    requires Ascending(buttons)
    ensures Ascending(Keep(buttons, kept)) && forall b :: b in Keep(buttons, kept) ==> b in buttons && b in kept
  {
    if buttons != [] {
      var init, last := buttons[..|buttons| - 1], buttons[|buttons| - 1];
      assert buttons == init + [last];
      assert forall b :: b in init ==> Rank(b) < Rank(last) by {
        assert forall i :: 0 <= i < |init| ==> init[i] == buttons[i];
      }
      KeepAscends(init, kept);
    }
  }

  // What is left of a list keeps its order.
  ghost predicate SameOrder(part: seq<Button>, whole: seq<Button>) {
    forall i, j, k, l :: 0 <= i < j < |part| && 0 <= k < |whole| && 0 <= l < |whole| ==>
      part[i] == whole[k] && part[j] == whole[l] ==> k < l
  }

  lemma {:induction false} DropOrder(buttons: seq<Button>, dropped: set<Button>)
    requires Distinct(buttons)
    ensures SameOrder(Drop(buttons, dropped), buttons)
    ensures forall b :: b in Drop(buttons, dropped) <==> b in buttons && b !in dropped
  {
    DropMeaning(buttons, dropped);
    if buttons != [] {
      var init, last := buttons[..|buttons| - 1], buttons[|buttons| - 1];
      assert buttons == init + [last];
      DropOrder(init, dropped);
      DropMeaning(init, dropped);
      DropLast(init, last, dropped);
      hide Drop;
      if last !in dropped {
        OrderExtends(Drop(init, dropped), init, last);
      } else {
        OrderWeakens(Drop(init, dropped), init, last);
      }
    }
  }

  lemma OrderExtends(part: seq<Button>, whole: seq<Button>, last: Button)
    requires SameOrder(part, whole) && (forall b :: b in part ==> b in whole) && Distinct(whole + [last])
    ensures SameOrder(part + [last], whole + [last])
  {
    var p, w := part + [last], whole + [last];
    assert w[|whole|] == last && forall k :: 0 <= k < |whole| ==> w[k] == whole[k];
    forall i, j, k, l | 0 <= i < j < |p| && 0 <= k < |w| && 0 <= l < |w| && p[i] == w[k] && p[j] == w[l] ensures k < l {
      assert p[i] == part[i] && part[i] in part;
      assert k < |whole|;
      if j < |part| {
        assert p[j] == part[j] && part[j] in part;
      }
    }
  }

  lemma OrderWeakens(part: seq<Button>, whole: seq<Button>, last: Button)
    requires SameOrder(part, whole) && (forall b :: b in part ==> b in whole) && Distinct(whole + [last])
    ensures SameOrder(part, whole + [last])
  {
    OrderExtends(part, whole, last);
    assert forall i :: 0 <= i < |part| ==> (part + [last])[i] == part[i];
  }

  // The modifiers are those that were and stay pressed, in their order, and then the new ones in
  // the order of the button list: the newest comes last.
  lemma ModifiersMeaning(s: Layers, p: Profile, pressed: set<Button>) returns (kept: nat)
    requires WellFormedProfile(p) && Consistent(s)
    ensures var modifiers := Next(s, p, pressed).modifiers;
      && kept <= |modifiers|
      && (forall i :: 0 <= i < kept ==> modifiers[i] in s.modifiers && modifiers[i] in pressed)
      && (forall i :: kept <= i < |modifiers| ==> Fresh(s, pressed, modifiers[i]))
      && SameOrder(modifiers[..kept], s.modifiers) && Ascending(modifiers[kept..])
  {
    var old', new' := Drop(s.modifiers, Gone(s, pressed)), Keep(ButtonIds(), Activators(s, p, pressed));
    kept := |old'|;
    ModifiersAre(s, p, pressed);
    IdsAscend();
    KeepAscends(ButtonIds(), Activators(s, p, pressed));
    hide Next, Drop, Keep, Gone, Activators, Fresh, Ascending, SameOrder, Consistent;
    assert (old' + new')[..kept] == old' && (old' + new')[kept..] == new';
    forall i | 0 <= i < kept ensures (old' + new')[i] in old' {
    }
    forall i | kept <= i < |old' + new'| ensures (old' + new')[i] in new' {
    }
  }

  lemma ModifiersAre(s: Layers, p: Profile, pressed: set<Button>)
    requires WellFormedProfile(p) && Consistent(s)
    ensures var old', new' := Drop(s.modifiers, Gone(s, pressed)), Keep(ButtonIds(), Activators(s, p, pressed));
      && Next(s, p, pressed).modifiers == old' + new' && SameOrder(old', s.modifiers)
      && (forall b :: b in old' ==> b in s.modifiers && b in pressed)
      && (forall b :: b in new' ==> Fresh(s, pressed, b))
  {
    DropOrder(s.modifiers, Gone(s, pressed));
    NextFacts(s, p, pressed);
    KeepMeaning(ButtonIds(), Activators(s, p, pressed));
    hide Next, Activators, Drop, Keep, Fresh, SameOrder;
    forall b | b in s.modifiers && b !in Gone(s, pressed) ensures b in pressed {
      assert b in s.held && b in s.physical;
    }
    forall b | b in Activators(s, p, pressed) ensures Fresh(s, pressed, b) {
      FreshArrives(s, p, pressed, b);
    }
  }

  // Releases come first, then presses that engage a layer, what a change of layer takes away,
  // presses of pure modifiers and all other presses.
  ghost function Turn(pressed: set<Button>, modifiers: seq<Button>, e: ButtonEdge): nat {
    if !e.down then (if e.button in pressed then 2 else 0)
    else if e.button in modifiers then 1
    else if PureModifier(e.binding) then 3
    else 4
  }

  // The edges come in turn, and presses of the same turn in the order of the button list.
  ghost predicate InTurn(pressed: set<Button>, modifiers: seq<Button>, edges: seq<ButtonEdge>) {
    forall i, j :: 0 <= i < j < |edges| ==>
      var a, b := Turn(pressed, modifiers, edges[i]), Turn(pressed, modifiers, edges[j]);
      a < b || (a == b && (edges[i].down ==> Rank(edges[i].button) < Rank(edges[j].button)))
  }

  ghost predicate Between(pressed: set<Button>, modifiers: seq<Button>, edges: seq<ButtonEdge>, low: nat, high: nat) {
    forall i :: 0 <= i < |edges| ==> low <= Turn(pressed, modifiers, edges[i]) <= high
  }

  lemma TurnsJoin(pressed: set<Button>, modifiers: seq<Button>, a: seq<ButtonEdge>, b: seq<ButtonEdge>, high: nat)
    requires InTurn(pressed, modifiers, a) && Between(pressed, modifiers, a, 0, high)
    requires InTurn(pressed, modifiers, b) && Between(pressed, modifiers, b, high + 1, high + 1)
    ensures InTurn(pressed, modifiers, a + b) && Between(pressed, modifiers, a + b, 0, high + 1)
  {
    hide Turn, Rank;
  }

  lemma {:induction false} DownsAt(buttons: seq<Button>, page: ButtonPage)
    ensures |Downs(buttons, page)| == |buttons|
    ensures forall i :: 0 <= i < |buttons| ==>
      Downs(buttons, page)[i] == ButtonEdge(buttons[i], Reads(page, buttons[i]), true)
  {
    if buttons != [] {
      DownsAt(buttons[..|buttons| - 1], page);
      BoundReads(page, buttons[|buttons| - 1]);
    }
  }

  // A part of presses that all have the same turn.
  lemma PressTurn(pressed: set<Button>, modifiers: seq<Button>, buttons: set<Button>, page: ButtonPage, turn: nat)
    requires forall b :: b in buttons ==> Turn(pressed, modifiers, ButtonEdge(b, Reads(page, b), true)) == turn
    ensures var edges := Downs(Keep(ButtonIds(), buttons), page);
      InTurn(pressed, modifiers, edges) && Between(pressed, modifiers, edges, turn, turn)
  {
    IdsAscend();
    KeepAscends(ButtonIds(), buttons);
    DownsAt(Keep(ButtonIds(), buttons), page);
    hide Turn, Rank, Keep, Downs, Reads;
    var kept := Keep(ButtonIds(), buttons);
    assert forall i :: 0 <= i < |kept| ==> kept[i] in kept;
  }

  // A part of releases that all have the same turn.
  lemma LiftTurn(pressed: set<Button>, modifiers: seq<Button>, edges: seq<ButtonEdge>, buttons: set<Button>,
                 held: map<Button, Binding>, turn: nat)
    requires Lifts(edges, buttons, held) && (turn == 0 || turn == 2)
    requires forall b :: b in buttons ==> (b in pressed <==> turn == 2)
    ensures InTurn(pressed, modifiers, edges) && Between(pressed, modifiers, edges, turn, turn)
  {
    assert forall i :: 0 <= i < |edges| ==> edges[i].button in buttons && !edges[i].down;
  }

  lemma EdgesInTurn(s: Layers, p: Profile, pressed: set<Button>, next: Layers, edges: seq<ButtonEdge>)
    requires WellFormedProfile(p) && Consistent(s) && Sampled(s, p, pressed, next, edges)
    ensures InTurn(pressed, next.modifiers, edges)
  {
    var e, activators := Engaged(s, p, pressed), Activators(s, p, pressed);
    var page := EffectivePage(p, e.held, e.modifiers);
    var plain := Arrived(s, pressed) - activators;
    var first := PlainModifiers(plain, page);
    var gone, taken := Gone(s, pressed) * s.held.Keys, Retired(e, LayerChanges(s, p, pressed));
    var ups, retired :| Lifts(ups, gone, s.held) && Lifts(retired, taken, e.held)
      && edges == ups + Downs(Keep(ButtonIds(), activators), ActivePage(p)) + retired
                  + Downs(Keep(ButtonIds(), first), page) + Downs(Keep(ButtonIds(), plain - first), page);
    forall b
      ensures b in activators ==> b in next.modifiers
      ensures b in plain ==> b !in next.modifiers
      ensures (b in gone ==> b !in pressed) && (b in taken ==> b in pressed)
      ensures b in plain ==> (b in first <==> PureModifier(Reads(page, b)))
    {
      TurnAt(s, p, pressed, b);
      SampledNext(s, p, pressed, next, edges);
    }
    hide Sampled, Next, Released, Engaged, Activators, Retired, LayerChanges, EffectivePage, ActivePage, Known, Arrived,
         Consistent, Gone, Downs, Keep, Lifts, PlainModifiers, InTurn, Between, Reads, PureModifier;
    FiveTurns(pressed, next.modifiers, ups, gone, s.held, activators, ActivePage(p), retired, taken, e.held, first,
              plain - first, page);
  }

  lemma TurnAt(s: Layers, p: Profile, pressed: set<Button>, b: Button)
    requires WellFormedProfile(p) && Consistent(s)
    ensures var e, activators, m := Engaged(s, p, pressed), Activators(s, p, pressed), Next(s, p, pressed).modifiers;
      var page := EffectivePage(p, e.held, e.modifiers);
      var plain := Arrived(s, pressed) - activators;
      && (b in activators ==> b in m) && (b in plain ==> b !in m)
      && (b in Gone(s, pressed) * s.held.Keys ==> b !in pressed)
      && (b in Retired(e, LayerChanges(s, p, pressed)) ==> b in pressed)
      && (b in plain ==> (b in PlainModifiers(plain, page) <==> PureModifier(Reads(page, b))))
  {
    OriginAt(s, p, pressed, b);
    MarksAt(s, p, pressed, b);
    GoneAt(s, pressed, b);
    BoundReads(EffectivePage(p, Engaged(s, p, pressed).held, Engaged(s, p, pressed).modifiers), b);
    assert b in s.modifiers ==> b in s.held;
    hide Next, Engaged, Activators, Retired, LayerChanges, EffectivePage, Known, Arrived, Consistent, Gone, Reads,
         Bound;
  }

  lemma FiveTurns(pressed: set<Button>, m: seq<Button>, ups: seq<ButtonEdge>, gone: set<Button>,
                  held: map<Button, Binding>, activators: set<Button>, active: ButtonPage, retired: seq<ButtonEdge>,
                  taken: set<Button>, engaged: map<Button, Binding>, first: set<Button>, rest: set<Button>,
                  page: ButtonPage)
    requires Lifts(ups, gone, held) && Lifts(retired, taken, engaged)
    requires forall b :: b in activators ==> b in m
    requires forall b :: b in first ==> b !in m && PureModifier(Reads(page, b))
    requires forall b :: b in rest ==> b !in m && !PureModifier(Reads(page, b))
    requires forall b :: (b in gone ==> b !in pressed) && (b in taken ==> b in pressed)
    ensures InTurn(pressed, m, ups + Downs(Keep(ButtonIds(), activators), active) + retired
                               + Downs(Keep(ButtonIds(), first), page) + Downs(Keep(ButtonIds(), rest), page))
  {
    hide Downs, Keep, Lifts, InTurn, Between, Reads, PureModifier, Rank;
    LiftTurn(pressed, m, ups, gone, held, 0);
    PressTurn(pressed, m, activators, active, 1);
    LiftTurn(pressed, m, retired, taken, engaged, 2);
    PressTurn(pressed, m, first, page, 3);
    PressTurn(pressed, m, rest, page, 4);
    hide Turn;
    var a, b := ups, Downs(Keep(ButtonIds(), activators), active);
    TurnsJoin(pressed, m, a, b, 0);
    TurnsJoin(pressed, m, a + b, retired, 1);
    TurnsJoin(pressed, m, a + b + retired, Downs(Keep(ButtonIds(), first), page), 2);
    TurnsJoin(pressed, m, a + b + retired + Downs(Keep(ButtonIds(), first), page), Downs(Keep(ButtonIds(), rest),
    page), 3);
  }

  // ----------------------------------------------------------------- the sample

  // What a sample answers, button by button.
  lemma SampleMeaning(s: Layers, p: Profile, pressed: set<Button>, next: Layers, edges: seq<ButtonEdge>,
                      active: ButtonPage, before: ButtonPage, page: ButtonPage)
    requires WellFormedProfile(p) && Consistent(s) && Sampled(s, p, pressed, next, edges)
    requires FirstWith(p.pages, p.activePage, active)
    requires InForce(p, s.held, s.modifiers, before) && InForce(p, next.held, next.modifiers, page)
    ensures next.physical == pressed
    ensures forall b :: Meant(s, active, before, page, pressed, next, b)
  {
    SampledNext(s, p, pressed, next, edges);
    ActiveMeaning(p, active);
    PageAfter(s, p, pressed);
    InForceMeaning(p, s.held, s.modifiers, before);
    InForceMeaning(p, next.held, next.modifiers, page);
    hide Sampled, Consistent, Meant, Next, Engaged, EffectivePage, ActivePage, InForce, FirstWith;
    forall b ensures Meant(s, active, before, page, pressed, next, b) {
      NextMeaning(s, p, pressed, b);
    }
  }

  // All that a sample answers.
  ghost predicate Answers(s: Layers, p: Profile, pressed: set<Button>, next: Layers, edges: seq<ButtonEdge>) {
    && next.physical == pressed
    && (forall active, before, page, b ::
          (&& FirstWith(p.pages, p.activePage, active) && InForce(p, s.held, s.modifiers, before)
           && InForce(p, next.held, next.modifiers, page)) ==> Meant(s, active, before, page, pressed, next, b))
    && OneEach(edges) && InTurn(pressed, next.modifiers, edges)
    && (forall e :: e in edges <==>
          || (e.down && Fresh(s, pressed, e.button) && e.button in next.held && e.binding == next.held[e.button])
          || (!e.down && e.button in s.held && e.button !in next.held && e.binding == s.held[e.button]))
  }

  lemma SampleAnswers(s: Layers, p: Profile, pressed: set<Button>, next: Layers, edges: seq<ButtonEdge>)
    requires WellFormedProfile(p) && Consistent(s) && Sampled(s, p, pressed, next, edges)
    ensures Answers(s, p, pressed, next, edges)
  {
    hide Sampled, Consistent, Meant, FirstWith, InForce, OneEach, InTurn, Fresh;
    SampledNext(s, p, pressed, next, edges);
    EdgesMeaning(s, p, pressed, next, edges);
    EdgesInTurn(s, p, pressed, next, edges);
    forall active, before, page, b | FirstWith(p.pages, p.activePage, active) && InForce(p, s.held, s.modifiers, before)
                                     && InForce(p, next.held, next.modifiers, page)
      ensures Meant(s, active, before, page, pressed, next, b)
    {
      SampleMeaning(s, p, pressed, next, edges, active, before, page);
    }
  }
}
