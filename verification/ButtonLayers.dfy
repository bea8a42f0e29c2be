// Resolving sampled controller buttons into edges under layered pages:
// src/controllers/button_layers.cpp.

module ButtonLayers {
  import opened Basics

  // The names of src/controllers/controller_policy.cpp:10-16; a sample may name others.
  datatype Button =
    | South | East | West | North | Back | Guide | Start
    | LeftStick | RightStick | LeftShoulder | RightShoulder
    | DpUp | DpDown | DpLeft | DpRight | Misc1 | RightPaddle1
    | LeftPaddle1 | RightPaddle2 | LeftPaddle2 | Touchpad
    | Misc2 | Misc3 | Misc4 | Misc5 | Misc6 | LeftTrigger | RightTrigger | TouchpadTouch
    | Unlisted(name: string)

  function ButtonIds(): seq<Button> {
    [South, East, West, North, Back, Guide, Start,
     LeftStick, RightStick, LeftShoulder, RightShoulder,
     DpUp, DpDown, DpLeft, DpRight, Misc1, RightPaddle1,
     LeftPaddle1, RightPaddle2, LeftPaddle2, Touchpad,
     Misc2, Misc3, Misc4, Misc5, Misc6, LeftTrigger, RightTrigger, TouchpadTouch]
  }

  datatype Binding = Binding(action: string, shortcut: string, modifiers: seq<string>, keys: seq<string>,
                             mouseButtons: seq<string>, text: string, page: string, holdPage: string, macro: string)

  const NO_BINDING := Binding("none", "", [], [], [], "", "", "", "")

  datatype ButtonPage = ButtonPage(id: string, bindings: map<Button, Binding>)
  datatype Profile = Profile(activePage: string, pages: seq<ButtonPage>)
  datatype ButtonEdge = ButtonEdge(button: Button, binding: Binding, down: bool)

  // QMap::value: a missing key reads as the default.
  function Bound(bindings: map<Button, Binding>, button: Button): Binding {
    if button in bindings then bindings[button] else NO_BINDING
  }

  predicate ModifierOnly(b: Binding) {
    b.action == "combination" && b.modifiers != [] && b.keys == [] && b.mouseButtons == []
  }

  function LayerOf(b: Binding): string {
    if b.action == "hold-page" then b.page else b.holdPage
  }

  function FindPage(pages: seq<ButtonPage>, id: string): Option<ButtonPage> {
    if pages == [] then None
    else if pages[0].id == id then Some(pages[0])
    else FindPage(pages[1..], id)
  }

  predicate WellFormedProfile(p: Profile) {
    FindPage(p.pages, p.activePage).Some?
  }

  function ActivePage(p: Profile): ButtonPage
    requires WellFormedProfile(p)
  {
    FindPage(p.pages, p.activePage).value
  }

  function EffectivePage(p: Profile, held: map<Button, Binding>, modifiers: seq<Button>): ButtonPage
    requires WellFormedProfile(p)
  {
    if modifiers == [] then ActivePage(p)
    else
      match FindPage(p.pages, LayerOf(Bound(held, modifiers[|modifiers| - 1])))
      case Some(page) => page
      case None => ActivePage(p)
  }

  // ------------------------------------------------------------- specification

  datatype Layers = Layers(held: map<Button, Binding>, physical: set<Button>,
                           modifiers: seq<Button>, quarantined: set<Button>)

  const IDLE := Layers(map[], {}, [], {})

  ghost predicate Distinct<T(!new)>(s: seq<T>) {
    forall i, j :: 0 <= i < j < |s| ==> s[i] != s[j]
  }

  ghost function Members(buttons: seq<Button>): set<Button> {
    set b | b in buttons
  }

  ghost function Known(): set<Button> {
    Members(ButtonIds())
  }

  // Held and quarantined buttons share out the listed buttons that are pressed.
  ghost predicate Consistent(s: Layers) {
    && s.held.Keys !! s.quarantined
    && s.held.Keys + s.quarantined == s.physical * Known()
    && Distinct(s.modifiers)
    && forall b :: b in s.modifiers ==> b in s.held
  }

  function Keep(buttons: seq<Button>, kept: set<Button>): seq<Button> {
    if buttons == [] then []
    else
      var last := buttons[|buttons| - 1];
      Keep(buttons[..|buttons| - 1], kept) + if last in kept then [last] else []
  }

  function Drop(buttons: seq<Button>, dropped: set<Button>): seq<Button> {
    if buttons == [] then []
    else
      var last := buttons[|buttons| - 1];
      Drop(buttons[..|buttons| - 1], dropped) + if last in dropped then [] else [last]
  }

  ghost function Pressed(physical: map<Button, bool>): set<Button> {
    set b | b in physical && physical[b]
  }

  ghost function Gone(s: Layers, pressed: set<Button>): set<Button> {
    s.physical - pressed
  }

  ghost function Arrived(s: Layers, pressed: set<Button>): set<Button> {
    (pressed - s.physical) * Known()
  }

  ghost function BoundAll(buttons: set<Button>, page: ButtonPage): map<Button, Binding> {
    map b | b in buttons :: Bound(page.bindings, b)
  }

  // The newly pressed buttons whose binding on the active page engages a layer.
  ghost function Activators(s: Layers, p: Profile, pressed: set<Button>): set<Button>
    requires WellFormedProfile(p)
  {
    set b | b in Arrived(s, pressed) && LayerOf(Bound(ActivePage(p).bindings, b)) != ""
  }

  ghost function Without(s: Layers, buttons: set<Button>): Layers {
    Layers(s.held - buttons, s.physical, Drop(s.modifiers, buttons), s.quarantined - buttons)
  }

  // After the releases.
  ghost function Released(s: Layers, pressed: set<Button>): Layers {
    Without(s, Gone(s, pressed))
  }

  // After the layer activators.
  ghost function Engaged(s: Layers, p: Profile, pressed: set<Button>): Layers
    requires WellFormedProfile(p)
  {
    var r, activators := Released(s, pressed), Activators(s, p, pressed);
    Layers(r.held + BoundAll(activators, ActivePage(p)), s.physical,
           r.modifiers + Keep(ButtonIds(), activators), r.quarantined)
  }

  ghost predicate Survives(e: Layers, b: Button)
    requires b in e.held
  {
    b in e.modifiers || e.held[b].action == "hold-gyro" || ModifierOnly(e.held[b])
  }

  // What a change of layer takes out of the holder's hand.
  ghost function Retired(e: Layers, changed: bool): set<Button> {
    set b | b in e.held && changed && !Survives(e, b)
  }

  ghost predicate LayerChanges(s: Layers, p: Profile, pressed: set<Button>)
    requires WellFormedProfile(p)
  {
    var e := Engaged(s, p, pressed);
    EffectivePage(p, s.held, s.modifiers).id != EffectivePage(p, e.held, e.modifiers).id
  }

  ghost function Next(s: Layers, p: Profile, pressed: set<Button>): Layers
    requires WellFormedProfile(p)
  {
    var e := Engaged(s, p, pressed);
    var page := EffectivePage(p, e.held, e.modifiers);
    var retired := Retired(e, LayerChanges(s, p, pressed));
    var plain := Arrived(s, pressed) - Activators(s, p, pressed);
    Layers(e.held - retired + BoundAll(plain, page), pressed, e.modifiers, e.quarantined + retired)
  }

  // Up edges for exactly these buttons, each with the binding it was held under, in any order.
  ghost predicate Lifts(edges: seq<ButtonEdge>, buttons: set<Button>, held: map<Button, Binding>) {
    && (forall b :: b in buttons <==> exists i :: 0 <= i < |edges| && edges[i].button == b)
    && (forall i, j :: 0 <= i < j < |edges| ==> edges[i].button != edges[j].button)
    && (forall i :: 0 <= i < |edges| ==>
          edges[i].button in held && edges[i].binding == held[edges[i].button] && !edges[i].down)
  }

  function Downs(buttons: seq<Button>, page: ButtonPage): seq<ButtonEdge> {
    if buttons == [] then []
    else
      var last := buttons[|buttons| - 1];
      Downs(buttons[..|buttons| - 1], page) + [ButtonEdge(last, Bound(page.bindings, last), true)]
  }

  ghost function PlainModifiers(plain: set<Button>, page: ButtonPage): set<Button> {
    set b | b in plain && ModifierOnly(Bound(page.bindings, b))
  }

  // One sample: releases, layer activators, buttons retired by a change of layer, plain
  // modifiers and then everything else.
  ghost predicate Sampled(s: Layers, p: Profile, pressed: set<Button>, next: Layers, edges: seq<ButtonEdge>)
    requires WellFormedProfile(p)
  {
    var e, activators := Engaged(s, p, pressed), Activators(s, p, pressed);
    var page := EffectivePage(p, e.held, e.modifiers);
    var plain := Arrived(s, pressed) - activators;
    var first := PlainModifiers(plain, page);
    && next == Next(s, p, pressed)
    && exists ups, retired ::
         && Lifts(ups, Gone(s, pressed) * s.held.Keys, s.held)
         && Lifts(retired, Retired(e, LayerChanges(s, p, pressed)), e.held)
         && edges == ups + Downs(Keep(ButtonIds(), activators), ActivePage(p)) + retired
                     + Downs(Keep(ButtonIds(), first), page) + Downs(Keep(ButtonIds(), plain - first), page)
  }

  // What an observer of the edges believes to be held, and under which binding. A down must
  // hit a button that is up; an up must carry the binding of the down it ends.
  function Replay(edges: seq<ButtonEdge>, held: map<Button, Binding>): Option<map<Button, Binding>> {
    if edges == [] then Some(held)
    else
      var edge := edges[|edges| - 1];
      var before :- Replay(edges[..|edges| - 1], held);
      if edge.down then
        :- Need(edge.button !in before);
        Some(before[edge.button := edge.binding])
      else
        :- Need(edge.button in before && before[edge.button] == edge.binding);
        Some(before - {edge.button})
  }

  // ------------------------------------------------------ sequences and edges

  function Rank(b: Button): int {
    match b
    case South => 0 case East => 1 case West => 2 case North => 3 case Back => 4 case Guide => 5
    case Start => 6 case LeftStick => 7 case RightStick => 8 case LeftShoulder => 9
    case RightShoulder => 10 case DpUp => 11 case DpDown => 12 case DpLeft => 13 case DpRight => 14
    case Misc1 => 15 case RightPaddle1 => 16 case LeftPaddle1 => 17 case RightPaddle2 => 18
    case LeftPaddle2 => 19 case Touchpad => 20 case Misc2 => 21 case Misc3 => 22 case Misc4 => 23
    case Misc5 => 24 case Misc6 => 25 case LeftTrigger => 26 case RightTrigger => 27
    case TouchpadTouch => 28 case Unlisted(_) => -1
  }

  lemma IdsDistinct()
    ensures Distinct(ButtonIds())
  {
    assert forall i :: 0 <= i < |ButtonIds()| ==> Rank(ButtonIds()[i]) == i;
  }

  lemma {:induction false} KeepMeaning(buttons: seq<Button>, kept: set<Button>)
    ensures forall b :: b in Keep(buttons, kept) <==> b in buttons && b in kept
    ensures Distinct(buttons) ==> Distinct(Keep(buttons, kept))
  {
    if buttons != [] {
      var init, last := buttons[..|buttons| - 1], buttons[|buttons| - 1];
      assert buttons == init + [last];
      KeepMeaning(init, kept);
    }
  }

  lemma {:induction false} DropMeaning(buttons: seq<Button>, dropped: set<Button>)
    ensures forall b :: b in Drop(buttons, dropped) <==> b in buttons && b !in dropped
    ensures Distinct(buttons) ==> Distinct(Drop(buttons, dropped))
  {
    if buttons != [] {
      var init, last := buttons[..|buttons| - 1], buttons[|buttons| - 1];
      assert buttons == init + [last];
      DropMeaning(init, dropped);
    }
  }

  lemma {:induction false} DropTwice(buttons: seq<Button>, a: set<Button>, b: set<Button>)
    ensures Drop(Drop(buttons, a), b) == Drop(buttons, a + b)
  {
    if buttons != [] {
      var init, last := buttons[..|buttons| - 1], buttons[|buttons| - 1];
      DropTwice(init, a, b);
      if last !in a {
        DropLast(Drop(init, a), last, b);
      } else {
        assert Drop(buttons, a) == Drop(init, a);
        assert Drop(buttons, a + b) == Drop(init, a + b);
      }
    }
  }

  lemma DropLast(init: seq<Button>, last: Button, dropped: set<Button>)
    ensures Drop(init + [last], dropped) == Drop(init, dropped) + if last in dropped then [] else [last]
  {
    assert (init + [last])[..|init|] == init;
  }

  lemma {:induction false} DropNothing(buttons: seq<Button>)
    ensures Drop(buttons, {}) == buttons
  {
    if buttons != [] {
      DropNothing(buttons[..|buttons| - 1]);
      assert buttons == buttons[..|buttons| - 1] + [buttons[|buttons| - 1]];
    }
  }

  lemma KeepLast(init: seq<Button>, last: Button, kept: set<Button>)
    ensures Keep(init + [last], kept) == Keep(init, kept) + if last in kept then [last] else []
  {
    assert (init + [last])[..|init|] == init;
  }

  lemma DownsLast(init: seq<Button>, last: Button, page: ButtonPage)
    ensures Downs(init + [last], page) == Downs(init, page) + [ButtonEdge(last, Bound(page.bindings, last), true)]
  {
    assert (init + [last])[..|init|] == init;
  }

  lemma {:induction false} ReplayJoins(a: seq<ButtonEdge>, b: seq<ButtonEdge>, held: map<Button, Binding>)
    requires Replay(a, held).Some?
    ensures Replay(a + b, held) == Replay(b, Replay(a, held).value)
  {
    if b == [] {
      assert a + b == a;
    } else {
      assert (a + b)[..|a + b| - 1] == a + b[..|b| - 1];
      ReplayJoins(a, b[..|b| - 1], held);
    }
  }

  lemma {:induction false} LiftsReplay(edges: seq<ButtonEdge>, buttons: set<Button>, held: map<Button, Binding>)
    requires Lifts(edges, buttons, held)
    ensures Replay(edges, held) == Some(held - buttons)
    decreases |edges|
  {
    if edges == [] {
      assert held - buttons == held;
    } else {
      var init, edge := edges[..|edges| - 1], edges[|edges| - 1];
      LiftsInit(edges, buttons, held);
      LiftsReplay(init, buttons - {edge.button}, held);
      assert held - buttons == held - (buttons - {edge.button}) - {edge.button};
    }
  }

  lemma LiftsInit(edges: seq<ButtonEdge>, buttons: set<Button>, held: map<Button, Binding>)
    requires Lifts(edges, buttons, held) && edges != []
    ensures Lifts(edges[..|edges| - 1], buttons - {edges[|edges| - 1].button}, held)
    ensures edges[|edges| - 1].button in buttons
  {
    var init, edge := edges[..|edges| - 1], edges[|edges| - 1];
    forall b
      ensures b in buttons - {edge.button} <==> exists i :: 0 <= i < |init| && init[i].button == b
    {
      if b in buttons - {edge.button} {
        var i :| 0 <= i < |edges| && edges[i].button == b;
        assert init[i].button == b;
      }
      if i :| 0 <= i < |init| && init[i].button == b {
        assert edges[i].button == b;
      }
    }
  }

  lemma LiftsOneMore(edges: seq<ButtonEdge>, buttons: set<Button>, held: map<Button, Binding>, b: Button)
    requires Lifts(edges, buttons, held) && b !in buttons && b in held
    ensures Lifts(edges + [ButtonEdge(b, held[b], false)], buttons + {b}, held)
  {
    var more := edges + [ButtonEdge(b, held[b], false)];
    forall c
      ensures c in buttons + {b} <==> exists i :: 0 <= i < |more| && more[i].button == c
    {
      if c in buttons {
        var i :| 0 <= i < |edges| && edges[i].button == c;
        assert more[i].button == c;
      }
      if c == b {
        assert more[|edges|].button == c;
      }
      if i :| 0 <= i < |more| && more[i].button == c {
        assert i < |edges| ==> edges[i].button == c;
      }
    }
  }

  lemma ReplayDown(edges: seq<ButtonEdge>, edge: ButtonEdge, held: map<Button, Binding>)
    requires edge.down && Replay(edges, held).Some? && edge.button !in Replay(edges, held).value
    ensures Replay(edges + [edge], held) == Some(Replay(edges, held).value[edge.button := edge.binding])
  {
    assert (edges + [edge])[..|edges|] == edges;
  }

  lemma BoundAllLast(held: map<Button, Binding>, init: seq<Button>, last: Button, page: ButtonPage)
    ensures held + BoundAll(Members(init + [last]), page) ==
            (held + BoundAll(Members(init), page))[last := Bound(page.bindings, last)]
    ensures last !in held && last !in init ==> last !in held + BoundAll(Members(init), page)
  {
    hide Bound;
  }

  lemma {:induction false} DownsReplay(buttons: seq<Button>, page: ButtonPage, held: map<Button, Binding>)
    requires Distinct(buttons) && forall b :: b in buttons ==> b !in held
    ensures Replay(Downs(buttons, page), held) == Some(held + BoundAll(Members(buttons), page))
  {
    if buttons == [] {
      assert held + BoundAll(Members(buttons), page) == held;
    } else {
      var init, last := buttons[..|buttons| - 1], buttons[|buttons| - 1];
      assert buttons == init + [last] && last !in init;
      DownsReplay(init, page, held);
      hide Replay, Downs, BoundAll, Members, Bound;
      DownsLast(init, last, page);
      BoundAllLast(held, init, last, page);
      ReplayDown(Downs(init, page), ButtonEdge(last, Bound(page.bindings, last), true), held);
    }
  }

  // The edges announcing the listed members of a set of buttons.
  lemma AnnouncedReplay(buttons: set<Button>, page: ButtonPage, held: map<Button, Binding>)
    requires buttons <= Known() && buttons !! held.Keys
    ensures Replay(Downs(Keep(ButtonIds(), buttons), page), held) == Some(held + BoundAll(buttons, page))
  {
    IdsDistinct();
    KeepMeaning(ButtonIds(), buttons);
    assert Members(Keep(ButtonIds(), buttons)) == buttons;
    DownsReplay(Keep(ButtonIds(), buttons), page, held);
  }

  // ------------------------------------------------------------------- theorems

  lemma DistinctJoins(a: seq<Button>, b: seq<Button>)
    requires Distinct(a) && Distinct(b) && forall x :: x in a ==> x !in b
    ensures Distinct(a + b)
  {
    forall i, j | 0 <= i < j < |a + b|
      ensures (a + b)[i] != (a + b)[j]
    {
      assert i < |a| <= j ==> a[i] !in b && (a + b)[j] in b;
    }
  }

  // The state after the activators: every modifier is held, and every listed button that was
  // down before and stays down is held or quarantined.
  lemma EngagedFacts(s: Layers, p: Profile, pressed: set<Button>)
    requires WellFormedProfile(p) && Consistent(s)
    ensures var e, activators := Engaged(s, p, pressed), Activators(s, p, pressed);
      && e.held.Keys == s.held.Keys * pressed + activators
      && e.quarantined == s.quarantined * pressed
      && (forall b :: b in e.modifiers <==> (b in s.modifiers && b in pressed) || b in activators)
      && Distinct(e.modifiers)
  {
    var gone, activators := Gone(s, pressed), Activators(s, p, pressed);
    IdsDistinct();
    KeepMeaning(ButtonIds(), activators);
    DropMeaning(s.modifiers, gone);
    hide EffectivePage, FindPage, ActivePage, Bound, LayerOf, Keep, Drop;
    DistinctJoins(Drop(s.modifiers, gone), Keep(ButtonIds(), activators));
  }

  lemma ActivatorsArrive(s: Layers, p: Profile, pressed: set<Button>)
    requires WellFormedProfile(p)
    ensures Activators(s, p, pressed) <= Arrived(s, pressed) <= Known() * pressed
    ensures Arrived(s, pressed) !! s.physical
  {
  }

  // What one sample does to consistency.
  lemma ConsistentNext(s: Layers, p: Profile, pressed: set<Button>)
    requires WellFormedProfile(p) && Consistent(s)
    ensures Consistent(Next(s, p, pressed))
  {
    EngagedFacts(s, p, pressed);
    ActivatorsArrive(s, p, pressed);
    NextFacts(s, p, pressed);
    var e, changed := Engaged(s, p, pressed), LayerChanges(s, p, pressed);
    var arrived, activators, retired := Arrived(s, pressed), Activators(s, p, pressed), Retired(e, changed);
    RetiredFacts(e, changed);
    hide Engaged, Activators, Retired, LayerChanges, Next, EffectivePage, Known, Arrived, Distinct;
    assert retired <= s.held.Keys * pressed;
    ShareOut(s.held.Keys, s.quarantined, pressed, arrived, activators, retired);
    PressedKnown(s, pressed);
  }

  lemma RetiredFacts(e: Layers, changed: bool)
    ensures Retired(e, changed) <= e.held.Keys
    ensures forall b :: b in e.modifiers ==> b !in Retired(e, changed)
  {
  }

  lemma PressedKnown(s: Layers, pressed: set<Button>)
    ensures pressed * Known() == s.physical * Known() * pressed + Arrived(s, pressed)
  {
    hide Known;
  }

  lemma ShareOut(held: set<Button>, quarantined: set<Button>, pressed: set<Button>, arrived: set<Button>,
                 activators: set<Button>, retired: set<Button>)
    requires held !! quarantined && arrived !! held + quarantined
    requires activators <= arrived && retired <= held * pressed
    ensures var held', quarantined' :=
        held * pressed + activators - retired + (arrived - activators), quarantined * pressed + retired;
      held' !! quarantined' && held' + quarantined' == (held + quarantined) * pressed + arrived
  {
  }

  lemma NextFacts(s: Layers, p: Profile, pressed: set<Button>)
    requires WellFormedProfile(p)
    ensures var n, e := Next(s, p, pressed), Engaged(s, p, pressed);
      var retired := Retired(e, LayerChanges(s, p, pressed));
      && n.held.Keys == e.held.Keys - retired + (Arrived(s, pressed) - Activators(s, p, pressed))
      && n.physical == pressed && n.modifiers == e.modifiers && n.quarantined == e.quarantined + retired
  {
    hide Engaged, Activators, Retired, LayerChanges, EffectivePage, Known, Arrived;
  }

  // The five parts of a sample, replayed one after the other.
  lemma PartsReplay(h: map<Button, Binding>, gone: set<Button>, ups: seq<ButtonEdge>,
                    activators: set<Button>, active: ButtonPage, taken: set<Button>, retired: seq<ButtonEdge>,
                    first: set<Button>, rest: set<Button>, page: ButtonPage)
    requires Lifts(ups, gone, h) && Lifts(retired, taken, h - gone + BoundAll(activators, active))
    requires activators + first + rest <= Known() && h.Keys !! activators + first + rest
    requires activators !! first + rest && first !! rest
    ensures Replay(ups + Downs(Keep(ButtonIds(), activators), active) + retired
                   + Downs(Keep(ButtonIds(), first), page) + Downs(Keep(ButtonIds(), rest), page), h) ==
            Some(h - gone + BoundAll(activators, active) - taken + BoundAll(first + rest, page))
  {
    hide Downs, Keep, Lifts, Replay, Known, BoundAll;
    var h1 := h - gone;
    var h2 := h1 + BoundAll(activators, active);
    var h3 := h2 - taken;
    BoundKeys(h1, activators, active);
    BoundKeys(h3, first, page);
    LiftsReplay(ups, gone, h);
    AnnouncedReplay(activators, active, h1);
    LiftsReplay(retired, taken, h2);
    AnnouncedReplay(first, page, h3);
    AnnouncedReplay(rest, page, h3 + BoundAll(first, page));
    FiveParts(ups, Downs(Keep(ButtonIds(), activators), active), retired,
              Downs(Keep(ButtonIds(), first), page), Downs(Keep(ButtonIds(), rest), page),
              h, h1, h2, h3, h3 + BoundAll(first, page));
    BoundTwice(h3, first, rest, page);
  }

  lemma BoundTwice(h: map<Button, Binding>, first: set<Button>, rest: set<Button>, page: ButtonPage)
    ensures h + BoundAll(first, page) + BoundAll(rest, page) == h + BoundAll(first + rest, page)
  {
    hide Bound;
  }

  lemma BoundKeys(h: map<Button, Binding>, buttons: set<Button>, page: ButtonPage)
    ensures (h + BoundAll(buttons, page)).Keys == h.Keys + buttons
  {
    hide Bound;
  }

  // One sample keeps an observer who has seen every edge so far exactly up to date.
  lemma SampleReplays(s: Layers, p: Profile, pressed: set<Button>, next: Layers, edges: seq<ButtonEdge>)
    requires WellFormedProfile(p) && Consistent(s) && Sampled(s, p, pressed, next, edges)
    ensures Replay(edges, s.held) == Some(next.held)
  {
    var e, activators := Engaged(s, p, pressed), Activators(s, p, pressed);
    var page := EffectivePage(p, e.held, e.modifiers);
    var plain := Arrived(s, pressed) - activators;
    var first := PlainModifiers(plain, page);
    var gone, taken := Gone(s, pressed) * s.held.Keys, Retired(e, LayerChanges(s, p, pressed));
    var ups, retired :| Lifts(ups, gone, s.held) && Lifts(retired, taken, e.held)
      && edges == ups + Downs(Keep(ButtonIds(), activators), ActivePage(p)) + retired
                  + Downs(Keep(ButtonIds(), first), page) + Downs(Keep(ButtonIds(), plain - first), page);
    SampleSets(s, p, pressed);
    HeldAfter(s, p, pressed);
    assert first + (plain - first) == plain;
    hide Sampled, Next, Released, Engaged, Activators, Retired, LayerChanges, EffectivePage, ActivePage,
         Known, Arrived, Consistent, Gone, Downs, Keep, Lifts, Replay, PlainModifiers, BoundAll;
    PartsReplay(s.held, gone, ups, activators, ActivePage(p), taken, retired, first, plain - first, page);
  }

  lemma HeldAfter(s: Layers, p: Profile, pressed: set<Button>)
    requires WellFormedProfile(p)
    ensures var e, activators := Engaged(s, p, pressed), Activators(s, p, pressed);
      var page := EffectivePage(p, e.held, e.modifiers);
      var taken, plain := Retired(e, LayerChanges(s, p, pressed)), Arrived(s, pressed) - activators;
      && e.held == s.held - Gone(s, pressed) * s.held.Keys + BoundAll(activators, ActivePage(p))
      && Next(s, p, pressed).held == e.held - taken + BoundAll(plain, page)
  {
    hide Activators, Retired, LayerChanges, EffectivePage, ActivePage, Arrived, BoundAll, Gone;
    assert s.held - Gone(s, pressed) == s.held - Gone(s, pressed) * s.held.Keys;
  }

  lemma FiveParts(a: seq<ButtonEdge>, b: seq<ButtonEdge>, c: seq<ButtonEdge>, d: seq<ButtonEdge>, e: seq<ButtonEdge>,
                  h0: map<Button, Binding>, h1: map<Button, Binding>, h2: map<Button, Binding>,
                  h3: map<Button, Binding>, h4: map<Button, Binding>)
    requires Replay(a, h0) == Some(h1) && Replay(b, h1) == Some(h2) && Replay(c, h2) == Some(h3)
    requires Replay(d, h3) == Some(h4)
    ensures Replay(a + b + c + d + e, h0) == Replay(e, h4)
  {
    hide Replay;
    ReplayJoins(a, b, h0);
    ReplayJoins(a + b, c, h0);
    ReplayJoins(a + b + c, d, h0);
    ReplayJoins(a + b + c + d, e, h0);
  }

  // Where the buttons of each part of a sample come from.
  lemma SampleSets(s: Layers, p: Profile, pressed: set<Button>)
    requires WellFormedProfile(p) && Consistent(s)
    ensures var e, activators := Engaged(s, p, pressed), Activators(s, p, pressed);
      var page := EffectivePage(p, e.held, e.modifiers);
      var plain := Arrived(s, pressed) - activators;
      && activators <= Arrived(s, pressed) <= Known() && Arrived(s, pressed) !! s.physical
      && s.held.Keys <= s.physical
      && PlainModifiers(plain, page) <= plain
      && Retired(e, LayerChanges(s, p, pressed)) <= s.held.Keys * pressed
  {
    EngagedFacts(s, p, pressed);
    ActivatorsArrive(s, p, pressed);
    RetiredFacts(Engaged(s, p, pressed), LayerChanges(s, p, pressed));
    hide Engaged, Activators, Retired, LayerChanges, EffectivePage, Arrived;
  }

  ghost function ButtonsOf(edges: seq<ButtonEdge>): set<Button> {
    set i | 0 <= i < |edges| :: edges[i].button
  }

  ghost predicate OneEach(edges: seq<ButtonEdge>) {
    forall i, j :: 0 <= i < j < |edges| ==> edges[i].button != edges[j].button
  }

  lemma OneEachJoins(a: seq<ButtonEdge>, b: seq<ButtonEdge>)
    requires OneEach(a) && OneEach(b) && ButtonsOf(a) !! ButtonsOf(b)
    ensures OneEach(a + b) && ButtonsOf(a + b) == ButtonsOf(a) + ButtonsOf(b)
  {
    forall i | 0 <= i < |a|
      ensures a[i].button in ButtonsOf(a) && (a + b)[i] == a[i]
    {
    }
    forall i | 0 <= i < |b|
      ensures b[i].button in ButtonsOf(b) && (a + b)[|a| + i] == b[i]
    {
    }
    assert forall x :: x in ButtonsOf(a) + ButtonsOf(b) ==> x in ButtonsOf(a + b);
  }

  lemma {:induction false} AnnouncedOnce(buttons: seq<Button>, page: ButtonPage)
    requires Distinct(buttons)
    ensures OneEach(Downs(buttons, page)) && ButtonsOf(Downs(buttons, page)) == Members(buttons)
    ensures forall i :: 0 <= i < |Downs(buttons, page)| ==> Downs(buttons, page)[i].down
  {
    if buttons != [] {
      var init, last := buttons[..|buttons| - 1], buttons[|buttons| - 1];
      assert buttons == init + [last] && last !in init;
      AnnouncedOnce(init, page);
      var edge := ButtonEdge(last, Bound(page.bindings, last), true);
      assert ButtonsOf([edge]) == {last} by {
        assert [edge][0].button == last;
      }
      OneEachJoins(Downs(init, page), [edge]);
    }
  }

  lemma AnnouncedSet(buttons: set<Button>, page: ButtonPage)
    requires buttons <= Known()
    ensures OneEach(Downs(Keep(ButtonIds(), buttons), page))
    ensures ButtonsOf(Downs(Keep(ButtonIds(), buttons), page)) == buttons
  {
    IdsDistinct();
    KeepMeaning(ButtonIds(), buttons);
    assert Members(Keep(ButtonIds(), buttons)) == buttons;
    AnnouncedOnce(Keep(ButtonIds(), buttons), page);
  }

  lemma LiftedSet(edges: seq<ButtonEdge>, buttons: set<Button>, held: map<Button, Binding>)
    requires Lifts(edges, buttons, held)
    ensures OneEach(edges) && ButtonsOf(edges) == buttons
  {
    assert forall b :: b in ButtonsOf(edges) <==> exists i :: 0 <= i < |edges| && edges[i].button == b;
  }

  // No button gets two edges in one sample. Edges concern exactly the buttons released while
  // held, those pressed, and those a change of layer takes away.
  lemma AtMostOneEdge(s: Layers, p: Profile, pressed: set<Button>, next: Layers, edges: seq<ButtonEdge>)
    requires WellFormedProfile(p) && Consistent(s) && Sampled(s, p, pressed, next, edges)
    ensures OneEach(edges)
    ensures ButtonsOf(edges) == Gone(s, pressed) * s.held.Keys + Arrived(s, pressed) +
                                Retired(Engaged(s, p, pressed), LayerChanges(s, p, pressed))
  {
    var e, activators := Engaged(s, p, pressed), Activators(s, p, pressed);
    var page := EffectivePage(p, e.held, e.modifiers);
    var plain := Arrived(s, pressed) - activators;
    var first := PlainModifiers(plain, page);
    var gone, taken := Gone(s, pressed) * s.held.Keys, Retired(e, LayerChanges(s, p, pressed));
    var ups, retired :| Lifts(ups, gone, s.held) && Lifts(retired, taken, e.held)
      && edges == ups + Downs(Keep(ButtonIds(), activators), ActivePage(p)) + retired
                  + Downs(Keep(ButtonIds(), first), page) + Downs(Keep(ButtonIds(), plain - first), page);
    SampleSets(s, p, pressed);
    assert gone !! pressed;
    hide Sampled, Next, Released, Engaged, Activators, Retired, LayerChanges, EffectivePage, ActivePage,
         Known, Arrived, Consistent, Gone, Downs, Keep, Lifts, PlainModifiers, OneEach, ButtonsOf;
    LiftedSet(ups, gone, s.held);
    AnnouncedSet(activators, ActivePage(p));
    LiftedSet(retired, taken, e.held);
    AnnouncedSet(first, page);
    AnnouncedSet(plain - first, page);
    var a, b := ups, Downs(Keep(ButtonIds(), activators), ActivePage(p));
    OneEachJoins(a, b);
    OneEachJoins(a + b, retired);
    OneEachJoins(a + b + retired, Downs(Keep(ButtonIds(), first), page));
    OneEachJoins(a + b + retired + Downs(Keep(ButtonIds(), first), page),
                 Downs(Keep(ButtonIds(), plain - first), page));
  }

  // After a change of layer only modifiers, gyro contact, pure modifier bindings and buttons
  // pressed in this very sample are held; the others that stay down are in quarantine.
  lemma LayerChangeRule(s: Layers, p: Profile, pressed: set<Button>, b: Button)
    requires WellFormedProfile(p) && Consistent(s) && LayerChanges(s, p, pressed) && b in s.held && b in pressed
    ensures var n := Next(s, p, pressed);
      if b in s.modifiers || s.held[b].action == "hold-gyro" || ModifierOnly(s.held[b])
      then b in n.held && n.held[b] == s.held[b] && b !in n.quarantined
      else b !in n.held && b in n.quarantined
  {
    EngagedFacts(s, p, pressed);
    ActivatorsArrive(s, p, pressed);
    NextFacts(s, p, pressed);
    HeldAfter(s, p, pressed);
    SurvivorStays(s, p, pressed, b);
    hide Activators, LayerChanges, Next, EffectivePage, Known, Arrived, Distinct, Engaged, ActivePage, FindPage,
         BoundAll, Retired, ModifierOnly;
  }

  // Whether a button that stays down survives a change of layer depends on its own past only.
  lemma SurvivorStays(s: Layers, p: Profile, pressed: set<Button>, b: Button)
    requires WellFormedProfile(p) && Consistent(s) && b in s.held && b in pressed
    ensures b !in Arrived(s, pressed) && b !in s.quarantined
    ensures b in Engaged(s, p, pressed).held && Engaged(s, p, pressed).held[b] == s.held[b]
    ensures b in Retired(Engaged(s, p, pressed), true) <==>
              !(b in s.modifiers || s.held[b].action == "hold-gyro" || ModifierOnly(s.held[b]))
  {
    EngagedFacts(s, p, pressed);
    ActivatorsArrive(s, p, pressed);
    EngagedKeeps(s, p, pressed, b);
    RetiredMeaning(Engaged(s, p, pressed), b);
    assert b in s.physical;
    hide Activators, LayerChanges, Arrived, Distinct, Engaged, ModifierOnly, Retired, Known;
  }

  lemma EngagedKeeps(s: Layers, p: Profile, pressed: set<Button>, b: Button)
    requires WellFormedProfile(p) && b in s.held && b in pressed && b in s.physical
    ensures b in Engaged(s, p, pressed).held && Engaged(s, p, pressed).held[b] == s.held[b]
  {
    hide ActivePage, Bound, Keep, Drop, LayerOf, Known;
  }

  lemma RetiredMeaning(e: Layers, b: Button)
    requires b in e.held
    ensures b in Retired(e, true) <==>
              !(b in e.modifiers || e.held[b].action == "hold-gyro" || ModifierOnly(e.held[b]))
  {
  }

  // A button in quarantine is silent until it is let go, and leaves quarantine only then.
  lemma QuarantineIsSilent(s: Layers, p: Profile, pressed: set<Button>, next: Layers, edges: seq<ButtonEdge>, b: Button)
    requires WellFormedProfile(p) && Consistent(s) && Sampled(s, p, pressed, next, edges) && b in s.quarantined
    ensures b !in ButtonsOf(edges) && (b in next.quarantined <==> b in pressed)
  {
    AtMostOneEdge(s, p, pressed, next, edges);
    SampleSets(s, p, pressed);
    NextFacts(s, p, pressed);
    EngagedFacts(s, p, pressed);
    SampledNext(s, p, pressed, next, edges);
    hide Sampled, Engaged, Activators, Retired, LayerChanges, EffectivePage, Arrived, Next, ButtonsOf, Known;
    assert b in s.physical;
  }

  // Sampling the same buttons again announces nothing and changes nothing, whatever the
  // profile has become meanwhile.
  lemma StableSample(s: Layers, p: Profile, next: Layers, edges: seq<ButtonEdge>)
    requires WellFormedProfile(p) && Consistent(s) && Sampled(s, p, s.physical, next, edges)
    ensures next == s && edges == []
  {
    var pressed := s.physical;
    AtMostOneEdge(s, p, pressed, next, edges);
    assert Gone(s, pressed) == {} && Arrived(s, pressed) == {} && Activators(s, p, pressed) == {};
    StableEngaged(s, p);
    assert ButtonsOf(edges) == {};
    NoEdges(edges);
    assert Retired(s, false) == {};
    assert s.held - {} + BoundAll({}, EffectivePage(p, s.held, s.modifiers)) == s.held;
  }

  lemma NoMembers(buttons: seq<Button>)
    ensures buttons == [] <==> Members(buttons) == {}
  {
    if buttons != [] {
      assert buttons[0] in Members(buttons);
    }
  }

  lemma NoEdges(edges: seq<ButtonEdge>)
    ensures edges == [] <==> ButtonsOf(edges) == {}
  {
    if edges != [] {
      assert edges[0].button in ButtonsOf(edges);
    }
  }

  lemma StableEngaged(s: Layers, p: Profile)
    requires WellFormedProfile(p)
    ensures Engaged(s, p, s.physical) == s
  {
    var gone, activators := Gone(s, s.physical), Activators(s, p, s.physical);
    assert gone == {} && activators == {};
    DropNothing(s.modifiers);
    KeepMeaning(ButtonIds(), {});
    NoMembers(Keep(ButtonIds(), {}));
    assert s.held - {} + BoundAll({}, ActivePage(p)) == s.held;
    assert s.modifiers + [] == s.modifiers && s.quarantined - {} == s.quarantined;
  }

  // A run between two clears: from idle, any samples under any well-formed profiles.
  datatype Reading = Reading(profile: Profile, physical: map<Button, bool>)

  ghost predicate Ran(readings: seq<Reading>, states: seq<Layers>, edges: seq<seq<ButtonEdge>>) {
    && |states| == |readings| + 1 && |edges| == |readings| && states[0] == IDLE
    && forall i :: 0 <= i < |readings| ==>
         && WellFormedProfile(readings[i].profile)
         && Sampled(states[i], readings[i].profile, Pressed(readings[i].physical), states[i + 1], edges[i])
  }

  ghost function Flat(edges: seq<seq<ButtonEdge>>): seq<ButtonEdge> {
    if edges == [] then [] else Flat(edges[..|edges| - 1]) + edges[|edges| - 1]
  }

  // Over every run each button's edges alternate down and up, each up carries the binding of
  // its own down, and what is held is exactly what the edges say.
  lemma {:induction false} RunReplays(readings: seq<Reading>, states: seq<Layers>, edges: seq<seq<ButtonEdge>>)
    requires Ran(readings, states, edges)
    ensures Consistent(states[|readings|])
    ensures Replay(Flat(edges), map[]) == Some(states[|readings|].held)
    decreases |readings|
  {
    if readings == [] {
      assert IDLE.held.Keys + IDLE.quarantined == IDLE.physical * Known();
    } else {
      var n := |readings| - 1;
      var s, r := states[n], readings[n];
      RunInit(readings, states, edges);
      RunReplays(readings[..n], states[..n + 1], edges[..n]);
      assert Sampled(s, r.profile, Pressed(r.physical), states[n + 1], edges[n]);
      SampledNext(s, r.profile, Pressed(r.physical), states[n + 1], edges[n]);
      hide Sampled, Consistent, Replay;
      ConsistentNext(s, r.profile, Pressed(r.physical));
      SampleReplays(s, r.profile, Pressed(r.physical), states[n + 1], edges[n]);
      ReplayJoins(Flat(edges[..n]), edges[n], map[]);
    }
  }

  lemma SampledNext(s: Layers, p: Profile, pressed: set<Button>, next: Layers, edges: seq<ButtonEdge>)
    requires WellFormedProfile(p) && Sampled(s, p, pressed, next, edges)
    ensures next == Next(s, p, pressed) && next.physical == pressed
  {
  }

  lemma RunInit(readings: seq<Reading>, states: seq<Layers>, edges: seq<seq<ButtonEdge>>)
    requires Ran(readings, states, edges) && readings != []
    ensures Ran(readings[..|readings| - 1], states[..|readings|], edges[..|readings| - 1])
  {
    hide Sampled;
  }

  // The held and quarantined buttons are exactly the pressed ones if and only if the sample
  // names no button outside the list: an unlisted one is never held.
  lemma PartitionIff(readings: seq<Reading>, states: seq<Layers>, edges: seq<seq<ButtonEdge>>)
    requires Ran(readings, states, edges) && readings != []
    ensures var s, pressed := states[|readings|], Pressed(readings[|readings| - 1].physical);
      && s.held.Keys !! s.quarantined
      && (s.held.Keys + s.quarantined == pressed <==> pressed <= Known())
  {
    var n := |readings| - 1;
    RunReplays(readings, states, edges);
    assert Sampled(states[n], readings[n].profile, Pressed(readings[n].physical), states[n + 1], edges[n]);
    SampledNext(states[n], readings[n].profile, Pressed(readings[n].physical), states[n + 1], edges[n]);
  }

  // A sample with every button released leaves no hold, modifier or quarantine behind, and
  // the edges of the run so far bring an observer back to nothing held.
  lemma AllReleased(readings: seq<Reading>, states: seq<Layers>, edges: seq<seq<ButtonEdge>>)
    requires Ran(readings, states, edges) && readings != []
    requires Pressed(readings[|readings| - 1].physical) == {}
    ensures states[|readings|] == IDLE && Replay(Flat(edges), map[]) == Some(map[])
  {
    var n := |readings| - 1;
    RunReplays(readings, states, edges);
    assert Sampled(states[n], readings[n].profile, Pressed(readings[n].physical), states[n + 1], edges[n]);
    SampledNext(states[n], readings[n].profile, Pressed(readings[n].physical), states[n + 1], edges[n]);
    var s := states[n + 1];
    assert s.held.Keys + s.quarantined == {};
    assert s.held == map[];
    NoMembers(s.modifiers);
  }
}
