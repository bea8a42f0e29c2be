// The edge resolver as the source runs it, loop by loop, against the specification of
// ButtonLayers.dfy.

module ButtonSampler {
  import opened Basics
  import opened ButtonLayers
  import opened ButtonMeaning

  // QMap<QString, bool>::value.
  predicate IsDown(physical: map<Button, bool>, b: Button) {
    b in physical && physical[b]
  }

  class ButtonLayersObject {
    var held: map<Button, Binding>
    var physical: set<Button>
    var modifiers: seq<Button>
    var quarantined: set<Button>

    constructor ()
      ensures Value() == IDLE
    {
      held, physical, modifiers, quarantined := map[], {}, [], {};
    }

    ghost function Value(): Layers
      reads this
    {
      Layers(held, physical, modifiers, quarantined)
    }

    method Page(p: Profile) returns (page: ButtonPage)
      requires WellFormedProfile(p)
      ensures page == EffectivePage(p, held, modifiers)
      ensures (forall b :: b in modifiers ==> b in held) ==> InForce(p, held, modifiers, page)
    {
      hide InForce;
      if forall b :: b in modifiers ==> b in held {
        InForceMeaning(p, held, modifiers, EffectivePage(p, held, modifiers));
      }
      if modifiers != [] {
        var id := LayerOf(Bound(held, modifiers[|modifiers| - 1]));
        var i := 0;
        while i < |p.pages|
          invariant 0 <= i <= |p.pages|
          invariant FindPage(p.pages, id) == FindPage(p.pages[i..], id)
        {
          if p.pages[i].id == id {
            return p.pages[i];
          }
          assert p.pages[i..][1..] == p.pages[i + 1..];
          i := i + 1;
        }
      }
      page := ActivePage(p);
    }

    method HeldAction(action: string) returns (found: bool)
      ensures found <==> exists b :: b in held && held[b].action == action
    {
      var left := held.Keys;
      while left != {}
        invariant left <= held.Keys
        invariant forall b :: b in held && b !in left ==> held[b].action != action
        decreases |left|
      {
        var b :| b in left;
        if held[b].action == action {
          return true;
        }
        left := left - {b};
      }
      found := false;
    }

    method Clear()
      modifies this
      ensures Value() == IDLE
    {
      held, physical, modifiers, quarantined := map[], {}, [], {};
    }

    // for (button : m_physical) if (!physical.value(button)) ...; the set has no order.
    method ReleaseGone(sampled: map<Button, bool>) returns (ups: seq<ButtonEdge>)
      modifies this
      ensures Value() == Released(old(Value()), Pressed(sampled))
      ensures Lifts(ups, Gone(old(Value()), Pressed(sampled)) * old(held).Keys, old(held))
    {
      ghost var s, gone := Value(), Gone(Value(), Pressed(sampled));
      ghost var done: set<Button> := {};
      ups := [];
      var left := physical;
      WithoutNone(s);
      NoLifts(held);
      hide Lifts, Drop, Without;
      while left != {}
        invariant left <= s.physical
        invariant forall b :: b in done <==> b in gone && b !in left
        invariant Value() == Without(s, done)
        invariant Lifts(ups, done * s.held.Keys, s.held)
        decreases |left|
      {
        var b :| b in left;
        left := left - {b};
        GoneMeaning(s, sampled, b);
        if !IsDown(sampled, b) {
          WithoutOneMore(s, done, b);
          OneMoreLift(ups, done, s.held, b);
          if b in held {
            ups := ups + [ButtonEdge(b, held[b], false)];
            held := held - {b};
          }
          modifiers := Drop(modifiers, {b});
          quarantined := quarantined - {b};
          done := done + {b};
        }
      }
      assert done == gone;
    }

    // Base-page layer activators, in the order of the button list.
    method EngageLayers(p: Profile, sampled: map<Button, bool>, ghost s: Layers) returns (downs: seq<ButtonEdge>)
      requires WellFormedProfile(p) && Value() == Released(s, Pressed(sampled))
      modifies this
      ensures Value() == Engaged(s, p, Pressed(sampled))
      ensures downs == Downs(Keep(ButtonIds(), Activators(s, p, Pressed(sampled))), ActivePage(p))
    {
      hide Bound, Keep, Downs, FindPage, ButtonIds, BoundAll, LayerOf;
      downs := [];
      ghost var wanted, active := Activators(s, p, Pressed(sampled)), ActivePage(p);
      ghost var r := Value();
      Beginning(wanted, active, r.held);
      var i := 0;
      while i < |ButtonIds()|
        invariant 0 <= i <= |ButtonIds()|
        invariant physical == s.physical && quarantined == r.quarantined
        invariant held == r.held + BoundAll(Chosen(wanted, i), active)
        invariant modifiers == r.modifiers + Keep(ButtonIds()[..i], wanted)
        invariant downs == Downs(Keep(ButtonIds()[..i], wanted), active)
      {
        var b := ButtonIds()[i];
        Advance(i, wanted, active, r.held);
        var binding := Bound(ActivePage(p).bindings, b);
        if IsDown(sampled, b) && b !in physical && LayerOf(binding) != "" {
          held := held[b := binding];
          modifiers := modifiers + [b];
          downs := downs + [ButtonEdge(b, binding, true)];
        }
        i := i + 1;
      }
      Ending(wanted);
    }

    // for (button : m_held.keys()) ... on a change of layer; the model leaves the order open.
    method RetireLayer() returns (ups: seq<ButtonEdge>)
      modifies this
      ensures Value() == TakenAway(old(Value()), Retired(old(Value()), true))
      ensures Lifts(ups, Retired(old(Value()), true), old(held))
    {
      ghost var e := Value();
      ghost var done: set<Button> := {};
      ups := [];
      var left := held.Keys;
      NoLifts(held);
      TakenNone(e);
      hide Lifts, ModifierOnly, TakenAway;
      while left != {}
        invariant left <= e.held.Keys
        invariant forall b :: b in done <==> b in e.held && b !in left && !Survives(e, b)
        invariant Value() == TakenAway(e, done)
        invariant Lifts(ups, done, e.held)
        decreases |left|
      {
        var b :| b in left;
        left := left - {b};
        TakenOneMore(e, done, b);
        if b !in modifiers && held[b].action != "hold-gyro" && !ModifierOnly(held[b]) {
          LiftsOneMore(ups, done, e.held, b);
          ups := ups + [ButtonEdge(b, held[b], false)];
          held := held - {b};
          quarantined := quarantined + {b};
          done := done + {b};
        }
      }
      assert done == Retired(e, true);
    }

    // The two passes over the remaining new presses: pure modifiers first, then whatever they
    // left. The set returned is the source's `prepressed`.
    method PressSome(p: Profile, sampled: map<Button, bool>, modifiersOnly: bool, prepressed: set<Button>,
                     ghost wanted: set<Button>)
        returns (downs: seq<ButtonEdge>, taken: set<Button>)
      requires WellFormedProfile(p) && wanted <= Known()
      requires forall b :: b in Known() ==>
                 (b in wanted <==> Due(p, sampled, modifiersOnly, prepressed, Value(), b))
      modifies this
      ensures var page := EffectivePage(p, old(held), old(modifiers));
        && Value() == old(Value()).(held := old(held) + BoundAll(wanted, page))
        && downs == Downs(Keep(ButtonIds(), wanted), page)
      ensures taken == wanted
    {
      hide Bound, Keep, Downs, FindPage, ButtonIds, BoundAll, LayerOf, ModifierOnly;
      downs, taken := [], {};
      ghost var e := Value();
      ghost var active := EffectivePage(p, held, modifiers);
      Beginning(wanted, active, e.held);
      var i := 0;
      while i < |ButtonIds()|
        invariant 0 <= i <= |ButtonIds()|
        invariant Value() == e.(held := e.held + BoundAll(Chosen(wanted, i), active))
        invariant downs == Downs(Keep(ButtonIds()[..i], wanted), active)
        invariant taken == Chosen(wanted, i)
      {
        var b := ButtonIds()[i];
        Advance(i, wanted, active, e.held);
        SamePage(p, e, Chosen(wanted, i), active);
        var page := Page(p);
        if IsDown(sampled, b) && b !in physical && b !in modifiers && b !in quarantined && b !in prepressed {
          var binding := Bound(page.bindings, b);
          if !modifiersOnly || ModifierOnly(binding) {
            held := held[b := binding];
            taken := taken + {b};
            downs := downs + [ButtonEdge(b, binding, true)];
          }
        }
        i := i + 1;
      }
      Ending(wanted);
    }

    method Sample(p: Profile, sampled: map<Button, bool>) returns (edges: seq<ButtonEdge>)
      requires WellFormedProfile(p) && Consistent(Value())
      modifies this
      ensures Sampled(old(Value()), p, Pressed(sampled), Value(), edges)
      ensures Consistent(Value())
      ensures Answers(old(Value()), p, Pressed(sampled), Value(), edges)
    {
      ghost var s, pressed := Value(), Pressed(sampled);
      ghost var e := Engaged(s, p, pressed);
      ghost var activators, changed := Activators(s, p, pressed), LayerChanges(s, p, pressed);
      ghost var plain := Arrived(s, pressed) - activators;
      ghost var first := PlainModifiers(plain, EffectivePage(p, e.held, e.modifiers));
      ghost var page := EffectivePage(p, e.held, e.modifiers);
      ghost var v := TakenAway(e, Retired(e, changed));
      AfterLayers(s, p, sampled);
      RemainingPresses(s, p, sampled);
      NextByParts(s, p, pressed);
      ConsistentNext(s, p, pressed);
      hide Engaged, Released, Activators, Retired, LayerChanges, EffectivePage, ActivePage, Arrived, Known, Consistent,
           Next, Sampled, Downs, Keep, Lifts, PlainModifiers, BoundAll, Gone, Due, TakenAway, Answers, InForce;
      var oldLayer := Page(p);
      var ups := ReleaseGone(sampled);
      var engaged := EngageLayers(p, sampled, s);
      var newLayer := Page(p);
      var retired := [];
      if oldLayer.id != newLayer.id {
        retired := RetireLayer();
      }
      assert Value() == v;
      var modifierDowns, prepressed := PressSome(p, sampled, true, {}, first);
      var otherDowns, _ := PressSome(p, sampled, false, prepressed, plain - first);
      physical := set b | b in sampled && sampled[b];
      edges := ups + engaged + retired + modifierDowns + otherDowns;
      ConcludeSampled(s, p, pressed, ups, retired);
      SampleAnswers(s, p, pressed, Value(), edges);
    }
  }

  // Out of the holder's hand and into quarantine.
  ghost function TakenAway(e: Layers, buttons: set<Button>): Layers {
    Layers(e.held - buttons, e.physical, e.modifiers, e.quarantined + buttons)
  }

  lemma TakenNone(e: Layers)
    ensures TakenAway(e, {}) == e
  {
    assert e.held - {} == e.held;
  }

  lemma TakenOneMore(e: Layers, done: set<Button>, b: Button)
    requires b in e.held && b !in done
    ensures var v := TakenAway(e, done);
      && b in v.held && v.held[b] == e.held[b] && v.modifiers == e.modifiers
      && TakenAway(e, done + {b}) == Layers(v.held - {b}, v.physical, v.modifiers, v.quarantined + {b})
  {
  }

  ghost predicate Due(p: Profile, sampled: map<Button, bool>, modifiersOnly: bool, prepressed: set<Button>,
                      v: Layers, b: Button)
    requires WellFormedProfile(p)
  {
    && IsDown(sampled, b) && b !in v.physical && b !in v.modifiers && b !in v.quarantined && b !in prepressed
    && (modifiersOnly ==> ModifierOnly(Bound(EffectivePage(p, v.held, v.modifiers).bindings, b)))
  }

  // What the change of layer leaves: the effective page is that of the engaged modifiers.
  lemma AfterLayers(s: Layers, p: Profile, sampled: map<Button, bool>)
    requires WellFormedProfile(p) && Consistent(s)
    ensures var pressed := Pressed(sampled);
      var e, changed := Engaged(s, p, pressed), LayerChanges(s, p, pressed);
      var v := TakenAway(e, Retired(e, changed));
      && (changed <==> EffectivePage(p, s.held, s.modifiers).id != EffectivePage(p, e.held, e.modifiers).id)
      && (changed ==> Retired(e, changed) == Retired(e, true))
      && (!changed ==> v == e && Lifts([], Retired(e, changed), e.held))
      && EffectivePage(p, v.held, v.modifiers) == EffectivePage(p, e.held, e.modifiers)
  {
    var pressed := Pressed(sampled);
    var e, changed := Engaged(s, p, pressed), LayerChanges(s, p, pressed);
    TakenNone(e);
    NoLifts(e.held);
    RetiredFacts(e, changed);
    if !changed {
      assert Retired(e, changed) == {};
    }
    hide Engaged, Retired, Lifts, Activators, Arrived, EffectivePage, Survives, Consistent;
    PageAfterTaking(p, e, Retired(e, changed));
  }

  lemma PageAfterTaking(p: Profile, e: Layers, retired: set<Button>)
    requires WellFormedProfile(p) && forall b :: b in e.modifiers ==> b !in retired
    ensures EffectivePage(p, e.held - retired, e.modifiers) == EffectivePage(p, e.held, e.modifiers)
  {
    hide FindPage;
    if e.modifiers != [] {
      var last := e.modifiers[|e.modifiers| - 1];
      assert last in e.modifiers;
      assert Bound(e.held - retired, last) == Bound(e.held, last);
    }
  }

  // The two press passes together take exactly the new presses that engaged no layer.
  lemma RemainingPresses(s: Layers, p: Profile, sampled: map<Button, bool>)
    requires WellFormedProfile(p) && Consistent(s)
    ensures var pressed := Pressed(sampled);
      var e := Engaged(s, p, pressed);
      var page := EffectivePage(p, e.held, e.modifiers);
      var v := TakenAway(e, Retired(e, LayerChanges(s, p, pressed)));
      var plain := Arrived(s, pressed) - Activators(s, p, pressed);
      var first := PlainModifiers(plain, page);
      var w := v.(held := v.held + BoundAll(first, page));
      && first <= plain <= Known()
      && EffectivePage(p, w.held, w.modifiers) == page
      && (forall b :: b in Known() ==> (b in first <==> Due(p, sampled, true, {}, v, b)))
      && (forall b :: b in Known() ==> (b in plain - first <==> Due(p, sampled, false, first, w, b)))
  {
    var pressed := Pressed(sampled);
    var e, changed := Engaged(s, p, pressed), LayerChanges(s, p, pressed);
    var page := EffectivePage(p, e.held, e.modifiers);
    var v := TakenAway(e, Retired(e, changed));
    var plain := Arrived(s, pressed) - Activators(s, p, pressed);
    AfterLayers(s, p, sampled);
    EngagedFacts(s, p, pressed);
    SampleSets(s, p, pressed);
    assert e.physical == s.physical && s.quarantined <= s.physical;
    assert forall b :: b in s.modifiers ==> b in s.physical;
    assert forall b :: b in Known() ==> (b in Arrived(s, pressed) <==> IsDown(sampled, b) && b !in s.physical);
    hide Engaged, Activators, Retired, LayerChanges, EffectivePage, Arrived, Known, ModifierOnly, Bound, BoundAll,
         Consistent, Distinct, Pressed, FindPage;
    SamePage(p, v, PlainModifiers(plain, page), page);
  }

  // The next state, assembled the way the source assembles it.
  lemma NextByParts(s: Layers, p: Profile, pressed: set<Button>)
    requires WellFormedProfile(p)
    ensures var e := Engaged(s, p, pressed);
      var page := EffectivePage(p, e.held, e.modifiers);
      var v := TakenAway(e, Retired(e, LayerChanges(s, p, pressed)));
      var plain := Arrived(s, pressed) - Activators(s, p, pressed);
      var first := PlainModifiers(plain, page);
      Next(s, p, pressed) ==
        v.(held := v.held + BoundAll(first, page) + BoundAll(plain - first, page), physical := pressed)
  {
    var e := Engaged(s, p, pressed);
    var page := EffectivePage(p, e.held, e.modifiers);
    var plain := Arrived(s, pressed) - Activators(s, p, pressed);
    var first := PlainModifiers(plain, page);
    assert first + (plain - first) == plain;
    hide Engaged, Activators, Retired, LayerChanges, EffectivePage, Arrived, PlainModifiers, BoundAll;
    BoundTwice(TakenAway(e, Retired(e, LayerChanges(s, p, pressed))).held, first, plain - first, page);
  }

  lemma ConcludeSampled(s: Layers, p: Profile, pressed: set<Button>, ups: seq<ButtonEdge>, retired: seq<ButtonEdge>)
    requires WellFormedProfile(p) && Lifts(ups, Gone(s, pressed) * s.held.Keys, s.held)
    requires var e := Engaged(s, p, pressed); Lifts(retired, Retired(e, LayerChanges(s, p, pressed)), e.held)
    ensures var e, activators := Engaged(s, p, pressed), Activators(s, p, pressed);
      var page := EffectivePage(p, e.held, e.modifiers);
      var plain := Arrived(s, pressed) - activators;
      var first := PlainModifiers(plain, page);
      Sampled(s, p, pressed, Next(s, p, pressed),
              ups + Downs(Keep(ButtonIds(), activators), ActivePage(p)) + retired
              + Downs(Keep(ButtonIds(), first), page) + Downs(Keep(ButtonIds(), plain - first), page))
  {
    hide Engaged, Activators, Retired, LayerChanges, EffectivePage, ActivePage, Arrived, PlainModifiers, Next, Lifts,
         Downs, Keep, ButtonIds, Gone;
  }

  // Presses that are no modifiers leave the effective page alone.
  lemma SamePage(p: Profile, e: Layers, buttons: set<Button>, page: ButtonPage)
    requires WellFormedProfile(p) && forall b :: b in buttons ==> b !in e.modifiers
    ensures EffectivePage(p, e.held + BoundAll(buttons, page), e.modifiers) == EffectivePage(p, e.held, e.modifiers)
  {
    if e.modifiers != [] {
      var last := e.modifiers[|e.modifiers| - 1];
      assert last in e.modifiers;
      assert Bound(e.held + BoundAll(buttons, page), last) == Bound(e.held, last);
    }
  }

  // The wanted buttons among the first i listed.
  ghost function Chosen(wanted: set<Button>, i: nat): set<Button>
    requires i <= |ButtonIds()|
  {
    wanted * Members(ButtonIds()[..i])
  }

  lemma NoLifts(held: map<Button, Binding>)
    ensures Lifts([], {}, held) && Lifts([], {} * held.Keys, held)
  {
  }

  lemma WithoutNone(s: Layers)
    ensures Without(s, {}) == s
  {
    DropNothing(s.modifiers);
  }

  lemma WithoutOneMore(s: Layers, done: set<Button>, b: Button)
    requires b !in done
    ensures var v := Without(s, done);
      && (b in v.held <==> b in s.held) && (b in v.held ==> v.held[b] == s.held[b])
      && Without(s, done + {b}) == Layers(if b in v.held then v.held - {b} else v.held, v.physical,
                                          Drop(v.modifiers, {b}), v.quarantined - {b})
  {
    DropTwice(s.modifiers, done, {b});
    hide Drop;
  }

  lemma GoneMeaning(s: Layers, sampled: map<Button, bool>, b: Button)
    requires b in s.physical
    ensures b in Gone(s, Pressed(sampled)) <==> !IsDown(sampled, b)
  {
  }

  lemma OneMoreLift(edges: seq<ButtonEdge>, done: set<Button>, held: map<Button, Binding>, b: Button)
    requires Lifts(edges, done * held.Keys, held) && b !in done
    ensures if b in held then Lifts(edges + [ButtonEdge(b, held[b], false)], (done + {b}) * held.Keys, held)
            else Lifts(edges, (done + {b}) * held.Keys, held)
  {
    hide Lifts;
    if b in held {
      LiftsOneMore(edges, done * held.Keys, held, b);
      assert (done + {b}) * held.Keys == done * held.Keys + {b};
    } else {
      assert (done + {b}) * held.Keys == done * held.Keys;
    }
  }

  lemma Beginning(wanted: set<Button>, page: ButtonPage, before: map<Button, Binding>)
    ensures Keep(ButtonIds()[..0], wanted) == [] && Downs(Keep(ButtonIds()[..0], wanted), page) == []
    ensures before + BoundAll(Chosen(wanted, 0), page) == before
  {
  }

  lemma Ending(wanted: set<Button>)
    requires wanted <= Known()
    ensures ButtonIds()[..|ButtonIds()|] == ButtonIds()
    ensures Chosen(wanted, |ButtonIds()|) == wanted
  {
    hide ButtonIds;
    assert ButtonIds()[..|ButtonIds()|] == ButtonIds();
  }

  // One more listed button.
  lemma Advance(i: nat, wanted: set<Button>, page: ButtonPage, before: map<Button, Binding>)
    requires i < |ButtonIds()|
    ensures ButtonIds()[i] in Known()
    ensures var b := ButtonIds()[i];
      if b in wanted then
        && Keep(ButtonIds()[..i + 1], wanted) == Keep(ButtonIds()[..i], wanted) + [b]
        && Downs(Keep(ButtonIds()[..i + 1], wanted), page) ==
             Downs(Keep(ButtonIds()[..i], wanted), page) + [ButtonEdge(b, Bound(page.bindings, b), true)]
        && Chosen(wanted, i + 1) == Chosen(wanted, i) + {b}
        && before + BoundAll(Chosen(wanted, i + 1), page) ==
             (before + BoundAll(Chosen(wanted, i), page))[b := Bound(page.bindings, b)]
      else
        && Keep(ButtonIds()[..i + 1], wanted) == Keep(ButtonIds()[..i], wanted)
        && Chosen(wanted, i + 1) == Chosen(wanted, i)
  {
    hide ButtonIds, Bound, Keep, Downs;
    var b := ButtonIds()[i];
    assert ButtonIds()[..i + 1] == ButtonIds()[..i] + [b];
    KeepLast(ButtonIds()[..i], b, wanted);
    DownsLast(Keep(ButtonIds()[..i], wanted), b, page);
    assert Keep(ButtonIds()[..i], wanted) + [] == Keep(ButtonIds()[..i], wanted);
    if b in wanted {
      assert Chosen(wanted, i + 1) == Chosen(wanted, i) + {b};
      BoundOne(before, Chosen(wanted, i), b, page);
    } else {
      assert Chosen(wanted, i + 1) == Chosen(wanted, i);
    }
  }

  lemma BoundOne(before: map<Button, Binding>, buttons: set<Button>, b: Button, page: ButtonPage)
    ensures before + BoundAll(buttons + {b}, page) == (before + BoundAll(buttons, page))[b := Bound(page.bindings, b)]
  {
    hide Bound;
  }
}
