// Which keys and mouse buttons are held down on behalf of which token:
// src/controllers/held_input_state.cpp.

module HeldInput {
  import opened Basics

  datatype Kind = Key | Mouse
  datatype Input = Input(kind: Kind, code: uint32)
  datatype InputChange = InputChange(kind: Kind, code: uint32, down: bool)
  datatype Held = Held(keys: seq<uint32>, mouseButtons: seq<uint32>)

  type Table = map<string, Held>

  function Codes(h: Held, kind: Kind): seq<uint32> {
    if kind.Key? then h.keys else h.mouseButtons
  }

  ghost function Holders(t: Table, kind: Kind, code: uint32): set<string> {
    set token | token in t && code in Codes(t[token], kind)
  }

  // Everything held by at least one token.
  ghost function Down(t: Table): set<Input> {
    (set token, code | token in t && code in t[token].keys :: Input(Key, code)) +
    (set token, code | token in t && code in t[token].mouseButtons :: Input(Mouse, code))
  }

  // What an observer of the changes believes to be down. A down must hit an input that is
  // up, and an up one that is down; otherwise the stream is broken.
  function Replay(changes: seq<InputChange>, down: set<Input>): Option<set<Input>> {
    if changes == [] then Some(down)
    else
      var change := changes[|changes| - 1];
      var before :- Replay(changes[..|changes| - 1], down);
      var input := Input(change.kind, change.code);
      :- Need((input in before) != change.down);
      Some(if change.down then before + {input} else before - {input})
  }

  // ------------------------------------------------------------- specification

  function Unique(codes: seq<uint32>): seq<uint32> {
    if codes == [] then []
    else
      var init, last := Unique(codes[..|codes| - 1]), codes[|codes| - 1];
      if last in init then init else init + [last]
  }

  function Reverse<T>(s: seq<T>): seq<T> {
    if s == [] then [] else Reverse(s[1..]) + [s[0]]
  }

  // The changes announced when a token starts, or stops, holding these codes, in this order.
  ghost function Raised(t: Table, kind: Kind, codes: seq<uint32>): seq<InputChange> {
    if codes == [] then []
    else
      var init, last := codes[..|codes| - 1], codes[|codes| - 1];
      Raised(t, kind, init) + if Holders(t, kind, last) == {} then [InputChange(kind, last, true)] else []
  }

  ghost function Lowered(t: Table, token: string, kind: Kind, codes: seq<uint32>): seq<InputChange> {
    if codes == [] then []
    else
      var init, last := codes[..|codes| - 1], codes[|codes| - 1];
      Lowered(t, token, kind, init) +
      if Holders(t, kind, last) == {token} then [InputChange(kind, last, false)] else []
  }

  datatype Step = Step(table: Table, changes: seq<InputChange>)

  ghost function Pressed(t: Table, token: string, keys: seq<uint32>, mouseButtons: seq<uint32>): Step {
    if token in t then Step(t, [])
    else
      var h := Held(Unique(keys), Unique(mouseButtons));
      Step(t[token := h], Raised(t, Key, h.keys) + Raised(t, Mouse, h.mouseButtons))
  }

  ghost function Released(t: Table, token: string): Step {
    if token !in t then Step(t, [])
    else
      var h := t[token];
      Step(t - {token}, Lowered(t, token, Mouse, Reverse(h.mouseButtons)) + Lowered(t, token, Key, Reverse(h.keys)))
  }

  datatype Call = Press(token: string, keys: seq<uint32>, mouseButtons: seq<uint32>) | Release(token: string)

  ghost function Perform(t: Table, call: Call): Step {
    match call
    case Press(token, keys, mouseButtons) => Pressed(t, token, keys, mouseButtons)
    case Release(token) => Released(t, token)
  }

  // The table and all changes announced after a run from the empty table.
  ghost function Run(calls: seq<Call>): Step {
    if calls == [] then Step(map[], [])
    else
      var before := Run(calls[..|calls| - 1]);
      var step := Perform(before.table, calls[|calls| - 1]);
      Step(step.table, before.changes + step.changes)
  }

  ghost predicate Distinct<T(!new)>(s: seq<T>) {
    forall i, j :: 0 <= i < j < |s| ==> s[i] != s[j]
  }

  ghost predicate WellFormedTable(t: Table) {
    forall token :: token in t ==> Distinct(t[token].keys) && Distinct(t[token].mouseButtons)
  }

  // -------------------------------------------------------------------- lemmas

  lemma {:induction false} UniqueMeaning(codes: seq<uint32>)
    ensures Distinct(Unique(codes)) && forall c :: c in Unique(codes) <==> c in codes
  {
    if codes != [] {
      UniqueMeaning(codes[..|codes| - 1]);
      assert codes == codes[..|codes| - 1] + [codes[|codes| - 1]];
    }
  }

  lemma {:induction false} ReverseMeaning<T>(s: seq<T>)
    ensures |Reverse(s)| == |s| && forall i :: 0 <= i < |s| ==> Reverse(s)[i] == s[|s| - 1 - i]
  {
    if s != [] {
      ReverseMeaning(s[1..]);
    }
  }

  lemma {:induction false} ReverseJoins<T>(a: seq<T>, b: seq<T>)
    ensures Reverse(a + b) == Reverse(b) + Reverse(a)
  {
    if a == [] {
      assert a + b == b;
    } else {
      ReverseJoins(a[1..], b);
      assert (a + b)[1..] == a[1..] + b;
    }
  }

  lemma ReversedDistinct(s: seq<uint32>)
    requires Distinct(s)
    ensures Distinct(Reverse(s)) && forall c :: c in Reverse(s) <==> c in s
  {
    ReverseMeaning(s);
    forall c | c in s
      ensures c in Reverse(s)
    {
      var i :| 0 <= i < |s| && s[i] == c;
      assert Reverse(s)[|s| - 1 - i] == c;
    }
  }

  lemma {:induction false} ReplayJoins(a: seq<InputChange>, b: seq<InputChange>, down: set<Input>)
    requires Replay(a, down).Some?
    ensures Replay(a + b, down) == Replay(b, Replay(a, down).value)
  {
    if b == [] {
      assert a + b == a;
    } else {
      hide Replay;
      var init, last := b[..|b| - 1], b[|b| - 1];
      assert b == init + [last] && a + b == a + init + [last];
      ReplayJoins(a, init, down);
      ReplayLast(init, last, Replay(a, down).value);
      ReplayLast(a + init, last, down);
    }
  }

  lemma DownMeaning(t: Table, kind: Kind, code: uint32)
    ensures Input(kind, code) in Down(t) <==> Holders(t, kind, code) != {}
  {
    if Input(kind, code) in Down(t) {
      var token :| token in t && code in Codes(t[token], kind);
      assert token in Holders(t, kind, code);
    }
    if Holders(t, kind, code) != {} {
      var token :| token in Holders(t, kind, code);
    }
  }

  ghost function Inputs(kind: Kind, codes: seq<uint32>): set<Input> {
    set c | c in codes :: Input(kind, c)
  }

  lemma InputsLast(kind: Kind, init: seq<uint32>, last: uint32)
    ensures Inputs(kind, init + [last]) == Inputs(kind, init) + {Input(kind, last)}
    ensures Input(kind, last) in Inputs(kind, init) <==> last in init
  {
  }

  lemma RaisedNothing(t: Table, kind: Kind)
    ensures Raised(t, kind, []) == []
  {
  }

  lemma LoweredNothing(t: Table, token: string, kind: Kind)
    ensures Lowered(t, token, kind, []) == []
  {
  }

  lemma RaisedLast(t: Table, kind: Kind, init: seq<uint32>, last: uint32)
    ensures Raised(t, kind, init + [last]) ==
            Raised(t, kind, init) + if Holders(t, kind, last) == {} then [InputChange(kind, last, true)] else []
  {
    assert (init + [last])[..|init|] == init;
  }

  lemma {:induction false} RaisedReplay(t: Table, kind: Kind, codes: seq<uint32>, down: set<Input>)
    requires Distinct(codes)
    requires forall c :: c in codes ==> (Input(kind, c) in down <==> Holders(t, kind, c) != {})
    ensures Replay(Raised(t, kind, codes), down) == Some(down + Inputs(kind, codes))
  {
    if codes == [] {
      assert down + Inputs(kind, codes) == down;
    } else {
      var init, last := codes[..|codes| - 1], codes[|codes| - 1];
      assert codes == init + [last];
      RaisedReplay(t, kind, init, down);
      RaisedReplayLast(t, kind, init, last, down);
    }
  }

  lemma RaisedReplayLast(t: Table, kind: Kind, init: seq<uint32>, last: uint32, down: set<Input>)
    requires last !in init
    requires Input(kind, last) in down <==> Holders(t, kind, last) != {}
    requires Replay(Raised(t, kind, init), down) == Some(down + Inputs(kind, init))
    ensures Replay(Raised(t, kind, init + [last]), down) == Some(down + Inputs(kind, init + [last]))
  {
    hide Raised, Replay, Holders, Inputs;
    InputsLast(kind, init, last);
    RaisedLast(t, kind, init, last);
    ReplayLast(Raised(t, kind, init), InputChange(kind, last, true), down);
    assert down + Inputs(kind, init + [last]) == (down + Inputs(kind, init)) + {Input(kind, last)};
    assert Input(kind, last) in down ==> down + Inputs(kind, init + [last]) == down + Inputs(kind, init);
    assert Raised(t, kind, init) + [] == Raised(t, kind, init);
  }

  lemma ReplayLast(changes: seq<InputChange>, change: InputChange, down: set<Input>)
    ensures Replay(changes + [change], down) ==
      match Replay(changes, down)
      case None => None
      case Some(before) =>
        var input := Input(change.kind, change.code);
        if (input in before) == change.down then None
        else Some(if change.down then before + {input} else before - {input})
  {
    assert (changes + [change])[..|changes|] == changes;
  }

  // What stays down once the token lets go of the codes.
  ghost function Kept(t: Table, token: string, kind: Kind, codes: seq<uint32>, down: set<Input>): set<Input> {
    down - set c | c in codes && Holders(t, kind, c) == {token} :: Input(kind, c)
  }

  lemma LoweredLast(t: Table, token: string, kind: Kind, init: seq<uint32>, last: uint32)
    ensures Lowered(t, token, kind, init + [last]) ==
            Lowered(t, token, kind, init) +
            if Holders(t, kind, last) == {token} then [InputChange(kind, last, false)] else []
  {
    assert (init + [last])[..|init|] == init;
  }

  lemma KeptLast(t: Table, token: string, kind: Kind, init: seq<uint32>, last: uint32, down: set<Input>)
    ensures Kept(t, token, kind, init + [last], down) ==
            Kept(t, token, kind, init, down) -
            if Holders(t, kind, last) == {token} then {Input(kind, last)} else {}
    ensures last !in init && Input(kind, last) in down ==> Input(kind, last) in Kept(t, token, kind, init, down)
  {
    hide Holders;
  }

  lemma {:induction false} LoweredReplay(t: Table, token: string, kind: Kind, codes: seq<uint32>, down: set<Input>)
    requires Distinct(codes) && forall c :: c in codes ==> Input(kind, c) in down
    ensures Replay(Lowered(t, token, kind, codes), down) == Some(Kept(t, token, kind, codes, down))
  {
    if codes == [] {
      assert Kept(t, token, kind, codes, down) == down;
    } else {
      var init, last := codes[..|codes| - 1], codes[|codes| - 1];
      assert codes == init + [last];
      LoweredReplay(t, token, kind, init, down);
      LoweredReplayLast(t, token, kind, init, last, down);
    }
  }

  lemma LoweredReplayLast(t: Table, token: string, kind: Kind, init: seq<uint32>, last: uint32, down: set<Input>)
    requires last !in init && Input(kind, last) in down
    requires Replay(Lowered(t, token, kind, init), down) == Some(Kept(t, token, kind, init, down))
    ensures Replay(Lowered(t, token, kind, init + [last]), down) == Some(Kept(t, token, kind, init + [last], down))
  {
    hide Lowered, Replay, Holders, Kept;
    KeptLast(t, token, kind, init, last, down);
    LoweredLast(t, token, kind, init, last);
    ReplayLast(Lowered(t, token, kind, init), InputChange(kind, last, false), down);
    var kept := Kept(t, token, kind, init, down);
    assert kept - {} == kept;
    assert Lowered(t, token, kind, init) + [] == Lowered(t, token, kind, init);
  }

  // One call keeps an observer who has seen every change so far exactly up to date.
  lemma PressReplay(t: Table, token: string, keys: seq<uint32>, mouseButtons: seq<uint32>)
    ensures var step := Pressed(t, token, keys, mouseButtons);
      Replay(step.changes, Down(t)) == Some(Down(step.table))
    ensures WellFormedTable(t) ==> WellFormedTable(Pressed(t, token, keys, mouseButtons).table)
  {
    UniqueMeaning(keys);
    UniqueMeaning(mouseButtons);
    if token !in t {
      var h := Held(Unique(keys), Unique(mouseButtons));
      forall kind: Kind, c: uint32
        ensures Input(kind, c) in Down(t) <==> Holders(t, kind, c) != {}
      {
        DownMeaning(t, kind, c);
      }
      RaisedReplay(t, Key, h.keys, Down(t));
      var middle := Down(t) + Inputs(Key, h.keys);
      RaisedReplay(t, Mouse, h.mouseButtons, middle);
      ReplayJoins(Raised(t, Key, h.keys), Raised(t, Mouse, h.mouseButtons), Down(t));
      DownWith(t, token, h);
    }
  }

  lemma DownWith(t: Table, token: string, h: Held)
    requires token !in t
    ensures Down(t[token := h]) == Down(t) + Inputs(Key, h.keys) + Inputs(Mouse, h.mouseButtons)
  {
    var next := t[token := h];
    forall kind: Kind, c: uint32
      ensures Input(kind, c) in Down(next) <==>
                Input(kind, c) in Down(t) + Inputs(Key, h.keys) + Inputs(Mouse, h.mouseButtons)
    {
      DownMeaning(next, kind, c);
      DownMeaning(t, kind, c);
      HoldersWith(t, token, h, kind, c);
    }
  }

  lemma HoldersWith(t: Table, token: string, h: Held, kind: Kind, c: uint32)
    requires token !in t
    ensures Holders(t[token := h], kind, c) ==
            Holders(t, kind, c) + if c in Codes(h, kind) then {token} else {}
    ensures token !in Holders(t, kind, c)
  {
  }

  lemma HoldersWithout(t: Table, token: string, kind: Kind, c: uint32)
    requires token in t
    ensures Holders(t - {token}, kind, c) == Holders(t, kind, c) - {token}
    ensures token in Holders(t, kind, c) <==> c in Codes(t[token], kind)
  {
  }

  lemma DownWithout(t: Table, token: string, keys: seq<uint32>, buttons: seq<uint32>)
    requires token in t
    requires forall c :: c in keys <==> c in t[token].keys
    requires forall c :: c in buttons <==> c in t[token].mouseButtons
    ensures Down(t - {token}) == Kept(t, token, Key, keys, Kept(t, token, Mouse, buttons, Down(t)))
    ensures forall c :: c in buttons ==> Input(Mouse, c) in Down(t)
    ensures forall c :: c in keys ==> Input(Key, c) in Kept(t, token, Mouse, buttons, Down(t))
  {
    hide Down, Holders;
    forall kind: Kind, c: uint32
      ensures Input(kind, c) in Down(t - {token}) <==> Input(kind, c) in Down(t) && Holders(t, kind, c) != {token}
      ensures token in Holders(t, kind, c) <==> c in Codes(t[token], kind)
      ensures Input(kind, c) in Down(t) <==> Holders(t, kind, c) != {}
    {
      DownMeaning(t, kind, c);
      DownMeaning(t - {token}, kind, c);
      HoldersWithout(t, token, kind, c);
    }
    var kept := Kept(t, token, Key, keys, Kept(t, token, Mouse, buttons, Down(t)));
    forall input: Input
      ensures input in Down(t - {token}) <==> input in kept
    {
      var c := input.code;
      assert input == Input(input.kind, c);
      assert c in Codes(t[token], input.kind) <==> if input.kind.Key? then c in keys else c in buttons;
      assert token in Holders(t, input.kind, c) <==> c in Codes(t[token], input.kind);
    }
  }

  lemma ReleaseReplay(t: Table, token: string)
    requires WellFormedTable(t)
    ensures var step := Released(t, token);
      Replay(step.changes, Down(t)) == Some(Down(step.table)) && WellFormedTable(step.table)
  {
    if token in t {
      var h := t[token];
      var buttons, keys := Reverse(h.mouseButtons), Reverse(h.keys);
      ReversedDistinct(h.mouseButtons);
      ReversedDistinct(h.keys);
      DownWithout(t, token, keys, buttons);
      hide Down, Holders, Replay, Kept, Lowered, Reverse, Distinct;
      var middle := Kept(t, token, Mouse, buttons, Down(t));
      LoweredReplay(t, token, Mouse, buttons, Down(t));
      LoweredReplay(t, token, Key, keys, middle);
      ReplayJoins(Lowered(t, token, Mouse, buttons), Lowered(t, token, Key, keys), Down(t));
    }
  }

  // Over every run, folding the announced changes gives exactly the inputs held by at least
  // one token; every down hits an input that is up and every up one that is down.
  lemma {:induction false} RunReplays(calls: seq<Call>)
    ensures var run := Run(calls);
      Replay(run.changes, {}) == Some(Down(run.table)) && WellFormedTable(run.table)
  {
    if calls == [] {
      assert Down(map[]) == {};
    } else {
      var before := Run(calls[..|calls| - 1]);
      RunReplays(calls[..|calls| - 1]);
      var call := calls[|calls| - 1];
      match call {
        case Press(token, keys, mouseButtons) => PressReplay(before.table, token, keys, mouseButtons);
        case Release(token) => ReleaseReplay(before.table, token);
      }
      ReplayJoins(before.changes, Perform(before.table, call).changes, {});
    }
  }

  function Undone(changes: seq<InputChange>): seq<InputChange> {
    if changes == [] then []
    else
      var last := changes[|changes| - 1];
      [last.(down := !last.down)] + Undone(changes[..|changes| - 1])
  }

  lemma {:induction false} UndoneJoins(a: seq<InputChange>, b: seq<InputChange>)
    ensures Undone(a + b) == Undone(b) + Undone(a)
  {
    if b == [] {
      assert a + b == a;
    } else {
      assert (a + b)[..|a + b| - 1] == a + b[..|b| - 1];
      UndoneJoins(a, b[..|b| - 1]);
    }
  }

  lemma {:induction false} LoweredJoins(t: Table, token: string, kind: Kind, a: seq<uint32>, b: seq<uint32>)
    ensures Lowered(t, token, kind, a + b) == Lowered(t, token, kind, a) + Lowered(t, token, kind, b)
  {
    if b == [] {
      assert a + b == a;
    } else {
      assert (a + b)[..|a + b| - 1] == a + b[..|b| - 1];
      LoweredJoins(t, token, kind, a, b[..|b| - 1]);
    }
  }

  lemma {:induction false} LoweringUndoesRaising(t: Table, token: string, h: Held, kind: Kind, codes: seq<uint32>)
    requires token !in t && forall c :: c in codes ==> c in Codes(h, kind)
    ensures Lowered(t[token := h], token, kind, Reverse(codes)) == Undone(Raised(t, kind, codes))
  {
    if codes != [] {
      var init, last := codes[..|codes| - 1], codes[|codes| - 1];
      assert codes == init + [last];
      LoweringUndoesRaising(t, token, h, kind, init);
      LoweringUndoesLast(t, token, h, kind, init, last);
    }
  }

  lemma LoweringUndoesLast(t: Table, token: string, h: Held, kind: Kind, init: seq<uint32>, last: uint32)
    requires token !in t && last in Codes(h, kind)
    requires Lowered(t[token := h], token, kind, Reverse(init)) == Undone(Raised(t, kind, init))
    ensures Lowered(t[token := h], token, kind, Reverse(init + [last])) == Undone(Raised(t, kind, init + [last]))
  {
    var next := t[token := h];
    var change := if Holders(t, kind, last) == {} then [InputChange(kind, last, true)] else [];
    HoldersWith(t, token, h, kind, last);
    LoweredOne(next, token, kind, last);
    UndoneOne(change);
    hide Holders, Lowered, Raised, Undone, Codes;
    ReverseJoins(init, [last]);
    assert Reverse([last]) == [last];
    RaisedLast(t, kind, init, last);
    LoweredJoins(next, token, kind, [last], Reverse(init));
    UndoneJoins(Raised(t, kind, init), change);
  }

  lemma LoweredOne(t: Table, token: string, kind: Kind, code: uint32)
    ensures Lowered(t, token, kind, [code]) ==
            if Holders(t, kind, code) == {token} then [InputChange(kind, code, false)] else []
  {
  }

  lemma UndoneOne(changes: seq<InputChange>)
    requires |changes| <= 1
    ensures Undone(changes) == if changes == [] then [] else [changes[0].(down := !changes[0].down)]
  {
  }

  // Releasing what was just pressed restores the table and undoes every change, last first:
  // keys precede buttons on the way down and follow them on the way up.
  lemma ReleaseUndoesPress(t: Table, token: string, keys: seq<uint32>, mouseButtons: seq<uint32>)
    requires token !in t
    ensures var press := Pressed(t, token, keys, mouseButtons);
      Released(press.table, token) == Step(t, Undone(press.changes))
  {
    hide Raised, Lowered, Undone, Unique, Reverse, Holders;
    var h := Held(Unique(keys), Unique(mouseButtons));
    LoweringUndoesRaising(t, token, h, Key, h.keys);
    LoweringUndoesRaising(t, token, h, Mouse, h.mouseButtons);
    UndoneJoins(Raised(t, Key, h.keys), Raised(t, Mouse, h.mouseButtons));
    assert t[token := h] - {token} == t;
  }

  lemma {:induction false} RaisedKinds(t: Table, kind: Kind, codes: seq<uint32>)
    ensures forall c :: c in Raised(t, kind, codes) ==> c.kind == kind && c.down && Holders(t, kind, c.code) == {}
  {
    if codes != [] {
      RaisedKinds(t, kind, codes[..|codes| - 1]);
    }
  }

  lemma {:induction false} LoweredKinds(t: Table, token: string, kind: Kind, codes: seq<uint32>)
    ensures forall c :: c in Lowered(t, token, kind, codes) ==>
              c.kind == kind && !c.down && Holders(t, kind, c.code) == {token}
  {
    if codes != [] {
      LoweredKinds(t, token, kind, codes[..|codes| - 1]);
    }
  }

  // A press announces only downs of inputs nobody held, keys before buttons; a release only
  // ups of inputs nobody else holds, buttons before keys.
  lemma KeysInsideButtons(t: Table, token: string, keys: seq<uint32>, mouseButtons: seq<uint32>)
    ensures var downs, ups := Pressed(t, token, keys, mouseButtons).changes, Released(t, token).changes;
      && (forall c :: c in downs ==> c.down && Holders(t, c.kind, c.code) == {})
      && (forall i, j :: 0 <= i < j < |downs| ==> !(downs[i].kind.Mouse? && downs[j].kind.Key?))
      && (forall c :: c in ups ==> !c.down && Holders(t, c.kind, c.code) == {token})
      && (forall i, j :: 0 <= i < j < |ups| ==> !(ups[i].kind.Key? && ups[j].kind.Mouse?))
  {
    RaisedKinds(t, Key, Unique(keys));
    RaisedKinds(t, Mouse, Unique(mouseButtons));
    if token in t {
      LoweredKinds(t, token, Mouse, Reverse(t[token].mouseButtons));
      LoweredKinds(t, token, Key, Reverse(t[token].keys));
    }
    hide Holders, Raised, Lowered, Unique, Reverse;
  }

  // --------------------------------------------------- told from the calls alone

  // The presses that have not been released, by token. A token that is held ignores a press.
  ghost function Standing(calls: seq<Call>): map<string, Call>
    ensures forall token :: token in Standing(calls) ==> Standing(calls)[token].Press?
  {
    if calls == [] then map[]
    else
      var before, call := Standing(calls[..|calls| - 1]), calls[|calls| - 1];
      match call
      case Press(token, _, _) => if token in before then before else before[token := call]
      case Release(token) => before - {token}
  }

  // The keys and buttons that the standing presses asked for.
  ghost function Wanted(standing: map<string, Call>): set<Input>
    requires forall token :: token in standing ==> standing[token].Press?
  {
    (set token, code | token in standing && code in standing[token].keys :: Input(Key, code)) +
    (set token, code | token in standing && code in standing[token].mouseButtons :: Input(Mouse, code))
  }

  lemma {:induction false} TableStands(calls: seq<Call>)
    ensures var t, standing := Run(calls).table, Standing(calls);
      && t.Keys == standing.Keys
      && forall token :: token in t ==>
           && (forall c :: c in t[token].keys <==> c in standing[token].keys)
           && (forall c :: c in t[token].mouseButtons <==> c in standing[token].mouseButtons)
  {
    if calls != [] {
      TableStands(calls[..|calls| - 1]);
      var call := calls[|calls| - 1];
      if call.Press? {
        UniqueMeaning(call.keys);
        UniqueMeaning(call.mouseButtons);
      }
      hide Unique, Distinct, Raised, Lowered, Reverse;
    }
  }

  // Over every run the changes fold to exactly the keys and buttons that the standing presses
  // asked for, each as what it was asked for.
  lemma RunMeaning(calls: seq<Call>)
    ensures Replay(Run(calls).changes, {}) == Some(Wanted(Standing(calls)))
  {
    RunReplays(calls);
    TableStands(calls);
    hide Run, Standing, Replay, WellFormedTable;
    assert Down(Run(calls).table) == Wanted(Standing(calls));
  }

  // What each code is asked for first, in order: no code before one that is mentioned earlier.
  ghost predicate FirstMentions(part: seq<uint32>, codes: seq<uint32>) {
    forall i, j, l :: 0 <= i < j < |part| && 0 <= l < |codes| && codes[l] == part[j] ==> part[i] in codes[..l]
  }

  lemma {:induction false} UniqueInOrder(codes: seq<uint32>)
    ensures FirstMentions(Unique(codes), codes)
  {
    if codes != [] {
      var init, last := codes[..|codes| - 1], codes[|codes| - 1];
      assert codes == init + [last];
      UniqueInOrder(init);
      UniqueMeaning(init);
      UniqueStep(init, last);
    }
  }

  lemma UniqueStep(init: seq<uint32>, last: uint32)
    requires FirstMentions(Unique(init), init) && forall c :: c in Unique(init) <==> c in init
    ensures FirstMentions(Unique(init + [last]), init + [last])
  {
    var codes, part := init + [last], Unique(init);
    assert codes[..|init|] == init;
    var whole := Unique(codes);
    assert whole == if last in part then part else part + [last];
    hide Unique;
    forall i, j, l | 0 <= i < j < |whole| && 0 <= l < |codes| && codes[l] == whole[j] ensures whole[i] in codes[..l] {
      assert whole[i] == part[i] && part[i] in part;
      if l == |init| {
        assert codes[..l] == init;
      } else {
        assert init[l] in init && codes[..l] == init[..l];
        assert j < |part|;
      }
    }
  }

  // The changes are about codes in the order of their first mentions.
  ghost predicate ChangesInOrder(changes: seq<InputChange>, codes: seq<uint32>) {
    forall i, j, l :: 0 <= i < j < |changes| && 0 <= l < |codes| && codes[l] == changes[j].code ==>
      changes[i].code in codes[..l]
  }

  lemma {:induction false} RaisedInOrder(t: Table, kind: Kind, part: seq<uint32>, codes: seq<uint32>)
    requires FirstMentions(part, codes)
    ensures ChangesInOrder(Raised(t, kind, part), codes)
    ensures forall c :: c in Raised(t, kind, part) ==> c.kind == kind && c.code in part
  {
    if part != [] {
      var init, last := part[..|part| - 1], part[|part| - 1];
      assert part == init + [last];
      RaisedInOrder(t, kind, init, codes);
      var before, all := Raised(t, kind, init), Raised(t, kind, part);
      assert all == before || all == before + [InputChange(kind, last, true)];
      hide Raised, Holders;
      forall i, j,
      l | 0 <= i < j < |all| && 0 <= l < |codes| && codes[l] == all[j].code ensures all[i].code in codes[..l] {
        assert all[i] == before[i] && before[i] in before;
        if j == |before| {
          var k :| 0 <= k < |init| && init[k] == all[i].code;
          assert part[k] == all[i].code && part[|init|] == codes[l];
        }
      }
    }
  }

  // A press announces keys and then buttons, each in the order of its first mention.
  lemma PressInOrder(t: Table, token: string, keys: seq<uint32>, mouseButtons: seq<uint32>) returns (n: nat)
    requires token !in t
    ensures var downs := Pressed(t, token, keys, mouseButtons).changes;
      && n <= |downs|
      && (forall c :: c in downs[..n] ==> c.kind == Key) && (forall c :: c in downs[n..] ==> c.kind == Mouse)
      && ChangesInOrder(downs[..n], keys) && ChangesInOrder(downs[n..], mouseButtons)
  {
    var first, second := Raised(t, Key, Unique(keys)), Raised(t, Mouse, Unique(mouseButtons));
    n := |first|;
    assert (first + second)[..n] == first && (first + second)[n..] == second;
    UniqueInOrder(keys);
    UniqueInOrder(mouseButtons);
    RaisedInOrder(t, Key, Unique(keys), keys);
    RaisedInOrder(t, Mouse, Unique(mouseButtons), mouseButtons);
    hide Raised, Unique;
  }

  // ---------------------------------------------------------------- the object

  // QHash::operator[]: a code never counted stands at zero.
  function Count(counts: map<uint32, int>, code: uint32): int {
    if code in counts then counts[code] else 0
  }

  class HeldInputState {
    var held: Table
    var keys: map<uint32, int>
    var buttons: map<uint32, int>

    constructor ()
      ensures Valid() && held == map[]
    {
      held, keys, buttons := map[], map[], map[];
    }

    // Every counter stands at the number of tokens holding its code.
    ghost predicate Valid()
      reads this
    {
      && WellFormedTable(held)
      && Counts(keys, held, Key)
      && Counts(buttons, held, Mouse)
    }

    static method Deduplicate(codes: seq<uint32>) returns (unique: seq<uint32>)
      ensures unique == Unique(codes)
    {
      unique := [];
      var i := 0;
      while i < |codes|
        invariant 0 <= i <= |codes|
        invariant unique == Unique(codes[..i])
      {
        assert codes[..i + 1][..i] == codes[..i];
        if codes[i] !in unique {
          unique := unique + [codes[i]];
        }
        i := i + 1;
      }
      assert codes[..|codes|] == codes;
    }

    method Press(token: string, requestedKeys: seq<uint32>, requestedButtons: seq<uint32>)
        returns (changes: seq<InputChange>)
      requires Valid()
      modifies this
      ensures Valid()
      ensures Step(held, changes) == Pressed(old(held), token, requestedKeys, requestedButtons)
    {
      hide Holders;
      if token in held {
        return [];
      }
      var uniqueKeys := Deduplicate(requestedKeys);
      var uniqueButtons := Deduplicate(requestedButtons);
      UniqueMeaning(requestedKeys);
      UniqueMeaning(requestedButtons);
      ghost var before := held;
      var h := Held(uniqueKeys, uniqueButtons);
      held := held[token := h];
      var downKeys, downButtons;
      keys, downKeys := Raise(keys, Key, uniqueKeys, before, token, h);
      buttons, downButtons := Raise(buttons, Mouse, uniqueButtons, before, token, h);
      changes := downKeys + downButtons;
    }

    method Release(token: string) returns (changes: seq<InputChange>)
      requires Valid()
      modifies this
      ensures Valid()
      ensures Step(held, changes) == Released(old(held), token)
    {
      hide Holders;
      if token !in held {
        return [];
      }
      ghost var before := held;
      var h := held[token];
      held := held - {token};
      var upKeys, upButtons;
      buttons, upButtons := Lower(buttons, Mouse, h.mouseButtons, before, token);
      keys, upKeys := Lower(keys, Key, h.keys, before, token);
      changes := upButtons + upKeys;
    }
  }

  ghost predicate Counts(counts: map<uint32, int>, t: Table, kind: Kind) {
    forall c :: Count(counts, c) == |Holders(t, kind, c)|
  }

  // for (code : codes) if (++counts[code] == 1) announce it down
  method Raise(counts: map<uint32, int>, kind: Kind, codes: seq<uint32>,
               ghost before: Table, ghost token: string, ghost h: Held)
      returns (raised: map<uint32, int>, changes: seq<InputChange>)
    requires token !in before && Counts(counts, before, kind)
    requires codes == Codes(h, kind) && Distinct(codes)
    ensures Counts(raised, before[token := h], kind)
    ensures changes == Raised(before, kind, codes)
  {
    hide Holders, Raised, Codes;
    RaisedNothing(before, kind);
    raised, changes := counts, [];
    var i := 0;
    while i < |codes|
      invariant 0 <= i <= |codes|
      invariant forall c :: Count(raised, c) == Count(counts, c) + if c in codes[..i] then 1 else 0
      invariant changes == Raised(before, kind, codes[..i])
    {
      var code := codes[i];
      assert code !in codes[..i];
      assert codes[..i + 1] == codes[..i] + [code];
      RaisedLast(before, kind, codes[..i], code);
      assert Count(raised, code) == |Holders(before, kind, code)|;
      raised := raised[code := Count(raised, code) + 1];
      if raised[code] == 1 {
        changes := changes + [InputChange(kind, code, true)];
      }
      i := i + 1;
    }
    assert codes[..|codes|] == codes;
    forall c
      ensures Count(raised, c) == |Holders(before[token := h], kind, c)|
    {
      CountedPress(before, token, h, kind, c);
    }
  }

  // for (code in reverse) if (--counts[code] == 0) announce it up
  method Lower(counts: map<uint32, int>, kind: Kind, codes: seq<uint32>, ghost before: Table, ghost token: string)
      returns (lowered: map<uint32, int>, changes: seq<InputChange>)
    requires token in before && Counts(counts, before, kind)
    requires codes == Codes(before[token], kind) && Distinct(codes)
    ensures Counts(lowered, before - {token}, kind)
    ensures changes == Lowered(before, token, kind, Reverse(codes))
  {
    hide Holders, Lowered, Codes;
    LoweredNothing(before, token, kind);
    lowered, changes := counts, [];
    var i := |codes|;
    while i > 0
      invariant 0 <= i <= |codes|
      invariant forall c :: Count(lowered, c) == Count(counts, c) - if c in codes[i..] then 1 else 0
      invariant changes == Lowered(before, token, kind, Reverse(codes[i..]))
    {
      i := i - 1;
      var code := codes[i];
      assert code !in codes[i + 1..];
      assert codes[i..] == [code] + codes[i + 1..];
      CountedRelease(before, token, kind, code);
      LoweredLast(before, token, kind, Reverse(codes[i + 1..]), code);
      lowered := lowered[code := Count(lowered, code) - 1];
      if lowered[code] == 0 {
        changes := changes + [InputChange(kind, code, false)];
      }
    }
    assert codes[0..] == codes;
    forall c
      ensures Count(lowered, c) == |Holders(before - {token}, kind, c)|
    {
      CountedRelease(before, token, kind, c);
    }
  }

  lemma CountedPress(before: Table, token: string, h: Held, kind: Kind, c: uint32)
    requires token !in before
    ensures |Holders(before[token := h], kind, c)| ==
            |Holders(before, kind, c)| + if c in Codes(h, kind) then 1 else 0
  {
    HoldersWith(before, token, h, kind, c);
  }

  lemma CountedRelease(before: Table, token: string, kind: Kind, c: uint32)
    requires token in before
    ensures |Holders(before - {token}, kind, c)| ==
            |Holders(before, kind, c)| - if c in Codes(before[token], kind) then 1 else 0
    ensures c in Codes(before[token], kind) ==>
              (|Holders(before, kind, c)| == 1 <==> Holders(before, kind, c) == {token})
  {
    HoldersWithout(before, token, kind, c);
    if c in Codes(before[token], kind) {
      OnlyHolder(Holders(before, kind, c), token);
    }
  }

  lemma OnlyHolder(holders: set<string>, token: string)
    requires token in holders
    ensures |holders| == 1 <==> holders == {token}
  {
    assert holders == (holders - {token}) + {token};
  }
}
