// Which processes hold a controller, and whether one of them is the focused game:
// inspectGamePriority of src/controllers/game_priority.cpp. A process is what the scan reads
// of it.

module GamePriority {
  import opened Basics

  datatype Process = Process(
    interrupted: bool,      // an interruption was requested when the scan reached it
    numeric: bool,          // the directory names a process
    pid: int,
    ours: bool,             // it runs as this user
    comm: string,
    open: set<string>,      // the nodes its descriptors name
    passive: bool,          // a web engine that opens every gamepad
    applications: set<int>, // the focused processes whose application it belongs to
    displayName: string)

  datatype GamePriorityState = GamePriorityState(
    steam: bool, busyPaths: set<string>, gamePaths: set<string>, consumerPresent: bool,
    gameConsumers: map<string, string>)

  const NOTHING := GamePriorityState(false, {}, {}, false, map[])

  // QString's operator<: lexicographic by code unit.
  predicate Less(a: string, b: string) {
    if b == [] then false
    else if a == [] then true
    else a[0] < b[0] || (a[0] == b[0] && Less(a[1..], b[1..]))
  }

  predicate Counts(p: Process, self: int) {
    p.numeric && p.pid != self && p.ours
  }

  predicate IsSteam(p: Process) {
    p.comm == "steam" || p.comm == "steamwebhelper" || p.comm == "steam.exe"
  }

  // The watched nodes a counted process holds open.
  function Holds(p: Process, paths: set<string>, self: int): set<string> {
    if Counts(p, self) then p.open * paths else {}
  }

  predicate Consumes(p: Process, paths: set<string>, self: int) {
    Holds(p, paths, self) != {} && !p.passive
  }

  predicate Plays(p: Process, paths: set<string>, focused: int, self: int) {
    Consumes(p, paths, self) && focused in p.applications
  }

  // ---------------------------------------------------------------- the result

  // The processes the scan gets to.
  function Reached(processes: seq<Process>): seq<Process> {
    if processes == [] || processes[0].interrupted then []
    else [processes[0]] + Reached(processes[1..])
  }

  ghost predicate Labelled(ps: seq<Process>, paths: set<string>, focused: int, self: int, path: string, name: string) {
    exists p :: p in ps && Plays(p, paths, focused, self) && path in Holds(p, paths, self) && p.displayName == name
  }

  // What the scan of these processes must report: whether Steam runs and a consumer is present,
  ghost predicate FlagsRight(state: GamePriorityState, ps: seq<Process>, paths: set<string>, self: int) {
    && (state.steam <==> exists p :: p in ps && Counts(p, self) && IsSteam(p))
    && (state.consumerPresent <==> exists p :: p in ps && Consumes(p, paths, self))
  }

  // which nodes are held, and which of them by the focused game,
  ghost predicate PathsRight(state: GamePriorityState, ps: seq<Process>, paths: set<string>, focused: int, self: int) {
    && (forall path :: path in state.busyPaths <==> exists p :: p in ps && path in Holds(p, paths, self))
    && (forall path :: path in state.gamePaths <==>
          exists p :: p in ps && Plays(p, paths, focused, self) && path in Holds(p, paths, self))
    && state.gameConsumers.Keys == state.gamePaths
  }

  // and the least name of a game for each of those.
  ghost predicate Least(ps: seq<Process>, paths: set<string>, focused: int, self: int, path: string, name: string) {
    && Labelled(ps, paths, focused, self, path, name)
    && forall other :: Labelled(ps, paths, focused, self, path, other) ==> !Less(other, name)
  }

  ghost predicate NamesRight(state: GamePriorityState, ps: seq<Process>, paths: set<string>, focused: int, self: int) {
    forall path :: path in state.gameConsumers ==> Least(ps, paths, focused, self, path, state.gameConsumers[path])
  }

  ghost predicate Describes(state: GamePriorityState, ps: seq<Process>, paths: set<string>, focused: int, self: int) {
    && FlagsRight(state, ps, paths, self)
    && PathsRight(state, ps, paths, focused, self)
    && NamesRight(state, ps, paths, focused, self)
  }

  function Labels(consumers: map<string, string>, held: set<string>, name: string): map<string, string> {
    map path | path in consumers.Keys + held ::
      if path !in held then consumers[path]
      else if path in consumers && !Less(name, consumers[path]) then consumers[path]
      else name
  }

  function Visit(state: GamePriorityState, p: Process, paths: set<string>, focused: int, self: int): GamePriorityState {
    if !Counts(p, self) then state
    else
      var seen := if IsSteam(p) then state.(steam := true) else state;
      var held := Holds(p, paths, self);
      if held == {} then seen
      else
        var busy := seen.(busyPaths := seen.busyPaths + held);
        if p.passive then busy
        else if focused !in p.applications then busy.(consumerPresent := true)
        else busy.(consumerPresent := true, gamePaths := busy.gamePaths + held,
                   gameConsumers := Labels(busy.gameConsumers, held, p.displayName))
  }

  function Inspect(ps: seq<Process>, paths: set<string>, focused: int, self: int): GamePriorityState {
    if ps == [] then NOTHING
    else Visit(Inspect(ps[..|ps| - 1], paths, focused, self), ps[|ps| - 1], paths, focused, self)
  }

  // -------------------------------------------------------------------- the order

  lemma {:induction false} LessLaws(a: string, b: string, c: string)
    ensures !Less(a, a)
    ensures Less(a, b) && Less(b, c) ==> Less(a, c)
    ensures !Less(a, b) && !Less(b, a) ==> a == b
    decreases |a|
  {
    if a != [] && b != [] && c != [] {
      LessLaws(a[1..], b[1..], c[1..]);
      assert a == [a[0]] + a[1..] && b == [b[0]] + b[1..];
    } else if a != [] {
      LessLaws(a[1..], a[1..], a[1..]);
      if b != [] {
        LessLaws(a[1..], b[1..], b[1..]);
        assert a == [a[0]] + a[1..] && b == [b[0]] + b[1..];
      }
    }
  }

  // ------------------------------------------------------------------- theorems

  lemma OneMore(ps: seq<Process>, last: Process, p: Process)
    ensures p in ps + [last] <==> p in ps || p == last
  {
  }

  // The description, one process further.
  lemma FlagsStep(state: GamePriorityState, init: seq<Process>, last: Process, paths: set<string>, focused: int,
                  self: int)
    requires FlagsRight(state, init, paths, self)
    ensures FlagsRight(Visit(state, last, paths, focused, self), init + [last], paths, self)
  {
    hide IsSteam, Counts;
    assert last in init + [last];
    forall p
      ensures p in init + [last] <==> p in init || p == last
    {
      OneMore(init, last, p);
    }
    assert Holds(last, paths, self) != {} ==> Counts(last, self) by {
      HoldsCounts(last, paths, self);
    }
  }

  lemma HoldsCounts(p: Process, paths: set<string>, self: int)
    ensures Holds(p, paths, self) != {} ==> Counts(p, self)
  {
  }

  lemma PathsStep(state: GamePriorityState, init: seq<Process>, last: Process, paths: set<string>, focused: int,
                  self: int)
    requires PathsRight(state, init, paths, focused, self)
    ensures PathsRight(Visit(state, last, paths, focused, self), init + [last], paths, focused, self)
  {
    hide IsSteam, Counts, Holds, Less;
    HoldsCounts(last, paths, self);
    assert last in init + [last];
    forall p
      ensures p in init + [last] <==> p in init || p == last
    {
      OneMore(init, last, p);
    }
  }

  lemma LabelledStep(init: seq<Process>, last: Process, paths: set<string>, focused: int, self: int, path: string,
                     name: string)
    ensures Labelled(init + [last], paths, focused, self, path, name) <==>
      Labelled(init, paths, focused, self, path, name) ||
      (Plays(last, paths, focused, self) && path in Holds(last, paths, self) && name == last.displayName)
  {
    hide Plays, Holds;
    assert last in init + [last];
    if p :| p in init && Plays(p, paths, focused, self) && path in Holds(p, paths, self) && p.displayName == name {
      assert p in init + [last];
    }
  }

  // What Visit does to the names.
  lemma VisitNames(state: GamePriorityState, last: Process, paths: set<string>, focused: int, self: int)
    ensures Visit(state, last, paths, focused, self).gameConsumers ==
      if Plays(last, paths, focused, self) then Labels(state.gameConsumers, Holds(last, paths, self), last.displayName)
      else state.gameConsumers
  {
  }

  lemma LeastStep(state: GamePriorityState, init: seq<Process>, last: Process, paths: set<string>, focused: int,
                  self: int,
                  path: string)
    requires forall q :: q in state.gameConsumers ==> Least(init, paths, focused, self, q, state.gameConsumers[q])
    requires forall q, name :: Labelled(init, paths, focused, self, q, name) ==> q in state.gameConsumers
    requires path in Visit(state, last, paths, focused, self).gameConsumers
    ensures Least(init + [last], paths, focused, self, path,
                  Visit(state, last, paths, focused, self).gameConsumers[path])
  {
    VisitNames(state, last, paths, focused, self);
    var chosen := Visit(state, last, paths, focused, self).gameConsumers[path];
    hide Visit, Plays, Holds, Labelled, Less;
    LabelledStep(init, last, paths, focused, self, path, chosen);
    LessLaws(last.displayName, last.displayName, last.displayName);
    forall other | Labelled(init + [last], paths, focused, self, path, other)
      ensures !Less(other, chosen)
    {
      LabelledStep(init, last, paths, focused, self, path, other);
      if path in state.gameConsumers {
        LessLaws(other, last.displayName, state.gameConsumers[path]);
        LessLaws(last.displayName, state.gameConsumers[path], other);
      }
    }
  }

  lemma LabelledPlays(ps: seq<Process>, paths: set<string>, focused: int, self: int, path: string, name: string)
    requires Labelled(ps, paths, focused, self, path, name)
    ensures exists p :: p in ps && Plays(p, paths, focused, self) && path in Holds(p, paths, self)
  {
  }

  lemma NamesStep(state: GamePriorityState, init: seq<Process>, last: Process, paths: set<string>, focused: int,
                  self: int)
    requires PathsRight(state, init, paths, focused, self) && NamesRight(state, init, paths, focused, self)
    ensures NamesRight(Visit(state, last, paths, focused, self), init + [last], paths, focused, self)
  {
    hide Visit, Plays, Holds, Labelled, Less, Least;
    forall q, name | Labelled(init, paths, focused, self, q, name)
      ensures q in state.gameConsumers
    {
      LabelledPlays(init, paths, focused, self, q, name);
    }
    forall path | path in Visit(state, last, paths, focused, self).gameConsumers
      ensures Least(init + [last], paths, focused, self, path,
                    Visit(state, last, paths, focused, self).gameConsumers[path])
    {
      LeastStep(state, init, last, paths, focused, self, path);
    }
  }

  lemma DescribesStep(state: GamePriorityState, init: seq<Process>, last: Process, paths: set<string>, focused: int,
                      self: int)
    requires Describes(state, init, paths, focused, self)
    ensures Describes(Visit(state, last, paths, focused, self), init + [last], paths, focused, self)
  {
    hide Visit, FlagsRight, PathsRight, NamesRight;
    FlagsStep(state, init, last, paths, focused, self);
    PathsStep(state, init, last, paths, focused, self);
    NamesStep(state, init, last, paths, focused, self);
  }

  // The scan reports what it should of the processes it is given.
  lemma {:induction false} InspectDescribes(ps: seq<Process>, paths: set<string>, focused: int, self: int)
    ensures Describes(Inspect(ps, paths, focused, self), ps, paths, focused, self)
  {
    if ps != [] {
      var init, last := ps[..|ps| - 1], ps[|ps| - 1];
      InspectDescribes(init, paths, focused, self);
      hide Describes, Visit;
      DescribesStep(Inspect(init, paths, focused, self), init, last, paths, focused, self);
      assert ps == init + [last];
    }
  }

  // The description leaves no choice, so the order in which the directory lists the processes
  // does not matter, not even for the names.
  lemma OrderDoesNotMatter(a: seq<Process>, b: seq<Process>, paths: set<string>, focused: int, self: int)
    requires forall p :: p in a <==> p in b
    ensures Inspect(a, paths, focused, self) == Inspect(b, paths, focused, self)
  {
    var x, y := Inspect(a, paths, focused, self), Inspect(b, paths, focused, self);
    InspectDescribes(a, paths, focused, self);
    InspectDescribes(b, paths, focused, self);
    hide Inspect, Plays, Holds, Counts, IsSteam, Consumes, Less;
    assert x.busyPaths == y.busyPaths && x.gamePaths == y.gamePaths;
    forall path | path in x.gameConsumers
      ensures x.gameConsumers[path] == y.gameConsumers[path]
    {
      var m, n := x.gameConsumers[path], y.gameConsumers[path];
      assert Labelled(a, paths, focused, self, path, n) && Labelled(b, paths, focused, self, path, m);
      LessLaws(m, n, m);
    }
  }

  // While no consumer is present, the focus cannot change the result; and whether one is
  // present never depends on the focus.
  lemma {:induction false} FocusIndependent(ps: seq<Process>, paths: set<string>, f: int, g: int, self: int)
    ensures Inspect(ps, paths, f, self).consumerPresent == Inspect(ps, paths, g, self).consumerPresent
    ensures !Inspect(ps, paths, f, self).consumerPresent ==> Inspect(ps, paths, f, self) == Inspect(ps, paths, g, self)
  {
    var x, y := Inspect(ps, paths, f, self), Inspect(ps, paths, g, self);
    InspectDescribes(ps, paths, f, self);
    InspectDescribes(ps, paths, g, self);
    hide Inspect, Holds, Counts, IsSteam, Consumes, Less, Labelled;
    assert x.busyPaths == y.busyPaths;
    if !x.consumerPresent {
      assert x.gamePaths == {} == y.gamePaths;
      assert x.gameConsumers == map[] == y.gameConsumers;
    }
  }

  // Two names are compared at the first place where they differ, and a beginning comes first.
  lemma {:induction false} LessMeaning(a: string, b: string)
    ensures Less(a, b) <==> exists k: nat :: k <= |a| && k < |b| && a[..k] == b[..k] && (k == |a| || a[k] < b[k])
    decreases |a|
  {
    if Less(a, b) {
      var k := FirstDifference(a, b);
    }
    if k: nat :| k <= |a| && k < |b| && a[..k] == b[..k] && (k == |a| || a[k] < b[k]) {
      DecidesAt(a, b, k);
    }
  }

  lemma {:induction false} FirstDifference(a: string, b: string) returns (k: nat)
    requires Less(a, b)
    ensures k <= |a| && k < |b| && a[..k] == b[..k] && (k == |a| || a[k] < b[k])
    decreases |a|
  {
    if a == [] || a[0] < b[0] {
      k := 0;
    } else {
      var n := FirstDifference(a[1..], b[1..]);
      k := n + 1;
      assert a[..k] == [a[0]] + a[1..][..n] && b[..k] == [b[0]] + b[1..][..n];
    }
  }

  lemma {:induction false} DecidesAt(a: string, b: string, k: nat)
    requires k <= |a| && k < |b| && a[..k] == b[..k] && (k == |a| || a[k] < b[k])
    ensures Less(a, b)
    decreases k
  {
    if k > 0 {
      assert a[0] == a[..k][0] && b[0] == b[..k][0];
      assert a[1..][..k - 1] == a[..k][1..] && b[1..][..k - 1] == b[..k][1..];
      DecidesAt(a[1..], b[1..], k - 1);
    }
  }

  // The report, told from what the processes are.
  lemma InspectMeaning(ps: seq<Process>, paths: set<string>, focused: int, self: int)
    ensures var state := Inspect(ps, paths, focused, self);
      && (state.steam <==> exists p :: p in ps && p.numeric && p.pid != self && p.ours &&
                                       p.comm in ["steam", "steamwebhelper", "steam.exe"])
      && (state.consumerPresent <==> exists p, path :: p in ps && p.numeric && p.pid != self && p.ours && !p.passive &&
                                                       path in p.open && path in paths)
      && (forall path :: path in state.busyPaths <==>
            path in paths && exists p :: p in ps && p.numeric && p.pid != self && p.ours && path in p.open)
      && (forall path :: path in state.gamePaths <==>
            path in paths && exists p :: p in ps && p.numeric && p.pid != self && p.ours && !p.passive &&
                                         focused in p.applications && path in p.open)
  {
    InspectDescribes(ps, paths, focused, self);
    forall p, path
      ensures path in Holds(p, paths, self) <==>
                p.numeric && p.pid != self && p.ours && path in p.open && path in paths
      ensures Consumes(p, paths, self) <==> !p.passive && exists path :: path in Holds(p, paths, self)
      ensures Counts(p, self) && IsSteam(p) <==>
                p.numeric && p.pid != self && p.ours && p.comm in ["steam", "steamwebhelper", "steam.exe"]
    {
      FieldsAt(p, paths, self, path);
    }
    hide Inspect, NamesRight, Holds, Consumes, Counts, IsSteam;
  }

  lemma FieldsAt(p: Process, paths: set<string>, self: int, path: string)
    ensures path in Holds(p, paths, self) <==>
              p.numeric && p.pid != self && p.ours && path in p.open && path in paths
    ensures Consumes(p, paths, self) <==> !p.passive && exists path :: path in Holds(p, paths, self)
    ensures Counts(p, self) && IsSteam(p) <==>
              p.numeric && p.pid != self && p.ours && p.comm in ["steam", "steamwebhelper", "steam.exe"]
  {
  }

  // ------------------------------------------------------------------- the loop

  method InspectGamePriority(processes: seq<Process>, paths: set<string>, focused: int, self: int)
      returns (state: GamePriorityState)
    ensures state == Inspect(Reached(processes), paths, focused, self)
    ensures Describes(state, Reached(processes), paths, focused, self)
  {
    InspectDescribes(Reached(processes), paths, focused, self);
    hide Describes, Visit, Inspect, Reached;
    state := NOTHING;
    Beginning(processes, paths, focused, self);
    var i := 0;
    while i < |processes|
      invariant 0 <= i <= |processes|
      invariant Reached(processes) == processes[..i] + Reached(processes[i..])
      invariant state == Inspect(processes[..i], paths, focused, self)
    {
      ReachedAt(processes, i);
      if processes[i].interrupted {
        break;
      }
      InspectOneMore(processes, i, paths, focused, self);
      state := VisitProcess(state, processes[i], paths, focused, self);
      i := i + 1;
    }
    ReachedEnd(processes, i);
  }

  lemma Beginning(processes: seq<Process>, paths: set<string>, focused: int, self: int)
    ensures Reached(processes) == processes[..0] + Reached(processes[0..])
    ensures Inspect(processes[..0], paths, focused, self) == NOTHING
  {
    assert processes[0..] == processes;
  }

  // One process further, unless the scan is interrupted there.
  lemma ReachedAt(processes: seq<Process>, i: nat)
    requires i < |processes|
    ensures processes[i].interrupted ==> Reached(processes[i..]) == []
    ensures !processes[i].interrupted ==>
              processes[..i] + Reached(processes[i..]) == processes[..i + 1] + Reached(processes[i + 1..])
  {
    assert processes[i..][1..] == processes[i + 1..];
    assert processes[..i + 1] == processes[..i] + [processes[i]];
  }

  lemma ReachedEnd(processes: seq<Process>, i: nat)
    requires i <= |processes|
    ensures i == |processes| ==> Reached(processes[i..]) == []
    ensures processes[..i] + [] == processes[..i]
  {
  }

  lemma InspectOneMore(processes: seq<Process>, i: nat, paths: set<string>, focused: int, self: int)
    requires i < |processes|
    ensures Inspect(processes[..i + 1], paths, focused, self) ==
            Visit(Inspect(processes[..i], paths, focused, self), processes[i], paths, focused, self)
  {
    hide Visit;
    assert processes[..i + 1][..i] == processes[..i];
  }

  // The body of the loop.
  method VisitProcess(before: GamePriorityState, p: Process, paths: set<string>, focused: int, self: int)
      returns (state: GamePriorityState)
    ensures state == Visit(before, p, paths, focused, self)
  {
    hide Labels;
    state := before;
    if !p.numeric || p.pid == self || !p.ours {
      return;
    }
    if p.comm == "steam" || p.comm == "steamwebhelper" || p.comm == "steam.exe" {
      state := state.(steam := true);
    }
    if paths == {} {
      return;
    }
    var held := p.open * paths;
    if held == {} {
      return;
    }
    state := state.(busyPaths := state.busyPaths + held);
    if p.passive {
      return;
    }
    state := state.(consumerPresent := true);
    if focused !in p.applications {
      return;
    }
    state := state.(gamePaths := state.gamePaths + held,
                    gameConsumers := Labels(state.gameConsumers, held, p.displayName));
  }
}
