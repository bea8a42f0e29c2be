// The observer that scans for game priority on a worker thread and fences stale results:
// src/controllers/game_priority_observer.cpp.

module PriorityObserver {
  import opened Basics
  import opened GamePriority

  // A scan posted to the worker, with the query captured when it was posted.
  datatype Scan = Scan(generation: uint64, focused: int, paths: set<string>)

  datatype Emission = Invalidated | Observed(state: GamePriorityState)

  // The fields, the scans in flight, the signals emitted, and two counts the source does not
  // keep: invalidations so far, and invalidations when the scan in flight was posted.
  datatype Observer = Observer(paths: set<string>, generation: uint64, focusedPid: int, consumerPresent: bool,
                               scanning: bool, inFlight: seq<Scan>, emitted: seq<Emission>, fences: nat, posted: nat)

  // A delivery answers the oldest scan in flight with what the worker found there.
  datatype Event =
    | Refresh(paths: set<string>, invalidate: bool)
    | Focus(pid: int)
    | Deliver(processes: seq<Process>)

  const INITIAL := Observer({}, 0, 0, false, false, [], [], 0, 0)

  function Posted(s: Observer): Observer {
    s.(scanning := true, inFlight := s.inFlight + [Scan(s.generation, s.focusedPid, s.paths)], posted := s.fences)
  }

  // ++m_generation; emit invalidated().
  function Fenced(s: Observer): Observer {
    s.(generation := ((s.generation as int + 1) % UINT64_LIMIT) as uint64, fences := s.fences + 1,
       emitted := s.emitted + [Invalidated])
  }

  function EnsureScan(s: Observer): Observer {
    if s.scanning then s else Posted(s)
  }

  // The worker's verdict on a scan.
  function Verdict(scan: Scan, processes: seq<Process>, self: int): GamePriorityState {
    Inspect(Reached(processes), scan.paths, scan.focused, self)
  }

  function Step(s: Observer, e: Event, self: int): Observer {
    match e
    case Refresh(paths, invalidate) =>
      EnsureScan(if invalidate || paths != s.paths then Fenced(s.(paths := paths)) else s)
    case Focus(pid) =>
      var focus := Max(pid, 0);
      if focus == s.focusedPid then s
      else
        var moved := s.(focusedPid := focus);
        if moved.paths == {} then moved
        else EnsureScan(if moved.consumerPresent then Fenced(moved) else moved)
    case Deliver(processes) =>
      if s.inFlight == [] then s
      else
        var scan, idle := s.inFlight[0], s.(scanning := false, inFlight := s.inFlight[1..]);
        var state := Verdict(scan, processes, self);
        if scan.generation != s.generation || (scan.focused != s.focusedPid && state.consumerPresent) then Posted(idle)
        else idle.(consumerPresent := state.consumerPresent, emitted := s.emitted + [Observed(state)])
  }

  function Run(events: seq<Event>, self: int): Observer {
    if events == [] then INITIAL
    else Step(Run(events[..|events| - 1], self), events[|events| - 1], self)
  }

  // invalidated was emitted and nothing has been observed since.
  predicate Owed(emitted: seq<Emission>) {
    emitted != [] && emitted[|emitted| - 1].Invalidated?
  }

  ghost predicate Sound(s: Observer) {
    && |s.inFlight| <= 1 && (s.scanning <==> |s.inFlight| == 1)
    && s.generation as int == s.fences % UINT64_LIMIT
    && (s.scanning ==>
          && s.posted <= s.fences && s.inFlight[0].generation as int == s.posted % UINT64_LIMIT
          && (s.posted == s.fences ==> s.inFlight[0].paths == s.paths))
    && (Owed(s.emitted) ==> s.scanning)
  }

  lemma FenceCounts(s: Observer)
    requires s.generation as int == s.fences % UINT64_LIMIT
    ensures Fenced(s).generation as int == (s.fences + 1) % UINT64_LIMIT
  {
    ModuloSuccessor(s.fences, UINT64_LIMIT);
  }

  lemma StepSound(s: Observer, e: Event, self: int)
    requires Sound(s)
    ensures Sound(Step(s, e, self))
  {
    FenceCounts(s);
    hide Verdict;
  }

  // Over every run: at most one scan is in flight, and while an invalidation is not yet
  // answered by an observation, one is.
  lemma {:induction false} RunSound(events: seq<Event>, self: int)
    ensures var s := Run(events, self);
      && Sound(s) && |s.inFlight| <= 1 && (Owed(s.emitted) ==> |s.inFlight| == 1)
  {
    if events != [] {
      RunSound(events[..|events| - 1], self);
      StepSound(Run(events[..|events| - 1], self), events[|events| - 1], self);
    }
  }

  // A delivery publishes exactly when no fence stands between the scan and now, counted modulo
  // the generation's 64 bits, and the focus is unchanged or does not matter. What it publishes
  // is then the verdict for the current paths and the current focus, unless the invalidations
  // during this one scan have gone all the way round.
  lemma PublishedIsCurrent(s: Observer, processes: seq<Process>, self: int)
    requires Sound(s) && s.inFlight != []
    ensures var next, scan := Step(s, Deliver(processes), self), s.inFlight[0];
      var state := Verdict(scan, processes, self);
      if (s.fences - s.posted) % UINT64_LIMIT == 0 && (scan.focused == s.focusedPid || !state.consumerPresent)
      then
        && next.emitted == s.emitted + [Observed(state)] && !next.scanning
        && (s.fences - s.posted < UINT64_LIMIT ==>
              state == Inspect(Reached(processes), next.paths, next.focusedPid, self))
      else next.emitted == s.emitted && next.inFlight == [Scan(next.generation, next.focusedPid, next.paths)]
  {
    var scan := s.inFlight[0];
    SameResidue(s.posted, s.fences, UINT64_LIMIT);
    FocusIndependent(Reached(processes), scan.paths, scan.focused, s.focusedPid, self);
    hide Inspect, Reached;
  }

  lemma SameResidue(a: nat, b: nat, m: int)
    requires m > 0 && a <= b
    ensures a % m == b % m <==> (b - a) % m == 0
    ensures (b - a) % m == 0 && b - a < m ==> a == b
  {
    var d := b - a;
    assert a == (a / m) * m + a % m && d == (d / m) * m + d % m;
    var q, r := a / m + d / m, a % m + d % m;
    assert b == q * m + r;
    if r < m {
      DivisionUnique(b, m, q, r);
    } else {
      assert b == (q + 1) * m + (r - m);
      DivisionUnique(b, m, q + 1, r - m);
    }
    if d < m {
      DivisionUnique(d, m, 0, d);
    }
  }

  function Refreshed(s: Observer, paths: set<string>, times: nat, self: int): Observer {
    if times == 0 then s else Step(Refreshed(s, paths, times - 1, self), Refresh(paths, true), self)
  }

  lemma {:induction false} RefreshedWhileScanning(s: Observer, paths: set<string>, times: nat, self: int)
    requires Sound(s) && s.scanning
    ensures var r := Refreshed(s, paths, times, self);
      && Sound(r) && r.scanning && r.inFlight == s.inFlight && r.posted == s.posted && r.fences == s.fences + times
      && r.focusedPid == s.focusedPid && (times > 0 ==> r.paths == paths)
  {
    if times > 0 {
      RefreshedWhileScanning(s, paths, times - 1, self);
      StepSound(Refreshed(s, paths, times - 1, self), Refresh(paths, true), self);
    }
  }

  // A process that holds the node and nothing else.
  function Holder(node: string, self: int): Process {
    Process(false, true, if self == 1 then 2 else 1, true, "", {node}, true, {}, "")
  }

  lemma HolderIsSeen(node: string, paths: set<string>, focused: int, self: int)
    ensures var state := Inspect(Reached([Holder(node, self)]), paths, focused, self);
      state.busyPaths == {node} * paths && !state.consumerPresent
  {
    var p := Holder(node, self);
    assert Reached([p]) == [p] && [p][..0] == [];
    assert Holds(p, paths, self) == {node} * paths;
    assert Inspect([p], paths, focused, self) == Visit(NOTHING, p, paths, focused, self);
  }

  // The delivery of the scan in flight publishes nothing or the verdict for the current paths
  // and focus.
  ghost predicate DeliversCurrent(s: Observer, processes: seq<Process>, self: int) {
    var next := Step(s, Deliver(processes), self);
    next.scanning || next.emitted == s.emitted + [Observed(Inspect(Reached(processes), s.paths, s.focusedPid, self))]
  }

  // Whatever the processes, what is published is current exactly when the invalidations during
  // this scan are not a positive multiple of 2^64, or have left the paths as they were.
  lemma PublishedIsCurrentIff(s: Observer, self: int)
    requires Sound(s) && s.scanning
    ensures (forall processes :: DeliversCurrent(s, processes, self)) <==>
              (s.fences - s.posted) % UINT64_LIMIT != 0 || s.inFlight[0].paths == s.paths
  {
    if (s.fences - s.posted) % UINT64_LIMIT != 0 || s.inFlight[0].paths == s.paths {
      forall processes ensures DeliversCurrent(s, processes, self) {
        CurrentDelivery(s, processes, self);
      }
    } else {
      var processes := StaleDelivery(s, self);
    }
  }

  lemma CurrentDelivery(s: Observer, processes: seq<Process>, self: int)
    requires Sound(s) && s.scanning
    requires (s.fences - s.posted) % UINT64_LIMIT != 0 || s.inFlight[0].paths == s.paths
    ensures DeliversCurrent(s, processes, self)
  {
    var scan := s.inFlight[0];
    SameResidue(s.posted, s.fences, UINT64_LIMIT);
    FocusIndependent(Reached(processes), scan.paths, scan.focused, s.focusedPid, self);
    hide Inspect, Reached;
  }

  lemma StaleDelivery(s: Observer, self: int) returns (processes: seq<Process>)
    requires Sound(s) && s.scanning && (s.fences - s.posted) % UINT64_LIMIT == 0 && s.inFlight[0].paths != s.paths
    ensures !DeliversCurrent(s, processes, self)
  {
    var scan := s.inFlight[0];
    var node :| node in scan.paths - s.paths + (s.paths - scan.paths);
    processes := [Holder(node, self)];
    HolderIsSeen(node, scan.paths, scan.focused, self);
    HolderIsSeen(node, s.paths, s.focusedPid, self);
    assert node in {node} * scan.paths <==> node !in {node} * s.paths;
    hide Inspect, Reached, Holder, Step, Sound;
    PublishedIsCurrent(s, processes, self);
    var published, current := Verdict(scan, processes, self), Inspect(Reached(processes), s.paths, s.focusedPid, self);
    assert published.busyPaths != current.busyPaths;
    LastDiffers(s.emitted, Observed(published), Observed(current));
  }

  lemma LastDiffers<T>(s: seq<T>, a: T, b: T)
    requires a != b
    ensures s + [a] != s + [b]
  {
    assert (s + [a])[|s|] == a;
  }

  // Such a run exists: when 2^64 invalidations during one scan have changed the paths, its
  // verdict for the old paths is published, and can differ from the verdict for the new ones.
  lemma FenceWrapsAround(s: Observer, paths: set<string>, self: int) returns (processes: seq<Process>)
    requires Sound(s) && s.scanning && s.posted == s.fences && s.inFlight[0].focused == s.focusedPid
    requires paths != s.inFlight[0].paths
    ensures var r := Refreshed(s, paths, UINT64_LIMIT, self);
      var published := Verdict(s.inFlight[0], processes, self);
      && Step(r, Deliver(processes), self).emitted == r.emitted + [Observed(published)]
      && r.paths == paths && published != Inspect(Reached(processes), r.paths, r.focusedPid, self)
  {
    var r := Refreshed(s, paths, UINT64_LIMIT, self);
    RefreshedWhileScanning(s, paths, UINT64_LIMIT, self);
    assert UINT64_LIMIT % UINT64_LIMIT == 0;
    processes := StaleDelivery(r, self);
    PublishedIsCurrent(r, processes, self);
    hide Inspect, Reached, Refreshed, Sound;
  }

  // What each event makes the observer announce and do: new paths or a demand invalidate; so does a
  // new focus while a consumer was last seen on watched paths; either leaves a scan in flight.
  lemma StepMeaning(s: Observer, e: Event, self: int)
    ensures var next := Step(s, e, self);
      match e
      case Refresh(paths, invalidate) =>
        && next.paths == paths && next.focusedPid == s.focusedPid && next.scanning
        && next.emitted == s.emitted + if invalidate || paths != s.paths then [Invalidated] else []
      case Focus(pid) =>
        var focus := if pid < 0 then 0 else pid;
        && next.paths == s.paths && next.focusedPid == focus
        && (if focus != s.focusedPid && s.paths != {} && s.consumerPresent
            then next.emitted == s.emitted + [Invalidated]
            else next.emitted == s.emitted)
        && (focus != s.focusedPid && s.paths != {} ==> next.scanning)
      case Deliver(processes) => next.paths == s.paths && next.focusedPid == s.focusedPid
  {
    hide Verdict;
  }

  // What was published last, if nothing has been invalidated since, is what a scan of some
  // processes finds for the current paths and the current focus.
  ghost predicate UpToDate(s: Observer, self: int) {
    s.emitted != [] && s.emitted[|s.emitted| - 1].Observed? ==>
      var state := s.emitted[|s.emitted| - 1].state;
      && state.consumerPresent == s.consumerPresent
      && exists processes :: state == Inspect(Reached(processes), s.paths, s.focusedPid, self)
  }

  lemma StepUpToDate(s: Observer, e: Event, self: int)
    requires Sound(s) && UpToDate(s, self) && s.fences < UINT64_LIMIT
    ensures UpToDate(Step(s, e, self), self)
  {
    match e {
      case Refresh(_, _) =>
        RefreshUpToDate(s, e, self);
      case Focus(pid) =>
        FocusUpToDate(s, pid, self);
      case Deliver(processes) =>
        if s.inFlight != [] {
          PublishedIsCurrent(s, processes, self);
          DeliveredConsumer(s, processes, self);
          hide Step, Inspect, Reached, Verdict;
        }
    }
  }

  lemma RefreshUpToDate(s: Observer, e: Event, self: int)
    requires e.Refresh? && UpToDate(s, self)
    ensures UpToDate(Step(s, e, self), self)
  {
    hide Inspect, Reached, Verdict;
  }

  lemma DeliveredConsumer(s: Observer, processes: seq<Process>, self: int)
    requires s.inFlight != []
    ensures var next, state := Step(s, Deliver(processes), self), Verdict(s.inFlight[0], processes, self);
      || (next.emitted == s.emitted && next.consumerPresent == s.consumerPresent)
      || (next.emitted == s.emitted + [Observed(state)] && next.consumerPresent == state.consumerPresent)
    ensures Step(s, Deliver(processes), self).paths == s.paths
    ensures Step(s, Deliver(processes), self).focusedPid == s.focusedPid
  {
    hide Verdict;
  }

  lemma FocusUpToDate(s: Observer, pid: int, self: int)
    requires UpToDate(s, self)
    ensures UpToDate(Step(s, Focus(pid), self), self)
  {
    StepMeaning(s, Focus(pid), self);
    var next := Step(s, Focus(pid), self);
    FocusKeepsConsumer(s, pid, self);
    hide Step, Inspect, Reached;
    if s.emitted != [] && s.emitted[|s.emitted| - 1].Observed? {
      var state := s.emitted[|s.emitted| - 1].state;
      var processes :| state == Inspect(Reached(processes), s.paths, s.focusedPid, self);
      if !state.consumerPresent || s.paths == {} {
        NoPathsNoConsumer(Reached(processes), s.focusedPid, self);
        FocusIndependent(Reached(processes), s.paths, s.focusedPid, next.focusedPid, self);
        assert state == Inspect(Reached(processes), s.paths, next.focusedPid, self);
      }
    }
  }

  lemma FocusKeepsConsumer(s: Observer, pid: int, self: int)
    ensures Step(s, Focus(pid), self).consumerPresent == s.consumerPresent
  {
  }

  lemma NoPathsNoConsumer(ps: seq<Process>, focused: int, self: int)
    ensures !Inspect(ps, {}, focused, self).consumerPresent
  {
    InspectDescribes(ps, {}, focused, self);
    assert forall p :: Holds(p, {}, self) == {};
    hide Inspect;
  }

  // Over every run with fewer than 2^64 invalidations: either one is owed and a scan in flight, or
  // what was published last is current.
  lemma {:induction false} RunUpToDate(events: seq<Event>, self: int)
    requires Run(events, self).fences < UINT64_LIMIT
    ensures UpToDate(Run(events, self), self)
    decreases |events|
  {
    if events != [] {
      var init, last := events[..|events| - 1], events[|events| - 1];
      FencesGrow(Run(init, self), last, self);
      RunUpToDate(init, self);
      RunSound(init, self);
      StepUpToDate(Run(init, self), last, self);
      hide Sound, UpToDate, Step;
    }
  }

  lemma FencesGrow(s: Observer, e: Event, self: int)
    ensures s.fences <= Step(s, e, self).fences
  {
    hide Verdict;
  }

  // Once nothing changes any more, two deliveries at most settle the matter: a scan that was
  // overtaken is followed by one whose verdict is current and is published.
  lemma QuietScanSettles(s: Observer, first: seq<Process>, second: seq<Process>, self: int)
    requires Sound(s) && s.scanning
    ensures var a := Step(s, Deliver(first), self);
      var b := Step(a, Deliver(second), self);
      && !b.scanning && b.inFlight == [] && !Owed(b.emitted)
      && if a.scanning
         then a.emitted == s.emitted &&
              b.emitted == s.emitted + [Observed(Inspect(Reached(second), s.paths, s.focusedPid, self))]
         else b == a && a.emitted == s.emitted + [Observed(Verdict(s.inFlight[0], first, self))]
  {
    StepSound(s, Deliver(first), self);
    hide Inspect, Reached;
  }

  // ---------------------------------------------------------------- the object

  class GamePriorityObserver {
    const self: int
    var paths: set<string>
    var generation: uint64
    var focusedPid: int
    var consumerPresent: bool
    var scanning: bool
    var inFlight: seq<Scan>
    var emitted: seq<Emission>
    ghost var fences: nat
    ghost var posted: nat

    constructor (self: int)
      ensures Value() == INITIAL && this.self == self
    {
      this.self := self;
      paths, generation, focusedPid, consumerPresent, scanning := {}, 0, 0, false, false;
      inFlight, emitted, fences, posted := [], [], 0, 0;
    }

    ghost function Value(): Observer
      reads this
    {
      Observer(paths, generation, focusedPid, consumerPresent, scanning, inFlight, emitted, fences, posted)
    }

    method Invalidate()
      modifies this`generation, this`emitted, this`fences
      ensures Value() == Fenced(old(Value()))
    {
      generation := if generation as int == UINT64_LIMIT - 1 then 0 else generation + 1;
      emitted := emitted + [Invalidated];
      fences := fences + 1;
    }

    method OnRefresh(newPaths: set<string>, invalidate: bool)
      modifies this
      ensures Value() == Step(old(Value()), Refresh(newPaths, invalidate), self)
    {
      if invalidate || newPaths != paths {
        paths := newPaths;
        Invalidate();
      }
      if !scanning {
        StartScan();
      }
    }

    method SetFocusedProcess(pid: int)
      modifies this
      ensures Value() == Step(old(Value()), Focus(pid), self)
    {
      var focus := Max(pid, 0);
      if focus == focusedPid {
        return;
      }
      focusedPid := focus;
      if paths == {} {
        return;
      }
      if consumerPresent {
        Invalidate();
      }
      if !scanning {
        StartScan();
      }
    }

    method StartScan()
      modifies this`scanning, this`inFlight, this`posted
      ensures Value() == Posted(old(Value()))
    {
      scanning := true;
      inFlight := inFlight + [Scan(generation, focusedPid, paths)];
      posted := fences;
    }

    // The worker inspects, and the result is delivered to the object's own thread.
    method OnDelivery(processes: seq<Process>)
      modifies this
      ensures Value() == Step(old(Value()), Deliver(processes), self)
    {
      hide Inspect, Reached, Describes;
      if inFlight == [] {
        return;
      }
      var scan := inFlight[0];
      inFlight := inFlight[1..];
      var state := InspectGamePriority(processes, scan.paths, scan.focused, self);
      scanning := false;
      if scan.generation != generation || (scan.focused != focusedPid && state.consumerPresent) {
        StartScan();
        return;
      }
      consumerPresent := state.consumerPresent;
      emitted := emitted + [Observed(state)];
    }
  }
}
