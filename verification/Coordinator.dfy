// The only public mutation surface: src/hybrid/topologycoordinator.cpp. One command is applied
// to a private candidate, offered to a scene transaction that may fail at either step, and
// published only after the scene has committed.

module Coordinator {
  import opened Basics
  import opened Containers
  import opened Topologies
  import opened TopologyProofs
  import opened TopologyMeaning
  import opened WindowTopologyObject

  datatype CommandError =
    | NoError | InvalidCommand | InvalidCandidate | RevisionExhausted | ReentrantExecution
    | SceneUnavailable | ScenePrepareFailed | SceneCommitFailed

  datatype CommandResult = CommandResult(error: CommandError, previousRevision: uint64, revision: uint64)

  // The scene is an adversary. It decides whether a transaction exists and whether each step
  // succeeds, and during every call it may submit further commands.
  datatype Scene =
    | Unavailable(duringCreate: seq<Command>)
    | Available(duringCreate: seq<Command>, duringPrepare: seq<Command>, prepareSucceeds: bool,
                duringCommit: seq<Command>, commitSucceeds: bool, duringRollback: seq<Command>)

  // What an observer of the scene and the repository sees, each call with the repository's
  // content at that time.
  datatype Event =
    | Prepared(repository: Topology, candidate: Topology, succeeded: bool)
    | Committed(repository: Topology, succeeded: bool)
    | RolledBack(repository: Topology)
    | Published(topology: Topology)

  function Failure(error: CommandError, revision: uint64): CommandResult {
    CommandResult(error, revision, revision)
  }

  const MAX_REVISION: uint64 := 0xFFFF_FFFF_FFFF_FFFF

  // ----------------------------------------------------------- specification

  datatype Execution = Execution(repository: Topology, result: CommandResult, events: seq<Event>)

  ghost function Executed(repository: Topology, command: Command, scene: Scene): Execution {
    var before := repository.revision;
    if before == MAX_REVISION then Execution(repository, Failure(RevisionExhausted, before), [])
    else
      match Apply(repository, command)
      case None => Execution(repository, Failure(InvalidCommand, before), [])
      case Some(applied) =>
        var candidate := Normalize(applied).(revision := before + 1);
        if !ValidTopology(candidate) then Execution(repository, Failure(InvalidCandidate, before), [])
        else if scene.Unavailable? then Execution(repository, Failure(SceneUnavailable, before), [])
        else
          var prepared := Prepared(repository, candidate, scene.prepareSucceeds);
          if !scene.prepareSucceeds then
            Execution(repository, Failure(ScenePrepareFailed, before), [prepared, RolledBack(repository)])
          else
            var committed := Committed(repository, scene.commitSucceeds);
            if !scene.commitSucceeds then
              Execution(repository, Failure(SceneCommitFailed, before), [prepared, committed, RolledBack(repository)])
            else
              Execution(candidate, CommandResult(NoError, before, before + 1),
                        [prepared, committed, Published(candidate)])
  }

  // One submitted command with the scene it meets.
  datatype Step = Step(command: Command, scene: Scene)

  // The commands of a run, each executed on what the previous one left.
  ghost function Run(repository: Topology, steps: seq<Step>): (r: Execution)
    decreases |steps|
  {
    if steps == [] then Execution(repository, Failure(NoError, repository.revision), [])
    else
      var init := Run(repository, steps[..|steps| - 1]);
      var last := steps[|steps| - 1];
      var step := Executed(init.repository, last.command, last.scene);
      step.(events := init.events + step.events)
  }

  // --------------------------------------------------------------- one command

  // The candidate the scene is shown is always valid, so InvalidCandidate never happens.
  lemma CandidateValid(repository: Topology, command: Command)
    requires ValidTopology(repository) && Apply(repository, command).Some?
    ensures var candidate := Normalize(Apply(repository, command).value);
      && ValidTopology(candidate)
      && AllWindows(candidate) == ExpectedWindows(repository, command)
      && HandlesStable(repository, candidate, command)
  {
    hide Apply;
    var applied := Apply(repository, command).value;
    ApplyKeeps(repository, command);
    NormalizeValidates(applied);
  }

  lemma RevisionIrrelevant(t: Topology, revision: uint64)
    ensures ValidTopology(t.(revision := revision)) <==> ValidTopology(t)
    ensures AllWindows(t.(revision := revision)) == AllWindows(t)
    ensures AllHandles(t.(revision := revision)) == AllHandles(t)
  {
  }

  lemma StagedAfter(t: Topology, command: Command)
    requires ValidTopology(t)
    ensures Staged(t)
    ensures Apply(t, command).Some? ==> Staged(Apply(t, command).value)
  {
    hide Apply;
    if Apply(t, command).Some? {
      ApplyKeeps(t, command);
    }
  }

  lemma ExecuteOutcome(repository: Topology, command: Command, scene: Scene)
    requires ValidTopology(repository)
    ensures var e := Executed(repository, command, scene);
      && e.result.error != InvalidCandidate
      && e.result.previousRevision == repository.revision
      && e.result.revision == e.repository.revision
      && ValidTopology(e.repository)
      && (if e.result.error == NoError
          then && e.repository.revision as int == repository.revision as int + 1
               && AllWindows(e.repository) == ExpectedWindows(repository, command)
               && HandlesStable(repository, e.repository, command)
               && Published(e.repository) in e.events
          else e.repository == repository && forall v :: v in e.events ==> !v.Published?)
  {
    hide Apply, ValidTopology, AllWindows, AllHandles, Normalize;
    if Apply(repository, command).Some? && repository.revision != MAX_REVISION {
      var normal := Normalize(Apply(repository, command).value);
      CandidateValid(repository, command);
      RevisionIrrelevant(normal, repository.revision + 1);
      var e := Executed(repository, command, scene);
      assert e.events != [] ==> e.events[|e.events| - 1] in e.events;
    }
  }

  // Every way an execution can end, told from the command and the scene alone.
  ghost function Verdict(repository: Topology, command: Command, scene: Scene): CommandError {
    if repository.revision == 0xFFFF_FFFF_FFFF_FFFF then RevisionExhausted
    else if Apply(repository, command).None? then InvalidCommand
    else if scene.Unavailable? then SceneUnavailable
    else if !scene.prepareSucceeds then ScenePrepareFailed
    else if !scene.commitSucceeds then SceneCommitFailed
    else NoError
  }

  // The next topology: what the command makes of this one, normalized, as the next revision.
  ghost function Successor(repository: Topology, command: Command): Topology
    requires repository.revision < MAX_REVISION && Apply(repository, command).Some?
  {
    Normalize(Apply(repository, command).value).(revision := repository.revision + 1)
  }

  // The error names the first thing that went wrong; a success publishes exactly the normalized
  // result of the command, which is also what the scene was asked to prepare.
  lemma ExecuteMeaning(repository: Topology, command: Command, scene: Scene)
    requires ValidTopology(repository)
    ensures var e := Executed(repository, command, scene);
      && e.result.error == Verdict(repository, command, scene)
      && (e.result.error == NoError ==> e.repository == Successor(repository, command))
      && (forall v :: v in e.events && v.Prepared? ==>
            && repository.revision < MAX_REVISION && Apply(repository, command).Some?
            && v.repository == repository && v.candidate == Successor(repository, command))
  {
    hide Apply, ValidTopology, AllWindows, AllHandles, Normalize;
    if Apply(repository, command).Some? && repository.revision != MAX_REVISION {
      CandidateValid(repository, command);
      RevisionIrrelevant(Normalize(Apply(repository, command).value), repository.revision + 1);
    }
  }

  // A command succeeds exactly when revisions are left, the topology accepts it and the scene
  // goes along; what is then published is what it makes of the topology, normalized.
  lemma ExecuteEffect(repository: Topology, command: Command, scene: Scene)
    requires ValidTopology(repository) && Room(repository)
    ensures var e := Executed(repository, command, scene);
      && (e.result.error == NoError <==>
            && repository.revision < MAX_REVISION && Accepts(repository, command)
            && scene.Available? && scene.prepareSucceeds && scene.commitSucceeds)
      && (e.result.error == NoError ==> exists made ::
            Makes(repository, made, command) && e.repository == Normalize(made).(revision := repository.revision + 1))
  {
    hide Executed, Apply, Accepts, Makes, ValidTopology, Staged, Room, Normalize;
    ValidIsStaged(repository);
    ExecuteMeaning(repository, command, scene);
    ApplyMeaning(repository, command);
  }

  lemma ValidIsStaged(t: Topology)
    requires ValidTopology(t)
    ensures Staged(t)
  {
  }

  // -------------------------------------------------------------- whole runs

  // The topologies that a run publishes, oldest first, told from its commands and scenes alone.
  ghost function PublishedBy(initial: Topology, steps: seq<Step>): seq<Topology>
    decreases |steps|
  {
    if steps == [] then []
    else
      var before := PublishedBy(initial, steps[..|steps| - 1]);
      var last, now := steps[|steps| - 1], Latest(initial, before);
      if Verdict(now, last.command, last.scene) == NoError then before + [Successor(now, last.command)] else before
  }

  // Over every run: each committed command publishes the normalized result of applying it to
  // what the previous one published, and no other command publishes anything.
  lemma {:induction false} RunFollows(initial: Topology, steps: seq<Step>)
    requires ValidTopology(initial)
    ensures var e := Run(initial, steps);
      Publications(e.events) == PublishedBy(initial, steps) && e.repository == Latest(initial, PublishedBy(initial,
      steps))
    decreases |steps|
  {
    hide Executed, ValidTopology, Verdict, Successor;
    if steps != [] {
      var init := Run(initial, steps[..|steps| - 1]);
      var last := steps[|steps| - 1];
      var step := Executed(init.repository, last.command, last.scene);
      RunSafe(initial, steps[..|steps| - 1]);
      RunFollows(initial, steps[..|steps| - 1]);
      ExecuteOutcome(init.repository, last.command, last.scene);
      ExecuteMeaning(init.repository, last.command, last.scene);
      ExecuteDisciplined(init.repository, last.command, last.scene);
      PublicationsJoin(init.events, step.events);
    }
  }

  // The discipline of a log: what is published was prepared as the next revision of what the
  // scene then saw, and committed while the repository still held that; a failed step is
  // followed by rollback and by nothing else of that transaction.
  ghost predicate Disciplined(log: seq<Event>) {
    forall i :: 0 <= i < |log| ==> DisciplinedAt(log, i)
  }

  ghost predicate DisciplinedAt(log: seq<Event>, i: nat)
    requires i < |log|
  {
    match log[i]
    case Prepared(before, candidate, succeeded) =>
      && ValidTopology(candidate) && candidate.revision as int == before.revision as int + 1
      && i + 1 < |log| &&
        log[i + 1] == (if succeeded then Committed(before,
        log[i + 1].Committed? && log[i + 1].succeeded) else RolledBack(before))
    case Committed(before, succeeded) =>
      && i > 0 && log[i - 1].Prepared? && log[i - 1].succeeded && log[i - 1].repository == before
      && i + 1 < |log| && log[i + 1] == (if succeeded then Published(log[i - 1].candidate) else RolledBack(before))
    case RolledBack(before) =>
      && i > 0 && (log[i - 1].Prepared? || log[i - 1].Committed?)
      && !log[i - 1].succeeded && log[i - 1].repository == before
    case Published(t) =>
      && i > 1 && log[i - 1].Committed? && log[i - 1].succeeded
      && log[i - 2] == Prepared(log[i - 1].repository, t, true)
  }

  // The topologies published, oldest first.
  ghost function Publications(log: seq<Event>): seq<Topology> {
    if log == [] then []
    else
      var rest := Publications(log[..|log| - 1]);
      if log[|log| - 1].Published? then rest + [log[|log| - 1].topology] else rest
  }

  // Every transaction starts from what the last publication left.
  ghost predicate SeesLatest(initial: Topology, log: seq<Event>) {
    forall i :: 0 <= i < |log| && log[i].Prepared? ==> log[i].repository == Latest(initial, Publications(log[..i]))
  }

  ghost function Latest(initial: Topology, published: seq<Topology>): Topology {
    if published == [] then initial else published[|published| - 1]
  }

  lemma {:induction false} PublicationsJoin(a: seq<Event>, b: seq<Event>)
    ensures Publications(a + b) == Publications(a) + Publications(b)
    decreases |b|
  {
    if b == [] {
      assert a + b == a;
    } else {
      var init := b[..|b| - 1];
      PublicationsJoin(a, init);
      assert (a + b)[..|a + b| - 1] == a + init;
      assert (a + b)[|a + b| - 1] == b[|b| - 1];
    }
  }

  lemma DisciplineJoins(a: seq<Event>, b: seq<Event>)
    requires Disciplined(a) && Disciplined(b)
    ensures Disciplined(a + b)
  {
    hide ValidTopology;
    var log := a + b;
    forall i | 0 <= i < |log| ensures DisciplinedAt(log, i) {
      if i < |a| {
        assert DisciplinedAt(a, i);
        assert i + 1 < |a| ==> log[i + 1] == a[i + 1];
        assert i > 0 ==> log[i - 1] == a[i - 1];
        assert i > 1 ==> log[i - 2] == a[i - 2];
      } else {
        var j := i - |a|;
        assert DisciplinedAt(b, j);
        assert j + 1 < |b| ==> log[i + 1] == b[j + 1];
        assert j > 0 ==> log[i - 1] == b[j - 1];
        assert j > 1 ==> log[i - 2] == b[j - 2];
      }
    }
  }

  lemma OneMoreEvent(log: seq<Event>, e: Event)
    ensures Publications(log + [e]) == Publications(log) + if e.Published? then [e.topology] else []
  {
    assert (log + [e])[..|log|] == log;
  }

  lemma TwoEvents(a: Event, b: Event)
    requires a.Prepared? && !b.Prepared? && !b.Published?
    ensures Publications([a, b]) == []
    ensures SeesLatest(a.repository, [a, b])
  {
    OneMoreEvent([], a);
    OneMoreEvent([a], b);
    assert [] + [a] == [a] && [a] + [b] == [a, b] && [a, b][..0] == [];
  }

  lemma ThreeEvents(a: Event, b: Event, c: Event)
    requires a.Prepared? && b.Committed? && !c.Prepared?
    ensures Publications([a, b, c]) == if c.Published? then [c.topology] else []
    ensures SeesLatest(a.repository, [a, b, c])
  {
    TwoEvents(a, b);
    OneMoreEvent([a, b], c);
    assert [a, b] + [c] == [a, b, c] && [a, b, c][..0] == [];
  }

  lemma ExecuteDisciplined(repository: Topology, command: Command, scene: Scene)
    ensures var e := Executed(repository, command, scene);
      && Disciplined(e.events)
      && Publications(e.events) == (if e.result.error == NoError then [e.repository] else [])
      && SeesLatest(repository, e.events)
  {
    hide Apply, ValidTopology, Normalize, Publications, SeesLatest;
    var events := Executed(repository, command, scene).events;
    if events == [] {
      NoEvents(repository);
    } else if |events| == 2 {
      TwoEvents(events[0], events[1]);
    } else {
      ThreeEvents(events[0], events[1], events[2]);
    }
  }

  lemma NoEvents(repository: Topology)
    ensures Publications([]) == [] && SeesLatest(repository, [])
  {
  }

  // Safety over every run against every scene, reentrant submissions included.
  lemma {:induction false} RunSafe(initial: Topology, steps: seq<Step>)
    requires ValidTopology(initial)
    ensures var e := Run(initial, steps);
      && ValidTopology(e.repository)
      && Disciplined(e.events)
      && e.repository == Latest(initial, Publications(e.events))
      && e.repository.revision as int == initial.revision as int + |Publications(e.events)|
      && SeesLatest(initial, e.events)
    decreases |steps|
  {
    hide Executed, ValidTopology;
    if steps == [] {
    } else {
      var init := Run(initial, steps[..|steps| - 1]);
      var last := steps[|steps| - 1];
      var step := Executed(init.repository, last.command, last.scene);
      RunSafe(initial, steps[..|steps| - 1]);
      ExecuteOutcome(init.repository, last.command, last.scene);
      ExecuteDisciplined(init.repository, last.command, last.scene);
      DisciplineJoins(init.events, step.events);
      PublicationsJoin(init.events, step.events);
      SeesLatestJoins(initial, init.events, step.events);
    }
  }

  lemma SeesLatestJoins(initial: Topology, a: seq<Event>, b: seq<Event>)
    requires SeesLatest(initial, a) && SeesLatest(Latest(initial, Publications(a)), b)
    ensures SeesLatest(initial, a + b)
  {
    hide Publications, Latest;
    forall i | 0 <= i < |a + b| && (a + b)[i].Prepared?
      ensures (a + b)[i].repository == Latest(initial, Publications((a + b)[..i]))
    {
      if i < |a| {
        assert (a + b)[..i] == a[..i];
      } else {
        assert (a + b)[..i] == a + b[..i - |a|];
        LatestJoin(initial, a, b[..i - |a|]);
      }
    }
  }

  lemma LatestJoin(initial: Topology, a: seq<Event>, b: seq<Event>)
    ensures Latest(initial, Publications(a + b)) == Latest(Latest(initial, Publications(a)), Publications(b))
  {
    PublicationsJoin(a, b);
    hide Publications;
  }

  // The windows a run leaves behind, told only by which commands were committed.
  ghost function ReplayedWindows(initial: Topology, steps: seq<Step>): set<string>
    decreases |steps|
  {
    if steps == [] then AllWindows(initial)
    else
      var init := steps[..|steps| - 1];
      var last := steps[|steps| - 1];
      var windows := ReplayedWindows(initial, init);
      if Executed(Run(initial, init).repository, last.command, last.scene).result.error != NoError then windows
      else match last.command
        case AddIndependentWindow(w) => windows + {w}
        case ForgetWindow(w) => windows - {w}
        case _ => windows
  }

  // No window is lost, duplicated or invented over a run: only committed AddIndependentWindow
  // and ForgetWindow commands change which windows are known.
  lemma {:induction false} RunConserves(initial: Topology, steps: seq<Step>)
    requires ValidTopology(initial)
    ensures AllWindows(Run(initial, steps).repository) == ReplayedWindows(initial, steps)
    decreases |steps|
  {
    hide Executed, ValidTopology, AllWindows;
    if steps == [] {
    } else {
      var init := steps[..|steps| - 1];
      var last := steps[|steps| - 1];
      RunSafe(initial, init);
      RunConserves(initial, init);
      ExecuteOutcome(Run(initial, init).repository, last.command, last.scene);
    }
  }

  // ------------------------------------------------------------------ objects

  class TopologyRepository {
    var topology: Topology

    constructor (initial: Topology)
      requires ValidTopology(initial)
      ensures topology == initial
    {
      topology := initial;
    }

    method Publish(candidate: WindowTopology)
      modifies this, candidate
      ensures topology == old(candidate.Value())
      ensures candidate.Value() == old(topology)
    {
      var previous := topology;
      topology := candidate.Value();
      candidate.revision := previous.revision;
      candidate.containers := previous.containers;
      candidate.independentWindows := previous.independent;
    }
  }

  class TopologyCoordinator {
    const repository: TopologyRepository
    var executing: bool
    ghost var events: seq<Event>

    constructor (repository: TopologyRepository)
      ensures this.repository == repository && !executing && events == []
    {
      this.repository := repository;
      executing := false;
      events := [];
    }

    // Commands submitted while one is executing are refused without effect.
    method SubmitAll(commands: seq<Command>)
      requires executing
      modifies this, repository
      ensures executing && repository.topology == old(repository.topology) && events == old(events)
      decreases 0, 1
    {
      var i := 0;
      while i < |commands|
        invariant executing && repository.topology == old(repository.topology) && events == old(events)
      {
        var result := Execute(commands[i], Unavailable([]));
        assert result.error == ReentrantExecution;
        i := i + 1;
      }
    }

    method Execute(command: Command, scene: Scene) returns (result: CommandResult)
      requires executing || ValidTopology(repository.topology)
      modifies this, repository
      ensures executing == old(executing)
      ensures old(executing) ==>
        && repository.topology == old(repository.topology) && events == old(events)
        && result == Failure(ReentrantExecution, old(repository.topology).revision)
      ensures !old(executing) ==>
        Execution(repository.topology, result, events)
          == var e := Executed(old(repository.topology), command, scene);
             e.(events := old(events) + e.events)
      decreases if executing then 0 else 1, 0
    {
      hide Topologies.Apply, Topologies.Normalize, ValidTopology;
      var beforeRevision := repository.topology.revision;
      if executing {
        return Failure(ReentrantExecution, beforeRevision);
      }
      executing := true;
      result := ExecuteGuarded(command, scene);
      executing := false;
    }

    // The body protected by the execution guard.
    method ExecuteGuarded(command: Command, scene: Scene) returns (result: CommandResult)
      requires executing && ValidTopology(repository.topology)
      modifies this, repository
      ensures executing
      ensures Execution(repository.topology, result, events)
        == var e := Executed(old(repository.topology), command, scene);
           e.(events := old(events) + e.events)
      decreases 0, 2
    {
      hide Topologies.Apply, Topologies.Normalize, ValidTopology, AllWindows, HandlesStable;
      ghost var t := repository.topology;
      var beforeRevision := repository.topology.revision;
      if beforeRevision == MAX_REVISION {
        return Failure(RevisionExhausted, beforeRevision);
      }
      StagedAfter(t, command);
      var candidate := new WindowTopology.CopyOf(repository.topology);
      var applied := candidate.Apply(command);
      if !applied {
        return Failure(InvalidCommand, beforeRevision);
      }
      candidate.Normalize();
      candidate.revision := beforeRevision + 1;
      var valid := candidate.Validate();
      if !valid {
        return Failure(InvalidCandidate, beforeRevision);
      }
      SubmitAll(scene.duringCreate);
      if scene.Unavailable? {
        return Failure(SceneUnavailable, beforeRevision);
      }
      SubmitAll(scene.duringPrepare);
      events := events + [Prepared(repository.topology, candidate.Value(), scene.prepareSucceeds)];
      if !scene.prepareSucceeds {
        SubmitAll(scene.duringRollback);
        events := events + [RolledBack(repository.topology)];
        return Failure(ScenePrepareFailed, beforeRevision);
      }
      SubmitAll(scene.duringCommit);
      events := events + [Committed(repository.topology, scene.commitSucceeds)];
      if !scene.commitSucceeds {
        SubmitAll(scene.duringRollback);
        events := events + [RolledBack(repository.topology)];
        return Failure(SceneCommitFailed, beforeRevision);
      }
      ghost var published := candidate.Value();
      repository.Publish(candidate);
      events := events + [Published(published)];
      return CommandResult(NoError, beforeRevision, beforeRevision + 1);
    }
  }
}
