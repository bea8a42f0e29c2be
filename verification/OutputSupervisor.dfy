// One lock window per output, retried with bounded backoff:
// src/lock_greeter/output_window_supervisor.cpp and src/lock_greeter/retry_backoff.h.

module OutputSupervisor {
  import opened Basics

  // ------------------------------------------------------------------- backoff

  // Delays in milliseconds.
  datatype RetryBackoff = RetryBackoff(initial: int, maximum: int, upcoming: int, failures: uint32)

  function Backoff(initial: int, maximum: int): RetryBackoff {
    RetryBackoff(Min(initial, maximum), maximum, Min(initial, maximum), 0)
  }

  // next(): the delay handed out is b.upcoming. The counter is unsigned and wraps.
  function Advanced(b: RetryBackoff): RetryBackoff {
    b.(upcoming := Min(b.maximum, b.upcoming * 2), failures := ((b.failures as int + 1) % 0x1_0000_0000) as uint32)
  }

  function Reset(b: RetryBackoff): RetryBackoff {
    b.(upcoming := b.initial, failures := 0)
  }

  function AfterFailures(b: RetryBackoff, k: nat): RetryBackoff {
    if k == 0 then b else Advanced(AfterFailures(b, k - 1))
  }

  function PowerOfTwo(k: nat): nat {
    if k == 0 then 1 else 2 * PowerOfTwo(k - 1)
  }

  function DelayAfter(initial: int, maximum: int, k: nat): int {
    Min(maximum, initial * PowerOfTwo(k))
  }

  // The first count of milliseconds whose double is out of range.
  const TOO_LONG: nat := 0x4000_0000_0000_0000

  // After k consecutive failures the next delay is the initial one doubled k times, up to the
  // maximum, and doubling it again stays in range.
  lemma {:induction false} BackoffDoubles(initial: int, maximum: int, k: nat)
    requires 0 <= initial && 0 <= maximum < TOO_LONG
    ensures var b := AfterFailures(Backoff(initial, maximum), k);
      && b.upcoming == DelayAfter(Min(initial, maximum), maximum, k)
      && 0 <= b.upcoming * 2 < 2 * TOO_LONG
      && b.failures as int == k % 0x1_0000_0000
      && b.initial == Min(initial, maximum) && b.maximum == maximum
      && Reset(b) == Backoff(initial, maximum)
  {
    if k > 0 {
      BackoffDoubles(initial, maximum, k - 1);
      PowerPositive(k - 1);
      DoublingStep(Min(initial, maximum), maximum, PowerOfTwo(k - 1));
      ModuloSuccessor(k - 1, 0x1_0000_0000);
    }
  }

  lemma DoublingStep(m: int, maximum: int, p: nat)
    requires 0 <= m <= maximum && p >= 1
    ensures Min(maximum, Min(maximum, m * p) * 2) == Min(maximum, m * (2 * p))
  {
    var x := m * p;
    assert m * (2 * p) == 2 * x;
  }

  lemma {:induction false} PowerPositive(k: nat)
    ensures PowerOfTwo(k) >= 1
  {
    if k > 0 {
      PowerPositive(k - 1);
    }
  }

  const FIRST_DELAY := 250
  const LONGEST_DELAY := 30_000

  function FreshBackoff(): RetryBackoff {
    Backoff(FIRST_DELAY, LONGEST_DELAY)
  }

  // --------------------------------------------------------------- the outputs

  // The address of a screen, never dereferenced.
  type Output = nat

  datatype Entry = Entry(window: bool, retry: bool, backoff: RetryBackoff)

  // What the factory and the scheduler were told, in order.
  datatype Note = Opened(output: Output) | Forgotten(output: Output) | Delayed(output: Output, delay: int)

  // The supervisor's map beside the windows that exist and the timers that run.
  datatype Supervisor = Supervisor(outputs: map<Output, Entry>, windows: multiset<Output>, timers: set<Output>,
                                   history: seq<Note>)

  datatype Result = Created | NotAnOutput | Failed

  // An event carries what happens if it leads to a creation: the events delivered while the
  // window is being created, and the result.
  datatype Event =
    | Added(output: Output, creation: Creation)
    | Removed(output: Output)
    | RetryDue(output: Output, creation: Creation)
  datatype Creation = Creation(nested: Events, result: Result)
  datatype Events = Done | Then(first: Event, rest: Events)

  function EntryOf(s: Supervisor, o: Output): Entry {
    if o in s.outputs then s.outputs[o] else Entry(false, false, FreshBackoff())
  }

  function Handle(s: Supervisor, e: Event): Supervisor
    decreases e
  {
    match e
    case Added(o, creation) =>
      if o in s.outputs && (s.outputs[o].window || s.outputs[o].retry) then s else Attempt(s, o, creation)
    case Removed(o) => Remove(s, o)
    case RetryDue(o, creation) =>
      // The one-shot timer has fired.
      var fired := s.(timers := s.timers - {o});
      if o !in s.outputs || s.outputs[o].window || !s.outputs[o].retry then fired else Attempt(fired, o, creation)
  }

  function HandleAll(s: Supervisor, events: Events): Supervisor
    decreases events
  {
    match events
    case Done => s
    case Then(first, rest) => HandleAll(Handle(s, first), rest)
  }

  function Remove(s: Supervisor, o: Output): Supervisor {
    if o !in s.outputs then s
    else
      Supervisor(s.outputs - {o}, if s.outputs[o].window then s.windows - multiset{o} else s.windows,
                 if s.outputs[o].retry then s.timers - {o} else s.timers, s.history + [Forgotten(o)])
  }

  function Attempt(s: Supervisor, o: Output, creation: Creation): Supervisor
    decreases creation
  {
    Settle(HandleAll(Started(s, o), creation.nested), o, creation.result)
  }

  // What create() is called in.
  function Started(s: Supervisor, o: Output): Supervisor {
    s.(outputs := s.outputs[o := EntryOf(s, o).(retry := false)])
  }

  // Once create() has returned.
  function Settle(s: Supervisor, o: Output, result: Result): Supervisor {
    if o !in s.outputs then s  // a window created for a removed output is destroyed at once
    else
      var entry := s.outputs[o];
      match result
      case Created =>
        s.(outputs := s.outputs[o := entry.(window := true, backoff := Reset(entry.backoff))],
           windows := s.windows + multiset{o}, history := s.history + [Opened(o)])
      case NotAnOutput =>
        s.(outputs := s.outputs - {o}, history := s.history + [Forgotten(o)])
      case Failed =>
        s.(outputs := s.outputs[o := entry.(retry := true, backoff := Advanced(entry.backoff))],
           timers := s.timers + {o}, history := s.history + [Delayed(o, entry.backoff.upcoming)])
  }

  // ------------------------------------------------------------------ invariants

  // How often in a row creating this output's window has failed.
  function Streak(history: seq<Note>, o: Output): nat {
    if history == [] then 0
    else
      var last, before := history[|history| - 1], Streak(history[..|history| - 1], o);
      if last.output != o then before else if last.Delayed? then before + 1 else 0
  }

  // Live windows are exactly the entries marked window, pending retries exactly those marked
  // retry, never both; only an output whose window is being created has neither mark.
  ghost predicate Consistent(s: Supervisor, creating: set<Output>) {
    && (forall o :: s.windows[o] == if o in s.outputs && s.outputs[o].window then 1 else 0)
    && (forall o :: o in s.timers <==> o in s.outputs && s.outputs[o].retry)
    && (forall o :: o in s.outputs ==>
          if o in creating then !s.outputs[o].window && !s.outputs[o].retry
          else s.outputs[o].window != s.outputs[o].retry)
  }

  // The backoff of every entry stands where its run of failures has brought it, and every
  // delay was the one due.
  ghost predicate Delays(s: Supervisor) {
    && (forall o :: o in s.outputs ==> s.outputs[o].backoff == AfterFailures(FreshBackoff(), Streak(s.history, o)))
    && (forall o :: o !in s.outputs ==> Streak(s.history, o) == 0)
    && (forall i :: 0 <= i < |s.history| && s.history[i].Delayed? ==>
          s.history[i].delay == DelayAfter(FIRST_DELAY, LONGEST_DELAY, Streak(s.history[..i], s.history[i].output)))
  }

  // Nothing adds an output whose window is being created at that moment.
  predicate Disciplined(events: Events, creating: set<Output>)
    decreases events
  {
    match events
    case Done => true
    case Then(first, rest) => DisciplinedEvent(first, creating) && Disciplined(rest, creating)
  }

  predicate DisciplinedEvent(e: Event, creating: set<Output>)
    decreases e
  {
    match e
    case Added(o, creation) => o !in creating && Disciplined(creation.nested, creating + {o})
    case Removed(_) => true
    case RetryDue(o, creation) => Disciplined(creation.nested, creating + {o})
  }

  const EMPTY := Supervisor(map[], multiset{}, {}, [])

  // ------------------------------------------------------------------- theorems

  lemma RemoveKeeps(s: Supervisor, o: Output, creating: set<Output>)
    requires Consistent(s, creating)
    ensures Consistent(Remove(s, o), creating)
  {
  }

  // An output outside creation that has no entry, or whose timer has just fired, stands ready
  // for an attempt; any other output's timer firing changes nothing.
  lemma ReadyForAttempt(s: Supervisor, o: Output, creating: set<Output>)
    requires Consistent(s, creating)
    ensures o !in creating && o in s.outputs ==> s.outputs[o].window || s.outputs[o].retry
    ensures var fired := s.(timers := s.timers - {o});
      if o in s.outputs && s.outputs[o].retry
      then !s.outputs[o].window && Startable(fired, o, creating)
      else fired == s
    ensures o !in s.outputs && o !in creating ==> Startable(s, o, creating)
  {
  }

  lemma {:induction false} HandleKeeps(s: Supervisor, e: Event, creating: set<Output>)
    requires Consistent(s, creating) && DisciplinedEvent(e, creating)
    ensures Consistent(Handle(s, e), creating)
    decreases e
  {
    hide Consistent, Startable, Attempt, Remove;
    ReadyForAttempt(s, e.output, creating);
    match e {
      case Added(o, creation) =>
        if o !in s.outputs {
          AttemptKeeps(s, o, creation, creating);
        }
      case Removed(o) =>
        RemoveKeeps(s, o, creating);
      case RetryDue(o, creation) =>
        if o in s.outputs && s.outputs[o].retry {
          AttemptKeeps(s.(timers := s.timers - {o}), o, creation, creating);
        }
    }
  }

  lemma {:induction false} HandleAllKeeps(s: Supervisor, events: Events, creating: set<Output>)
    requires Consistent(s, creating) && Disciplined(events, creating)
    ensures Consistent(HandleAll(s, events), creating)
    decreases events
  {
    match events {
      case Done =>
      case Then(first, rest) =>
        HandleKeeps(s, first, creating);
        hide Consistent, Handle;
        HandleAllKeeps(Handle(s, first), rest, creating);
    }
  }

  // An attempt at a window for `o` can begin.
  ghost predicate Startable(s: Supervisor, o: Output, creating: set<Output>) {
    && o !in creating && !EntryOf(s, o).window && o !in s.timers
    && Consistent(s.(outputs := s.outputs - {o}), creating)
  }

  lemma StartedConsistent(s: Supervisor, o: Output, creating: set<Output>)
    requires Startable(s, o, creating)
    ensures Consistent(Started(s, o), creating + {o})
  {
  }

  // Whatever happens while one window is being created, everything agrees again afterwards.
  lemma {:induction false} AttemptKeeps(s: Supervisor, o: Output, creation: Creation, creating: set<Output>)
    requires Startable(s, o, creating) && Disciplined(creation.nested, creating + {o})
    ensures Consistent(Attempt(s, o, creation), creating)
    decreases creation
  {
    StartedConsistent(s, o, creating);
    hide Consistent, Startable, Started, Settle;
    HandleAllKeeps(Started(s, o), creation.nested, creating + {o});
    SettleKeeps(HandleAll(Started(s, o), creation.nested), o, creation.result, creating);
  }

  lemma SettleKeeps(s: Supervisor, o: Output, result: Result, creating: set<Output>)
    requires Consistent(s, creating + {o}) && o !in creating
    ensures Consistent(Settle(s, o, result), creating)
  {
  }

  // Over every run in which nothing adds an output while its own window is being created, but
  // any output may be removed and any timer fire at any moment: the windows that exist are
  // exactly those of the entries marked window, the timers that run exactly those of the
  // entries marked retry, and every entry has exactly one of the marks.
  lemma RunConsistent(events: Events)
    requires Disciplined(events, {})
    ensures Consistent(HandleAll(EMPTY, events), {})
  {
    HandleAllKeeps(EMPTY, events, {});
  }

  // --------------------------------------- an output added again during its creation

  // The entry found when create() returns can take the result.
  predicate Fits(s: Supervisor, o: Output, result: Result) {
    o in s.outputs ==> !s.outputs[o].window && (s.outputs[o].retry ==> result == Failed)
  }

  // Output o may be under creation, or may have been settled by a second attempt meanwhile.
  ghost predicate Reentered(s: Supervisor, creating: set<Output>, o: Output) {
    Consistent(s, creating) || Consistent(s, creating + {o})
  }

  lemma SettleFits(s: Supervisor, o: Output, result: Result, creating: set<Output>)
    requires o !in creating && Reentered(s, creating, o)
    ensures Consistent(Settle(s, o, result), creating) <==> Fits(s, o, result)
  {
    if !Fits(s, o, result) {
      assert s.windows[o] == if s.outputs[o].window then 1 else 0;
      assert result == NotAnOutput ==> o !in Settle(s, o, result).outputs;
    }
  }

  // An output under creation is ready to be attempted again.
  lemma ReadyAgain(s: Supervisor, o: Output, creating: set<Output>)
    requires o !in creating && Consistent(s, creating + {o})
    ensures Startable(s, o, creating) && !EntryOf(s, o).retry
  {
  }

  lemma {:induction false} HandleReenters(s: Supervisor, e: Event, creating: set<Output>, o: Output)
    requires o !in creating && Reentered(s, creating, o) && DisciplinedEvent(e, creating)
    ensures Reentered(Handle(s, e), creating, o)
    decreases e
  {
    hide Consistent, Startable, Attempt, Remove;
    if Consistent(s, creating) {
      HandleKeeps(s, e, creating);
    } else {
      ReadyAgain(s, o, creating);
      ReadyForAttempt(s, e.output, creating + {o});
      match e {
        case Added(p, creation) =>
          if p == o {
            AttemptKeeps(s, o, creation, creating);
          } else if p !in s.outputs {
            AttemptReenters(s, p, creation, creating, o);
          }
        case Removed(p) =>
          RemoveKeeps(s, p, creating + {o});
        case RetryDue(p, creation) =>
          if p in s.outputs && s.outputs[p].retry {
            AttemptReenters(s.(timers := s.timers - {p}), p, creation, creating, o);
          }
      }
    }
  }

  lemma {:induction false} HandleAllReenters(s: Supervisor, events: Events, creating: set<Output>, o: Output)
    requires o !in creating && Reentered(s, creating, o) && Disciplined(events, creating)
    ensures Reentered(HandleAll(s, events), creating, o)
    decreases events
  {
    match events {
      case Done =>
      case Then(first, rest) =>
        HandleReenters(s, first, creating, o);
        hide Reentered, Handle;
        HandleAllReenters(Handle(s, first), rest, creating, o);
    }
  }

  lemma {:induction false} AttemptReenters(s: Supervisor, p: Output, creation: Creation, creating: set<Output>,
                                           o: Output)
    requires p != o && o !in creating && Startable(s, p, creating + {o}) && Disciplined(creation.nested, creating + {p})
    ensures Reentered(Attempt(s, p, creation), creating, o)
    decreases creation
  {
    StartedConsistent(s, p, creating + {o});
    assert creating + {o} + {p} == creating + {p} + {o};
    HandleAllReenters(Started(s, p), creation.nested, creating + {p}, o);
    hide Consistent, HandleAll, Startable, Settle, Started;
    var r := HandleAll(Started(s, p), creation.nested);
    if Consistent(r, creating + {p}) {
      SettleKeeps(r, p, creation.result, creating);
    } else {
      SettleKeeps(r, p, creation.result, creating + {o});
    }
  }

  // The output under creation may be removed and added again while its window is being
  // created, in any order with any other events, with a window, a failure or nothing found each
  // time: all agrees afterwards exactly when the entry found in the end can take the result.
  lemma ReentryIff(s: Supervisor, o: Output, creation: Creation, creating: set<Output>)
    requires Startable(s, o, creating) && Disciplined(creation.nested, creating)
    ensures var r := HandleAll(Started(s, o), creation.nested);
      Consistent(Attempt(s, o, creation), creating) <==>
        o !in r.outputs || (!r.outputs[o].window && (!r.outputs[o].retry || creation.result == Failed))
  {
    StartedConsistent(s, o, creating);
    HandleAllReenters(Started(s, o), creation.nested, creating, o);
    SettleFits(HandleAll(Started(s, o), creation.nested), o, creation.result, creating);
  }

  // The simplest such run, an output added again by nothing else during its creation.
  lemma ReaddedWhileCreated(s: Supervisor, o: Output, inner: Result, outer: Result)
    requires Consistent(s, {}) && o !in s.outputs
    ensures var again := Then(Added(o, Creation(Done, inner)), Done);
      Consistent(Handle(s, Added(o, Creation(again, outer))), {}) <==>
        inner == NotAnOutput || (inner == Failed && outer == Failed)
  {
    var again := Then(Added(o, Creation(Done, inner)), Done);
    ReadyForAttempt(s, o, {});
    ReentryIff(s, o, Creation(again, outer), {});
    hide Consistent, Startable, Disciplined;
    SettledTwice(s, o, inner);
    assert Handle(s, Added(o, Creation(again, outer))) == Attempt(s, o, Creation(again, outer));
  }

  lemma SettledTwice(s: Supervisor, o: Output, inner: Result)
    requires o !in s.outputs
    ensures HandleAll(Started(s, o), Then(Added(o, Creation(Done, inner)), Done)) == Settle(Started(s, o), o, inner)
  {
    var first, creation := Started(s, o), Creation(Done, inner);
    assert Started(first, o) == first;
    hide Settle, Started;
    assert HandleAll(first, Done) == first;
    assert Attempt(first, o, creation) == Settle(first, o, inner);
    AddedOnce(first, Added(o, creation));
  }

  lemma AddedOnce(s: Supervisor, e: Event)
    ensures HandleAll(s, Then(e, Done)) == Handle(s, e)
  {
    hide Handle;
  }

  // -------------------------------------------------------------- every run whatsoever

  // As Consistent, but an output under creation may have been settled by another attempt.
  ghost predicate Loose(s: Supervisor, creating: set<Output>) {
    && (forall o :: s.windows[o] == if o in s.outputs && s.outputs[o].window then 1 else 0)
    && (forall o :: o in s.timers <==> o in s.outputs && s.outputs[o].retry)
    && (forall o :: o in s.outputs ==>
          if o in creating then !(s.outputs[o].window && s.outputs[o].retry)
          else s.outputs[o].window != s.outputs[o].retry)
  }

  // Every entry found when a create() returns can take the result.
  predicate AllFit(s: Supervisor, events: Events)
    decreases events
  {
    match events
    case Done => true
    case Then(first, rest) => EventFits(s, first) && AllFit(Handle(s, first), rest)
  }

  predicate EventFits(s: Supervisor, e: Event)
    decreases e
  {
    match e
    case Added(o, creation) =>
      (o in s.outputs && (s.outputs[o].window || s.outputs[o].retry)) || AttemptFits(s, o, creation)
    case Removed(_) => true
    case RetryDue(o, creation) =>
      o !in s.outputs || s.outputs[o].window || !s.outputs[o].retry ||
      AttemptFits(s.(timers := s.timers - {o}), o, creation)
  }

  predicate AttemptFits(s: Supervisor, o: Output, creation: Creation)
    decreases creation
  {
    AllFit(Started(s, o), creation.nested) && Fits(HandleAll(Started(s, o), creation.nested), o, creation.result)
  }

  // The state is as it should be after every event, at every depth of creation.
  ghost predicate AllLoose(s: Supervisor, events: Events, creating: set<Output>)
    decreases events
  {
    match events
    case Done => true
    case Then(first, rest) =>
      EventLoose(s, first, creating) && Loose(Handle(s, first), creating) && AllLoose(Handle(s, first), rest, creating)
  }

  ghost predicate EventLoose(s: Supervisor, e: Event, creating: set<Output>)
    decreases e
  {
    match e
    case Added(o, creation) =>
      (o in s.outputs && (s.outputs[o].window || s.outputs[o].retry)) ||
      AllLoose(Started(s, o), creation.nested, creating + {o})
    case Removed(_) => true
    case RetryDue(o, creation) =>
      o !in s.outputs || s.outputs[o].window || !s.outputs[o].retry ||
      AllLoose(Started(s.(timers := s.timers - {o}), o), creation.nested, creating + {o})
  }

  lemma LooseMeaning(s: Supervisor)
    ensures Loose(s, {}) <==> Consistent(s, {})
  {
  }

  lemma RemoveLoose(s: Supervisor, o: Output, creating: set<Output>)
    requires Loose(s, creating)
    ensures Loose(Remove(s, o), creating)
  {
  }

  lemma StartedLoose(s: Supervisor, o: Output, creating: set<Output>)
    requires Loose(s, creating)
    ensures var fired := s.(timers := s.timers - {o});
      if o in s.outputs && (s.outputs[o].window || s.outputs[o].retry)
      then if s.outputs[o].retry then !s.outputs[o].window && Loose(Started(fired, o), creating + {o}) else fired == s
      else fired == s && Loose(Started(s, o), creating + {o})
  {
  }

  lemma SettleLoose(s: Supervisor, o: Output, result: Result, creating: set<Output>)
    requires Loose(s, creating + {o})
    ensures Loose(Settle(s, o, result), creating) <==> Fits(s, o, result)
  {
    if !Fits(s, o, result) {
      assert s.windows[o] == if s.outputs[o].window then 1 else 0;
      assert result == NotAnOutput ==> o !in Settle(s, o, result).outputs;
    }
  }

  lemma {:induction false} AttemptFitsIff(s: Supervisor, o: Output, creation: Creation, creating: set<Output>)
    requires Loose(Started(s, o), creating + {o})
    ensures AttemptFits(s, o, creation) <==>
              AllLoose(Started(s, o), creation.nested, creating + {o}) && Loose(Attempt(s, o, creation), creating)
    decreases creation
  {
    hide Loose, Started, Settle, Fits;
    AllFitIff(Started(s, o), creation.nested, creating + {o});
    if AllFit(Started(s, o), creation.nested) {
      SettleLoose(HandleAll(Started(s, o), creation.nested), o, creation.result, creating);
    }
  }

  lemma {:induction false} EventFitsIff(s: Supervisor, e: Event, creating: set<Output>)
    requires Loose(s, creating)
    ensures EventFits(s, e) <==> EventLoose(s, e, creating) && Loose(Handle(s, e), creating)
    decreases e
  {
    hide Loose, Started, Attempt, AttemptFits, Remove;
    StartedLoose(s, e.output, creating);
    match e {
      case Added(o, creation) =>
        if !(o in s.outputs && (s.outputs[o].window || s.outputs[o].retry)) {
          AttemptFitsIff(s, o, creation, creating);
        }
      case Removed(o) =>
        RemoveLoose(s, o, creating);
      case RetryDue(o, creation) =>
        if o in s.outputs && !s.outputs[o].window && s.outputs[o].retry {
          AttemptFitsIff(s.(timers := s.timers - {o}), o, creation, creating);
        }
    }
  }

  lemma {:induction false} AllFitIff(s: Supervisor, events: Events, creating: set<Output>)
    requires Loose(s, creating)
    ensures AllFit(s, events) <==> AllLoose(s, events, creating)
    ensures AllFit(s, events) ==> Loose(HandleAll(s, events), creating)
    decreases events
  {
    match events {
      case Done =>
      case Then(first, rest) =>
        EventFitsIff(s, first, creating);
        hide Loose, Handle, EventFits, EventLoose;
        if Loose(Handle(s, first), creating) {
          AllFitIff(Handle(s, first), rest, creating);
        }
    }
  }

  // Over every run, disciplined or not: windows, timers and marks agree after every event at
  // every depth exactly when every entry found after a create() can take its result; and then
  // they agree at the end.
  lemma RunConsistentIff(events: Events)
    ensures AllFit(EMPTY, events) <==> AllLoose(EMPTY, events, {})
    ensures AllFit(EMPTY, events) ==> Consistent(HandleAll(EMPTY, events), {})
  {
    AllFitIff(EMPTY, events, {});
    LooseMeaning(HandleAll(EMPTY, events));
  }

  // ------------------------------------------------------------- event by event

  // The state when a window's creation returns: it was asked for with the retry mark cleared, for
  // an output seen for the first time with a delay of 250 ms to come, and delivered its events.
  function Returned(s: Supervisor, o: Output, creation: Creation): Supervisor {
    var entry := if o in s.outputs then s.outputs[o] else Entry(false, false, RetryBackoff(250, 30_000, 250, 0));
    HandleAll(s.(outputs := s.outputs[o := entry.(retry := false)]), creation.nested)
  }

  // A window is asked for, and what comes of it is recorded if the output is still there: the
  // window with a fresh backoff, a retry after the delay that was to come, or nothing at all.
  ghost predicate Tries(s: Supervisor, o: Output, creation: Creation, next: Supervisor) {
    var r := Returned(s, o, creation);
    if o !in r.outputs then next == r
    else
      var entry := r.outputs[o];
      match creation.result
      case Created =>
        && next.outputs == r.outputs[o := Entry(true, entry.retry,
                                                entry.backoff.(upcoming := entry.backoff.initial, failures := 0))]
        && next.windows == r.windows + multiset{o} && next.timers == r.timers && next.history == r.history + [Opened(o)]
      case NotAnOutput =>
        && next.outputs == r.outputs - {o} && next.windows == r.windows && next.timers == r.timers
        && next.history == r.history + [Forgotten(o)]
      case Failed =>
        && next.outputs == r.outputs[o := Entry(entry.window, true, Advanced(entry.backoff))]
        && next.windows == r.windows && next.timers == r.timers + {o}
        && next.history == r.history + [Delayed(o, entry.backoff.upcoming)]
  }

  // A window is asked for exactly for an output added without one and without a retry waiting, and
  // for one whose retry falls due; a removal takes entry, window and timer away.
  lemma EventMeaning(s: Supervisor, e: Event)
    ensures var next, o := Handle(s, e), e.output;
      match e
      case Added(_, creation) =>
        if o in s.outputs && (s.outputs[o].window || s.outputs[o].retry) then next == s
        else Tries(s, o, creation, next)
      case Removed(_) =>
        if o !in s.outputs then next == s
        else
          && next.outputs == s.outputs - {o} && next.history == s.history + [Forgotten(o)]
          && next.windows == (if s.outputs[o].window then s.windows - multiset{o} else s.windows)
          && next.timers == if s.outputs[o].retry then s.timers - {o} else s.timers
      case RetryDue(_, creation) =>
        var fired := s.(timers := s.timers - {o});
        if o in s.outputs && s.outputs[o].retry && !s.outputs[o].window then Tries(fired, o, creation, next)
        else next == fired
  {
    match e {
      case Added(o, creation) => TriesMeaning(s, o, creation);
      case Removed(_) =>
      case RetryDue(o, creation) => TriesMeaning(s.(timers := s.timers - {o}), o, creation);
    }
    hide Tries, Attempt;
  }

  lemma TriesMeaning(s: Supervisor, o: Output, creation: Creation)
    ensures Tries(s, o, creation, Attempt(s, o, creation))
  {
    assert Returned(s, o, creation) == HandleAll(Started(s, o), creation.nested);
    hide HandleAll, Returned, Started, Advanced;
  }

  // Without interference, what is asked for is what comes about.
  lemma QuietAttempt(s: Supervisor, o: Output, result: Result)
    requires o !in s.outputs
    ensures var next := Handle(s, Added(o, Creation(Done, result)));
      match result
      case Created => o in next.outputs && next.outputs[o].window && next.windows == s.windows + multiset{o}
      case NotAnOutput => o !in next.outputs && next.windows == s.windows && next.timers == s.timers
      case Failed => o in next.outputs && next.outputs[o].retry && o in next.timers &&
                     next.history == s.history + [Delayed(o, 250)]
  {
    var first := Started(s, o);
    assert HandleAll(first, Done) == first;
  }

  lemma StreakLast(history: seq<Note>, note: Note, o: Output)
    ensures Streak(history + [note], o) ==
      if note.output != o then Streak(history, o) else if note.Delayed? then Streak(history, o) + 1 else 0
  {
    assert (history + [note])[..|history|] == history;
  }

  lemma {:induction false} DelaysHandle(s: Supervisor, e: Event)
    requires Delays(s)
    ensures Delays(Handle(s, e))
    decreases e
  {
    match e {
      case Added(o, creation) =>
        if !(o in s.outputs && (s.outputs[o].window || s.outputs[o].retry)) {
          DelaysAttempt(s, o, creation);
        }
      case Removed(o) =>
        if o in s.outputs {
          DelaysNoted(s, Remove(s, o), Forgotten(o));
        }
      case RetryDue(o, creation) =>
        if o in s.outputs && !s.outputs[o].window && s.outputs[o].retry {
          DelaysAttempt(s.(timers := s.timers - {o}), o, creation);
        }
    }
  }

  lemma {:induction false} DelaysHandleAll(s: Supervisor, events: Events)
    requires Delays(s)
    ensures Delays(HandleAll(s, events))
    decreases events
  {
    match events {
      case Done =>
      case Then(first, rest) =>
        DelaysHandle(s, first);
        hide Delays, Handle;
        DelaysHandleAll(Handle(s, first), rest);
    }
  }

  lemma {:induction false} DelaysAttempt(s: Supervisor, o: Output, creation: Creation)
    requires Delays(s)
    ensures Delays(Attempt(s, o, creation))
    decreases creation
  {
    var during := Started(s, o);
    assert AfterFailures(FreshBackoff(), 0) == FreshBackoff();
    assert Delays(during);
    DelaysHandleAll(during, creation.nested);
    hide Delays, HandleAll, EntryOf;
    DelaysSettle(HandleAll(during, creation.nested), o, creation.result);
  }

  lemma DelaysSettle(s: Supervisor, o: Output, result: Result)
    requires Delays(s)
    ensures Delays(Settle(s, o, result))
  {
    if o in s.outputs {
      BackoffDoubles(FIRST_DELAY, LONGEST_DELAY, Streak(s.history, o));
      var next := Settle(s, o, result);
      match result {
        case Created => DelaysNoted(s, next, Opened(o));
        case NotAnOutput => DelaysNoted(s, next, Forgotten(o));
        case Failed => DelaysNoted(s, next, Delayed(o, s.outputs[o].backoff.upcoming));
      }
    }
  }

  // One more note, and the entry it is about brought into line with it.
  lemma DelaysNoted(s: Supervisor, next: Supervisor, note: Note)
    requires Delays(s) && next.history == s.history + [note]
    requires forall o :: o != note.output ==>
               && (o in next.outputs <==> o in s.outputs)
               && (o in s.outputs ==> next.outputs[o].backoff == s.outputs[o].backoff)
    requires note.output in next.outputs ==>
      next.outputs[note.output].backoff ==
        AfterFailures(FreshBackoff(), if note.Delayed? then Streak(s.history, note.output) + 1 else 0)
    requires note.output !in next.outputs ==> !note.Delayed?
    requires note.Delayed? ==> note.delay == DelayAfter(FIRST_DELAY, LONGEST_DELAY, Streak(s.history, note.output))
    ensures Delays(next)
  {
    hide AfterFailures, DelayAfter, FreshBackoff, Streak;
    forall o
      ensures Streak(next.history, o) ==
        if note.output != o then Streak(s.history, o) else if note.Delayed? then Streak(s.history, o) + 1 else 0
    {
      StreakLast(s.history, note, o);
    }
    forall i | 0 <= i < |next.history| && next.history[i].Delayed?
      ensures next.history[i].delay ==
              DelayAfter(FIRST_DELAY, LONGEST_DELAY, Streak(next.history[..i], next.history[i].output))
    {
      assert next.history[..i] == if i == |s.history| then s.history else s.history[..i];
    }
  }

  // Over every run, disciplined or not: the delay after k failures in a row of one output is
  // 250 ms doubled k times, at most 30 seconds.
  lemma RunDelays(events: Events)
    ensures Delays(HandleAll(EMPTY, events))
  {
    DelaysHandleAll(EMPTY, events);
  }

  // ---------------------------------------------------------------- the object

  class OutputWindowSupervisor {
    var outputs: map<Output, Entry>
    // What the factory and the scheduler have been told.
    var windows: multiset<Output>
    var timers: set<Output>
    var history: seq<Note>

    constructor ()
      ensures Value() == EMPTY
    {
      outputs, windows, timers, history := map[], multiset{}, {}, [];
    }

    ghost function Value(): Supervisor
      reads this
    {
      Supervisor(outputs, windows, timers, history)
    }

    method OutputAdded(o: Output, creation: Creation)
      modifies this
      ensures Value() == Handle(old(Value()), Added(o, creation))
      decreases creation, 1
    {
      if o in outputs && (outputs[o].window || outputs[o].retry) {
        return;
      }
      AttemptWindow(o, creation);
    }

    method OutputRemoved(o: Output)
      modifies this
      ensures Value() == Handle(old(Value()), Removed(o))
    {
      if o !in outputs {
        return;
      }
      var window, retry := outputs[o].window, outputs[o].retry;
      outputs := outputs - {o};
      history := history + [Forgotten(o)];
      if retry {
        timers := timers - {o};
      }
      if window {
        windows := windows - multiset{o};
      }
    }

    // The scheduler's timer has fired.
    method RetryIsDue(o: Output, creation: Creation)
      modifies this
      ensures Value() == Handle(old(Value()), RetryDue(o, creation))
      decreases creation, 1
    {
      timers := timers - {o};
      if o !in outputs || outputs[o].window || !outputs[o].retry {
        return;
      }
      AttemptWindow(o, creation);
    }

    // No reference into the map lives across the creation: it can deliver any events.
    method AttemptWindow(o: Output, creation: Creation)
      modifies this
      ensures Value() == Attempt(old(Value()), o, creation)
      decreases creation, 0
    {
      var known := if o in outputs then outputs[o] else Entry(false, false, FreshBackoff());
      outputs := outputs[o := known.(retry := false)];
      Deliver(creation.nested);
      if o !in outputs {
        return;
      }
      var entry := outputs[o];
      match creation.result {
        case Created =>
          outputs := outputs[o := entry.(window := true, backoff := Reset(entry.backoff))];
          windows := windows + multiset{o};
          history := history + [Opened(o)];
        case NotAnOutput =>
          outputs := outputs - {o};
          history := history + [Forgotten(o)];
        case Failed =>
          outputs := outputs[o := entry.(retry := true, backoff := Advanced(entry.backoff))];
          timers := timers + {o};
          history := history + [Delayed(o, entry.backoff.upcoming)];
      }
    }

    method Deliver(events: Events)
      modifies this
      ensures Value() == HandleAll(old(Value()), events)
      decreases events, 0
    {
      match events {
        case Done =>
        case Then(first, rest) =>
          match first {
            case Added(o, creation) => OutputAdded(o, creation);
            case Removed(o) => OutputRemoved(o);
            case RetryDue(o, creation) => RetryIsDue(o, creation);
          }
          Deliver(rest);
      }
    }

    // windowCount() and pendingRetries(): over a consistent state they count what exists.
    method WindowCount() returns (count: nat)
      requires Consistent(Value(), {})
      ensures count == |windows|
    {
      var left, seen: multiset<Output> := outputs.Keys, multiset{};
      count := 0;
      while left != {}
        invariant left <= outputs.Keys && count == |seen|
        invariant forall o :: seen[o] == if o in outputs && o !in left && outputs[o].window then 1 else 0
        decreases |left|
      {
        var o :| o in left;
        left := left - {o};
        if outputs[o].window {
          count := count + 1;
          seen := seen + multiset{o};
        }
      }
      assert seen == windows;
    }

    method PendingRetries() returns (count: nat)
      requires Consistent(Value(), {})
      ensures count == |timers|
    {
      var left, seen: set<Output> := outputs.Keys, {};
      count := 0;
      while left != {}
        invariant left <= outputs.Keys && count == |seen|
        invariant forall o :: o in seen <==> o in outputs && o !in left && outputs[o].retry
        decreases |left|
      {
        var o :| o in left;
        left := left - {o};
        if outputs[o].retry {
          count := count + 1;
          seen := seen + {o};
        }
      }
      assert seen == timers;
    }
  }
}
