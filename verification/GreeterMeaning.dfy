// What each event makes the greeter do: which requests and entries follow at once, whatever the
// ports go on to deliver, and the exact state where they deliver nothing.

module GreeterMeaning {
  import opened Basics
  import opened WorkerWire
  import opened WorkerClient
  import opened GreeterAuthentication
  import opened GreeterPolicy

  // The answer to the question asked as the i-th from now.
  predicate Told(s: Controller, i: nat) {
    i < |s.facts| && s.facts[i]
  }

  function AfterAsking(s: Controller, questions: nat): Controller {
    s.(facts := if questions <= |s.facts| then s.facts[questions..] else [])
  }

  // The next request is answered so, and nothing is delivered meanwhile.
  predicate Calmly(s: Controller, answer: bool) {
    if s.replies == [] then !answer else s.replies[0] == Reply(answer, [])
  }

  function Requested(s: Controller): Controller {
    s.(replies := if s.replies == [] then [] else s.replies[1..])
  }

  function Counted(n: uint64): uint64 {
    if n == 0xFFFF_FFFF_FFFF_FFFF then 0 else n + 1
  }

  function Upcoming(s: Controller): AttemptToken {
    AttemptToken(s.attempts.epoch, Counted(s.attempts.request))
  }

  lemma FactTold(s: Controller)
    ensures Fact(s) == (Told(s, 0), AfterAsking(s, 1))
    ensures forall i: nat :: Told(AfterAsking(s, 1), i) <==> Told(s, i + 1)
    ensures AfterAsking(AfterAsking(s, 1), 1) == AfterAsking(s, 2)
  {
  }

  lemma CalmAnswer(s: Controller, answer: bool)
    requires Calmly(s, answer)
    ensures AskPort(s) == (answer, Requested(s))
  {
    if s.replies != [] {
      assert HandleAll(s.(replies := s.replies[1..]), []) == s.(replies := s.replies[1..]);
    }
  }

  // ------------------------------------------------------------------- starting

  // A start goes ahead with a session still locked, no child and no token pending.
  predicate CanBegin(s: Controller, asked: nat) {
    && s.phase == Idle && Told(s, asked) && !Told(s, asked + 1)
    && s.attempts.locked && s.attempts.pending.None?
  }

  predicate MustWait(s: Controller, asked: nat) {
    s.phase == Idle && Told(s, asked) && Told(s, asked + 1)
  }

  // The attempt as it stands when the runner has been asked to start it.
  function Begun(s: Controller): Controller {
    s.(attempts := s.attempts.(request := Counted(s.attempts.request), pending := Some(Upcoming(s))),
       phase := Starting, waiting := false, secret := true, prompted := false, responded := false,
       startPending := false,
       log := s.log + [Began(Upcoming(s))])
  }

  lemma BegunIsBeginning(s: Controller)
    ensures Begun(s) == Beginning(s) && Upcoming(s) == NextToken(s)
  {
  }

  // From the moment both questions have been answered.
  lemma BeginMeaning(s: Controller)
    requires Lawful(s) && s.attempts.locked && s.attempts.pending.None?
    ensures var (started, asked) := AskPort(Beginning(s));
      var next := if started then asked else OnCompleted(asked, NextToken(s), Unavailable);
      && s.log + [Began(Upcoming(s))] <= next.log
      && (Calmly(s, true) ==> next == Requested(Begun(s)))
      && (Calmly(s, false) ==>
           next.log == s.log + [Began(Upcoming(s)), Ended(Upcoming(s), Unavailable), Discarded] && next.phase == Idle)
  {
    BegunIsBeginning(s);
    BeginningLawful(s);
    AskPortLawful(Beginning(s));
    var asked := AskPort(Beginning(s)).1;
    OnCompletedLawful(asked, NextToken(s), Unavailable);
    if Calmly(s, true) {
      CalmAnswer(Beginning(s), true);
    } else if Calmly(s, false) {
      CalmAnswer(Beginning(s), false);
      Refused(s);
    }
    hide Lawful, AskPort, OnCompleted, Beginning, Begun, Requested;
  }

  lemma Refused(s: Controller)
    requires s.attempts.locked
    ensures var next := OnCompleted(Requested(Begun(s)), Upcoming(s), Unavailable);
      && next.log == s.log + [Began(Upcoming(s)), Ended(Upcoming(s), Unavailable), Discarded] && next.phase == Idle
  {
  }

  // A start that can go ahead asks the runner at once, and one that cannot waits or does nothing
  // at all. A runner that accepts leaves the attempt starting; one that refuses ends it.
  lemma StartMeaning(s: Controller)
    requires Lawful(s)
    ensures var next, asked := StartAttempt(s), AfterAsking(s, 2);
      && (CanBegin(s, 0) ==> s.log + [Began(Upcoming(s))] <= next.log)
      && (CanBegin(s, 0) && Calmly(s, true) ==> next == Requested(Begun(asked)))
      && (CanBegin(s, 0) && Calmly(s, false) ==>
           s.log + [Began(Upcoming(s)), Ended(Upcoming(s), Unavailable), Discarded] == next.log && next.phase == Idle)
      && (MustWait(s, 0) ==> next == asked.(startPending := true))
      && (s.phase == Idle && Told(s, 0) && !CanBegin(s, 0) && !MustWait(s, 0) ==> next == asked)
      && (s.phase == Idle && !Told(s, 0) ==> next == AfterAsking(s, 1))
      && (s.phase != Idle ==> next == s)
  {
    FactTold(s);
    FactTold(AfterAsking(s, 1));
    FactLawful(s);
    FactLawful(AfterAsking(s, 1));
    if CanBegin(s, 0) {
      BeginMeaning(AfterAsking(s, 2));
    }
    hide Lawful, AskPort, OnCompleted, Beginning, Begun, Fact;
  }

  // What a start asked for in state h leaves of the log, when everything up to it is settled:
  // the attempt begins, waits for the old child, or does not begin.
  ghost predicate Starts(h: Controller, next: Controller) {
    && (CanBegin(h, 0) ==> h.log + [Began(Upcoming(h))] <= next.log)
    && (CanBegin(h, 0) && Calmly(h, true) ==> next == Requested(Begun(AfterAsking(h, 2))))
    && (MustWait(h, 0) ==> next == AfterAsking(h, 2).(startPending := true))
    && (!CanBegin(h, 0) && !MustWait(h, 0) ==> next.log == h.log && next.phase == h.phase && next.queued == h.queued)
  }

  lemma StartsMeaning(h: Controller)
    requires Lawful(h)
    ensures Starts(h, StartAttempt(h))
  {
    StartMeaning(h);
    AskingKeeps(h, 1);
    AskingKeeps(h, 2);
    hide Lawful, StartAttempt, Begun, AfterAsking, Requested, Calmly, Upcoming;
  }

  lemma AskingKeeps(s: Controller, questions: nat)
    ensures var asked := AfterAsking(s, questions);
      && asked.log == s.log && asked.phase == s.phase && asked.queued == s.queued
      && asked.startPending == s.startPending && asked.replies == s.replies && asked.attempts == s.attempts
  {
  }

  // ------------------------------------------------------------------ the events

  lemma BeginCall(s: Controller)
    requires Lawful(s)
    ensures Starts(s.(inputStartsAttempt := true), Handle(s, Begin))
  {
    hide Lawful, StartAttempt, Starts;
    ArmedLawful(s, true);
    StartsMeaning(s.(inputStartsAttempt := true));
  }

  // Input before the lock is remembered; input at an armed idle prompt starts an attempt.
  lemma InputMeaning(s: Controller)
    requires Lawful(s)
    ensures var next := Handle(s, NoteInput);
      if !s.entered then next == s.(inputBeforeLock := true)
      else if s.phase == Idle && s.inputStartsAttempt then Starts(s, next)
      else next == s
  {
    hide Lawful, StartAttempt, Starts;
    StartsMeaning(s);
  }

  // The state in which the lock has been entered.
  function Locking(s: Controller): Controller {
    s.(entered := true, inputStartsAttempt := true, inputBeforeLock := false,
       attempts := s.attempts.(epoch := Counted(s.attempts.epoch), locked := true, pending := None),
       log := s.log + [Entered])
  }

  // The lock is entered once, when the session says it is locked; earlier input starts an attempt.
  lemma LockedMeaning(s: Controller)
    requires Lawful(s)
    ensures var next, h := Handle(s, Locked), Locking(AfterAsking(s, 1));
      if s.entered then next == s
      else if !Told(s, 0) then next == AfterAsking(s, 1)
      else if s.inputBeforeLock then Starts(h, next)
      else next == h
  {
    FactTold(s);
    FactLawful(s);
    if !s.entered && Told(s, 0) {
      var asked := AfterAsking(s, 1);
      assert EnteredState(asked) == Locking(asked);
      EnteredLawful(asked);
      StartsMeaning(Locking(asked));
    }
    hide Lawful, StartAttempt, Begun, EnteredState, Locking, Fact, AfterAsking, Starts;
  }

  // The text is held in place of any before it; an empty one only clears.
  function Keeping(s: Controller, text: string): Controller {
    var cleared := s.(queued := "", log := s.log + [Discarded]);
    if text == "" then cleared else cleared.(queued := text, log := cleared.log + [Held(text)])
  }

  lemma KeepingIsHolding(s: Controller, text: string)
    ensures Keeping(s, text) == Holding(s, text)
    ensures Keeping(s, text).phase == s.phase && Keeping(s, text).startPending == s.startPending
    ensures Keeping(s, text).queued == text
  {
    assert Discarding(s) == s.(queued := "", log := s.log + [Discarded]);
    hide Discarding;
  }

  // A response on its way to the runner.
  function Sent(s: Controller, entry: Entry): Controller {
    s.(waiting := false, phase := Verifying, responded := true, log := s.log + [entry])
  }

  // The response goes to the runner at once; a runner that refuses it is asked to cancel.
  ghost predicate Sends(s: Controller, entry: Entry, next: Controller) {
    && s.log + [entry] <= next.log
    && (Calmly(s, true) ==> next == Requested(Sent(s, entry)))
    && (s.replies == [] ==> next == Sent(s, entry))
  }

  lemma SendMeaning(s: Controller, text: string, entry: Entry)
    requires Sendable(s, text, entry)
    ensures Sends(s, entry, SendResponse(s, text, entry))
  {
    hide Lawful, Sendable, AskPort, Calmly, Responding, Sent, Requested;
    SentLawful(s, text, entry);
    SentIsResponding(s, entry);
    var sent := Sent(s, entry);
    AskPortLawful(sent);
    AskPortLawful(AskPort(sent).1);
    if Calmly(s, true) {
      CalmAfter(s, sent, true);
      CalmAnswer(sent, true);
    }
    if s.replies == [] {
      NoReplies(sent);
    }
  }

  lemma SentIsResponding(s: Controller, entry: Entry)
    ensures Sent(s, entry) == Responding(s, entry)
    ensures Sent(s, entry).log == s.log + [entry] && Sent(s, entry).replies == s.replies
  {
  }

  lemma NoReplies(s: Controller)
    ensures s.replies == [] ==> AskPort(s) == (false, s)
  {
  }

  // A refused response makes two requests and leaves the attempt verifying.
  lemma RefusedResponse(s: Controller, text: string, entry: Entry)
    requires Calmly(s, false) && Calmly(Requested(s), false)
    ensures SendResponse(s, text, entry) == Requested(Requested(Sent(s, entry)))
  {
    CalmAnswer(Sent(s, entry), false);
    CalmAnswer(Requested(Sent(s, entry)), false);
    hide AskPort;
  }

  // A submission in a session that is not locked does nothing. At a prompt it is sent, unless
  // it is an empty secret; while an attempt starts it is held; while one verifies it is
  // dropped. When idle it is held and an attempt asked for; if none begins or waits, nothing
  // stays held.
  lemma SubmitMeaning(s: Controller, text: string)
    requires Lawful(s)
    ensures var next, asked := Handle(s, Submit(text)), AfterAsking(s, 1);
      if !Told(s, 0) then next == asked
      else
        match s.phase
        case Prompting =>
          if s.secret && text == "" then next == asked else Sends(asked, SentTyped(text), next)
        case Starting => next == Keeping(asked, text)
        case Verifying => next == asked
        case Idle =>
          var h := Keeping(asked.(inputStartsAttempt := true), text);
          && (CanBegin(h, 0) ==> h.log + [Began(Upcoming(h))] <= next.log)
          && (CanBegin(h, 0) && Calmly(h, true) ==> next == Requested(Begun(AfterAsking(h, 2))))
          && (MustWait(h, 0) ==> next == AfterAsking(h, 2).(startPending := true))
          && (!CanBegin(h, 0) && !MustWait(h, 0) && !s.startPending ==>
               next.queued == "" && next.log == h.log + [Discarded])
          && (!CanBegin(h, 0) && !MustWait(h, 0) && s.startPending ==> next.queued == text && next.log == h.log)
  {
    FactTold(s);
    FactLawful(s);
    if Told(s, 0) {
      match s.phase {
        case Prompting =>
          TypedAllowed(AfterAsking(s, 1), text);
          SendMeaning(AfterAsking(s, 1), text, SentTyped(text));
        case Starting =>
          KeepingIsHolding(AfterAsking(s, 1), text);
        case Verifying =>
        case Idle =>
          SubmitIdle(AfterAsking(s, 1), text);
      }
    }
    AskingKeeps(s, 1);
    hide Lawful, StartAttempt, SendResponse, Fact, Holding, Discarding, Keeping, Begun, Sends, AfterAsking, CanBegin,
         MustWait, Requested, Upcoming, Calmly;
  }

  lemma SubmitIdle(s: Controller, text: string)
    requires Lawful(s) && s.phase == Idle
    ensures var h := Keeping(s.(inputStartsAttempt := true), text);
      var started := StartAttempt(Holding(s.(inputStartsAttempt := true), text));
      var next := if started.phase == Idle && !started.startPending then Discarding(started) else started;
      && (CanBegin(h, 0) ==> h.log + [Began(Upcoming(h))] <= next.log)
      && (CanBegin(h, 0) && Calmly(h, true) ==> next == Requested(Begun(AfterAsking(h, 2))))
      && (MustWait(h, 0) ==> next == AfterAsking(h, 2).(startPending := true))
      && (!CanBegin(h, 0) && !MustWait(h, 0) && !s.startPending ==>
           next.queued == "" && next.log == h.log + [Discarded])
      && (!CanBegin(h, 0) && !MustWait(h, 0) && s.startPending ==> next.queued == text && next.log == h.log)
  {
    var armed := s.(inputStartsAttempt := true);
    ArmedLawful(s, true);
    KeepingIsHolding(armed, text);
    HoldingLawful(armed, text);
    StartMeaning(Keeping(armed, text));
    AskingKeeps(Keeping(armed, text), 1);
    AskingKeeps(Keeping(armed, text), 2);
    DiscardingClears(Keeping(armed, text));
    DiscardingClears(StartAttempt(Keeping(armed, text)));
    hide Lawful, StartAttempt, Keeping, Holding, Discarding, AfterAsking, Calmly, Upcoming, Requested;
  }

  lemma DiscardingClears(s: Controller)
    ensures Discarding(s).queued == "" && Discarding(s).log == s.log + [Discarded] && s.log <= Discarding(s).log
  {
  }

  // A response is for an open prompt only.
  lemma RespondMeaning(s: Controller, text: string)
    requires Lawful(s)
    ensures var next := Handle(s, Respond(text));
      if s.phase == Prompting then Sends(s, SentTyped(text), next) else next == s
  {
    if s.phase == Prompting {
      TypedAllowed(s, text);
      SendMeaning(s, text, SentTyped(text));
    }
    hide Lawful, SendResponse, Sends;
  }

  // The prompt as it stands when it is shown.
  function Showing(s: Controller, isSecret: bool): Controller {
    s.(prompted := true, inputStartsAttempt := true, waiting := true, secret := isSecret, phase := Prompting,
       log := s.log + [Asked(isSecret)])
  }

  // Only questions of a live attempt are shown. A held response answers the first question if
  // that is secret; any other question discards it.
  lemma PromptMeaning(s: Controller, kind: MessageKind)
    requires Lawful(s)
    ensures var next, shown := Handle(s, Prompted(kind)), Showing(s, kind == Secret);
      if s.phase == Idle || s.attempts.pending.None? || (kind != Secret && kind != Visible) then next == s
      else if s.prompted || s.responded || kind == Visible then
        next == shown.(queued := "", log := shown.log + [Discarded])
      else if s.queued == "" then next == shown
      else Sends(shown.(queued := ""), SentHeld(s.queued), next)
  {
    if s.phase != Idle && s.attempts.pending.Some? && (kind == Secret || kind == Visible) {
      var next := Questioned(s, kind == Secret);
      PromptingLawful(s, kind == Secret);
      assert PromptShown(s, kind == Secret) == Showing(s, kind == Secret);
      if next.queued != "" {
        HeldAllowed(next);
        SendMeaning(next.(queued := ""), next.queued, SentHeld(next.queued));
      }
    }
    hide Lawful, SendResponse, Sends, Account, Sendable;
  }

  // Idle, with nothing held and nothing waiting.
  function AtRest(s: Controller): Controller {
    s.(queued := "", waiting := false, secret := true, prompted := false, responded := false, phase := Idle,
       startPending := false, log := s.log + [Discarded])
  }

  lemma AtRestIsIdled(s: Controller)
    ensures AtRest(s) == Idled(s)
    ensures AtRest(s).phase == Idle && AtRest(s).queued == "" && !AtRest(s).startPending && s.log <= AtRest(s).log
  {
  }

  // The pending token is withdrawn.
  function Withdrawn(s: Controller): Controller {
    s.(attempts := s.attempts.(pending := None), log := s.log + [Dropped])
  }

  lemma WithdrawnIsDropped(s: Controller)
    ensures Withdrawn(s) == TokenDropped(s) && Withdrawn(s).log == s.log + [Dropped]
    ensures forall answer :: Calmly(s, answer) <==> Calmly(Withdrawn(s), answer)
  {
  }

  // The token goes before the runner is told, and whatever that delivers, the greeter is idle and
  // armed afterwards.
  lemma CancelMeaning(s: Controller)
    requires Lawful(s)
    ensures var next := Handle(s, Cancel);
      && s.log + [Dropped] <= next.log
      && next.phase == Idle && next.queued == "" && !next.startPending && next.inputStartsAttempt
      && (forall answer :: Calmly(s, answer) ==> next == AtRest(Requested(Withdrawn(s))).(inputStartsAttempt := true))
  {
    WithdrawnIsDropped(s);
    DroppedLawful(s);
    AskPortLawful(Withdrawn(s));
    AtRestIsIdled(AskPort(Withdrawn(s)).1);
    forall answer | Calmly(s, answer) ensures AskPort(Withdrawn(s)).1 == Requested(Withdrawn(s)) {
      CalmAnswer(Withdrawn(s), answer);
    }
    hide Lawful, AskPort, AtRest, Idled, Withdrawn, TokenDropped, Requested, Calmly;
  }

  // The locked epoch is left.
  function Leaving(s: Controller): Controller {
    s.(attempts := s.attempts.(epoch := Counted(s.attempts.epoch), locked := false, pending := None),
       log := s.log + [Left])
  }

  lemma LeavingIsLeft(s: Controller)
    ensures Leaving(s) == LockLeft(s) && Leaving(s).log == s.log + [Left]
    ensures forall answer :: Calmly(s, answer) <==> Calmly(Leaving(s), answer)
  {
  }

  // The epoch is left before the runner is told, and whatever that delivers, the greeter is idle
  // afterwards.
  lemma RejectedMeaning(s: Controller)
    requires Lawful(s)
    ensures var next := Handle(s, Rejected);
      && s.log + [Left] <= next.log && next.phase == Idle && next.queued == "" && !next.startPending
      && (forall answer :: Calmly(s, answer) ==> next == AtRest(Requested(Leaving(s))))
  {
    LeavingIsLeft(s);
    LeftLawful(s);
    AskPortLawful(Leaving(s));
    AtRestIsIdled(AskPort(Leaving(s)).1);
    forall answer | Calmly(s, answer) ensures AskPort(Leaving(s)).1 == Requested(Leaving(s)) {
      CalmAnswer(Leaving(s), answer);
    }
    hide Lawful, AskPort, AtRest, Idled, Leaving, LockLeft, Requested, Calmly;
  }

  // The attempt as it stands when its answer has been taken.
  function Answered(s: Controller, token: AttemptToken, outcome: Outcome): Controller {
    var over := s.(attempts := s.attempts.(pending := None), phase := Idle, waiting := false, prompted := false,
                   responded := false, queued := "", log := s.log + [Ended(token, outcome)] + [Discarded]);
    if outcome == Authenticated
    then over.(attempts := over.attempts.(locked := false), log := over.log + [UnlockAsked(token)])
    else over.(inputStartsAttempt := s.prompted)
  }

  lemma AnsweredIsSettled(s: Controller, token: AttemptToken, outcome: Outcome)
    requires s.attempts.locked
    ensures Answered(s, token, outcome) == Settled(s, token, outcome)
  {
  }

  // A start that waits goes ahead when the runner is free.
  ghost predicate Resumes(h: Controller, next: Controller) {
    if !h.startPending then next == h
    else if Told(h, 0) then next == AfterAsking(h, 1)
    else Starts(AfterAsking(h, 1).(startPending := false), next)
  }

  lemma ResumeMeaning(h: Controller)
    requires Lawful(h)
    ensures Resumes(h, Resume(h))
  {
    FactTold(h);
    FactLawful(h);
    ArmedLawful(AfterAsking(h, 1), false);
    StartsMeaning(AfterAsking(h, 1).(startPending := false));
    hide Lawful, StartAttempt, Starts, Fact, AfterAsking;
  }

  // An answer counts exactly when it is for the pending token of a locked session. It ends the
  // attempt; an approval asks for the unlock and ends the epoch, anything else leaves input armed
  // exactly if the user was asked something. Then a waiting start goes ahead.
  lemma CompletedMeaning(s: Controller, token: AttemptToken, outcome: Outcome)
    requires Lawful(s)
    ensures var next, over := Handle(s, Completed(token, outcome)), Answered(s, token, outcome);
      if !s.attempts.locked || s.attempts.pending != Some(token) then Resumes(s, next)
      else if outcome == Authenticated then
        && over.log <= next.log
        && (forall answer :: Calmly(s, answer) ==> Resumes(Requested(over), next))
      else Resumes(over, next)
  {
    hide Lawful, AskPort, Resume, Resumes, Settled, Answered, Requested, Calmly;
    ResumeMeaning(s);
    if Current(s, token) {
      AnsweredIsSettled(s, token, outcome);
      SettledLawful(s, token, outcome);
      var over := Settled(s, token, outcome);
      ResumeMeaning(over);
      AskPortLawful(over);
      ResumeLawful(AskPort(over).1);
      ResumeMeaning(AskPort(over).1);
      forall answer | Calmly(s, answer) ensures AskPort(over).1 == Requested(over) {
        CalmAfter(s, over, answer);
        CalmAnswer(over, answer);
      }
    }
  }

  lemma CalmAfter(s: Controller, later: Controller, answer: bool)
    requires later.replies == s.replies
    ensures Calmly(s, answer) <==> Calmly(later, answer)
  {
  }
}
