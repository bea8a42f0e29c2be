// The authentication controller as a function of what its ports answer, and the proof that it
// keeps the rules of GreeterAuthentication.dfy: src/lock_greeter/authentication_controller.cpp
// over src/lock_authentication/attempt_coordinator.cpp.

module GreeterPolicy {
  import opened Basics
  import opened WorkerWire
  import opened WorkerClient
  import opened GreeterAuthentication

  datatype MessageKind = Secret | Visible | Information | ErrorMessage

  datatype Phase = Idle | Starting | Prompting | Verifying

  // What the user, the session and the worker can do to the controller.
  datatype Call =
    | Locked
    | NoteInput
    | Begin
    | Submit(text: string)
    | Respond(text: string)
    | Cancel
    | Rejected
    | Prompted(kind: MessageKind)
    | Completed(token: AttemptToken, outcome: Outcome)

  // A port's answer to a request, and the events it delivers before it returns.
  datatype Reply = Reply(answer: bool, nested: seq<Call>)

  datatype Coordinator = Coordinator(epoch: uint64, request: uint64, locked: bool, pending: Option<AttemptToken>)

  // `facts` answers the questions isLocked and active, `replies` the requests start, respond,
  // cancel and unlockAuthenticated; a script that has run out answers no and delivers nothing.
  datatype Controller = Controller(
    attempts: Coordinator, phase: Phase, queued: string, waiting: bool, secret: bool, entered: bool,
    inputBeforeLock: bool, inputStartsAttempt: bool, startPending: bool, prompted: bool, responded: bool,
    facts: seq<bool>, replies: seq<Reply>, log: seq<Entry>)

  function Created(facts: seq<bool>, replies: seq<Reply>): Controller {
    Controller(Coordinator(0, 0, false, None), Idle, "", false, true, false, false, true, false, false, false,
               facts, replies, [])
  }

  // ------------------------------------------------------------- specification

  function Fact(s: Controller): (r: (bool, Controller))
    ensures r.1.replies == s.replies && r.1.startPending == s.startPending
  {
    if s.facts == [] then (false, s) else (s.facts[0], s.(facts := s.facts[1..]))
  }

  function Noted(s: Controller, entry: Entry): Controller {
    s.(log := s.log + [entry])
  }

  function Discarding(s: Controller): (r: Controller)
    ensures r.replies == s.replies && r.startPending == s.startPending
  {
    Noted(s.(queued := ""), Discarded)
  }

  function Holding(s: Controller, text: string): (r: Controller)
    ensures r.replies == s.replies && r.startPending == s.startPending
  {
    if text == "" then Discarding(s) else Noted(Discarding(s).(queued := text), Held(text))
  }

  function Cleared(s: Controller): (r: Controller)
    ensures r.replies == s.replies && r.startPending == s.startPending
  {
    s.(waiting := false, secret := true, prompted := false, responded := false)
  }

  function Pending(s: Controller): nat {
    if s.startPending then 1 else 0
  }

  function AskPort(s: Controller): (r: (bool, Controller))
    ensures |r.1.replies| <= |s.replies|
    ensures if s.replies == [] then r.1 == s else |r.1.replies| < |s.replies|
    decreases |s.replies|, Pending(s), 1
  {
    if s.replies == [] then (false, s)
    else (s.replies[0].answer, HandleAll(s.(replies := s.replies[1..]), s.replies[0].nested))
  }

  function HandleAll(s: Controller, calls: seq<Call>): (r: Controller)
    ensures |r.replies| <= |s.replies|
    decreases |s.replies|, 2, |calls|
  {
    if calls == [] then s else HandleAll(Handle(s, calls[0]), calls[1..])
  }

  function Handle(s: Controller, call: Call): (r: Controller)
    ensures |r.replies| <= |s.replies|
    decreases |s.replies|, Pending(s), 10
  {
    match call
    case Locked => OnLocked(s)
    case NoteInput => OnInput(s)
    case Begin => StartAttempt(s.(inputStartsAttempt := true))
    case Submit(text) => OnSubmit(s, text)
    case Respond(text) => if s.phase == Prompting then SendResponse(s, text, SentTyped(text)) else s
    case Cancel => OnCancel(s)
    case Rejected => OnRejected(s)
    case Prompted(kind) => OnPrompt(s, kind)
    case Completed(token, outcome) => OnCompleted(s, token, outcome)
  }

  function EnteredState(s: Controller): (r: Controller)
    ensures r.replies == s.replies && r.startPending == s.startPending
  {
    Noted(s.(entered := true, inputStartsAttempt := true, inputBeforeLock := false,
             attempts := s.attempts.(epoch := Successor(s.attempts.epoch), locked := true, pending := None)),
          Entered)
  }

  function OnLocked(s: Controller): (r: Controller)
    ensures |r.replies| <= |s.replies|
    decreases |s.replies|, Pending(s), 8
  {
    hide Fact, EnteredState, StartAttempt;
    if s.entered then s
    else
      var (locked, asked) := Fact(s);
      if !locked then asked
      else if s.inputBeforeLock then StartAttempt(EnteredState(asked))
      else EnteredState(asked)
  }

  function OnInput(s: Controller): (r: Controller)
    ensures |r.replies| <= |s.replies|
    decreases |s.replies|, Pending(s), 8
  {
    if !s.entered then s.(inputBeforeLock := true)
    else if s.phase != Idle || !s.inputStartsAttempt then s
    else StartAttempt(s)
  }

  function NextToken(s: Controller): AttemptToken {
    AttemptToken(s.attempts.epoch, Successor(s.attempts.request))
  }

  function Beginning(s: Controller): (r: Controller)
    ensures r.replies == s.replies && !r.startPending
  {
    var token := NextToken(s);
    Cleared(Noted(s.(attempts := s.attempts.(request := token.request, pending := Some(token)), startPending := false),
                  Began(token))).(phase := Starting)
  }

  function StartAttempt(s: Controller): (r: Controller)
    ensures |r.replies| <= |s.replies|
    decreases |s.replies|, Pending(s), 5
  {
    hide Beginning, Fact, AskPort, OnCompleted;
    if s.phase != Idle then s
    else
      var (locked, s1) := Fact(s);
      if !locked then s1
      else
        var (active, s2) := Fact(s1);
        if active then s2.(startPending := true)
        else if !s2.attempts.locked || s2.attempts.pending.Some? then s2
        else
          var (started, s3) := AskPort(Beginning(s2));
          if started then s3 else OnCompleted(s3, NextToken(s2), Unavailable)
  }

  function Resume(s: Controller): (r: Controller)
    ensures |r.replies| <= |s.replies|
    decreases |s.replies|, Pending(s), 3
  {
    if !s.startPending then s
    else
      var (active, asked) := Fact(s);
      if active then asked else StartAttempt(asked.(startPending := false))
  }

  function OnSubmit(s: Controller, text: string): (r: Controller)
    ensures |r.replies| <= |s.replies|
    decreases |s.replies|, Pending(s), 8
  {
    hide Fact, Holding, Discarding, StartAttempt, SendResponse;
    var (locked, asked) := Fact(s);
    if !locked then asked
    else
      match asked.phase
      case Prompting => if asked.secret && text == "" then asked else SendResponse(asked, text, SentTyped(text))
      case Idle =>
        var started := StartAttempt(Holding(asked.(inputStartsAttempt := true), text));
        if started.phase == Idle && !started.startPending then Discarding(started) else started
      case Starting => Holding(asked, text)
      case Verifying => asked
  }

  function Responding(s: Controller, entry: Entry): (r: Controller)
    ensures r.replies == s.replies && r.startPending == s.startPending
  {
    Noted(s.(waiting := false, phase := Verifying, responded := true), entry)
  }

  function SendResponse(s: Controller, text: string, entry: Entry): (r: Controller)
    ensures |r.replies| <= |s.replies|
    decreases |s.replies|, Pending(s), 6
  {
    var (accepted, asked) := AskPort(Responding(s, entry));
    if accepted then asked else AskPort(asked).1
  }

  function PromptShown(s: Controller, isSecret: bool): (r: Controller)
    ensures r.replies == s.replies && r.startPending == s.startPending
  {
    Noted(s.(prompted := true, inputStartsAttempt := true, waiting := true, secret := isSecret, phase := Prompting),
          Asked(isSecret))
  }

  // A prompt that wants an answer. What was typed ahead survives only the first one, and only
  // if it is secret.
  function Questioned(s: Controller, isSecret: bool): (r: Controller)
    ensures r.replies == s.replies && r.startPending == s.startPending
  {
    var next := PromptShown(s, isSecret);
    if !s.prompted && isSecret && !s.responded then next else Discarding(next)
  }

  function OnPrompt(s: Controller, kind: MessageKind): (r: Controller)
    ensures |r.replies| <= |s.replies|
    decreases |s.replies|, Pending(s), 8
  {
    hide Questioned, SendResponse;
    if s.phase == Idle || s.attempts.pending.None? || (kind != Secret && kind != Visible) then s
    else
      var next := Questioned(s, kind == Secret);
      if next.queued == "" then next
      else SendResponse(next.(queued := ""), next.queued, SentHeld(next.queued))
  }

  function TokenDropped(s: Controller): (r: Controller)
    ensures r.replies == s.replies && r.startPending == s.startPending
  {
    Noted(s.(attempts := s.attempts.(pending := None)), Dropped)
  }

  function LockLeft(s: Controller): (r: Controller)
    ensures r.replies == s.replies && r.startPending == s.startPending
  {
    Noted(s.(attempts := s.attempts.(epoch := Successor(s.attempts.epoch), locked := false, pending := None)), Left)
  }

  function Idled(s: Controller): (r: Controller)
    ensures r.replies == s.replies
  {
    Cleared(Discarding(s)).(phase := Idle, startPending := false)
  }

  function OnCancel(s: Controller): (r: Controller)
    ensures |r.replies| <= |s.replies|
    decreases |s.replies|, Pending(s), 8
  {
    Idled(AskPort(TokenDropped(s)).1).(inputStartsAttempt := true)
  }

  function OnRejected(s: Controller): (r: Controller)
    ensures |r.replies| <= |s.replies|
    decreases |s.replies|, Pending(s), 8
  {
    Idled(AskPort(LockLeft(s)).1)
  }

  predicate Current(s: Controller, token: AttemptToken) {
    s.attempts.locked && s.attempts.pending == Some(token)
  }

  function AttemptEnded(s: Controller, token: AttemptToken, outcome: Outcome): (r: Controller)
    ensures r.replies == s.replies && r.startPending == s.startPending
  {
    Noted(s.(attempts := s.attempts.(locked := s.attempts.locked && outcome != Authenticated, pending := None),
             phase := Idle, waiting := false, prompted := false, responded := false),
          Ended(token, outcome))
  }

  // What a current completion does before anyone is asked anything.
  function Settled(s: Controller, token: AttemptToken, outcome: Outcome): (r: Controller)
    ensures r.replies == s.replies && r.startPending == s.startPending
  {
    var idle := Discarding(AttemptEnded(s, token, outcome));
    if outcome == Authenticated then Noted(idle, UnlockAsked(token)) else idle.(inputStartsAttempt := s.prompted)
  }

  function OnCompleted(s: Controller, token: AttemptToken, outcome: Outcome): (r: Controller)
    ensures |r.replies| <= |s.replies|
    decreases |s.replies|, Pending(s), 4
  {
    hide Settled, AskPort, Resume, Current;
    if !Current(s, token) then Resume(s)
    else if outcome == Authenticated then Resume(AskPort(Settled(s, token, outcome)).1)
    else Resume(Settled(s, token, outcome))
  }

  // ------------------------------------------------------------------ invariant

  // The log breaks no rule, and the fields say what its ledger says.
  ghost predicate Lawful(s: Controller) {
    Account(s.log).Some? && Agrees(s, Account(s.log).value)
  }

  ghost predicate Agrees(s: Controller, l: Ledger) {
    && l.entered == s.entered && l.locked == s.attempts.locked && l.pending == s.attempts.pending
    && l.epoch == s.attempts.epoch && l.request == s.attempts.request
    && l.approved.None? && l.held == s.queued && l.answered <= l.asked
    && (s.phase != Idle ==> s.prompted == (l.asked > 0) && s.responded == (l.answered > 0))
    && (s.phase == Prompting ==> l.answered < l.asked && s.secret == l.secret)
    && (s.phase == Starting ==> !s.prompted && !s.responded)
  }

  // Lawful, and nothing the log said before is taken back.
  ghost predicate Continues(s: Controller, next: Controller) {
    Lawful(next) && s.log <= next.log
  }

  lemma NotedAccount(s: Controller, entry: Entry)
    requires Account(s.log).Some?
    ensures Account(Noted(s, entry).log) == Apply(Account(s.log).value, entry)
    ensures s.log <= Noted(s, entry).log
  {
    AccountLast(s.log, entry);
  }

  lemma DiscardingLawful(s: Controller)
    requires Lawful(s)
    ensures Continues(s, Discarding(s))
  {
    NotedAccount(s.(queued := ""), Discarded);
    hide Account;
  }

  lemma HoldingLawful(s: Controller, text: string)
    requires Lawful(s) && s.phase != Prompting
    ensures Continues(s, Holding(s, text))
  {
    DiscardingLawful(s);
    NotedAccount(s.(queued := ""), Discarded);
    NotedAccount(Discarding(s).(queued := text), Held(text));
    hide Account;
  }

  lemma EnteredLawful(s: Controller)
    requires Lawful(s) && !s.entered
    ensures Continues(s, EnteredState(s))
  {
    NotedAccount(s, Entered);
    hide Account;
  }

  lemma BeginningLawful(s: Controller)
    requires Lawful(s) && s.attempts.locked && s.attempts.pending.None?
    ensures Continues(s, Beginning(s))
  {
    NotedAccount(s, Began(NextToken(s)));
    hide Account;
  }

  lemma SettledLawful(s: Controller, token: AttemptToken, outcome: Outcome)
    requires Lawful(s) && Current(s, token)
    ensures Continues(s, Settled(s, token, outcome))
  {
    var first, second := s.log + [Ended(token, outcome)], s.log + [Ended(token, outcome)] + [Discarded];
    AccountLast(s.log, Ended(token, outcome));
    AccountLast(first, Discarded);
    if outcome == Authenticated {
      AccountLast(second, UnlockAsked(token));
      hide Account;
    } else {
      hide Account;
    }
  }

  lemma PromptingLawful(s: Controller, isSecret: bool)
    requires Lawful(s) && s.phase != Idle && s.attempts.pending.Some?
    ensures var next := Questioned(s, isSecret);
      && Continues(s, next) && next.phase == Prompting
      && (next.queued != "" ==> Apply(Account(next.log).value, SentHeld(next.queued)).Some?)
  {
    var first := s.log + [Asked(isSecret)];
    AccountLast(s.log, Asked(isSecret));
    AccountLast(first, Discarded);
    hide Account;
  }

  // ------------------------------------------------------- every step is lawful

  lemma FactLawful(s: Controller)
    requires Lawful(s)
    ensures Continues(s, Fact(s).1)
    ensures var t := Fact(s).1;
      t.phase == s.phase && t.entered == s.entered && t.attempts == s.attempts && t.inputBeforeLock == s.inputBeforeLock
  {
    hide Account, Apply;
    if s.facts != [] {
      assert Fact(s).1 == s.(facts := s.facts[1..]);
    }
  }

  lemma ArmedLawful(s: Controller, flag: bool)
    requires Lawful(s)
    ensures Continues(s, s.(inputStartsAttempt := flag)) && Continues(s, s.(startPending := flag))
  {
    hide Account;
  }

  lemma {:induction false} AskPortLawful(s: Controller)
    requires Lawful(s)
    ensures Continues(s, AskPort(s).1)
    decreases |s.replies|, Pending(s), 1
  {
    if s.replies != [] {
      var popped := s.(replies := s.replies[1..]);
      assert Lawful(popped) by {
        hide Account;
      }
      hide Lawful, HandleAll;
      HandleAllLawful(popped, s.replies[0].nested);
    }
  }

  lemma {:induction false} HandleAllLawful(s: Controller, calls: seq<Call>)
    requires Lawful(s)
    ensures Continues(s, HandleAll(s, calls))
    decreases |s.replies|, 2, |calls|
  {
    hide Lawful, Handle;
    if calls != [] {
      HandleLawful(s, calls[0]);
      HandleAllLawful(Handle(s, calls[0]), calls[1..]);
    }
  }

  lemma {:induction false} HandleLawful(s: Controller, call: Call)
    requires Lawful(s)
    ensures Continues(s, Handle(s, call))
    decreases |s.replies|, Pending(s), 10
  {
    match call {
      case Locked => OnLockedLawful(s);
      case NoteInput => OnInputLawful(s);
      case Begin =>
        ArmedLawful(s, true);
        hide Lawful, StartAttempt;
        StartAttemptLawful(s.(inputStartsAttempt := true));
      case Submit(text) => OnSubmitLawful(s, text);
      case Respond(text) =>
        if s.phase == Prompting {
          TypedAllowed(s, text);
          hide Lawful, Agrees, SendResponse, Apply, Account;
          SendResponseLawful(s, text, SentTyped(text));
        }
      case Cancel => OnCancelLawful(s);
      case Rejected => OnRejectedLawful(s);
      case Prompted(kind) => OnPromptLawful(s, kind);
      case Completed(token, outcome) => OnCompletedLawful(s, token, outcome);
    }
  }

  lemma {:induction false} OnLockedLawful(s: Controller)
    requires Lawful(s)
    ensures Continues(s, OnLocked(s))
    decreases |s.replies|, Pending(s), 8
  {
    FactLawful(s);
    var (locked, asked) := Fact(s);
    if !s.entered && locked {
      EnteredLawful(asked);
      hide Lawful, EnteredState, StartAttempt, Fact;
      if s.inputBeforeLock {
        StartAttemptLawful(EnteredState(asked));
      }
    }
  }

  lemma {:induction false} OnInputLawful(s: Controller)
    requires Lawful(s)
    ensures Continues(s, OnInput(s))
    decreases |s.replies|, Pending(s), 8
  {
    if !s.entered {
      hide Account;
    } else if s.phase == Idle && s.inputStartsAttempt {
      hide Lawful, StartAttempt;
      StartAttemptLawful(s);
    }
  }

  lemma {:induction false} StartAttemptLawful(s: Controller)
    requires Lawful(s)
    ensures Continues(s, StartAttempt(s))
    decreases |s.replies|, Pending(s), 5
  {
    hide Lawful, Fact, AskPort, OnCompleted, Beginning, NextToken;
    if s.phase == Idle {
      FactLawful(s);
      var (locked, s1) := Fact(s);
      FactLawful(s1);
      var (active, s2) := Fact(s1);
      ArmedLawful(s2, true);
      if locked && !active && s2.attempts.locked && s2.attempts.pending.None? {
        StartedLawful(s2);
      }
    }
  }

  lemma {:induction false} StartedLawful(s: Controller)
    requires Lawful(s) && s.attempts.locked && s.attempts.pending.None?
    ensures var (started, next) := AskPort(Beginning(s));
      Continues(s, if started then next else OnCompleted(next, NextToken(s), Unavailable))
    decreases |s.replies|, Pending(s), 5, 0
  {
    hide Lawful, AskPort, OnCompleted, Beginning, NextToken;
    BeginningLawful(s);
    AskPortLawful(Beginning(s));
    var (started, next) := AskPort(Beginning(s));
    if !started {
      OnCompletedLawful(next, NextToken(s), Unavailable);
    }
  }

  lemma {:induction false} ResumeLawful(s: Controller)
    requires Lawful(s)
    ensures Continues(s, Resume(s))
    decreases |s.replies|, Pending(s), 3
  {
    if s.startPending {
      FactLawful(s);
      var (active, asked) := Fact(s);
      ArmedLawful(asked, false);
      hide Lawful, Fact, StartAttempt;
      if !active {
        StartAttemptLawful(asked.(startPending := false));
      }
    }
  }

  lemma {:induction false} OnSubmitLawful(s: Controller, text: string)
    requires Lawful(s)
    ensures Continues(s, OnSubmit(s, text))
    decreases |s.replies|, Pending(s), 8
  {
    hide Lawful, Fact, SendResponse, StartAttempt, Holding, Discarding, Sendable;
    FactLawful(s);
    var (locked, asked) := Fact(s);
    if locked {
      match asked.phase {
        case Prompting =>
          TypedAllowed(asked, text);
          SendResponseLawful(asked, text, SentTyped(text));
        case Idle =>
          var ready := asked.(inputStartsAttempt := true);
          ArmedLawful(asked, true);
          HoldingLawful(ready, text);
          StartAttemptLawful(Holding(ready, text));
          DiscardingLawful(StartAttempt(Holding(ready, text)));
        case Starting =>
          HoldingLawful(asked, text);
        case Verifying =>
      }
    }
  }

  // A typed response is allowed whenever a prompt is on screen.
  lemma TypedAllowed(s: Controller, text: string)
    requires Lawful(s) && s.phase == Prompting
    ensures Sendable(s, text, SentTyped(text))
  {
    hide Account;
  }

  // The entry fits the ledger, and the response is the one it names.
  ghost predicate Sendable(s: Controller, text: string, entry: Entry) {
    && (entry == SentTyped(text) || (entry == SentHeld(text) && s.queued == ""))
    && s.phase == Prompting && Account(s.log).Some?
    && Agrees(if entry.SentHeld? then s.(queued := text) else s, Account(s.log).value)
    && Apply(Account(s.log).value, entry).Some?
  }

  lemma SentLawful(s: Controller, text: string, entry: Entry)
    requires Sendable(s, text, entry)
    ensures Continues(s, Responding(s, entry))
  {
    NotedAccount(s, entry);
    hide Account;
  }

  lemma {:induction false} SendResponseLawful(s: Controller, text: string, entry: Entry)
    requires Sendable(s, text, entry)
    ensures Continues(s, SendResponse(s, text, entry))
    decreases |s.replies|, Pending(s), 6
  {
    hide Lawful, AskPort, Sendable;
    SentLawful(s, text, entry);
    var sent := Responding(s, entry);
    AskPortLawful(sent);
    AskPortLawful(AskPort(sent).1);
  }

  lemma HeldAllowed(next: Controller)
    requires Lawful(next) && next.phase == Prompting && next.queued != ""
    requires Apply(Account(next.log).value, SentHeld(next.queued)).Some?
    ensures Sendable(next.(queued := ""), next.queued, SentHeld(next.queued))
  {
    hide Account;
  }

  lemma {:induction false} OnPromptLawful(s: Controller, kind: MessageKind)
    requires Lawful(s)
    ensures Continues(s, OnPrompt(s, kind))
    decreases |s.replies|, Pending(s), 8
  {
    if s.phase != Idle && s.attempts.pending.Some? && (kind == Secret || kind == Visible) {
      PromptingLawful(s, kind == Secret);
      var next := Questioned(s, kind == Secret);
      hide Lawful, Account, Apply, Sendable, SendResponse, Questioned;
      if next.queued != "" {
        HeldAllowed(next);
        SendResponseLawful(next.(queued := ""), next.queued, SentHeld(next.queued));
      }
    }
  }

  // What a cancellation or a rejection leaves.
  lemma IdledLawful(s: Controller)
    requires Lawful(s)
    ensures Continues(s, Idled(s))
  {
    DiscardingLawful(s);
    hide Account;
  }

  lemma DroppedLawful(s: Controller)
    requires Lawful(s)
    ensures Continues(s, TokenDropped(s))
  {
    NotedAccount(s, Dropped);
    hide Account;
  }

  lemma LeftLawful(s: Controller)
    requires Lawful(s)
    ensures Continues(s, LockLeft(s))
  {
    NotedAccount(s, Left);
    hide Account;
  }

  lemma {:induction false} OnCancelLawful(s: Controller)
    requires Lawful(s)
    ensures Continues(s, OnCancel(s))
    decreases |s.replies|, Pending(s), 8
  {
    hide Lawful, AskPort, Idled, TokenDropped;
    DroppedLawful(s);
    AskPortLawful(TokenDropped(s));
    IdledLawful(AskPort(TokenDropped(s)).1);
    ArmedLawful(Idled(AskPort(TokenDropped(s)).1), true);
  }

  lemma {:induction false} OnRejectedLawful(s: Controller)
    requires Lawful(s)
    ensures Continues(s, OnRejected(s))
    decreases |s.replies|, Pending(s), 8
  {
    hide Lawful, AskPort, Idled, LockLeft;
    LeftLawful(s);
    AskPortLawful(LockLeft(s));
    IdledLawful(AskPort(LockLeft(s)).1);
  }

  lemma {:induction false} OnCompletedLawful(s: Controller, token: AttemptToken, outcome: Outcome)
    requires Lawful(s)
    ensures Continues(s, OnCompleted(s, token, outcome))
    decreases |s.replies|, Pending(s), 4
  {
    hide Lawful, AskPort, Resume, Settled;
    if !Current(s, token) {
      ResumeLawful(s);
    } else {
      SettledLawful(s, token, outcome);
      var settled := Settled(s, token, outcome);
      if outcome == Authenticated {
        AskPortLawful(settled);
        ResumeLawful(AskPort(settled).1);
      } else {
        ResumeLawful(settled);
      }
    }
  }

  // ------------------------------------------------------------------- theorems

  // Over every run, whatever the ports answer and deliver at whatever depth, the log breaks no
  // rule; so the unlock is asked for at most once, and every lemma about unbroken logs applies.
  lemma RunLawful(calls: seq<Call>, facts: seq<bool>, replies: seq<Reply>)
    ensures var run := HandleAll(Created(facts, replies), calls);
      Lawful(run) && Account(run.log).Some? && Unlocks(run.log) <= 1
  {
    var run := HandleAll(Created(facts, replies), calls);
    HandleAllLawful(Created(facts, replies), calls);
    hide HandleAll, Agrees;
    AtMostOneUnlock(run.log);
  }

  // An approval of the pending token does ask for the unlock, at once.
  lemma ApprovalAsksForUnlock(s: Controller, token: AttemptToken)
    requires Lawful(s) && Current(s, token)
    ensures s.log + [Ended(token, Authenticated), Discarded, UnlockAsked(token)] <=
      OnCompleted(s, token, Authenticated).log
  {
    var settled := Settled(s, token, Authenticated);
    assert settled.log == s.log + [Ended(token, Authenticated), Discarded, UnlockAsked(token)];
    SettledLawful(s, token, Authenticated);
    hide Lawful, AskPort, Resume, Settled;
    AskPortLawful(settled);
    ResumeLawful(AskPort(settled).1);
  }

  // A response held while an attempt starts is sent to its first prompt if that is secret.
  lemma HeldIsDelivered(s: Controller)
    requires Lawful(s) && s.phase == Starting && s.attempts.pending.Some? && s.queued != ""
    ensures s.log + [Asked(true), SentHeld(s.queued)] <= OnPrompt(s, Secret).log
  {
    var next := Questioned(s, true);
    assert next.log == s.log + [Asked(true)] && next.queued == s.queued;
    PromptingLawful(s, true);
    HeldAllowed(next);
    var entry := SentHeld(next.queued);
    var ready := next.(queued := "");
    SentLawful(ready, next.queued, entry);
    var sent := Responding(ready, entry);
    assert sent.log == s.log + [Asked(true), SentHeld(s.queued)];
    hide Lawful, AskPort, Questioned, Sendable;
    AskPortLawful(sent);
    AskPortLawful(AskPort(sent).1);
  }

  // Calls that are no input of the user's.
  predicate Inert(call: Call) {
    !call.NoteInput? && !call.Begin? && !call.Submit?
  }

  // No input has been seen or is on its way, and no start is pending.
  ghost predicate Quiet(s: Controller) {
    && !s.inputBeforeLock && !s.startPending
    && forall reply, call :: reply in s.replies && call in reply.nested ==> Inert(call)
  }

  ghost predicate StartsNothing(s: Controller, next: Controller) {
    Quiet(next) && Begins(next.log) == Begins(s.log)
  }

  lemma BeginsLast(log: seq<Entry>, entry: Entry)
    ensures Begins(log + [entry]) == Begins(log) + if entry.Began? then 1 else 0
  {
    assert (log + [entry])[..|log|] == log;
  }

  lemma {:induction false} QuietAskPort(s: Controller)
    requires Quiet(s)
    ensures StartsNothing(s, AskPort(s).1)
    decreases |s.replies|, Pending(s), 1
  {
    if s.replies != [] {
      var popped := s.(replies := s.replies[1..]);
      assert Quiet(popped) && forall call :: call in s.replies[0].nested ==> Inert(call);
      hide Quiet, HandleAll, Begins;
      QuietHandleAll(popped, s.replies[0].nested);
    }
  }

  lemma {:induction false} QuietHandleAll(s: Controller, calls: seq<Call>)
    requires Quiet(s) && forall call :: call in calls ==> Inert(call)
    ensures StartsNothing(s, HandleAll(s, calls))
    decreases |s.replies|, 2, |calls|
  {
    hide Quiet, Handle, Begins, Inert;
    if calls != [] {
      QuietHandle(s, calls[0]);
      QuietHandleAll(Handle(s, calls[0]), calls[1..]);
    }
  }

  lemma {:induction false} QuietHandle(s: Controller, call: Call)
    requires Quiet(s) && Inert(call)
    ensures StartsNothing(s, Handle(s, call))
    decreases |s.replies|, Pending(s), 10
  {
    hide Quiet, Begins, OnLocked, SendResponse, OnCancel, OnRejected, OnPrompt, OnCompleted;
    match call {
      case Locked => QuietLocked(s);
      case Respond(text) =>
        if s.phase == Prompting {
          QuietSend(s, text, SentTyped(text));
        }
      case Cancel => QuietCancel(s);
      case Rejected => QuietRejected(s);
      case Prompted(kind) => QuietPrompt(s, kind);
      case Completed(token, outcome) => QuietCompleted(s, token, outcome);
    }
  }

  lemma QuietLocked(s: Controller)
    requires Quiet(s)
    ensures StartsNothing(s, OnLocked(s))
  {
    BeginsLast(s.log, Entered);
    hide Begins, Inert, StartAttempt;
  }

  lemma {:induction false} QuietCancel(s: Controller)
    requires Quiet(s)
    ensures StartsNothing(s, OnCancel(s))
    decreases |s.replies|, Pending(s), 8
  {
    var dropped := TokenDropped(s);
    BeginsLast(s.log, Dropped);
    QuietAskPort(dropped);
    BeginsLast(AskPort(dropped).1.log, Discarded);
    hide Begins, AskPort;
  }

  lemma {:induction false} QuietRejected(s: Controller)
    requires Quiet(s)
    ensures StartsNothing(s, OnRejected(s))
    decreases |s.replies|, Pending(s), 8
  {
    var left := LockLeft(s);
    BeginsLast(s.log, Left);
    QuietAskPort(left);
    BeginsLast(AskPort(left).1.log, Discarded);
    hide Begins, AskPort;
  }

  lemma {:induction false} QuietSend(s: Controller, text: string, entry: Entry)
    requires Quiet(s) && !entry.Began?
    ensures StartsNothing(s, SendResponse(s, text, entry))
    decreases |s.replies|, Pending(s), 6
  {
    var sent := Responding(s, entry);
    BeginsLast(s.log, entry);
    assert StartsNothing(s, sent) by {
      hide Begins;
    }
    hide Quiet, Begins, AskPort;
    QuietAskPort(sent);
    QuietAskPort(AskPort(sent).1);
  }

  lemma {:induction false} QuietPrompt(s: Controller, kind: MessageKind)
    requires Quiet(s)
    ensures StartsNothing(s, OnPrompt(s, kind))
    decreases |s.replies|, Pending(s), 8
  {
    if s.phase != Idle && s.attempts.pending.Some? && (kind == Secret || kind == Visible) {
      var next := Questioned(s, kind == Secret);
      BeginsLast(s.log, Asked(kind == Secret));
      BeginsLast(s.log + [Asked(kind == Secret)], Discarded);
      assert StartsNothing(s, next) && Quiet(next.(queued := "")) by {
        hide Begins;
      }
      hide Quiet, Begins, SendResponse, Questioned;
      if next.queued != "" {
        QuietSend(next.(queued := ""), next.queued, SentHeld(next.queued));
      }
    }
  }

  lemma {:induction false} QuietCompleted(s: Controller, token: AttemptToken, outcome: Outcome)
    requires Quiet(s)
    ensures StartsNothing(s, OnCompleted(s, token, outcome))
    decreases |s.replies|, Pending(s), 4
  {
    if Current(s, token) {
      var first, second := s.log + [Ended(token, outcome)], s.log + [Ended(token, outcome)] + [Discarded];
      BeginsLast(s.log, Ended(token, outcome));
      BeginsLast(first, Discarded);
      BeginsLast(second, UnlockAsked(token));
      var settled := Settled(s, token, outcome);
      assert StartsNothing(s, settled) by {
        hide Begins;
      }
      hide Begins, AskPort, Settled;
      QuietAskPort(settled);
    }
  }

  // Nothing starts an attempt without input: as long as no key press, click, submission or
  // request of the user's arrives, at any depth, no attempt begins.
  lemma NoInputNoAttempt(calls: seq<Call>, facts: seq<bool>, replies: seq<Reply>)
    requires forall call :: call in calls ==> Inert(call)
    requires forall reply, call :: reply in replies && call in reply.nested ==> Inert(call)
    ensures Begins(HandleAll(Created(facts, replies), calls).log) == 0
  {
    QuietHandleAll(Created(facts, replies), calls);
  }
}
