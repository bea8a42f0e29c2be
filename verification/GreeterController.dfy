// The authentication controller and its coordinator as the source runs them, statement by
// statement, against the specification of GreeterPolicy.dfy.

module GreeterController {
  import opened Basics
  import opened WorkerWire
  import opened WorkerClient
  import opened GreeterAuthentication
  import opened GreeterPolicy

  datatype Verdict = Ignored | Retry | Unlock

  class AttemptCoordinator {
    var epoch: uint64
    var request: uint64
    var locked: bool
    var pending: Option<AttemptToken>

    constructor ()
      ensures Value() == Coordinator(0, 0, false, None)
    {
      epoch, request, locked, pending := 0, 0, false, None;
    }

    ghost function Value(): Coordinator
      reads this
    {
      Coordinator(epoch, request, locked, pending)
    }

    method EnterLockedSession()
      modifies this
      ensures Value() == old(Value()).(epoch := Successor(old(epoch)), locked := true, pending := None)
    {
      epoch := Successor(epoch);
      locked := true;
      pending := None;
    }

    method LeaveLockedSession()
      modifies this
      ensures Value() == old(Value()).(epoch := Successor(old(epoch)), locked := false, pending := None)
    {
      epoch := Successor(epoch);
      locked := false;
      pending := None;
    }

    method Begin() returns (token: Option<AttemptToken>)
      modifies this
      ensures token.Some? <==> old(locked) && old(pending).None?
      ensures token.Some? ==> token.value == AttemptToken(old(epoch), Successor(old(request)))
      ensures Value() ==
        if token.Some? then old(Value()).(request := token.value.request, pending := token) else old(Value())
    {
      if !locked || pending.Some? {
        return None;
      }
      request := Successor(request);
      pending := Some(AttemptToken(epoch, request));
      token := pending;
    }

    method Cancel()
      modifies this
      ensures Value() == old(Value()).(pending := None)
    {
      pending := None;
    }

    // A stale answer changes nothing; an approval consumes the whole lock epoch.
    method Complete(token: AttemptToken, outcome: Outcome) returns (verdict: Verdict)
      modifies this
      ensures verdict.Ignored? <==> !(old(locked) && old(pending) == Some(token))
      ensures verdict.Unlock? <==> old(locked) && old(pending) == Some(token) && outcome == Authenticated
      ensures Value() ==
        if verdict.Ignored? then old(Value()) else old(Value()).(locked := outcome != Authenticated, pending := None)
    {
      if !locked || pending.None? || pending.value != token {
        return Ignored;
      }
      pending := None;
      if outcome == Authenticated {
        locked := false;
        return Unlock;
      }
      verdict := Retry;
    }
  }

  class AuthenticationController {
    const attempts: AttemptCoordinator
    var phase: Phase
    var queued: string
    var waiting: bool
    var secret: bool
    var entered: bool
    var inputBeforeLock: bool
    var inputStartsAttempt: bool
    var startPending: bool
    var prompted: bool
    var responded: bool
    var facts: seq<bool>
    var replies: seq<Reply>
    ghost var log: seq<Entry>

    constructor (facts: seq<bool>, replies: seq<Reply>)
      ensures Value() == Created(facts, replies) && fresh(attempts)
    {
      attempts := new AttemptCoordinator();
      phase, queued, waiting, secret, entered := Idle, "", false, true, false;
      inputBeforeLock, inputStartsAttempt, startPending := false, true, false;
      prompted, responded := false, false;
      this.facts, this.replies := facts, replies;
      log := [];
    }

    ghost function Value(): Controller
      reads this, attempts
    {
      Controller(attempts.Value(), phase, queued, waiting, secret, entered, inputBeforeLock, inputStartsAttempt,
                 startPending, prompted, responded, facts, replies, log)
    }

    // A question to a port: isLocked, active.
    method Question() returns (yes: bool)
      modifies this`facts
      ensures (yes, Value()) == Fact(old(Value()))
    {
      if facts == [] {
        return false;
      }
      yes := facts[0];
      facts := facts[1..];
    }

    // A request to a port, which may deliver events before it answers.
    method Request() returns (yes: bool)
      modifies this, attempts
      ensures (yes, Value()) == AskPort(old(Value()))
      decreases |replies|, Pending(Value()), 1
    {
      if replies == [] {
        return false;
      }
      var reply := replies[0];
      replies := replies[1..];
      Deliver(reply.nested);
      yes := reply.answer;
    }

    // Events handled one after the other.
    method Deliver(calls: seq<Call>)
      modifies this, attempts
      ensures Value() == HandleAll(old(Value()), calls)
      decreases |replies|, 2, |calls|
    {
      hide Handle;
      if calls != [] {
        Receive(calls[0]);
        Deliver(calls[1..]);
      }
    }

    method Receive(call: Call)
      modifies this, attempts
      ensures Value() == Handle(old(Value()), call)
      decreases |replies|, Pending(Value()), 10
    {
      hide OnLocked, OnInput, StartAttempt, OnSubmit, SendResponse, OnCancel, OnRejected, OnPrompt, OnCompleted;
      match call {
        case Locked => EnterLock();
        case NoteInput => NoteUserInput();
        case Begin =>
          inputStartsAttempt := true;
          Start();
        case Submit(text) => SubmitResponse(text);
        case Respond(text) =>
          if phase == Prompting {
            Send(text, SentTyped(text));
          }
        case Cancel => CancelAttempt();
        case Rejected => Reject();
        case Prompted(kind) => ShowPrompt(kind);
        case Completed(token, outcome) => Complete(token, outcome);
      }
    }

    method EnterLock()
      modifies this, attempts
      ensures Value() == OnLocked(old(Value()))
      decreases |replies|, Pending(Value()), 8
    {
      hide StartAttempt, EnteredState, Fact;
      if entered {
        return;
      }
      var locked := Question();
      if !locked {
        return;
      }
      var inputArrivedFirst := inputBeforeLock;
      BecomeLocked();
      if inputArrivedFirst {
        Start();
      }
    }

    method BecomeLocked()
      modifies attempts, this`entered, this`log, this`inputStartsAttempt, this`inputBeforeLock
      ensures Value() == EnteredState(old(Value()))
    {
      entered := true;
      attempts.EnterLockedSession();
      Note(Entered);
      inputStartsAttempt := true;
      inputBeforeLock := false;
    }

    method NoteUserInput()
      modifies this, attempts
      ensures Value() == OnInput(old(Value()))
      decreases |replies|, Pending(Value()), 8
    {
      hide StartAttempt;
      if !entered {
        inputBeforeLock := true;
        return;
      }
      if phase != Idle || !inputStartsAttempt {
        return;
      }
      Start();
    }

    method Start()
      modifies this, attempts
      ensures Value() == StartAttempt(old(Value()))
      decreases |replies|, Pending(Value()), 5
    {
      hide AskPort, OnCompleted, Fact, Beginning;
      if phase != Idle {
        return;
      }
      var locked := Question();
      if !locked {
        return;
      }
      var active := Question();
      if active {
        startPending := true;
        return;
      }
      var token := BeginToken();
      if token.None? {
        return;
      }
      var started := Request();
      if !started {
        Complete(token.value, Unavailable);
      }
    }

    // A token is taken and the attempt's fields are reset; the typed text is kept.
    method BeginToken() returns (token: Option<AttemptToken>)
      modifies this, attempts
      ensures var free := old(attempts.locked && attempts.pending.None?);
        token == if free then Some(NextToken(old(Value()))) else None
      ensures Value() == if token.Some? then Beginning(old(Value())) else old(Value())
    {
      token := attempts.Begin();
      if token.None? {
        return;
      }
      Note(Began(token.value));
      startPending := false;
      ResetAttempt();
      phase := Starting;
    }

    method ResumePendingStart()
      modifies this, attempts
      ensures Value() == Resume(old(Value()))
      decreases |replies|, Pending(Value()), 3
    {
      hide StartAttempt;
      if !startPending {
        return;
      }
      var active := Question();
      if active {
        return;
      }
      startPending := false;
      Start();
    }

    method SubmitResponse(response: string)
      modifies this, attempts
      ensures Value() == OnSubmit(old(Value()), response)
      decreases |replies|, Pending(Value()), 8
    {
      hide StartAttempt, SendResponse, Holding, Discarding, Fact;
      var locked := Question();
      if !locked {
        return;
      }
      match phase {
        case Prompting =>
          if secret && response == "" {
            return;
          }
          Send(response, SentTyped(response));
        case Idle =>
          SubmitIdle(response);
        case Starting =>
          Queue(response);
        case Verifying =>
      }
    }

    method SubmitIdle(response: string)
      modifies this, attempts
      ensures var started := StartAttempt(Holding(old(Value()).(inputStartsAttempt := true), response));
        Value() == if started.phase == Idle && !started.startPending then Discarding(started) else started
      decreases |replies|, Pending(Value()), 7
    {
      hide StartAttempt, Holding, Discarding;
      inputStartsAttempt := true;
      Queue(response);
      Start();
      if phase == Idle && !startPending {
        DiscardQueued();
      }
    }

    method Send(response: string, ghost entry: Entry)
      modifies this, attempts
      ensures Value() == SendResponse(old(Value()), response, entry)
      decreases |replies|, Pending(Value()), 6
    {
      hide AskPort, Responding;
      Answer(entry);
      var accepted := Request();
      if !accepted {
        var _ := Request();
      }
    }

    method Answer(ghost entry: Entry)
      modifies this`log, this`waiting, this`phase, this`responded
      ensures Value() == Responding(old(Value()), entry)
    {
      Note(entry);
      waiting, phase, responded := false, Verifying, true;
    }

    method ShowPrompt(kind: MessageKind)
      modifies this, attempts
      ensures Value() == OnPrompt(old(Value()), kind)
      decreases |replies|, Pending(Value()), 8
    {
      hide SendResponse;
      if phase == Idle || attempts.pending.None? {
        return;
      }
      if kind != Secret && kind != Visible {
        return;
      }
      AcceptPrompt(kind == Secret);
      if queued != "" {
        var held := queued;
        queued := "";
        Send(held, SentHeld(held));
      }
    }

    method AcceptPrompt(isSecret: bool)
      modifies this`prompted, this`inputStartsAttempt, this`waiting, this`secret, this`phase, this`queued, this`log
      ensures Value() == Questioned(old(Value()), isSecret)
    {
      hide PromptShown, Discarding;
      var keepTypeAhead := !prompted && isSecret && !responded;
      Show(isSecret);
      if !keepTypeAhead {
        DiscardQueued();
      }
    }

    method Show(isSecret: bool)
      modifies this`prompted, this`inputStartsAttempt, this`waiting, this`secret, this`phase, this`log
      ensures Value() == PromptShown(old(Value()), isSecret)
    {
      hide Noted;
      prompted, inputStartsAttempt, waiting, secret := true, true, true, isSecret;
      phase := Prompting;
      Note(Asked(isSecret));
    }

    // The token is invalidated before the child is killed: its answer may come at once.
    method CancelAttempt()
      modifies this, attempts
      ensures Value() == OnCancel(old(Value()))
      decreases |replies|, Pending(Value()), 8
    {
      hide AskPort, Idled, TokenDropped;
      DropToken();
      var _ := Request();
      BecomeIdle();
      inputStartsAttempt := true;
    }

    method DropToken()
      modifies attempts, this`log
      ensures Value() == TokenDropped(old(Value()))
    {
      attempts.Cancel();
      Note(Dropped);
    }

    method BecomeIdle()
      modifies this`queued, this`waiting, this`secret, this`prompted, this`responded, this`phase, this`startPending,
               this`log
      ensures Value() == Idled(old(Value()))
    {
      hide Discarding, Cleared;
      DiscardQueued();
      ResetAttempt();
      phase := Idle;
      startPending := false;
    }

    method Reject()
      modifies this, attempts
      ensures Value() == OnRejected(old(Value()))
      decreases |replies|, Pending(Value()), 8
    {
      hide AskPort, Idled, LockLeft;
      LeaveLock();
      var _ := Request();
      BecomeIdle();
    }

    method LeaveLock()
      modifies attempts, this`log
      ensures Value() == LockLeft(old(Value()))
    {
      attempts.LeaveLockedSession();
      Note(Left);
    }

    method Complete(token: AttemptToken, outcome: Outcome)
      modifies this, attempts
      ensures Value() == OnCompleted(old(Value()), token, outcome)
      decreases |replies|, Pending(Value()), 4
    {
      hide AskPort, Resume;
      var verdict := Settle(token, outcome);
      if verdict.Unlock? {
        // The sole call site for the standard unlock.
        var _ := Request();
      }
      ResumePendingStart();
    }

    // What a completion does before the session is asked to unlock.
    method Settle(token: AttemptToken, outcome: Outcome) returns (verdict: Verdict)
      modifies this, attempts
      ensures verdict.Ignored? <==> !Current(old(Value()), token)
      ensures verdict.Unlock? <==> Current(old(Value()), token) && outcome == Authenticated
      ensures Value() == if verdict.Ignored? then old(Value()) else Settled(old(Value()), token, outcome)
    {
      hide AttemptEnded, Discarding, Current;
      var wasPrompted := prompted;
      verdict := EndAttempt(token, outcome);
      if !verdict.Ignored? {
        AfterAttempt(token, verdict.Unlock?, wasPrompted);
      }
    }

    method AfterAttempt(token: AttemptToken, unlock: bool, wasPrompted: bool)
      modifies this`queued, this`log, this`inputStartsAttempt
      ensures var idle := Discarding(old(Value()));
        Value() == if unlock then Noted(idle, UnlockAsked(token)) else idle.(inputStartsAttempt := wasPrompted)
    {
      hide Noted, Discarding;
      DiscardQueued();
      if unlock {
        Note(UnlockAsked(token));
      } else {
        inputStartsAttempt := wasPrompted;
      }
    }

    method EndAttempt(token: AttemptToken, outcome: Outcome) returns (verdict: Verdict)
      modifies attempts, this`log, this`phase, this`waiting, this`prompted, this`responded
      ensures verdict.Ignored? <==> !Current(old(Value()), token)
      ensures verdict.Unlock? <==> Current(old(Value()), token) && outcome == Authenticated
      ensures Value() == if verdict.Ignored? then old(Value()) else AttemptEnded(old(Value()), token, outcome)
    {
      hide Noted;
      verdict := attempts.Complete(token, outcome);
      if !verdict.Ignored? {
        phase, waiting, prompted, responded := Idle, false, false, false;
        Note(Ended(token, outcome));
      }
    }

    ghost method Note(entry: Entry)
      modifies this`log
      ensures Value() == Noted(old(Value()), entry)
    {
      log := log + [entry];
    }

    method ResetAttempt()
      modifies this`waiting, this`secret, this`prompted, this`responded
      ensures Value() == Cleared(old(Value()))
    {
      waiting, secret, prompted, responded := false, true, false, false;
    }

    method Queue(response: string)
      modifies this`queued, this`log
      ensures Value() == Holding(old(Value()), response)
    {
      DiscardQueued();
      if response == "" {
        return;
      }
      queued := response;
      Note(Held(response));
    }

    method DiscardQueued()
      modifies this`queued, this`log
      ensures Value() == Discarding(old(Value()))
    {
      queued := "";
      Note(Discarded);
    }
  }
}
