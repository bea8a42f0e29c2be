// The greeter's side of one disposable authentication worker:
// src/lock_worker_client/worker_process.cpp. System calls answer from scripts; a script that
// has run out answers that the call would block.

module WorkerClient {
  import opened Basics
  import opened WorkerWire

  datatype Outcome = Authenticated | Denied | AccountDenied | Cancelled | Unavailable | TimedOut

  datatype Prompt = Prompt(kind: byte, text: Bytes)

  const MAXIMUM_MESSAGES: nat := 64
  const DIGIT_ZERO: byte := 48

  // --------------------------------------------------- the conversation, as values

  datatype Event = Heard(frame: WireFrame) | Responded(payload: Bytes)

  datatype Talk = Talk(waiting: bool, messages: nat, result: Option<Outcome>, prompts: seq<Prompt>)

  const SILENCE := Talk(false, 0, None, [])

  function OutcomeOf(digit: nat): Outcome
    requires digit <= 4
  {
    match digit
    case 0 => Authenticated
    case 1 => Denied
    case 2 => AccountDenied
    case 3 => Cancelled
    case _ => Unavailable
  }

  // One frame from the worker; None when it breaks the conversation.
  function Hear(token: AttemptToken, t: Talk, frame: WireFrame): Option<Talk> {
    var expected := frame.token == token && t.result.None? && !t.waiting;
    :- Need(expected);
    if frame.kind == RESULT then
      :- Need(|frame.payload| == 1 && DIGIT_ZERO <= frame.payload[0] <= DIGIT_ZERO + 4);
      Some(t.(result := Some(OutcomeOf((frame.payload[0] - DIGIT_ZERO) as nat))))
    else
      :- Need(t.messages < MAXIMUM_MESSAGES && SECRET <= frame.kind <= ERROR);
      Some(Talk(frame.kind == SECRET || frame.kind == VISIBLE, t.messages + 1, None,
                t.prompts + [Prompt(frame.kind, frame.payload)]))
  }

  function Say(t: Talk): Option<Talk> {
    if t.waiting && t.result.None? then Some(t.(waiting := false)) else None
  }

  function Conversation(token: AttemptToken, history: seq<Event>): Option<Talk> {
    if history == [] then Some(SILENCE)
    else
      var t :- Conversation(token, history[..|history| - 1]);
      match history[|history| - 1]
      case Heard(frame) => Hear(token, t, frame)
      case Responded(_) => Say(t)
  }

  function Hearings(frames: seq<WireFrame>): seq<Event> {
    if frames == [] then [] else Hearings(frames[..|frames| - 1]) + [Heard(frames[|frames| - 1])]
  }

  function FramesOf(history: seq<Event>): seq<WireFrame> {
    if history == [] then []
    else
      var last := history[|history| - 1];
      FramesOf(history[..|history| - 1]) + if last.Heard? then [last.frame] else []
  }

  function ResponsesOf(token: AttemptToken, history: seq<Event>): seq<WireFrame> {
    if history == [] then []
    else
      var last := history[|history| - 1];
      ResponsesOf(token, history[..|history| - 1]) +
      if last.Responded? then [WireFrame(RESPONSE, token, last.payload)] else []
  }

  // Prompts that ask for an answer.
  function Questions(prompts: seq<Prompt>): nat {
    if prompts == [] then 0
    else
      var last := prompts[|prompts| - 1];
      Questions(prompts[..|prompts| - 1]) + if last.kind == SECRET || last.kind == VISIBLE then 1 else 0
  }

  lemma ConversationLast(token: AttemptToken, history: seq<Event>, event: Event)
    ensures Conversation(token, history + [event]) ==
      match Conversation(token, history)
      case None => None
      case Some(t) => (match event case Heard(frame) => Hear(token, t, frame) case Responded(_) => Say(t))
    ensures FramesOf(history + [event]) == FramesOf(history) + if event.Heard? then [event.frame] else []
    ensures ResponsesOf(token, history + [event]) == ResponsesOf(token, history) +
              if event.Responded? then [WireFrame(RESPONSE, token, event.payload)] else []
  {
    assert (history + [event])[..|history|] == history;
  }

  lemma {:induction false} BrokenStaysBroken(token: AttemptToken, history: seq<Event>, more: seq<Event>)
    requires Conversation(token, history).None?
    ensures Conversation(token, history + more).None?
  {
    if more == [] {
      assert history + more == history;
    } else {
      BrokenStaysBroken(token, history, more[..|more| - 1]);
      assert (history + more)[..|history + more| - 1] == history + more[..|more| - 1];
    }
  }

  lemma HearingsFirst(frame: WireFrame, frames: seq<WireFrame>)
    ensures Hearings([frame] + frames) == [Heard(frame)] + Hearings(frames)
  {
    HearingsJoin([frame], frames);
    assert Hearings([frame]) == [Heard(frame)] by {
      assert [frame][..0] == [];
    }
  }

  lemma {:induction false} HearingsJoin(a: seq<WireFrame>, b: seq<WireFrame>)
    ensures Hearings(a + b) == Hearings(a) + Hearings(b)
  {
    if b == [] {
      assert a + b == a;
    } else {
      assert (a + b)[..|a + b| - 1] == a + b[..|b| - 1];
      HearingsJoin(a, b[..|b| - 1]);
    }
  }

  lemma FramesLast(history: seq<Event>, event: Event)
    ensures FramesOf(history + [event]) == FramesOf(history) + if event.Heard? then [event.frame] else []
  {
    assert (history + [event])[..|history|] == history;
  }

  lemma Answering(token: AttemptToken, history: seq<Event>, t: Talk, payload: Bytes)
    requires Conversation(token, history) == Some(t) && t.waiting && t.result.None?
    ensures var next := history + [Responded(payload)];
      && Conversation(token, next) == Some(t.(waiting := false))
      && FramesOf(next) == FramesOf(history)
      && ResponsesOf(token, next) == ResponsesOf(token, history) + [WireFrame(RESPONSE, token, payload)]
  {
    ConversationLast(token, history, Responded(payload));
  }

  // What a step of an unbroken conversation does.
  lemma TalkStep(token: AttemptToken, before: Talk, event: Event, after: Talk)
    requires Some(after) ==
      match event
      case Heard(frame) => Hear(token, before, frame)
      case Responded(_) => Say(before)
    ensures before.result.None?
    ensures match event
      case Responded(_) => before.waiting && after == before.(waiting := false)
      case Heard(frame) =>
        && frame.token == token && !before.waiting
        && if frame.kind == RESULT
           then after == before.(result := after.result) && after.result.Some? && Reports(frame, after.result.value)
           else
             && after.result.None? && before.messages < MAXIMUM_MESSAGES && after.messages == before.messages + 1
             && after.prompts == before.prompts + [Prompt(frame.kind, frame.payload)]
             && (after.waiting <==> frame.kind == SECRET || frame.kind == VISIBLE)
  {
  }

  // A frame of this attempt goes on with the conversation exactly when no result stands, no
  // question is open, and it is one of fewer than sixty-five messages of kinds 2 to 5 or a result
  // of kind 8 with one byte from '0' to '4'. Kinds 2 and 3 open a question.
  lemma HearMeaning(token: AttemptToken, t: Talk, frame: WireFrame)
    ensures Hear(token, t, frame).Some? <==>
      && frame.token == token && t.result.None? && !t.waiting
      && (|| (frame.kind == 8 && frame.payload in [[48], [49], [50], [51], [52]])
          || (2 <= frame.kind <= 5 && t.messages < 64))
    ensures Hear(token, t, frame).Some? && frame.kind != 8 ==>
      Hear(token, t, frame) == Some(Talk(frame.kind == 2 || frame.kind == 3, t.messages + 1, None,
                                         t.prompts + [Prompt(frame.kind, frame.payload)]))
    ensures Hear(token, t, frame).Some? && frame.kind == 8 ==>
      && Hear(token, t, frame).value == t.(result := Hear(token, t, frame).value.result)
      && Hear(token, t, frame).value.result.Some? && Says([frame], Hear(token, t, frame).value.result.value)
  {
    if |frame.payload| == 1 {
      assert frame.payload == [frame.payload[0]];
    }
  }

  lemma QuestionsLast(prompts: seq<Prompt>, last: Prompt)
    ensures Questions(prompts + [last]) ==
            Questions(prompts) + if last.kind == SECRET || last.kind == VISIBLE then 1 else 0
  {
    assert (prompts + [last])[..|prompts|] == prompts;
  }

  // At most sixty-four messages were shown, and every response answered a question of its own.
  ghost predicate Balanced(t: Talk, responses: nat) {
    && |t.prompts| == t.messages <= MAXIMUM_MESSAGES
    && Questions(t.prompts) == responses + (if t.waiting then 1 else 0)
  }

  lemma BalancedStep(token: AttemptToken, before: Talk, event: Event, after: Talk, responses: nat)
    requires Balanced(before, responses)
    requires Some(after) ==
      match event
      case Heard(frame) => Hear(token, before, frame)
      case Responded(_) => Say(before)
    ensures Balanced(after, responses + if event.Responded? then 1 else 0)
  {
    TalkStep(token, before, event, after);
    hide Hear, Say, Reports, Questions;
    if event.Heard? {
      QuestionsLast(before.prompts, Prompt(event.frame.kind, event.frame.payload));
    }
  }

  lemma {:induction false} ConversationCounts(token: AttemptToken, history: seq<Event>)
    requires Conversation(token, history).Some?
    ensures Balanced(Conversation(token, history).value, |ResponsesOf(token, history)|)
  {
    if history != [] {
      var init, last := history[..|history| - 1], history[|history| - 1];
      assert history == init + [last];
      ConversationCounts(token, init);
      ConversationLast(token, init, last);
      hide Conversation, FramesOf, ResponsesOf, Hear, Say, Balanced;
      BalancedStep(token, Conversation(token, init).value, last, Conversation(token, history).value,
                   |ResponsesOf(token, init)|);
    }
  }

  // All the frames carry the attempt's token, and a result is the last thing heard.
  ghost predicate Tells(token: AttemptToken, frames: seq<WireFrame>, result: Option<Outcome>) {
    && (forall f :: f in frames ==> f.token == token)
    && (result.Some? ==> frames != [] && Reports(Last(frames), result.value))
    && (forall i :: 0 <= i < |frames| && frames[i].kind == RESULT ==> result.Some? && i == |frames| - 1)
  }

  lemma TellsMore(token: AttemptToken, frames: seq<WireFrame>, frame: WireFrame, result: Option<Outcome>)
    requires Tells(token, frames, None) && frame.token == token
    requires if frame.kind == RESULT then result.Some? && Reports(frame, result.value) else result.None?
    ensures Tells(token, frames + [frame], result)
  {
    hide Reports;
  }

  lemma {:induction false} ConversationFacts(token: AttemptToken, history: seq<Event>)
    requires Conversation(token, history).Some?
    ensures Tells(token, FramesOf(history), Conversation(token, history).value.result)
  {
    if history != [] {
      var init, last := history[..|history| - 1], history[|history| - 1];
      assert history == init + [last];
      ConversationFacts(token, init);
      ConversationLast(token, init, last);
      TalkStep(token, Conversation(token, init).value, last, Conversation(token, history).value);
      hide Conversation, FramesOf, ResponsesOf, Hear, Say, Reports, Tells;
      match last {
        case Heard(frame) => TellsMore(token, FramesOf(init), frame, Conversation(token, history).value.result);
        case Responded(_) => assert FramesOf(init) + [] == FramesOf(init);
      }
    }
  }

  function Last<T>(s: seq<T>): T
    requires s != []
  {
    s[|s| - 1]
  }

  // The frame is a result frame carrying this outcome's digit.
  predicate Reports(frame: WireFrame, outcome: Outcome) {
    && frame.kind == RESULT && |frame.payload| == 1 && DIGIT_ZERO <= frame.payload[0] <= DIGIT_ZERO + 4
    && OutcomeOf((frame.payload[0] - DIGIT_ZERO) as nat) == outcome
  }

  // The last frame is a result frame whose one byte, '0' to '4', stands for this outcome.
  ghost predicate Says(frames: seq<WireFrame>, outcome: Outcome) {
    && frames != [] && Last(frames).kind == 8
    && (|| (Last(frames).payload == [48] && outcome == Authenticated)
        || (Last(frames).payload == [49] && outcome == Denied)
        || (Last(frames).payload == [50] && outcome == AccountDenied)
        || (Last(frames).payload == [51] && outcome == Cancelled)
        || (Last(frames).payload == [52] && outcome == Unavailable))
  }

  // There is a result exactly when the last frame is a result frame, and it is the one the
  // frame's byte stands for.
  lemma ConversationResult(token: AttemptToken, history: seq<Event>)
    requires Conversation(token, history).Some?
    ensures var result, frames := Conversation(token, history).value.result, FramesOf(history);
      && (result.Some? <==> frames != [] && Last(frames).kind == 8)
      && (result.Some? ==> Says(frames, result.value) && Last(frames).token == token)
  {
    ConversationFacts(token, history);
    hide Conversation, FramesOf;
    var result, frames := Conversation(token, history).value.result, FramesOf(history);
    if result.Some? {
      ReportedByte(Last(frames), result.value);
      assert Last(frames) in frames;
    }
  }

  lemma ReportedByte(frame: WireFrame, outcome: Outcome)
    requires Reports(frame, outcome)
    ensures Says([frame], outcome)
  {
    assert frame.payload == [frame.payload[0]];
  }

  // ---------------------------------------------------------------- the object

  datatype Received = RecvInterrupted | RecvBlocks | RecvEnds | RecvBytes(bytes: Bytes)
  datatype Sent = SendInterrupted | SendBlocks | SendFails | Accepts(count: nat)

  // How a run of send() calls ends for this many bytes, and how many it takes.
  datatype Push = Push(ok: bool, taken: nat)

  function Pushed(left: nat, answers: seq<Sent>): (p: Push)
    ensures p.taken <= left
    ensures p.taken == left ==> p.ok
    decreases |answers|
  {
    if left == 0 || answers == [] then Push(true, 0)
    else
      match answers[0]
      case SendInterrupted => Pushed(left, answers[1..])
      case SendBlocks => Push(true, 0)
      case SendFails => Push(false, 0)
      case Accepts(count) =>
        if count == 0 then Push(false, 0)
        else
          var n := Min(count, left);
          var more := Pushed(left - n, answers[1..]);
          Push(more.ok, n + more.taken)
  }

  // So many bytes have been taken, and these answers are still to come unless the socket failed.
  ghost predicate Pushing(total: nat, answers: seq<Sent>, done: nat, ok: bool, left: seq<Sent>) {
    && done <= total
    && Pushed(total, answers) ==
         if ok then Push(Pushed(total - done, left).ok, done + Pushed(total - done, left).taken) else Push(false, done)
  }

  lemma PushingBegins(total: nat, answers: seq<Sent>)
    ensures Pushing(total, answers, 0, true, answers)
  {
  }

  lemma PushingStep(total: nat, answers: seq<Sent>, done: nat, left: seq<Sent>)
    requires done < total && left != [] && Pushing(total, answers, done, true, left)
    ensures match left[0]
      case SendInterrupted => Pushing(total, answers, done, true, left[1..])
      case SendBlocks => Pushing(total, answers, done, true, [])
      case SendFails => Pushing(total, answers, done, false, left[1..])
      case Accepts(count) =>
        if count == 0 then Pushing(total, answers, done, false, left[1..])
        else Pushing(total, answers, done + Min(count, total - done), true, left[1..])
  {
  }

  lemma PushingEnds(total: nat, answers: seq<Sent>, done: nat, ok: bool, left: seq<Sent>)
    requires Pushing(total, answers, done, ok, left) && (!ok || done == total || left == [])
    ensures Pushed(total, answers) == Push(ok, done)
  {
  }

  lemma SliceEmpty(prefix: Bytes, s: Bytes, a: nat)
    requires a <= |s|
    ensures prefix + s[a..a] == prefix
  {
  }

  lemma SliceGrows(prefix: Bytes, s: Bytes, a: nat, b: nat, c: nat)
    requires a <= b <= c <= |s|
    ensures prefix + s[a..b] + s[b..c] == prefix + s[a..c]
  {
    assert s[a..b] + s[b..c] == s[a..c];
  }

  // All the bytes these answers accept.
  function Offered(answers: seq<Sent>): nat {
    if answers == [] then 0
    else
      var last := answers[|answers| - 1];
      Offered(answers[..|answers| - 1]) + if last.Accepts? then last.count else 0
  }

  lemma {:induction false} OfferedFirst(first: Sent, rest: seq<Sent>)
    ensures Offered([first] + rest) == (if first.Accepts? then first.count else 0) + Offered(rest)
  {
    if rest == [] {
      assert [first] + rest == [first] && [first][..0] == [];
    } else {
      assert ([first] + rest)[..|rest|] == [first] + rest[..|rest| - 1];
      OfferedFirst(first, rest[..|rest| - 1]);
    }
  }

  lemma PushedFirst(left: nat, answers: seq<Sent>)
    requires left > 0 && answers != [] && (answers[0].SendInterrupted? || (answers[0].Accepts? && answers[0].count > 0))
    ensures var taken := if answers[0].Accepts? then Min(answers[0].count, left) else 0;
      Pushed(left, answers) == Push(Pushed(left - taken, answers[1..]).ok, taken + Pushed(left - taken,
      answers[1..]).taken)
  {
  }

  // Sending goes on through interruptions and partial writes until all is taken, the socket would
  // block, or it fails; only a failure, or a write of nothing, is one.
  lemma {:induction false} PushedMeaning(left: nat, answers: seq<Sent>) returns (n: nat)
    ensures n <= |answers|
    ensures forall i :: 0 <= i < n ==> answers[i].SendInterrupted? || (answers[i].Accepts? && answers[i].count > 0)
    ensures var p := Pushed(left, answers);
      && p.taken == Min(left, Offered(answers[..n]))
      && (p.taken < left && n < |answers| ==>
        !answers[n].SendInterrupted? && (answers[n].Accepts? ==> answers[n].count == 0))
      && (p.ok <==> p.taken == left || n == |answers| || answers[n].SendBlocks?)
    decreases |answers|
  {
    n := 0;
    if left > 0 && answers != [] && (answers[0].SendInterrupted? || (answers[0].Accepts? && answers[0].count > 0)) {
      var taken := if answers[0].Accepts? then Min(answers[0].count, left) else 0;
      var k := PushedMeaning(left - taken, answers[1..]);
      n := k + 1;
      assert answers[..n] == [answers[0]] + answers[1..][..k];
      OfferedFirst(answers[0], answers[1..][..k]);
      PushedFirst(left, answers);
      hide Offered, Pushed;
    }
  }

  predicate Sends(frame: WireFrame, answers: seq<Sent>) {
    Encodable(frame) && Pushed(|Encode(frame).value|, answers).ok
  }

  // The chunks a run of recv() calls delivers before it would block or ends.
  function Chunks(answers: seq<Received>): seq<Bytes> {
    if answers == [] then []
    else
      match answers[0]
      case RecvInterrupted => Chunks(answers[1..])
      case RecvBlocks => []
      case RecvEnds => []
      case RecvBytes(bytes) =>
        var chunk := bytes[..Min(|bytes|, MAXIMUM_FRAME_BYTES)];
        if chunk == [] then [] else [chunk] + Chunks(answers[1..])
  }

  // No more is received after this answer.
  predicate StopsReceiving(answer: Received) {
    answer.RecvBlocks? || answer.RecvEnds? || (answer.RecvBytes? && answer.bytes == [])
  }

  // What these answers deliver, a maximal frame at a time.
  function Delivered(answers: seq<Received>): seq<Bytes> {
    if answers == [] then []
    else
      var last := answers[|answers| - 1];
      Delivered(answers[..|answers| - 1]) +
      if last.RecvBytes? then [if |last.bytes| <= 4120 then last.bytes else last.bytes[..4120]] else []
  }

  lemma {:induction false} DeliveredFirst(first: Received, rest: seq<Received>)
    ensures Delivered([first] + rest) == Delivered([first]) + Delivered(rest)
  {
    if rest == [] {
      assert [first] + rest == [first];
    } else {
      assert ([first] + rest)[..|rest|] == [first] + rest[..|rest| - 1];
      DeliveredFirst(first, rest[..|rest| - 1]);
    }
  }

  lemma NothingDelivered()
    ensures Delivered([]) == []
  {
  }

  lemma DeliveredOne(first: Received)
    ensures Delivered([first]) ==
            if first.RecvBytes? then [if |first.bytes| <= 4120 then first.bytes else first.bytes[..4120]] else []
  {
    assert [first][..0] == [];
  }

  // Receiving goes on through interruptions until it would block, the channel ends, or nothing is
  // delivered.
  lemma {:induction false} ChunksMeaning(answers: seq<Received>) returns (n: nat)
    ensures n <= |answers| && (n < |answers| ==> StopsReceiving(answers[n]))
    ensures forall i :: 0 <= i < n ==> !StopsReceiving(answers[i])
    ensures Chunks(answers) == Delivered(answers[..n])
  {
    hide Chunks, Delivered;
    n := 0;
    if answers == [] {
      NoChunks();
    } else {
      NextChunk(answers);
      if !StopsReceiving(answers[0]) {
        var k := ChunksMeaning(answers[1..]);
        n := k + 1;
        assert forall i :: 0 < i < |answers| ==> answers[i] == answers[1..][i - 1];
        if answers[0].RecvBytes? {
          var bytes := answers[0].bytes;
          assert bytes[..|bytes|] == bytes;
        }
        assert answers[..n] == [answers[0]] + answers[1..][..k];
        DeliveredFirst(answers[0], answers[1..][..k]);
        DeliveredOne(answers[0]);
      }
    }
    if n == 0 {
      NothingDelivered();
      assert answers[..0] == [];
    }
  }

  function Final(failure: Option<Outcome>, result: Option<Outcome>, clean: bool): Outcome {
    if failure.Some? then failure.value else if clean && result.Some? then result.value else Unavailable
  }

  lemma FinalFailure(result: Option<Outcome>)
    ensures forall clean :: Final(Some(Unavailable), result, clean) == Unavailable
  {
  }

  datatype Completion = Completion(token: AttemptToken, outcome: Outcome)

  datatype Effect = ChildStarted | ChildKilled | ChildGone | ChannelClosed

  // A child has been started and has neither been killed nor gone by itself.
  ghost predicate ChildAlive(effects: seq<Effect>) {
    effects != [] &&
    match effects[|effects| - 1]
    case ChildStarted => true
    case ChannelClosed => ChildAlive(effects[..|effects| - 1])
    case _ => false
  }

  // A worker never sees the channel end while it can still run.
  ghost predicate KilledFirst(effects: seq<Effect>) {
    forall i :: 0 <= i < |effects| && effects[i] == ChannelClosed ==> !ChildAlive(effects[..i])
  }

  lemma EffectLast(effects: seq<Effect>, effect: Effect)
    ensures ChildAlive(effects + [effect]) <==> effect.ChildStarted? || (effect.ChannelClosed? && ChildAlive(effects))
    ensures KilledFirst(effects + [effect]) <==>
              KilledFirst(effects) && (effect == ChannelClosed ==> !ChildAlive(effects))
  {
    var next := effects + [effect];
    assert next[..|effects|] == effects;
    assert forall i :: 0 <= i < |effects| ==> next[i] == effects[i] && next[..i] == effects[..i];
    hide ChildAlive;
    if KilledFirst(next) {
      forall i | 0 <= i < |effects| && effects[i] == ChannelClosed ensures !ChildAlive(effects[..i]) {
        assert next[i] == ChannelClosed;
      }
      if effect == ChannelClosed {
        assert next[|effects|] == ChannelClosed;
      }
    }
  }

  class WorkerProcess {
    var running: bool               // QProcess::state() is not NotRunning
    var open: bool                  // the channel's descriptor is ours
    var reading: bool               // read notifier enabled
    var active: bool
    var waiting: bool
    var token: AttemptToken
    var incoming: Bytes
    var outgoing: Bytes
    var written: nat
    var messages: nat
    var result: Option<Outcome>
    var failure: Option<Outcome>
    // Signals emitted, in order.
    var prompts: seq<Prompt>        // of this attempt
    var completions: seq<Completion>
    // What was done to the child and to the channel, in order.
    var effects: seq<Effect>
    // This attempt's traffic.
    ghost var received: Bytes
    ghost var wire: Bytes
    ghost var promised: seq<WireFrame>
    ghost var history: seq<Event>
    ghost var starts: nat

    constructor ()
      ensures Valid() && completions == [] && !active && !running
    {
      running, open, reading, active, waiting := false, false, false, false, false;
      token := AttemptToken(0, 0);
      incoming, outgoing, written, messages := [], [], 0, 0;
      result, failure := None, None;
      prompts, completions, effects := [], [], [];
      received, wire, promised, history, starts := [], [], [], [], 0;
    }

    // While the channel is open: every byte received is accounted for by whole frames and the
    // buffer, the frames heard and the responses sent form an unbroken conversation, and every
    // byte handed to the socket belongs to the frames promised, in order.
    ghost predicate Valid()
      reads this`open, this`active, this`waiting, this`token, this`incoming, this`outgoing, this`written, this`messages,
            this`result, this`failure, this`prompts, this`completions, this`received, this`wire, this`promised,
            this`history, this`starts, this`effects, this`running
    {
      && Tidy()
      && (open ==> active && failure.None?)
      && (active && !open ==> failure.Some?)
      && (open ==> Framed() && Conversing() && Flowing())
    }

    lemma ValidParts()
      requires Valid()
      ensures Tidy() && (active && !open ==> failure.Some?)
      ensures open ==> failure.None? && Framed() && Conversing() && Flowing()
    {
    }

    lemma ValidIdle()
      requires Tidy() && !active
      ensures Valid()
    {
    }

    lemma ValidOpen()
      requires Tidy() && open && failure.None? && Framed() && Conversing() && Flowing()
      ensures Valid()
    {
    }

    // What holds even while an attempt is being torn down.
    ghost predicate Tidy()
      reads this`open, this`active, this`waiting, this`incoming, this`outgoing, this`written, this`failure,
            this`completions, this`starts, this`effects, this`running
    {
      && Orderly()
      && (open ==> active)
      && (!open ==> Closed())
      && (!active ==> !waiting)
      && |completions| + (if active then 1 else 0) == starts
      && failure != Some(Authenticated)
    }

    // A child is alive exactly when one runs behind an open channel, and it was killed or gone
    // before any channel closed.
    ghost predicate Orderly()
      reads this`open, this`effects, this`running
    {
      KilledFirst(effects) && (ChildAlive(effects) <==> running && open)
    }

    ghost predicate Framed()
      reads this`received, this`history, this`incoming
    {
      Deframe(received) == Framing(FramesOf(history), incoming, false)
    }

    ghost predicate Conversing()
      reads this`token, this`history, this`waiting, this`messages, this`result, this`prompts
    {
      Conversation(token, history) == Some(Talk(waiting, messages, result, prompts))
    }

    ghost predicate Flowing()
      reads this`written, this`outgoing, this`wire, this`promised, this`token, this`history
    {
      && Queued()
      && promised == [WireFrame(BEGIN, token, [])] + ResponsesOf(token, history)
    }

    // The frames promised are what the socket took followed by what is still buffered.
    ghost predicate Queued()
      reads this`written, this`outgoing, this`wire, this`promised
    {
      && written <= |outgoing|
      && AllEncodable(promised)
      && EncodeAll(promised) == wire + outgoing[written..]
    }

    // What the channel's end leaves: nothing buffered, nothing more to say.
    ghost predicate Closed()
      reads this`open, this`incoming, this`outgoing, this`written
    {
      !open && incoming == [] && outgoing == [] && written == 0
    }

    // The attempt has failed for this reason; with no child left it is also over.
    ghost predicate Failed(reason: Outcome, before: seq<Completion>)
      reads this
    {
      && failure == Some(reason) && Closed() && active == running
      && completions == if running then before else before + [Completion(token, reason)]
    }

    // While the object lives its channel closes behind no living child.
    method CloseChannel()
      requires KilledFirst(effects) && !ChildAlive(effects)
      modifies this`open, this`reading, this`incoming, this`outgoing, this`written, this`effects
      ensures Closed() && KilledFirst(effects) && !ChildAlive(effects)
      ensures effects == if old(open) then old(effects) + [ChannelClosed] else old(effects)
    {
      Discard();
    }

    method Complete(outcome: Outcome)
      modifies this`active, this`waiting, this`completions
      ensures !active && (old(active) ==> !waiting)
      ensures completions == if old(active) then old(completions) + [Completion(token, outcome)] else old(completions)
      ensures !old(active) ==> waiting == old(waiting)
    {
      if !active {
        return;
      }
      active, waiting := false, false;
      completions := completions + [Completion(token, outcome)];
    }

    // The child is killed before the channel closes; without a child the attempt is over.
    method Abort(reason: Outcome)
      requires Tidy() && reason != Authenticated
      modifies this`failure, this`effects, this`open, this`reading, this`incoming, this`outgoing, this`written,
               this`active, this`waiting, this`completions
      ensures old(active) ==>
        Valid() && Failed(reason, old(completions)) && failure == Some(reason) && active == running
      ensures old(active) ==>
        effects == old(effects) + (if running then [ChildKilled] else []) + (if old(open) then [ChannelClosed] else [])
      ensures !old(active) ==>
        failure == old(failure) && open == old(open) && incoming == old(incoming) && outgoing == old(outgoing)
        && written == old(written) && waiting == old(waiting) && !active && completions == old(completions)
        && effects == old(effects)
    {
      hide KilledFirst, ChildAlive, WorkerProcess.Framed, WorkerProcess.Conversing, WorkerProcess.Flowing;
      if active {
        failure := Some(reason);
        KillChild();
        CloseChannel();
        if !running {
          Complete(reason);
        }
      }
    }

    method KillChild()
      requires Orderly()
      modifies this`effects
      ensures KilledFirst(effects) && !ChildAlive(effects)
      ensures effects == old(effects) + if running then [ChildKilled] else []
    {
      EffectLast(effects, ChildKilled);
      if running {
        effects := effects + [ChildKilled];
      }
    }

    // The destructor closes the channel before it kills: a worker sees the channel end exactly
    // when it still runs behind an open one.
    method Destroy()
      requires Valid()
      modifies this`open, this`reading, this`incoming, this`outgoing, this`written, this`effects
      ensures Closed() && !ChildAlive(effects)
      ensures effects ==
        old(effects) + (if old(open) then [ChannelClosed] else []) + (if running then [ChildKilled] else [])
      ensures KilledFirst(effects) <==> !(old(open) && old(running))
    {
      hide KilledFirst, ChildAlive, WorkerProcess.Framed, WorkerProcess.Conversing, WorkerProcess.Flowing;
      Discard();
      EffectLast(effects, ChildKilled);
      if running {
        effects := effects + [ChildKilled];
      }
    }

    // closeChannel, whoever may still be at the other end.
    method Discard()
      modifies this`open, this`reading, this`incoming, this`outgoing, this`written, this`effects
      ensures Closed() && (ChildAlive(effects) <==> old(ChildAlive(effects)))
      ensures effects == if old(open) then old(effects) + [ChannelClosed] else old(effects)
      ensures KilledFirst(effects) <==> old(KilledFirst(effects)) && !(old(open) && old(ChildAlive(effects)))
    {
      hide KilledFirst, ChildAlive;
      EffectLast(effects, ChannelClosed);
      if open {
        effects := effects + [ChannelClosed];
      }
      open, reading := false, false;
      outgoing, incoming, written := [], [], 0;
    }

    method Cancel()
      requires Valid()
      modifies this
      ensures Valid()
      ensures old(active) ==> Failed(Cancelled, old(completions))
    {
      Abort(Cancelled);
    }

    // Hands as much of the buffer to the socket as it takes. False on a transport failure.
    method Flush(answers: seq<Sent>) returns (ok: bool)
      requires open ==> Queued()
      modifies this`written, this`outgoing, this`wire
      ensures !open ==> !ok && written == old(written) && outgoing == old(outgoing) && wire == old(wire)
      ensures open ==> Queued() && old(written <= |outgoing|)
      ensures open ==>
        var p := Pushed(old(|outgoing| - written), answers);
        && ok == p.ok
        && wire == old(wire) + old(outgoing)[old(written)..old(written) + p.taken]
        && (outgoing, written) ==
             if p.taken == old(|outgoing| - written) then ([], 0) else (old(outgoing), old(written) + p.taken)
    {
      if !open {
        return false;
      }
      hide EncodeAll, AllEncodable;
      ghost var start := written;
      ok := PushBytes(answers);
      assert outgoing[start..] == outgoing[start..written] + outgoing[written..];
      assert old(wire) + (outgoing[start..written] + outgoing[written..]) == wire + outgoing[written..];
      if written == |outgoing| {
        outgoing, written := [], 0;
      }
    }

    // The loop over send().
    method PushBytes(answers: seq<Sent>) returns (ok: bool)
      requires written <= |outgoing|
      modifies this`written, this`wire
      ensures old(written) <= written <= |outgoing|
      ensures Pushed(|outgoing| - old(written), answers) == Push(ok, written - old(written))
      ensures wire == old(wire) + outgoing[old(written)..written]
    {
      hide Pushed, Pushing;
      ghost var start, total := written, |outgoing| - written;
      ok := true;
      var left := answers;
      SliceEmpty(wire, outgoing, start);
      PushingBegins(total, answers);
      while ok && written < |outgoing| && left != []
        invariant start <= written <= |outgoing|
        invariant wire == old(wire) + outgoing[start..written]
        invariant Pushing(total, answers, written - start, ok, left)
        decreases |left|
      {
        PushingStep(total, answers, written - start, left);
        var answer := left[0];
        left := left[1..];
        match answer {
          case SendInterrupted =>
          case SendBlocks => left := [];
          case SendFails => ok := false;
          case Accepts(count) =>
            if count == 0 {
              ok := false;
            } else {
              var taken := Min(count, |outgoing| - written);
              SliceGrows(old(wire), outgoing, start, written, written + taken);
              wire := wire + outgoing[written..written + taken];
              written := written + taken;
            }
        }
      }
      PushingEnds(total, answers, written - start, ok, left);
    }

    // One frame at a time: nothing is queued behind an unsent one.
    method Send(frame: WireFrame, answers: seq<Sent>) returns (ok: bool)
      requires open ==> Queued()
      modifies this`written, this`outgoing, this`wire, this`promised
      ensures !open ==> !ok && written == old(written) && outgoing == old(outgoing)
      ensures ok <==> open && old(outgoing) == [] && Sends(frame, answers)
      ensures ok ==> Queued() && promised == old(promised) + [frame]
    {
      if outgoing != [] || !open {
        return false;
      }
      var encoded := EncodeFrame(frame);
      if encoded.None? {
        return false;
      }
      EncodeAllLast(promised, frame);
      outgoing, written := encoded.value, 0;
      promised := promised + [frame];
      assert outgoing[0..] == outgoing;
      ok := Flush(answers);
    }

    // A question stands unanswered in a live attempt.
    ghost predicate Awaiting()
      reads this
    {
      active && waiting && result.None? && failure.None?
    }

    method Respond(response: Bytes, answers: seq<Sent>) returns (ok: bool)
      requires Valid()
      modifies this
      ensures Valid()
      ensures ok <==> old(Awaiting()) && old(outgoing) == [] && Sends(WireFrame(RESPONSE, token, response), answers)
      ensures !old(Awaiting()) ==>
        history == old(history) && promised == old(promised) && completions == old(completions)
      ensures old(Awaiting()) <==> old(active && waiting && result.None? && failure.None?)
      ensures old(Awaiting()) && !ok ==> Failed(Unavailable, old(completions))
      ensures ok ==> open && !waiting && history == old(history) + [Responded(response)]
      ensures ok ==> promised == old(promised) + [WireFrame(RESPONSE, token, response)]
    {
      hide Conversation, ResponsesOf, FramesOf, Deframe, Sends, WorkerProcess.Valid, WorkerProcess.Failed;
      if !active || !waiting || result.Some? || failure.Some? {
        return false;
      }
      ok := RespondNow(response, answers);
    }

    method RespondNow(response: Bytes, answers: seq<Sent>) returns (ok: bool)
      requires Valid() && Awaiting()
      modifies this
      ensures Valid()
      ensures ok <==> old(outgoing) == [] && Sends(WireFrame(RESPONSE, token, response), answers)
      ensures if ok then open && !waiting && history == old(history) + [Responded(response)]
              else Failed(Unavailable, old(completions))
      ensures ok ==> promised == old(promised) + [WireFrame(RESPONSE, token, response)]
    {
      hide Conversation, ResponsesOf, FramesOf, Deframe, Sends, WorkerProcess.Valid, WorkerProcess.Framed,
           WorkerProcess.Flowing, WorkerProcess.Closed, WorkerProcess.Failed;
      ValidParts();
      waiting := false;
      ok := SendResponse(response, answers);
      if ok {
        ValidOpen();
      } else {
        Abort(Unavailable);
      }
    }

    // The sending half of Respond: what was a question is now answered, or nothing was said.
    method SendResponse(response: Bytes, answers: seq<Sent>) returns (ok: bool)
      requires open && Framed() && Flowing() && result.None?
      requires Conversation(token, history) == Some(Talk(true, messages, result, prompts)) && !waiting
      modifies this`written, this`outgoing, this`wire, this`promised, this`history
      ensures ok <==> old(outgoing) == [] && Sends(WireFrame(RESPONSE, token, response), answers)
      ensures ok ==> Framed() && Flowing() && Conversing()
      ensures ok ==> history == old(history) + [Responded(response)]
      ensures ok ==> promised == old(promised) + [WireFrame(RESPONSE, token, response)]
    {
      ghost var h, p := history, promised;
      assert p == [WireFrame(BEGIN, token, [])] + ResponsesOf(token, h) && Queued();
      assert Deframe(received) == Framing(FramesOf(h), incoming, false);
      hide Conversation, ResponsesOf, FramesOf, Deframe, Sends, WorkerProcess.Queued, WorkerProcess.Framed,
           WorkerProcess.Flowing, WorkerProcess.Conversing;
      ok := Send(WireFrame(RESPONSE, token, response), answers);
      history := history + [Responded(response)];
      if ok {
        Answered(h, p, response);
      }
    }

    lemma Answered(h: seq<Event>, p: seq<WireFrame>, response: Bytes)
      requires Deframe(received) == Framing(FramesOf(h), incoming, false) && Queued()
      requires Conversation(token, h) == Some(Talk(true, messages, result, prompts)) && !waiting && result.None?
      requires p == [WireFrame(BEGIN, token, [])] + ResponsesOf(token, h)
      requires history == h + [Responded(response)] && promised == p + [WireFrame(RESPONSE, token, response)]
      ensures Framed() && Flowing() && Conversing()
    {
      Answering(token, h, Talk(true, messages, result, prompts), response);
      PromisedMore(WireFrame(BEGIN, token, []), ResponsesOf(token, h), WireFrame(RESPONSE, token, response));
      hide Conversation, ResponsesOf, FramesOf, Deframe, WorkerProcess.Queued;
    }

    ghost function TalkNow(): Talk
      reads this
    {
      Talk(waiting, messages, result, prompts)
    }

    // The conversation goes on, with nothing else changed, or the attempt has failed.
    twostate predicate Reacted(frame: WireFrame)
      reads this
    {
      var t := Hear(token, old(TalkNow()), frame);
      if t.Some? then
        && Tidy() && open && failure.None? && t.value == TalkNow() && history == old(history) + [Heard(frame)]
        && incoming == old(incoming) && (old(Queued()) ==> Queued()) && completions == old(completions)
      else Valid() && Failed(Unavailable, old(completions))
    }

    // What hearing one frame does to the conversation.
    method Consume(frame: WireFrame)
      requires Tidy() && open && failure.None?
      modifies this`failure, this`effects, this`open, this`reading, this`incoming, this`outgoing, this`written,
               this`active, this`waiting, this`completions, this`result, this`messages, this`prompts, this`history
      ensures Reacted(frame)
    {
      if frame.token != token || result.Some? || failure.Some? {
        Abort(Unavailable);
      } else if frame.kind == RESULT {
        ConsumeResult(frame);
      } else {
        ConsumeMessage(frame);
      }
    }

    method ConsumeResult(frame: WireFrame)
      requires Tidy() && open && failure.None? && frame.token == token && result.None? && frame.kind == RESULT
      modifies this`failure, this`effects, this`open, this`reading, this`incoming, this`outgoing, this`written,
               this`active, this`waiting, this`completions, this`result, this`history
      ensures Reacted(frame)
    {
      hide KilledFirst, ChildAlive, WorkerProcess.Queued;
      if waiting || |frame.payload| != 1 || frame.payload[0] < DIGIT_ZERO || frame.payload[0] > DIGIT_ZERO + 4 {
        Abort(Unavailable);
      } else {
        result := Some(OutcomeOf((frame.payload[0] - DIGIT_ZERO) as nat));
        history := history + [Heard(frame)];
      }
    }

    method ConsumeMessage(frame: WireFrame)
      requires Tidy() && open && failure.None? && frame.token == token && result.None? && frame.kind != RESULT
      modifies this`failure, this`effects, this`open, this`reading, this`incoming, this`outgoing, this`written,
               this`active, this`waiting, this`completions, this`messages, this`prompts, this`history
      ensures Reacted(frame)
    {
      hide KilledFirst, ChildAlive, WorkerProcess.Queued;
      var accepted := !waiting;
      if accepted {
        messages := messages + 1;
        accepted := messages <= MAXIMUM_MESSAGES && frame.kind in {SECRET, VISIBLE, INFORMATION, ERROR};
      }
      if accepted {
        waiting := frame.kind == SECRET || frame.kind == VISIBLE;
        prompts := prompts + [Prompt(frame.kind, frame.payload)];
        history := history + [Heard(frame)];
      } else {
        Abort(Unavailable);
      }
    }

    // Framing not yet finished: the buffer still holds whole frames.
    ghost predicate Framing'()
      reads this`received, this`history, this`incoming
    {
      var d := Deframe(incoming);
      Deframe(received) == Framing(FramesOf(history) + d.frames, d.rest, d.aborted)
    }

    // One frame cut off the buffer, and what it means for the conversation.
    method HearFrame(frame: WireFrame)
      requires Tidy() && open && failure.None? && Conversing() && Flowing()
      modifies this`failure, this`effects, this`open, this`reading, this`incoming, this`outgoing, this`written,
               this`active, this`waiting, this`completions, this`result, this`messages, this`prompts, this`history
      ensures Tidy() && (failure.Some? <==> Conversation(token, old(history) + [Heard(frame)]).None?)
      ensures failure.Some? ==> Valid() && Failed(Unavailable, old(completions))
      ensures failure.None? ==> open && Conversing() && Flowing() && history == old(history) + [Heard(frame)]
      ensures failure.None? ==> incoming == old(incoming) && completions == old(completions)
    {
      ConversationLast(token, history, Heard(frame));
      hide Conversation, Deframe, FramesOf, ResponsesOf, Hear, WorkerProcess.Queued;
      Consume(frame);
    }

    // Mid-loop: what is still to be cut off completes the history to `all`.
    ghost predicate Cutting(all: seq<Event>, d: Framing)
      reads this
    {
      && Tidy() && open && failure.None? && Framing'() && Conversing() && Flowing()
      && Conversation(token, history).Some?
      && var now := Deframe(incoming);
         history + Hearings(now.frames) == all && now.rest == d.rest && now.aborted == d.aborted
    }

    // One round of the inner loop of drain. False when the buffer holds no whole frame or the
    // attempt has failed.
    method CutFrame(ghost all: seq<Event>, ghost d: Framing) returns (more: bool)
      requires Cutting(all, d) && |incoming| >= HEADER_BYTES
      modifies this`failure, this`effects, this`open, this`reading, this`incoming, this`outgoing, this`written,
               this`active, this`waiting, this`completions, this`result, this`messages, this`prompts, this`history
      ensures failure.None? ==> Cutting(all, d) && completions == old(completions)
      ensures failure.None? ==>
        if more then |incoming| < old(|incoming|) else Deframe(incoming) == Framing([], incoming, false)
      ensures failure.Some? ==> Valid() && Failed(Unavailable, old(completions)) && !more
      ensures failure.Some? ==> d.aborted || Conversation(token, all).None?
    {
      hide Conversation, Deframe, FramesOf, ResponsesOf, Hearings, Decode, Number, WorkerProcess.Flowing,
           WorkerProcess.Conversing, WorkerProcess.Closed, WorkerProcess.Valid, WorkerProcess.Failed;
      NumberOfTwo(incoming[6..8]);
      CutOne(incoming);
      var length := incoming[6] as nat * 256 + incoming[7] as nat;
      if length > MAXIMUM_PROMPT_BYTES {
        Abort(Unavailable);
        return false;
      }
      var total := HEADER_BYTES + length;
      if |incoming| < total {
        return false;
      }
      var frame := DecodeFrame(incoming[..total]);
      incoming := incoming[total..];
      if frame.None? {
        Abort(Unavailable);
        return false;
      }
      ghost var next, rest := history + [Heard(frame.value)], Hearings(Deframe(incoming).frames);
      HearingsFirst(frame.value, Deframe(incoming).frames);
      FramesLast(history, Heard(frame.value));
      assert history + ([Heard(frame.value)] + rest) == next + rest;
      HearFrame(frame.value);
      if failure.Some? {
        BrokenStaysBroken(token, next, rest);
        return false;
      }
      more := true;
    }

    // The inner loop of drain: whole frames are cut off the buffer and heard one by one.
    method CutFrames()
      requires Tidy() && open && failure.None? && Framing'() && Conversing() && Flowing()
      modifies this`failure, this`effects, this`open, this`reading, this`incoming, this`outgoing, this`written,
               this`active, this`waiting, this`completions, this`result, this`messages, this`prompts, this`history
      ensures Valid()
      ensures var d, all := Deframe(old(incoming)), old(history) + Hearings(Deframe(old(incoming)).frames);
        if d.aborted || Conversation(token, all).None? then Failed(Unavailable, old(completions))
        else open && history == all && incoming == d.rest && completions == old(completions)
    {
      ghost var d := Deframe(incoming);
      ghost var all := history + Hearings(d.frames);
      assert Cutting(all, d);
      hide Conversation, Deframe, FramesOf, ResponsesOf, Hearings, WorkerProcess.Flowing, WorkerProcess.Conversing,
           WorkerProcess.Closed;
      var more := true;
      while more && |incoming| >= HEADER_BYTES
        invariant Cutting(all, d) && completions == old(completions)
        invariant !more ==> Deframe(incoming) == Framing([], incoming, false)
        decreases more, |incoming|
      {
        more := CutFrame(all, d);
        if failure.Some? {
          return;
        }
      }
      ShortRest(incoming);
      assert history + [] == history;
      assert FramesOf(history) + [] == FramesOf(history);
    }

    // One chunk from the socket.
    method Arrive(chunk: Bytes) returns (ghost cut: seq<WireFrame>)
      requires Valid() && open && |chunk| <= MAXIMUM_FRAME_BYTES
      modifies this`failure, this`effects, this`open, this`reading, this`incoming, this`outgoing, this`written,
               this`active, this`waiting, this`completions, this`result, this`messages, this`prompts, this`history,
               this`received
      ensures Valid() && received == old(received) + chunk
      ensures Deframe(received).frames == old(FramesOf(history)) + cut
      ensures if Deframe(received).aborted || Conversation(token, old(history) + Hearings(cut)).None?
              then Failed(Unavailable, old(completions))
              else open && failure.None? && history == old(history) + Hearings(cut) && completions == old(completions)
      ensures failure.None? ==> FramesOf(history) == Deframe(received).frames && Conversation(token, history).Some?
    {
      hide Conversation, FramesOf, ResponsesOf, Hearings, Deframe, WorkerProcess.Flowing, WorkerProcess.Conversing,
           WorkerProcess.Closed;
      RestIsShort(received);
      DeframeMore(received, chunk);
      cut := Deframe(incoming + chunk).frames;
      received := received + chunk;
      incoming := incoming + chunk;
      // A buffer of more than two maximal frames cannot arise.
      if |incoming| > 2 * MAXIMUM_FRAME_BYTES {
        assert false;
      }
      CutFrames();
    }

    // Everything the socket has to offer is received, cut into frames and heard. Whether that
    // ends the attempt depends on the bytes received so far and on nothing else.
    method Drain(answers: seq<Received>) returns (ghost heard: seq<WireFrame>)
      requires Valid()
      modifies this`failure, this`effects, this`open, this`reading, this`incoming, this`outgoing, this`written,
               this`active, this`waiting, this`completions, this`result, this`messages, this`prompts, this`history,
               this`received
      ensures Valid()
      ensures !old(open) ==> failure == old(failure) && completions == old(completions) && active == old(active)
      ensures old(open) ==>
        exists n :: Took(old(received), received, Chunks(answers), n) && (open ==> n == |Chunks(answers)|)
      ensures old(open) ==> Deframe(received).frames == old(FramesOf(history)) + heard
      ensures old(open) ==>
        if Deframe(received).aborted || Conversation(token, old(history) + Hearings(heard)).None?
        then Failed(Unavailable, old(completions))
        else open && history == old(history) + Hearings(heard) && completions == old(completions)
    {
      heard := [];
      if !open || !active {
        return;
      }
      ghost var h, f := history, FramesOf(history);
      ShortRest([]);
      assert history + [] == history && FramesOf(history) + [] == FramesOf(history);
      assert Draining(h, f, [], completions);
      ghost var n;
      heard, n := DrainLoop(answers, h, f);
      assert failure.None? ==> Draining(h, f, heard, old(completions));
    }

    // Mid-drain: what has been heard so far is all there was in the bytes received.
    ghost predicate Draining(h: seq<Event>, f: seq<WireFrame>, heard: seq<WireFrame>, before: seq<Completion>)
      reads this`open, this`active, this`waiting, this`token, this`incoming, this`outgoing, this`written, this`messages,
            this`result, this`failure, this`prompts, this`completions, this`received, this`wire, this`promised,
            this`history, this`starts, this`effects, this`running
    {
      && Valid() && open && failure.None? && completions == before
      && Conversation(token, history).Some? && !Deframe(received).aborted
      && history == h + Hearings(heard) && FramesOf(history) == f + heard == Deframe(received).frames
    }

    // Draining has ended the attempt, and the bytes received say why.
    ghost predicate Broken(h: seq<Event>, f: seq<WireFrame>, heard: seq<WireFrame>, before: seq<Completion>)
      reads this
    {
      && Valid() && failure.Some? && Failed(Unavailable, before)
      && Deframe(received).frames == f + heard
      && (Deframe(received).aborted || Conversation(token, h + Hearings(heard)).None?)
    }

    method HearChunk(chunk: Bytes, ghost h: seq<Event>, ghost f: seq<WireFrame>, ghost heard: seq<WireFrame>,
                     ghost before: seq<Completion>)
        returns (ghost more: seq<WireFrame>)
      requires Draining(h, f, heard, before) && |chunk| <= MAXIMUM_FRAME_BYTES
      modifies this`failure, this`effects, this`open, this`reading, this`incoming, this`outgoing, this`written,
               this`active, this`waiting, this`completions, this`result, this`messages, this`prompts, this`history,
               this`received
      ensures received == old(received) + chunk
      ensures if failure.None? then Draining(h, f, more, before) else Broken(h, f, more, before)
    {
      hide Conversation, Deframe, FramesOf, Hearings, WorkerProcess.Valid;
      ghost var cut := Arrive(chunk);
      HeardMore(h, f, heard, cut);
      more := heard + cut;
    }

    // One answer of recv(). False when the loop is over.
    method ReceiveOnce(answer: Received, ghost rest: seq<Received>, ghost h: seq<Event>, ghost f: seq<WireFrame>,
                       ghost heard: seq<WireFrame>, ghost before: seq<Completion>,
                       ghost r: Bytes, ghost chunks: seq<Bytes>, ghost n: nat)
        returns (more: bool, ghost heard': seq<WireFrame>, ghost n': nat)
      requires Draining(h, f, heard, before) && Progress(r, received, chunks, n, Chunks([answer] + rest))
      modifies this`failure, this`effects, this`open, this`reading, this`incoming, this`outgoing, this`written,
               this`active, this`waiting, this`completions, this`result, this`messages, this`prompts, this`history,
               this`received
      ensures Progress(r, received, chunks, n', if more then Chunks(rest) else [])
      ensures if failure.None? then Draining(h, f, heard', before) else Broken(h, f, heard', before)
    {
      hide Chunks, Took, Progress, WorkerProcess.Draining, WorkerProcess.Broken;
      FailureFree(h, f, heard, before);
      NextChunk([answer] + rest);
      assert ([answer] + rest)[1..] == rest;
      more, heard', n' := true, heard, n;
      match answer {
        case RecvInterrupted =>
        case RecvBlocks => more := false;
        case RecvEnds =>
          reading := false;
          more := false;
        case RecvBytes(bytes) =>
          var chunk := bytes[..Min(|bytes|, MAXIMUM_FRAME_BYTES)];
          if chunk == [] {
            reading := false;
            more := false;
          } else {
            ProgressOne(r, received, chunks, n, chunk, Chunks(rest));
            heard' := HearChunk(chunk, h, f, heard, before);
            n' := n + 1;
          }
      }
    }

    // The loop over recv().
    method DrainLoop(answers: seq<Received>, ghost h: seq<Event>, ghost f: seq<WireFrame>)
        returns (ghost heard: seq<WireFrame>, ghost n: nat)
      requires Draining(h, f, [], completions)
      modifies this`failure, this`effects, this`open, this`reading, this`incoming, this`outgoing, this`written,
               this`active, this`waiting, this`completions, this`result, this`messages, this`prompts, this`history,
               this`received
      ensures Took(old(received), received, Chunks(answers), n)
      ensures if failure.None? then Draining(h, f, heard, old(completions)) && n == |Chunks(answers)|
              else Broken(h, f, heard, old(completions))
    {
      hide Chunks, Took, Progress, WorkerProcess.Draining, WorkerProcess.Broken;
      FailureFree(h, f, [], completions);
      heard, n := [], 0;
      var left := answers;
      ProgressStart(received, Chunks(answers));
      NoChunks();
      while left != [] && failure.None?
        invariant failure.None? ==> Draining(h, f, heard, old(completions))
        invariant failure.Some? ==> Broken(h, f, heard, old(completions))
        invariant Progress(old(received), received, Chunks(answers), n, Chunks(left))
        decreases |left|
      {
        assert left == [left[0]] + left[1..];
        var more;
        more, heard, n :=
          ReceiveOnce(left[0], left[1..], h, f, heard, old(completions), old(received), Chunks(answers), n);
        left := if more then left[1..] else [];
      }
      ProgressMeaning(old(received), received, Chunks(answers), n, Chunks(left));
    }

    lemma FailureFree(h: seq<Event>, f: seq<WireFrame>, heard: seq<WireFrame>, before: seq<Completion>)
      requires Draining(h, f, heard, before)
      ensures failure.None?
    {
    }

    // QProcess::finished: the child is gone; what it still sent is heard first.
    method Finish(code: int, normalExit: bool, answers: seq<Received>)
      requires Valid()
      modifies this
      ensures Valid() && !active && !running
      ensures !old(active) ==> completions == old(completions)
      ensures var clean := normalExit && code == 0 && Deframe(received).rest == [];
        old(active) ==> completions == old(completions) + [Completion(token, Final(failure, result, clean))]
      ensures old(active) ==> Concluded(normalExit && code == 0, Last(completions).outcome)
      ensures old(active) && Last(completions).outcome == Authenticated ==>
                code == 0 && normalExit && Approved(token, history, received)
    {
      hide Deframe, Conversation, FramesOf, Hearings, Approved, Took, Chunks, Final, Says, WorkerProcess.Framed,
           WorkerProcess.Conversing, WorkerProcess.Flowing, WorkerProcess.Closed;
      Gone();
      if !active {
        return;
      }
      var _ := Drain(answers);
      FinalFailure(result);
      Conclude(normalExit && code == 0);
    }

    // The child has ended by itself or by the signal.
    method Gone()
      requires Valid()
      modifies this`running, this`effects
      ensures Valid() && !running && effects == old(effects) + [ChildGone]
    {
      hide Deframe, Conversation, FramesOf, KilledFirst, ChildAlive, WorkerProcess.Framed, WorkerProcess.Conversing,
           WorkerProcess.Flowing, WorkerProcess.Closed;
      EffectLast(effects, ChildGone);
      running, effects := false, effects + [ChildGone];
    }

    method Conclude(clean: bool)
      requires Valid() && !running
      modifies this`open, this`reading, this`incoming, this`outgoing, this`written, this`active, this`waiting,
               this`completions, this`effects
      ensures Valid() && !active
      ensures var outcome := Final(failure, result, clean && Deframe(received).rest == []);
        completions == if old(active) then old(completions) + [Completion(token, outcome)] else old(completions)
      ensures old(active) && Last(completions).outcome == Authenticated ==> clean && Approved(token, history, received)
      ensures old(active) ==> Concluded(clean, Last(completions).outcome)
    {
      hide Deframe, Conversation, FramesOf, Approved, Final, Says, KilledFirst, ChildAlive, WorkerProcess.Valid,
           WorkerProcess.Framed, WorkerProcess.Conversing, WorkerProcess.Flowing;
      ValidParts();
      Verdict(clean);
      var outcome := Final(failure, result, clean && incoming == []);
      CloseChannel();
      Complete(outcome);
      ValidIdle();
    }

    // What the attempt comes to: the failure there was, or else what the worker said last, if it
    // then ended cleanly and left nothing over.
    ghost predicate Concluded(clean: bool, outcome: Outcome)
      reads this`failure, this`received, this`history
    {
      match failure
      case Some(reason) => outcome == reason
      case None =>
        var frames := FramesOf(history);
        if clean && Deframe(received).rest == [] && frames != [] && Last(frames).kind == 8 then Says(frames, outcome)
        else outcome == Unavailable
    }

    // An approval needs a clean end, nothing left over and the worker's word.
    lemma Verdict(clean: bool)
      requires Valid()
      ensures active ==>
        Final(failure, result, clean && incoming == []) == Final(failure, result, clean && Deframe(received).rest == [])
      ensures active && Final(failure, result, clean && incoming == []) == Authenticated ==>
        clean && Approved(token, history, received)
      ensures active ==> Concluded(clean, Final(failure, result, clean && incoming == []))
    {
      if open {
        hide Deframe, Conversation, FramesOf, Approved, Says;
        ConversationResult(token, history);
        if result.Some? && incoming == [] {
          Approves(token, history, received, Talk(waiting, messages, result, prompts));
        }
      }
    }

    // QProcess::errorOccurred(FailedToStart).
    method FailToStart()
      requires Valid()
      modifies this
      ensures Valid() && !active
      ensures completions ==
        if old(active) then old(completions) + [Completion(token, Unavailable)] else old(completions)
    {
      hide Deframe, Conversation, FramesOf, KilledFirst, ChildAlive, WorkerProcess.Framed, WorkerProcess.Conversing,
           WorkerProcess.Flowing;
      Gone();
      CloseChannel();
      Complete(Unavailable);
    }

    // The deadline of the whole attempt.
    method TimeOut()
      requires Valid()
      modifies this
      ensures Valid()
      ensures old(active) ==> Failed(TimedOut, old(completions))
    {
      Abort(TimedOut);
    }

    // The socket takes bytes again.
    method WriterReady(answers: seq<Sent>)
      requires Valid() && open
      modifies this
      ensures Valid()
      ensures old(written <= |outgoing|)
      ensures var p := Pushed(old(|outgoing| - written), answers);
        if p.ok then open && wire == old(wire) + old(outgoing)[old(written)..old(written) + p.taken]
        else Failed(Unavailable, old(completions))
    {
      hide Deframe, Conversation, FramesOf, ResponsesOf, EncodeAll, AllEncodable, Pushed;
      var ok := Flush(answers);
      if !ok {
        Abort(Unavailable);
      }
    }

    predicate Admits(next: AttemptToken, admitted: bool)
      reads this
    {
      !active && !running && next.epoch != 0 && next.request != 0 && admitted
    }

    // `admitted` stands for the platform's policy checks and for the socket pair, and `launches`
    // for a process that does not fail to start while it is being started.
    method Start(next: AttemptToken, admitted: bool, launches: bool, answers: seq<Sent>) returns (ok: bool)
      requires Valid()
      modifies this
      ensures Valid()
      ensures !old(Admits(next, admitted)) ==>
        !ok && token == old(token) && active == old(active) && starts == old(starts)
      ensures old(Admits(next, admitted)) ==>
        token == next && active == running == launches && starts == old(starts) + 1
      ensures old(Admits(next, admitted)) ==> (ok <==> launches && Sends(WireFrame(BEGIN, next, []), answers))
      ensures var admits := old(!active && !running) && next.epoch != 0 && next.request != 0 && admitted;
        starts == old(starts) + if admits then 1 else 0
      ensures ok ==> open && history == [] && completions == old(completions)
      ensures old(Admits(next, admitted)) && launches && !ok ==> Failed(Unavailable, old(completions))
      ensures old(Admits(next, admitted)) && !launches ==>
        Closed() && !running && completions == old(completions) + [Completion(next, Unavailable)]
    {
      hide Sends, WorkerProcess.Valid, WorkerProcess.Failed;
      if active || running || next.epoch == 0 || next.request == 0 || !admitted {
        return false;
      }
      ok := StartNow(next, launches, answers);
    }

    method StartNow(next: AttemptToken, launches: bool, answers: seq<Sent>) returns (ok: bool)
      requires Valid() && Admits(next, true)
      modifies this
      ensures Valid() && token == next && active == running == launches && starts == old(starts) + 1
      ensures ok <==> launches && Sends(WireFrame(BEGIN, next, []), answers)
      ensures if ok then open && history == [] && completions == old(completions)
              else if launches then Failed(Unavailable, old(completions))
              else Closed() && !running && completions == old(completions) + [Completion(next, Unavailable)]
    {
      hide Deframe, Conversation, FramesOf, Hearings, WorkerProcess.Flowing, WorkerProcess.Queued, WorkerProcess.Framed,
           WorkerProcess.Conversing, Sends, KilledFirst, ChildAlive;
      Open(next);
      Launch(launches);
      ok := SendBegin(answers);
      if !ok {
        Abort(Unavailable);
      }
    }

    // QProcess::start, during which a failure to start may already be reported.
    method Launch(launches: bool)
      requires Tidy() && open && !running
      modifies this`running, this`effects, this`open, this`reading, this`incoming, this`outgoing, this`written,
               this`active, this`waiting, this`completions
      ensures Tidy() && running == launches && active == launches
      ensures if launches
              then open && completions == old(completions) && outgoing == old(outgoing) && written == old(written)
                   && waiting == old(waiting) && incoming == old(incoming)
              else Closed() && completions == old(completions) + [Completion(token, Unavailable)]
    {
      hide KilledFirst, ChildAlive;
      EffectLast(effects, ChildStarted);
      if launches {
        running, effects := true, effects + [ChildStarted];
      } else {
        CloseChannel();
        Complete(Unavailable);
      }
    }

    method Open(next: AttemptToken)
      requires Tidy() && !active && !running
      modifies this
      ensures Tidy() && open && failure.None? && Framed() && Conversing() && Queued()
      ensures token == next && history == [] && promised == [] && completions == old(completions)
      ensures running == old(running) && effects == old(effects) && starts == old(starts) + 1 && outgoing == []
    {
      hide WorkerProcess.Conversing, WorkerProcess.Framed, WorkerProcess.Queued, KilledFirst, ChildAlive;
      ResetTalk(next);
      ResetTraffic();
      open, reading, active := true, true, true;
      starts := starts + 1;
    }

    ghost method ResetTraffic()
      requires Closed() && history == []
      modifies this`received, this`wire, this`promised
      ensures Framed() && Queued() && promised == []
    {
      Nothing(token);
      received, wire, promised := [], [], [];
    }

    method ResetTalk(next: AttemptToken)
      modifies this`token, this`messages, this`result, this`failure, this`waiting, this`prompts, this`history
      ensures Conversing() && token == next && history == [] && failure.None? && !waiting
    {
      Nothing(next);
      token, messages, waiting := next, 0, false;
      result, failure := None, None;
      prompts, history := [], [];
    }

    method SendBegin(answers: seq<Sent>) returns (ok: bool)
      requires Tidy() && outgoing == [] && (open ==> Queued() && history == [] && promised == [])
      modifies this`written, this`outgoing, this`wire, this`promised
      ensures ok <==> open && Sends(WireFrame(BEGIN, token, []), answers)
      ensures Tidy() && (ok ==> Flowing())
      ensures !open ==> outgoing == old(outgoing) && written == old(written)
    {
      hide Sends;
      ok := Send(WireFrame(BEGIN, token, []), answers);
      assert [WireFrame(BEGIN, token, [])] + [] == [WireFrame(BEGIN, token, [])];
    }
  }

  // An attempt abandoned by destroying the object while its worker runs: the worker sees the
  // channel end.
  method DestroyedMidAttempt() returns (worker: WorkerProcess)
    ensures !KilledFirst(worker.effects)
  {
    var begin := WireFrame(BEGIN, AttemptToken(1, 1), []);
    assert Sends(begin, []);
    hide Sends, KilledFirst, WorkerProcess.Valid;
    worker := new WorkerProcess();
    var ok := worker.Start(AttemptToken(1, 1), true, true, []);
    worker.Destroy();
  }

  lemma PromisedMore(first: WireFrame, before: seq<WireFrame>, last: WireFrame)
    ensures [first] + before + [last] == [first] + (before + [last])
  {
  }

  lemma Nothing(token: AttemptToken)
    ensures Deframe([]) == Framing([], [], false) && FramesOf([]) == [] && AllEncodable([])
    ensures Conversation(token, []) == Some(SILENCE) && EncodeAll([]) == []
  {
  }

  // The worker said '0' in a result frame of this attempt, in an unbroken conversation whose
  // frames are all that was ever received.
  ghost predicate Approved(token: AttemptToken, history: seq<Event>, received: Bytes) {
    var frames := FramesOf(history);
    && Conversation(token, history).Some?
    && frames != [] && Last(frames).token == token && Last(frames).kind == 8 && Last(frames).payload == [48]
    && AllEncodable(frames) && received == EncodeAll(frames)
  }

  lemma Approves(token: AttemptToken, history: seq<Event>, received: Bytes, t: Talk)
    requires Deframe(received) == Framing(FramesOf(history), [], false)
    requires Conversation(token, history) == Some(t) && t.result.Some?
    ensures t.result.value == Authenticated ==> Approved(token, history, received)
  {
    ConversationResult(token, history);
    ReencodeFrames(received);
    hide Deframe, Conversation, FramesOf, EncodeAll;
  }

  // The first n chunks have been taken.
  ghost predicate Took(before: Bytes, after: Bytes, chunks: seq<Bytes>, n: nat) {
    n <= |chunks| && after == before + Joined(chunks[..n])
  }

  // The first n chunks have been taken, and these are left.
  ghost predicate Progress(before: Bytes, after: Bytes, chunks: seq<Bytes>, n: nat, rest: seq<Bytes>) {
    Took(before, after, chunks, n) && chunks[n..] == rest
  }

  lemma ProgressMeaning(before: Bytes, after: Bytes, chunks: seq<Bytes>, n: nat, rest: seq<Bytes>)
    requires Progress(before, after, chunks, n, rest)
    ensures Took(before, after, chunks, n) && (rest == [] ==> n == |chunks|)
  {
  }

  lemma ProgressStart(before: Bytes, chunks: seq<Bytes>)
    ensures Progress(before, before, chunks, 0, chunks)
  {
  }

  lemma ProgressOne(before: Bytes, after: Bytes, chunks: seq<Bytes>, n: nat, chunk: Bytes, more: seq<Bytes>)
    requires Progress(before, after, chunks, n, [chunk] + more)
    ensures Progress(before, after + chunk, chunks, n + 1, more)
  {
    assert chunks[n..][0] == chunk && chunks[n..][1..] == more;
    assert chunks[..n + 1] == chunks[..n] + [chunk];
    assert (chunks[..n] + [chunk])[..n] == chunks[..n];
    assert before + Joined(chunks[..n]) + chunk == before + (Joined(chunks[..n]) + chunk);
  }

  lemma NoChunks()
    ensures Chunks([]) == []
  {
  }

  lemma NextChunk(answers: seq<Received>)
    requires answers != []
    ensures Chunks(answers) ==
      match answers[0]
      case RecvInterrupted => Chunks(answers[1..])
      case RecvBlocks => []
      case RecvEnds => []
      case RecvBytes(bytes) =>
        var chunk := bytes[..Min(|bytes|, MAXIMUM_FRAME_BYTES)];
        if chunk == [] then [] else [chunk] + Chunks(answers[1..])
  {
  }

  lemma HeardMore(h: seq<Event>, f: seq<WireFrame>, heard: seq<WireFrame>, cut: seq<WireFrame>)
    ensures h + Hearings(heard + cut) == h + Hearings(heard) + Hearings(cut)
    ensures f + (heard + cut) == f + heard + cut
  {
    HearingsJoin(heard, cut);
    hide Hearings;
  }

  lemma ShortRest(incoming: Bytes)
    ensures |incoming| < HEADER_BYTES ==> Deframe(incoming) == Framing([], incoming, false)
    ensures Hearings([]) == []
  {
    DeframeShort(incoming);
    hide Deframe;
  }

  lemma {:induction false} EncodeAllLast(frames: seq<WireFrame>, frame: WireFrame)
    requires AllEncodable(frames) && Encodable(frame)
    ensures AllEncodable(frames + [frame])
    ensures EncodeAll(frames + [frame]) == EncodeAll(frames) + Encode(frame).value
  {
    hide EncodeAll, Encode, Encodable;
    if frames == [] {
      Nothing(frame.token);
      EncodeAllCons(frame, []);
      assert frames + [frame] == [frame] + [];
    } else {
      EncodeAllLast(frames[1..], frame);
      EncodeAllCons(frames[0], frames[1..]);
      EncodeAllCons(frames[0], frames[1..] + [frame]);
      assert frames == [frames[0]] + frames[1..];
      assert frames + [frame] == [frames[0]] + (frames[1..] + [frame]);
    }
  }
}
