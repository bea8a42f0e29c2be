// The greeter's authentication policy: src/lock_authentication/attempt_coordinator.cpp and
// src/lock_greeter/authentication_controller.cpp.

module GreeterAuthentication {
  import opened Basics
  import opened WorkerWire
  import opened WorkerClient

  // ----------------------------------------------------------------- the rules

  // What the controller and its coordinator have done, in order.
  datatype Entry =
    | Entered                                       // a locked epoch begins
    | Left                                          // the epoch ends
    | Began(token: AttemptToken)
    | Dropped                                       // the pending token is invalidated
    | Ended(token: AttemptToken, outcome: Outcome)  // a completion was accepted
    | UnlockAsked(token: AttemptToken)
    | Asked(secret: bool)                           // a prompt that wants an answer
    | Held(text: string)                            // a response is kept for a later prompt
    | Discarded
    | SentHeld(text: string)
    | SentTyped(text: string)

  datatype Ledger = Ledger(entered: bool, locked: bool, epoch: uint64, request: uint64,
                           pending: Option<AttemptToken>, approved: Option<AttemptToken>,
                           asked: nat, secret: bool, answered: nat, held: string)

  const BLANK := Ledger(false, false, 0, 0, None, None, 0, true, 0, "")

  function Successor(n: uint64): uint64 {
    if n as int == UINT64_LIMIT - 1 then 0 else n + 1
  }

  // One entry, or None where it breaks a rule.
  function Apply(l: Ledger, entry: Entry): Option<Ledger> {
    match entry
    case Entered =>
      :- Need(!l.entered);
      Some(l.(entered := true, locked := true, epoch := Successor(l.epoch), pending := None))
    case Left =>
      Some(l.(locked := false, epoch := Successor(l.epoch), pending := None))
    case Began(token) =>
      :- Need(l.locked && l.pending.None? && token == AttemptToken(l.epoch, Successor(l.request)));
      Some(l.(request := token.request, pending := Some(token), asked := 0, answered := 0))
    case Dropped =>
      Some(l.(pending := None))
    case Ended(token, outcome) =>
      :- Need(l.locked && l.pending == Some(token));
      if outcome == Authenticated then Some(l.(locked := false, pending := None, approved := Some(token)))
      else Some(l.(pending := None))
    case UnlockAsked(token) =>
      :- Need(l.approved == Some(token));
      Some(l.(approved := None))
    case Asked(secret) =>
      :- Need(l.pending.Some?);
      Some(l.(asked := l.asked + 1, secret := secret))
    case Held(text) =>
      :- Need(l.held == "" && text != "");
      Some(l.(held := text))
    case Discarded =>
      Some(l.(held := ""))
    case SentHeld(text) =>
      :- Need(l.pending.Some? && l.held == text && text != "" && l.asked == 1 && l.secret && l.answered == 0);
      Some(l.(held := "", answered := 1))
    case SentTyped(text) =>
      :- Need(l.answered < l.asked);
      Some(l.(answered := l.answered + 1))
  }

  function Account(log: seq<Entry>): Option<Ledger> {
    if log == [] then Some(BLANK)
    else
      var l :- Account(log[..|log| - 1]);
      Apply(l, log[|log| - 1])
  }

  lemma AccountLast(log: seq<Entry>, entry: Entry)
    ensures Account(log + [entry]) == match Account(log) case None => None case Some(l) => Apply(l, entry)
  {
    assert (log + [entry])[..|log|] == log;
  }

  lemma {:induction false} AccountPrefix(log: seq<Entry>, n: nat)
    requires n <= |log| && Account(log).Some?
    ensures Account(log[..n]).Some?
    decreases |log|
  {
    if n < |log| {
      assert log[..|log| - 1][..n] == log[..n];
      AccountPrefix(log[..|log| - 1], n);
    } else {
      assert log[..n] == log;
    }
  }

  // ------------------------------------------------- what the rules guarantee

  function Unlocks(log: seq<Entry>): nat {
    if log == [] then 0
    else Unlocks(log[..|log| - 1]) + if log[|log| - 1].UnlockAsked? then 1 else 0
  }

  lemma {:induction false} UnlockBudget(log: seq<Entry>)
    requires Account(log).Some?
    ensures var l := Account(log).value;
      Unlocks(log) + (if l.approved.Some? then 1 else 0) + (if l.locked || !l.entered then 1 else 0) <= 1
    ensures Account(log).value.locked ==> Account(log).value.entered
  {
    if log != [] {
      UnlockBudget(log[..|log| - 1]);
    }
  }

  // Over every run the unlock is asked for at most once.
  lemma AtMostOneUnlock(log: seq<Entry>)
    requires Account(log).Some?
    ensures Unlocks(log) <= 1
  {
    UnlockBudget(log);
  }

  // An unbroken log's ledger follows from the one before its last entry.
  lemma LastEntry(log: seq<Entry>) returns (before: Ledger, init: seq<Entry>, last: Entry)
    requires Account(log).Some? && log != []
    ensures log == init + [last] && init == log[..|log| - 1] && Account(init) == Some(before)
    ensures Apply(before, last) == Account(log)
    ensures forall k :: 0 <= k < |init| ==> init[k] == log[k]
  {
    init, last := log[..|log| - 1], log[|log| - 1];
    before := Account(init).value;
  }

  predicate Ends(entry: Entry) {
    entry.Dropped? || entry.Left? || entry.Entered? || entry.Ended? || entry.Began?
  }

  // Between these positions the token was begun and then neither dropped, ended nor left.
  ghost predicate Alive(log: seq<Entry>, from: nat, to: nat, token: AttemptToken) {
    && from < to <= |log| && log[from] == Began(token)
    && forall k :: from < k < to ==> !Ends(log[k])
  }

  lemma AliveLonger(log: seq<Entry>, from: nat, to: nat, token: AttemptToken, entry: Entry)
    requires Alive(log, from, to, token)
    ensures Alive(log + [entry], from, to, token)
  {
    assert forall k :: 0 <= k < |log| ==> (log + [entry])[k] == log[k];
  }

  lemma PendingStep(before: Ledger, last: Entry, after: Ledger)
    requires Apply(before, last) == Some(after) && after.pending.Some?
    ensures if last.Began? then after.pending == Some(last.token)
            else before.pending == after.pending && !Ends(last)
  {
  }

  lemma {:induction false} PendingIsAlive(log: seq<Entry>) returns (from: nat)
    requires Account(log).Some? && Account(log).value.pending.Some?
    ensures Alive(log, from, |log|, Account(log).value.pending.value)
  {
    assert log != [];
    var before, init, last := LastEntry(log);
    PendingStep(before, last, Account(log).value);
    hide Account, Apply, Ends;
    if last.Began? {
      from := |log| - 1;
    } else {
      from := PendingIsAlive(init);
    }
  }

  lemma ApprovalStep(before: Ledger, last: Entry, after: Ledger)
    requires Apply(before, last) == Some(after) && after.approved.Some?
    ensures if last.Ended? && last.outcome == Authenticated
            then after.approved == Some(last.token) && before.pending == Some(last.token)
            else before.approved == after.approved
  {
  }

  lemma {:induction false} ApprovalOrigin(log: seq<Entry>) returns (from: nat, ended: nat)
    requires Account(log).Some? && Account(log).value.approved.Some?
    ensures var token := Account(log).value.approved.value;
      && ended < |log| && log[ended] == Ended(token, Authenticated) && Alive(log, from, ended, token)
  {
    assert log != [];
    var before, init, last := LastEntry(log);
    ApprovalStep(before, last, Account(log).value);
    hide Account, Apply, Ends;
    if last.Ended? && last.outcome == Authenticated {
      ended := |log| - 1;
      from := PendingIsAlive(init);
      AliveLonger(init, from, |init|, last.token, last);
    } else {
      from, ended := ApprovalOrigin(init);
      AliveLonger(init, from, ended, before.approved.value, last);
    }
  }

  // Every unlock request answers an Authenticated completion of a token that was then still
  // pending: begun, and since then neither cancelled nor completed nor left behind.
  lemma UnlockOrigin(log: seq<Entry>, i: nat) returns (from: nat, ended: nat)
    requires Account(log).Some? && i < |log| && log[i].UnlockAsked?
    ensures ended < i && log[ended] == Ended(log[i].token, Authenticated) && Alive(log, from, ended, log[i].token)
  {
    AccountPrefix(log, i + 1);
    assert log[..i + 1][..i] == log[..i];
    from, ended := ApprovalOrigin(log[..i]);
    assert forall k :: 0 <= k < i ==> log[..i][k] == log[k];
  }

  // Tokens do not repeat until the request counter has gone all the way round.
  function Begins(log: seq<Entry>): nat {
    if log == [] then 0
    else Begins(log[..|log| - 1]) + if log[|log| - 1].Began? then 1 else 0
  }

  lemma RequestStep(before: Ledger, last: Entry, after: Ledger)
    requires Apply(before, last) == Some(after)
    ensures after.request == if last.Began? then Successor(before.request) else before.request
    ensures last.Began? ==> last.token.request == after.request
  {
  }

  lemma {:induction false} RequestsCountUp(log: seq<Entry>)
    requires Account(log).Some? && Begins(log) < UINT64_LIMIT
    ensures Account(log).value.request as int == Begins(log)
    ensures forall k :: 0 <= k < |log| && log[k].Began? ==> 1 <= log[k].token.request as int <= Begins(log)
  {
    if log != [] {
      var before, init, last := LastEntry(log);
      assert Begins(log) == Begins(init) + if last.Began? then 1 else 0;
      RequestsCountUp(init);
      RequestStep(before, last, Account(log).value);
      hide Account, Apply, Begins;
    }
  }

  lemma {:induction false} TokensAreFresh(log: seq<Entry>)
    requires Account(log).Some? && Begins(log) < UINT64_LIMIT
    ensures forall j, k :: 0 <= j < k < |log| && log[j].Began? && log[k].Began? ==> log[j].token != log[k].token
  {
    if log != [] {
      var init, last := log[..|log| - 1], log[|log| - 1];
      assert log == init + [last];
      TokensAreFresh(init);
      RequestsCountUp(init);
    }
  }

  predicate Speaks(entry: Entry) {
    entry.Began? || entry.Asked? || entry.SentHeld? || entry.SentTyped?
  }

  // One attempt begins at `from`, its only prompt up to `to` is the secret one at `at`, and
  // nothing was answered in between.
  ghost predicate FirstSecretPrompt(log: seq<Entry>, from: nat, at: nat, to: nat) {
    && from < at < to <= |log| && log[from].Began? && log[at] == Asked(true)
    && forall k :: from < k < to && k != at ==> !Speaks(log[k])
  }

  lemma SpeakingStep(before: Ledger, last: Entry, after: Ledger)
    requires Apply(before, last) == Some(after) && after.pending.Some? && after.answered == 0
    ensures after.asked == 0 && !last.Began? ==>
      !Speaks(last) && before.pending.Some? && before.asked == 0 && before.answered == 0
    ensures after.asked == 1 && after.secret ==>
              if last.Asked?
              then last == Asked(true) && before.pending.Some? && before.asked == 0 && before.answered == 0
              else !Speaks(last) && before.pending.Some? && before.asked == 1 && before.answered == 0 && before.secret
  {
  }

  lemma {:induction false} SilentSince(log: seq<Entry>) returns (from: nat)
    requires Account(log).Some?
    requires var l := Account(log).value; l.pending.Some? && l.asked == 0 && l.answered == 0
    ensures from < |log| && log[from].Began? && forall k :: from < k < |log| ==> !Speaks(log[k])
  {
    assert log != [];
    var before, init, last := LastEntry(log);
    SpeakingStep(before, last, Account(log).value);
    hide Account, Apply, Speaks;
    if last.Began? {
      from := |log| - 1;
    } else {
      from := SilentSince(init);
    }
  }

  lemma {:induction false} PromptSince(log: seq<Entry>) returns (from: nat, at: nat)
    requires Account(log).Some?
    requires var l := Account(log).value; l.pending.Some? && l.asked == 1 && l.answered == 0 && l.secret
    ensures FirstSecretPrompt(log, from, at, |log|)
  {
    assert log != [];
    var before, init, last := LastEntry(log);
    SpeakingStep(before, last, Account(log).value);
    hide Account, Apply, Speaks;
    if last.Asked? {
      from := SilentSince(init);
      at := |log| - 1;
    } else {
      from, at := PromptSince(init);
    }
  }

  lemma SendingStep(before: Ledger, last: Entry, after: Ledger)
    requires Apply(before, last) == Some(after) && last.SentHeld?
    ensures before.pending.Some? && before.asked == 1 && before.answered == 0 && before.secret
    ensures before.held == last.text && last.text != ""
  {
  }

  // Both look back to the same beginning.
  lemma SameBeginning(log: seq<Entry>, from: nat, at: nat, begun: nat, token: AttemptToken)
    requires FirstSecretPrompt(log, from, at, |log|) && Alive(log, begun, |log|, token)
    ensures from == begun
  {
    if from < begun {
      assert Speaks(log[begun]);
    } else if begun < from {
      assert Ends(log[from]);
    }
  }

  // A held response is sent only to the first prompt of an attempt, only if that prompt is a
  // secret one, and only while the attempt is alive.
  lemma HeldGoesToFirstSecretPrompt(log: seq<Entry>, i: nat) returns (from: nat, at: nat, token: AttemptToken)
    requires Account(log).Some? && i < |log| && log[i].SentHeld?
    ensures FirstSecretPrompt(log, from, at, i) && Alive(log, from, i, token)
  {
    AccountPrefix(log, i + 1);
    var before, init, last := LastEntry(log[..i + 1]);
    SendingStep(before, last, Account(log[..i + 1]).value);
    hide Account, Apply, Speaks, Ends;
    from, at := PromptSince(init);
    var begun := PendingIsAlive(init);
    token := before.pending.value;
    SameBeginning(init, from, at, begun, token);
    hide FirstSecretPrompt, Alive;
    assert init == log[..i];
    PromptInLonger(log, i, from, at);
    AliveInLonger(log, i, from, token);
  }

  lemma AliveInLonger(log: seq<Entry>, i: nat, from: nat, token: AttemptToken)
    requires i <= |log| && Alive(log[..i], from, i, token)
    ensures Alive(log, from, i, token)
  {
    assert forall k :: 0 <= k < i ==> log[..i][k] == log[k];
  }

  lemma PromptInLonger(log: seq<Entry>, i: nat, from: nat, at: nat)
    requires i <= |log| && FirstSecretPrompt(log[..i], from, at, i)
    ensures FirstSecretPrompt(log, from, at, i)
  {
    assert forall k :: 0 <= k < i ==> log[..i][k] == log[k];
  }

  // The response stands held at `from` and is neither replaced, discarded nor sent up to `to`.
  ghost predicate StillHeld(log: seq<Entry>, from: nat, to: nat, text: string) {
    && from < to <= |log| && log[from] == Held(text)
    && forall k :: from < k < to ==> !log[k].Held? && !log[k].Discarded? && !log[k].SentHeld?
  }

  lemma HoldingStep(before: Ledger, last: Entry, after: Ledger)
    requires Apply(before, last) == Some(after) && after.held != ""
    ensures if last.Held? then last.text == after.held
            else before.held == after.held && !last.Discarded? && !last.SentHeld?
  {
  }

  lemma {:induction false} HeldSince(log: seq<Entry>) returns (from: nat)
    requires Account(log).Some? && Account(log).value.held != ""
    ensures StillHeld(log, from, |log|, Account(log).value.held)
  {
    assert log != [];
    var before, init, last := LastEntry(log);
    HoldingStep(before, last, Account(log).value);
    hide Account, Apply;
    if last.Held? {
      from := |log| - 1;
    } else {
      from := HeldSince(init);
    }
  }

  // Every held response that is sent was held once for it and never sent before: no response
  // is sent twice.
  lemma HeldIsSentOnce(log: seq<Entry>, i: nat) returns (from: nat)
    requires Account(log).Some? && i < |log| && log[i].SentHeld?
    ensures StillHeld(log, from, i, log[i].text)
  {
    AccountPrefix(log, i + 1);
    var before, init, last := LastEntry(log[..i + 1]);
    SendingStep(before, last, Account(log[..i + 1]).value);
    hide Account, Apply;
    from := HeldSince(init);
    hide StillHeld;
    assert init == log[..i];
    HeldInLonger(log, i, from, last.text);
  }

  lemma HeldInLonger(log: seq<Entry>, i: nat, from: nat, text: string)
    requires i <= |log| && StillHeld(log[..i], from, i, text)
    ensures StillHeld(log, from, i, text)
  {
    assert forall k :: 0 <= k < i ==> log[..i][k] == log[k];
  }
}
