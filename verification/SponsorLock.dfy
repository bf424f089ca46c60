/** Concurrent sponsored sends as a state machine. Any number of calls interleave;
    the sponsor mutex is held from the auth-nonce check to the return. The node is
    free to fail, reject or accept. Its pending count for the sponsor account moves only
    when it accepts a submission of this adaptor; those of other accounts move freely. */
module SponsorLock {
  import opened Wrappers
  import opened Bytes

  datatype Reply = Success | RetryableError | OtherError

  /** One submission: the nonce it carried, the node's count at that moment, the verdict. */
  datatype Try = Try(nonce: nat, pending: nat, accepted: bool, reply: Reply)

  datatype Phase =
    | Waiting
    | CheckingAuth
    | ReadingNonce(attempt: nat)
    | Submitting(attempt: nat, nonce: nat)
    | Returning(success: bool)
    | Finished(success: bool)

  datatype Account = Sponsor | User(id: nat)

  /** A call for an operation of `sender` built for `authNonce`; `seen` is the count the
      check read for the sender. */
  datatype Call = Call(sender: Account, authNonce: nat, phase: Phase, seen: Option<nat>, tries: seq<Try>)

  datatype State = State(holder: Option<nat>, calls: seq<Call>, pending: nat, users: map<nat, nat>, log: seq<Try>)

  datatype Action =
    | Start(sender: Account, authNonce: nat)
    | UserSends(id: nat)
    | Acquire(call: nat)
    | CheckAuth(call: nat, answered: bool)
    | ReadNonce(call: nat, answered: bool)
    | FailToSign(call: nat)
    | Submit(call: nat, accepted: bool, reply: Reply)
    | Release(call: nat)

  const MAX_ATTEMPTS: nat := 3

  function SetCall(s: State, t: nat, c: Call): State
    requires t < |s.calls|
  {
    s.(calls := s.calls[t := c])
  }

  function Initial(pending: nat): State {
    State(None, [], pending, map[], [])
  }

  function CountOf(s: State, a: Account): nat {
    match a
    case Sponsor => s.pending
    case User(id) => if id in s.users then s.users[id] else 0
  }

  /** What the node may do with a submission: success means accepted, and an account's
      count stays below 2^64 (EIP-2681). An error may hide an acceptance. */
  predicate NodeMay(s: State, accepted: bool, reply: Reply) {
    && (reply == Success ==> accepted)
    && (accepted ==> s.pending + 1 < TWO64)
  }

  /** One step; `None` when the action is not enabled. `locking` says whether the
      mutex is respected. */
  function Step(locking: bool, s: State, a: Action): Option<State> {
    if a.Start? then Some(s.(calls := s.calls + [Call(a.sender, a.authNonce, Waiting, None, [])]))
    else if a.UserSends? then Some(s.(users := s.users[a.id := CountOf(s, User(a.id)) + 1]))
    else if a.call >= |s.calls| then None
    else
      var t, c := a.call, s.calls[a.call];
      match (a, c.phase)
      case (Acquire(_), Waiting) =>
        if locking && s.holder.Some? then None
        else Some(SetCall(s, t, c.(phase := CheckingAuth)).(holder := Some(t)))
      case (CheckAuth(_, answered), CheckingAuth) =>
        if !answered then Some(SetCall(s, t, c.(phase := Returning(false))))
        else
          var seen := CountOf(s, c.sender);
          var next := if seen % TWO64 == c.authNonce then ReadingNonce(0) else Returning(false);
          Some(SetCall(s, t, c.(phase := next, seen := Some(seen))))
      case (ReadNonce(_, answered), ReadingNonce(n)) =>
        Some(SetCall(s, t, c.(phase := if answered then Submitting(n, s.pending % TWO64) else Returning(false))))
      case (FailToSign(_), Submitting(_, _)) =>
        Some(SetCall(s, t, c.(phase := Returning(false))))
      case (Submit(_, accepted, reply), Submitting(n, nonce)) =>
        if !NodeMay(s, accepted, reply) then None
        else
          var try_ := Try(nonce, s.pending, accepted, reply);
          var next := if reply == Success then Returning(true)
                      else if reply == RetryableError && n + 1 < MAX_ATTEMPTS then ReadingNonce(n + 1)
                      else Returning(false);
          var moved := if accepted && nonce == s.pending then s.pending + 1 else s.pending;
          Some(SetCall(s, t, c.(phase := next, tries := c.tries + [try_])).(pending := moved, log := s.log + [try_]))
      case (Release(_), Returning(success)) =>
        Some(SetCall(s, t, c.(phase := Finished(success))).(holder := None))
      case _ => None
  }

  /** The state after a run from `s`; `None` when some action was not enabled. */
  function Run(locking: bool, s: State, actions: seq<Action>): Option<State> {
    if actions == [] then Some(s)
    else
      var before := Run(locking, s, actions[..|actions| - 1]);
      if before.None? then None else Step(locking, before.value, actions[|actions| - 1])
  }

  // ----- the invariant

  predicate Critical(p: Phase) {
    !p.Waiting? && !p.Finished?
  }

  function Accepted(log: seq<Try>): seq<nat> {
    if log == [] then []
    else Accepted(log[..|log| - 1]) + if log[|log| - 1].accepted then [log[|log| - 1].nonce] else []
  }

  predicate Consecutive(ns: seq<nat>, first: nat) {
    forall i | 0 <= i < |ns| :: ns[i] == first + i
  }

  predicate Retried(try_: Try) {
    try_.reply == RetryableError
  }

  /** No error that leads to a retry hid an acceptance. */
  predicate Honest(tries: seq<Try>) {
    forall i | 0 <= i < |tries| :: Retried(tries[i]) ==> !tries[i].accepted
  }

  /** The check has read the count the operation was built for. */
  predicate Checked(c: Call) {
    c.seen.Some? && c.seen.value % TWO64 == c.authNonce
  }

  predicate AllRetried(tries: seq<Try>, attempt: nat) {
    |tries| == attempt < MAX_ATTEMPTS && forall i | 0 <= i < attempt :: Retried(tries[i])
  }

  /** At most three tries, each but the last answered with a retryable error, and the
      call succeeds exactly when its last try did. */
  predicate GoodTries(c: Call) {
    && |c.tries| <= MAX_ATTEMPTS
    && (forall i | 0 <= i < |c.tries| - 1 :: Retried(c.tries[i]))
    && (forall i | 0 <= i < |c.tries| :: c.tries[i].reply == Success ==> c.tries[i].accepted)
    && (c.tries != [] ==> Checked(c))
    && match c.phase
       case Waiting => c.tries == []
       case CheckingAuth => c.tries == []
       case ReadingNonce(n) => Checked(c) && AllRetried(c.tries, n)
       case Submitting(n, _) => Checked(c) && AllRetried(c.tries, n)
       case Returning(success) => success <==> c.tries != [] && c.tries[|c.tries| - 1].reply == Success
       case Finished(success) => success <==> c.tries != [] && c.tries[|c.tries| - 1].reply == Success
  }

  predicate LockHeld(s: State) {
    && (s.holder.Some? ==> s.holder.value < |s.calls| && Critical(s.calls[s.holder.value].phase))
    && (forall t | 0 <= t < |s.calls| :: Critical(s.calls[t].phase) ==> s.holder == Some(t))
  }

  predicate NoncesPending(s: State) {
    && s.pending < TWO64
    && (forall t | 0 <= t < |s.calls| :: s.calls[t].phase.Submitting? ==> s.calls[t].phase.nonce == s.pending)
    && (forall i | 0 <= i < |s.log| :: s.log[i].nonce == s.log[i].pending)
  }

  predicate Inv(s: State, first: nat) {
    && LockHeld(s)
    && NoncesPending(s)
    && (forall t | 0 <= t < |s.calls| :: GoodTries(s.calls[t]))
    && Consecutive(Accepted(s.log), first)
    && s.pending == first + |Accepted(s.log)|
  }

  lemma AcceptedAppend(log: seq<Try>, t: Try)
    ensures Accepted(log + [t]) == Accepted(log) + if t.accepted then [t.nonce] else []
  {
    assert (log + [t])[..|log|] == log;
  }

  lemma StepKeepsLock(s: State, a: Action)
    requires LockHeld(s) && Step(true, s, a).Some?
    ensures LockHeld(Step(true, s, a).value)
  {
  }

  lemma StepKeepsNonces(s: State, a: Action)
    requires LockHeld(s) && NoncesPending(s) && Step(true, s, a).Some?
    ensures NoncesPending(Step(true, s, a).value)
  {
  }

  lemma SubmitKeepsTries(c: Call, t: Try, next: Phase)
    requires GoodTries(c) && c.phase.Submitting? && (t.reply == Success ==> t.accepted)
    requires if t.reply == RetryableError && |c.tries| + 1 < MAX_ATTEMPTS then next == ReadingNonce(|c.tries| + 1)
             else next == Returning(t.reply == Success)
    ensures GoodTries(c.(phase := next, tries := c.tries + [t]))
  {
  }

  lemma StepKeepsTries(locking: bool, s: State, a: Action)
    requires (forall t | 0 <= t < |s.calls| :: GoodTries(s.calls[t])) && Step(locking, s, a).Some?
    ensures var s' := Step(locking, s, a).value; forall t | 0 <= t < |s'.calls| :: GoodTries(s'.calls[t])
  {
    var s' := Step(locking, s, a).value;
    if a.Submit? {
      hide GoodTries;
      var c, c' := s.calls[a.call], s'.calls[a.call];
      assert GoodTries(c);
      AttemptCount(c);
      SubmitKeepsTries(c, Try(c.phase.nonce, s.pending, a.accepted, a.reply), c'.phase);
    } else if !a.Start? && !a.UserSends? {
      assert GoodTries(s.calls[a.call]);
    }
  }

  lemma AttemptCount(c: Call)
    requires GoodTries(c) && c.phase.Submitting?
    ensures |c.tries| == c.phase.attempt
  {
  }

  lemma StepKeepsInv(s: State, a: Action, first: nat)
    requires Inv(s, first) && Step(true, s, a).Some?
    ensures Inv(Step(true, s, a).value, first)
  {
    StepKeepsLock(s, a);
    StepKeepsNonces(s, a);
    StepKeepsTries(true, s, a);
    if a.Submit? {
      AcceptedAppend(s.log, Step(true, s, a).value.log[|s.log|]);
    }
  }

  /** Every reachable state of every interleaving satisfies the invariant. */
  lemma {:induction false} Safety(first: nat, actions: seq<Action>)
    requires first < TWO64 && Run(true, Initial(first), actions).Some?
    ensures Inv(Run(true, Initial(first), actions).value, first)
  {
    if actions == [] {
    } else {
      var init := actions[..|actions| - 1];
      Safety(first, init);
      StepKeepsInv(Run(true, Initial(first), init).value, actions[|actions| - 1], first);
    }
  }

  /** What the service is after: every submission carries the node's pending count;
      the accepted nonces are the consecutive ones from the first, so all distinct;
      each call submits only after reading the sender count its operation was built for,
      at most three times, never after a success or a final error,
      and has a transaction accepted if it reports success: just one if and only if the
      errors it retried on were honest. */
  lemma SendsAreSequential(first: nat, actions: seq<Action>)
    requires first < TWO64 && Run(true, Initial(first), actions).Some?
    ensures var s := Run(true, Initial(first), actions).value;
            && (forall i | 0 <= i < |s.log| :: s.log[i].nonce == s.log[i].pending)
            && Consecutive(Accepted(s.log), first) && s.pending == first + |Accepted(s.log)|
            && (forall t, u | 0 <= t < u < |s.calls| :: !(Critical(s.calls[t].phase) && Critical(s.calls[u].phase)))
            && (forall t | 0 <= t < |s.calls| ::
                  var c := s.calls[t];
                  && |c.tries| <= MAX_ATTEMPTS
                  && (c.tries != [] ==> Checked(c))
                  && (forall i | 0 <= i < |c.tries| - 1 :: Retried(c.tries[i]))
                  && AcceptsRight(c))
  {
    Safety(first, actions);
    var s := Run(true, Initial(first), actions).value;
    forall t | 0 <= t < |s.calls| ensures AcceptsRight(s.calls[t]) {
      assert GoodTries(s.calls[t]);
      CallAccepts(s.calls[t]);
    }
  }

  /** What a call has had accepted: something if it reports success, and then just one
      transaction if and only if the errors it retried on were honest. */
  predicate AcceptsRight(c: Call) {
    && (Honest(c.tries) ==> |Accepted(c.tries)| <= 1)
    && (c.phase == Finished(true) ==> |Accepted(c.tries)| >= 1)
    && (c.phase == Finished(true) ==> (|Accepted(c.tries)| == 1 <==> Honest(c.tries)))
  }

  lemma CallAccepts(c: Call)
    requires GoodTries(c)
    ensures AcceptsRight(c)
  {
    var tries := c.tries;
    if tries != [] {
      var init := tries[..|tries| - 1];
      if Honest(tries) {
        RetriedAcceptNothing(init);
      } else if c.phase == Finished(true) {
        var i :| 0 <= i < |tries| && Retried(tries[i]) && tries[i].accepted;
        AcceptedCounts(init, i);
      }
    }
  }

  lemma {:induction false} RetriedAcceptNothing(tries: seq<Try>)
    requires forall i | 0 <= i < |tries| :: Retried(tries[i]) && !tries[i].accepted
    ensures Accepted(tries) == []
  {
    if tries == [] {
    } else {
      RetriedAcceptNothing(tries[..|tries| - 1]);
    }
  }

  lemma {:induction false} AcceptedCounts(tries: seq<Try>, i: nat)
    requires i < |tries| && tries[i].accepted
    ensures |Accepted(tries)| >= 1
  {
    if i == |tries| - 1 {
    } else {
      AcceptedCounts(tries[..|tries| - 1], i);
    }
  }

  /** No deadlock: while a call is unfinished some call can step, whatever the node does. */
  lemma Progress(s: State) returns (a: Action)
    requires LockHeld(s) && exists t :: 0 <= t < |s.calls| && !s.calls[t].phase.Finished?
    ensures Step(true, s, a).Some?
  {
    if s.holder.Some? {
      var t := s.holder.value;
      match s.calls[t].phase {
        case CheckingAuth => a := CheckAuth(t, true);
        case ReadingNonce(_) => a := ReadNonce(t, true);
        case Submitting(_, _) => a := Submit(t, false, OtherError);
        case Returning(_) => a := Release(t);
      }
    } else {
      var t :| 0 <= t < |s.calls| && !s.calls[t].phase.Finished?;
      a := Acquire(t);
    }
  }

  /** Without the mutex two calls submit the same nonce: both read it, then both submit. */
  lemma LockIsNeeded(first: nat) returns (actions: seq<Action>)
    requires first + 2 < TWO64
    ensures var s := Run(false, Initial(first), actions);
            && s.Some? && |s.value.log| == 2
            && s.value.log[0].nonce == s.value.log[1].nonce
            && s.value.log[1].nonce != s.value.log[1].pending
  {
    hide Run;
    var s0 := Initial(first);
    var s;
    actions, s := BothChecked(first);
    var a, b := s.calls[0], s.calls[1];
    actions, s := Extend(false, s0, actions, s, ReadNonce(0, true));
    actions, s := Extend(false, s0, actions, s, ReadNonce(1, true));
    assert s.calls == [a.(phase := Submitting(0, first)), b.(phase := Submitting(0, first))];
    actions, s := Extend(false, s0, actions, s, Submit(0, true, Success));
    actions, s := Extend(false, s0, actions, s, Submit(1, false, OtherError));
  }

  lemma BothChecked(first: nat) returns (actions: seq<Action>, s: State)
    ensures Run(false, Initial(first), actions) == Some(s)
    ensures |s.calls| == 2 && s.calls[0].phase == s.calls[1].phase == ReadingNonce(0)
    ensures s.pending == first && s.log == []
  {
    hide Run;
    var s0 := Initial(first);
    NoActions(false, s0);
    var a, b := Call(User(0), 0, Waiting, None, []), Call(User(1), 0, Waiting, None, []);
    actions, s := Extend(false, s0, [], s0, Start(User(0), 0));
    actions, s := Extend(false, s0, actions, s, Start(User(1), 0));
    assert s.calls == [a, b];
    actions, s := Extend(false, s0, actions, s, Acquire(0));
    actions, s := Extend(false, s0, actions, s, Acquire(1));
    assert s.calls == [a.(phase := CheckingAuth), b.(phase := CheckingAuth)];
    actions, s := Extend(false, s0, actions, s, CheckAuth(0, true));
    actions, s := Extend(false, s0, actions, s, CheckAuth(1, true));
  }

  /** Even under the mutex one call has two transactions accepted when the error it
      retried on hid an acceptance, so honesty cannot be dropped. */
  lemma HonestyIsNeeded(first: nat) returns (actions: seq<Action>)
    requires first + 2 < TWO64
    ensures var s := Run(true, Initial(first), actions);
            && s.Some? && |s.value.calls| == 1
            && !Honest(s.value.calls[0].tries) && Accepted(s.value.calls[0].tries) == [first, first + 1]
  {
    hide Run, Accepted;
    var s0 := Initial(first);
    var s;
    actions, s := HiddenAcceptance(first);
    var one, two := Try(first, first, true, RetryableError), Try(first + 1, first + 1, true, Success);
    actions, s := Extend(true, s0, actions, s, ReadNonce(0, true));
    actions, s := Extend(true, s0, actions, s, Submit(0, true, Success));
    assert s.calls[0].tries == [one] + [two];
    NoneAccepted();
    AcceptedAppend([], one);
    AcceptedAppend([one], two);
    assert [] + [one] == [one] && Retried(s.calls[0].tries[0]);
  }

  lemma HiddenAcceptance(first: nat) returns (actions: seq<Action>, s: State)
    requires first + 2 < TWO64
    ensures Run(true, Initial(first), actions) == Some(s)
    ensures |s.calls| == 1 && s.calls[0].phase == ReadingNonce(1) && s.pending == first + 1
    ensures s.calls[0].tries == [Try(first, first, true, RetryableError)]
  {
    hide Run;
    var s0 := Initial(first);
    NoActions(true, s0);
    var c := Call(User(0), 0, Waiting, None, []);
    actions, s := Extend(true, s0, [], s0, Start(User(0), 0));
    assert s.calls == [c];
    actions, s := Extend(true, s0, actions, s, Acquire(0));
    actions, s := Extend(true, s0, actions, s, CheckAuth(0, true));
    c := c.(seen := Some(0));
    assert s.calls == [c.(phase := ReadingNonce(0))];
    actions, s := Extend(true, s0, actions, s, ReadNonce(0, true));
    assert s.calls == [c.(phase := Submitting(0, first))];
    actions, s := Extend(true, s0, actions, s, Submit(0, true, RetryableError));
    assert c.tries + [Try(first, first, true, RetryableError)] == [Try(first, first, true, RetryableError)];
  }

  lemma NoActions(locking: bool, s: State)
    ensures Run(locking, s, []) == Some(s)
  {
  }

  lemma NoneAccepted()
    ensures Accepted([]) == []
  {
  }

  lemma Extend(locking: bool, s0: State, actions: seq<Action>, s: State, a: Action)
    returns (longer: seq<Action>, s': State)
    requires Run(locking, s0, actions) == Some(s) && Step(locking, s, a).Some?
    ensures longer == actions + [a] && s' == Step(locking, s, a).value && Run(locking, s0, longer) == Some(s')
  {
    longer, s' := actions + [a], Step(locking, s, a).value;
    assert longer[..|actions|] == actions;
  }
}
