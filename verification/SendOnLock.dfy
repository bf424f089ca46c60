/** The send of `SponsoredSend` is a call of the machine of `SponsorLock`: its recorded
    events, read as actions, are a path of that machine. */
module SendOnLock {
  import opened Wrappers
  import opened Bytes
  import opened Fees
  import opened UserOps
  import opened SendErrors
  import opened SponsoredSend
  import L = SponsorLock

  /** Accounts as the machine names them. */
  function AccountOf(cfg: Config, a: Address): L.Account {
    if a == cfg.sponsorAddress then L.Sponsor else L.User(FromBigEndian(a))
  }

  function ReplyOf(reply: Result<Word>): L.Reply {
    match reply
    case Ok(_) => L.Success
    case Err(message) => if IsRetryableSendError(message) then L.RetryableError else L.OtherError
  }

  /** The sponsor's count after these verdicts on submissions of the pending nonce. */
  function PendingAfter(first: nat, accepted: seq<bool>): nat {
    if accepted == [] then first
    else PendingAfter(first, accepted[..|accepted| - 1]) + if accepted[|accepted| - 1] then 1 else 0
  }

  /** The node tells the truth: counts are its own, success means accepted, and the count
      stays below 2^64. `accepted` is its verdict on each submission. */
  predicate Truthful(first: nat, run: seq<Submission>, accepted: seq<bool>) {
    && |accepted| == |run|
    && (forall i | 0 <= i < |run| :: run[i].count == PendingAfter(first, accepted[..i]))
    && (forall i | 0 <= i < |run| :: run[i].reply.Ok? ==> accepted[i])
    && (forall i | 0 <= i <= |run| :: PendingAfter(first, accepted[..i]) < TWO64)
  }

  function TryOf(s: Submission, accepted: bool): L.Try {
    L.Try(s.tx.nonce, s.count, accepted, ReplyOf(s.reply))
  }

  function TriesOf(run: seq<Submission>, accepted: seq<bool>): (tries: seq<L.Try>)
    requires |accepted| == |run|
    ensures |tries| == |run|
  {
    seq(|run|, i requires 0 <= i < |run| => TryOf(run[i], accepted[i]))
  }

  /** The actions of the attempts of a run by call `t`. */
  function AttemptActions(t: nat, run: seq<Submission>, accepted: seq<bool>): seq<L.Action>
    requires |accepted| == |run|
  {
    if run == [] then []
    else
      var n := |run| - 1;
      AttemptActions(t, run[..n], accepted[..n])
      + [L.ReadNonce(t, true), L.Submit(t, accepted[n], ReplyOf(run[n].reply))]
  }

  /** The last read of the sponsor's count, when nothing was sent after it. */
  function LastActions(t: nat, answer: Result<nat>): seq<L.Action> {
    if answer.Ok? then [L.ReadNonce(t, true), L.FailToSign(t)] else [L.ReadNonce(t, false)]
  }

  /** All events of a send as actions of call `t`, which holds the lock. */
  function SendActions(t: nat, events: seq<Event>, run: seq<Submission>, accepted: seq<bool>): seq<L.Action>
    requires |accepted| == |run| && events != [] && events[0].Counted?
  {
    var last := events[|events| - 1];
    [L.CheckAuth(t, events[0].count.Ok?)] + AttemptActions(t, run, accepted)
    + if |events| > 1 && last.Counted? then LastActions(t, last.count) else []
  }

  /** The phase a call is in after these attempts of a good run. */
  function PhaseAfter(run: seq<Submission>): L.Phase {
    if Over(run) then L.Returning(run[|run| - 1].reply.Ok?) else L.ReadingNonce(|run|)
  }

  lemma {:induction false} RunConcat(s: L.State, xs: seq<L.Action>, ys: seq<L.Action>)
    ensures L.Run(true, s, xs + ys) ==
            if L.Run(true, s, xs).None? then None else L.Run(true, L.Run(true, s, xs).value, ys)
  {
    hide L.Step;
    if ys == [] {
      assert xs + ys == xs;
    } else {
      RunConcat(s, xs, ys[..|ys| - 1]);
      assert (xs + ys)[..|xs + ys| - 1] == xs + ys[..|ys| - 1];
    }
  }

  lemma RunOne(s: L.State, a: L.Action)
    ensures L.Run(true, s, [a]) == L.Step(true, s, a)
  {
    hide L.Step;
    assert [a][..0] == [] && L.Run(true, s, []) == Some(s);
  }

  lemma RunTwo(s: L.State, a: L.Action, b: L.Action)
    requires L.Step(true, s, a).Some?
    ensures L.Run(true, s, [a, b]) == L.Step(true, L.Step(true, s, a).value, b)
  {
    hide L.Step;
    RunOne(s, a);
    assert [a, b][..1] == [a];
  }

  /** The state a call is in after some attempts, from the state after its check. */
  predicate Reached(s: L.State, t: nat, run: seq<Submission>, accepted: seq<bool>, s': L.State)
    requires |accepted| == |run| && t < |s.calls|
  {
    var tries := TriesOf(run, accepted);
    && s'.calls == s.calls[t := s.calls[t].(phase := PhaseAfter(run), tries := tries)]
    && s'.log == s.log + tries && s'.pending == PendingAfter(s.pending, accepted)
    && s'.users == s.users && s'.holder == s.holder
  }

  /** One more attempt is two more steps. */
  lemma OneAttempt(s: L.State, t: nat, run: seq<Submission>, accepted: seq<bool>, x: Submission, verdict: bool,
                   s': L.State)
    requires t < |s.calls| && |accepted| == |run| < MAX_SEND_ATTEMPTS && !Over(run)
    requires Reached(s, t, run, accepted, s')
    requires x.count == PendingAfter(s.pending, accepted) && x.tx.nonce == x.count % TWO64
    requires x.reply.Ok? ==> verdict
    requires x.count + (if verdict then 1 else 0) < TWO64
    ensures var actions := [L.ReadNonce(t, true), L.Submit(t, verdict, ReplyOf(x.reply))];
            && L.Run(true, s', actions).Some?
            && Reached(s, t, run + [x], accepted + [verdict], L.Run(true, s', actions).value)
  {
    hide IsRetryableSendError, TriesOf, PendingAfter;
    var read, submit := L.ReadNonce(t, true), L.Submit(t, verdict, ReplyOf(x.reply));
    var s1 := L.Step(true, s', read).value;
    RunTwo(s', read, submit);
    TriesAppend(run, accepted, x, verdict);
    PendingAppend(s.pending, accepted, verdict);
    assert L.Step(true, s1, submit).Some?;
    var s2 := L.Step(true, s1, submit).value;
    assert s2.calls == s.calls[t := s2.calls[t]];
  }

  lemma TriesAppend(run: seq<Submission>, accepted: seq<bool>, x: Submission, verdict: bool)
    requires |accepted| == |run|
    ensures TriesOf(run + [x], accepted + [verdict]) == TriesOf(run, accepted) + [TryOf(x, verdict)]
  {
  }

  lemma PendingAppend(first: nat, accepted: seq<bool>, verdict: bool)
    ensures PendingAfter(first, accepted + [verdict]) == PendingAfter(first, accepted) + if verdict then 1 else 0
  {
    assert (accepted + [verdict])[..|accepted|] == accepted;
  }

  lemma {:induction false} AttemptsArePath(s: L.State, t: nat, cfg: Config, op: UserOp, authSig: Bytes, start: Fee,
                                           run: seq<Submission>, accepted: seq<bool>)
    requires t < |s.calls| && s.calls[t].phase == L.ReadingNonce(0) && s.calls[t].tries == []
    requires GoodRun(cfg, op, authSig, start, run) && Truthful(s.pending, run, accepted)
    ensures var r := L.Run(true, s, AttemptActions(t, run, accepted));
            r.Some? && Reached(s, t, run, accepted, r.value)
  {
    hide L.Step, L.Run, IsRetryableSendError, IsAttempt, Reached, AttemptActions, PendingAfter;
    if run == [] {
      NoAttempts(s, t);
      assert accepted == [];
    } else {
      var n := |run| - 1;
      var init, verdicts := run[..n], accepted[..n];
      TruthfulInit(s.pending, run, accepted);
      NotYetOver(cfg, op, authSig, start, run);
      AttemptsArePath(s, t, cfg, op, authSig, start, init, verdicts);
      assert run == init + [run[n]] && accepted == verdicts + [accepted[n]];
      var before := AttemptActions(t, init, verdicts);
      OneAttempt(s, t, init, verdicts, run[n], accepted[n], L.Run(true, s, before).value);
      MoreActions(t, init, verdicts, run[n], accepted[n]);
      RunConcat(s, before, [L.ReadNonce(t, true), L.Submit(t, accepted[n], ReplyOf(run[n].reply))]);
    }
  }

  lemma MoreActions(t: nat, run: seq<Submission>, accepted: seq<bool>, x: Submission, verdict: bool)
    requires |accepted| == |run|
    ensures AttemptActions(t, run + [x], accepted + [verdict])
            == AttemptActions(t, run, accepted) + [L.ReadNonce(t, true), L.Submit(t, verdict, ReplyOf(x.reply))]
  {
    assert (run + [x])[..|run|] == run && (accepted + [verdict])[..|accepted|] == accepted;
  }

  lemma NoAttempts(s: L.State, t: nat)
    requires t < |s.calls| && s.calls[t].phase == L.ReadingNonce(0) && s.calls[t].tries == []
    ensures AttemptActions(t, [], []) == [] && L.Run(true, s, []) == Some(s) && Reached(s, t, [], [], s)
  {
    assert TriesOf([], []) == [];
  }

  lemma TruthfulInit(first: nat, run: seq<Submission>, accepted: seq<bool>)
    requires run != [] && Truthful(first, run, accepted)
    ensures var n := |run| - 1; var last := if accepted[n] then 1 else 0;
            && Truthful(first, run[..n], accepted[..n])
            && run[n].count == PendingAfter(first, accepted[..n]) && run[n].count + last < TWO64
            && (run[n].reply.Ok? ==> accepted[n])
  {
    var n := |run| - 1;
    PendingAppend(first, accepted[..n], accepted[n]);
    assert accepted[..n] + [accepted[n]] == accepted == accepted[..n + 1];
    assert forall i | 0 <= i <= n :: accepted[..n][..i] == accepted[..i];
  }

  lemma NotYetOver(cfg: Config, op: UserOp, authSig: Bytes, start: Fee, run: seq<Submission>)
    requires run != [] && GoodRun(cfg, op, authSig, start, run)
    ensures var n := |run| - 1;
            && GoodRun(cfg, op, authSig, start, run[..n]) && !Over(run[..n])
            && run[n].tx.nonce == run[n].count % TWO64
  {
    hide IsRetryableSendError, PackUserOp, FeesAt;
    assert IsAttempt(cfg, op, authSig, start, |run| - 1, run[|run| - 1]);
  }

  /** Every send is a path of one call: from a state in which call `t` for the same
      operation holds the lock and is about to check, and with a truthful node, the
      machine can take the actions its events spell, and then the call is returning with
      exactly the send's submissions as its tries and the send's result. */
  lemma SendIsPath(s: L.State, t: nat, cfg: Config, checked: UserOp, final: UserOp, authSig: Bytes, start: Fee,
                   events: seq<Event>, run: seq<Submission>, accepted: seq<bool>)
    requires t < |s.calls|
    requires s.calls[t] == L.Call(AccountOf(cfg, checked.sender), checked.authNonce, L.CheckingAuth, None, [])
    requires SendEvents(cfg, checked, events, run) && GoodRun(cfg, final, authSig, start, run)
    requires Truthful(s.pending, run, accepted)
    requires events[0].count.Ok? ==> events[0].count.value == L.CountOf(s, AccountOf(cfg, checked.sender))
    ensures var r := L.Run(true, s, SendActions(t, events, run, accepted));
            r.Some? && Returned(s, t, run, accepted, r.value)
  {
    hide L.Step, IsAttempt, IsRetryableSendError, EventsOf, AttemptActions, PendingAfter, Returned, LastActions;
    var current := Current(events[0].count, checked.authNonce);
    var check := L.CheckAuth(t, events[0].count.Ok?);
    var s1 := CheckStep(s, t, check, current);
    RunOne(s, check);
    if current {
      EndOfLoop(cfg, events, run);
      CurrentSend(s, s1, t, cfg, final, authSig, start, events[1..], run, accepted);
      var rest := AttemptActions(t, run, accepted)
        + if Over(run) then [] else LastActions(t, events[|events| - 1].count);
      RunConcat(s, [check], rest);
      assert SendActions(t, events, run, accepted) == [check] + rest;
    } else {
      StaleSend(s, s1, t, events, run, accepted);
    }
  }

  /** The call is returning with the send's submissions as tries and its result. */
  predicate Returned(s: L.State, t: nat, run: seq<Submission>, accepted: seq<bool>, s': L.State)
    requires |accepted| == |run| && t < |s.calls|
  {
    && |s'.calls| == |s.calls|
    && s'.calls[t].phase == L.Returning(run != [] && run[|run| - 1].reply.Ok?)
    && s'.calls[t].tries == TriesOf(run, accepted) && s'.log == s.log + TriesOf(run, accepted)
    && s'.pending == PendingAfter(s.pending, accepted)
  }

  lemma CheckStep(s: L.State, t: nat, check: L.Action, current: bool) returns (s': L.State)
    requires check.CheckAuth? && check.call == t < |s.calls| && s.calls[t].phase == L.CheckingAuth
    requires current <==> check.answered && L.CountOf(s, s.calls[t].sender) % TWO64 == s.calls[t].authNonce
    ensures L.Step(true, s, check) == Some(s') && |s'.calls| == |s.calls| && s'.calls[t].tries == s.calls[t].tries
    ensures s'.calls[t].phase == if current then L.ReadingNonce(0) else L.Returning(false)
    ensures s'.log == s.log && s'.pending == s.pending
  {
    s' := L.Step(true, s, check).value;
  }

  lemma CurrentSend(s: L.State, s1: L.State, t: nat, cfg: Config, final: UserOp, authSig: Bytes, start: Fee,
                    events: seq<Event>, run: seq<Submission>, accepted: seq<bool>)
    requires t < |s.calls| == |s1.calls| && s1.calls[t].phase == L.ReadingNonce(0) && s1.calls[t].tries == []
    requires s1.log == s.log && s1.pending == s.pending
    requires LoopEvents(cfg, events, run) && GoodRun(cfg, final, authSig, start, run)
    requires Truthful(s.pending, run, accepted) && events != []
    requires !Over(run) ==> events[|events| - 1].Counted?
    ensures var rest := AttemptActions(t, run, accepted)
              + if Over(run) then [] else LastActions(t, events[|events| - 1].count);
            var r := L.Run(true, s1, rest);
            r.Some? && Returned(s, t, run, accepted, r.value)
  {
    hide L.Step, IsAttempt, IsRetryableSendError, EventsOf, AttemptActions, PendingAfter, LastActions, TriesOf;
    var attempts := AttemptActions(t, run, accepted);
    AttemptsArePath(s1, t, cfg, final, authSig, start, run, accepted);
    if Over(run) {
      assert attempts + [] == attempts;
    } else {
      var answer := events[|events| - 1].count;
      RunConcat(s1, attempts, LastActions(t, answer));
      LastSteps(L.Run(true, s1, attempts).value, t, |run|, answer);
    }
  }

  lemma StaleSend(s: L.State, s1: L.State, t: nat, events: seq<Event>, run: seq<Submission>, accepted: seq<bool>)
    requires run == [] && accepted == [] && |events| == 1 && events[0].Counted?
    requires t < |s.calls| == |s1.calls| && s1.calls[t].phase == L.Returning(false) && s1.calls[t].tries == []
    requires s1.log == s.log && s1.pending == s.pending
    ensures SendActions(t, events, run, accepted) == [L.CheckAuth(t, events[0].count.Ok?)]
    ensures Returned(s, t, run, accepted, s1)
  {
    NothingTried(run, accepted);
  }

  lemma NothingTried(run: seq<Submission>, accepted: seq<bool>)
    requires run == [] && |accepted| == |run|
    ensures TriesOf(run, accepted) == [] && forall first :: PendingAfter(first, accepted) == first
  {
  }

  /** The loop ends in a submission if it is over, and in a count read if not. */
  lemma EndOfLoop(cfg: Config, events: seq<Event>, run: seq<Submission>)
    requires events != [] && LoopEvents(cfg, events[1..], run)
    ensures |events| > 1 && (events[|events| - 1].Counted? <==> !Over(run))
    ensures !Over(run) && run != [] ==> Retried(run[|run| - 1])
  {
    hide IsRetryableSendError;
    assert events[1..] != [] && events[1..][|events| - 2] == events[|events| - 1];
  }

  lemma LastSteps(s: L.State, t: nat, n: nat, answer: Result<nat>)
    requires t < |s.calls| && s.calls[t].phase == L.ReadingNonce(n)
    ensures var r := L.Run(true, s, LastActions(t, answer));
            && r.Some? && r.value.calls[t] == s.calls[t].(phase := L.Returning(false))
            && r.value == s.(calls := r.value.calls) && |r.value.calls| == |s.calls|
  {
    RunOne(s, L.ReadNonce(t, false));
    RunTwo(s, L.ReadNonce(t, true), L.FailToSign(t));
  }
}
