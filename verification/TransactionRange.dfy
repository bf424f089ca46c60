/** Fetching many Solana transactions at once: one goroutine per signature, a
    semaphore of twenty, a result channel and an error channel of capacity n. */
module TransactionRange {
  import opened Wrappers
  import opened Text

  const MAX_CONCURRENT: nat := 20
  const MAX_RETRIES: nat := 3

  /** A transaction as decoded; `None` for a response without a signatures field. */
  datatype Tx = Tx(signatures: Option<seq<string>>, slot: nat)

  /** The node's answer to one request: a body, or a failure whose text does or does
      not say that the request failed. */
  datatype Answer = Body(tx: Tx) | Failure(requestFailed: bool)

  datatype Fetch = Fetched(tx: Tx) | FetchError(requestFailed: bool)

  /** The tail of `GetTransaction`: a body without signatures is an error. */
  function GetTransaction(a: Answer): Fetch {
    match a
    case Failure(f) => FetchError(f)
    case Body(tx) => if tx.signatures.None? then FetchError(false) else Fetched(tx)
  }

  // ----- the goroutines

  datatype Phase = Blocked | Polling(retry: nat) | HasResult | HasError | Releasing | Done

  /** A goroutine, with the history the properties speak of: the answers to its requests,
      whether the deadline ended it, messages sent, and the transaction it obtained. */
  datatype Worker = Worker(phase: Phase, answers: seq<Answer>, expired: bool, messages: nat, got: Option<Tx>)

  datatype State = State(workers: seq<Worker>, slots: nat, results: seq<Tx>, errors: nat)

  datatype Action =
    | Acquire(i: nat)
    | Expire(i: nat)
    | Tick(i: nat, answer: Answer)
    | GiveUp(i: nat)
    | SendResult(i: nat)
    | SendError(i: nat)
    | Release(i: nat)

  function Initial(n: nat): State {
    State(seq(n, i => Worker(Blocked, [], false, 0, None)), 0, [], 0)
  }

  /** Where one answer takes a polling goroutine. */
  function AfterTick(w: Worker, retry: nat, a: Answer): Worker {
    var w' := w.(answers := w.answers + [a]);
    match GetTransaction(a)
    case Fetched(tx) => w'.(phase := HasResult, got := Some(tx))
    case FetchError(requestFailed) =>
      if retry + 1 < MAX_RETRIES && requestFailed then w'.(phase := Polling(retry + 1)) else w'.(phase := HasError)
  }

  /** One step of goroutine `a.i`; `None` where it is blocked or not at that point.
      Channel capacity is the number of goroutines. */
  function Step(s: State, a: Action): Option<State> {
    if a.i >= |s.workers| then None
    else
      var i, n, w := a.i, |s.workers|, s.workers[a.i];
      match (a, w.phase)
      case (Acquire(_), Blocked) =>
        if s.slots >= MAX_CONCURRENT then None
        else Some(s.(workers := s.workers[i := w.(phase := Polling(0))], slots := s.slots + 1))
      case (Expire(_), Polling(r)) =>
        if r >= MAX_RETRIES then None
        else Some(s.(workers := s.workers[i := w.(phase := HasError, expired := true)]))
      case (Tick(_, answer), Polling(r)) =>
        if r >= MAX_RETRIES then None else Some(s.(workers := s.workers[i := AfterTick(w, r, answer)]))
      case (GiveUp(_), Polling(r)) =>
        if r < MAX_RETRIES then None else Some(s.(workers := s.workers[i := w.(phase := HasError)]))
      case (SendResult(_), HasResult) =>
        if |s.results| >= n || w.got.None? then None
        else Some(s.(workers := s.workers[i := w.(phase := Releasing, messages := w.messages + 1)],
                     results := s.results + [w.got.value]))
      case (SendError(_), HasError) =>
        if s.errors >= n then None
        else Some(s.(workers := s.workers[i := w.(phase := Releasing, messages := w.messages + 1)],
                     errors := s.errors + 1))
      case (Release(_), Releasing) =>
        if s.slots == 0 then None
        else Some(s.(workers := s.workers[i := w.(phase := Done)], slots := s.slots - 1))
      case _ => None
  }

  function Run(n: nat, actions: seq<Action>): Option<State> {
    if actions == [] then Some(Initial(n))
    else
      var before := Run(n, actions[..|actions| - 1]);
      if before.None? then None else Step(before.value, actions[|actions| - 1])
  }

  // ----- sums over the goroutines

  function Sum(f: Worker -> nat, ws: seq<Worker>): nat {
    if ws == [] then 0 else Sum(f, ws[..|ws| - 1]) + f(ws[|ws| - 1])
  }

  lemma {:induction false} SumUpdate(f: Worker -> nat, ws: seq<Worker>, i: nat, w: Worker)
    requires i < |ws|
    ensures Sum(f, ws[i := w]) + f(ws[i]) == Sum(f, ws) + f(w)
  {
    var us := ws[i := w];
    if i < |ws| - 1 {
      SumUpdate(f, ws[..|ws| - 1], i, w);
      assert us[..|us| - 1] == ws[..|ws| - 1][i := w];
    } else {
      assert us[..|us| - 1] == ws[..|ws| - 1];
    }
  }

  lemma {:induction false} SumBounded(f: Worker -> nat, ws: seq<Worker>, bound: nat)
    requires forall i | 0 <= i < |ws| :: f(ws[i]) <= bound
    ensures Sum(f, ws) <= bound * |ws|
    ensures forall i | 0 <= i < |ws| && f(ws[i]) < bound :: Sum(f, ws) < bound * |ws|
    ensures (forall i | 0 <= i < |ws| :: f(ws[i]) == bound) ==> Sum(f, ws) == bound * |ws|
  {
    if ws == [] {
    } else {
      var init := ws[..|ws| - 1];
      SumBounded(f, init, bound);
      assert bound * |ws| == bound * |init| + bound;
      forall i | 0 <= i < |ws| && f(ws[i]) < bound ensures Sum(f, ws) < bound * |ws| {
        if i < |init| { assert init[i] == ws[i]; }
      }
      if forall i | 0 <= i < |ws| :: f(ws[i]) == bound {
        assert forall i | 0 <= i < |init| :: init[i] == ws[i];
      }
    }
  }

  function HoldsSlot(w: Worker): nat { if w.phase.Blocked? || w.phase.Done? then 0 else 1 }

  function Messages(w: Worker): nat { w.messages }

  function SentError(w: Worker): nat { if w.messages > 0 && w.got.None? then 1 else 0 }

  /** How many more steps the goroutine can take at most. */
  function StepsLeft(w: Worker): nat {
    match w.phase
    case Blocked => 7
    case Polling(r) => if r >= MAX_RETRIES then 3 else 6 - r
    case HasResult => 2
    case HasError => 2
    case Releasing => 1
    case Done => 0
  }

  /** The transactions the goroutines have sent. */
  function SentResults(ws: seq<Worker>): multiset<Tx> {
    if ws == [] then multiset{} else SentResults(ws[..|ws| - 1]) + SentBy(ws[|ws| - 1])
  }

  function SentBy(w: Worker): multiset<Tx> {
    if w.messages > 0 && w.got.Some? then multiset{w.got.value} else multiset{}
  }

  lemma {:induction false} SentUpdate(ws: seq<Worker>, i: nat, w: Worker)
    requires i < |ws|
    ensures SentResults(ws[i := w]) + SentBy(ws[i]) == SentResults(ws) + SentBy(w)
  {
    hide SentBy;
    var us := ws[i := w];
    if i < |ws| - 1 {
      var init, last := ws[..|ws| - 1], SentBy(ws[|ws| - 1]);
      SentUpdate(init, i, w);
      assert us[..|us| - 1] == init[i := w] && init[i] == ws[i];
      SwapParts(SentResults(init[i := w]), SentBy(ws[i]), SentResults(init), SentBy(w), last);
    } else {
      assert us[..|us| - 1] == ws[..|ws| - 1];
    }
  }

  lemma SwapParts(a: multiset<Tx>, b: multiset<Tx>, c: multiset<Tx>, d: multiset<Tx>, last: multiset<Tx>)
    requires a + b == c + d
    ensures a + last + b == c + last + d
  {
    assert a + last + b == (a + b) + last;
    assert c + last + d == (c + d) + last;
  }

  lemma Cancel(a: multiset<Tx>, b: multiset<Tx>, c: multiset<Tx>)
    requires a + b == c + b
    ensures a == c
  {
    assert a == (a + b) - b && c == (c + b) - b;
  }

  lemma {:induction false} SentCounts(ws: seq<Worker>)
    requires forall i | 0 <= i < |ws| :: GoodWorker(ws[i])
    ensures |SentResults(ws)| + Sum(SentError, ws) == Sum(Messages, ws)
  {
    if ws == [] {
    } else {
      SentCounts(ws[..|ws| - 1]);
      assert GoodWorker(ws[|ws| - 1]);
    }
  }

  // ----- the invariant

  /** At most three requests, each but the last answered by a request failure. */
  predicate Asked(w: Worker) {
    |w.answers| <= 3 && forall i | 0 <= i < |w.answers| - 1 :: w.answers[i] == Failure(true)
  }

  /** What was obtained is the body last answered, with its signatures. */
  predicate Obtained(w: Worker) {
    && w.got.Some? && w.answers != [] && !w.expired
    && w.answers[|w.answers| - 1] == Body(w.got.value) && w.got.value.signatures.Some?
  }

  /** Nothing was obtained: the deadline passed, or the last answer was a body without
      signatures, another failure than a request failure, or the third failure. */
  predicate Failed(w: Worker) {
    && w.got.None?
    && (w.expired ||
        (w.answers != [] &&
         match w.answers[|w.answers| - 1]
         case Body(tx) => tx.signatures.None?
         case Failure(requestFailed) => !requestFailed || |w.answers| == 3))
  }

  predicate GoodWorker(w: Worker) {
    && Asked(w)
    && match w.phase
       case Blocked => w.answers == [] && w.messages == 0 && w.got.None? && !w.expired
       case Polling(r) =>
         && |w.answers| == r < MAX_RETRIES && w.messages == 0 && w.got.None? && !w.expired
         && forall i | 0 <= i < r :: w.answers[i] == Failure(true)
       case HasResult => w.messages == 0 && Obtained(w)
       case HasError => w.messages == 0 && Failed(w)
       case Releasing => w.messages == 1 && (Obtained(w) || Failed(w))
       case Done => w.messages == 1 && (Obtained(w) || Failed(w))
  }

  predicate Inv(s: State) {
    && (forall i | 0 <= i < |s.workers| :: GoodWorker(s.workers[i]))
    && s.slots == Sum(HoldsSlot, s.workers) <= MAX_CONCURRENT
    && multiset(s.results) == SentResults(s.workers)
    && s.errors == Sum(SentError, s.workers)
    && (forall i | 0 <= i < |s.results| :: s.results[i].signatures.Some?)
  }

  lemma StepKeepsWorkers(s: State, a: Action)
    requires (forall i | 0 <= i < |s.workers| :: GoodWorker(s.workers[i])) && Step(s, a).Some?
    ensures var s' := Step(s, a).value;
            && |s'.workers| == |s.workers|
            && s'.workers == s.workers[a.i := s'.workers[a.i]]
            && forall i | 0 <= i < |s'.workers| :: GoodWorker(s'.workers[i])
  {
    assert GoodWorker(s.workers[a.i]);
  }

  lemma StepKeepsSlots(s: State, a: Action)
    requires s.slots == Sum(HoldsSlot, s.workers) <= MAX_CONCURRENT && Step(s, a).Some?
    ensures var s' := Step(s, a).value; s'.slots == Sum(HoldsSlot, s'.workers) <= MAX_CONCURRENT
  {
    SumUpdate(HoldsSlot, s.workers, a.i, Step(s, a).value.workers[a.i]);
  }

  lemma StepCounts(s: State, a: Action)
    requires a.i < |s.workers| && GoodWorker(s.workers[a.i]) && Step(s, a).Some?
    ensures Sum(StepsLeft, Step(s, a).value.workers) < Sum(StepsLeft, s.workers)
  {
    SumUpdate(StepsLeft, s.workers, a.i, Step(s, a).value.workers[a.i]);
  }

  lemma StepKeepsErrors(s: State, a: Action)
    requires a.i < |s.workers| && GoodWorker(s.workers[a.i]) && Step(s, a).Some?
    requires s.errors == Sum(SentError, s.workers)
    ensures var s' := Step(s, a).value; s'.errors == Sum(SentError, s'.workers)
  {
    SumUpdate(SentError, s.workers, a.i, Step(s, a).value.workers[a.i]);
  }

  lemma ResultsStep(s: State, a: Action)
    requires a.i < |s.workers| && GoodWorker(s.workers[a.i]) && Step(s, a).Some?
    ensures var s' := Step(s, a).value; var w := s.workers[a.i];
            && |s'.workers| == |s.workers| && s'.workers == s.workers[a.i := s'.workers[a.i]]
            && if a.SendResult?
               then w.got.Some? && s'.results == s.results + [w.got.value]
                    && SentBy(w) == multiset{} && SentBy(s'.workers[a.i]) == multiset{w.got.value}
               else s'.results == s.results && SentBy(s'.workers[a.i]) == SentBy(w)
  {
  }

  lemma StepKeepsResults(s: State, a: Action)
    requires a.i < |s.workers| && GoodWorker(s.workers[a.i]) && Step(s, a).Some?
    requires multiset(s.results) == SentResults(s.workers)
    ensures var s' := Step(s, a).value; multiset(s'.results) == SentResults(s'.workers)
  {
    hide Step, SentBy, SentResults, GoodWorker;
    var s' := Step(s, a).value;
    ResultsStep(s, a);
    var w, w' := s.workers[a.i], s'.workers[a.i];
    SentUpdate(s.workers, a.i, w');
    if a.SendResult? {
      SendAdds(w, w', s.results, SentResults(s.workers), SentResults(s'.workers));
    } else {
      Cancel(SentResults(s'.workers), SentBy(w), SentResults(s.workers));
    }
  }

  lemma SendAdds(w: Worker, w': Worker, results: seq<Tx>, sent: multiset<Tx>, sent': multiset<Tx>)
    requires w.got.Some? && SentBy(w) == multiset{} && SentBy(w') == multiset{w.got.value}
    requires multiset(results) == sent && sent' + SentBy(w) == sent + SentBy(w')
    ensures multiset(results + [w.got.value]) == sent'
  {
    assert sent' + multiset{} == sent';
  }

  lemma StepKeepsInv(s: State, a: Action)
    requires Inv(s) && Step(s, a).Some?
    ensures Inv(Step(s, a).value)
    ensures Sum(StepsLeft, Step(s, a).value.workers) < Sum(StepsLeft, s.workers)
  {
    hide StepsLeft, HoldsSlot, SentError, SentBy, SentResults, Sum;
    assert GoodWorker(s.workers[a.i]);
    StepKeepsWorkers(s, a);
    StepKeepsSlots(s, a);
    StepKeepsErrors(s, a);
    StepKeepsResults(s, a);
    StepCounts(s, a);
  }

  lemma {:induction false} InitialSums(n: nat)
    ensures var ws := Initial(n).workers;
            && Sum(HoldsSlot, ws) == 0 && Sum(SentError, ws) == 0 && Sum(StepsLeft, ws) == 7 * n
            && SentResults(ws) == multiset{}
  {
    if n == 0 {
    } else {
      InitialSums(n - 1);
      assert Initial(n).workers[..n - 1] == Initial(n - 1).workers;
    }
  }

  /** Every reachable state satisfies the invariant, and a run has at most seven
      steps per goroutine. */
  lemma {:induction false} Safety(n: nat, actions: seq<Action>)
    requires Run(n, actions).Some?
    ensures var s := Run(n, actions).value;
            Inv(s) && |s.workers| == n && |actions| + Sum(StepsLeft, s.workers) <= 7 * n
  {
    if actions == [] {
      InitialSums(n);
    } else {
      var init := actions[..|actions| - 1];
      Safety(n, init);
      var s, a := Run(n, init).value, actions[|actions| - 1];
      StepKeepsWorkers(s, a);
      StepKeepsInv(s, a);
    }
  }

  /** A goroutine with a message to send finds room in its channel. */
  lemma SendNeverBlocks(s: State, i: nat)
    requires Inv(s) && i < |s.workers|
    ensures s.workers[i].phase.HasResult? ==> Step(s, SendResult(i)).Some?
    ensures s.workers[i].phase.HasError? ==> Step(s, SendError(i)).Some?
  {
    hide GoodWorker, SentResults, Sum, SentError;
    var w := s.workers[i];
    ToSend(s);
    if w.messages == 0 {
      SentCounts(s.workers);
      assert Messages(w) < 1;
      SumBounded(Messages, s.workers, 1);
      assert |s.results| == |multiset(s.results)|;
    }
  }

  lemma ToSend(s: State)
    requires Inv(s)
    ensures forall i | 0 <= i < |s.workers| :: Messages(s.workers[i]) <= 1
    ensures forall i | 0 <= i < |s.workers| && s.workers[i].phase.HasResult? ::
              s.workers[i].messages == 0 && s.workers[i].got.Some?
    ensures forall i | 0 <= i < |s.workers| && s.workers[i].phase.HasError? :: s.workers[i].messages == 0
  {
    hide Asked, Failed, Sum, SentResults;
    forall i | 0 <= i < |s.workers| ensures GoodWorker(s.workers[i]) {}
  }

  /** No deadlock: unless every goroutine is done, some goroutine can step. */
  lemma Progress(s: State) returns (a: Action)
    requires Inv(s) && exists i :: 0 <= i < |s.workers| && !s.workers[i].phase.Done?
    ensures Step(s, a).Some?
  {
    if i :| 0 <= i < |s.workers| && !s.workers[i].phase.Done? && !s.workers[i].phase.Blocked? {
      assert GoodWorker(s.workers[i]);
      SendNeverBlocks(s, i);
      match s.workers[i].phase {
        case Polling(r) => a := Expire(i);
        case HasResult => a := SendResult(i);
        case HasError => a := SendError(i);
        case Releasing =>
          a := Release(i);
          SumAtLeast(HoldsSlot, s.workers, i);
      }
    } else {
      var i :| 0 <= i < |s.workers| && !s.workers[i].phase.Done?;
      SumBounded(HoldsSlot, s.workers, 0);
      a := Acquire(i);
    }
  }

  lemma {:induction false} SumAtLeast(f: Worker -> nat, ws: seq<Worker>, i: nat)
    requires i < |ws|
    ensures Sum(f, ws) >= f(ws[i])
  {
    if i == |ws| - 1 {
    } else {
      SumAtLeast(f, ws[..|ws| - 1], i);
    }
  }

  // ----- collecting

  function Valid(txs: seq<Tx>): seq<Tx> {
    if txs == [] then []
    else Valid(txs[..|txs| - 1]) + if txs[|txs| - 1].signatures.Some? then [txs[|txs| - 1]] else []
  }

  /** After the wait: any error fails the call, otherwise the valid results are returned. */
  method Collect(results: seq<Tx>, errors: nat) returns (r: Result<seq<Tx>>)
    ensures r == Collected(results, errors)
  {
    if errors > 0 {
      return Err("multiple errors occurred");
    }
    var valid: seq<Tx> := [];
    for i := 0 to |results|
      invariant valid == Valid(results[..i])
    {
      assert results[..i + 1][..i] == results[..i];
      if results[i].signatures.Some? {
        valid := valid + [results[i]];
      }
    }
    assert results[..|results|] == results;
    if |valid| == 0 {
      return Err("no valid transactions found");
    }
    r := Ok(valid);
  }

  function Collected(results: seq<Tx>, errors: nat): Result<seq<Tx>> {
    if errors > 0 then Err("multiple errors occurred")
    else if Valid(results) == [] then Err("no valid transactions found")
    else Ok(Valid(results))
  }

  lemma {:induction false} NothingFiltered(txs: seq<Tx>)
    requires forall i | 0 <= i < |txs| :: txs[i].signatures.Some?
    ensures Valid(txs) == txs
  {
    if txs == [] {
    } else {
      NothingFiltered(txs[..|txs| - 1]);
    }
  }

  function ObtainedBy(ws: seq<Worker>): (txs: seq<Tx>)
    requires forall i | 0 <= i < |ws| :: ws[i].got.Some?
    ensures |txs| == |ws|
  {
    seq(|ws|, i requires 0 <= i < |ws| => ws[i].got.value)
  }

  lemma {:induction false} SentAll(ws: seq<Worker>)
    requires forall i | 0 <= i < |ws| :: ws[i].messages == 1 && ws[i].got.Some?
    ensures SentResults(ws) == multiset(ObtainedBy(ws))
  {
    if ws == [] {
    } else {
      var init := ws[..|ws| - 1];
      SentAll(init);
      assert ObtainedBy(ws) == ObtainedBy(init) + [ws[|ws| - 1].got.value];
    }
  }

  predicate AllDone(s: State) {
    forall i | 0 <= i < |s.workers| :: s.workers[i].phase.Done?
  }

  predicate AllObtained(s: State) {
    forall i | 0 <= i < |s.workers| :: s.workers[i].got.Some?
  }

  /** A goroutine that is done: one message, after at most three requests, with the
      transaction answered or for one of the reasons there are to fail. */
  predicate Finished(w: Worker) {
    w.messages == 1 && Asked(w) && (Obtained(w) || Failed(w))
  }

  lemma DoneMessages(s: State)
    requires Inv(s) && AllDone(s)
    ensures forall i | 0 <= i < |s.workers| :: Finished(s.workers[i])
    ensures |s.results| + s.errors == |s.workers|
  {
    hide SentResults, Sum, SentError, Asked, Failed, Obtained;
    forall i | 0 <= i < |s.workers| ensures Messages(s.workers[i]) == 1 && Finished(s.workers[i]) {
      assert GoodWorker(s.workers[i]);
    }
    hide GoodWorker;
    SentCounts(s.workers);
    SumBounded(Messages, s.workers, 1);
    assert |s.results| == |multiset(s.results)|;
  }

  lemma NoErrorsIffAllObtained(s: State)
    requires Inv(s) && AllDone(s)
    ensures s.errors == 0 <==> AllObtained(s)
  {
    DoneMessages(s);
    if AllObtained(s) {
      SumBounded(SentError, s.workers, 0);
    } else {
      var i :| 0 <= i < |s.workers| && s.workers[i].got.None?;
      SumAtLeast(SentError, s.workers, i);
    }
  }

  /** When every goroutine is done, each has sent exactly one message after at most
      three requests, retrying only request failures, and all of those up to the third
      answer. The call succeeds exactly when every goroutine obtained its
      transaction, and then returns those n transactions and no others. */
  lemma RangeResult(n: nat, actions: seq<Action>)
    requires n >= 2 && Run(n, actions).Some? && AllDone(Run(n, actions).value)
    ensures var s := Run(n, actions).value;
            && |s.workers| == n == |s.results| + s.errors
            && (forall i | 0 <= i < n :: Finished(s.workers[i]))
            && (Collected(s.results, s.errors).Ok? <==> AllObtained(s))
            && (AllObtained(s) ==>
                  && Collected(s.results, s.errors) == Ok(s.results)
                  && multiset(s.results) == multiset(ObtainedBy(s.workers)))
  {
    Safety(n, actions);
    var s := Run(n, actions).value;
    DoneMessages(s);
    NoErrorsIffAllObtained(s);
    NothingFiltered(s.results);
    if AllObtained(s) {
      SentAll(s.workers);
    }
  }

  /** In every reachable state at most twenty goroutines hold the semaphore. */
  lemma AtMostTwentyRunning(n: nat, actions: seq<Action>)
    requires Run(n, actions).Some?
    ensures var s := Run(n, actions).value; s.slots == Sum(HoldsSlot, s.workers) <= 20
  {
    Safety(n, actions);
  }

  // ----- the input slice

  predicate ValidSignature(s: string) {
    88 <= |s| <= 90
  }

  /** Trims the caller's slice in place, entry by entry, up to the first bad one. */
  method ValidateSignatures(sigs: array<string>) returns (bad: Option<nat>)
    modifies sigs
    ensures bad.None? ==>
              forall i :: 0 <= i < sigs.Length ==> sigs[i] == TrimSpace(old(sigs[i])) && ValidSignature(sigs[i])
    ensures bad.Some? ==>
              && bad.value < sigs.Length && !ValidSignature(sigs[bad.value])
              && (forall i :: 0 <= i <= bad.value ==> sigs[i] == TrimSpace(old(sigs[i])))
              && (forall i :: 0 <= i < bad.value ==> ValidSignature(sigs[i]))
              && (forall i :: bad.value < i < sigs.Length ==> sigs[i] == old(sigs[i]))
  {
    for i := 0 to sigs.Length
      invariant forall j :: 0 <= j < i ==> sigs[j] == TrimSpace(old(sigs[j])) && ValidSignature(sigs[j])
      invariant forall j :: i <= j < sigs.Length ==> sigs[j] == old(sigs[j])
    {
      sigs[i] := TrimSpace(sigs[i]);
      if sigs[i] == "" {
        return Some(i);
      }
      if |sigs[i]| < 88 || |sigs[i]| > 90 {
        return Some(i);
      }
    }
    bad := None;
  }
}
