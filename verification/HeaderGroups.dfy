/** Fetching a range of block headers: the range is split into groups of one hundred,
    and a goroutine per group fills its part of a shared slice. */
module HeaderGroups {
  import opened Wrappers

  const GROUP_SIZE: nat := 100

  /** A goroutine's work: the index it fetches next, and the last one it will fetch. */
  datatype Group = Group(next: int, end: int, done: bool)

  function NumGroups(count: nat): nat
    requires count > 0
  {
    (count - 1) / GROUP_SIZE + 1
  }

  /** Where group `g` ends: one hundred on, or the last index when that is past `count`. */
  function EndOf(count: nat, g: nat): int {
    if GROUP_SIZE * g + GROUP_SIZE - 1 > count then count - 1 else GROUP_SIZE * g + GROUP_SIZE - 1
  }

  /** The goroutines started; their number is the one the wait group was told. */
  method SplitGroups(count: nat) returns (groups: seq<Group>, numGroups: nat)
    requires count > 0
    ensures numGroups == |groups| == NumGroups(count)
    ensures forall g | 0 <= g < |groups| :: groups[g] == Group(GROUP_SIZE * g, EndOf(count, g), false)
  {
    numGroups := (count - 1) / GROUP_SIZE + 1;
    groups := [];
    var i := 0;
    while i < count
      invariant i == GROUP_SIZE * |groups|
      invariant |groups| <= NumGroups(count)
      invariant forall g | 0 <= g < |groups| :: groups[g] == Group(GROUP_SIZE * g, EndOf(count, g), false)
    {
      var start, end := i, i + GROUP_SIZE - 1;
      if end > count {
        end := count - 1;
      }
      groups := groups + [Group(start, end, false)];
      i := i + GROUP_SIZE;
    }
  }

  predicate InGroup(count: nat, g: nat, j: int) {
    GROUP_SIZE * g <= j <= EndOf(count, g)
  }

  /** Every index is in exactly one group. */
  lemma GroupsPartition(count: nat, j: nat)
    requires j < count
    ensures j / GROUP_SIZE < NumGroups(count) && InGroup(count, j / GROUP_SIZE, j)
    ensures forall g: nat | g < NumGroups(count) && InGroup(count, g, j) :: g == j / GROUP_SIZE
  {
  }

  /** The groups stay inside the range exactly when the count does not leave 99 over;
      otherwise the last group runs one past the end. */
  lemma GroupsInRange(count: nat)
    requires count > 0
    ensures (forall g: nat, j: int | g < NumGroups(count) && InGroup(count, g, j) :: 0 <= j < count)
            <==> count % GROUP_SIZE != 99
    ensures count % GROUP_SIZE == 99 ==> EndOf(count, NumGroups(count) - 1) == count
  {
    var last := NumGroups(count) - 1;
    if count % GROUP_SIZE == 99 {
      assert InGroup(count, last, count);
    } else {
      forall g: nat, j: int | g < NumGroups(count) && InGroup(count, g, j) ensures 0 <= j < count {
        EndInRange(count, g);
      }
    }
  }

  lemma EndInRange(count: nat, g: nat)
    requires count > 0 && g < NumGroups(count)
    ensures EndOf(count, g) >= count <==> count % GROUP_SIZE == 99 && g == NumGroups(count) - 1
    ensures GROUP_SIZE * g <= EndOf(count, g) <= count
  {
  }

  // ----- the goroutines

  datatype Header = Header(fields: map<string, string>)

  const ZERO_HEADER: Header := Header(map[])

  /** A request the node answered; a failed one gives no header. */
  datatype Call = Call(height: int, answer: Option<Header>)

  /** The shared slice, the goroutines, the wait group's counter and the requests so far.
      A goroutine indexing past the slice ends the process. */
  datatype Fetch = Fetch(elems: seq<Option<Header>>, groups: seq<Group>, waiting: int, calls: seq<Call>, panicked: bool)

  datatype Range = Range(start: int, count: nat)

  /** A request that fails leaves the zero header it was given to fill. */
  function HeaderOf(c: Call): Header {
    if c.answer.Some? then c.answer.value else ZERO_HEADER
  }

  predicate Init(r: Range, s: Fetch) {
    && r.count > 0
    && s.elems == seq(r.count, i => None)
    && |s.groups| == NumGroups(r.count) == s.waiting
    && (forall g | 0 <= g < |s.groups| :: s.groups[g] == Group(GROUP_SIZE * g, EndOf(r.count, g), false))
    && s.calls == [] && !s.panicked
  }

  /** Goroutine `g` does one iteration, whatever the node answers, or finishes. */
  predicate Step(r: Range, s: Fetch, g: nat, answer: Option<Header>, s': Fetch) {
    && !s.panicked && g < |s.groups| && !s.groups[g].done
    && var group := s.groups[g];
       if group.next > group.end then
         s' == s.(groups := s.groups[g := group.(done := true)], waiting := s.waiting - 1)
       else if !(0 <= group.next < |s.elems|) then
         s' == s.(panicked := true)
       else
         var call := Call(r.start + group.next, answer);
         s' == s.(elems := s.elems[group.next := Some(HeaderOf(call))],
                  groups := s.groups[g := group.(next := group.next + 1)],
                  calls := s.calls + [call])
  }

  function Running(groups: seq<Group>): nat {
    if groups == [] then 0
    else Running(groups[..|groups| - 1]) + if groups[|groups| - 1].done then 0 else 1
  }

  function Work(groups: seq<Group>): int {
    if groups == [] then 0
    else Work(groups[..|groups| - 1]) + WorkOf(groups[|groups| - 1])
  }

  function WorkOf(g: Group): int {
    g.end + 1 - g.next + if g.done then 0 else 1
  }

  lemma {:induction false} Updated(groups: seq<Group>, g: nat, group: Group)
    requires g < |groups|
    ensures var groups' := groups[g := group];
            && Running(groups') == Running(groups) + (if group.done then 0 else 1) - (if groups[g].done then 0 else 1)
            && Work(groups') == Work(groups) + WorkOf(group) - WorkOf(groups[g])
  {
    var last, groups' := |groups| - 1, groups[g := group];
    if g < last {
      Updated(groups[..last], g, group);
      assert groups'[..last] == groups[..last][g := group];
    } else {
      assert groups'[..last] == groups[..last];
    }
  }

  lemma {:induction false} SomeRunning(groups: seq<Group>)
    ensures Running(groups) > 0 <==> exists g :: 0 <= g < |groups| && !groups[g].done
  {
    if groups == [] {
    } else {
      var head, last := groups[..|groups| - 1], |groups| - 1;
      SomeRunning(head);
      if Running(head) > 0 {
        var g :| 0 <= g < |head| && !head[g].done;
        assert !groups[g].done;
      }
      if g :| 0 <= g < |groups| && !groups[g].done {
        assert g == last || !head[g].done;
      }
    }
  }

  lemma {:induction false} AllRunning(groups: seq<Group>)
    requires forall g | 0 <= g < |groups| :: !groups[g].done
    ensures Running(groups) == |groups|
  {
    if groups == [] {
    } else {
      AllRunning(groups[..|groups| - 1]);
    }
  }

  // ----- what every step keeps

  predicate GroupAt(r: Range, s: Fetch, g: nat)
    requires g < |s.groups|
  {
    var group := s.groups[g];
    && group.end == EndOf(r.count, g)
    && GROUP_SIZE * g <= group.next <= group.end + 1 && group.next <= r.count
    && (group.done ==> group.next == group.end + 1)
  }

  predicate Shape(r: Range, s: Fetch) {
    && r.count > 0 && |s.elems| == r.count && |s.groups| == NumGroups(r.count)
    && s.waiting == Running(s.groups)
    && (forall g | 0 <= g < |s.groups| :: GroupAt(r, s, g))
    && (s.panicked ==> r.count % GROUP_SIZE == 99)
  }

  /** Index `j` is filled once its group has passed it, by the only request for its height. */
  predicate IndexAt(r: Range, s: Fetch, j: nat)
    requires Shape(r, s) && j < r.count
  {
    && (s.elems[j].Some? <==> j < s.groups[j / GROUP_SIZE].next)
    && (s.elems[j].Some? <==> exists i :: 0 <= i < |s.calls| && s.calls[i].height == r.start + j)
    && (forall i | 0 <= i < |s.calls| && s.calls[i].height == r.start + j :: s.elems[j] == Some(HeaderOf(s.calls[i])))
  }

  predicate Calls(r: Range, s: Fetch) {
    && (forall i | 0 <= i < |s.calls| :: r.start <= s.calls[i].height < r.start + r.count)
    && (forall i, k | 0 <= i < k < |s.calls| :: s.calls[i].height != s.calls[k].height)
  }

  predicate Inv(r: Range, s: Fetch) {
    Shape(r, s) && Calls(r, s) && forall j | 0 <= j < r.count :: IndexAt(r, s, j)
  }

  lemma InitInv(r: Range, s: Fetch)
    requires Init(r, s)
    ensures Inv(r, s)
  {
    AllRunning(s.groups);
    forall g | 0 <= g < |s.groups| ensures GroupAt(r, s, g) {
      EndInRange(r.count, g);
    }
    forall j | 0 <= j < r.count ensures IndexAt(r, s, j) {
      GroupsPartition(r.count, j);
    }
  }

  lemma StepShape(r: Range, s: Fetch, g: nat, answer: Option<Header>, s': Fetch)
    requires Shape(r, s) && Step(r, s, g, answer, s')
    ensures Shape(r, s')
    ensures !s'.panicked ==> Work(s'.groups) == Work(s.groups) - 1
  {
    EndInRange(r.count, g);
    Updated(s.groups, g, s'.groups[g]);
    assert GroupAt(r, s, g);
    forall h | 0 <= h < |s'.groups| ensures GroupAt(r, s', h) {
      assert GroupAt(r, s, h);
    }
  }

  lemma StepIndex(r: Range, s: Fetch, g: nat, answer: Option<Header>, s': Fetch, j: nat)
    requires Inv(r, s) && Step(r, s, g, answer, s') && Shape(r, s') && j < r.count
    ensures IndexAt(r, s', j)
  {
    assert IndexAt(r, s, j) && GroupAt(r, s, g);
    GroupsPartition(r.count, j);
    if |s'.calls| > |s.calls| {
      var next := s.groups[g].next;
      if j == next {
        assert InGroup(r.count, g, j);
        assert s'.calls[|s.calls|].height == r.start + j;
      } else {
        assert forall i | 0 <= i < |s.calls| :: s'.calls[i] == s.calls[i];
      }
    }
  }

  lemma StepInv(r: Range, s: Fetch, g: nat, answer: Option<Header>, s': Fetch)
    requires Inv(r, s) && Step(r, s, g, answer, s')
    ensures Inv(r, s')
  {
    StepShape(r, s, g, answer, s');
    forall j | 0 <= j < r.count ensures IndexAt(r, s', j) {
      StepIndex(r, s, g, answer, s', j);
    }
    var next := s.groups[g].next;
    if |s'.calls| > |s.calls| {
      assert GroupAt(r, s, g) && InGroup(r.count, g, next);
      GroupsPartition(r.count, next);
      assert IndexAt(r, s, next);
    }
  }

  // ----- whole runs

  /** The states of a run, and who stepped with what answer. */
  datatype Run = Run(states: seq<Fetch>, who: seq<nat>, answers: seq<Option<Header>>)

  ghost predicate IsRun(r: Range, run: Run) {
    && |run.states| == |run.who| + 1 == |run.answers| + 1
    && Init(r, run.states[0])
    && forall i | 0 <= i < |run.who| :: Step(r, run.states[i], run.who[i], run.answers[i], run.states[i + 1])
  }

  ghost predicate Stuck(r: Range, s: Fetch) {
    forall g, answer, s' :: !Step(r, s, g, answer, s')
  }

  lemma {:induction false} RunInv(r: Range, run: Run, n: nat)
    requires IsRun(r, run) && n < |run.states|
    ensures Inv(r, run.states[n])
    ensures !run.states[n].panicked ==> Work(run.states[n].groups) == Work(run.states[0].groups) - n
  {
    if n == 0 {
      InitInv(r, run.states[0]);
    } else {
      RunInv(r, run, n - 1);
      assert Step(r, run.states[n - 1], run.who[n - 1], run.answers[n - 1], run.states[n]);
      StepShape(r, run.states[n - 1], run.who[n - 1], run.answers[n - 1], run.states[n]);
      StepInv(r, run.states[n - 1], run.who[n - 1], run.answers[n - 1], run.states[n]);
    }
  }

  lemma {:induction false} WorkLeft(groups: seq<Group>)
    requires forall g | 0 <= g < |groups| :: WorkOf(groups[g]) >= 0
    ensures Work(groups) >= 0
  {
    if groups == [] {
    } else {
      WorkLeft(groups[..|groups| - 1]);
    }
  }

  /** No run goes on for ever: until a panic, each step uses up one unit of the work there was. */
  lemma RunsAreFinite(r: Range, run: Run)
    requires IsRun(r, run)
    ensures |run.who| <= Work(run.states[0].groups) + 1
  {
    var n := |run.who|;
    if n > 0 {
      var s := run.states[n - 1];
      RunInv(r, run, n - 1);
      assert Step(r, s, run.who[n - 1], run.answers[n - 1], run.states[n]);
      forall g | 0 <= g < |s.groups| ensures WorkOf(s.groups[g]) >= 0 {
        assert GroupAt(r, s, g);
      }
      WorkLeft(s.groups);
    } else {
      RunInv(r, run, 0);
      var s := run.states[0];
      forall g | 0 <= g < |s.groups| ensures WorkOf(s.groups[g]) >= 0 {
        assert GroupAt(r, s, g);
      }
      WorkLeft(s.groups);
    }
  }

  /** The fetch as documented: every height requested exactly once, each slot holding what
      that request answered (a failed one the zero header), nothing left unfilled. */
  predicate Fetched(r: Range, s: Fetch) {
    && |s.elems| == r.count && Calls(r, s)
    && forall j | 0 <= j < r.count :: Served(r, s, j)
  }

  predicate Served(r: Range, s: Fetch, j: nat)
    requires j < |s.elems|
  {
    exists i :: 0 <= i < |s.calls| && s.calls[i].height == r.start + j && Left(s.elems[j], s.calls[i].answer)
  }

  /** A slot holds the header answered; after a failed request, a header of no fields. */
  predicate Left(elem: Option<Header>, answer: Option<Header>) {
    match answer
    case Some(header) => elem == Some(header)
    case None => elem == Some(Header(map[]))
  }

  /** The wait returns only with everything fetched, and never when 99 are left over. */
  lemma WaitReturns(r: Range, s: Fetch)
    requires Inv(r, s) && s.waiting == 0
    ensures Fetched(r, s) && r.count % GROUP_SIZE != 99
  {
    SomeRunning(s.groups);
    var last := NumGroups(r.count) - 1;
    EndInRange(r.count, last);
    assert GroupAt(r, s, last);
    forall j | 0 <= j < r.count ensures Served(r, s, j) {
      GroupsPartition(r.count, j);
      assert GroupAt(r, s, j / GROUP_SIZE) && IndexAt(r, s, j);
    }
  }

  /** Whatever the scheduling and the answers, a run that has come to its end has panicked
      if and only if the count leaves 99 over, and has otherwise fetched every header. */
  lemma RunOutcome(r: Range, run: Run)
    requires IsRun(r, run) && Stuck(r, run.states[|run.who|])
    ensures var s := run.states[|run.who|];
            && (s.panicked <==> r.count % GROUP_SIZE == 99)
            && (!s.panicked ==> s.waiting == 0 && Fetched(r, s))
  {
    var s := run.states[|run.who|];
    RunInv(r, run, |run.who|);
    if !s.panicked {
      SomeRunning(s.groups);
      if s.waiting > 0 {
        var g :| 0 <= g < |s.groups| && !s.groups[g].done;
        var s' := Next(r, s, g);
      }
      WaitReturns(r, s);
    }
  }

  /** A goroutine that is not done can always step. */
  function Next(r: Range, s: Fetch, g: nat): (s': Fetch)
    requires !s.panicked && g < |s.groups| && !s.groups[g].done
    ensures Step(r, s, g, None, s')
  {
    var group := s.groups[g];
    if group.next > group.end then
      s.(groups := s.groups[g := group.(done := true)], waiting := s.waiting - 1)
    else if !(0 <= group.next < |s.elems|) then
      s.(panicked := true)
    else
      s.(elems := s.elems[group.next := Some(ZERO_HEADER)],
         groups := s.groups[g := group.(next := group.next + 1)],
         calls := s.calls + [Call(r.start + group.next, None)])
  }

  /** After the wait: the headers in order; a slot without one is an error. */
  method CollectHeaders(elems: seq<Option<Header>>) returns (r: Option<seq<Header>>)
    ensures r.Some? <==> forall i | 0 <= i < |elems| :: elems[i].Some?
    ensures r.Some? ==> |r.value| == |elems| && forall i | 0 <= i < |elems| :: elems[i] == Some(r.value[i])
  {
    var headers: seq<Header> := [];
    for i := 0 to |elems|
      invariant |headers| == i && forall j | 0 <= j < i :: elems[j] == Some(headers[j])
    {
      if elems[i].None? {
        return None;
      }
      headers := headers + [elems[i].value];
    }
    r := Some(headers);
  }
}
