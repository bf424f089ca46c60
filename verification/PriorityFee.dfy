/** The suggested Solana priority fee: the upper quartile of the recent fees. */
module PriorityFee {

  /** How many fees are at most `x`. */
  function AtMost(fees: seq<nat>, x: nat): (n: nat)
    ensures n <= |fees|
  {
    if fees == [] then 0 else AtMost(fees[..|fees| - 1], x) + if fees[|fees| - 1] <= x then 1 else 0
  }

  /** How many fees are at least `x`. */
  function AtLeast(fees: seq<nat>, x: nat): (n: nat)
    ensures n <= |fees|
  {
    if fees == [] then 0 else AtLeast(fees[..|fees| - 1], x) + if fees[|fees| - 1] >= x then 1 else 0
  }

  predicate Sorted(s: seq<nat>) {
    forall i, j | 0 <= i < j < |s| :: s[i] <= s[j]
  }

  function Inserted(s: seq<nat>, x: nat): seq<nat> {
    if s == [] || s[|s| - 1] <= x then s + [x] else Inserted(s[..|s| - 1], x) + [s[|s| - 1]]
  }

  /** The fees in ascending order: what the library's sort leaves in the slice. */
  function Ascending(s: seq<nat>): seq<nat> {
    if s == [] then [] else Inserted(Ascending(s[..|s| - 1]), s[|s| - 1])
  }

  lemma LargestLast(s: seq<nat>, x: nat)
    requires Sorted(s) && forall y | y in s :: y <= x
    ensures Sorted(s + [x])
  {
    forall i, j | 0 <= i < j < |s + [x]| ensures (s + [x])[i] <= (s + [x])[j] {
      assert s[i] in s;
    }
  }

  lemma {:induction false} InsertedKeeps(s: seq<nat>, x: nat)
    requires Sorted(s)
    ensures Sorted(Inserted(s, x)) && multiset(Inserted(s, x)) == multiset(s) + multiset{x}
    ensures forall y | y in Inserted(s, x) :: y == x || y in s
  {
    if s == [] {
    } else {
      var head, last := s[..|s| - 1], s[|s| - 1];
      assert s == head + [last];
      InsertedKeeps(head, x);
      forall y | y in head ensures y <= last {}
      if last > x {
        LargestLast(Inserted(head, x), last);
      } else {
        LargestLast(s, x);
      }
    }
  }

  lemma {:induction false} AscendingSorts(s: seq<nat>)
    ensures Sorted(Ascending(s)) && multiset(Ascending(s)) == multiset(s) && |Ascending(s)| == |s|
  {
    if s == [] {
    } else {
      assert s == s[..|s| - 1] + [s[|s| - 1]];
      AscendingSorts(s[..|s| - 1]);
      InsertedKeeps(Ascending(s[..|s| - 1]), s[|s| - 1]);
    }
    assert |multiset(s)| == |s| && |multiset(Ascending(s))| == |Ascending(s)|;
  }

  lemma SameLargest(s: seq<nat>, t: seq<nat>)
    requires Sorted(s) && Sorted(t) && multiset(s) == multiset(t) && |s| == |t| > 0
    ensures s[|s| - 1] == t[|s| - 1]
  {
    var n := |s| - 1;
    assert s[n] in multiset(t) && t[n] in multiset(s);
    var i :| 0 <= i <= n && t[i] == s[n];
    var j :| 0 <= j <= n && s[j] == t[n];
  }

  /** There is only one way to put the same fees in order. */
  lemma {:induction false} SortedUnique(s: seq<nat>, t: seq<nat>)
    requires Sorted(s) && Sorted(t) && multiset(s) == multiset(t)
    ensures s == t
  {
    hide Sorted;
    SameLength(s, t);
    if s == [] {
    } else {
      SameLargest(s, t);
      WithoutLast(s);
      WithoutLast(t);
      SortedUnique(s[..|s| - 1], t[..|t| - 1]);
    }
  }

  lemma SameLength(s: seq<nat>, t: seq<nat>)
    requires multiset(s) == multiset(t)
    ensures |s| == |t|
  {
    assert |s| == |multiset(s)| && |t| == |multiset(t)|;
  }

  lemma WithoutLast(s: seq<nat>)
    requires s != []
    ensures var n := |s| - 1;
            s == s[..n] + [s[n]] && multiset(s[..n]) == multiset(s) - multiset{s[n]} && (Sorted(s) ==> Sorted(s[..n]))
  {
    assert s == s[..|s| - 1] + [s[|s| - 1]];
  }

  /** Where the upper quartile starts. */
  function QuartileIndex(n: nat): nat { n * 3 / 4 }

  /** The fee suggested: zero for no fees, else the one at the quartile index of the
      ascending fees. */
  function Suggested(fees: seq<nat>): nat {
    AscendingSorts(fees);
    if fees == [] then 0 else Ascending(fees)[QuartileIndex(|fees|)]
  }

  /** Stands for the library's sort of a slice; only its contract is used. */
  method SortInPlace(a: array<nat>)
    modifies a
    ensures Sorted(a[..]) && multiset(a[..]) == multiset(old(a[..]))
  {
    hide Ascending, Sorted;
    ghost var was := a[..];
    var sorted := Ascending(a[..]);
    AscendingSorts(was);
    for i := 0 to a.Length
      invariant a[..i] == sorted[..i]
    {
      a[i] := sorted[i];
    }
    assert a[..] == sorted;
  }

  method GetSuggestedPriorityFee(fees: seq<nat>) returns (fee: nat)
    ensures fee == Suggested(fees)
  {
    if |fees| == 0 {
      return 0;
    }
    var priorityFees := new nat[|fees|];
    for i := 0 to |fees|
      invariant priorityFees[..i] == fees[..i]
    {
      priorityFees[i] := fees[i];
    }
    assert priorityFees[..] == fees;
    SortInPlace(priorityFees);
    var index := priorityFees.Length * 3 / 4;
    AscendingSorts(fees);
    SortedUnique(priorityFees[..], Ascending(fees));
    assert priorityFees[index] == priorityFees[..][index];
    fee := priorityFees[index];
  }

  // ----- counting

  lemma LastCounted(s: seq<nat>, x: nat)
    requires s != []
    ensures AtMost(s, x) == AtMost(s[..|s| - 1], x) + if s[|s| - 1] <= x then 1 else 0
    ensures AtLeast(s, x) == AtLeast(s[..|s| - 1], x) + if s[|s| - 1] >= x then 1 else 0
  {
  }

  lemma {:induction false} CountRemoved(s: seq<nat>, i: nat, x: nat)
    requires i < |s|
    ensures AtMost(s, x) == AtMost(s[..i] + s[i + 1..], x) + if s[i] <= x then 1 else 0
    ensures AtLeast(s, x) == AtLeast(s[..i] + s[i + 1..], x) + if s[i] >= x then 1 else 0
  {
    hide AtMost, AtLeast;
    var n := |s| - 1;
    var without := s[..i] + s[i + 1..];
    LastCounted(s, x);
    if i == n {
      assert without == s[..n];
    } else {
      CountRemoved(s[..n], i, x);
      assert without[|without| - 1] == s[n];
      assert without[..|without| - 1] == s[..n][..i] + s[..n][i + 1..];
      LastCounted(without, x);
    }
  }

  /** Counts do not depend on the order. */
  lemma {:induction false} CountsPermute(s: seq<nat>, t: seq<nat>, x: nat)
    requires multiset(s) == multiset(t)
    ensures AtMost(s, x) == AtMost(t, x) && AtLeast(s, x) == AtLeast(t, x)
  {
    SameLength(s, t);
    if s == [] {
    } else {
      var n := |s| - 1;
      WithoutLast(s);
      assert s[n] in multiset(t);
      var i :| 0 <= i < |t| && t[i] == s[n];
      CountRemoved(t, i, x);
      assert t == t[..i] + [t[i]] + t[i + 1..];
      assert multiset(t[..i] + t[i + 1..]) == multiset(t) - multiset{t[i]};
      CountsPermute(s[..n], t[..i] + t[i + 1..], x);
    }
  }

  lemma {:induction false} ManyAtMost(s: seq<nat>, k: nat, x: nat)
    requires k <= |s| && forall i | 0 <= i < k :: s[i] <= x
    ensures AtMost(s, x) >= k
  {
    if k == 0 {
    } else {
      var n := |s| - 1;
      ManyAtMost(s[..n], if k <= n then k else n, x);
    }
  }

  lemma {:induction false} ManyAtLeast(s: seq<nat>, k: nat, x: nat)
    requires k <= |s| && forall i | k <= i < |s| :: s[i] >= x
    ensures AtLeast(s, x) >= |s| - k
  {
    if k == |s| {
    } else {
      ManyAtLeast(s[..|s| - 1], k, x);
    }
  }

  /** The suggestion is one of the fees; more than three quarters of them are at most it,
      and at least a quarter are at least it. */
  lemma SuggestedIsQuartile(fees: seq<nat>)
    requires fees != []
    ensures var n, fee := |fees|, Suggested(fees);
            && fee in fees
            && 4 * AtMost(fees, fee) > 3 * n && 4 * AtLeast(fees, fee) >= n
  {
    hide Ascending, AtMost, AtLeast;
    var s, k, fee := Ascending(fees), QuartileIndex(|fees|), Suggested(fees);
    AscendingSorts(fees);
    assert s[k] in multiset(s) && fee == s[k];
    assert fee in multiset(fees);
    ManyAtMost(s, k + 1, fee);
    ManyAtLeast(s, k, fee);
    CountsPermute(s, fees, fee);
  }

  /** The suggestion does not depend on the order the node lists the fees in. */
  lemma SuggestedPermute(fees: seq<nat>, others: seq<nat>)
    requires multiset(fees) == multiset(others)
    ensures Suggested(fees) == Suggested(others)
  {
    hide Ascending, Sorted;
    AscendingSorts(fees);
    AscendingSorts(others);
    SameLength(fees, others);
    SortedUnique(Ascending(fees), Ascending(others));
  }
}
