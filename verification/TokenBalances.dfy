/** Reading one SPL transfer out of a transaction's token balances. The adaptor visits the
    balance keys in the arbitrary order a Go map yields them. */
module TokenBalances {
  import opened Wrappers
  import opened Text

  datatype Entry = Entry(owner: string, mint: string, amount: string)

  datatype Key = Key(owner: string, mint: string)

  datatype Parsed = Parsed(from: string, to: string, amount: string, mint: string)

  /** Items that decode and name an owner and a mint. */
  function Decoded(raw: seq<Option<Entry>>): (es: seq<Entry>)
    ensures forall i | 0 <= i < |es| :: es[i].owner != "" && es[i].mint != ""
  {
    if raw == [] then []
    else
      var last := raw[|raw| - 1];
      Decoded(raw[..|raw| - 1])
      + if last.Some? && last.value.owner != "" && last.value.mint != "" then [last.value] else []
  }

  method DecodeTokenBalances(raw: seq<Option<Entry>>) returns (out: seq<Entry>)
    ensures out == Decoded(raw)
  {
    out := [];
    for i := 0 to |raw|
      invariant out == Decoded(raw[..i])
    {
      assert raw[..i + 1][..i] == raw[..i];
      if raw[i].None? {
        continue;
      }
      if raw[i].value.owner != "" && raw[i].value.mint != "" {
        out := out + [raw[i].value];
      }
    }
    assert raw[..|raw|] == raw;
  }

  /** Unreadable amounts count as zero. */
  function ParseBigInt(s: string): int {
    var v := ParseInt(TrimSpace(s), 10);
    if v.None? then 0 else v.value
  }

  /** One balance per owner and mint; a later entry replaces an earlier one. */
  function Balances(es: seq<Entry>): map<Key, int> {
    if es == [] then map[]
    else
      var e := es[|es| - 1];
      Balances(es[..|es| - 1])[Key(e.owner, e.mint) := ParseBigInt(e.amount)]
  }

  function Diff(pre: map<Key, int>, post: map<Key, int>, k: Key): int {
    (if k in post then post[k] else 0) - (if k in pre then pre[k] else 0)
  }

  // ----- the fold

  datatype Acc = Acc(from: string, to: string, mint: string, amount: string)

  function Visit(acc: Acc, k: Key, diff: int): Acc {
    if diff > 0 then acc.(to := k.owner, mint := k.mint, amount := IntString(diff))
    else if diff < 0 then
      acc.(from := k.owner, mint := if acc.mint == "" then k.mint else acc.mint,
           amount := if acc.amount == "" then IntString(-diff) else acc.amount)
    else acc
  }

  function Fold(order: seq<Key>, pre: map<Key, int>, post: map<Key, int>): Acc {
    if order == [] then Acc("", "", "", "")
    else
      var k := order[|order| - 1];
      Visit(Fold(order[..|order| - 1], pre, post), k, Diff(pre, post, k))
  }

  function Finish(acc: Acc): Option<Parsed> {
    if acc.from == "" || acc.to == "" || acc.amount == "" || acc.amount == "0" then None
    else Some(Parsed(acc.from, acc.to, acc.amount, acc.mint))
  }

  function Outcome(order: seq<Key>, pre: map<Key, int>, post: map<Key, int>): Option<Parsed> {
    Finish(Fold(order, pre, post))
  }

  /** An iteration order: every key once. */
  ghost predicate IsOrder(order: seq<Key>, keys: set<Key>) {
    && (forall i, j | 0 <= i < j < |order| :: order[i] != order[j])
    && (forall k :: k in order <==> k in keys)
  }

  /** Visits the keys in whatever order the map yields them. */
  method ParseSplFromTokenBalances(rawPre: seq<Option<Entry>>, rawPost: seq<Option<Entry>>)
    returns (r: Option<Parsed>, ghost order: seq<Key>)
    ensures var pre, post := Balances(Decoded(rawPre)), Balances(Decoded(rawPost));
            && IsOrder(order, pre.Keys + post.Keys) && r == Outcome(order, pre, post)
            && SomeTransfer(r, pre, post)
    ensures TellsTransfer(r, rawPre, rawPost)
  {
    hide TellsTransfer, Visit, IntString, Decoded, Outcome, SomeTransfer, Diff, Finish, Balances, Fold, IsOrder;
    var preEntries := DecodeTokenBalances(rawPre);
    var postEntries := DecodeTokenBalances(rawPost);
    order := [];
    if |preEntries| == 0 && |postEntries| == 0 {
      NoBalances();
      TransferTold(None, rawPre, rawPost);
      return None, [];
    }
    var pre := BalanceMap(preEntries);
    var post := BalanceMap(postEntries);
    NothingVisited(pre, post);
    var rest := pre.Keys + post.Keys;
    var acc := Acc("", "", "", "");
    while rest != {}
      invariant rest <= pre.Keys + post.Keys
      invariant IsOrder(order, pre.Keys + post.Keys - rest)
      invariant acc == Fold(order, pre, post)
      decreases rest
    {
      var k :| k in rest;
      VisitOne(order, k, pre, post, rest);
      rest := rest - {k};
      acc := Visit(acc, k, Diff(pre, post, k));
      order := order + [k];
    }
    assert pre.Keys + post.Keys - rest == pre.Keys + post.Keys;
    r := Finish(acc);
    OutcomeFinishes(order, pre, post);
    DecodedNamed(rawPre, rawPost);
    EveryOrder(order, pre, post);
    TransferTold(r, rawPre, rawPost);
  }

  lemma OutcomeFinishes(order: seq<Key>, pre: map<Key, int>, post: map<Key, int>)
    ensures Outcome(order, pre, post) == Finish(Fold(order, pre, post))
  {
  }

  lemma NothingVisited(pre: map<Key, int>, post: map<Key, int>)
    ensures IsOrder([], pre.Keys + post.Keys - (pre.Keys + post.Keys)) && Fold([], pre, post) == Acc("", "", "", "")
  {
  }

  lemma VisitOne(order: seq<Key>, k: Key, pre: map<Key, int>, post: map<Key, int>, rest: set<Key>)
    requires k in rest && rest <= pre.Keys + post.Keys && IsOrder(order, pre.Keys + post.Keys - rest)
    ensures IsOrder(order + [k], pre.Keys + post.Keys - (rest - {k}))
    ensures Fold(order + [k], pre, post) == Visit(Fold(order, pre, post), k, Diff(pre, post, k))
  {
    hide Visit, Diff;
    assert (order + [k])[..|order|] == order;
  }

  lemma NoBalances()
    ensures var none := Balances([]);
            IsOrder([], none.Keys + none.Keys) && Outcome([], none, none) == None && SomeTransfer(None, none, none)
  {
  }

  lemma DecodedNamed(rawPre: seq<Option<Entry>>, rawPost: seq<Option<Entry>>)
    ensures NamedKeys(Balances(Decoded(rawPre)), Balances(Decoded(rawPost)))
  {
    hide Decoded;
    BalancesNamed(Decoded(rawPre));
    BalancesNamed(Decoded(rawPost));
  }

  method BalanceMap(es: seq<Entry>) returns (m: map<Key, int>)
    ensures m == Balances(es)
  {
    m := map[];
    for i := 0 to |es|
      invariant m == Balances(es[..i])
    {
      assert es[..i + 1][..i] == es[..i];
      m := m[Key(es[i].owner, es[i].mint) := ParseBigInt(es[i].amount)];
    }
    assert es[..|es|] == es;
  }

  // ----- what every order gives

  predicate Named(k: Key) {
    k.owner != "" && k.mint != ""
  }

  function LastGain(order: seq<Key>, pre: map<Key, int>, post: map<Key, int>): Option<Key> {
    if order == [] then None
    else if Diff(pre, post, order[|order| - 1]) > 0 then Some(order[|order| - 1])
    else LastGain(order[..|order| - 1], pre, post)
  }

  function LastLoss(order: seq<Key>, pre: map<Key, int>, post: map<Key, int>): Option<Key> {
    if order == [] then None
    else if Diff(pre, post, order[|order| - 1]) < 0 then Some(order[|order| - 1])
    else LastLoss(order[..|order| - 1], pre, post)
  }

  lemma {:induction false} FoldIs(order: seq<Key>, pre: map<Key, int>, post: map<Key, int>)
    requires forall k | k in order :: Named(k)
    ensures var acc := Fold(order, pre, post);
            var g, l := LastGain(order, pre, post), LastLoss(order, pre, post);
            && acc.to == (if g.None? then "" else g.value.owner)
            && acc.from == (if l.None? then "" else l.value.owner)
            && (g.Some? ==> acc.mint == g.value.mint && acc.amount == IntString(Diff(pre, post, g.value))
                            && acc.amount != "" && acc.mint != "")
  {
    hide IntString;
    if order == [] {
    } else {
      var init, k := order[..|order| - 1], order[|order| - 1];
      assert k in order && forall j | j in init :: j in order;
      FoldIs(init, pre, post);
      Printed(Diff(pre, post, k));
    }
  }

  lemma Printed(n: int)
    ensures IntString(n) != "" && (IntString(n) == "0" <==> n == 0)
  {
    IntStringRead(n);
    IntStringRead(0);
    assert IntString(0) == "0";
  }

  lemma {:induction false} LastFound(order: seq<Key>, pre: map<Key, int>, post: map<Key, int>)
    ensures var g := LastGain(order, pre, post);
            if g.Some? then g.value in order && Diff(pre, post, g.value) > 0
            else forall k | k in order :: Diff(pre, post, k) <= 0
    ensures var l := LastLoss(order, pre, post);
            if l.Some? then l.value in order && Diff(pre, post, l.value) < 0
            else forall k | k in order :: Diff(pre, post, k) >= 0
  {
    if order == [] {
    } else {
      var init := order[..|order| - 1];
      LastFound(init, pre, post);
      assert forall k | k in order :: k == order[|order| - 1] || k in init;
    }
  }

  function Transfer(pre: map<Key, int>, post: map<Key, int>, gain: Key, loss: Key): Parsed {
    Parsed(loss.owner, gain.owner, IntString(Diff(pre, post, gain)), gain.mint)
  }

  ghost predicate Gains(pre: map<Key, int>, post: map<Key, int>, k: Key) {
    k in pre.Keys + post.Keys && Diff(pre, post, k) > 0
  }

  ghost predicate Loses(pre: map<Key, int>, post: map<Key, int>, k: Key) {
    k in pre.Keys + post.Keys && Diff(pre, post, k) < 0
  }

  lemma OutcomeIs(order: seq<Key>, pre: map<Key, int>, post: map<Key, int>)
    requires forall k | k in order :: Named(k)
    ensures var g, l := LastGain(order, pre, post), LastLoss(order, pre, post);
            Outcome(order, pre, post) ==
            if g.Some? && l.Some? then Some(Transfer(pre, post, g.value, l.value)) else None
  {
    hide IntString;
    FoldIs(order, pre, post);
    LastFound(order, pre, post);
    var g, l := LastGain(order, pre, post), LastLoss(order, pre, post);
    if g.Some? { Printed(Diff(pre, post, g.value)); }
    if l.Some? { assert Named(l.value); }
    if g.Some? { assert Named(g.value); }
  }

  ghost predicate NamedKeys(pre: map<Key, int>, post: map<Key, int>) {
    forall k | k in pre.Keys + post.Keys :: Named(k)
  }

  lemma {:induction false} BalancesNamed(es: seq<Entry>)
    requires forall i | 0 <= i < |es| :: es[i].owner != "" && es[i].mint != ""
    ensures forall k | k in Balances(es) :: Named(k)
  {
    if es == [] {
    } else {
      BalancesNamed(es[..|es| - 1]);
    }
  }

  /** A transfer is reported exactly when some key gains and some key loses, and it is
      that of some gaining and some losing key. */
  ghost predicate SomeTransfer(r: Option<Parsed>, pre: map<Key, int>, post: map<Key, int>) {
    && (r.Some? <==> (exists g :: Gains(pre, post, g)) && (exists l :: Loses(pre, post, l)))
    && (r.Some? ==> exists g, l :: Gains(pre, post, g) && Loses(pre, post, l) && r == Some(Transfer(pre, post, g, l)))
  }

  /** Whatever the order: a transfer is reported exactly when some key gains and some
      key loses, and it is that of some gaining and some losing key, with the
      gained amount and the mint gained. */
  lemma EveryOrder(order: seq<Key>, pre: map<Key, int>, post: map<Key, int>)
    requires NamedKeys(pre, post) && IsOrder(order, pre.Keys + post.Keys)
    ensures SomeTransfer(Outcome(order, pre, post), pre, post)
  {
    OutcomeIs(order, pre, post);
    LastFound(order, pre, post);
    var g, l := LastGain(order, pre, post), LastLoss(order, pre, post);
    if g.Some? && l.Some? {
      assert Gains(pre, post, g.value) && Loses(pre, post, l.value);
    }
  }

  lemma {:induction false} SomeOrder(keys: set<Key>) returns (order: seq<Key>)
    ensures IsOrder(order, keys)
    decreases keys
  {
    if keys == {} {
      order := [];
    } else {
      var k :| k in keys;
      order := SomeOrder(keys - {k});
      order := order + [k];
    }
  }

  /** Every pairing of a gaining with a losing key is what some order reports. */
  lemma EveryPairHappens(pre: map<Key, int>, post: map<Key, int>, g: Key, l: Key) returns (order: seq<Key>)
    requires NamedKeys(pre, post) && Gains(pre, post, g) && Loses(pre, post, l)
    ensures IsOrder(order, pre.Keys + post.Keys) && Outcome(order, pre, post) == Some(Transfer(pre, post, g, l))
  {
    var keys := pre.Keys + post.Keys;
    var rest := SomeOrder(keys - {g, l});
    order := rest + [g, l];
    assert order[..|order| - 1] == rest + [g] && (rest + [g])[..|rest|] == rest;
    assert forall k :: k in order <==> k in rest || k == g || k == l;
    OutcomeIs(order, pre, post);
  }

  ghost predicate OrderIndependent(pre: map<Key, int>, post: map<Key, int>) {
    forall o, p :: IsOrder(o, pre.Keys + post.Keys) && IsOrder(p, pre.Keys + post.Keys) ==>
                     Outcome(o, pre, post) == Outcome(p, pre, post)
  }

  /** At most one gaining key and at most one losing owner. */
  ghost predicate OneGainerOneLoser(pre: map<Key, int>, post: map<Key, int>) {
    && (forall g, g' :: Gains(pre, post, g) && Gains(pre, post, g') ==> g == g')
    && (forall l, l' :: Loses(pre, post, l) && Loses(pre, post, l') ==> l.owner == l'.owner)
  }

  /** The result does not depend on the iteration order exactly when nothing is
      reported at all or there is one gaining key and one losing owner. */
  lemma IndependentIff(pre: map<Key, int>, post: map<Key, int>)
    requires NamedKeys(pre, post)
    ensures OrderIndependent(pre, post) <==>
            (forall g :: !Gains(pre, post, g)) || (forall l :: !Loses(pre, post, l)) || OneGainerOneLoser(pre, post)
  {
    hide Outcome, IsOrder, Transfer, Diff;
    if OrderIndependent(pre, post) && (exists g :: Gains(pre, post, g)) && (exists l :: Loses(pre, post, l)) {
      var g0 :| Gains(pre, post, g0);
      var l0 :| Loses(pre, post, l0);
      var o := EveryPairHappens(pre, post, g0, l0);
      forall g | Gains(pre, post, g) ensures g == g0 {
        var p := EveryPairHappens(pre, post, g, l0);
        TransferTells(pre, post, g, l0, g0, l0);
      }
      forall l | Loses(pre, post, l) ensures l.owner == l0.owner {
        var p := EveryPairHappens(pre, post, g0, l);
        TransferTells(pre, post, g0, l, g0, l0);
      }
    } else if !OrderIndependent(pre, post) {
      var o, p :| IsOrder(o, pre.Keys + post.Keys) && IsOrder(p, pre.Keys + post.Keys)
                  && Outcome(o, pre, post) != Outcome(p, pre, post);
      EveryOrder(o, pre, post);
      EveryOrder(p, pre, post);
      if OneGainerOneLoser(pre, post) && Outcome(o, pre, post).Some? {
        var x, y := Outcome(o, pre, post), Outcome(p, pre, post);
        var g, l :| Gains(pre, post, g) && Loses(pre, post, l) && x == Some(Transfer(pre, post, g, l));
        var g', l' :| Gains(pre, post, g') && Loses(pre, post, l') && y == Some(Transfer(pre, post, g', l'));
        TransferTells(pre, post, g, l, g', l');
      }
    }
  }

  lemma TransferTells(pre: map<Key, int>, post: map<Key, int>, g: Key, l: Key, g': Key, l': Key)
    ensures Transfer(pre, post, g, l) == Transfer(pre, post, g', l') <==> g == g' && l.owner == l'.owner
  {
  }

  // ----- in terms of the entries

  /** The balance the entries give an owner of a mint: the decimal number of the last
      decodable entry for the two, 0 if there is none or it is not a number. */
  function LastBalance(raw: seq<Option<Entry>>, k: Key): int {
    if raw == [] then 0
    else
      var last := raw[|raw| - 1];
      if last.Some? && last.value.owner == k.owner && last.value.mint == k.mint then
        var v := ParseInt(TrimSpace(last.value.amount), 10);
        if v.Some? then v.value else 0
      else LastBalance(raw[..|raw| - 1], k)
  }

  /** The result, by the balances before and after: a transfer exactly when some owner has
      more of a mint after than before and some owner less; then it names a gaining owner
      and mint, the gain as a decimal number, and a losing owner. */
  ghost predicate TellsTransfer(r: Option<Parsed>, rawPre: seq<Option<Entry>>, rawPost: seq<Option<Entry>>) {
    && (r.Some? <==> (exists g :: HasMore(rawPre, rawPost, g)) && (exists l :: HasMore(rawPost, rawPre, l)))
    && (r.Some? ==>
          exists g, l :: HasMore(rawPre, rawPost, g) && HasMore(rawPost, rawPre, l)
                         && r.value.to == g.owner && r.value.mint == g.mint && r.value.from == l.owner
                         && ParseInt(r.value.amount, 10) == Some(LastBalance(rawPost, g) - LastBalance(rawPre, g)))
  }

  /** The second entries give a named key more than the first do. */
  predicate HasMore(first: seq<Option<Entry>>, second: seq<Option<Entry>>, k: Key) {
    Named(k) && LastBalance(second, k) > LastBalance(first, k)
  }

  lemma {:induction false} BalanceIsLast(raw: seq<Option<Entry>>, k: Key)
    requires Named(k)
    ensures var m := Balances(Decoded(raw)); LastBalance(raw, k) == if k in m then m[k] else 0
  {
    hide ParseInt, TrimSpace;
    if raw == [] {
    } else {
      var init, last := raw[..|raw| - 1], raw[|raw| - 1];
      BalanceIsLast(init, k);
      if last.Some? && last.value.owner != "" && last.value.mint != "" {
        assert (Decoded(init) + [last.value])[..|Decoded(init)|] == Decoded(init);
      } else {
        assert Decoded(raw) == Decoded(init);
      }
    }
  }

  lemma GainIsMore(rawPre: seq<Option<Entry>>, rawPost: seq<Option<Entry>>, k: Key)
    ensures var pre, post := Balances(Decoded(rawPre)), Balances(Decoded(rawPost));
            && (Gains(pre, post, k) <==> HasMore(rawPre, rawPost, k))
            && (Loses(pre, post, k) <==> HasMore(rawPost, rawPre, k))
            && (Named(k) ==> Diff(pre, post, k) == LastBalance(rawPost, k) - LastBalance(rawPre, k))
  {
    hide Balances, Decoded, LastBalance;
    DecodedNamed(rawPre, rawPost);
    if Named(k) {
      BalanceIsLast(rawPre, k);
      BalanceIsLast(rawPost, k);
    }
  }

  lemma TransferTold(r: Option<Parsed>, rawPre: seq<Option<Entry>>, rawPost: seq<Option<Entry>>)
    requires SomeTransfer(r, Balances(Decoded(rawPre)), Balances(Decoded(rawPost)))
    ensures TellsTransfer(r, rawPre, rawPost)
  {
    hide Balances, Decoded, LastBalance, HasMore, Gains, Loses, Diff, IntString, ParseInt;
    var pre, post := Balances(Decoded(rawPre)), Balances(Decoded(rawPost));
    forall k ensures Gains(pre, post, k) <==> HasMore(rawPre, rawPost, k) { GainIsMore(rawPre, rawPost, k); }
    forall k ensures Loses(pre, post, k) <==> HasMore(rawPost, rawPre, k) { GainIsMore(rawPre, rawPost, k); }
    if r.Some? {
      var g, l :| Gains(pre, post, g) && Loses(pre, post, l) && r == Some(Transfer(pre, post, g, l));
      GainIsMore(rawPre, rawPost, g);
      HasMoreNamed(rawPre, rawPost, g);
      IntStringRead(Diff(pre, post, g));
    }
  }

  lemma HasMoreNamed(first: seq<Option<Entry>>, second: seq<Option<Entry>>, k: Key)
    ensures HasMore(first, second, k) ==> Named(k)
  {
  }

  /** Amounts print as they read, white space around them or not. */
  lemma AmountRead(n: int, before: string, behind: string)
    requires AllSpace(before) && AllSpace(behind)
    ensures ParseBigInt(before + IntString(n) + behind) == n
  {
    hide ParseInt, IntString;
    IntStringRead(n);
    IntStringEnds(n);
    Trimmed(before, IntString(n), behind);
  }

  lemma IntStringEnds(n: int)
    ensures var s := IntString(n); s != [] && !IsSpace(s[0]) && !IsSpace(s[|s| - 1])
  {
    var m: nat := if n < 0 then -n else n;
    DigitsPlain(m, 10);
    var d := DigitsOf(m, 10);
    assert DigitValue(d[0]) < 10 && DigitValue(d[|d| - 1]) < 10;
  }
}
