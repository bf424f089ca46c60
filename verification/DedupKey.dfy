/** The text key that tells one transfer of a block from another. */
module DedupKey {
  import opened Bytes
  import opened Text
  import opened Addresses

  function TransferDedupKey(mask: CaseMask, txHash: string, contract: string, from: string, to: string,
                            amount: string): string {
    Join(NormalFields(mask, txHash, contract, from, to, amount))
  }

  datatype Fields = Fields(txHash: string, contract: string, from: string, to: string, amount: string)

  function NormalFields(mask: CaseMask, txHash: string, contract: string, from: string, to: string,
                        amount: string): Fields {
    Fields(ToLower(TrimSpace(txHash)), NormalizeAddress(mask, contract), NormalizeAddress(mask, from),
           NormalizeAddress(mask, to), TrimSpace(amount))
  }

  function Join(f: Fields): string {
    f.txHash + "|" + (f.contract + "|" + (f.from + "|" + (f.to + "|" + f.amount)))
  }

  /** No separator in the fields that are followed by one. */
  predicate Separable(f: Fields) {
    '|' !in f.txHash && '|' !in f.contract && '|' !in f.from && '|' !in f.to
  }

  lemma CutAtBar(a: string, r: string, b: string, s: string)
    requires '|' !in a && '|' !in b && a + "|" + r == b + "|" + s
    ensures a == b && r == s
  {
    var t := a + "|" + r;
    assert t[|a|] == '|' && t[|b|] == '|';
    assert |a| == |b|;
    assert a == t[..|a|] && b == t[..|b|] && r == t[|a| + 1..] && s == t[|b| + 1..];
  }

  lemma JoinInjective(f: Fields, g: Fields)
    requires Separable(f) && Separable(g)
    ensures Join(f) == Join(g) <==> f == g
  {
    if Join(f) == Join(g) {
      CutAtBar(f.txHash, f.contract + "|" + (f.from + "|" + (f.to + "|" + f.amount)),
               g.txHash, g.contract + "|" + (g.from + "|" + (g.to + "|" + g.amount)));
      CutAtBar(f.contract, f.from + "|" + (f.to + "|" + f.amount), g.contract, g.from + "|" + (g.to + "|" + g.amount));
      CutAtBar(f.from, f.to + "|" + f.amount, g.from, g.to + "|" + g.amount);
      CutAtBar(f.to, f.amount, g.to, g.amount);
    }
  }

  lemma LowerKeepsBars(s: string)
    ensures '|' in ToLower(s) ==> '|' in s
  {
    if '|' in ToLower(s) {
      var i :| 0 <= i < |s| && ToLower(s)[i] == '|';
      assert s[i] == '|';
    }
  }

  lemma {:induction false} TrimLeftKeepsBars(s: string)
    ensures '|' in TrimLeft(s) ==> '|' in s
    decreases |s|
  {
    if s != [] && IsSpace(s[0]) {
      TrimLeftKeepsBars(s[1..]);
      assert forall c | c in s[1..] :: c in s;
    }
  }

  lemma {:induction false} TrimRightKeepsBars(s: string)
    ensures '|' in TrimRight(s) ==> '|' in s
    decreases |s|
  {
    if s != [] && IsSpace(s[|s| - 1]) {
      TrimRightKeepsBars(s[..|s| - 1]);
      assert forall c | c in s[..|s| - 1] :: c in s;
    }
  }

  lemma NormalKeepsBars(mask: CaseMask, s: string)
    ensures '|' in NormalizeAddress(mask, s) ==> '|' in s
  {
    if s != "" && IsHexAddress(s) {
      var a := HexToAddress(s);
      NormalIsLowerHex(mask, s);
      HexDigits(a);
      forall c | c in HexOf(a) ensures c != '|' {
        var i :| 0 <= i < |HexOf(a)| && HexOf(a)[i] == c;
        assert DigitValue(HexOf(a)[i]) < 16;
      }
    } else {
      LowerKeepsBars(s);
    }
  }

  lemma NormalFieldsSeparable(mask: CaseMask, txHash: string, contract: string, from: string, to: string,
                              amount: string)
    requires '|' !in txHash && '|' !in contract && '|' !in from && '|' !in to
    ensures Separable(NormalFields(mask, txHash, contract, from, to, amount))
  {
    TrimLeftKeepsBars(txHash);
    TrimRightKeepsBars(TrimLeft(txHash));
    LowerKeepsBars(TrimSpace(txHash));
    NormalKeepsBars(mask, contract);
    NormalKeepsBars(mask, from);
    NormalKeepsBars(mask, to);
  }

  /** Bar-free fields share a key exactly when they agree after normalisation; the
      amount, which nothing follows, may hold anything. */
  lemma KeyInjective(mask: CaseMask, h: string, c: string, f: string, t: string, a: string,
                     h': string, c': string, f': string, t': string, a': string)
    requires '|' !in h && '|' !in c && '|' !in f && '|' !in t
    requires '|' !in h' && '|' !in c' && '|' !in f' && '|' !in t'
    ensures TransferDedupKey(mask, h, c, f, t, a) == TransferDedupKey(mask, h', c', f', t', a')
            <==> && ToLower(TrimSpace(h)) == ToLower(TrimSpace(h')) && TrimSpace(a) == TrimSpace(a')
                 && NormalizeAddress(mask, c) == NormalizeAddress(mask, c')
                 && NormalizeAddress(mask, f) == NormalizeAddress(mask, f')
                 && NormalizeAddress(mask, t) == NormalizeAddress(mask, t')
  {
    NormalFieldsSeparable(mask, h, c, f, t, a);
    NormalFieldsSeparable(mask, h', c', f', t', a');
    JoinInjective(NormalFields(mask, h, c, f, t, a), NormalFields(mask, h', c', f', t', a'));
  }

  // ----- counting bars

  function Bars(s: string): nat {
    if s == [] then 0 else Bars(s[..|s| - 1]) + if s[|s| - 1] == '|' then 1 else 0
  }

  lemma {:induction false} BarsConcat(s: string, t: string)
    ensures Bars(s + t) == Bars(s) + Bars(t)
  {
    if t == [] {
      assert s + t == s;
    } else {
      BarsConcat(s, t[..|t| - 1]);
      assert (s + t)[..|s + t| - 1] == s + t[..|t| - 1];
    }
  }

  lemma {:induction false} NoBars(s: string)
    ensures Bars(s) == 0 <==> '|' !in s
  {
    if s == [] {
    } else {
      NoBars(s[..|s| - 1]);
      assert s == s[..|s| - 1] + [s[|s| - 1]];
    }
  }

  lemma BarsBefore(a: string, rest: string)
    ensures Bars(a + "|" + rest) == Bars(a) + 1 + Bars(rest)
  {
    BarsConcat(a, "|");
    BarsConcat(a + "|", rest);
    assert "|"[..0] == "";
  }

  /** A key has four bars more than its fields. */
  lemma JoinBars(f: Fields)
    ensures Bars(Join(f)) == 4 + Bars(f.txHash) + Bars(f.contract) + Bars(f.from) + Bars(f.to) + Bars(f.amount)
  {
    hide Bars;
    BarsBefore(f.txHash, f.contract + "|" + (f.from + "|" + (f.to + "|" + f.amount)));
    BarsBefore(f.contract, f.from + "|" + (f.to + "|" + f.amount));
    BarsBefore(f.from, f.to + "|" + f.amount);
    BarsBefore(f.to, f.amount);
  }

  predicate BarFree(f: Fields) {
    Separable(f) && '|' !in f.amount
  }

  /** Bar-free fields share their key with no other fields at all: bars in the other
      fields would make its key longer in bars. */
  lemma BarFreeUnconfused(f: Fields, g: Fields)
    requires BarFree(g)
    ensures Join(f) == Join(g) <==> f == g
  {
    hide Join, Bars;
    if Join(f) == Join(g) {
      JoinBars(f);
      JoinBars(g);
      NoBars(f.txHash); NoBars(f.contract); NoBars(f.from); NoBars(f.to);
      NoBars(g.txHash); NoBars(g.contract); NoBars(g.from); NoBars(g.to); NoBars(g.amount);
      JoinInjective(f, g);
    }
  }

  /** Other fields with the same key. */
  ghost predicate Confused(f: Fields, g: Fields) {
    f != g && Join(f) == Join(g)
  }

  /** A key has other fields exactly when some field holds a bar: the boundary can be
      moved to that bar. */
  lemma ConfusedIff(g: Fields)
    ensures (exists f :: Confused(f, g)) <==> !BarFree(g)
  {
    hide Join;
    if f :| Confused(f, g) {
      if BarFree(g) { BarFreeUnconfused(f, g); }
    }
    if !BarFree(g) {
      var f := MoveBoundary(g);
      assert Confused(f, g);
    }
  }

  lemma MoveBoundary(g: Fields) returns (f: Fields)
    requires !BarFree(g)
    ensures f != g && Join(f) == Join(g)
  {
    hide Bars, ToLower, TrimSpace;
    if '|' in g.txHash {
      var a, b := CutBar(g.txHash);
      f := g.(txHash := a, contract := b + "|" + g.contract);
      BarMoves(a, b, g.contract, "|" + (g.from + "|" + (g.to + "|" + g.amount)));
    } else if '|' in g.contract {
      var a, b := CutBar(g.contract);
      f := g.(contract := a, from := b + "|" + g.from);
      BarMoves(a, b, g.from, "|" + (g.to + "|" + g.amount));
    } else if '|' in g.from {
      var a, b := CutBar(g.from);
      f := g.(from := a, to := b + "|" + g.to);
      BarMoves(a, b, g.to, "|" + g.amount);
    } else if '|' in g.to {
      var a, b := CutBar(g.to);
      f := g.(to := a, amount := b + "|" + g.amount);
      BarMoves(a, b, g.amount, "");
    } else {
      var a, b := CutBar(g.amount);
      f := g.(to := g.to + "|" + a, amount := b);
      BarMoves(g.to, a, b, "");
    }
  }

  lemma CutBar(s: string) returns (a: string, b: string)
    requires '|' in s
    ensures s == a + "|" + b
  {
    var i :| 0 <= i < |s| && s[i] == '|';
    a, b := s[..i], s[i + 1..];
  }

  lemma BarMoves(a: string, b: string, next: string, rest: string)
    ensures (a + "|" + b) + "|" + (next + rest) == a + "|" + ((b + "|" + next) + rest)
    ensures a + "|" + (b + "|" + next) == (a + "|" + b) + "|" + next
  {
  }

  /** The key of a logged transfer is the key of nothing else, whatever the fields. */
  lemma LogKeyUnconfused(mask: CaseMask, h: string, c: string, f: string, t: string, a: string, txHash: Word,
                         token: Address, from: Address, to: Address, amount: nat)
    ensures TransferDedupKey(mask, h, c, f, t, a) == LogKey(mask, txHash, token, from, to, amount)
            <==> && ToLower(TrimSpace(h)) == "0x" + HexOf(txHash) && NormalizeAddress(mask, c) == "0x" + HexOf(token)
                 && NormalizeAddress(mask, f) == "0x" + HexOf(from) && NormalizeAddress(mask, t) == "0x" + HexOf(to)
                 && TrimSpace(a) == IntString(amount)
  {
    LogKeyFields(mask, txHash, token, from, to, amount);
    BarFreeUnconfused(NormalFields(mask, h, c, f, t, a), LogFields(txHash, token, from, to, amount));
  }

  /** On transfers read from receipts the key is injective outright: it decides hash,
      token, both parties and the amount. */
  lemma LogKeyInjective(mask: CaseMask, h: Word, token: Address, from: Address, to: Address, amount: nat,
                        h': Word, token': Address, from': Address, to': Address, amount': nat)
    ensures LogKey(mask, h, token, from, to, amount) == LogKey(mask, h', token', from', to', amount')
            <==> h == h' && token == token' && from == from' && to == to' && amount == amount'
  {
    var f, g := LogFields(h, token, from, to, amount), LogFields(h', token', from', to', amount');
    LogKeyFields(mask, h, token, from, to, amount);
    LogKeyFields(mask, h', token', from', to', amount');
    JoinInjective(f, g);
    if f == g {
      assert HexOf(h) == f.txHash[2..] && HexOf(h') == g.txHash[2..];
      assert HexOf(token) == f.contract[2..] && HexOf(token') == g.contract[2..];
      assert HexOf(from) == f.from[2..] && HexOf(from') == g.from[2..];
      assert HexOf(to) == f.to[2..] && HexOf(to') == g.to[2..];
      HexInjective(h, h');
      HexInjective(token, token');
      HexInjective(from, from');
      HexInjective(to, to');
      IntStringRead(amount);
      IntStringRead(amount');
    }
  }

  function LogKey(mask: CaseMask, h: Word, token: Address, from: Address, to: Address, amount: nat): string {
    TransferDedupKey(mask, "0x" + HexOf(h), AddressHex(mask, token), AddressHex(mask, from), AddressHex(mask, to),
                     IntString(amount))
  }

  function LogFields(h: Word, token: Address, from: Address, to: Address, amount: nat): Fields {
    Fields("0x" + HexOf(h), "0x" + HexOf(token), "0x" + HexOf(from), "0x" + HexOf(to), IntString(amount))
  }

  lemma HexTextPlain(b: Bytes)
    ensures var s := "0x" + HexOf(b); '|' !in s && ToLower(s) == s && TrimSpace(s) == s
  {
    HexDigits(b);
    var t := HexOf(b);
    var s := "0x" + t;
    forall i | 0 <= i < |s| ensures s[i] != '|' && ToLowerChar(s[i]) == s[i] && !IsSpace(s[i]) {
      if i >= 2 { assert s[i] == t[i - 2]; }
    }
    assert ToLower(s) == s;
  }

  lemma PlainHasNoBar(s: string)
    requires Plain(s)
    ensures '|' !in s
  {
  }

  lemma LogKeyFields(mask: CaseMask, h: Word, token: Address, from: Address, to: Address, amount: nat)
    ensures LogKey(mask, h, token, from, to, amount) == Join(LogFields(h, token, from, to, amount))
    ensures Separable(LogFields(h, token, from, to, amount)) && '|' !in LogFields(h, token, from, to, amount).amount
  {
    HexTextPlain(h);
    HexTextPlain(token);
    HexTextPlain(from);
    HexTextPlain(to);
    AddressReadBack(mask, token);
    AddressReadBack(mask, from);
    AddressReadBack(mask, to);
    DigitsPlain(amount, 10);
    PlainText(IntString(amount));
    PlainHasNoBar(IntString(amount));
  }
}
