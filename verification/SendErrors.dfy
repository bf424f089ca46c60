/** Which errors of a send are worth another attempt. */
module SendErrors {
  import opened Text

  predicate Contains(s: string, part: string) {
    part <= s || (s != [] && Contains(s[1..], part))
  }

  predicate IsRetryableSendError(message: string) {
    var m := ToLower(message);
    || Contains(m, "replacement transaction underpriced")
    || Contains(m, "nonce too low")
    || Contains(m, "already known")
  }

  predicate StandsAt(s: string, part: string, i: nat) {
    i + |part| <= |s| && s[i..i + |part|] == part
  }

  lemma {:induction false} ContainsAt(s: string, part: string, i: nat)
    requires StandsAt(s, part, i)
    ensures Contains(s, part)
    decreases i
  {
    if i == 0 {
      assert part <= s;
    } else {
      assert s[1..][i - 1..i - 1 + |part|] == s[i..i + |part|];
      ContainsAt(s[1..], part, i - 1);
    }
  }

  lemma {:induction false} FoundAt(s: string, part: string) returns (i: nat)
    requires Contains(s, part)
    ensures StandsAt(s, part, i)
  {
    if part <= s {
      i := 0;
    } else {
      i := FoundAt(s[1..], part);
      assert s[1..][i..i + |part|] == s[i + 1..i + 1 + |part|];
      i := i + 1;
    }
  }

  /** Some part of the message reads as the text, in whatever capitalisation. */
  predicate Reads(message: string, text: string) {
    exists i: nat :: i + |text| <= |message| && ReadsAt(message, text, i)
  }

  predicate ReadsAt(message: string, text: string, i: nat)
    requires i + |text| <= |message|
  {
    ToLower(message[i..i + |text|]) == text
  }

  lemma LowerContainsIff(message: string, text: string)
    ensures Contains(ToLower(message), text) <==> Reads(message, text)
  {
    var m := ToLower(message);
    if Contains(m, text) {
      var i := FoundAt(m, text);
      assert ToLower(message[i..i + |text|]) == m[i..i + |text|];
      assert ReadsAt(message, text, i);
    }
    if i: nat :| i + |text| <= |message| && ReadsAt(message, text, i) {
      assert ToLower(message[i..i + |text|]) == m[i..i + |text|];
      ContainsAt(m, text, i);
    }
  }

  /** An error is worth another attempt exactly when one of three texts stands in it. */
  lemma RetryableIff(message: string)
    ensures IsRetryableSendError(message) <==>
            || Reads(message, "replacement transaction underpriced")
            || Reads(message, "nonce too low")
            || Reads(message, "already known")
  {
    hide Contains, Reads, ToLower;
    LowerContainsIff(message, "replacement transaction underpriced");
    LowerContainsIff(message, "nonce too low");
    LowerContainsIff(message, "already known");
  }

  /** A nonce that is too low gets another attempt, whatever stands around the words. */
  lemma NonceTooLowRetried(before: string, words: string, behind: string)
    requires ToLower(words) == "nonce too low"
    ensures IsRetryableSendError(before + words + behind)
  {
    hide IsRetryableSendError, ToLower;
    var m := before + words + behind;
    LowerLength(words);
    assert m[|before|..|before| + |words|] == words;
    assert ReadsAt(m, "nonce too low", |before|);
    RetryableIff(m);
  }

  lemma LowerLength(s: string)
    ensures |ToLower(s)| == |s|
  {
  }

  /** An error without an m and a w gets none. */
  lemma NeverRetried(message: string)
    requires 'm' !in ToLower(message) && 'w' !in ToLower(message)
    ensures !IsRetryableSendError(message)
  {
    hide Contains, ToLower;
    var m := ToLower(message);
    NeedsChar(m, "replacement transaction underpriced", 7);
    NeedsChar(m, "nonce too low", 12);
    NeedsChar(m, "already known", 11);
  }

  /** Such as insufficient funds, in whatever capitalisation. */
  lemma InsufficientFundsNotRetried(message: string)
    requires ToLower(message) == "insufficient funds"
    ensures !IsRetryableSendError(message)
  {
    hide ToLower, IsRetryableSendError;
    NeverRetried(message);
  }

  lemma NeedsChar(s: string, part: string, at: nat)
    requires at < |part| && part[at] !in s
    ensures !Contains(s, part)
  {
    if Contains(s, part) {
      var i := FoundAt(s, part);
      CharOf(s, part, i, at);
    }
  }

  lemma CharOf(s: string, part: string, i: nat, at: nat)
    requires StandsAt(s, part, i) && at < |part|
    ensures part[at] in s
  {
    assert s[i..i + |part|][at] == s[i + at];
  }
}
