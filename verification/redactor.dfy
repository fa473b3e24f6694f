/** The registry of secrets that must not appear in logs, and how far replacing them can be trusted. */
module Redactor {
  import opened Frames
  import opened Strings

  const MASK: string := "********"
  const SHORTEST: nat := 4

  /** str.replace(secret, MASK): occurrences are taken from the left and do not overlap. */
  function Replace(text: string, secret: string): string
    requires secret != ""
  {
    if |text| < |secret| then text
    else if secret <= text then MASK + Replace(text[|secret|..], secret)
    else [text[0]] + Replace(text[1..], secret)
  }

  ghost predicate NoEmpty(secrets: seq<string>) {
    forall i | 0 <= i < |secrets| :: secrets[i] != ""
  }

  /** Replace one secret after the other. */
  function RedactAll(text: string, secrets: seq<string>): string
    requires NoEmpty(secrets)
  {
    if secrets == [] then text
    else Replace(RedactAll(text, secrets[..|secrets| - 1]), secrets[|secrets| - 1])
  }

  // --- what the mask can build -------------------------------------------------------------------

  /** No inserted mask can become a part of this secret: it neither starts nor ends with '*' and contains
      no eight of them in a row. */
  ghost predicate MaskSafe(secret: string) {
    secret != "" && secret[0] != '*' && secret[|secret| - 1] != '*' && !Contains(secret, MASK)
  }

  /** An occurrence shifts with the text in front of it. */
  lemma OccursLater(front: string, rest: string, part: string, i: nat)
    requires i >= |front|
    ensures OccursAt(front + rest, part, i) <==> OccursAt(rest, part, i - |front|)
  {
    if i + |part| <= |front + rest| {
      assert (front + rest)[i..i + |part|] == rest[i - |front|..i - |front| + |part|];
    }
  }

  lemma ContainsLater(front: string, rest: string, part: string)
    requires Contains(rest, part)
    ensures Contains(front + rest, part)
  {
    var i: nat :| OccursAt(rest, part, i);
    OccursLater(front, rest, part, |front| + i);
  }

  lemma OccursFirst(text: string, part: string)
    ensures OccursAt(text, part, 0) <==> part <= text
  {
  }

  lemma OccurrenceStarts(text: string, part: string, i: nat)
    requires OccursAt(text, part, i)
    ensures forall k | 0 <= k < |part| :: text[i + k] == part[k]
  {
    var found := text[i..i + |part|];
    forall k | 0 <= k < |part| ensures text[i + k] == part[k] {
      assert found[k] == part[k];
    }
  }

  /** The end of a mask-safe secret is not found at a place where text was replaced. */
  lemma {:induction false} PrefixWasThere(text: string, secret: string, end: string)
    requires secret != "" && end != "" && end[|end| - 1] != '*' && !Contains(end, MASK)
    requires end <= Replace(text, secret)
    ensures end <= text
    decreases |text|
  {
    if |text| >= |secret| {
      var redacted := Replace(text, secret);
      if secret <= text {
        assert end[|end| - 1] == redacted[|end| - 1];
        assert |end| > 8;
        OccursFirst(end, MASK);
      } else {
        assert redacted == [text[0]] + Replace(text[1..], secret);
        if |end| > 1 {
          assert end == [end[0]] + end[1..];
          if Contains(end[1..], MASK) { ContainsLater([end[0]], end[1..], MASK); }
          PrefixWasThere(text[1..], secret, end[1..]);
          assert text == [text[0]] + text[1..];
        }
      }
    }
  }

  /** An occurrence cannot begin inside a mask that is followed by `rest`. */
  lemma AfterMask(rest: string, secret: string, i: nat)
    requires MaskSafe(secret) && OccursAt(MASK + rest, secret, i)
    ensures Contains(rest, secret)
  {
    OccurrenceStarts(MASK + rest, secret, i);
    assert i >= 8;
    OccursLater(MASK, rest, secret, i);
  }

  lemma StartWasThere(text: string, other: string, secret: string)
    requires other != "" && MaskSafe(secret) && secret <= Replace(text, other)
    ensures secret <= text
  {
    PrefixWasThere(text, other, secret);
  }

  /** Replacing another secret does not make a mask-safe one appear. */
  lemma {:induction false} ReplaceMakesNothingAppear(text: string, other: string, secret: string)
    requires other != "" && MaskSafe(secret) && Contains(Replace(text, other), secret)
    ensures Contains(text, secret)
    decreases |text|
  {
    hide OccursAt, MaskSafe;
    if |text| >= |other| {
      var i: nat :| OccursAt(Replace(text, other), secret, i);
      if other <= text {
        AfterMask(Replace(text[|other|..], other), secret, i);
        ReplaceMakesNothingAppear(text[|other|..], other, secret);
        ContainsLater(other, text[|other|..], secret);
        assert text == other + text[|other|..];
      } else if i == 0 {
        OccursFirst(Replace(text, other), secret);
        StartWasThere(text, other, secret);
        OccursFirst(text, secret);
      } else {
        OccursLater([text[0]], Replace(text[1..], other), secret, i);
        ReplaceMakesNothingAppear(text[1..], other, secret);
        ContainsLater([text[0]], text[1..], secret);
        assert text == [text[0]] + text[1..];
      }
    }
  }

  /** Replacing a mask-safe secret removes it. */
  lemma {:induction false} ReplaceRemoves(text: string, secret: string)
    requires MaskSafe(secret)
    ensures !Contains(Replace(text, secret), secret)
    decreases |text|
  {
    if i: nat :| OccursAt(Replace(text, secret), secret, i) {
      if |text| >= |secret| {
        if secret <= text {
          AfterMask(Replace(text[|secret|..], secret), secret, i);
          ReplaceRemoves(text[|secret|..], secret);
        } else if i == 0 {
          OccursFirst(Replace(text, secret), secret);
          PrefixWasThere(text, secret, secret);
        } else {
          OccursLater([text[0]], Replace(text[1..], secret), secret, i);
          ReplaceRemoves(text[1..], secret);
        }
      }
    }
  }

  /** Completeness: a mask-safe secret never survives, whatever else is registered and in whatever order
      the secrets are replaced. */
  lemma {:induction false} MaskSafeNeverLeaks(text: string, secrets: seq<string>, secret: string)
    requires NoEmpty(secrets) && secret in secrets && MaskSafe(secret)
    ensures !Contains(RedactAll(text, secrets), secret)
  {
    var last := |secrets| - 1;
    var before := RedactAll(text, secrets[..last]);
    if secrets[last] == secret {
      ReplaceRemoves(before, secret);
    } else {
      assert secret in secrets[..last];
      MaskSafeNeverLeaks(text, secrets[..last], secret);
      if Contains(Replace(before, secrets[last]), secret) {
        ReplaceMakesNothingAppear(before, secrets[last], secret);
      }
    }
  }

  lemma {:induction false} NothingToReplace(text: string, secret: string)
    requires secret != "" && !Contains(text, secret)
    ensures Replace(text, secret) == text
    decreases |text|
  {
    if |text| >= |secret| {
      OccursFirst(text, secret);
      assert text == [text[0]] + text[1..];
      if Contains(text[1..], secret) {
        ContainsLater([text[0]], text[1..], secret);
      }
      NothingToReplace(text[1..], secret);
    }
  }

  lemma {:induction false} NothingToRedact(text: string, secrets: seq<string>)
    requires NoEmpty(secrets)
    requires forall secret | secret in secrets :: !Contains(text, secret)
    ensures RedactAll(text, secrets) == text
  {
    if secrets != [] {
      NothingToRedact(text, secrets[..|secrets| - 1]);
      NothingToReplace(text, secrets[|secrets| - 1]);
    }
  }

  /** Redacting again changes nothing, even if the secrets are then replaced in another order. */
  lemma RedactIsIdempotent(text: string, secrets: seq<string>, again: seq<string>)
    requires NoEmpty(secrets) && NoEmpty(again)
    requires forall secret | secret in again :: secret in secrets && MaskSafe(secret)
    ensures RedactAll(RedactAll(text, secrets), again) == RedactAll(text, secrets)
  {
    forall secret | secret in again ensures !Contains(RedactAll(text, secrets), secret) {
      MaskSafeNeverLeaks(text, secrets, secret);
    }
    NothingToRedact(RedactAll(text, secrets), again);
  }

  // --- where redaction leaks ---------------------------------------------------------------------

  lemma ReplaceSkips(c: char, rest: string, secret: string)
    requires secret != "" && !(secret <= [c] + rest)
    ensures Replace([c] + rest, secret) == [c] + Replace(rest, secret)
  {
    assert ([c] + rest)[1..] == rest;
  }

  lemma FirstApart(front: string, rest: string)
    requires front != ""
    ensures front + rest == [front[0]] + (front[1..] + rest)
  {
  }

  lemma ReplaceAtStart(secret: string, back: string)
    requires secret != ""
    ensures Replace(secret + back, secret) == MASK + Replace(back, secret)
  {
    assert (secret + back)[|secret|..] == back;
  }

  /** The first occurrence is the one that gets masked. */
  lemma {:induction false} ReplaceFirst(front: string, secret: string, back: string)
    requires secret != "" && forall k: nat | k < |front| :: !OccursAt(front + (secret + back), secret, k)
    ensures Replace(front + (secret + back), secret) == front + (MASK + Replace(back, secret))
  {
    hide OccursAt, Replace;
    ReplaceAtStart(secret, back);
    if front == "" {
      assert front + (secret + back) == secret + back;
      assert front + (MASK + Replace(back, secret)) == MASK + Replace(back, secret);
    } else {
      var rest := front[1..] + (secret + back);
      FirstApart(front, secret + back);
      FirstApart(front, MASK + Replace(back, secret));
      forall k: nat | k < |front[1..]| ensures !OccursAt(rest, secret, k) {
        OccursLater([front[0]], rest, secret, k + 1);
      }
      ReplaceFirst(front[1..], secret, back);
      OccursFirst([front[0]] + rest, secret);
      ReplaceSkips(front[0], rest, secret);
    }
  }

  lemma ShortTextHasNone(text: string, secret: string)
    requires secret != "" && |text| < |secret|
    ensures Replace(text, secret) == text
  {
  }

  lemma ContainsBetween(front: string, part: string, back: string)
    ensures Contains(front + part + back, part)
  {
    assert (front + part + back)[|front|..|front| + |part|] == part;
    assert OccursAt(front + part + back, part, |front|);
  }

  lemma ContainsItself(text: string)
    ensures Contains(text, text)
  {
    assert text[0..|text|] == text;
    assert OccursAt(text, text, 0);
  }

  lemma Regroup(a: string, c: char, b: string)
    ensures (a + [c]) + b == a + ([c] + b) + ""
  {
  }

  /** A secret starting with '*': the mask's last star completes a copy that follows it. */
  lemma LeadingStarLeaks(secret: string)
    requires secret != "" && secret[0] == '*'
    ensures Contains(Replace(secret + secret[1..], secret), secret)
  {
    var back := secret[1..];
    ReplaceAtStart(secret, back);
    ShortTextHasNone(back, secret);
    hide Replace, Contains;
    assert secret == ['*'] + back && MASK == "*******" + ['*'];
    Regroup("*******", '*', back);
    ContainsBetween("*******", secret, "");
  }

  lemma NoOccurrenceBeforeTrailingStar(front: string, k: nat)
    requires k < |front| && front[0] != '*'
    ensures !OccursAt(front + (front + "*"), front + "*", k)
  {
    var secret := front + "*";
    var found := (front + secret)[k..k + |secret|];
    assert found[0] == front[k] && found[|front|] == secret[k] == front[k];
  }

  /** A secret ending with '*': the mask's first star completes a copy in front of it. */
  lemma TrailingStarLeaks(front: string)
    requires front != "" && front[0] != '*'
    ensures Contains(Replace(front + (front + "*"), front + "*"), front + "*")
  {
    var secret := front + "*";
    assert secret + "" == secret;
    forall k: nat | k < |front| ensures !OccursAt(front + (secret + ""), secret, k) {
      NoOccurrenceBeforeTrailingStar(front, k);
    }
    ReplaceFirst(front, secret, "");
    ShortTextHasNone("", secret);
    hide Replace, Contains, OccursAt;
    assert front + (MASK + "") == "" + secret + MASK[1..];
    ContainsBetween("", secret, MASK[1..]);
  }

  lemma EarlierOccurrenceNeedsEarlierMask(front: string, back: string, k: nat)
    requires k < |front| && OccursAt(front + ((front + (MASK + back)) + back), front + (MASK + back), k)
    ensures OccursAt(front + (MASK + back), MASK, k)
  {
    var secret := front + (MASK + back);
    var text := front + (secret + back);
    OccurrenceStarts(text, secret, k);
    hide OccursAt;
    forall i | k <= i < k + 8 ensures secret[i] == '*' {
      assert text[|front| + i] == secret[i];
      assert text[k + (|front| + i - k)] == secret[|front| + i - k] == MASK[i - k];
    }
    assert secret[k..k + 8] == MASK;
    OccursHere(secret, MASK, k);
  }

  lemma OccursHere(text: string, part: string, k: nat)
    requires k + |part| <= |text| && text[k..k + |part|] == part
    ensures OccursAt(text, part, k)
  {
  }

  /** A secret with eight stars inside: the mask itself completes it. */
  lemma InnerMaskLeaks(front: string, back: string)
    requires forall k: nat | k < |front| :: !OccursAt(front + (MASK + back), MASK, k)
    ensures var secret := front + (MASK + back); Contains(Replace(front + (secret + back), secret), secret)
  {
    var secret := front + (MASK + back);
    forall k: nat | k < |front| ensures !OccursAt(front + (secret + back), secret, k) {
      if OccursAt(front + (secret + back), secret, k) {
        EarlierOccurrenceNeedsEarlierMask(front, back, k);
      }
    }
    hide Replace, Contains, OccursAt;
    ReplaceFirst(front, secret, back);
    ShortTextHasNone(back, secret);
    ContainsItself(secret);
  }

  lemma FirstMask(secret: string) returns (front: string, back: string)
    requires Contains(secret, MASK)
    ensures secret == front + (MASK + back)
    ensures forall k: nat | k < |front| :: !OccursAt(secret, MASK, k)
  {
    ghost var some: nat :| OccursAt(secret, MASK, some);
    var j: nat := 0;
    while !OccursAt(secret, MASK, j)
      invariant j <= some && forall k: nat | k < j :: !OccursAt(secret, MASK, k)
      decreases some - j
    {
      j := j + 1;
    }
    front, back := secret[..j], secret[j + 8..];
  }

  ghost predicate NeverLeaks(secret: string) {
    forall text, secrets | NoEmpty(secrets) && secret in secrets :: !Contains(RedactAll(text, secrets), secret)
  }

  lemma LeaksAlone(text: string, secret: string)
    requires secret != "" && Contains(Replace(text, secret), secret)
    ensures !NeverLeaks(secret)
  {
    var secrets := [secret];
    assert RedactAll(text, []) == text && secrets[..0] == [];
    assert RedactAll(text, secrets) == Replace(text, secret);
    assert NoEmpty(secrets) && secret in secrets;
  }

  /** Exactly the mask-safe secrets are kept out of every text, whatever else is registered. */
  lemma NeverLeaksIffMaskSafe(secret: string)
    requires secret != ""
    ensures NeverLeaks(secret) <==> MaskSafe(secret)
  {
    if MaskSafe(secret) {
      forall text, secrets | NoEmpty(secrets) && secret in secrets ensures !Contains(RedactAll(text, secrets), secret) {
        MaskSafeNeverLeaks(text, secrets, secret);
      }
    } else if secret[0] == '*' {
      LeadingStarLeaks(secret);
      LeaksAlone(secret + secret[1..], secret);
    } else if secret[|secret| - 1] == '*' {
      var front := secret[..|secret| - 1];
      assert secret == front + "*";
      TrailingStarLeaks(front);
      LeaksAlone(front + secret, secret);
    } else {
      var front, back := FirstMask(secret);
      InnerMaskLeaks(front, back);
      LeaksAlone(front + (secret + back), secret);
    }
  }

  // --- longest first -----------------------------------------------------------------------------

  ghost predicate LongestFirst(secrets: seq<string>) {
    forall i, j | 0 <= i < j < |secrets| :: |secrets[i]| >= |secrets[j]|
  }

  lemma LongerDoesNotOccur(text: string, secret: string)
    requires |secret| >= |text| && secret != text
    ensures !Contains(text, secret)
  {
    if |secret| == |text| {
      assert text[0..|secret|] == text;
    }
  }

  lemma MaskHoldsNoSecret(secret: string)
    requires MaskSafe(secret)
    ensures !Contains(MASK, secret)
  {
    if i: nat :| OccursAt(MASK, secret, i) {
      OccurrenceStarts(MASK, secret, i);
    }
  }

  /** Because longer secrets go first, a secret that contains other registered ones is masked as a whole. */
  lemma {:induction false} WholeSecretIsMasked(secret: string, secrets: seq<string>)
    requires NoEmpty(secrets) && LongestFirst(secrets) && secret in secrets
    requires forall s | s in secrets :: MaskSafe(s)
    ensures RedactAll(secret, secrets) == MASK
  {
    var last := |secrets| - 1;
    var shorter := secrets[last];
    assert secrets == secrets[..last] + [shorter];
    if secret in secrets[..last] {
      WholeSecretIsMasked(secret, secrets[..last]);
      MaskHoldsNoSecret(shorter);
      NothingToReplace(MASK, shorter);
    } else {
      forall s | s in secrets[..last] ensures !Contains(secret, s) {
        LongerDoesNotOccur(secret, s);
      }
      NothingToRedact(secret, secrets[..last]);
      assert secret + "" == secret;
      ReplaceAtStart(secret, "");
    }
  }

  lemma ShortIsMaskSafe(secret: string)
    requires 0 < |secret| < 8 && secret[0] != '*' && secret[|secret| - 1] != '*'
    ensures MaskSafe(secret)
  {
  }

  /** Shorter secrets first would show the rest of a longer one. */
  lemma ShorterFirstShowsTheRest()
    ensures RedactAll("abcdef", ["abcd", "abcdef"]) == MASK + "ef"
    ensures RedactAll("abcdef", ["abcdef", "abcd"]) == MASK
  {
    ShortIsMaskSafe("abcd");
    ShortIsMaskSafe("abcdef");
    WholeSecretIsMasked("abcdef", ["abcdef", "abcd"]);
    assert "abcd" + "ef" == "abcdef";
    ReplaceAtStart("abcd", "ef");
    ShortTextHasNone("ef", "abcd");
    if i: nat :| OccursAt(MASK + "ef", "abcdef", i) {
      AfterMask("ef", "abcdef", i);
    }
    NothingToReplace(MASK + "ef", "abcdef");
    var secrets := ["abcd", "abcdef"];
    assert secrets[..1] == ["abcd"] && secrets[..1][..0] == [];
    assert RedactAll("abcdef", secrets[..1]) == Replace("abcdef", "abcd");
  }

  // --- the registry ------------------------------------------------------------------------------

  class SecretRedactor {
    var secrets: set<string>

    ghost predicate Valid()
      reads this
    {
      forall s | s in secrets :: |s| >= SHORTEST
    }

    constructor ()
      ensures Valid() && secrets == {}
    {
      secrets := {};
    }

    /** Remember the values that are long enough to be secrets. */
    method Register(values: seq<Option<string>>)
      requires Valid()
      modifies this
      ensures Valid()
      ensures forall s :: s in secrets <==> s in old(secrets) || (Some(s) in values && |s| >= 4)
    {
      for i := 0 to |values|
        invariant forall s :: s in secrets <==> s in old(secrets) || (Some(s) in values[..i] && |s| >= SHORTEST)
      {
        assert values[..i + 1] == values[..i] + [values[i]];
        if values[i].Some? && |values[i].value| >= SHORTEST {
          secrets := secrets + {values[i].value};
        }
      }
      assert values[..|values|] == values;
    }

    /** sorted(secrets, key=len, reverse=True); secrets of equal length come in any order. */
    method Sorted() returns (order: seq<string>)
      ensures LongestFirst(order) && forall s :: s in order <==> s in secrets
    {
      order := [];
      var left := secrets;
      while left != {}
        invariant left <= secrets && LongestFirst(order)
        invariant forall s :: s in order <==> s in secrets - left
        invariant forall i, s | 0 <= i < |order| && s in left :: |order[i]| >= |s|
        decreases |left|
      {
        var longest := Longest(left);
        order, left := order + [longest], left - {longest};
      }
    }

    /** Replace every registered secret, the longest first. */
    method Redact(text: string) returns (redacted: string, ghost order: seq<string>)
      requires Valid()
      ensures LongestFirst(order) && NoEmpty(order) && (forall s :: s in order <==> s in secrets)
      ensures redacted == RedactAll(text, order)
      ensures forall s | s in secrets && MaskSafe(s) :: !Contains(redacted, s)
      ensures (forall s | s in secrets :: !Contains(text, s)) ==> redacted == text
    {
      var sorted := Sorted();
      redacted, order := text, sorted;
      assert forall i | 0 <= i < |sorted| :: sorted[i] in secrets;
      for i := 0 to |sorted|
        invariant redacted == RedactAll(text, sorted[..i])
      {
        assert sorted[..i + 1][..i] == sorted[..i];
        redacted := Replace(redacted, sorted[i]);
      }
      assert sorted[..|sorted|] == sorted;
      forall s | s in secrets && MaskSafe(s) ensures !Contains(redacted, s) {
        MaskSafeNeverLeaks(text, sorted, s);
      }
      if forall s | s in secrets :: !Contains(text, s) {
        NothingToRedact(text, sorted);
      }
    }
  }

  method Longest(strings: set<string>) returns (longest: string)
    requires strings != {}
    ensures longest in strings && forall s | s in strings :: |s| <= |longest|
  {
    longest :| longest in strings;
    var left := strings - {longest};
    while left != {}
      invariant longest in strings && left <= strings
      invariant forall s | s in strings - left :: |s| <= |longest|
      decreases |left|
    {
      var next :| next in left;
      if |next| > |longest| { longest := next; }
      left := left - {next};
    }
  }
}
