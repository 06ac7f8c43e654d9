/**
 * The numbered tags "Level N" and "Node N". A new tag is made from the highest
 * number found in the existing tags by the unanchored patterns
 * /Level (\d+)/ and /Node (\d+)/: the leftmost place where the prefix is
 * followed by at least one ASCII digit, with every digit after it.
 */
module TagPattern {
  import opened EditorTypes

  predicate IsDigit(c: char) { '0' <= c <= '9' }

  function DigitValue(c: char): nat
    requires IsDigit(c)
  {
    (c as int - '0' as int) as nat
  }

  /** The prefix followed by a digit starts at position i of s. */
  predicate MatchesAt(s: string, prefix: string, i: nat) {
    i + |prefix| < |s| && s[i..i + |prefix|] == prefix && IsDigit(s[i + |prefix|])
  }

  /** The leftmost position at or after `from` where the pattern matches. */
  function LeftmostMatch(s: string, prefix: string, from: nat): (m: Option<nat>)
    ensures m.Some? ==> from <= m.value && MatchesAt(s, prefix, m.value)
    ensures m.Some? ==> forall i | from <= i < m.value :: !MatchesAt(s, prefix, i)
    ensures m.None? ==> forall i | from <= i :: !MatchesAt(s, prefix, i)
    decreases |s| - from
  {
    if from + |prefix| >= |s| then None
    else if MatchesAt(s, prefix, from) then Some(from)
    else LeftmostMatch(s, prefix, from + 1)
  }

  /** The greedy run of digits at the start of s. */
  function DigitRun(s: string): (r: string)
    ensures |r| <= |s| && r == s[..|r|]
    ensures forall i | 0 <= i < |r| :: IsDigit(r[i])
    ensures |r| < |s| ==> !IsDigit(s[|r|])
  {
    if |s| == 0 || !IsDigit(s[0]) then [] else [s[0]] + DigitRun(s[1..])
  }

  /** parseInt of a digit string: its value in base 10. */
  function DigitsValue(ds: string): nat
    requires forall i | 0 <= i < |ds| :: IsDigit(ds[i])
  {
    if |ds| == 0 then 0 else 10 * DigitsValue(ds[..|ds| - 1]) + DigitValue(ds[|ds| - 1])
  }

  /** The number the pattern captures in s, if it matches. */
  function MatchNumber(s: string, prefix: string): Option<nat> {
    match LeftmostMatch(s, prefix, 0)
    case None => None
    case Some(i) => Some(DigitsValue(DigitRun(s[i + |prefix|..])))
  }

  /** The reduce over the existing tags, from 0: the larger of the running
      value and each tag's number. */
  function HighestNumber(tags: seq<string>, prefix: string): nat {
    if |tags| == 0 then 0
    else Step(HighestNumber(tags[..|tags| - 1], prefix), MatchNumber(tags[|tags| - 1], prefix))
  }

  /** One step of the reduce: a matched number replaces a smaller one. */
  function Step(highest: nat, m: Option<nat>): nat {
    match m
    case None => highest
    case Some(n) => if n > highest then n else highest
  }

  /** One more tag at the end is one more step. */
  lemma HighestNumberSnoc(tags: seq<string>, t: string, prefix: string)
    ensures HighestNumber(tags + [t], prefix) == Step(HighestNumber(tags, prefix), MatchNumber(t, prefix))
  {
    assert (tags + [t])[..|tags|] == tags;
  }

  /** The highest number bounds every tag's number, and is 0 or one of them. */
  lemma {:induction false} HighestIsMaximum(tags: seq<string>, prefix: string)
    ensures forall i | 0 <= i < |tags| && MatchNumber(tags[i], prefix).Some? ::
      MatchNumber(tags[i], prefix).value <= HighestNumber(tags, prefix)
    ensures HighestNumber(tags, prefix) == 0
      || exists i | 0 <= i < |tags| :: MatchNumber(tags[i], prefix) == Some(HighestNumber(tags, prefix))
  {
    if |tags| > 0 {
      var init := tags[..|tags| - 1];
      HighestIsMaximum(init, prefix);
      assert forall i | 0 <= i < |init| :: init[i] == tags[i];
      var h := HighestNumber(init, prefix);
      if h != 0 && HighestNumber(tags, prefix) == h {
        var i :| 0 <= i < |init| && MatchNumber(init[i], prefix) == Some(h);
        assert MatchNumber(tags[i], prefix) == Some(h);
      }
    }
  }

  /** A tag the pattern does not match, wherever it stands, does not change
      the highest number. */
  lemma {:induction false} UnmatchedTagIgnored(before: seq<string>, t: string, after: seq<string>, prefix: string)
    requires MatchNumber(t, prefix).None?
    ensures HighestNumber(before + [t] + after, prefix) == HighestNumber(before + after, prefix)
  {
    if |after| == 0 {
      assert before + [t] + after == before + [t];
      assert before + after == before;
      HighestNumberSnoc(before, t, prefix);
    } else {
      var init := after[..|after| - 1];
      var last := after[|after| - 1];
      UnmatchedTagIgnored(before, t, init, prefix);
      assert before + [t] + after == (before + [t] + init) + [last];
      assert before + after == (before + init) + [last];
      HighestNumberSnoc(before + [t] + init, last, prefix);
      HighestNumberSnoc(before + init, last, prefix);
    }
  }

  // ---------------------------------------------------------------------------
  // Number to text, as the template literal writes it.

  function DigitChar(d: nat): (c: char)
    requires d < 10
    ensures IsDigit(c) && DigitValue(c) == d
  {
    ('0' as int + d) as char
  }

  /** The decimal text of n, without leading zeros. */
  function NatToString(n: nat): (s: string)
    ensures |s| > 0
    ensures forall i | 0 <= i < |s| :: IsDigit(s[i])
    decreases n
  {
    if n < 10 then [DigitChar(n)] else NatToString(n / 10) + [DigitChar(n % 10)]
  }

  /** Reading back the text of n gives n. */
  lemma {:induction false} NatToStringValue(n: nat)
    ensures DigitsValue(NatToString(n)) == n
    decreases n
  {
    if n >= 10 {
      var s := NatToString(n);
      assert s[..|s| - 1] == NatToString(n / 10);
      NatToStringValue(n / 10);
    }
  }

  lemma DigitRunAll(s: string)
    requires forall i | 0 <= i < |s| :: IsDigit(s[i])
    ensures DigitRun(s) == s
  {
  }

  /** A tag made as prefix + number captures exactly that number. */
  lemma {:induction false} MadeTagNumber(prefix: string, n: nat)
    ensures MatchNumber(prefix + NatToString(n), prefix) == Some(n)
  {
    var s := prefix + NatToString(n);
    assert s[0..|prefix|] == prefix;
    assert MatchesAt(s, prefix, 0);
    assert s[|prefix|..] == NatToString(n);
    DigitRunAll(NatToString(n));
    NatToStringValue(n);
  }

  /** The tag made from the highest number plus one is none of the existing
      tags: every existing tag captures at most the highest number. */
  lemma NewTagIsFresh(tags: seq<string>, prefix: string)
    ensures prefix + NatToString(HighestNumber(tags, prefix) + 1) !in tags
  {
    var h := HighestNumber(tags, prefix);
    HighestIsMaximum(tags, prefix);
    var t := prefix + NatToString(h + 1);
    MadeTagNumber(prefix, h + 1);
    forall i | 0 <= i < |tags|
      ensures tags[i] != t
    {
      assert MatchNumber(tags[i], prefix) != Some(h + 1);
    }
  }
}
