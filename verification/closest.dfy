/**
 The "closest supported value" scan that the encoder runs once per audio
 format axis (src/encoder.c:308-396). Each axis walks a codec's supported
 list once, keeping a best-so-far value under a round-up policy: an exact
 match wins; otherwise the smallest key at or above the target's key;
 otherwise the largest key. Keys are bytes per sample, the rate itself, or
 the channel count, so the scan is written once over an arbitrary key.
 */
module Closest {

  /** abs_diff (src/encoder.c:291-294), over unbounded integers. */
  function AbsDiff(a: int, b: int): (r: int)
    ensures r >= 0
    ensures r == 0 <==> a == b
    ensures r == a - b || r == b - a
  {
    var n := a - b;
    if n >= 0 then n else -n
  }

  lemma AbsDiffSymmetric(a: int, b: int)
    ensures AbsDiff(a, b) == AbsDiff(b, a)
  {
  }

  /** The test that makes the scan adopt a candidate: either the best so far
      is still below the target and the candidate is larger, or the candidate
      reaches the target and is strictly nearer to it. */
  predicate Replaces(bestKey: int, key: int, targetKey: int)
  {
    || (bestKey < targetKey && key > bestKey)
    || (key >= targetKey && AbsDiff(targetKey, key) < AbsDiff(targetKey, bestKey))
  }

  /** One iteration of the loop body after the exact-match test. */
  function Step<T>(key: T -> int, targetKey: int, best: T, x: T): T
  {
    if Replaces(key(best), key(x), targetKey) then x else best
  }

  /** How the loop ends: by returning the target from inside the loop, or by
      running off the end of the list with a best value. */
  datatype Outcome<T> = ExactMatch | RoundedTo(best: T)

  /** The loop from entry `i` on, with `best` chosen so far; index `|s|` is
      the terminator. */
  function Scan<T(==)>(key: T -> int, target: T, s: seq<T>, i: nat, best: T): Outcome<T>
    requires i <= |s|
    decreases |s| - i
  {
    if i == |s| then RoundedTo(best)
    else if s[i] == target then ExactMatch
    else Scan(key, target, s, i + 1, Step(key, key(target), best, s[i]))
  }

  /** Some entry among the first `n` has a key at or above the target's. */
  ghost predicate SomeAtOrAbove<T>(key: T -> int, targetKey: int, s: seq<T>, n: nat)
    requires n <= |s|
  {
    exists j :: 0 <= j < n && key(s[j]) >= targetKey
  }

  /** Reference definition of the round-up policy over the first `n` entries:
      `i` is the earliest entry with the least key at or above the target's
      key when there is one, and otherwise the earliest entry with the
      greatest key. */
  ghost predicate ChoiceWithin<T>(key: T -> int, targetKey: int, s: seq<T>, n: nat, i: int)
    requires n <= |s|
  {
    && 0 <= i < n
    && if SomeAtOrAbove(key, targetKey, s, n) then
         (&& key(s[i]) >= targetKey
          && (forall j :: 0 <= j < n && key(s[j]) >= targetKey ==> key(s[i]) <= key(s[j]))
          && (forall j :: 0 <= j < i && key(s[j]) >= targetKey ==> key(s[j]) != key(s[i])))
       else
         (&& (forall j :: 0 <= j < n ==> key(s[j]) <= key(s[i]))
          && (forall j :: 0 <= j < i ==> key(s[j]) != key(s[i])))
  }

  /** The round-up choice over the whole list. */
  ghost predicate IsRoundUpChoice<T>(key: T -> int, targetKey: int, s: seq<T>, i: int)
  {
    ChoiceWithin(key, targetKey, s, |s|, i)
  }

  /** The policy singles out one entry. */
  lemma RoundUpChoiceUnique<T>(key: T -> int, targetKey: int, s: seq<T>, i: int, j: int)
    requires IsRoundUpChoice(key, targetKey, s, i)
    requires IsRoundUpChoice(key, targetKey, s, j)
    ensures i == j
  {
    assert key(s[i]) == key(s[j]);
    if i < j {
      assert false;
    } else if j < i {
      assert false;
    }
  }

  /** The loop invariant: one more iteration extends the choice over the
      first `n` entries to a choice over the first `n + 1`. */
  lemma StepKeepsChoice<T>(key: T -> int, targetKey: int, s: seq<T>, n: nat, idx: int)
    requires 0 < n < |s|
    requires ChoiceWithin(key, targetKey, s, n, idx)
    ensures ChoiceWithin(key, targetKey, s, n + 1,
                         if Replaces(key(s[idx]), key(s[n]), targetKey) then n else idx)
  {
    var kb, k := key(s[idx]), key(s[n]);
    if SomeAtOrAbove(key, targetKey, s, n) {
      assert SomeAtOrAbove(key, targetKey, s, n + 1) by {
        var j :| 0 <= j < n && key(s[j]) >= targetKey;
      }
      assert Replaces(kb, k, targetKey) <==> k >= targetKey && k < kb;
    } else {
      assert kb < targetKey;
      assert Replaces(kb, k, targetKey) <==> k > kb;
      if k >= targetKey {
        assert SomeAtOrAbove(key, targetKey, s, n + 1);
      } else {
        assert !SomeAtOrAbove(key, targetKey, s, n + 1);
      }
    }
  }

  /** The scan from entry `n` on, started from a choice over the first `n`
      entries, returns the target when it occurs later and otherwise the
      choice over the whole list. */
  lemma {:induction false} ScanMeetsPolicy<T>(key: T -> int, target: T, s: seq<T>, n: nat, idx: int)
    requires 0 < n <= |s|
    requires ChoiceWithin(key, key(target), s, n, idx)
    ensures target in s[n..] ==> Scan(key, target, s, n, s[idx]) == ExactMatch
    ensures target !in s[n..] ==>
      exists k :: IsRoundUpChoice(key, key(target), s, k) && Scan(key, target, s, n, s[idx]) == RoundedTo(s[k])
    decreases |s| - n
  {
    if n == |s| {
      assert IsRoundUpChoice(key, key(target), s, idx);
    } else {
      assert s[n..] == [s[n]] + s[n + 1..];
      if s[n] != target {
        var idx' := if Replaces(key(s[idx]), key(s[n]), key(target)) then n else idx;
        StepKeepsChoice(key, key(target), s, n, idx);
        assert Step(key, key(target), s[idx], s[n]) == s[idx'];
        ScanMeetsPolicy(key, target, s, n + 1, idx');
      }
    }
  }

  /** The whole scan, started as the C code starts it: the best so far is the
      first entry, or the terminator `none` when the list is empty. */
  function ScanList<T(==)>(key: T -> int, target: T, s: seq<T>, none: T): (r: Outcome<T>)
    ensures r == ExactMatch <==> target in s
    ensures |s| == 0 ==> r == RoundedTo(none)
    ensures r.RoundedTo? && |s| > 0 ==>
      exists k :: IsRoundUpChoice(key, key(target), s, k) && r.best == s[k]
  {
    var first := if |s| == 0 then none else s[0];
    if |s| == 0 then Scan(key, target, s, 0, first)
    else
      assert ChoiceWithin(key, key(target), s, 1, 0);
      assert !Replaces(key(s[0]), key(s[0]), key(target));
      assert s[0..] == [s[0]] + s[1..];
      ScanMeetsPolicy(key, target, s, 1, 0);
      Scan(key, target, s, 0, first)
  }
}
