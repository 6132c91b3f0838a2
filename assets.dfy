/**
 * Deck randomisation: the Fisher–Yates shuffle on a copy and sampling without
 * replacement. The random source is an oracle that yields some integer in a
 * closed range; which one, and with what probability, is not modelled.
 */
module Assets {

  /** `randomNumber(min, max)`: some integer between `min` and `max` inclusive. */
  method RandomNumber(min: int, max: int) returns (r: int)
    requires min <= max
    ensures min <= r <= max
  {
    r :| min <= r <= max;
  }

  /** No element occurs twice. */
  predicate Distinct<T(==)>(s: seq<T>) {
    forall i, j :: 0 <= i < j < |s| ==> s[i] != s[j]
  }

  /** `s` with the elements at `i` and `j` exchanged. */
  function Swap<T>(s: seq<T>, i: nat, j: nat): (r: seq<T>)
    requires i < |s| && j < |s|
    ensures |r| == |s| && r[i] == s[j] && r[j] == s[i]
    ensures forall k :: 0 <= k < |s| && k != i && k != j ==> r[k] == s[k]
  {
    s[i := s[j]][j := s[i]]
  }

  /** The swaps of `steps`, applied from first to last. */
  function ApplySwaps<T>(s: seq<T>, steps: seq<(nat, nat)>): (r: seq<T>)
    requires forall k :: 0 <= k < |steps| ==> steps[k].0 < |s| && steps[k].1 < |s|
    ensures |r| == |s|
    decreases |steps|
  {
    if steps == [] then s
    else ApplySwaps(Swap(s, steps[0].0, steps[0].1), steps[1..])
  }

  /**
   * The swaps a Fisher–Yates pass over `n` elements makes: one per index `i`
   * from `n - 1` down to 1, in that order, each with a partner in `[0, i]`.
   */
  ghost predicate FisherYatesSteps(n: nat, steps: seq<(nat, nat)>) {
    && |steps| == (if n == 0 then 0 else n - 1)
    && forall k :: 0 <= k < |steps| ==> steps[k].0 == n - 1 - k && steps[k].1 <= steps[k].0
  }

  lemma SwapPermutes<T>(s: seq<T>, i: nat, j: nat)
    requires i < |s| && j < |s|
    ensures multiset(Swap(s, i, j)) == multiset(s)
  {
    var t := s[i := s[j]];
    assert multiset(t) == multiset(s) - multiset{s[i]} + multiset{s[j]};
  }

  /** Any sequence of swaps permutes its input. */
  lemma {:induction false} ApplySwapsPermutes<T>(s: seq<T>, steps: seq<(nat, nat)>)
    requires forall k :: 0 <= k < |steps| ==> steps[k].0 < |s| && steps[k].1 < |s|
    ensures multiset(ApplySwaps(s, steps)) == multiset(s)
    decreases |steps|
  {
    if steps != [] {
      SwapPermutes(s, steps[0].0, steps[0].1);
      ApplySwapsPermutes(Swap(s, steps[0].0, steps[0].1), steps[1..]);
    }
  }

  /** Applying one more swap after a sequence of swaps. */
  lemma {:induction false} ApplySwapsSnoc<T>(s: seq<T>, steps: seq<(nat, nat)>, last: (nat, nat))
    requires forall k :: 0 <= k < |steps| ==> steps[k].0 < |s| && steps[k].1 < |s|
    requires last.0 < |s| && last.1 < |s|
    ensures ApplySwaps(s, steps + [last]) == Swap(ApplySwaps(s, steps), last.0, last.1)
    decreases |steps|
  {
    if steps == [] {
      assert [] + [last] == [last];
    } else {
      assert (steps + [last])[1..] == steps[1..] + [last];
      ApplySwapsSnoc(Swap(s, steps[0].0, steps[0].1), steps[1..], last);
    }
  }

  /**
   * `shuffle`: Fisher–Yates on a copy of `arr`. The result is what the swaps of
   * `steps` make of `arr`, and `steps` are the swaps of a Fisher–Yates pass; the
   * result is therefore a permutation of `arr`, which is itself left as it was.
   */
  method Shuffle<T>(arr: seq<T>) returns (r: seq<T>, ghost steps: seq<(nat, nat)>)
    ensures FisherYatesSteps(|arr|, steps)
    ensures forall k :: 0 <= k < |steps| ==> steps[k].0 < |arr| && steps[k].1 < |arr|
    ensures r == ApplySwaps(arr, steps)
    ensures |r| == |arr| && multiset(r) == multiset(arr)
  {
    var copy := new T[|arr|](k requires 0 <= k < |arr| => arr[k]);
    steps := [];
    var i := copy.Length - 1;
    while i > 0
      invariant -1 <= i < copy.Length == |arr|
      invariant copy.Length > 0 ==> 0 <= i
      invariant |steps| == copy.Length - 1 - i
      invariant forall k :: 0 <= k < |steps| ==> steps[k].0 == copy.Length - 1 - k && steps[k].1 <= steps[k].0
      invariant copy[..] == ApplySwaps(arr, steps)
    {
      var j := RandomNumber(0, i);
      ApplySwapsSnoc(arr, steps, (i, j));
      var tmp := copy[i];
      copy[i] := copy[j];
      copy[j] := tmp;
      steps := steps + [(i, j)];
      i := i - 1;
    }
    r := copy[..];
    ApplySwapsPermutes(arr, steps);
  }

  /**
   * `pickRandomUnique`: up to `count` elements of `items` drawn without
   * replacement. Nothing when `count` is not positive or `items` is empty; a
   * shuffled copy of all of `items` when there are no more than `count`; and
   * otherwise exactly `count` elements, taken from distinct positions.
   */
  method PickRandomUnique<T>(items: seq<T>, count: int) returns (picked: seq<T>)
    ensures count <= 0 || |items| == 0 ==> picked == []
    ensures 0 < |items| <= count ==> multiset(picked) == multiset(items)
    ensures 0 < count < |items| ==> |picked| == count
    ensures multiset(picked) <= multiset(items)
  {
    if count <= 0 || |items| == 0 {
      return [];
    }

    if |items| <= count {
      var shuffled;
      ghost var steps;
      shuffled, steps := Shuffle(items);
      var end := if count < |shuffled| then count else |shuffled|;
      picked := shuffled[..end];
      assert picked == shuffled;
      return;
    }

    var remaining := items;
    picked := [];
    while |picked| < count && |remaining| > 0
      invariant multiset(picked) + multiset(remaining) == multiset(items)
      invariant |picked| + |remaining| == |items|
      invariant |picked| <= count
    {
      var idx := RandomNumber(0, |remaining| - 1);
      picked := picked + [remaining[idx]];
      assert remaining == remaining[..idx] + [remaining[idx]] + remaining[idx + 1..];
      remaining := remaining[..idx] + remaining[idx + 1..];
    }
  }

  /** A duplicate-free sequence holds each value at most once. */
  lemma {:induction false} DistinctCount<T>(s: seq<T>, x: T)
    requires Distinct(s)
    ensures multiset(s)[x] <= 1
  {
    if s != [] {
      assert s == [s[0]] + s[1..];
      DistinctCount(s[1..], x);
      if s[0] == x {
        assert x !in s[1..];
      }
    }
  }

  /** A value found at two positions is counted at least twice. */
  lemma TwiceCount<T>(s: seq<T>, i: nat, j: nat)
    requires i < j < |s| && s[i] == s[j]
    ensures multiset(s)[s[i]] >= 2
  {
    assert s == s[..i] + [s[i]] + s[i + 1..j] + [s[j]] + s[j + 1..];
  }

  /** Whatever is drawn without replacement from a duplicate-free sequence is duplicate-free. */
  lemma DistinctSubMultiset<T>(a: seq<T>, b: seq<T>)
    requires Distinct(a) && multiset(b) <= multiset(a)
    ensures Distinct(b)
  {
    forall i, j | 0 <= i < j < |b|
      ensures b[i] != b[j]
    {
      if b[i] == b[j] {
        TwiceCount(b, i, j);
        DistinctCount(a, b[i]);
      }
    }
  }
}
