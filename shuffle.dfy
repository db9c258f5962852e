/** The Fisher-Yates shuffle every worksheet copies (MatchingWorksheet.tsx, FillInBlanks.tsx,
    IdentificationQuiz.tsx, CountingGame.tsx and PictureMatch.tsx carry identical copies).
    Randomness is a supplied stream of draws: the draw used when the loop counter is i plays the
    part of Math.floor(Math.random() * (i + 1)), so it lies in 0..i. */
module Shuffle {
  import opened Seqs

  /** A draw stream long enough to shuffle n elements, each draw i within 0..i. */
  predicate ValidRolls(rolls: seq<nat>, n: nat) {
    n <= |rolls| && forall i :: 0 <= i < |rolls| ==> rolls[i] <= i
  }

  /** Exchange positions i and j. */
  function Swap<T>(s: seq<T>, i: nat, j: nat): (r: seq<T>)
    requires i < |s| && j < |s|
    ensures |r| == |s| && r[i] == s[j] && r[j] == s[i]
    ensures forall k :: 0 <= k < |s| && k != i && k != j ==> r[k] == s[k]
  {
    s[i := s[j]][j := s[i]]
  }

  /** The sequence after the loop body has done its swap for counter values i, i - 1, ..., 1. */
  function ShuffleFrom<T>(s: seq<T>, rolls: seq<nat>, i: nat): (r: seq<T>)
    requires i < |s| && ValidRolls(rolls, |s|)
    ensures |r| == |s|
    decreases i
  {
    if i == 0 then s else ShuffleFrom(Swap(s, i, rolls[i]), rolls, i - 1)
  }

  /** shuffleArray's result: a copy of s with the loop taken from the last position down to 1. */
  function Shuffled<T>(s: seq<T>, rolls: seq<nat>): (r: seq<T>)
    requires ValidRolls(rolls, |s|)
    ensures |r| == |s|
  {
    if |s| == 0 then s else ShuffleFrom(s, rolls, |s| - 1)
  }

  /** The countdown swap loop of shuffleArray, on a fresh copy of the input. */
  method ShuffleArray<T>(input: seq<T>, rolls: seq<nat>) returns (shuffled: seq<T>)
    requires ValidRolls(rolls, |input|)
    ensures shuffled == Shuffled(input, rolls)
    ensures |shuffled| == |input| && multiset(shuffled) == multiset(input)
  {
    var a := new T[|input|](k requires 0 <= k < |input| => input[k]);
    assert a[..] == input;
    var i := a.Length - 1;
    while i > 0
      invariant a.Length == |input| && -1 <= i < a.Length
      invariant a.Length == 0 ==> a[..] == input
      invariant a.Length > 0 ==> 0 <= i && ShuffleFrom(a[..], rolls, i) == Shuffled(input, rolls)
      decreases i
    {
      var j := rolls[i];
      ghost var before := a[..];
      assert ShuffleFrom(before, rolls, i) == ShuffleFrom(Swap(before, i, j), rolls, i - 1);
      a[i], a[j] := a[j], a[i];
      assert a[..] == Swap(before, i, j);
      i := i - 1;
    }
    shuffled := a[..];
    ShuffledIsPermutation(input, rolls);
  }

  /** The swaps keep every element with its multiplicity. */
  lemma {:induction false} ShuffleFromMultiset<T>(s: seq<T>, rolls: seq<nat>, i: nat)
    requires i < |s| && ValidRolls(rolls, |s|)
    ensures multiset(ShuffleFrom(s, rolls, i)) == multiset(s)
    decreases i
  {
    if i > 0 {
      var t := Swap(s, i, rolls[i]);
      assert multiset(t) == multiset(s);
      ShuffleFromMultiset(t, rolls, i - 1);
    }
  }

  /** Shuffling a sequence without repetitions gives one without repetitions. */
  lemma {:induction false} ShuffleFromDistinct<T>(s: seq<T>, rolls: seq<nat>, i: nat)
    requires i < |s| && ValidRolls(rolls, |s|) && Distinct(s)
    ensures Distinct(ShuffleFrom(s, rolls, i))
    decreases i
  {
    if i > 0 {
      var t := Swap(s, i, rolls[i]);
      assert Distinct(t) by {
        forall p, q | 0 <= p < q < |t| ensures t[p] != t[q] {
          var p' := if p == i then rolls[i] else if p == rolls[i] then i else p;
          var q' := if q == i then rolls[i] else if q == rolls[i] then i else q;
          assert t[p] == s[p'] && t[q] == s[q'] && p' != q';
        }
      }
      ShuffleFromDistinct(t, rolls, i - 1);
    }
  }

  /** The result of shuffleArray is a permutation of its input: same length, same elements with the
      same multiplicities, so it holds exactly the input's elements and keeps them distinct. */
  lemma ShuffledIsPermutation<T>(s: seq<T>, rolls: seq<nat>)
    requires ValidRolls(rolls, |s|)
    ensures |Shuffled(s, rolls)| == |s| && multiset(Shuffled(s, rolls)) == multiset(s)
    ensures forall x :: x in Shuffled(s, rolls) <==> x in s
    ensures Distinct(s) ==> Distinct(Shuffled(s, rolls))
  {
    var r := Shuffled(s, rolls);
    if |s| > 0 {
      ShuffleFromMultiset(s, rolls, |s| - 1);
    }
    assert forall x :: x in r <==> x in multiset(r);
    assert forall x :: x in s <==> x in multiset(s);
    if Distinct(s) && |s| > 0 {
      ShuffleFromDistinct(s, rolls, |s| - 1);
    }
  }

  /** The first k elements of a shuffle, as in shuffleArray(s).slice(0, k). */
  function ShuffledPrefix<T>(s: seq<T>, rolls: seq<nat>, k: nat): (r: seq<T>)
    requires ValidRolls(rolls, |s|) && k <= |s|
    ensures |r| == k
  {
    Shuffled(s, rolls)[..k]
  }

  /** shuffleArray(input).slice(0, k), computed with the in-place shuffle. */
  method ShufflePrefix<T>(input: seq<T>, rolls: seq<nat>, k: nat) returns (r: seq<T>)
    requires ValidRolls(rolls, |input|) && k <= |input|
    ensures r == ShuffledPrefix(input, rolls, k)
  {
    var all := ShuffleArray(input, rolls);
    r := all[..k];
  }

  /** A shuffled prefix is a selection from its input: every element comes from the input and,
      when the input has no repeats, neither does the prefix. */
  lemma ShuffledPrefixSelects<T>(s: seq<T>, rolls: seq<nat>, k: nat)
    requires ValidRolls(rolls, |s|) && k <= |s|
    ensures forall x :: x in ShuffledPrefix(s, rolls, k) ==> x in s
    ensures Distinct(s) ==> Distinct(ShuffledPrefix(s, rolls, k))
  {
    var all := Shuffled(s, rolls);
    ShuffledIsPermutation(s, rolls);
    forall x | x in ShuffledPrefix(s, rolls, k) ensures x in s {
      var i :| 0 <= i < k && all[..k][i] == x;
      assert all[i] == x;
      assert x in multiset(all);
    }
    if Distinct(s) {
      DistinctSlice(all, 0, k);
    }
  }

  /** shuffleArray([correct, ...wrong]): the answer options of a question, in shuffled order. */
  function ShuffledOptions<T>(correct: T, wrong: seq<T>, rolls: seq<nat>): (r: seq<T>)
    requires ValidRolls(rolls, |wrong| + 1)
    ensures |r| == |wrong| + 1
  {
    Shuffled([correct] + wrong, rolls)
  }

  /** The options hold the correct answer and the wrong ones and nothing else; when the wrong
      answers are distinct and differ from the correct one, the options are distinct. */
  lemma ShuffledOptionsHold<T>(correct: T, wrong: seq<T>, rolls: seq<nat>)
    requires ValidRolls(rolls, |wrong| + 1)
    ensures correct in ShuffledOptions(correct, wrong, rolls)
    ensures forall x :: x in wrong ==> x in ShuffledOptions(correct, wrong, rolls)
    ensures forall x :: x in ShuffledOptions(correct, wrong, rolls) ==> x == correct || x in wrong
    ensures Distinct(wrong) && correct !in wrong ==> Distinct(ShuffledOptions(correct, wrong, rolls))
  {
    var s := [correct] + wrong;
    var r := ShuffledOptions(correct, wrong, rolls);
    ShuffledIsPermutation(s, rolls);
    assert multiset(r) == multiset(s);
    assert s[0] == correct;
    assert correct in multiset(s);
    forall x | x in wrong ensures x in r {
      assert x in s;
      assert x in multiset(s);
    }
    forall x | x in r ensures x == correct || x in wrong {
      assert x in multiset(r);
      assert x in s;
    }
    if Distinct(wrong) && correct !in wrong {
      forall i, j | 0 <= i < j < |s| ensures s[i] != s[j] {
        if i == 0 {
          assert s[j] == wrong[j - 1];
        } else {
          assert s[i] == wrong[i - 1] && s[j] == wrong[j - 1];
        }
      }
    }
  }
}
