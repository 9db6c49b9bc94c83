/** The Fisher-Yates shuffle of app.js:88-99. The random index drawn at
    step i, Math.floor(Math.random() * (i + 1)), is supplied by the caller
    as js[i], any number from 0 to i. */
module Shuffle {

  /** js holds an index drawn for every step of a shuffle of n items:
      js[i] is at most i (js[0] is unused by the loop and so is 0). */
  predicate ValidChoices(js: seq<nat>, n: nat)
  {
    |js| == n && forall i :: 0 <= i < n ==> js[i] <= i
  }

  /** s with the elements at i and j exchanged. */
  function Swap<T>(s: seq<T>, i: nat, j: nat): (r: seq<T>)
    requires i < |s| && j < |s|
    ensures |r| == |s|
  {
    s[i := s[j]][j := s[i]]
  }

  lemma SwapIsPermutation<T>(s: seq<T>, i: nat, j: nat)
    requires i < |s| && j < |s|
    ensures multiset(Swap(s, i, j)) == multiset(s)
  {
    var u := s[i := s[j]];
    assert multiset(u) == multiset(s) - multiset{s[i]} + multiset{s[j]};
    assert multiset(u[j := s[i]]) == multiset(u) - multiset{u[j]} + multiset{s[i]};
  }

  /** The loop's steps i, i - 1, ..., 1 applied to s, step k swapping the
      elements at k and js[k]. */
  function ShuffleDown<T>(s: seq<T>, js: seq<nat>, i: nat): (r: seq<T>)
    requires i < |s| && i < |js|
    requires forall k :: 0 <= k <= i ==> js[k] <= k
    ensures |r| == |s|
    decreases i
  {
    if i == 0 then s else ShuffleDown(Swap(s, i, js[i]), js, i - 1)
  }

  /** The whole shuffle of s under the choices js. */
  function Shuffled<T>(s: seq<T>, js: seq<nat>): (r: seq<T>)
    requires ValidChoices(js, |s|)
    ensures |r| == |s|
  {
    if |s| == 0 then s else ShuffleDown(s, js, |s| - 1)
  }

  /** Shuffles a copy of arr, as the source does on arr.slice(): the loop
      counts i down from the last index to 1, swapping copy[i] and
      copy[js[i]]. The result is a permutation of arr; arr itself is a value
      and stays as it was. */
  method FisherYatesShuffle<T>(arr: seq<T>, js: seq<nat>) returns (r: seq<T>)
    requires ValidChoices(js, |arr|)
    ensures r == Shuffled(arr, js)
    ensures |r| == |arr| && multiset(r) == multiset(arr)
  {
    var copy := new T[|arr|](k requires 0 <= k < |arr| => arr[k]);
    assert copy[..] == arr;
    var i := |arr| - 1;
    while i > 0
      invariant -1 <= i < |arr|
      invariant |arr| > 0 ==> 0 <= i
      invariant Shuffled(arr, js) == if i < 0 then copy[..] else ShuffleDown(copy[..], js, i)
    {
      var j := js[i];
      ghost var before := copy[..];
      copy[i], copy[j] := copy[j], copy[i];
      assert copy[..] == Swap(before, i, j);
      i := i - 1;
    }
    r := copy[..];
    ShuffledIsPermutation(arr, js);
  }

  // ---------------------------------------------------------------------
  // The outcome is a permutation

  lemma {:induction false} ShuffleDownIsPermutation<T>(s: seq<T>, js: seq<nat>, i: nat)
    requires i < |s| && i < |js|
    requires forall k :: 0 <= k <= i ==> js[k] <= k
    ensures |ShuffleDown(s, js, i)| == |s|
    ensures multiset(ShuffleDown(s, js, i)) == multiset(s)
    decreases i
  {
    if i > 0 {
      SwapIsPermutation(s, i, js[i]);
      ShuffleDownIsPermutation(Swap(s, i, js[i]), js, i - 1);
    }
  }

  /** For every choice of indices the shuffle returns the same items, each
      as many times as in the input. */
  lemma ShuffledIsPermutation<T>(s: seq<T>, js: seq<nat>)
    requires ValidChoices(js, |s|)
    ensures |Shuffled(s, js)| == |s|
    ensures multiset(Shuffled(s, js)) == multiset(s)
  {
    if |s| > 0 {
      ShuffleDownIsPermutation(s, js, |s| - 1);
    }
  }

  /** Choosing j == i at every step swaps nothing. */
  lemma {:induction false} ShuffledWithoutMovesIsIdentity<T>(s: seq<T>, js: seq<nat>)
    requires |js| == |s| && forall i :: 0 <= i < |s| ==> js[i] == i
    ensures ValidChoices(js, |s|) && Shuffled(s, js) == s
  {
    if |s| > 0 {
      ShuffleDownWithoutMoves(s, js, |s| - 1);
    }
  }

  lemma {:induction false} ShuffleDownWithoutMoves<T>(s: seq<T>, js: seq<nat>, i: nat)
    requires i < |s| && i < |js|
    requires forall k :: 0 <= k <= i ==> js[k] == k
    ensures ShuffleDown(s, js, i) == s
    decreases i
  {
    if i > 0 {
      assert Swap(s, i, js[i]) == s;
      ShuffleDownWithoutMoves(s, js, i - 1);
    }
  }

  // ---------------------------------------------------------------------
  // Choice sequences and arrangements correspond one to one

  /** Steps i down to 1 leave every position above i alone. */
  lemma {:induction false} ShuffleDownKeepsAbove<T>(s: seq<T>, js: seq<nat>, i: nat, k: nat)
    requires i < |s| && i < |js|
    requires forall m :: 0 <= m <= i ==> js[m] <= m
    requires i < k < |s|
    ensures |ShuffleDown(s, js, i)| == |s| && ShuffleDown(s, js, i)[k] == s[k]
    decreases i
  {
    ShuffleDownIsPermutation(s, js, i);
    if i > 0 {
      ShuffleDownKeepsAbove(Swap(s, i, js[i]), js, i - 1, k);
    }
  }

  /** Step i settles position i: it ends up holding the element that step i
      swapped in from position js[i]. */
  lemma ShuffleDownSettles<T>(s: seq<T>, js: seq<nat>, i: nat)
    requires 0 < i < |s| && i < |js|
    requires forall m :: 0 <= m <= i ==> js[m] <= m
    ensures |ShuffleDown(s, js, i)| == |s| && ShuffleDown(s, js, i)[i] == s[js[i]]
  {
    ShuffleDownKeepsAbove(Swap(s, i, js[i]), js, i - 1, i);
    ShuffleDownIsPermutation(Swap(s, i, js[i]), js, i - 1);
  }

  predicate DistinctItems<T(==)>(s: seq<T>)
  {
    forall a, b :: 0 <= a < b < |s| ==> s[a] != s[b]
  }

  /** In a sequence without repeats every member occurs exactly once. */
  lemma {:induction false} DistinctOccursOnce<T>(s: seq<T>, x: T)
    requires DistinctItems(s) && x in s
    ensures multiset(s)[x] == 1
    decreases |s|
  {
    assert s == [s[0]] + s[1..];
    if s[0] == x {
      assert x !in s[1..];
    } else {
      DistinctOccursOnce(s[1..], x);
    }
  }

  /** In a sequence of distinct items, every item occurs exactly once. */
  lemma DistinctAllOnce<T>(s: seq<T>)
    requires DistinctItems(s)
    ensures forall x :: x in s ==> multiset(s)[x] == 1
  {
    forall x | x in s
      ensures multiset(s)[x] == 1
    {
      DistinctOccursOnce(s, x);
    }
  }

  lemma SwapKeepsDistinct<T>(s: seq<T>, i: nat, j: nat)
    requires i < |s| && j < |s| && DistinctItems(s)
    ensures DistinctItems(Swap(s, i, j))
  {
    var r := Swap(s, i, j);
    forall a, b | 0 <= a < b < |r|
      ensures r[a] != r[b]
    {
      var a' := if a == i then j else if a == j then i else a;
      var b' := if b == i then j else if b == j then i else b;
      assert r[a] == s[a'] && r[b] == s[b'] && a' != b';
    }
  }

  lemma {:induction false} ShuffleDownInjective<T>(s: seq<T>, js1: seq<nat>, js2: seq<nat>, i: nat)
    requires i < |s| && i < |js1| && i < |js2| && DistinctItems(s)
    requires forall m :: 0 <= m <= i ==> js1[m] <= m && js2[m] <= m
    requires ShuffleDown(s, js1, i) == ShuffleDown(s, js2, i)
    ensures forall m :: 0 < m <= i ==> js1[m] == js2[m]
    decreases i
  {
    if i > 0 {
      ShuffleDownSettles(s, js1, i);
      ShuffleDownSettles(s, js2, i);
      assert s[js1[i]] == s[js2[i]];
      assert js1[i] == js2[i];
      SwapKeepsDistinct(s, i, js1[i]);
      ShuffleDownInjective(Swap(s, i, js1[i]), js1, js2, i - 1);
    }
  }

  /** On a deck of distinct items, different choices give different
      arrangements. */
  lemma ShuffledInjective<T>(s: seq<T>, js1: seq<nat>, js2: seq<nat>)
    requires DistinctItems(s) && ValidChoices(js1, |s|) && ValidChoices(js2, |s|)
    requires Shuffled(s, js1) == Shuffled(s, js2)
    ensures js1 == js2
  {
    if |s| > 0 {
      ShuffleDownInjective(s, js1, js2, |s| - 1);
      assert js1[0] == 0 == js2[0];
    }
  }

  /** A position at most hi holding x. */
  function FindAtMost<T(==)>(s: seq<T>, x: T, hi: nat): (j: nat)
    requires hi < |s| && x in multiset(s[..hi + 1])
    ensures j <= hi && s[j] == x
    decreases hi
  {
    if s[hi] == x then hi
    else
      assert s[..hi + 1] == s[..hi] + [s[hi]];
      FindAtMost(s, x, hi - 1)
  }

  /** The choices for steps 0..i that turn s into t. */
  function ChoicesFor<T(==)>(s: seq<T>, t: seq<T>, i: nat): (js: seq<nat>)
    requires i < |s| == |t|
    requires multiset(s[..i + 1]) == multiset(t[..i + 1])
    ensures |js| == i + 1 && forall m :: 0 <= m <= i ==> js[m] <= m
    decreases i
  {
    if i == 0 then [0]
    else
      var j := FindAtMost(s, t[i], i);
      SwapPrefixStep(s, t, i, j);
      ChoicesFor(Swap(s, i, j), t, i - 1) + [j]
  }

  /** Swapping t[i] (found at j <= i) into position i leaves prefixes of
      equal contents one shorter. */
  lemma SwapPrefixStep<T>(s: seq<T>, t: seq<T>, i: nat, j: nat)
    requires j <= i < |s| == |t| && s[j] == t[i]
    requires multiset(s[..i + 1]) == multiset(t[..i + 1])
    ensures multiset(Swap(s, i, j)[..i]) == multiset(t[..i])
  {
    var r := Swap(s, i, j);
    assert r[..i + 1] == Swap(s[..i + 1], i, j);
    SwapIsPermutation(s[..i + 1], i, j);
    assert r[..i + 1] == r[..i] + [t[i]];
    assert t[..i + 1] == t[..i] + [t[i]];
    CancelLast(r[..i], t[..i], t[i]);
  }

  lemma CancelLast<T>(a: seq<T>, b: seq<T>, x: T)
    requires multiset(a + [x]) == multiset(b + [x])
    ensures multiset(a) == multiset(b)
  {
    assert multiset(a + [x]) == multiset(a) + multiset{x};
    assert multiset(b + [x]) == multiset(b) + multiset{x};
    assert multiset(a) == (multiset(a) + multiset{x}) - multiset{x};
    assert multiset(b) == (multiset(b) + multiset{x}) - multiset{x};
  }

  lemma {:induction false} ShuffleDownPrefix<T>(s: seq<T>, js1: seq<nat>, js2: seq<nat>, i: nat)
    requires i < |s| && i < |js1| && i < |js2|
    requires forall m :: 0 <= m <= i ==> js1[m] == js2[m] <= m
    ensures ShuffleDown(s, js1, i) == ShuffleDown(s, js2, i)
    decreases i
  {
    if i > 0 {
      ShuffleDownPrefix(Swap(s, i, js1[i]), js1, js2, i - 1);
    }
  }

  lemma {:induction false} ChoicesForReach<T>(s: seq<T>, t: seq<T>, i: nat)
    requires i < |s| == |t|
    requires multiset(s[..i + 1]) == multiset(t[..i + 1])
    requires s[i + 1..] == t[i + 1..]
    ensures ShuffleDown(s, ChoicesFor(s, t, i), i) == t
    decreases i
  {
    if i == 0 {
      SingleItemPrefix(s, t);
    } else {
      var j := FindAtMost(s, t[i], i);
      var c := Swap(s, i, j);
      SwapPrefixStep(s, t, i, j);
      var rest := ChoicesFor(c, t, i - 1);
      assert ChoicesFor(s, t, i) == rest + [j];
      SwapSettlesTail(s, t, i, j);
      ChoicesForReach(c, t, i - 1);
      ShuffleDownPrefix(c, ChoicesFor(s, t, i), rest, i - 1);
    }
  }

  lemma SingleItemPrefix<T>(s: seq<T>, t: seq<T>)
    requires 0 < |s| == |t|
    requires multiset(s[..1]) == multiset(t[..1])
    requires s[1..] == t[1..]
    ensures s == t
  {
    assert s[..1] == [s[0]] && t[..1] == [t[0]];
    assert s[0] in multiset([t[0]]);
    assert s == [s[0]] + s[1..] && t == [t[0]] + t[1..];
  }

  lemma SwapSettlesTail<T>(s: seq<T>, t: seq<T>, i: nat, j: nat)
    requires j <= i < |s| == |t| && s[j] == t[i]
    requires s[i + 1..] == t[i + 1..]
    ensures Swap(s, i, j)[i..] == t[i..]
  {
    var c := Swap(s, i, j);
    assert c[i..] == [c[i]] + c[i + 1..] && t[i..] == [t[i]] + t[i + 1..];
    assert c[i + 1..] == s[i + 1..];
  }

  /** Every arrangement of the input's items is the outcome of some valid
      choice of indices: together with ShuffledInjective, on a deck of
      distinct items the valid choice sequences and the arrangements
      correspond one to one. */
  lemma ShuffledReachesEvery<T>(s: seq<T>, t: seq<T>)
    requires |t| == |s| && multiset(t) == multiset(s)
    ensures exists js :: ValidChoices(js, |s|) && Shuffled(s, js) == t
  {
    if |s| == 0 {
      assert Shuffled(s, []) == t;
    } else {
      var i := |s| - 1;
      assert s[..i + 1] == s && t[..i + 1] == t;
      var js := ChoicesFor(s, t, i);
      ChoicesForReach(s, t, i);
      assert ValidChoices(js, |s|) && Shuffled(s, js) == t;
    }
  }
}
