/** `generateCombinations(cards, size)` of src/utils/monteCarlo.ts: every choice of `size` cards,
    in the order the backtracking search finds them. Each choice is described by the increasing
    positions it takes from `cards`; the choices are listed in lexicographic order of those
    positions, each exactly once, and there are `size` out of `|cards|` of them. */
module Combinations {
  import opened Lex

  /** Pascal's rule: the number of ways to choose `k` of `n` things. */
  function Binomial(n: nat, k: nat): nat
  {
    if k == 0 then 1
    else if n == 0 then 0
    else Binomial(n - 1, k - 1) + Binomial(n - 1, k)
  }

  /** `p` put in front of every sequence of `xs`. */
  function Extend<T>(p: seq<T>, xs: seq<seq<T>>): (r: seq<seq<T>>)
    ensures |r| == |xs|
  {
    seq(|xs|, i requires 0 <= i < |xs| => p + xs[i])
  }

  predicate Increasing(ix: seq<int>)
  {
    forall a, b :: 0 <= a < b < |ix| ==> ix[a] < ix[b]
  }

  predicate InRange(ix: seq<int>, lo: int, hi: int)
  {
    forall a :: 0 <= a < |ix| ==> lo <= ix[a] < hi
  }

  /** The positions chosen by the search started at `lo` with `m` more cards still to take,
      in the order they are found; no choice is made when `m` is negative, which is what the
      source does for a negative `size`. */
  function Choices(lo: int, n: int, m: int): (r: seq<seq<int>>)
    decreases n - lo
    ensures forall i :: 0 <= i < |r| ==> |r[i]| == m && Increasing(r[i]) && InRange(r[i], lo, n)
  {
    if m == 0 then [[]]
    else if lo >= n then []
    else
      var first := Choices(lo + 1, n, m - 1);
      var rest := Choices(lo + 1, n, m);
      var taken := Extend([lo], first);
      assert forall i :: 0 <= i < |taken| ==> taken[i] == [lo] + first[i] && taken[i][1..] == first[i];
      taken + rest
  }

  /** The cards at the positions `ix`. */
  function Select<T>(cards: seq<T>, ix: seq<int>): (r: seq<T>)
    requires InRange(ix, 0, |cards|)
    ensures |r| == |ix|
  {
    seq(|ix|, k requires 0 <= k < |ix| => cards[ix[k]])
  }

  function SelectAll<T>(cards: seq<T>, ixs: seq<seq<int>>): (r: seq<seq<T>>)
    requires forall i :: 0 <= i < |ixs| ==> InRange(ixs[i], 0, |cards|)
    ensures |r| == |ixs|
  {
    seq(|ixs|, i requires 0 <= i < |ixs| => Select(cards, ixs[i]))
  }

  /** What the search pushes, card by card: starting at `lo` with `m` more cards to take,
      each card `cards[i]` from `lo` on is taken in turn and the search goes on from `i + 1`. */
  function Combos<T>(cards: seq<T>, lo: nat, m: int): (r: seq<seq<T>>)
    requires lo <= |cards|
    decreases |cards| - lo
  {
    if m == 0 then [[]]
    else if lo == |cards| then []
    else Extend([cards[lo]], Combos(cards, lo + 1, m - 1)) + Combos(cards, lo + 1, m)
  }

  // ---------------------------------------------------------------------------------------------
  // How Extend and SelectAll distribute.

  lemma ExtendAppend<T>(p: seq<T>, xs: seq<seq<T>>, ys: seq<seq<T>>)
    ensures Extend(p, xs + ys) == Extend(p, xs) + Extend(p, ys)
  {
  }

  lemma ExtendExtend<T>(p: seq<T>, q: seq<T>, xs: seq<seq<T>>)
    ensures Extend(p, Extend(q, xs)) == Extend(p + q, xs)
  {
    forall i | 0 <= i < |xs| ensures Extend(p, Extend(q, xs))[i] == Extend(p + q, xs)[i] {
      assert p + (q + xs[i]) == (p + q) + xs[i];
    }
  }

  lemma SelectAllAppend<T>(cards: seq<T>, xs: seq<seq<int>>, ys: seq<seq<int>>)
    requires forall i :: 0 <= i < |xs| ==> InRange(xs[i], 0, |cards|)
    requires forall i :: 0 <= i < |ys| ==> InRange(ys[i], 0, |cards|)
    ensures forall i :: 0 <= i < |xs + ys| ==> InRange((xs + ys)[i], 0, |cards|)
    ensures SelectAll(cards, xs + ys) == SelectAll(cards, xs) + SelectAll(cards, ys)
  {
    assert forall i :: 0 <= i < |xs + ys| ==> (xs + ys)[i] == if i < |xs| then xs[i] else ys[i - |xs|];
  }

  lemma SelectCons<T>(cards: seq<T>, i: int, ix: seq<int>)
    requires 0 <= i < |cards| && InRange(ix, 0, |cards|)
    ensures InRange([i] + ix, 0, |cards|)
    ensures Select(cards, [i] + ix) == [cards[i]] + Select(cards, ix)
  {
  }

  lemma SelectAllExtend<T>(cards: seq<T>, i: int, xs: seq<seq<int>>)
    requires 0 <= i < |cards|
    requires forall k :: 0 <= k < |xs| ==> InRange(xs[k], 0, |cards|)
    ensures forall k :: 0 <= k < |xs| ==> InRange(Extend([i], xs)[k], 0, |cards|)
    ensures SelectAll(cards, Extend([i], xs)) == Extend([cards[i]], SelectAll(cards, xs))
  {
    forall k | 0 <= k < |xs| ensures InRange(Extend([i], xs)[k], 0, |cards|) {
      SelectCons(cards, i, xs[k]);
    }
    forall k | 0 <= k < |xs|
      ensures SelectAll(cards, Extend([i], xs))[k] == Extend([cards[i]], SelectAll(cards, xs))[k]
    {
      SelectCons(cards, i, xs[k]);
    }
  }

  // ---------------------------------------------------------------------------------------------
  // What the enumeration is.

  /** The cards pushed are the cards at the chosen positions. */
  lemma {:induction false} CombosAreSelections<T>(cards: seq<T>, lo: nat, m: int)
    requires lo <= |cards|
    ensures forall i :: 0 <= i < |Choices(lo, |cards|, m)| ==> InRange(Choices(lo, |cards|, m)[i], 0, |cards|)
    ensures Combos(cards, lo, m) == SelectAll(cards, Choices(lo, |cards|, m))
    decreases |cards| - lo
  {
    var n := |cards|;
    if m == 0 {
      assert Select(cards, []) == [];
    } else if lo < n {
      CombosAreSelections(cards, lo + 1, m - 1);
      CombosAreSelections(cards, lo + 1, m);
      var first := Choices(lo + 1, n, m - 1);
      var rest := Choices(lo + 1, n, m);
      SelectAllExtend(cards, lo, first);
      SelectAllAppend(cards, Extend([lo], first), rest);
    }
  }

  /** There are `m` out of `n - lo` choices. */
  lemma {:induction false} ChoicesCount(lo: int, n: int, m: nat)
    requires lo <= n
    ensures |Choices(lo, n, m)| == Binomial(n - lo, m)
    decreases n - lo
  {
    if m != 0 && lo < n {
      ChoicesCount(lo + 1, n, m - 1);
      ChoicesCount(lo + 1, n, m);
    }
  }

  /** No choice is made when more cards are wanted than remain, or a negative number. */
  lemma {:induction false} ChoicesEmpty(lo: int, n: int, m: int)
    requires m < 0 || (lo <= n && m > n - lo)
    ensures Choices(lo, n, m) == []
    decreases n - lo
  {
    if m != 0 && lo < n {
      ChoicesEmpty(lo + 1, n, m - 1);
      ChoicesEmpty(lo + 1, n, m);
    }
  }

  /** A search that still has cards to take and positions to take them from either takes `lo`
      or skips it. */
  lemma ChoicesSplit(lo: int, n: int, m: int)
    requires m != 0 && lo < n
    ensures Choices(lo, n, m) == Extend([lo], Choices(lo + 1, n, m - 1)) + Choices(lo + 1, n, m)
  {
  }

  lemma ExtendMember<T>(p: seq<T>, xs: seq<seq<T>>, x: seq<T>)
    requires x in xs
    ensures p + x in Extend(p, xs)
  {
    var k :| 0 <= k < |xs| && xs[k] == x;
    assert Extend(p, xs)[k] == p + x;
  }

  /** An increasing choice that starts at `lo` continues with a choice from `lo + 1` on. */
  lemma TailChoice(ix: seq<int>, lo: int, n: int)
    requires |ix| > 0 && Increasing(ix) && InRange(ix, lo, n) && ix[0] == lo
    ensures Increasing(ix[1..]) && InRange(ix[1..], lo + 1, n) && ix == [lo] + ix[1..]
  {
    var tail := ix[1..];
    forall a | 0 <= a < |tail| ensures lo + 1 <= tail[a] < n {
      assert tail[a] == ix[a + 1] && ix[0] < ix[a + 1];
    }
  }

  /** An increasing choice that does not start at `lo` is a choice from `lo + 1` on. */
  lemma SkipChoice(ix: seq<int>, lo: int, n: int)
    requires |ix| > 0 && Increasing(ix) && InRange(ix, lo, n) && ix[0] != lo
    ensures InRange(ix, lo + 1, n)
  {
    forall a | 0 <= a < |ix| ensures lo + 1 <= ix[a] {
      if a > 0 { assert ix[0] < ix[a]; }
    }
  }

  /** Every increasing choice of `m` positions in `[lo, n)` is found. */
  lemma {:induction false} ChoicesComplete(lo: int, n: int, m: int, ix: seq<int>)
    requires |ix| == m && Increasing(ix) && InRange(ix, lo, n)
    ensures ix in Choices(lo, n, m)
    decreases n - lo
  {
    if m == 0 {
      assert ix == [];
    } else {
      assert lo <= ix[0] < n;
      ChoicesSplit(lo, n, m);
      if ix[0] == lo {
        TailChoice(ix, lo, n);
        ChoicesComplete(lo + 1, n, m - 1, ix[1..]);
        ExtendMember([lo], Choices(lo + 1, n, m - 1), ix[1..]);
      } else {
        SkipChoice(ix, lo, n);
        ChoicesComplete(lo + 1, n, m, ix);
      }
    }
  }

  predicate StrictlyOrdered(xs: seq<seq<int>>)
  {
    forall i, j :: 0 <= i < j < |xs| ==> LexLess(xs[i], xs[j])
  }

  lemma ExtendOrdered(p: int, xs: seq<seq<int>>)
    requires StrictlyOrdered(xs)
    ensures StrictlyOrdered(Extend([p], xs))
  {
    forall i, j | 0 <= i < j < |xs| ensures LexLess(Extend([p], xs)[i], Extend([p], xs)[j]) {
      LexCons(p, xs[i], xs[j]);
    }
  }

  /** The choices come out in strictly increasing lexicographic order, so none is repeated. */
  lemma {:induction false} ChoicesOrdered(lo: int, n: int, m: int)
    ensures StrictlyOrdered(Choices(lo, n, m))
    decreases n - lo
  {
    if m != 0 && lo < n {
      ChoicesOrdered(lo + 1, n, m - 1);
      ChoicesOrdered(lo + 1, n, m);
      var first := Choices(lo + 1, n, m - 1);
      var rest := Choices(lo + 1, n, m);
      var taken := Extend([lo], first);
      ExtendOrdered(lo, first);
      forall i, j | 0 <= i < |taken| && 0 <= j < |rest| ensures LexLess(taken[i], rest[j]) {
        assert taken[i][0] == lo && |rest[j]| == m > 0 && rest[j][0] >= lo + 1;
      }
      var all := taken + rest;
      forall i, j | 0 <= i < j < |all| ensures LexLess(all[i], all[j]) {
        if j < |taken| {
          assert all[i] == taken[i] && all[j] == taken[j];
        } else if i >= |taken| {
          assert all[i] == rest[i - |taken|] && all[j] == rest[j - |taken|];
        } else {
          assert all[i] == taken[i] && all[j] == rest[j - |taken|];
        }
      }
    }
  }

  /** No choice appears twice. */
  lemma ChoicesDistinct(lo: int, n: int, m: int)
    ensures forall i, j :: 0 <= i < j < |Choices(lo, n, m)| ==> Choices(lo, n, m)[i] != Choices(lo, n, m)[j]
  {
    ChoicesOrdered(lo, n, m);
    var xs := Choices(lo, n, m);
    forall i, j | 0 <= i < j < |xs| ensures xs[i] != xs[j] {
      LexIrreflexive(xs[i]);
    }
  }

  /** Seven cards give twenty-one five-card hands. */
  lemma SevenChooseFive()
    ensures Binomial(7, 5) == 21
  {
    assert Binomial(2, 0) == 1 && Binomial(2, 1) == 2 && Binomial(2, 2) == 1;
    assert Binomial(3, 1) == 3 && Binomial(3, 2) == 3;
    assert Binomial(4, 2) == 6;
  }

  // ---------------------------------------------------------------------------------------------
  // The backtracking search.

  /** The combinations the search started at `start` with `current` already pushed adds. */
  function Completions<T>(cards: seq<T>, size: int, start: nat, current: seq<T>): seq<seq<T>>
    requires start <= |cards|
  {
    Extend(current, Combos(cards, start, size - |current|))
  }

  /** A full combination is its own only completion. */
  lemma CompletionsFull<T>(cards: seq<T>, size: int, start: nat, current: seq<T>)
    requires start <= |cards| && |current| == size
    ensures Completions(cards, size, start, current) == [current]
  {
    assert Extend(current, [[]])[0] == current + [] == current;
  }

  /** A short combination has no completion once the cards are used up. */
  lemma CompletionsExhausted<T>(cards: seq<T>, size: int, current: seq<T>)
    requires |current| != size
    ensures Completions(cards, size, |cards|, current) == []
  {
  }

  /** Taking `cards[i]` next, then leaving it out, gives the completions from `i` on. */
  lemma BacktrackStep<T>(cards: seq<T>, size: int, current: seq<T>, i: nat)
    requires i < |cards| && |current| != size
    ensures Completions(cards, size, i, current)
         == Completions(cards, size, i + 1, current + [cards[i]]) + Completions(cards, size, i + 1, current)
  {
    var m := size - |current|;
    var taken := Combos(cards, i + 1, m - 1);
    var rest := Combos(cards, i + 1, m);
    assert size - |current + [cards[i]]| == m - 1;
    ExtendAppend(current, Extend([cards[i]], taken), rest);
    ExtendExtend(current, [cards[i]], taken);
  }

  /** `backtrack(startIndex, currentCombination)`: appends to `combinations` every completion of
      `current` by cards from `startIndex` on. The shared `currentCombination` array, pushed
      before and popped after each recursive call, is passed as a value here. */
  method Backtrack<T>(cards: seq<T>, size: int, startIndex: nat, current: seq<T>,
                      combinations: seq<seq<T>>)
    returns (result: seq<seq<T>>)
    requires startIndex <= |cards|
    ensures result == combinations + Completions(cards, size, startIndex, current)
    decreases |cards| - startIndex
  {
    if |current| == size {
      CompletionsFull(cards, size, startIndex, current);
      return combinations + [current];
    }
    result := combinations;
    var i := startIndex;
    while i < |cards|
      invariant startIndex <= i <= |cards|
      invariant result + Completions(cards, size, i, current)
             == combinations + Completions(cards, size, startIndex, current)
    {
      BacktrackStep(cards, size, current, i);
      result := Backtrack(cards, size, i + 1, current + [cards[i]], result);
      i := i + 1;
    }
    CompletionsExhausted(cards, size, current);
    assert result + [] == result;
  }

  /** `generateCombinations(cards, size)`. */
  method GenerateCombinations<T>(cards: seq<T>, size: int) returns (combinations: seq<seq<T>>)
    ensures combinations == SelectAll(cards, Choices(0, |cards|, size))
    ensures 0 <= size ==> |combinations| == Binomial(|cards|, size)
    ensures forall i :: 0 <= i < |combinations| ==> |combinations[i]| == size
  {
    combinations := Backtrack(cards, size, 0, [], []);
    var all := Combos(cards, 0, size);
    assert forall i :: 0 <= i < |all| ==> Extend([], all)[i] == [] + all[i] == all[i];
    CombosAreSelections(cards, 0, size);
    if 0 <= size {
      ChoicesCount(0, |cards|, size);
    }
  }

  /** Every chosen hand is drawn from `cards`. */
  lemma SelectionsFromCards<T>(cards: seq<T>, m: int)
    ensures forall i :: 0 <= i < |Choices(0, |cards|, m)| ==> InRange(Choices(0, |cards|, m)[i], 0, |cards|)
    ensures forall c, x :: c in SelectAll(cards, Choices(0, |cards|, m)) && x in c ==> x in cards
  {
    var all := SelectAll(cards, Choices(0, |cards|, m));
    forall c, x | c in all && x in c ensures x in cards {
      var i :| 0 <= i < |all| && all[i] == c;
      var k :| 0 <= k < |c| && c[k] == x;
    }
  }
}
