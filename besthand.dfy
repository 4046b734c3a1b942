/** `findBestHandFromCombination(hands)` of src/utils/monteCarlo.ts: folds `compare` over the
    candidate hands from left to right. The hand it keeps is the first of the strongest ones. */
module BestHand {
  import opened HandEvaluator

  datatype Option<T> = None | Some(value: T)

  /** Why no hand is returned: an empty list (the explicit `throw`), or a single hand, which the
      first iteration pairs with the missing `hands[1]` (getHandDetails then fails on `undefined`). */
  datatype Failure = EmptyHandSet | MissingSecondHand

  datatype Result<T> = Ok(value: T) | Err(failure: Failure)

  predicate AllHands(hands: seq<seq<string>>)
  {
    forall i :: 0 <= i < |hands| ==> IsHand(hands[i])
  }

  /** The left fold of `compare` over the first `n` hands. */
  function StrongestOf(hands: seq<seq<string>>, n: nat): (r: seq<string>)
    requires 1 <= n <= |hands| && AllHands(hands)
    ensures IsHand(r)
  {
    if n == 1 then hands[0] else Compare(StrongestOf(hands, n - 1), hands[n - 1])
  }

  /** The evaluation of every hand. */
  function DetailsOf(hands: seq<seq<string>>): (ds: seq<HandDetails>)
    requires AllHands(hands)
    ensures |ds| == |hands|
  {
    seq(|hands|, i requires 0 <= i < |hands| => GetHandDetails(hands[i]))
  }

  /** Among the first `n` evaluations, `ds[k]` is the first that none beats. */
  predicate FirstStrongest(ds: seq<HandDetails>, n: nat, k: nat)
    requires n <= |ds|
  {
    k < n &&
    (forall i :: 0 <= i < n ==> !Stronger(ds[i], ds[k])) &&
    (forall i :: 0 <= i < k ==> Stronger(ds[k], ds[i]))
  }

  /** A next evaluation stronger than the first maximum so far is the new first maximum. */
  lemma NextTakesOver(ds: seq<HandDetails>, n: nat, k0: nat)
    requires 1 <= n < |ds| && FirstStrongest(ds, n, k0) && Stronger(ds[n], ds[k0])
    ensures FirstStrongest(ds, n + 1, n)
  {
    forall i | 0 <= i < n ensures Stronger(ds[n], ds[i]) {
      StrongerThanWeaker(ds[i], ds[k0], ds[n]);
    }
    forall i | 0 <= i < n + 1 ensures !Stronger(ds[i], ds[n]) {
      if i < n {
        StrongerAsymmetric(ds[n], ds[i]);
      } else {
        StrongerIrreflexive(ds[n]);
      }
    }
  }

  /** A next evaluation not stronger than the first maximum so far leaves it in place. */
  lemma BestStays(ds: seq<HandDetails>, n: nat, k0: nat)
    requires 1 <= n < |ds| && FirstStrongest(ds, n, k0) && !Stronger(ds[n], ds[k0])
    ensures FirstStrongest(ds, n + 1, k0)
  {
  }

  /** A scan of the first `n` evaluations that keeps the earlier one unless the next is
      strictly stronger; it finds the first evaluation that none of them beats. */
  function FirstBestIndex(ds: seq<HandDetails>, n: nat): (k: nat)
    requires 1 <= n <= |ds|
    ensures FirstStrongest(ds, n, k)
  {
    if n == 1 then
      StrongerIrreflexive(ds[0]);
      0
    else
      var k0 := FirstBestIndex(ds, n - 1);
      if Stronger(ds[n - 1], ds[k0]) then
        NextTakesOver(ds, n - 1, k0);
        n - 1
      else
        BestStays(ds, n - 1, k0);
        k0
  }

  /** One more hand folded in with `compare`: it replaces the best so far exactly when its
      evaluation is strictly stronger. */
  lemma FoldStep(hands: seq<seq<string>>, n: nat, k0: nat)
    requires 2 <= n <= |hands| && AllHands(hands) && k0 < n - 1
    requires StrongestOf(hands, n - 1) == hands[k0]
    ensures StrongestOf(hands, n) ==
              if Stronger(GetHandDetails(hands[n - 1]), GetHandDetails(hands[k0])) then hands[n - 1]
              else hands[k0]
  {
  }

  /** `StrongestOf` ends on the hand `FirstBestIndex` finds: the first hand that no other beats,
      so every hand before it is weaker and none after it is stronger. */
  lemma {:induction false} StrongestIsFirstMaximum(hands: seq<seq<string>>, n: nat)
    requires 1 <= n <= |hands| && AllHands(hands)
    ensures StrongestOf(hands, n) == hands[FirstBestIndex(DetailsOf(hands), n)]
  {
    if n > 1 {
      var ds := DetailsOf(hands);
      StrongestIsFirstMaximum(hands, n - 1);
      var k0 := FirstBestIndex(ds, n - 1);
      FoldStep(hands, n, k0);
      assert ds[n - 1] == GetHandDetails(hands[n - 1]) && ds[k0] == GetHandDetails(hands[k0]);
    }
  }

  /** The first iteration compares `hands[0]` with `hands[1]`; the second compares the result
      with `hands[1]` again, which changes nothing. */
  lemma SecondIterationKeeps(hands: seq<seq<string>>)
    requires |hands| >= 2 && AllHands(hands)
    ensures Compare(StrongestOf(hands, 2), hands[1]) == StrongestOf(hands, 2)
  {
    CompareIdempotent(hands[0], hands[1]);
  }

  /** `findBestHandFromCombination(hands)`. */
  method FindBestHandFromCombination(hands: seq<seq<string>>) returns (r: Result<seq<string>>)
    requires AllHands(hands)
    ensures |hands| == 0 ==> r == Err(EmptyHandSet)
    ensures |hands| == 1 ==> r == Err(MissingSecondHand)
    ensures |hands| >= 2 ==> r == Ok(StrongestOf(hands, |hands|))
  {
    var j := 0;
    var strongest: Option<seq<string>> := None;
    while j < |hands|
      invariant 0 <= j <= |hands|
      invariant j == 0 <==> strongest.None?
      invariant j >= 1 ==> |hands| >= 2 && strongest == Some(StrongestOf(hands, if j < 2 then 2 else j))
    {
      var next := hands[j];
      if strongest.Some? {
        if j == 1 {
          SecondIterationKeeps(hands);
        }
        strongest := Some(Compare(strongest.value, next));
      } else {
        if j + 1 >= |hands| {
          return Err(MissingSecondHand);
        }
        strongest := Some(Compare(next, hands[j + 1]));
      }
      j := j + 1;
    }
    if strongest.Some? {
      return Ok(strongest.value);
    }
    return Err(EmptyHandSet);
  }
}
