/** `Array.prototype.sort` on the face and suit codes of a hand, with the two comparators
    `getHandDetails` uses: the default one (ascending code, as for one-character strings) and
    `byCountFirst` (more frequent face first, then ascending code). Both are total orders, so the
    sorted permutation is unique (SortedUnique) and insertion sort yields the same array as any
    other sorting algorithm. */
module Sorting {
  import opened Tally

  datatype Comparator = Default | ByCountFirst(counts: Tally<int>)

  /** The comparator's verdict in JavaScript's convention: negative puts `a` before `b`. */
  function Cmp(c: Comparator, a: int, b: int): (r: int)
    ensures r == 0 <==> a == b
    ensures c.Default? ==> (r < 0 <==> a < b)
    ensures c.ByCountFirst? ==> (r < 0 <==> Get(c.counts, a) > Get(c.counts, b) ||
                                            (Get(c.counts, a) == Get(c.counts, b) && a < b))
  {
    match c
    case Default => if a < b then -1 else if a == b then 0 else 1
    case ByCountFirst(counts) =>
      var countDiff := Get(counts, b) - Get(counts, a);
      if countDiff != 0 then countDiff
      else if b > a then -1
      else if b == a then 0
      else 1
  }

  predicate Precedes(c: Comparator, a: int, b: int)
  {
    Cmp(c, a, b) <= 0
  }

  lemma PrecedesReflexive(c: Comparator, a: int)
    ensures Precedes(c, a, a)
  {
  }

  lemma PrecedesTotal(c: Comparator, a: int, b: int)
    ensures Precedes(c, a, b) || Precedes(c, b, a)
  {
  }

  lemma PrecedesAntisymmetric(c: Comparator, a: int, b: int)
    requires Precedes(c, a, b) && Precedes(c, b, a)
    ensures a == b
  {
  }

  lemma PrecedesTransitive(c: Comparator, a: int, b: int, d: int)
    requires Precedes(c, a, b) && Precedes(c, b, d)
    ensures Precedes(c, a, d)
  {
  }

  /** Both comparators are consistent, as `Array.prototype.sort` needs: each one orders the codes
      totally, so the sorted array is well defined. */
  lemma PrecedesTotalOrder(c: Comparator)
    ensures forall a :: Precedes(c, a, a)
    ensures forall a, b :: Precedes(c, a, b) || Precedes(c, b, a)
    ensures forall a, b :: Precedes(c, a, b) && Precedes(c, b, a) ==> a == b
    ensures forall a, b, d :: Precedes(c, a, b) && Precedes(c, b, d) ==> Precedes(c, a, d)
  {
    forall a ensures Precedes(c, a, a) {
      PrecedesReflexive(c, a);
    }
    forall a, b ensures Precedes(c, a, b) || Precedes(c, b, a) {
      PrecedesTotal(c, a, b);
    }
    forall a, b | Precedes(c, a, b) && Precedes(c, b, a) ensures a == b {
      PrecedesAntisymmetric(c, a, b);
    }
    forall a, b, d | Precedes(c, a, b) && Precedes(c, b, d) ensures Precedes(c, a, d) {
      PrecedesTransitive(c, a, b, d);
    }
  }

  predicate Sorted(c: Comparator, s: seq<int>)
  {
    forall i, j :: 0 <= i < j < |s| ==> Precedes(c, s[i], s[j])
  }

  function Insert(c: Comparator, x: int, s: seq<int>): (r: seq<int>)
    ensures |r| == |s| + 1
  {
    if s == [] then [x]
    else if Precedes(c, x, s[0]) then [x] + s
    else
      assert s == [s[0]] + s[1..];
      [s[0]] + Insert(c, x, s[1..])
  }

  function Sort(c: Comparator, s: seq<int>): (r: seq<int>)
    ensures |r| == |s|
  {
    if s == [] then []
    else
      assert s == [s[0]] + s[1..];
      Insert(c, s[0], Sort(c, s[1..]))
  }

  /** Inserting adds exactly the one element. */
  lemma {:induction false} InsertMultiset(c: Comparator, x: int, s: seq<int>)
    ensures multiset(Insert(c, x, s)) == multiset(s) + multiset{x}
  {
    if s != [] && !Precedes(c, x, s[0]) {
      InsertMultiset(c, x, s[1..]);
      assert s == [s[0]] + s[1..];
    }
  }

  /** Sorting rearranges its input: the result is a permutation of it. */
  lemma {:induction false} SortMultiset(c: Comparator, s: seq<int>)
    ensures multiset(Sort(c, s)) == multiset(s)
  {
    if s != [] {
      SortMultiset(c, s[1..]);
      InsertMultiset(c, s[0], Sort(c, s[1..]));
      assert s == [s[0]] + s[1..];
    }
  }

  lemma {:induction false} InsertSorted(c: Comparator, x: int, s: seq<int>)
    requires Sorted(c, s)
    ensures Sorted(c, Insert(c, x, s))
  {
    if s != [] && !Precedes(c, x, s[0]) {
      PrecedesTotal(c, x, s[0]);
      InsertSorted(c, x, s[1..]);
      var tail := Insert(c, x, s[1..]);
      InsertMultiset(c, x, s[1..]);
      forall j | 0 <= j < |tail| ensures Precedes(c, s[0], tail[j]) {
        assert tail[j] in multiset(tail);
        if tail[j] != x {
          assert tail[j] in multiset(s[1..]);
          var k :| 0 <= k < |s[1..]| && s[1..][k] == tail[j];
          assert s[k + 1] == tail[j];
        }
      }
    }
  }

  lemma {:induction false} SortSorted(c: Comparator, s: seq<int>)
    ensures Sorted(c, Sort(c, s))
  {
    if s != [] {
      SortSorted(c, s[1..]);
      InsertSorted(c, s[0], Sort(c, s[1..]));
    }
  }

  /** In a sorted sequence the first element precedes every element. */
  lemma SortedHead(c: Comparator, s: seq<int>, y: int)
    requires Sorted(c, s) && y in s
    ensures Precedes(c, s[0], y)
  {
    var k :| 0 <= k < |s| && s[k] == y;
    if k == 0 {
      PrecedesReflexive(c, y);
    }
  }

  lemma TailsSameMultiset(a: seq<int>, b: seq<int>)
    requires a != [] && b != [] && a[0] == b[0] && multiset(a) == multiset(b)
    ensures multiset(a[1..]) == multiset(b[1..])
  {
    assert a == [a[0]] + a[1..] && b == [b[0]] + b[1..];
    assert multiset(a[1..]) == multiset(a) - multiset{a[0]};
    assert multiset(b[1..]) == multiset(b) - multiset{a[0]};
  }

  /** Two sorted permutations of one multiset are equal. */
  lemma {:induction false} SortedUnique(c: Comparator, a: seq<int>, b: seq<int>)
    requires Sorted(c, a) && Sorted(c, b) && multiset(a) == multiset(b)
    ensures a == b
  {
    if a == [] {
      assert |b| == |multiset(b)| == 0;
    } else {
      assert |b| == |multiset(b)| == |a|;
      assert a[0] in multiset(b) && b[0] in multiset(a);
      SortedHead(c, a, b[0]);
      SortedHead(c, b, a[0]);
      PrecedesAntisymmetric(c, a[0], b[0]);
      TailsSameMultiset(a, b);
      SortedUnique(c, a[1..], b[1..]);
    }
  }

  /** Sorting depends only on the multiset of its input. */
  lemma SortPermutationInvariant(c: Comparator, s: seq<int>, t: seq<int>)
    requires multiset(s) == multiset(t)
    ensures Sort(c, s) == Sort(c, t)
  {
    SortSorted(c, s);
    SortSorted(c, t);
    SortMultiset(c, s);
    SortMultiset(c, t);
    SortedUnique(c, Sort(c, s), Sort(c, t));
  }

  /** The sort of `s` is exactly the sorted permutation of `s`. */
  lemma SortCharacterized(c: Comparator, s: seq<int>, v: seq<int>)
    ensures Sort(c, s) == v <==> Sorted(c, v) && multiset(v) == multiset(s)
  {
    SortSorted(c, s);
    SortMultiset(c, s);
    if Sorted(c, v) && multiset(v) == multiset(s) {
      SortedUnique(c, v, Sort(c, s));
    }
  }
}
