/** The five-card evaluator of src/utils/monteCarlo.ts: `getHandDetails` scores five short card
    strings as a category `rank` (1 strongest .. 9 weakest) and a tiebreak `value`, and `compare`
    picks the stronger of two hands. Faces are the encoded character codes `77 - indexOf` into
    `order`, so the Ace is 65 ('A'), the King 66 ('B'), ..., the Two 77 ('M'): a smaller code is a
    higher rank, and a `value` that is lexicographically smaller is stronger. */
module HandEvaluator {
  import opened Lex
  import opened Tally
  import opened Sorting

  /** `order`: the rank characters from weakest to strongest. */
  const Order: string := "23456789TJQKA"

  /** `String.prototype.indexOf` for one character: its first position, or -1. */
  function IndexOf(s: string, ch: char): (r: int)
    ensures ch in s ==> 0 <= r < |s| && s[r] == ch && forall j :: 0 <= j < r ==> s[j] != ch
    ensures ch !in s ==> r == -1
  {
    if s == [] then -1
    else if s[0] == ch then 0
    else
      var r := IndexOf(s[1..], ch);
      assert ch in s ==> ch in s[1..];
      if r < 0 then -1 else r + 1
  }

  /** Each rank character is found at its own position of `order`. */
  lemma IndexInOrder(i: nat)
    requires i < |Order|
    ensures IndexOf(Order, Order[i]) == i
  {
    assert forall j, k :: 0 <= j < k < |Order| ==> Order[j] != Order[k];
  }

  /** The rank character at position `i` of `order` is encoded as `77 - i`. */
  lemma FaceOf(card: string, i: nat)
    requires |card| == 2 && i < |Order| && card[0] == Order[i] && (card[1] as int) < 0x1_0000
    ensures IsCard(card) && FaceCode(card) == 77 - i
  {
    IndexInOrder(i);
  }

  /** A short card text the evaluator accepts: a rank character of `order` and a suit character.
      JavaScript indexes strings by UTF-16 code unit, so both characters must be single code units
      (below 0x10000) for `a[0]` and `a[1]` to be the two characters. */
  predicate IsCard(card: string)
  {
    |card| == 2 && card[0] in Order && (card[1] as int) < 0x1_0000
  }

  /** A suit outside the Basic Multilingual Plane is two UTF-16 code units in JavaScript, so the
      text is not a two-character card there and is not accepted here. */
  lemma AstralSuitRejected()
    ensures !IsCard("2\U{1F600}") && IsCard("2c")
  {
  }

  predicate AllCards(cards: seq<string>)
  {
    forall i :: 0 <= i < |cards| ==> IsCard(cards[i])
  }

  predicate IsHand(cards: seq<string>)
  {
    |cards| == 5 && AllCards(cards)
  }

  /** `String.fromCharCode(77 - order.indexOf(a[0]))`, as its code. */
  function FaceCode(card: string): (code: int)
    requires IsCard(card)
    ensures 65 <= code <= 77
  {
    77 - IndexOf(Order, card[0])
  }

  /** `cards.map(a => face of a)`. */
  function Faces(cards: seq<string>): (fs: seq<int>)
    requires AllCards(cards)
    ensures |fs| == |cards|
  {
    seq(|cards|, i requires 0 <= i < |cards| => FaceCode(cards[i]))
  }

  /** `cards.map(a => a[1])`, as character codes. */
  function SuitCodes(cards: seq<string>): (ss: seq<int>)
    requires AllCards(cards)
    ensures |ss| == |cards|
  {
    seq(|cards|, i requires 0 <= i < |cards| => cards[i][1] as int)
  }

  datatype HandDetails = HandDetails(rank: int, value: seq<int>)

  /** `getHandDetails`. */
  function GetHandDetails(cards: seq<string>): (d: HandDetails)
    requires IsHand(cards)
    ensures 1 <= d.rank <= 9 && |d.value| == 5
  {
    var faces := Sort(Default, Faces(cards));
    var suits := Sort(Default, SuitCodes(cards));
    var counts := CountAll(faces);
    var duplicates := CountAll(Values(counts));
    var flush := suits[0] == suits[4];
    var straight := Consecutive(faces);
    var rank := RankChain(flush, straight, Get(duplicates, 4), Get(duplicates, 3), Get(duplicates, 2));
    HandDetails(rank, Sort(ByCountFirst(counts), faces))
  }

  /** `faces.every((f, index) => f - first === index)` with `first = faces[0]`. */
  predicate Consecutive(faces: seq<int>)
    requires |faces| == 5
  {
    forall i :: 0 <= i < 5 ==> faces[i] - faces[0] == i
  }

  /** The `||` chain that picks `rank`, first match wins, from the flush and straight tests and
      the numbers of faces seen exactly four, three and two times (`duplicates[4]`,
      `duplicates[3]`, `duplicates[2]`; an absent entry is falsy, as 0 is here):
      1 straight flush, 2 four of a kind, 3 full house, 4 flush, 5 straight, 6 three of a kind,
      7 two pair, 8 one pair, 9 high card. */
  function RankChain(flush: bool, straight: bool, fours: nat, threes: nat, pairs: nat): (rank: int)
    ensures 1 <= rank <= 9
  {
    if flush && straight then 1
    else if fours > 0 then 2
    else if threes > 0 && pairs > 0 then 3
    else if flush then 4
    else if straight then 5
    else if threes > 0 then 6
    else if pairs > 1 then 7
    else if pairs > 0 then 8
    else 9
  }

  // ---------------------------------------------------------------------------------------------
  // The poker meaning of a hand, stated on the unsorted cards.

  /** How many of the cards show the face `f`. */
  function Multiplicity(cards: seq<string>, f: int): nat
    requires AllCards(cards)
  {
    multiset(Faces(cards))[f]
  }

  /** How many distinct faces occur exactly `n` times. */
  function RanksWithCount(cards: seq<string>, n: nat): nat
    requires AllCards(cards)
  {
    |set f | f in Faces(cards) && multiset(Faces(cards))[f] == n|
  }

  predicate IsFlush(cards: seq<string>)
    requires IsHand(cards)
  {
    forall i :: 0 <= i < 5 ==> cards[i][1] == cards[0][1]
  }

  function Min(s: seq<int>): (m: int)
    requires |s| > 0
    ensures m in s && forall x :: x in s ==> m <= x
  {
    if |s| == 1 then s[0]
    else
      var m := Min(s[1..]);
      assert forall x :: x in s ==> x == s[0] || x in s[1..];
      if s[0] <= m then s[0] else m
  }

  function Max(s: seq<int>): (m: int)
    requires |s| > 0
    ensures m in s && forall x :: x in s ==> x <= m
  {
    if |s| == 1 then s[0]
    else
      var m := Max(s[1..]);
      assert forall x :: x in s ==> x == s[0] || x in s[1..];
      if s[0] >= m then s[0] else m
  }

  /** Five distinct faces spanning five consecutive codes; the Ace (65) is only high. */
  predicate IsStraight(cards: seq<string>)
    requires IsHand(cards)
  {
    DistinctConsecutive(Faces(cards))
  }

  predicate DistinctConsecutive(fs: seq<int>)
    requires |fs| > 0
  {
    (forall f :: f in fs ==> multiset(fs)[f] == 1) && Max(fs) - Min(fs) == 4
  }

  /** The hand category the chain assigns when fed the poker facts of the cards themselves. */
  function Category(cards: seq<string>): int
    requires IsHand(cards)
  {
    RankChain(IsFlush(cards), IsStraight(cards),
              RanksWithCount(cards, 4), RanksWithCount(cards, 3), RanksWithCount(cards, 2))
  }

  /** The tiebreak order: more frequent faces first, equally frequent ones by ascending code
      (descending rank). */
  predicate TiebreakOrdered(cards: seq<string>, v: seq<int>)
    requires AllCards(cards)
  {
    forall i, j :: 0 <= i < j < |v| ==>
      Multiplicity(cards, v[i]) > Multiplicity(cards, v[j]) ||
      (Multiplicity(cards, v[i]) == Multiplicity(cards, v[j]) && v[i] <= v[j])
  }

  // ---------------------------------------------------------------------------------------------
  // What the sorted arrays of getHandDetails say about the cards.

  lemma SortedDefault(s: seq<int>, i: int, j: int)
    requires Sorted(Default, s) && 0 <= i <= j < |s|
    ensures s[i] <= s[j]
  {
    if i < j {
      assert Precedes(Default, s[i], s[j]);
    }
  }

  /** `suits[0] === suits[4]` on the sorted suits holds exactly for a flush. */
  lemma FlushCheck(cards: seq<string>)
    requires IsHand(cards)
    ensures var suits := Sort(Default, SuitCodes(cards)); (suits[0] == suits[4]) == IsFlush(cards)
  {
    var codes := SuitCodes(cards);
    var suits := Sort(Default, codes);
    SortSorted(Default, codes);
    SortMultiset(Default, codes);
    assert forall x :: x in codes <==> x in suits by {
      forall x ensures x in codes <==> x in suits {
        assert x in codes <==> x in multiset(codes);
        assert x in suits <==> x in multiset(suits);
      }
    }
    if suits[0] == suits[4] {
      forall i | 0 <= i < 5 ensures cards[i][1] == cards[0][1] {
        assert codes[i] in suits && codes[0] in suits;
        forall k | 0 <= k < 5 ensures suits[k] == suits[0] {
          SortedDefault(suits, 0, k);
          SortedDefault(suits, k, 4);
        }
      }
    }
    if IsFlush(cards) {
      assert suits[0] in codes && suits[4] in codes;
    }
  }

  /** A face counted once in a sequence is not repeated elsewhere in it. */
  lemma CountedOnce(s: seq<int>, i: int, j: int)
    requires 0 <= i < j < |s| && multiset(s)[s[i]] == 1
    ensures s[i] != s[j]
  {
    assert s == s[..j] + s[j..];
    assert s[i] in s[..j];
    assert s[j] == s[j..][0];
    assert multiset(s)[s[j]] == multiset(s[..j])[s[j]] + multiset(s[j..])[s[j]];
  }

  lemma IncreasingDistinct(s: seq<int>)
    requires forall i :: 0 <= i < |s| - 1 ==> s[i] < s[i + 1]
    ensures forall f :: f in s ==> multiset(s)[f] == 1
  {
    if s != [] {
      var r := s[1..];
      IncreasingDistinct(r);
      assert s == [s[0]] + r;
      assert forall k :: 0 <= k < |r| ==> s[0] < r[k] by {
        forall k | 0 <= k < |r| ensures s[0] < r[k] {
          var m := 0;
          while m < k
            invariant 0 <= m <= k && s[0] < r[m]
          {
            assert r[m] < r[m + 1] by { assert r[m] == s[m + 1] && r[m + 1] == s[m + 2]; }
            m := m + 1;
          }
        }
      }
      assert s[0] !in r;
    }
  }

  /** A sorted permutation holds the same elements. */
  lemma SortSameElements(fs: seq<int>, x: int)
    ensures x in Sort(Default, fs) <==> x in fs
  {
    var s := Sort(Default, fs);
    SortMultiset(Default, fs);
    assert x in s <==> x in multiset(s);
    assert x in fs <==> x in multiset(fs);
  }

  /** The extremes of a sequence are the ends of its ascending sort. */
  lemma SortedExtremes(fs: seq<int>)
    requires |fs| > 0
    ensures Min(fs) == Sort(Default, fs)[0]
    ensures Max(fs) == Sort(Default, fs)[|fs| - 1]
  {
    var s := Sort(Default, fs);
    SortSorted(Default, fs);
    var lo, hi := Min(fs), Max(fs);
    SortSameElements(fs, lo);
    SortSameElements(fs, hi);
    SortSameElements(fs, s[0]);
    SortSameElements(fs, s[|s| - 1]);
    var k :| 0 <= k < |s| && s[k] == lo;
    SortedDefault(s, 0, k);
    var l :| 0 <= l < |s| && s[l] == hi;
    SortedDefault(s, l, |s| - 1);
  }

  lemma OnceSorted(fs: seq<int>)
    ensures (forall f :: f in fs ==> multiset(fs)[f] == 1) ==
            (forall f :: f in Sort(Default, fs) ==> multiset(Sort(Default, fs))[f] == 1)
  {
    var s := Sort(Default, fs);
    SortMultiset(Default, fs);
    forall f ensures (f in fs ==> multiset(fs)[f] == 1) == (f in s ==> multiset(s)[f] == 1) {
      SortSameElements(fs, f);
    }
  }

  lemma ConsecutiveToDistinct(fs: seq<int>)
    requires |fs| == 5 && Consecutive(Sort(Default, fs))
    ensures DistinctConsecutive(fs)
  {
    var faces := Sort(Default, fs);
    SortedExtremes(fs);
    forall i | 0 <= i < 4 ensures faces[i] < faces[i + 1] {
      assert faces[i] - faces[0] == i && faces[i + 1] - faces[0] == i + 1;
    }
    IncreasingDistinct(faces);
    OnceSorted(fs);
  }

  lemma DistinctToConsecutive(fs: seq<int>)
    requires |fs| == 5 && DistinctConsecutive(fs)
    ensures Consecutive(Sort(Default, fs))
  {
    var faces := Sort(Default, fs);
    SortSorted(Default, fs);
    SortedExtremes(fs);
    OnceSorted(fs);
    StepUp(faces, 0);
    StepUp(faces, 1);
    StepUp(faces, 2);
    StepUp(faces, 3);
    assert faces[4] - faces[0] == 4;
  }

  lemma StepUp(faces: seq<int>, i: int)
    requires Sorted(Default, faces) && (forall f :: f in faces ==> multiset(faces)[f] == 1)
    requires 0 <= i < |faces| - 1
    ensures faces[i] < faces[i + 1]
  {
    SortedDefault(faces, i, i + 1);
    CountedOnce(faces, i, i + 1);
  }

  lemma ConsecutiveSorted(fs: seq<int>)
    requires |fs| == 5
    ensures Consecutive(Sort(Default, fs)) == DistinctConsecutive(fs)
  {
    if Consecutive(Sort(Default, fs)) {
      ConsecutiveToDistinct(fs);
    }
    if DistinctConsecutive(fs) {
      DistinctToConsecutive(fs);
    }
  }

  /** The `every` test on the sorted faces holds exactly for a straight. */
  lemma StraightCheck(cards: seq<string>)
    requires IsHand(cards)
    ensures Consecutive(Sort(Default, Faces(cards))) == IsStraight(cards)
  {
    ConsecutiveSorted(Faces(cards));
  }

  /** `duplicates[n]` counts the distinct faces that occur exactly `n` times. */
  lemma DuplicatesCheck(cards: seq<string>, n: nat)
    requires IsHand(cards)
    ensures var faces := Sort(Default, Faces(cards));
            Get(CountAll(Values(CountAll(faces))), n) == RanksWithCount(cards, n)
  {
    var fs := Faces(cards);
    var faces := Sort(Default, fs);
    var counts := CountAll(faces);
    SortMultiset(Default, fs);
    CountAllCounts(faces);
    CountAllCounts(Values(counts));
    ValuesCount(counts, n);
    assert KeysWithCount(counts, n) == set f | f in fs && multiset(fs)[f] == n by {
      forall f ensures f in KeysWithCount(counts, n) <==> f in fs && multiset(fs)[f] == n {
        assert f in fs <==> f in multiset(fs);
        assert f in faces <==> f in multiset(faces);
        assert f in KeySet(counts) <==> f in faces;
      }
    }
  }

  /** The category `getHandDetails` computes is the poker category of the cards. */
  lemma RankMatchesCategory(cards: seq<string>)
    requires IsHand(cards)
    ensures GetHandDetails(cards).rank == Category(cards)
  {
    var faces := Sort(Default, Faces(cards));
    var duplicates := CountAll(Values(CountAll(faces)));
    var suits := Sort(Default, SuitCodes(cards));
    FlushCheck(cards);
    StraightCheck(cards);
    DuplicatesCheck(cards, 2);
    DuplicatesCheck(cards, 3);
    DuplicatesCheck(cards, 4);
  }

  // ---------------------------------------------------------------------------------------------
  // The tiebreak value.

  /** `byCountFirst` puts `a` before `b` exactly in the tiebreak order. */
  lemma ByCountFirstMeaning(cards: seq<string>, a: int, b: int)
    requires IsHand(cards)
    ensures var counts := CountAll(Sort(Default, Faces(cards)));
            Precedes(ByCountFirst(counts), a, b) <==>
              Multiplicity(cards, a) > Multiplicity(cards, b) ||
              (Multiplicity(cards, a) == Multiplicity(cards, b) && a <= b)
  {
    var faces := Sort(Default, Faces(cards));
    SortMultiset(Default, Faces(cards));
    CountAllCounts(faces);
  }

  /** `value` lists the five faces, more frequent faces first and equally frequent faces by
      descending rank. */
  lemma ValueIsTiebreakKey(cards: seq<string>)
    requires IsHand(cards)
    ensures multiset(GetHandDetails(cards).value) == multiset(Faces(cards))
    ensures TiebreakOrdered(cards, GetHandDetails(cards).value)
  {
    var faces := Sort(Default, Faces(cards));
    var counts := CountAll(faces);
    var v := Sort(ByCountFirst(counts), faces);
    SortMultiset(Default, Faces(cards));
    SortMultiset(ByCountFirst(counts), faces);
    SortSorted(ByCountFirst(counts), faces);
    forall i, j | 0 <= i < j < |v|
      ensures Multiplicity(cards, v[i]) > Multiplicity(cards, v[j]) ||
              (Multiplicity(cards, v[i]) == Multiplicity(cards, v[j]) && v[i] <= v[j])
    {
      ByCountFirstMeaning(cards, v[i], v[j]);
    }
  }

  /** The tiebreak order leaves no freedom: any arrangement of the faces in that order is `value`. */
  lemma ValueUnique(cards: seq<string>, v: seq<int>)
    requires IsHand(cards)
    requires multiset(v) == multiset(Faces(cards)) && TiebreakOrdered(cards, v)
    ensures v == GetHandDetails(cards).value
  {
    var faces := Sort(Default, Faces(cards));
    var counts := CountAll(faces);
    var c := ByCountFirst(counts);
    forall i, j | 0 <= i < j < |v| ensures Precedes(c, v[i], v[j]) {
      ByCountFirstMeaning(cards, v[i], v[j]);
    }
    SortMultiset(Default, Faces(cards));
    SortMultiset(c, faces);
    SortSorted(c, faces);
    SortedUnique(c, v, Sort(c, faces));
  }

  // ---------------------------------------------------------------------------------------------
  // The evaluation depends only on which cards are in the hand, not on their order.

  lemma AllCardsAppend(a: seq<string>, b: seq<string>)
    requires AllCards(a) && AllCards(b)
    ensures AllCards(a + b)
  {
    forall i | 0 <= i < |a + b| ensures IsCard((a + b)[i]) {
      if i < |a| { assert (a + b)[i] == a[i]; } else { assert (a + b)[i] == b[i - |a|]; }
    }
  }

  lemma FacesAppend(a: seq<string>, b: seq<string>)
    requires AllCards(a) && AllCards(b)
    ensures AllCards(a + b)
    ensures Faces(a + b) == Faces(a) + Faces(b)
    ensures SuitCodes(a + b) == SuitCodes(a) + SuitCodes(b)
  {
    AllCardsAppend(a, b);
    forall i | 0 <= i < |a + b|
      ensures Faces(a + b)[i] == (Faces(a) + Faces(b))[i]
      ensures SuitCodes(a + b)[i] == (SuitCodes(a) + SuitCodes(b))[i]
    {
      if i < |a| { assert (a + b)[i] == a[i]; } else { assert (a + b)[i] == b[i - |a|]; }
    }
  }

  /** Taking one card out of a hand takes its face and suit out of the coded sequences. */
  lemma RemoveCard(h: seq<string>, i: int)
    requires AllCards(h) && 0 <= i < |h|
    ensures AllCards(h[..i] + h[i + 1..])
    ensures multiset(h) == multiset(h[..i] + h[i + 1..]) + multiset{h[i]}
    ensures multiset(Faces(h)) == multiset(Faces(h[..i] + h[i + 1..])) + multiset{FaceCode(h[i])}
    ensures multiset(SuitCodes(h)) == multiset(SuitCodes(h[..i] + h[i + 1..])) + multiset{h[i][1] as int}
  {
    var left, right := h[..i], h[i + 1..];
    SplitAt(h, i);
    assert AllCards(left) && AllCards(right);
    FacesAppend(left, right);
    assert Faces(left) == Faces(h)[..i] && Faces(right) == Faces(h)[i + 1..];
    assert SuitCodes(left) == SuitCodes(h)[..i] && SuitCodes(right) == SuitCodes(h)[i + 1..];
    SplitAt(Faces(h), i);
    SplitAt(SuitCodes(h), i);
  }

  lemma SplitAt<T>(s: seq<T>, i: int)
    requires 0 <= i < |s|
    ensures multiset(s) == multiset(s[..i] + s[i + 1..]) + multiset{s[i]}
  {
    assert s == s[..i] + [s[i]] + s[i + 1..];
  }

  lemma MultisetCancel<T>(a: multiset<T>, b: multiset<T>, x: T)
    requires a + multiset{x} == b + multiset{x}
    ensures a == b
  {
    assert forall y :: a[y] == (a + multiset{x})[y] - (if y == x then 1 else 0);
    assert forall y :: b[y] == (b + multiset{x})[y] - (if y == x then 1 else 0);
  }

  lemma {:induction false} CodesPermutation(h1: seq<string>, h2: seq<string>)
    requires AllCards(h1) && AllCards(h2) && multiset(h1) == multiset(h2)
    ensures multiset(Faces(h1)) == multiset(Faces(h2))
    ensures multiset(SuitCodes(h1)) == multiset(SuitCodes(h2))
  {
    if h1 == [] {
      assert |h2| == |multiset(h2)| == 0;
    } else {
      var x := h1[0];
      assert x in multiset(h2);
      var i :| 0 <= i < |h2| && h2[i] == x;
      var r1, r2 := h1[..0] + h1[1..], h2[..i] + h2[i + 1..];
      RemoveCard(h1, 0);
      RemoveCard(h2, i);
      MultisetCancel(multiset(r1), multiset(r2), x);
      CodesPermutation(r1, r2);
    }
  }

  /** `getHandDetails` depends only on the multiset of cards. */
  lemma DetailsPermutationInvariant(h1: seq<string>, h2: seq<string>)
    requires IsHand(h1) && IsHand(h2) && multiset(h1) == multiset(h2)
    ensures GetHandDetails(h1) == GetHandDetails(h2)
  {
    CodesPermutation(h1, h2);
    SortPermutationInvariant(Default, Faces(h1), Faces(h2));
    SortPermutationInvariant(Default, SuitCodes(h1), SuitCodes(h2));
  }

  // ---------------------------------------------------------------------------------------------
  // Comparing two hands.

  /** `d1` beats `d2`: a smaller category, or the same category and a smaller `value` under
      JavaScript string comparison. */
  predicate Stronger(d1: HandDetails, d2: HandDetails)
  {
    d1.rank < d2.rank || (d1.rank == d2.rank && LexLess(d1.value, d2.value))
  }

  lemma StrongerIrreflexive(d: HandDetails)
    ensures !Stronger(d, d)
  {
    LexIrreflexive(d.value);
  }

  lemma StrongerAsymmetric(d1: HandDetails, d2: HandDetails)
    requires Stronger(d1, d2)
    ensures !Stronger(d2, d1)
  {
    if d1.rank == d2.rank {
      LexAsymmetric(d1.value, d2.value);
    }
  }

  lemma StrongerTransitive(d1: HandDetails, d2: HandDetails, d3: HandDetails)
    requires Stronger(d1, d2) && Stronger(d2, d3)
    ensures Stronger(d1, d3)
  {
    if d1.rank == d2.rank == d3.rank {
      LexTransitive(d1.value, d2.value, d3.value);
    }
  }

  /** Two evaluations are tied only when rank and value both agree. */
  lemma StrongerTotal(d1: HandDetails, d2: HandDetails)
    ensures d1 == d2 || Stronger(d1, d2) || Stronger(d2, d1)
  {
    if d1.rank == d2.rank && d1.value != d2.value {
      LexTotal(d1.value, d2.value);
    }
  }

  /** A hand stronger than the best so far is stronger than every hand that did not beat it. */
  lemma StrongerThanWeaker(d: HandDetails, best: HandDetails, next: HandDetails)
    requires !Stronger(d, best) && Stronger(next, best)
    ensures Stronger(next, d)
  {
    StrongerTotal(d, best);
    if d != best {
      StrongerTransitive(next, best, d);
    }
  }

  /** `compare`: the stronger of the two hands, `h1` unless `h2` is strictly stronger. */
  function Compare(h1: seq<string>, h2: seq<string>): (r: seq<string>)
    requires IsHand(h1) && IsHand(h2)
    ensures r == h1 || r == h2
    ensures !Stronger(GetHandDetails(h1), GetHandDetails(r))
    ensures !Stronger(GetHandDetails(h2), GetHandDetails(r))
    ensures Stronger(GetHandDetails(h2), GetHandDetails(h1)) ==> r == h2
    ensures !Stronger(GetHandDetails(h2), GetHandDetails(h1)) ==> r == h1
  {
    var d1 := GetHandDetails(h1);
    var d2 := GetHandDetails(h2);
    StrongerIrreflexive(d1);
    StrongerIrreflexive(d2);
    if d1.rank == d2.rank then
      if LexLess(d1.value, d2.value) then
        LexAsymmetric(d1.value, d2.value);
        h1
      else if LexLess(d2.value, d1.value) then h2
      else h1
    else if d1.rank < d2.rank then h1
    else h2
  }

  /** Comparing the winner with the second hand again changes nothing. */
  lemma CompareIdempotent(h1: seq<string>, h2: seq<string>)
    requires IsHand(h1) && IsHand(h2)
    ensures Compare(Compare(h1, h2), h2) == Compare(h1, h2)
  {
    if Compare(h1, h2) == h2 {
      StrongerIrreflexive(GetHandDetails(h2));
    }
  }

  datatype Outcome = Player1Wins | Player2Wins | Tie

  /** The decision `compareHands` records: the same rule as `compare`, and a tie only when both
      rank and value agree. */
  function Winner(d1: HandDetails, d2: HandDetails): (o: Outcome)
    ensures o == Tie <==> d1 == d2
  {
    StrongerIrreflexive(d1);
    StrongerTotal(d1, d2);
    if Stronger(d1, d2) then Player1Wins
    else if Stronger(d2, d1) then Player2Wins
    else Tie
  }

  /** Player 2 wins exactly when `compare` picks the second hand over a different first one. */
  lemma WinnerMatchesCompare(h1: seq<string>, h2: seq<string>)
    requires IsHand(h1) && IsHand(h2)
    ensures Winner(GetHandDetails(h1), GetHandDetails(h2)) == Player2Wins <==> Compare(h1, h2) != h1
    ensures Winner(GetHandDetails(h1), GetHandDetails(h2)) == Player1Wins ==> Compare(h1, h2) == h1
  {
    var d1, d2 := GetHandDetails(h1), GetHandDetails(h2);
    if Stronger(d1, d2) {
      StrongerAsymmetric(d1, d2);
    }
    if Stronger(d2, d1) {
      StrongerIrreflexive(d1);
    }
  }

  /** Swapping the hands swaps the winner. */
  lemma WinnerSwap(d1: HandDetails, d2: HandDetails)
    ensures Winner(d2, d1) == match Winner(d1, d2)
                              case Player1Wins => Player2Wins
                              case Player2Wins => Player1Wins
                              case Tie => Tie
  {
    if Stronger(d1, d2) {
      StrongerAsymmetric(d1, d2);
    }
  }

  // ---------------------------------------------------------------------------------------------
  // A fixture: A-2-3-4-5 is not a straight; the Ace counts only high.

  /** The faces of five accepted cards, position by position. */
  lemma FiveCards(h: seq<string>)
    requires |h| == 5 && IsCard(h[0]) && IsCard(h[1]) && IsCard(h[2]) && IsCard(h[3]) && IsCard(h[4])
    ensures IsHand(h)
    ensures Faces(h) == [FaceCode(h[0]), FaceCode(h[1]), FaceCode(h[2]), FaceCode(h[3]), FaceCode(h[4])]
  {
  }

  lemma WheelCodes(h: seq<string>)
    requires h == ["2c", "3d", "4h", "5s", "Ac"]
    ensures IsCard(h[0]) && IsCard(h[1]) && IsCard(h[2]) && IsCard(h[3]) && IsCard(h[4])
    ensures FaceCode(h[0]) == 77 && FaceCode(h[1]) == 76 && FaceCode(h[2]) == 75
    ensures FaceCode(h[3]) == 74 && FaceCode(h[4]) == 65
  {
    FaceOf(h[0], 0);
    FaceOf(h[1], 1);
    FaceOf(h[2], 2);
    FaceOf(h[3], 3);
    FaceOf(h[4], 12);
  }

  lemma WheelFaces(h: seq<string>)
    requires h == ["2c", "3d", "4h", "5s", "Ac"]
    ensures IsHand(h) && Faces(h) == [77, 76, 75, 74, 65]
  {
    WheelCodes(h);
    FiveCards(h);
  }

  /** The faces 2, 3, 4, 5 and Ace each occur once and span thirteen codes. */
  lemma WheelFaceFacts(fs: seq<int>)
    requires fs == [77, 76, 75, 74, 65]
    ensures multiset(fs) == multiset{77, 76, 75, 74, 65}
    ensures Max(fs) == 77 && Min(fs) == 65
    ensures forall f :: f in fs ==> multiset(fs)[f] == 1
  {
    WheelSpan(fs);
  }

  lemma WheelSpan(fs: seq<int>)
    requires fs == [77, 76, 75, 74, 65]
    ensures Max(fs) == 77 && Min(fs) == 65
  {
    assert 77 in fs && 65 in fs;
    assert forall x :: x in fs ==> 65 <= x <= 77;
  }

  /** Faces 2, 3, 4, 5 and Ace are never a straight and hold no pair: such a hand is a flush when
      its suits agree, and a high card otherwise. */
  lemma WheelCategory(h: seq<string>)
    requires IsHand(h) && Faces(h) == [77, 76, 75, 74, 65]
    ensures !IsStraight(h)
    ensures forall n: nat :: n != 1 ==> RanksWithCount(h, n) == 0
    ensures Category(h) == if IsFlush(h) then 4 else 9
  {
    var fs := Faces(h);
    WheelFaceFacts(fs);
    forall n: nat | n != 1 ensures RanksWithCount(h, n) == 0 {
      assert (set f | f in fs && multiset(fs)[f] == n) == {};
    }
  }

  /** With five distinct faces, `value` is the faces by descending rank (ascending code). */
  lemma DistinctFacesValue(h: seq<string>)
    requires IsHand(h) && forall f :: f in Faces(h) ==> multiset(Faces(h))[f] == 1
    ensures GetHandDetails(h).value == Sort(Default, Faces(h))
  {
    var v := Sort(Default, Faces(h));
    SortSorted(Default, Faces(h));
    SortMultiset(Default, Faces(h));
    forall i, j | 0 <= i < j < |v|
      ensures Multiplicity(h, v[i]) == Multiplicity(h, v[j]) && v[i] <= v[j]
    {
      assert v[i] in multiset(v) && v[j] in multiset(v);
      SortedDefault(v, i, j);
    }
    ValueUnique(h, v);
  }

  lemma WheelAscending(v: seq<int>)
    requires v == [65, 74, 75, 76, 77]
    ensures Sorted(Default, v)
  {
    forall i, j | 0 <= i < j < |v| ensures Precedes(Default, v[i], v[j]) {
      assert v[i] < v[j];
    }
  }

  /** The wheel's faces, sorted. */
  lemma WheelSorted(fs: seq<int>, v: seq<int>)
    requires fs == [77, 76, 75, 74, 65] && v == [65, 74, 75, 76, 77]
    ensures Sort(Default, fs) == v
  {
    WheelFaceFacts(fs);
    assert multiset(v) == multiset(fs);
    WheelAscending(v);
    SortCharacterized(Default, fs, v);
  }

  /** Any 2-3-4-5-Ace hand that is not a flush scores as a high card. */
  lemma WheelHand(h: seq<string>)
    requires IsHand(h) && Faces(h) == [77, 76, 75, 74, 65] && !IsFlush(h)
    ensures !IsStraight(h)
    ensures GetHandDetails(h) == HandDetails(9, [65, 74, 75, 76, 77])
  {
    WheelCategory(h);
    RankMatchesCategory(h);
    WheelFaceFacts(Faces(h));
    DistinctFacesValue(h);
    WheelSorted(Faces(h), [65, 74, 75, 76, 77]);
  }

  /** `2c 3d 4h 5s Ac` is not a straight: it is a high card, Ace high. */
  lemma WheelIsHighCard(h: seq<string>)
    requires h == ["2c", "3d", "4h", "5s", "Ac"]
    ensures IsHand(h) && !IsStraight(h)
    ensures GetHandDetails(h) == HandDetails(9, [65, 74, 75, 76, 77])
  {
    WheelFaces(h);
    assert h[1][1] != h[0][1];
    assert !IsFlush(h);
    WheelHand(h);
  }
}
