/** `constructCardStringShort` of src/utils/generateRandomCard.ts: a rank number 1..13 and a suit
    number 1..4 become the two-character card text, rank character first. The result is always a
    card the evaluator accepts, and the 52 pairs give the 52 distinct cards of a deck. */
module RandomCard {
  import opened HandEvaluator

  /** `suits`. */
  const Suits: string := "cdhs"

  /** `values`: the Ace first, then the Two to the King. */
  const Values: string := "A23456789TJQK"

  /** `constructCardStringShort(rng, suit)`: `values[rng - 1] + suits[suit - 1]`. */
  function ConstructCardStringShort(rng: int, suit: int): (card: string)
    requires 1 <= rng <= 13 && 1 <= suit <= 4
    ensures |card| == 2 && card[0] in Values && card[1] in Suits
  {
    [Values[rng - 1]] + [Suits[suit - 1]]
  }

  /** A card text made of a rank character of `values` and a suit character of `suits`. */
  predicate IsDeckCard(card: string)
  {
    |card| == 2 && card[0] in Values && card[1] in Suits
  }

  /** The suit character: 1 is clubs, 2 diamonds, 3 hearts, 4 spades. */
  lemma SuitCharacter(rng: int, suit: int)
    requires 1 <= rng <= 13 && 1 <= suit <= 4
    ensures ConstructCardStringShort(rng, suit)[1] ==
              match suit
              case 1 => 'c'
              case 2 => 'd'
              case 3 => 'h'
              case _ => 's'
  {
  }

  /** The rank character: 1 is the Ace, 2..9 the digit itself, then T, J, Q and K. */
  lemma RankCharacter(rng: int, suit: int)
    requires 1 <= rng <= 13 && 1 <= suit <= 4
    ensures 2 <= rng <= 9 ==> ConstructCardStringShort(rng, suit)[0] == ('0' as int + rng) as char
    ensures rng == 1 ==> ConstructCardStringShort(rng, suit)[0] == 'A'
    ensures rng == 10 ==> ConstructCardStringShort(rng, suit)[0] == 'T'
    ensures rng == 11 ==> ConstructCardStringShort(rng, suit)[0] == 'J'
    ensures rng == 12 ==> ConstructCardStringShort(rng, suit)[0] == 'Q'
    ensures rng == 13 ==> ConstructCardStringShort(rng, suit)[0] == 'K'
  {
  }

  /** Where a rank character of `values` sits in the evaluator's `order`: the Ace last, every
      other rank one place before its place in `values`. */
  function OrderPosition(rng: int): (i: nat)
    requires 1 <= rng <= 13
    ensures i < |Order| && Order[i] == Values[rng - 1]
  {
    if rng == 1 then 12 else rng - 2
  }

  /** Every constructed card is valid input to `getHandDetails`, and its encoded face is 65 ('A')
      for the Ace and `79 - rng` for the others, so the King is 66 and the Two 77. */
  lemma ConstructedCardIsValid(rng: int, suit: int)
    requires 1 <= rng <= 13 && 1 <= suit <= 4
    ensures IsCard(ConstructCardStringShort(rng, suit))
    ensures FaceCode(ConstructCardStringShort(rng, suit)) == if rng == 1 then 65 else 79 - rng
  {
    FaceOf(ConstructCardStringShort(rng, suit), OrderPosition(rng));
  }


  /** The rank and suit numbers a deck card is built from. */
  function CardNumbers(card: string): (p: (int, int))
    requires IsDeckCard(card)
    ensures 1 <= p.0 <= 13 && 1 <= p.1 <= 4
  {
    (IndexOf(Values, card[0]) + 1, IndexOf(Suits, card[1]) + 1)
  }

  lemma ValuesDistinct()
    ensures forall j, k :: 0 <= j < k < |Values| ==> Values[j] != Values[k]
  {
  }

  lemma SuitsDistinct()
    ensures forall j, k :: 0 <= j < k < |Suits| ==> Suits[j] != Suits[k]
  {
  }

  /** Reading the numbers back off a constructed card gives the numbers it was built from. */
  lemma NumbersOfConstructed(rng: int, suit: int)
    requires 1 <= rng <= 13 && 1 <= suit <= 4
    ensures CardNumbers(ConstructCardStringShort(rng, suit)) == (rng, suit)
  {
    ValuesDistinct();
    SuitsDistinct();
  }

  /** Building a card from the numbers read off a deck card gives that card back. */
  lemma ConstructedFromNumbers(card: string)
    requires IsDeckCard(card)
    ensures ConstructCardStringShort(CardNumbers(card).0, CardNumbers(card).1) == card
  {
    var c := ConstructCardStringShort(CardNumbers(card).0, CardNumbers(card).1);
    assert c[0] == card[0] && c[1] == card[1];
  }

  /** Different numbers give different cards. */
  lemma ConstructInjective(r1: int, s1: int, r2: int, s2: int)
    requires 1 <= r1 <= 13 && 1 <= s1 <= 4 && 1 <= r2 <= 13 && 1 <= s2 <= 4
    requires ConstructCardStringShort(r1, s1) == ConstructCardStringShort(r2, s2)
    ensures r1 == r2 && s1 == s2
  {
    NumbersOfConstructed(r1, s1);
    NumbersOfConstructed(r2, s2);
  }

  /** The 52 cards, suit by suit: index `i` holds rank `i % 13 + 1` of suit `i / 13 + 1`. */
  function Deck(): (d: seq<string>)
    ensures |d| == 52
    ensures forall i :: 0 <= i < 52 ==> d[i] == ConstructCardStringShort(i % 13 + 1, i / 13 + 1)
  {
    seq(52, i requires 0 <= i < 52 => ConstructCardStringShort(i % 13 + 1, i / 13 + 1))
  }

  /** The deck lists 52 different cards. */
  lemma DeckDistinct()
    ensures forall i, j :: 0 <= i < j < 52 ==> Deck()[i] != Deck()[j]
  {
    forall i, j | 0 <= i < j < 52 ensures Deck()[i] != Deck()[j] {
      NumbersOfConstructed(i % 13 + 1, i / 13 + 1);
      NumbersOfConstructed(j % 13 + 1, j / 13 + 1);
      assert (i % 13, i / 13) != (j % 13, j / 13) by {
        assert i == (i / 13) * 13 + i % 13 && j == (j / 13) * 13 + j % 13;
      }
    }
  }

  /** The constructed cards are exactly the deck cards, and each of them is in the deck. */
  lemma DeckComplete(card: string)
    ensures IsDeckCard(card) <==> card in Deck()
  {
    if IsDeckCard(card) {
      var p := CardNumbers(card);
      ConstructedFromNumbers(card);
      var i := (p.1 - 1) * 13 + (p.0 - 1);
      assert i % 13 + 1 == p.0 && i / 13 + 1 == p.1;
      assert Deck()[i] == card;
    }
  }

  /** Every card of the deck is valid input to `getHandDetails`. */
  lemma DeckCardIsCard(card: string)
    requires IsDeckCard(card)
    ensures IsCard(card)
  {
  }

  /** Draws taken from the deck meet the card precondition of the evaluator and of `run`. */
  lemma DeckCards(draws: seq<string>)
    requires forall k :: 0 <= k < |draws| ==> draws[k] in Deck()
    ensures AllCards(draws)
  {
    forall k | 0 <= k < |draws| ensures IsCard(draws[k]) {
      DeckComplete(draws[k]);
      DeckCardIsCard(draws[k]);
    }
  }
}
