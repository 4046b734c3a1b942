# Heads-up Texas Hold'em Monte Carlo: a Dafny model

This project models the core of a heads-up Texas Hold'em equity calculator. The calculator plays
many random trials between two players' hole cards and counts who wins each one. The model covers:

- **the five-card evaluator** `getHandDetails`. It scores five short card strings (`"Ah"`,
  `"Tc"`, …) as a category `rank` (1 straight flush … 9 high card) and a tiebreak `value`.
  `value` is the encoded faces ordered by count, then by rank. Faces are encoded as character
  codes `77 - indexOf` into `order = "23456789TJQKA"`, so a smaller code is a higher rank.
  The model uses integers for these codes;
- **`compare`**, which picks the stronger of two hands and keeps the first on an exact tie;
- **`findBestHandFromCombination`**, the left fold of `compare` over candidate hands, including
  its two error cases;
- **`generateCombinations`**, the push/pop backtracking enumerator of all k-element choices;
- **the counters**: `reset`, `compareHands` and the trial loop of `run`, as a `Simulator`
  object whose fields are the module counters `simulations`, `player1Wins`, `player2Wins` and
  `ties`;
- **`constructCardStringShort`** and the `suits` and `values` tables, which turn a rank number and
  a suit number into a card string.

Modules follow the program's structure:

| Module | File | Contents |
|---|---|---|
| `Lex` | `lex.dfy` | JavaScript string order on code sequences |
| `Tally` | `tally.dfy` | the `count` reducer's object as an association list |
| `Sorting` | `sorting.dfy` | `Array.prototype.sort` with the default comparator and with `byCountFirst` |
| `HandEvaluator` | `evaluator.dfy` | `getHandDetails`, `compare`, the decision behind `compareHands` |
| `BestHand` | `besthand.dfy` | `findBestHandFromCombination` |
| `Combinations` | `combinations.dfy` | `generateCombinations` |
| `Simulation` | `simulation.dfy` | dealing, trials, and the `Simulator` counters |
| `RandomCard` | `card.dfy` | `constructCardStringShort` |

Evaluator behaviours that stay as the source has them:

- A-2-3-4-5 (for example `2c 3d 4h 5s Ac`) is **not** a straight. The `every` test needs five
  consecutive codes, and the Ace's code is 65 while the 5's is 74. Such a hand scores as a high
  card (`WheelIsHighCard`).
- `findBestHandFromCombination` returns an error when given one hand, because it reads
  `hands[1]` past the end. It returns the other error, the explicit `throw`, when given none.

The random card source `generateRandomCardShort` is not modelled. The trial loop instead reads a
given sequence of drawn cards, as if supplied by that function. Each trial's rejection loop keeps
a drawn card only when it is new and in neither player's hand. The `Deal` function describes that
loop. If the draws run out before `n` boards are complete, the loop stops and `Run` reports that
not all trials were played.

## Model

| member | source | states |
|---|---|---|
| HandEvaluator.Order | src/utils/monteCarlo.ts:3 | the `order` table, the rank characters from Two to Ace, as a constant. `IndexInOrder` and `FaceOf` state where each rank sits |
| HandEvaluator.IsCard | src/utils/monteCarlo.ts:114-115 | the cards the evaluator reads correctly, as a predicate with no contract of its own: a rank character of `order`, then one suit character that is a single UTF-16 code unit. `AstralSuitRejected` shows a suit outside the Basic Multilingual Plane is refused |
| HandEvaluator.AstralSuitRejected | src/utils/monteCarlo.ts:114-115 | `"2c"` is a card, while `2` followed by an emoji suit, three code units in JavaScript, is not |
| HandEvaluator.IndexOf | src/utils/monteCarlo.ts:114 | `indexOf` on one character: the first position holding it, or -1 when it is absent |
| HandEvaluator.FaceOf | src/utils/monteCarlo.ts:114 | the rank character at position `i` of `order` is a valid card face and is encoded as `77 - i` |
| HandEvaluator.FaceCode | src/utils/monteCarlo.ts:114 | every accepted card's face code lies in 65..77 |
| HandEvaluator.Faces | src/utils/monteCarlo.ts:114 | the `map` to face codes gives one code per card. Its partners `CodesPermutation` and `RemoveCard` relate it to the cards' multiset |
| HandEvaluator.SuitCodes | src/utils/monteCarlo.ts:115 | the `map` to suit characters gives one code per card. `FlushCheck` states what the sorted codes decide |
| HandEvaluator.Consecutive | src/utils/monteCarlo.ts:119-120 | the `every` test as a predicate, with no contract of its own. `StraightCheck` and `ConsecutiveSorted` state its meaning both ways |
| HandEvaluator.GetHandDetails | src/utils/monteCarlo.ts:113-134 | for five accepted cards, `rank` lies in 1..9 and `value` has five faces |
| HandEvaluator.RankChain | src/utils/monteCarlo.ts:121-129 | the first-match chain of `or`s always picks a category in 1..9 |
| HandEvaluator.FlushCheck | src/utils/monteCarlo.ts:115-118 | `suits[0] === suits[4]` on the sorted suits holds exactly when all five suits are equal |
| HandEvaluator.StraightCheck | src/utils/monteCarlo.ts:114-120 | the `every` test on the sorted faces holds exactly when the five faces are distinct and span five consecutive codes |
| HandEvaluator.ConsecutiveSorted | src/utils/monteCarlo.ts:119-120 | on any five faces, "sorted and consecutive" holds exactly when they are "distinct, with max minus min equal to 4" |
| HandEvaluator.DuplicatesCheck | src/utils/monteCarlo.ts:116-117 | `duplicates[n]` is the number of distinct faces occurring exactly `n` times |
| HandEvaluator.RankMatchesCategory | src/utils/monteCarlo.ts:113-129 | the computed `rank` equals the poker category of the cards: the chain fed the cards' own flush, straight and multiplicity facts |
| HandEvaluator.ByCountFirstMeaning | src/utils/monteCarlo.ts:136-143 | `byCountFirst` puts `a` first exactly when `a` is more frequent, or equally frequent with a code at most `b`'s |
| HandEvaluator.ValueIsTiebreakKey | src/utils/monteCarlo.ts:133-143 | `value` is a permutation of the hand's faces, in tiebreak order: more frequent faces first, then by descending rank |
| HandEvaluator.ValueUnique | src/utils/monteCarlo.ts:133-143 | every permutation of the faces in tiebreak order equals `value` |
| HandEvaluator.DetailsPermutationInvariant | src/utils/monteCarlo.ts:113-134 | two hands with the same multiset of cards get the same rank and value |
| HandEvaluator.CodesPermutation | src/utils/monteCarlo.ts:114-115 | permuting the cards permutes their face codes and suit codes |
| HandEvaluator.RemoveCard | src/utils/monteCarlo.ts:114-115 | removing one card removes exactly its face and its suit from the coded multisets |
| HandEvaluator.StrongerIrreflexive | src/utils/monteCarlo.ts:151-167 | no evaluation beats itself |
| HandEvaluator.Stronger | src/utils/monteCarlo.ts:154-166 | the decision of `compare` as a predicate, with no contract of its own. The four lemmas around it show it is a strict total order on evaluations |
| HandEvaluator.StrongerAsymmetric | src/utils/monteCarlo.ts:151-167 | two evaluations never beat each other |
| HandEvaluator.StrongerTransitive | src/utils/monteCarlo.ts:151-167 | beating is transitive |
| HandEvaluator.StrongerTotal | src/utils/monteCarlo.ts:154-161 | two evaluations are equal, or one of them beats the other |
| HandEvaluator.StrongerThanWeaker | src/utils/monteCarlo.ts:151-167 | a hand that beats the best so far beats every hand the best was not beaten by |
| HandEvaluator.Compare | src/utils/monteCarlo.ts:151-167 | `compare` returns one of its two hands, and neither of them is stronger than the one returned. It returns `h2` exactly when `h2` is strictly stronger, and otherwise `h1`, so `h1` wins an exact tie |
| HandEvaluator.CompareIdempotent | src/utils/monteCarlo.ts:151-167 | comparing the winner with the second hand again returns the same winner |
| HandEvaluator.Winner | src/utils/monteCarlo.ts:169-185 | the recorded outcome is a tie exactly when rank and value both agree |
| HandEvaluator.WinnerMatchesCompare | src/utils/monteCarlo.ts:151-185 | `compareHands` credits player 2 exactly when `compare` would pick the second hand, and credits player 1 only when it would pick the first |
| HandEvaluator.WinnerSwap | src/utils/monteCarlo.ts:169-185 | swapping the two hands swaps the two win outcomes and keeps a tie |
| HandEvaluator.WheelCategory | src/utils/monteCarlo.ts:118-129 | a 2-3-4-5-Ace hand is never a straight and holds no pair, so its category is 4 when it is a flush and 9 otherwise |
| HandEvaluator.DistinctFacesValue | src/utils/monteCarlo.ts:133-143 | with five distinct faces, `value` is the faces in ascending code order |
| HandEvaluator.WheelHand | src/utils/monteCarlo.ts:113-134 | every 2-3-4-5-Ace hand that is not a flush evaluates to rank 9 with value `AJKLM` (Ace, 5, 4, 3, 2) |
| HandEvaluator.WheelIsHighCard | src/utils/monteCarlo.ts:114-129 | `2c 3d 4h 5s Ac` is not a straight and evaluates to rank 9 with value `AJKLM` (Ace, 5, 4, 3, 2) |
| Lex.LexLess | src/utils/monteCarlo.ts:155-157 | JavaScript string `<` on the `value` strings, as a predicate on code sequences with no contract of its own. The four lemmas after it show it is a strict total order |
| Lex.LexIrreflexive | src/utils/monteCarlo.ts:155-157 | JavaScript string `<` is irreflexive on the code sequences |
| Lex.LexAsymmetric | src/utils/monteCarlo.ts:155-157 | string `<` is asymmetric |
| Lex.LexTransitive | src/utils/monteCarlo.ts:155-157 | string `<` is transitive |
| Lex.LexTotal | src/utils/monteCarlo.ts:155-161 | two different strings are ordered one way or the other |
| Tally.Bump | src/utils/monteCarlo.ts:145-148 | `count` adds one to the count of its key, leaves every other count alone, and adds the key to the key set |
| Tally.Get | src/utils/monteCarlo.ts:146 | the lookup `c[a]`, falling back to 0, with no contract of its own. `GetAbsent` states that a key never counted reads 0 |
| Tally.GetAbsent | src/utils/monteCarlo.ts:146 | a key absent from the counter reads as 0 |
| Tally.CountAll | src/utils/monteCarlo.ts:116-117 | `reduce(count, {})` as a left fold of `Bump`, with no contract of its own. `CountAllCounts` states its counts |
| Tally.Values | src/utils/monteCarlo.ts:117 | `Object.values` in key order, with no contract of its own. `ValuesCount` states how often each number occurs in it |
| Tally.CountAllCounts | src/utils/monteCarlo.ts:145-148 | `reduce(count, {})` holds each key's number of occurrences in the input, has exactly the input's elements as keys, and has no key twice |
| Tally.ValuesCount | src/utils/monteCarlo.ts:117 | a number occurs in `Object.values(counts)` once per key whose count it is |
| Sorting.SortMultiset | src/utils/monteCarlo.ts:114-115 | sorting returns a permutation of its input |
| Sorting.Cmp | src/utils/monteCarlo.ts:136-143 | both comparators return 0 exactly on equal codes. The default one is negative exactly when `a < b`. `byCountFirst` is negative exactly when `a` is more frequent, or equally frequent with a smaller code |
| Sorting.Insert | src/utils/monteCarlo.ts:114-115 | one insertion step of the sort adds one element |
| Sorting.InsertMultiset | src/utils/monteCarlo.ts:114-115 | insertion adds exactly the inserted element to the multiset |
| Sorting.InsertSorted | src/utils/monteCarlo.ts:114-115 | insertion into an ordered sequence keeps it ordered |
| Sorting.Sort | src/utils/monteCarlo.ts:114-115 | `Array.prototype.sort` keeps the length. `SortCharacterized` states it is exactly the ordered permutation |
| Sorting.SortSorted | src/utils/monteCarlo.ts:114-115 | the result is ordered by the comparator |
| Sorting.PrecedesTotalOrder | src/utils/monteCarlo.ts:136-143 | each comparator is reflexive, total, antisymmetric and transitive on codes, the consistency `Array.prototype.sort` needs |
| Sorting.SortedUnique | src/utils/monteCarlo.ts:136-143 | both comparators are total orders, so two sorted permutations of one multiset are equal, whatever the sorting algorithm |
| Sorting.SortCharacterized | src/utils/monteCarlo.ts:114-115 | `Sort(c, s) == v` holds exactly when `v` is ordered by `c` and is a permutation of `s` |
| Sorting.SortPermutationInvariant | src/utils/monteCarlo.ts:114-115 | the sort depends only on the multiset of the input |
| BestHand.StrongestOf | src/utils/monteCarlo.ts:55-63 | the fold of `compare` over the hands returns a valid hand |
| BestHand.FirstBestIndex | src/utils/monteCarlo.ts:55-63 | finds the first hand that no hand beats, and every hand before it is strictly weaker |
| BestHand.StrongestIsFirstMaximum | src/utils/monteCarlo.ts:52-70 | the fold of `compare` ends on the first hand whose evaluation no other hand beats |
| BestHand.SecondIterationKeeps | src/utils/monteCarlo.ts:57-60 | the second iteration compares the result with `hands[1]` again, which changes nothing |
| BestHand.FindBestHandFromCombination | src/utils/monteCarlo.ts:52-70 | no hands: the `throw` error. One hand: the missing-second-hand error. Two or more: the left fold of `compare` over all of them |
| Combinations.Choices | src/utils/monteCarlo.ts:33-46 | every choice has the requested length, increasing positions, and positions inside the range |
| Combinations.ChoicesCount | src/utils/monteCarlo.ts:30-50 | there are C(n, k) choices of `k` of `n` positions |
| Combinations.ChoicesEmpty | src/utils/monteCarlo.ts:30-50 | wanting more cards than remain, or a negative number, gives no choice at all |
| Combinations.ChoicesComplete | src/utils/monteCarlo.ts:33-46 | every increasing choice of `k` positions is found |
| Combinations.ChoicesOrdered | src/utils/monteCarlo.ts:41-45 | the choices come out in strictly increasing lexicographic order of positions |
| Combinations.ChoicesDistinct | src/utils/monteCarlo.ts:33-48 | no choice of positions appears twice |
| Combinations.CombosAreSelections | src/utils/monteCarlo.ts:33-46 | the cards pushed are the cards at the chosen positions, in that order |
| Combinations.Combos | src/utils/monteCarlo.ts:41-45 | what the `for` loop pushes, as a function with no contract of its own. `CombosAreSelections` equates it with the cards at the `Choices` positions |
| Combinations.SevenChooseFive | src/utils/monteCarlo.ts:87-94 | seven cards give 21 five-card hands |
| Combinations.BacktrackStep | src/utils/monteCarlo.ts:41-45 | taking `cards[i]` and then leaving it out together give every completion from position `i` on |
| Combinations.Backtrack | src/utils/monteCarlo.ts:33-46 | `backtrack` appends, in order, every completion of the current combination by cards from `startIndex` on |
| Combinations.GenerateCombinations | src/utils/monteCarlo.ts:30-50 | the result lists the cards at every increasing choice of `size` positions, in search order. For a non-negative `size` it has C(n, size) entries, where n is the number of cards. Every entry has `size` cards |
| Combinations.SelectionsFromCards | src/utils/monteCarlo.ts:30-50 | every card of every combination comes from `cards` |
| RandomCard.Suits | src/utils/generateRandomCard.ts:1 | the `suits` table `c d h s`, as a constant. `SuitCharacter` states which number picks which entry |
| RandomCard.Values | src/utils/generateRandomCard.ts:2 | the `values` table, Ace first and then Two to King, as a constant. `RankCharacter` states which number picks which entry |
| RandomCard.ConstructCardStringShort | src/utils/generateRandomCard.ts:11-16 | two characters: a rank character from `values`, then a suit character from `suits` |
| RandomCard.SuitCharacter | src/utils/generateRandomCard.ts:12 | suit 1 is `c`, 2 is `d`, 3 is `h`, 4 is `s` |
| RandomCard.RankCharacter | src/utils/generateRandomCard.ts:13 | rank 1 is `A`, 2..9 are the digits, 10 `T`, 11 `J`, 12 `Q`, 13 `K` |
| RandomCard.ConstructedCardIsValid | src/utils/generateRandomCard.ts:11-16 | every constructed card is valid `getHandDetails` input. Its face code is 65 for the Ace and `79 - rng` otherwise |
| RandomCard.NumbersOfConstructed | src/utils/generateRandomCard.ts:11-16 | reading the numbers back off a constructed card gives the numbers it was built from |
| RandomCard.ConstructedFromNumbers | src/utils/generateRandomCard.ts:11-16 | building a card from the numbers read off a card gives that card back |
| RandomCard.ConstructInjective | src/utils/generateRandomCard.ts:11-16 | different numbers give different cards |
| RandomCard.DeckDistinct | src/utils/generateRandomCard.ts:11-16 | the 52 number pairs give 52 different cards |
| RandomCard.DeckComplete | src/utils/generateRandomCard.ts:11-16 | a string is a constructed card exactly when it is in the 52-card deck |
| RandomCard.DeckCardIsCard | src/utils/generateRandomCard.ts:1-2 | every card built from the two tables is valid `getHandDetails` input |
| RandomCard.DeckCards | src/utils/generateRandomCard.ts:4-16 | draws taken from the deck meet the card precondition of the evaluator and of `run` |
| Simulation.PoolHasTwoHands | src/utils/monteCarlo.ts:87-99 | six or more cards give at least two five-card hands, so the fold in `run` never fails |
| Simulation.HandsOf | src/utils/monteCarlo.ts:87-94 | `generateCombinations(pool, 5)` gives C(n, 5) valid hands, where n is the size of the pool |
| Simulation.Pool | src/utils/monteCarlo.ts:87-94 | the spread `[...communityCards, ...playerCards]` holds only accepted cards, and at least six of them |
| Simulation.BestHandOf | src/utils/monteCarlo.ts:87-99 | the best hand of a pool is a valid five-card hand. `BestHandIsStrongest` states that nothing in the pool beats it |
| Simulation.BestHandIsStrongest | src/utils/monteCarlo.ts:87-99 | no five cards of the pool beat the best hand found |
| Simulation.Trials | src/utils/monteCarlo.ts:77 | the number of iterations of `for (let i = 0; i < simulations; i++)` as a function with no contract of its own: `n` for `n >= 0`, none for a negative `n`. `Run` and `TrialLoop` state that the counters add up to it |
| Simulation.Deal | src/utils/monteCarlo.ts:79-85 | the dealing loop stops with five cards, or when the draws run out |
| Simulation.Keep | src/utils/monteCarlo.ts:82-84 | the `includes` test as a function, with no contract of its own. `KeepFresh` states what it keeps |
| Simulation.KeepFresh | src/utils/monteCarlo.ts:82-84 | keeping a drawn card keeps the board distinct and free of hole cards, and adds no card but the one drawn |
| Simulation.Boards | src/utils/monteCarlo.ts:77-85 | the successive deals of the trial loop give at most `n` boards. `BoardsFresh` and `BoardsStep` state what they are |
| Simulation.DealSym | src/utils/monteCarlo.ts:80-85 | the dealing loop deals the same board when the players trade places |
| Simulation.BoardsSym | src/utils/monteCarlo.ts:77-85 | the same draws deal the same boards when the players trade places |
| Simulation.DealFresh | src/utils/monteCarlo.ts:80-85 | a dealt board has distinct cards, none of them a hole card, and each of them drawn |
| Simulation.BoardsFresh | src/utils/monteCarlo.ts:77-85 | every trial's community cards are five distinct accepted cards that neither player holds |
| Simulation.DealCommunityCards | src/utils/monteCarlo.ts:79-85 | the `while` loop builds exactly the board `Deal` describes, and consumes exactly the draws it counts |
| Simulation.BestFromPool | src/utils/monteCarlo.ts:87-99 | the best hand `run` computes for one player is the fold's result over all five-card hands of the pool |
| Simulation.TalliesSum | src/utils/monteCarlo.ts:169-185 | every trial bumps exactly one counter, so the three counts add up to the number of trials |
| Simulation.TrialSwap | src/utils/monteCarlo.ts:87-105 | exchanging the hole cards exchanges the winner of a trial |
| Simulation.TrialOutcome | src/utils/monteCarlo.ts:87-105 | identical hole cards give a tie. `TrialSwap` and `TrialByBestHands` relate it to the hole cards and the best hands |
| Simulation.SwappedTallies | src/utils/monteCarlo.ts:87-105 | on one fixed list of boards, exchanging the hole cards exchanges the two win counts and keeps the ties |
| Simulation.RunSwapped | src/utils/monteCarlo.ts:73-106 | `run` with the hole cards exchanged, over the same draws, deals the same boards and exchanges the two win counts, keeping the ties |
| Simulation.SameHoleCardsTie | src/utils/monteCarlo.ts:73-106 | two players with the same hole cards tie every trial |
| Simulation.Simulator.constructor | src/utils/monteCarlo.ts:4-7 | the counters start at `simulations = 10000` and zero wins and ties |
| Simulation.Simulator.Reset | src/utils/monteCarlo.ts:12-16 | `reset` zeroes both win counters and the ties, and leaves `simulations` alone |
| Simulation.Simulator.CompareHands | src/utils/monteCarlo.ts:169-185 | `compareHands` bumps exactly the counter of the winner, `ties` only on equal rank and value, and leaves `simulations` alone |
| Simulation.Simulator.PlayTrial | src/utils/monteCarlo.ts:87-105 | one trial after the deal moves the counters from the tallies of the first `i` outcomes to those of the first `i + 1` |
| Simulation.Simulator.RecordTrial | src/utils/monteCarlo.ts:105 | `compareHands` on trial `i`'s best hands advances the tallies by that trial's outcome |
| Simulation.Simulator.Round | src/utils/monteCarlo.ts:77-106 | one pass of the trial loop. A short deal means no boards are left and the counters stay the same. A full deal is the next board, and its trial is tallied |
| Simulation.Simulator.TrialLoop | src/utils/monteCarlo.ts:77-106 | from zeroed counters, the loop plays every dealt board. The counters end up as the tallies of their outcomes, which add up to `n` when all `n` trials were dealt |
| Simulation.Simulator.Run | src/utils/monteCarlo.ts:73-106 | after `run` with `n` trials, `simulations == n` and every board is five fresh cards. Each counter is the number of trials with that outcome, and the three add up to `n` when all trials were dealt |

## Left out

- `formatWinRates` (src/utils/monteCarlo.ts:18-28) is left out. It needs floating-point division and `toFixed` string formatting.
- The `Promise` wrapper of `run` and its `resolve` and `reject` calls are left out. `run` is a plain method. The `reject` branch cannot be taken because arrays are always truthy.
- `generateRandomCardShort` and `Math.random` are replaced by an input: the sequence of cards those calls would produce. A finite list can run out, and then the model stops and `Run` returns `false`. This case corresponds to the source in two ways. If the hole cards leave at least five deck cards free, the source's dealing loop ends with probability 1, and a run that stops early only reflects a list that was too short. If the two hole arrays together hold 48 or more distinct deck cards, fewer than five eligible cards remain. The source's `while (communityCards.length < 5)` loop then never ends. The model's `false` is the counterpart of that divergence.
- Simulation.Simulator.Run: a non-integer `n` is not modelled, because `n` is an `int`. A negative `n` gives zero trials, as the loop bound does in the source.
- Malformed cards are excluded by preconditions. These are a rank character outside `order` (`indexOf` returning -1), strings that are not two characters, a suit character outside the Basic Multilingual Plane (two UTF-16 code units in JavaScript, so such a card is not two characters there), and hands that are not exactly five cards.
- Simulation.Simulator.Run: each player must hold at least one hole card, so that every pool offers at least two hands. The source takes any arrays. With no hole cards it would fail at `hands[1]`.
- The sorting algorithm of `Array.prototype.sort` is modelled as insertion sort. Both comparators are total orders, so every correct sort returns the same array (`Sorting.SortedUnique`).
- `value` is a sequence of codes compared lexicographically, not a JavaScript string. `join('')` and string `<` on five-character strings are the same order.
- The `currentCombination` array that `backtrack` shares, pushes and pops is passed as a value. Aliasing between the pushed copy and the shared buffer is therefore not modelled. The result is the same, because each push copies the array.
- RandomCard.ConstructCardStringShort: numbers outside 1..13 and 1..4 are excluded by its precondition. With `rng` outside 1..13 the source would build a string starting with `undefined`.
