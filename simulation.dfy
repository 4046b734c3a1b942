/** The trial loop of `run` in src/utils/monteCarlo.ts, with `reset` and `compareHands`: the module
    counters `simulations`, `player1Wins`, `player2Wins` and `ties` become the fields of a
    Simulator object. Each trial deals five community cards by rejection (a drawn card is kept
    only when it is new and in neither player's hole cards), picks each player's best five-card
    hand out of the community and hole cards, and bumps one counter for the winner. The random
    card draws are an input: the sequence of cards `generateRandomCardShort` would return. */
module Simulation {
  import opened Lex
  import opened HandEvaluator
  import opened Combinations
  import opened BestHand

  // ---------------------------------------------------------------------------------------------
  // The best hand out of a pool of cards.

  lemma {:induction false} BinomialPositive(n: nat, k: nat)
    requires k <= n
    ensures Binomial(n, k) >= 1
  {
    if k != 0 {
      BinomialPositive(n - 1, k - 1);
    }
  }

  /** Six or more cards offer at least two hands of five, so the best-hand fold never reads past
      the end of its list. */
  lemma PoolHasTwoHands(n: nat)
    requires n >= 6
    ensures Binomial(n, 5) >= 2
  {
    BinomialPositive(n - 1, 4);
    BinomialPositive(n - 1, 5);
  }

  /** `generateCombinations(pool, 5)`: every hand of five cards out of the pool. */
  function HandsOf(pool: seq<string>): (hands: seq<seq<string>>)
    requires AllCards(pool)
    ensures |hands| == Binomial(|pool|, 5) && AllHands(hands)
  {
    ChoicesCount(0, |pool|, 5);
    SelectionsFromCards(pool, 5);
    var hands := SelectAll(pool, Choices(0, |pool|, 5));
    assert forall i :: 0 <= i < |hands| ==> AllCards(hands[i]) by {
      forall i, k | 0 <= i < |hands| && 0 <= k < |hands[i]| ensures IsCard(hands[i][k]) {
        assert hands[i][k] in hands[i];
      }
    }
    hands
  }

  /** `findBestHandFromCombination(generateCombinations(pool, 5))`. */
  function BestHandOf(pool: seq<string>): (best: seq<string>)
    requires AllCards(pool) && |pool| >= 6
    ensures IsHand(best)
  {
    PoolHasTwoHands(|pool|);
    StrongestOf(HandsOf(pool), |HandsOf(pool)|)
  }

  /** No five cards of the pool make a stronger hand than the one `BestHandOf` picks. */
  lemma BestHandIsStrongest(pool: seq<string>, ix: seq<int>)
    requires AllCards(pool) && |pool| >= 6
    requires |ix| == 5 && Increasing(ix) && InRange(ix, 0, |pool|)
    ensures !Stronger(GetHandDetails(Select(pool, ix)), GetHandDetails(BestHandOf(pool)))
  {
    var hands := HandsOf(pool);
    PoolHasTwoHands(|pool|);
    ChoicesComplete(0, |pool|, 5, ix);
    var i :| 0 <= i < |Choices(0, |pool|, 5)| && Choices(0, |pool|, 5)[i] == ix;
    assert hands[i] == Select(pool, ix);
    StrongestIsFirstMaximum(hands, |hands|);
    var ds := DetailsOf(hands);
    var k := FirstBestIndex(ds, |hands|);
    assert ds[i] == GetHandDetails(hands[i]) && ds[k] == GetHandDetails(hands[k]);
  }

  // ---------------------------------------------------------------------------------------------
  // Trials and their outcomes.

  predicate IsBoard(board: seq<string>)
  {
    |board| == 5 && AllCards(board)
  }

  predicate AllBoards(boards: seq<seq<string>>)
  {
    forall i :: 0 <= i < |boards| ==> IsBoard(boards[i])
  }

  /** Both players have hole cards the evaluator accepts, at least one each. */
  predicate ValidHoleCards(p1: seq<string>, p2: seq<string>)
  {
    AllCards(p1) && AllCards(p2) && |p1| >= 1 && |p2| >= 1
  }

  /** The pool a player picks from: the community cards, then the hole cards. */
  function Pool(board: seq<string>, hole: seq<string>): (pool: seq<string>)
    requires IsBoard(board) && AllCards(hole) && |hole| >= 1
    ensures AllCards(pool) && |pool| >= 6
  {
    var pool := board + hole;
    assert forall k :: 0 <= k < |pool| ==> pool[k] == if k < 5 then board[k] else hole[k - 5];
    pool
  }

  /** The counter one trial bumps. */
  function TrialOutcome(board: seq<string>, p1: seq<string>, p2: seq<string>): (o: Outcome)
    requires IsBoard(board) && ValidHoleCards(p1, p2)
    ensures p1 == p2 ==> o == Tie
  {
    Winner(GetHandDetails(BestHandOf(Pool(board, p1))), GetHandDetails(BestHandOf(Pool(board, p2))))
  }

  /** The outcomes of a run of trials, in order. */
  function Outcomes(boards: seq<seq<string>>, p1: seq<string>, p2: seq<string>): (os: seq<Outcome>)
    requires AllBoards(boards) && ValidHoleCards(p1, p2)
    ensures |os| == |boards|
  {
    seq(|boards|, k requires 0 <= k < |boards| => TrialOutcome(boards[k], p1, p2))
  }

  /** `os` lists the outcomes of the trials on `boards`, one by one. */
  predicate OutcomesOf(os: seq<Outcome>, boards: seq<seq<string>>, p1: seq<string>, p2: seq<string>)
    requires AllBoards(boards) && ValidHoleCards(p1, p2)
  {
    |os| == |boards| && forall k :: 0 <= k < |boards| ==> os[k] == TrialOutcome(boards[k], p1, p2)
  }

  /** `Outcomes` lists the outcomes of the trials one by one. */
  lemma OutcomesListed(boards: seq<seq<string>>, p1: seq<string>, p2: seq<string>)
    requires AllBoards(boards) && ValidHoleCards(p1, p2)
    ensures OutcomesOf(Outcomes(boards, p1, p2), boards, p1, p2)
  {
  }

  /** The first element and the rest make up the multiset. */
  lemma MultisetCons<T>(s: seq<T>)
    requires s != []
    ensures multiset(s) == multiset{s[0]} + multiset(s[1..])
  {
    assert s == [s[0]] + s[1..];
  }

  /** Every outcome bumps exactly one of the three counters. */
  lemma {:induction false} TalliesSum(os: seq<Outcome>)
    ensures multiset(os)[Player1Wins] + multiset(os)[Player2Wins] + multiset(os)[Tie] == |os|
  {
    if os != [] {
      TalliesSum(os[1..]);
      MultisetCons(os);
      assert os[0] == Player1Wins || os[0] == Player2Wins || os[0] == Tie;
    }
  }

  function SwapOutcome(o: Outcome): Outcome
  {
    match o
    case Player1Wins => Player2Wins
    case Player2Wins => Player1Wins
    case Tie => Tie
  }

  /** Exchanging the hole cards exchanges the winner of a trial. */
  lemma TrialSwap(board: seq<string>, p1: seq<string>, p2: seq<string>)
    requires IsBoard(board) && ValidHoleCards(p1, p2)
    ensures TrialOutcome(board, p2, p1) == SwapOutcome(TrialOutcome(board, p1, p2))
  {
    WinnerSwap(GetHandDetails(BestHandOf(Pool(board, p1))), GetHandDetails(BestHandOf(Pool(board, p2))));
  }

  /** Outcomes swapped one by one have their win counts swapped. */
  lemma {:induction false} SwapCounts(os: seq<Outcome>, ss: seq<Outcome>)
    requires |os| == |ss| && forall i :: 0 <= i < |os| ==> ss[i] == SwapOutcome(os[i])
    ensures multiset(ss)[Player1Wins] == multiset(os)[Player2Wins]
    ensures multiset(ss)[Player2Wins] == multiset(os)[Player1Wins]
    ensures multiset(ss)[Tie] == multiset(os)[Tie]
  {
    if os != [] {
      SwapCounts(os[1..], ss[1..]);
      MultisetCons(os);
      MultisetCons(ss);
      match os[0]
      case Player1Wins => assert ss[0] == Player2Wins;
      case Player2Wins => assert ss[0] == Player1Wins;
      case Tie => assert ss[0] == Tie;
    }
  }

  /** Exchanging the hole cards exchanges the two win counts and keeps the ties. */
  lemma SwappedTallies(boards: seq<seq<string>>, p1: seq<string>, p2: seq<string>)
    requires AllBoards(boards) && ValidHoleCards(p1, p2)
    ensures multiset(Outcomes(boards, p2, p1))[Player1Wins] == multiset(Outcomes(boards, p1, p2))[Player2Wins]
    ensures multiset(Outcomes(boards, p2, p1))[Player2Wins] == multiset(Outcomes(boards, p1, p2))[Player1Wins]
    ensures multiset(Outcomes(boards, p2, p1))[Tie] == multiset(Outcomes(boards, p1, p2))[Tie]
  {
    var os, ss := Outcomes(boards, p1, p2), Outcomes(boards, p2, p1);
    forall i | 0 <= i < |boards| ensures ss[i] == SwapOutcome(os[i]) {
      TrialSwap(boards[i], p1, p2);
    }
    SwapCounts(os, ss);
  }

  /** `run` with the hole cards exchanged, over the same draws, deals the same boards and
      exchanges the two win counts, keeping the ties. */
  lemma RunSwapped(draws: seq<string>, p1: seq<string>, p2: seq<string>, n: nat)
    requires AllCards(draws) && ValidHoleCards(p1, p2)
    ensures AllBoards(Boards(draws, p1, p2, n)) && Boards(draws, p2, p1, n) == Boards(draws, p1, p2, n)
    ensures var boards := Boards(draws, p1, p2, n);
            multiset(Outcomes(boards, p2, p1))[Player1Wins] == multiset(Outcomes(boards, p1, p2))[Player2Wins] &&
            multiset(Outcomes(boards, p2, p1))[Player2Wins] == multiset(Outcomes(boards, p1, p2))[Player1Wins] &&
            multiset(Outcomes(boards, p2, p1))[Tie] == multiset(Outcomes(boards, p1, p2))[Tie]
  {
    BoardsFresh(draws, p1, p2, n);
    BoardsSym(draws, p1, p2, n);
    SwappedTallies(Boards(draws, p1, p2, n), p1, p2);
  }

  /** Two players holding the same hole cards always tie. */
  lemma SameHoleCardsTie(boards: seq<seq<string>>, p: seq<string>)
    requires AllBoards(boards) && ValidHoleCards(p, p)
    ensures multiset(Outcomes(boards, p, p))[Tie] == |boards|
  {
    assert forall i :: 0 <= i < |boards| ==> Outcomes(boards, p, p)[i] == Tie;
    UniformCount(Outcomes(boards, p, p), Tie);
  }

  /** A sequence of one outcome counts that outcome at every position. */
  lemma {:induction false} UniformCount(os: seq<Outcome>, o: Outcome)
    requires forall i :: 0 <= i < |os| ==> os[i] == o
    ensures multiset(os)[o] == |os|
  {
    if os != [] {
      UniformCount(os[1..], o);
      assert os == [os[0]] + os[1..];
      assert multiset(os) == multiset{os[0]} + multiset(os[1..]);
    }
  }

  // ---------------------------------------------------------------------------------------------
  // Dealing the community cards.

  /** `!communityCards.includes(card) && !player1Cards.includes(card) && !player2Cards.includes(card)`. */
  function Keep(board: seq<string>, card: string, p1: seq<string>, p2: seq<string>): seq<string>
  {
    if card !in board && card !in p1 && card !in p2 then board + [card] else board
  }

  /** Keeping a card keeps the board fresh, and adds no card but the one drawn. */
  lemma KeepFresh(board: seq<string>, card: string, p1: seq<string>, p2: seq<string>)
    requires Fresh(board, p1, p2)
    ensures Fresh(Keep(board, card, p1, p2), p1, p2)
    ensures forall c :: c in Keep(board, card, p1, p2) ==> c in board || c == card
  {
  }

  /** The dealing loop from a partial board: draws cards until the board holds five. The result
      is the board and how many draws were used; the draws may run out first. */
  function Deal(draws: seq<string>, p1: seq<string>, p2: seq<string>, board: seq<string>): (r: (seq<string>, nat))
    requires |board| <= 5
    ensures |r.0| <= 5 && r.1 <= |draws| && (|r.0| == 5 || r.1 == |draws|)
    decreases |draws|
  {
    if |board| == 5 || draws == [] then (board, 0)
    else
      var r := Deal(draws[1..], p1, p2, Keep(board, draws[0], p1, p2));
      (r.0, r.1 + 1)
  }

  /** Distinct cards, none of them a hole card. */
  predicate Fresh(board: seq<string>, p1: seq<string>, p2: seq<string>)
  {
    (forall i, j :: 0 <= i < j < |board| ==> board[i] != board[j]) &&
    (forall i :: 0 <= i < |board| ==> board[i] !in p1 && board[i] !in p2)
  }

  /** A dealt board has distinct cards, none held by either player, all of them drawn. */
  lemma {:induction false} DealFresh(draws: seq<string>, p1: seq<string>, p2: seq<string>, board: seq<string>)
    requires |board| <= 5 && Fresh(board, p1, p2)
    ensures Fresh(Deal(draws, p1, p2, board).0, p1, p2)
    ensures forall c :: c in Deal(draws, p1, p2, board).0 ==> c in board || c in draws
    decreases |draws|
  {
    if |board| < 5 && draws != [] {
      var next := Keep(board, draws[0], p1, p2);
      KeepFresh(board, draws[0], p1, p2);
      DealFresh(draws[1..], p1, p2, next);
      assert forall c :: c in draws[1..] ==> c in draws;
    }
  }

  /** The boards of up to `n` trials, each dealt from the draws the previous ones left; the run
      of boards stops early when the draws run out. */
  function Boards(draws: seq<string>, p1: seq<string>, p2: seq<string>, n: nat): (boards: seq<seq<string>>)
    ensures |boards| <= n
    decreases n
  {
    if n == 0 then []
    else
      var r := Deal(draws, p1, p2, []);
      if |r.0| < 5 then [] else [r.0] + Boards(draws[r.1..], p1, p2, n - 1)
  }

  /** Boards of five cards the evaluator accepts, each of them `Fresh`. */
  predicate FreshBoards(boards: seq<seq<string>>, p1: seq<string>, p2: seq<string>)
  {
    forall i :: 0 <= i < |boards| ==> IsBoard(boards[i]) && Fresh(boards[i], p1, p2)
  }

  lemma FreshBoardsCons(board: seq<string>, rest: seq<seq<string>>, p1: seq<string>, p2: seq<string>)
    requires IsBoard(board) && Fresh(board, p1, p2) && FreshBoards(rest, p1, p2)
    ensures FreshBoards([board] + rest, p1, p2)
  {
    var bs := [board] + rest;
    assert forall i :: 1 <= i < |bs| ==> bs[i] == rest[i - 1];
  }

  /** The cards left after a deal, and the cards it dealt, are cards the evaluator accepts. */
  lemma DealtCards(draws: seq<string>, p1: seq<string>, p2: seq<string>)
    requires AllCards(draws)
    ensures AllCards(draws[Deal(draws, p1, p2, []).1..])
    ensures AllCards(Deal(draws, p1, p2, []).0)
  {
    var r := Deal(draws, p1, p2, []);
    DealFresh(draws, p1, p2, []);
    var rest := draws[r.1..];
    assert forall k :: 0 <= k < |rest| ==> rest[k] == draws[r.1 + k];
    forall k | 0 <= k < |r.0| ensures IsCard(r.0[k]) {
      assert r.0[k] in r.0;
    }
  }

  /** The dealing loop tests both hole hands alike, so it deals the same board when the players
      trade places. */
  lemma {:induction false} DealSym(draws: seq<string>, p1: seq<string>, p2: seq<string>, board: seq<string>)
    requires |board| <= 5
    ensures Deal(draws, p1, p2, board) == Deal(draws, p2, p1, board)
    decreases |draws|
  {
    if |board| < 5 && draws != [] {
      assert Keep(board, draws[0], p1, p2) == Keep(board, draws[0], p2, p1);
      DealSym(draws[1..], p1, p2, Keep(board, draws[0], p1, p2));
    }
  }

  /** The same draws deal the same boards when the players trade places. */
  lemma {:induction false} BoardsSym(draws: seq<string>, p1: seq<string>, p2: seq<string>, n: nat)
    ensures Boards(draws, p1, p2, n) == Boards(draws, p2, p1, n)
    decreases n
  {
    if n > 0 {
      DealSym(draws, p1, p2, []);
      var r := Deal(draws, p1, p2, []);
      BoardsSym(draws[r.1..], p1, p2, n - 1);
    }
  }

  /** Every dealt board is five distinct cards, none in either player's hand. */
  lemma {:induction false} BoardsFresh(draws: seq<string>, p1: seq<string>, p2: seq<string>, n: nat)
    requires AllCards(draws)
    ensures FreshBoards(Boards(draws, p1, p2, n), p1, p2)
    decreases n
  {
    if n > 0 {
      var r := Deal(draws, p1, p2, []);
      if |r.0| == 5 {
        DealFresh(draws, p1, p2, []);
        DealtCards(draws, p1, p2);
        BoardsFresh(draws[r.1..], p1, p2, n - 1);
        FreshBoardsCons(r.0, Boards(draws[r.1..], p1, p2, n - 1), p1, p2);
      }
    }
  }

  /** `communityCards` after the `while (communityCards.length < 5)` loop, reading the draws from
      `start` on; `next` is the first draw not used. */
  method DealCommunityCards(draws: seq<string>, start: nat, p1: seq<string>, p2: seq<string>)
    returns (community: seq<string>, next: nat)
    requires start <= |draws|
    ensures start <= next <= |draws|
    ensures (community, next - start) == Deal(draws[start..], p1, p2, [])
  {
    ghost var dealt := Deal(draws[start..], p1, p2, []);
    community := [];
    next := start;
    while |community| < 5 && next < |draws|
      invariant start <= next <= |draws| && |community| <= 5
      invariant Deal(draws[next..], p1, p2, community).0 == dealt.0
      invariant Deal(draws[next..], p1, p2, community).1 + (next - start) == dealt.1
      decreases |draws| - next
    {
      var card := draws[next];
      DealUnfold(draws, next, p1, p2, community);
      if card !in community && card !in p1 && card !in p2 {
        community := community + [card];
      }
      next := next + 1;
    }
  }

  /** One step of the dealing loop: the draw at `next` goes through `Keep` and the deal goes on
      from the draw after it. */
  lemma DealUnfold(draws: seq<string>, next: nat, p1: seq<string>, p2: seq<string>, board: seq<string>)
    requires next < |draws| && |board| < 5
    ensures Deal(draws[next..], p1, p2, board).0 == Deal(draws[next + 1..], p1, p2, Keep(board, draws[next], p1, p2)).0
    ensures Deal(draws[next..], p1, p2, board).1 == Deal(draws[next + 1..], p1, p2, Keep(board, draws[next], p1, p2)).1 + 1
  {
    assert draws[next..][1..] == draws[next + 1..];
  }

  /** Counting one more outcome of `os` adds one to the count of that outcome only. */
  lemma PrefixTally(os: seq<Outcome>, i: nat)
    requires i < |os|
    ensures forall o :: multiset(os[..i + 1])[o] == multiset(os[..i])[o] + (if os[i] == o then 1 else 0)
  {
    assert os[..i + 1] == os[..i] + [os[i]];
  }

  /** The prefix of a sequence as long as the sequence is the whole of it. */
  lemma WholePrefix<T>(s: seq<T>, i: nat)
    requires i == |s|
    ensures s[..i] == s
  {
  }

  /** Tallies of a prefix as long as the whole sequence are the tallies of the sequence. */
  lemma AllTallied(os: seq<Outcome>, i: nat, w1: nat, w2: nat, t: nat)
    requires i == |os| && w1 == multiset(os[..i])[Player1Wins] && w2 == multiset(os[..i])[Player2Wins]
    requires t == multiset(os[..i])[Tie]
    ensures w1 == multiset(os)[Player1Wins] && w2 == multiset(os)[Player2Wins] && t == multiset(os)[Tie]
    ensures w1 + w2 + t == |os|
  {
    WholePrefix(os, i);
    TalliesSum(os);
  }

  /** Moving the next element of `all` from the remainder to the prefix. */
  lemma Advance<T>(done: seq<T>, x: T, todo: seq<T>, rest: seq<T>, all: seq<T>)
    requires done + todo == all && todo == [x] + rest
    ensures (done + [x]) + rest == all && all[|done|] == x
  {
    assert (done + [x]) + rest == done + ([x] + rest);
  }

  /** The number of iterations of `for (let i = 0; i < simulations; i++)`. */
  function Trials(n: int): nat
  {
    if n < 0 then 0 else n
  }

  /** `findBestHandFromCombination(generateCombinations(pool, 5))`, as `run` computes it for one
      player; with six or more cards there are at least two hands, so no error is raised. */
  method BestFromPool(pool: seq<string>) returns (best: seq<string>)
    requires AllCards(pool) && |pool| >= 6
    ensures best == BestHandOf(pool)
  {
    PoolHasTwoHands(|pool|);
    var combinations := GenerateCombinations(pool, 5);
    var r := FindBestHandFromCombination(combinations);
    best := r.value;
  }

  /** The outcome of a trial is decided by the two players' best hands. */
  lemma TrialByBestHands(board: seq<string>, p1: seq<string>, p2: seq<string>, h1: seq<string>, h2: seq<string>)
    requires IsBoard(board) && ValidHoleCards(p1, p2)
    requires h1 == BestHandOf(Pool(board, p1)) && h2 == BestHandOf(Pool(board, p2))
    ensures IsHand(h1) && IsHand(h2)
    ensures TrialOutcome(board, p1, p2) == Winner(GetHandDetails(h1), GetHandDetails(h2))
  {
  }

  /** One trial's deal seen from the run of boards: a full board is the next board, and a board
      cut short by the end of the draws ends the run. */
  lemma BoardsStep(draws: seq<string>, pos: nat, p1: seq<string>, p2: seq<string>, remaining: nat,
                   community: seq<string>, next: nat)
    requires pos <= next <= |draws| && remaining >= 1
    requires (community, next - pos) == Deal(draws[pos..], p1, p2, [])
    ensures |community| < 5 ==> Boards(draws[pos..], p1, p2, remaining) == []
    ensures |community| == 5 ==>
              Boards(draws[pos..], p1, p2, remaining) == [community] + Boards(draws[next..], p1, p2, remaining - 1)
  {
    assert draws[pos..][next - pos..] == draws[next..];
  }

  /** One deal of the trial loop against the boards still to come: a short deal means there are
      none, a full one is the next board, and the boards after it follow from `next` on. */
  lemma DealStep(draws: seq<string>, pos: nat, p1: seq<string>, p2: seq<string>, remaining: nat, left: nat,
                 played: seq<seq<string>>, all: seq<seq<string>>, community: seq<string>, next: nat)
    requires pos <= next <= |draws| && remaining == left + 1
    requires (community, next - pos) == Deal(draws[pos..], p1, p2, [])
    requires played + Boards(draws[pos..], p1, p2, remaining) == all
    ensures |community| < 5 ==> played == all
    ensures |community| == 5 ==>
              (played + [community]) + Boards(draws[next..], p1, p2, left) == all &&
              |played| < |all| && all[|played|] == community
  {
    BoardsStep(draws, pos, p1, p2, remaining, community, next);
    if |community| < 5 {
      assert played + [] == played;
    } else {
      Advance(played, community, Boards(draws[pos..], p1, p2, remaining),
              Boards(draws[next..], p1, p2, remaining - 1), all);
    }
  }

  // ---------------------------------------------------------------------------------------------
  // The counters.

  class Simulator {
    var simulations: int
    var player1Wins: nat
    var player2Wins: nat
    var ties: nat

    /** The initial values of the module counters. */
    constructor ()
      ensures simulations == 10000 && player1Wins == 0 && player2Wins == 0 && ties == 0
    {
      simulations := 10000;
      player1Wins := 0;
      player2Wins := 0;
      ties := 0;
    }

    /** `reset()`. */
    method Reset()
      modifies this
      ensures player1Wins == 0 && player2Wins == 0 && ties == 0
      ensures simulations == old(simulations)
    {
      player1Wins := 0;
      player2Wins := 0;
      ties := 0;
    }

    /** `compareHands(h1, h2)`: bumps exactly the counter of the `Winner`, which is `ties` only when
        both rank and value agree. */
    method CompareHands(h1: seq<string>, h2: seq<string>)
      requires IsHand(h1) && IsHand(h2)
      modifies this
      ensures simulations == old(simulations)
      ensures var o := Winner(GetHandDetails(h1), GetHandDetails(h2));
              player1Wins == old(player1Wins) + (if o == Player1Wins then 1 else 0) &&
              player2Wins == old(player2Wins) + (if o == Player2Wins then 1 else 0) &&
              ties == old(ties) + (if o == Tie then 1 else 0)
    {
      var d1 := GetHandDetails(h1);
      var d2 := GetHandDetails(h2);
      if d1.rank == d2.rank {
        if LexLess(d1.value, d2.value) {
          player1Wins := player1Wins + 1;
        } else if LexLess(d2.value, d1.value) {
          player2Wins := player2Wins + 1;
        } else {
          ties := ties + 1;
        }
      } else if d1.rank < d2.rank {
        player1Wins := player1Wins + 1;
      } else {
        player2Wins := player2Wins + 1;
      }
    }

    /** One pass of the trial loop after the deal: each player's best hand, then
        `compareHands(player1StrongestHand, player2StrongestHand)`. When the counters hold the
        tallies of the first `i` outcomes of `os` and outcome `i` is this trial's, they hold the
        tallies of the first `i + 1` afterwards. */
    method PlayTrial(ghost os: seq<Outcome>, ghost i: nat,
                     communityCards: seq<string>, player1Cards: seq<string>, player2Cards: seq<string>)
      requires IsBoard(communityCards) && ValidHoleCards(player1Cards, player2Cards)
      requires i < |os| && os[i] == TrialOutcome(communityCards, player1Cards, player2Cards)
      requires player1Wins == multiset(os[..i])[Player1Wins]
      requires player2Wins == multiset(os[..i])[Player2Wins]
      requires ties == multiset(os[..i])[Tie]
      modifies this
      ensures simulations == old(simulations)
      ensures player1Wins == multiset(os[..i + 1])[Player1Wins]
      ensures player2Wins == multiset(os[..i + 1])[Player2Wins]
      ensures ties == multiset(os[..i + 1])[Tie]
    {
      var player1StrongestHand := BestFromPool(Pool(communityCards, player1Cards));
      var player2StrongestHand := BestFromPool(Pool(communityCards, player2Cards));
      TrialByBestHands(communityCards, player1Cards, player2Cards, player1StrongestHand, player2StrongestHand);
      RecordTrial(os, i, player1StrongestHand, player2StrongestHand);
    }

    /** `compareHands(h1, h2)` on the hands of trial `i`: the counters move from the tallies of
        the first `i` outcomes of `os` to those of the first `i + 1`. */
    method RecordTrial(ghost os: seq<Outcome>, ghost i: nat, h1: seq<string>, h2: seq<string>)
      requires IsHand(h1) && IsHand(h2)
      requires i < |os| && os[i] == Winner(GetHandDetails(h1), GetHandDetails(h2))
      requires player1Wins == multiset(os[..i])[Player1Wins]
      requires player2Wins == multiset(os[..i])[Player2Wins]
      requires ties == multiset(os[..i])[Tie]
      modifies this
      ensures simulations == old(simulations)
      ensures player1Wins == multiset(os[..i + 1])[Player1Wins]
      ensures player2Wins == multiset(os[..i + 1])[Player2Wins]
      ensures ties == multiset(os[..i + 1])[Tie]
    {
      PrefixTally(os, i);
      CompareHands(h1, h2);
    }

    /** One pass of the trial loop: the deal from `pos` on, then, when it completes a board,
        the trial on it. `played` are the boards of the earlier passes, and the boards still to
        come are dealt from `pos` on; a short deal means there are none. */
    method Round(ghost all: seq<seq<string>>, ghost os: seq<Outcome>, ghost played: seq<seq<string>>,
                 ghost remaining: nat, i: nat, pos: nat,
                 player1Cards: seq<string>, player2Cards: seq<string>, draws: seq<string>)
      returns (dealt: bool, next: nat, ghost played': seq<seq<string>>, ghost remaining': nat)
      requires AllBoards(all) && ValidHoleCards(player1Cards, player2Cards)
      requires OutcomesOf(os, all, player1Cards, player2Cards)
      requires pos <= |draws| && remaining >= 1 && |played| == i
      requires played + Boards(draws[pos..], player1Cards, player2Cards, remaining) == all
      requires player1Wins == multiset(os[..i])[Player1Wins]
      requires player2Wins == multiset(os[..i])[Player2Wins]
      requires ties == multiset(os[..i])[Tie]
      modifies this
      ensures simulations == old(simulations)
      ensures !dealt ==> played == all && player1Wins == old(player1Wins) &&
                         player2Wins == old(player2Wins) && ties == old(ties)
      ensures dealt ==> next <= |draws| && remaining' == remaining - 1 && |played'| == i + 1 &&
                        played' + Boards(draws[next..], player1Cards, player2Cards, remaining') == all
      ensures dealt ==> player1Wins == multiset(os[..i + 1])[Player1Wins] &&
                        player2Wins == multiset(os[..i + 1])[Player2Wins] &&
                        ties == multiset(os[..i + 1])[Tie]
    {
      var communityCards;
      communityCards, next := DealCommunityCards(draws, pos, player1Cards, player2Cards);
      remaining' := remaining - 1;
      DealStep(draws, pos, player1Cards, player2Cards, remaining, remaining', played, all, communityCards, next);
      played' := played;
      if |communityCards| < 5 {
        return false, next, played', remaining';
      }
      played' := played + [communityCards];
      PlayTrial(os, i, communityCards, player1Cards, player2Cards);
      dealt := true;
    }

    /** The trial loop of `run(player1Cards, player2Cards, n)` over the given card draws, from
        reset counters on. It reports whether all `n` trials were dealt before the draws ran out;
        the counters end up holding the tallies of the outcomes `os` of the boards dealt. */
    method TrialLoop(ghost all: seq<seq<string>>, ghost os: seq<Outcome>,
                     player1Cards: seq<string>, player2Cards: seq<string>, n: int, draws: seq<string>)
      returns (completed: bool)
      requires AllBoards(all) && ValidHoleCards(player1Cards, player2Cards)
      requires all == Boards(draws, player1Cards, player2Cards, Trials(n))
      requires OutcomesOf(os, all, player1Cards, player2Cards)
      requires simulations == n && player1Wins == 0 && player2Wins == 0 && ties == 0
      modifies this
      ensures simulations == n
      ensures completed <==> |all| == Trials(n)
      ensures player1Wins == multiset(os)[Player1Wins] && player2Wins == multiset(os)[Player2Wins]
      ensures ties == multiset(os)[Tie]
      ensures completed ==> player1Wins + player2Wins + ties == Trials(n)
    {
      ghost var played: seq<seq<string>> := [];
      var i := 0;
      var pos: nat := 0;
      ghost var remaining: nat := Trials(n);
      assert draws[pos..] == draws;
      while i < simulations
        invariant simulations == n && 0 <= i <= Trials(n) && pos <= |draws|
        invariant |played| == i && remaining == Trials(n) - i
        invariant played + Boards(draws[pos..], player1Cards, player2Cards, remaining) == all
        invariant player1Wins == multiset(os[..i])[Player1Wins]
        invariant player2Wins == multiset(os[..i])[Player2Wins]
        invariant ties == multiset(os[..i])[Tie]
      {
        var dealt;
        dealt, pos, played, remaining := Round(all, os, played, remaining, i, pos, player1Cards, player2Cards, draws);
        if !dealt {
          AllTallied(os, i, player1Wins, player2Wins, ties);
          return false;
        }
        i := i + 1;
      }
      assert played == all;
      AllTallied(os, i, player1Wins, player2Wins, ties);
      return true;
    }

    /** `run(player1Cards, player2Cards, n)` over the given card draws: the counters are reset,
        `n` is stored, and the trial loop runs. Every board dealt is five distinct cards that
        neither player holds. The counters hold the tallies of the outcomes of
        the boards dealt, which add up to the number of trials when all of them were dealt. */
    method Run(player1Cards: seq<string>, player2Cards: seq<string>, n: int, draws: seq<string>)
      returns (completed: bool)
      requires ValidHoleCards(player1Cards, player2Cards) && AllCards(draws)
      modifies this
      ensures simulations == n
      ensures var boards := Boards(draws, player1Cards, player2Cards, Trials(n));
              AllBoards(boards) && FreshBoards(boards, player1Cards, player2Cards) &&
              (completed <==> |boards| == Trials(n)) &&
              player1Wins == multiset(Outcomes(boards, player1Cards, player2Cards))[Player1Wins] &&
              player2Wins == multiset(Outcomes(boards, player1Cards, player2Cards))[Player2Wins] &&
              ties == multiset(Outcomes(boards, player1Cards, player2Cards))[Tie]
      ensures completed ==> player1Wins + player2Wins + ties == Trials(n)
    {
      Reset();
      simulations := n;
      BoardsFresh(draws, player1Cards, player2Cards, Trials(n));
      ghost var all := Boards(draws, player1Cards, player2Cards, Trials(n));
      OutcomesListed(all, player1Cards, player2Cards);
      completed := TrialLoop(all, Outcomes(all, player1Cards, player2Cards), player1Cards, player2Cards, n, draws);
    }
  }
}
