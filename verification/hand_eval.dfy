/**
 * Evaluating a hand: `_eval_hand_rank` picks the first category that the
 * hand makes, in the order straight flush, four of a kind, full house,
 * flush, straight, three of a kind, two pair, one pair, high card, together
 * with the cards that make it; `_fill_kickers` tops those cards up to five
 * with the strongest of the remaining cards.
 */
module HandEval {
  import opened Wrappers
  import opened Cards
  import opened HandSort
  import opened HandGroups

  /** The values of `hand_rank`. */
  const HighCard: nat := 0
  const OnePair: nat := 1
  const TwoPair: nat := 2
  const ThreeOfAKind: nat := 3
  const Straight: nat := 4
  const Flush: nat := 5
  const FullHouse: nat := 6
  const FourOfAKind: nat := 7
  const StraightFlush: nat := 8

  /** NoCards: the high-card case reads `cards[0]` of an empty hand
      (IndexError). MissingCard: `list.remove` of a hand card that is not
      among the cards (ValueError). NotEvaluated: `_fill_kickers` reads
      `hand_cards` before `_eval_hand_rank` has set it (AttributeError). */
  datatype HandError = NoCards | MissingCard | NotEvaluated

  /** The category and the cards that make it. */
  datatype Made = Made(handRank: nat, handCards: seq<Card>)

  /** The list a rank group of `n` cards joins in `_eval_hand_rank`:
      fours (4 or more cards), threes (3), pairs (2), or none (0). */
  function RankClass(n: nat): nat
  {
    if n >= 4 then 4 else if n == 3 then 3 else if n == 2 then 2 else 0
  }

  /** The rank groups that join the list for `cls`, in dictionary order. */
  function GroupsOf(g: seq<Bucket>, cls: nat): (r: seq<Bucket>)
    ensures |r| <= |g|
    ensures forall i :: 0 <= i < |r| ==> RankClass(|r[i].cards|) == cls
  {
    if g == [] then []
    else (if RankClass(|g[0].cards|) == cls then [g[0]] else []) + GroupsOf(g[1..], cls)
  }

  /** The straight-flush loop: the first straight that is also a flush. */
  function FirstStraightFlush(straights: seq<seq<Card>>, flushes: seq<seq<Card>>): (r: Option<seq<Card>>)
    ensures r.Some? ==> r.value in straights && r.value in flushes
    ensures r.None? ==> forall w :: w in straights ==> w !in flushes
  {
    if straights == [] then None
    else if straights[0] in flushes then Some(straights[0])
    else FirstStraightFlush(straights[1..], flushes)
  }

  /** `_eval_hand_rank` on the hand `cards`. */
  function HandRankOf(cards: seq<Card>): (r: Result<Made, HandError>)
    ensures r.Success? <==> cards != []
    ensures r.Success? ==> r.value.handRank <= StraightFlush
  {
    var g := ByRank(cards);
    Decide(cards, Straights(cards), Flushes(cards), GroupsOf(g, 4), GroupsOf(g, 3), GroupsOf(g, 2))
  }

  /** The decision chain of `_eval_hand_rank`, given the straight and flush
      candidates and the fours, threes and pairs lists. */
  function Decide(cards: seq<Card>, straights: seq<seq<Card>>, flushes: seq<seq<Card>>,
                  fours: seq<Bucket>, threes: seq<Bucket>, pairs: seq<Bucket>): (r: Result<Made, HandError>)
    requires forall i :: 0 <= i < |fours| ==> |fours[i].cards| >= 4
    requires forall i :: 0 <= i < |threes| ==> |threes[i].cards| == 3
    ensures r.Failure? <==> cards == [] && straights == [] && flushes == [] && fours == [] && threes == [] && pairs == []
    ensures r.Success? ==> r.value.handRank <= StraightFlush
  {
    match FirstStraightFlush(straights, flushes)
    case Some(w) => Success(Made(StraightFlush, w))
    case None =>
      if |fours| > 0 then Success(Made(FourOfAKind, fours[0].cards[..4]))
      else if |threes| > 1 then Success(Made(FullHouse, threes[0].cards + threes[1].cards[..2]))
      else if |threes| == 1 && |pairs| > 0 then Success(Made(FullHouse, threes[0].cards + pairs[0].cards))
      else if |flushes| > 0 then Success(Made(Flush, flushes[0]))
      else if |straights| > 0 then Success(Made(Straight, straights[0]))
      else if |threes| > 0 then Success(Made(ThreeOfAKind, threes[0].cards))
      else if |pairs| > 1 then Success(Made(TwoPair, pairs[0].cards + pairs[1].cards))
      else if |pairs| == 1 then Success(Made(OnePair, pairs[0].cards))
      else if cards == [] then Failure(NoCards)
      else Success(Made(HighCard, [cards[0]]))
  }

  /** How many cards make each category. */
  function HandSize(handRank: nat): nat
  {
    if handRank == StraightFlush || handRank == FullHouse || handRank == Flush || handRank == Straight then 5
    else if handRank == FourOfAKind || handRank == TwoPair then 4
    else if handRank == ThreeOfAKind then 3
    else if handRank == OnePair then 2
    else 1
  }

  // Facts about the rank grouping.

  /** Each rank group holds exactly the hand's cards of its rank, and no
      rank has two groups. */
  lemma ByRankFacts(cards: seq<Card>)
    ensures forall b :: b in ByRank(cards) ==> b.cards == Filter(cards, RankOf, b.key)
    ensures forall b1, b2 :: b1 in ByRank(cards) && b2 in ByRank(cards) && b1 != b2 ==> b1.key != b2.key
  {
    var g := ByRank(cards);
    var ks := Keys(cards, RankOf);
    GroupByMeaning(cards, RankOf);
    KeysFacts(cards, RankOf);
    forall b1, b2 | b1 in g && b2 in g && b1 != b2
      ensures b1.key != b2.key
    {
      var i :| 0 <= i < |g| && g[i] == b1;
      var j :| 0 <= j < |g| && g[j] == b2;
      assert i != j;
      if i < j {
        assert ks[i] != ks[j];
      } else {
        assert ks[j] != ks[i];
      }
    }
  }

  /** Every rank present in the hand has its group. */
  lemma BucketFor(cards: seq<Card>, k: nat)
    requires Filter(cards, RankOf, k) != []
    ensures Bucket(k, Filter(cards, RankOf, k)) in ByRank(cards)
  {
    var ks := Keys(cards, RankOf);
    GroupByMeaning(cards, RankOf);
    KeysFacts(cards, RankOf);
    var j :| 0 <= j < |ks| && ks[j] == k;
    assert ByRank(cards)[j] == Bucket(k, Filter(cards, RankOf, k));
  }

  /** The selected groups are exactly the groups of that size class. */
  lemma {:induction false} GroupsOfMembers(g: seq<Bucket>, cls: nat)
    ensures forall b :: b in GroupsOf(g, cls) <==> b in g && RankClass(|b.cards|) == cls
  {
    if g != [] {
      GroupsOfMembers(g[1..], cls);
      assert g == [g[0]] + g[1..];
    }
  }

  /** Helper: two different members of a selection make it at least two long. */
  lemma TwoMembers(r: seq<Bucket>, b1: Bucket, b2: Bucket)
    requires b1 in r && b2 in r && b1 != b2
    ensures |r| >= 2
  {
  }

  /** Helper: the first two selected groups are different groups. */
  lemma {:induction false} GroupsOfDistinct(g: seq<Bucket>, cls: nat)
    requires forall i, j :: 0 <= i < j < |g| ==> g[i] != g[j]
    ensures forall i, j :: 0 <= i < j < |GroupsOf(g, cls)| ==> GroupsOf(g, cls)[i] != GroupsOf(g, cls)[j]
  {
    if g != [] {
      GroupsOfDistinct(g[1..], cls);
      GroupsOfMembers(g[1..], cls);
      var rest := GroupsOf(g[1..], cls);
      forall b | b in rest
        ensures b != g[0]
      {
        var j :| 0 <= j < |g[1..]| && g[1..][j] == b;
        assert g[j + 1] == b;
      }
    }
  }

  /** Helper: the groups of a grouping are pairwise different. */
  lemma ByRankDistinct(cards: seq<Card>)
    ensures forall i, j :: 0 <= i < j < |ByRank(cards)| ==> ByRank(cards)[i] != ByRank(cards)[j]
  {
    GroupByMeaning(cards, RankOf);
    KeysFacts(cards, RankOf);
  }

  // The reference description of the categories, in terms of how many
  // cards of each rank and suit the hand holds.

  /** Some rank's cards fall in size class `cls`. */
  ghost predicate HasRankGroup(cards: seq<Card>, cls: nat)
  {
    exists k: nat :: RankClass(|Filter(cards, RankOf, k)|) == cls
  }

  /** Two different ranks' cards fall in size class `cls`. */
  ghost predicate HasTwoRankGroups(cards: seq<Card>, cls: nat)
  {
    exists k1: nat, k2: nat :: k1 != k2 && RankClass(|Filter(cards, RankOf, k1)|) == cls
      && RankClass(|Filter(cards, RankOf, k2)|) == cls
  }

  /** Some suit has five cards or more. */
  ghost predicate HasFlush(cards: seq<Card>)
  {
    exists k: nat :: |Filter(cards, SuitOf, k)| >= 5
  }

  /** Some five consecutive cards of the hand are a straight run. */
  ghost predicate HasStraight(cards: seq<Card>)
  {
    exists i :: 0 <= i < |Windows(cards)| && IsStraightRun(Windows(cards)[i])
  }

  /** Some five consecutive cards of the hand are a straight run and also
      five consecutive cards of one suit. */
  ghost predicate HasStraightFlush(cards: seq<Card>)
  {
    exists i, k: nat :: 0 <= i < |Windows(cards)| && IsStraightRun(Windows(cards)[i])
      && Windows(cards)[i] in Windows(Filter(cards, SuitOf, k))
  }

  /** The first category, in priority order, that the hand makes. */
  ghost function BestCategory(cards: seq<Card>): nat
  {
    Priority(HasStraightFlush(cards), HasRankGroup(cards, 4), HasTwoRankGroups(cards, 3),
             HasRankGroup(cards, 3), HasRankGroup(cards, 2), HasTwoRankGroups(cards, 2),
             HasFlush(cards), HasStraight(cards))
  }

  /** The category priorities: the first of the tests that holds, a full
      house being two three-card ranks or a three-card rank and a pair. */
  function Priority(straightFlush: bool, four: bool, twoThrees: bool, three: bool,
                    pair: bool, twoPairs: bool, flush: bool, straight: bool): nat
  {
    if straightFlush then StraightFlush
    else if four then FourOfAKind
    else if twoThrees || (three && pair) then FullHouse
    else if flush then Flush
    else if straight then Straight
    else if three then ThreeOfAKind
    else if twoPairs then TwoPair
    else if pair then OnePair
    else HighCard
  }

  /** The fours, threes and pairs lists are non-empty, or at least two
      long, exactly when the hand has one, or two, ranks of that size. */
  lemma GroupsOfCount(cards: seq<Card>, cls: nat)
    requires 2 <= cls <= 4
    ensures |GroupsOf(ByRank(cards), cls)| >= 1 <==> HasRankGroup(cards, cls)
    ensures |GroupsOf(ByRank(cards), cls)| >= 2 <==> HasTwoRankGroups(cards, cls)
  {
    var g := ByRank(cards);
    var sel := GroupsOf(g, cls);
    ByRankFacts(cards);
    GroupsOfMembers(g, cls);
    if |sel| >= 1 {
      assert sel[0] in sel;
      assert RankClass(|Filter(cards, RankOf, sel[0].key)|) == cls;
    }
    if |sel| >= 2 {
      ByRankDistinct(cards);
      GroupsOfDistinct(g, cls);
      assert sel[0] in sel && sel[1] in sel;
      assert sel[0].key != sel[1].key;
      assert RankClass(|Filter(cards, RankOf, sel[1].key)|) == cls;
    }
    if HasRankGroup(cards, cls) {
      var k: nat :| RankClass(|Filter(cards, RankOf, k)|) == cls;
      BucketFor(cards, k);
      assert Bucket(k, Filter(cards, RankOf, k)) in sel;
    }
    if HasTwoRankGroups(cards, cls) {
      var k1: nat, k2: nat :| k1 != k2 && RankClass(|Filter(cards, RankOf, k1)|) == cls
        && RankClass(|Filter(cards, RankOf, k2)|) == cls;
      BucketFor(cards, k1);
      BucketFor(cards, k2);
      TwoMembers(sel, Bucket(k1, Filter(cards, RankOf, k1)), Bucket(k2, Filter(cards, RankOf, k2)));
    }
  }

  /** The flush list is non-empty exactly when some suit has five cards. */
  lemma FlushesNonEmpty(cards: seq<Card>)
    ensures Flushes(cards) != [] <==> HasFlush(cards)
  {
    if Flushes(cards) != [] {
      var w := Flushes(cards)[0];
      FlushesMeaning(cards, w);
      var k: nat :| w in Windows(Filter(cards, SuitOf, k));
      assert |Filter(cards, SuitOf, k)| >= 5;
    }
    if HasFlush(cards) {
      var k: nat :| |Filter(cards, SuitOf, k)| >= 5;
      var w := Windows(Filter(cards, SuitOf, k))[0];
      assert w in Windows(Filter(cards, SuitOf, k));
      FlushesMeaning(cards, w);
    }
  }

  /** The straight list is non-empty exactly when the hand has a straight run. */
  lemma StraightsNonEmpty(cards: seq<Card>)
    ensures Straights(cards) != [] <==> HasStraight(cards)
  {
    if Straights(cards) != [] {
      var w := Straights(cards)[0];
      StraightsMeaning(cards, w);
      var i :| 0 <= i < |Windows(cards)| && Windows(cards)[i] == w;
    }
    if HasStraight(cards) {
      var i :| 0 <= i < |Windows(cards)| && IsStraightRun(Windows(cards)[i]);
      StraightsMeaning(cards, Windows(cards)[i]);
    }
  }

  /** The straight-flush loop finds one exactly when the hand has a straight
      run that is also a run of one suit's cards. */
  lemma StraightFlushFound(cards: seq<Card>)
    ensures FirstStraightFlush(Straights(cards), Flushes(cards)).Some? <==> HasStraightFlush(cards)
  {
    if FirstStraightFlush(Straights(cards), Flushes(cards)).Some? {
      FoundIsStraightFlush(cards);
    }
    if HasStraightFlush(cards) {
      var i, k: nat :| 0 <= i < |Windows(cards)| && IsStraightRun(Windows(cards)[i])
        && Windows(cards)[i] in Windows(Filter(cards, SuitOf, k));
      StraightFlushIsFound(cards, i, k);
    }
  }

  /** Helper: what the straight-flush loop finds is a straight flush. */
  lemma FoundIsStraightFlush(cards: seq<Card>)
    requires FirstStraightFlush(Straights(cards), Flushes(cards)).Some?
    ensures HasStraightFlush(cards)
  {
    var w := FirstStraightFlush(Straights(cards), Flushes(cards)).value;
    StraightsMeaning(cards, w);
    FlushesMeaning(cards, w);
    var i :| 0 <= i < |Windows(cards)| && Windows(cards)[i] == w;
    var k: nat :| w in Windows(Filter(cards, SuitOf, k));
    assert IsStraightRun(Windows(cards)[i]) && Windows(cards)[i] in Windows(Filter(cards, SuitOf, k));
  }

  /** Helper: a straight flush is not missed by the loop. */
  lemma StraightFlushIsFound(cards: seq<Card>, i: nat, k: nat)
    requires i < |Windows(cards)| && IsStraightRun(Windows(cards)[i])
    requires Windows(cards)[i] in Windows(Filter(cards, SuitOf, k))
    ensures FirstStraightFlush(Straights(cards), Flushes(cards)).Some?
  {
    var w := Windows(cards)[i];
    StraightsMeaning(cards, w);
    FlushesMeaning(cards, w);
    assert w in Straights(cards) && w in Flushes(cards);
  }

  /** `_eval_hand_rank` reports the first category the hand makes. */
  lemma CategoryIsBest(cards: seq<Card>)
    requires cards != []
    ensures HandRankOf(cards).value.handRank == BestCategory(cards)
  {
    TestsMatch(cards);
    DecideCategory(cards, Straights(cards), Flushes(cards), GroupsOf(ByRank(cards), 4),
                   GroupsOf(ByRank(cards), 3), GroupsOf(ByRank(cards), 2));
  }

  /** Helper: each test of the decision chain agrees with its reference. */
  lemma TestsMatch(cards: seq<Card>)
    ensures FirstStraightFlush(Straights(cards), Flushes(cards)).Some? == HasStraightFlush(cards)
    ensures (|GroupsOf(ByRank(cards), 4)| >= 1) == HasRankGroup(cards, 4)
    ensures (|GroupsOf(ByRank(cards), 3)| >= 2) == HasTwoRankGroups(cards, 3)
    ensures (|GroupsOf(ByRank(cards), 3)| >= 1) == HasRankGroup(cards, 3)
    ensures (|GroupsOf(ByRank(cards), 2)| >= 1) == HasRankGroup(cards, 2)
    ensures (|GroupsOf(ByRank(cards), 2)| >= 2) == HasTwoRankGroups(cards, 2)
    ensures (Flushes(cards) != []) == HasFlush(cards)
    ensures (Straights(cards) != []) == HasStraight(cards)
  {
    StraightFlushFound(cards);
    GroupsOfCount(cards, 4);
    GroupsOfCount(cards, 3);
    GroupsOfCount(cards, 2);
    FlushesNonEmpty(cards);
    StraightsNonEmpty(cards);
  }

  /** A hand is evaluated as a straight flush exactly when it holds one. */
  lemma StraightFlushRank(cards: seq<Card>)
    requires cards != []
    ensures HandRankOf(cards).value.handRank == StraightFlush <==> HasStraightFlush(cards)
  {
    CategoryIsBest(cards);
  }

  /** Helper: the decision chain follows the category priorities. */
  lemma DecideCategory(cards: seq<Card>, straights: seq<seq<Card>>, flushes: seq<seq<Card>>,
                       fours: seq<Bucket>, threes: seq<Bucket>, pairs: seq<Bucket>)
    requires cards != []
    requires forall i :: 0 <= i < |fours| ==> |fours[i].cards| >= 4
    requires forall i :: 0 <= i < |threes| ==> |threes[i].cards| == 3
    ensures Decide(cards, straights, flushes, fours, threes, pairs).value.handRank ==
      Priority(FirstStraightFlush(straights, flushes).Some?, |fours| >= 1, |threes| >= 2, |threes| >= 1,
               |pairs| >= 1, |pairs| >= 2, flushes != [], straights != [])
  {
  }

  /** Helper: the high-card case is made by the first card. */
  lemma DecideHighCard(cards: seq<Card>, straights: seq<seq<Card>>, flushes: seq<seq<Card>>,
                       fours: seq<Bucket>, threes: seq<Bucket>, pairs: seq<Bucket>)
    requires cards != []
    requires forall i :: 0 <= i < |fours| ==> |fours[i].cards| >= 4
    requires forall i :: 0 <= i < |threes| ==> |threes[i].cards| == 3
    requires Decide(cards, straights, flushes, fours, threes, pairs).value.handRank == HighCard
    ensures Decide(cards, straights, flushes, fours, threes, pairs).value.handCards == [cards[0]]
  {
  }

  /** The number of cards making each category. */
  lemma HandSizes(cards: seq<Card>)
    requires cards != []
    ensures |HandRankOf(cards).value.handCards| == HandSize(HandRankOf(cards).value.handRank)
  {
    var g := ByRank(cards);
    CandidateSizes(cards);
    DecideSizes(cards, Straights(cards), Flushes(cards), GroupsOf(g, 4), GroupsOf(g, 3), GroupsOf(g, 2));
  }

  /** Helper: every straight and flush candidate has five cards. */
  lemma CandidateSizes(cards: seq<Card>)
    ensures forall w :: w in Straights(cards) ==> |w| == 5
    ensures forall w :: w in Flushes(cards) ==> |w| == 5
  {
    forall w | w in Straights(cards)
      ensures |w| == 5
    {
      StraightsMeaning(cards, w);
    }
    forall w | w in Flushes(cards)
      ensures |w| == 5
    {
      FlushCandidate(cards, w);
    }
  }

  /** Helper: the sizes of the cards the decision chain picks. */
  lemma DecideSizes(cards: seq<Card>, straights: seq<seq<Card>>, flushes: seq<seq<Card>>,
                    fours: seq<Bucket>, threes: seq<Bucket>, pairs: seq<Bucket>)
    requires cards != []
    requires forall w :: w in straights ==> |w| == 5
    requires forall w :: w in flushes ==> |w| == 5
    requires forall i :: 0 <= i < |fours| ==> |fours[i].cards| >= 4
    requires forall i :: 0 <= i < |threes| ==> |threes[i].cards| == 3
    requires forall i :: 0 <= i < |pairs| ==> |pairs[i].cards| == 2
    ensures var m := Decide(cards, straights, flushes, fours, threes, pairs).value;
      |m.handCards| == HandSize(m.handRank)
  {
    if straights != [] {
      assert straights[0] in straights;
    }
    if flushes != [] {
      assert flushes[0] in flushes;
    }
  }

  /** Helper: a prefix holds part of the cards of its sequence. */
  lemma PrefixInside(s: seq<Card>, n: nat)
    requires n <= |s|
    ensures multiset(s[..n]) <= multiset(s)
  {
    assert s == s[..n] + s[n..];
  }

  /** Helper: two different rank groups hold disjoint parts of the hand. */
  lemma TwoGroupsInside(cards: seq<Card>, b1: Bucket, b2: Bucket)
    requires b1 in ByRank(cards) && b2 in ByRank(cards) && b1 != b2
    ensures multiset(b1.cards) + multiset(b2.cards) <= multiset(cards)
  {
    ByRankFacts(cards);
    FilterDisjoint(cards, RankOf, b1.key, b2.key);
  }

  /** Helper: each rank group is part of the hand. */
  lemma GroupInside(cards: seq<Card>, b: Bucket)
    requires b in ByRank(cards)
    ensures multiset(b.cards) <= multiset(cards)
  {
    ByRankFacts(cards);
    FilterMembers(cards, RankOf, b.key);
  }

  /** The cards making the category are cards of the hand, none used twice. */
  lemma HandCardsInside(cards: seq<Card>)
    requires cards != []
    ensures multiset(HandRankOf(cards).value.handCards) <= multiset(cards)
  {
    CandidatesInside(cards);
    GroupListsInside(cards);
    DecideInside(cards, Straights(cards), Flushes(cards), GroupsOf(ByRank(cards), 4),
                 GroupsOf(ByRank(cards), 3), GroupsOf(ByRank(cards), 2));
  }

  /** Helper: the fours, threes and pairs are parts of the hand, and the
      groups a full house or two pair combine are disjoint parts. */
  lemma GroupListsInside(cards: seq<Card>)
    ensures var g := ByRank(cards);
      forall b :: b in GroupsOf(g, 4) || b in GroupsOf(g, 3) || b in GroupsOf(g, 2) ==> multiset(b.cards) <= multiset(cards)
    ensures var threes := GroupsOf(ByRank(cards), 3);
      |threes| > 1 ==> multiset(threes[0].cards) + multiset(threes[1].cards) <= multiset(cards)
    ensures var threes, pairs := GroupsOf(ByRank(cards), 3), GroupsOf(ByRank(cards), 2);
      |threes| >= 1 && |pairs| >= 1 ==> multiset(threes[0].cards) + multiset(pairs[0].cards) <= multiset(cards)
    ensures var pairs := GroupsOf(ByRank(cards), 2);
      |pairs| > 1 ==> multiset(pairs[0].cards) + multiset(pairs[1].cards) <= multiset(cards)
  {
    var g := ByRank(cards);
    var threes := GroupsOf(g, 3);
    var pairs := GroupsOf(g, 2);
    GroupsOfMembers(g, 4);
    GroupsOfMembers(g, 3);
    GroupsOfMembers(g, 2);
    forall b | b in GroupsOf(g, 4) || b in threes || b in pairs
      ensures multiset(b.cards) <= multiset(cards)
    {
      GroupInside(cards, b);
    }
    ByRankDistinct(cards);
    GroupsOfDistinct(g, 3);
    GroupsOfDistinct(g, 2);
    if |threes| > 1 {
      assert threes[0] in threes && threes[1] in threes;
      TwoGroupsInside(cards, threes[0], threes[1]);
    }
    if |threes| >= 1 && |pairs| >= 1 {
      assert threes[0] in threes && pairs[0] in pairs;
      TwoGroupsInside(cards, threes[0], pairs[0]);
    }
    if |pairs| > 1 {
      assert pairs[0] in pairs && pairs[1] in pairs;
      TwoGroupsInside(cards, pairs[0], pairs[1]);
    }
  }

  /** Helper: every straight and flush candidate is part of the hand. */
  lemma CandidatesInside(cards: seq<Card>)
    ensures forall w :: w in Straights(cards) ==> multiset(w) <= multiset(cards)
    ensures forall w :: w in Flushes(cards) ==> multiset(w) <= multiset(cards)
  {
    forall w | w in Straights(cards)
      ensures multiset(w) <= multiset(cards)
    {
      StraightsMeaning(cards, w);
      var i :| 0 <= i < |Windows(cards)| && Windows(cards)[i] == w;
      WindowInside(cards, i);
    }
    forall w | w in Flushes(cards)
      ensures multiset(w) <= multiset(cards)
    {
      FlushCandidate(cards, w);
    }
  }

  /** Helper: the decision chain picks its cards from parts of the hand. */
  lemma DecideInside(cards: seq<Card>, straights: seq<seq<Card>>, flushes: seq<seq<Card>>,
                     fours: seq<Bucket>, threes: seq<Bucket>, pairs: seq<Bucket>)
    requires cards != []
    requires forall i :: 0 <= i < |fours| ==> |fours[i].cards| >= 4
    requires forall i :: 0 <= i < |threes| ==> |threes[i].cards| == 3
    requires forall w :: w in straights ==> multiset(w) <= multiset(cards)
    requires forall w :: w in flushes ==> multiset(w) <= multiset(cards)
    requires forall b :: b in fours || b in threes || b in pairs ==> multiset(b.cards) <= multiset(cards)
    requires |threes| > 1 ==> multiset(threes[0].cards) + multiset(threes[1].cards) <= multiset(cards)
    requires |threes| >= 1 && |pairs| >= 1 ==> multiset(threes[0].cards) + multiset(pairs[0].cards) <= multiset(cards)
    requires |pairs| > 1 ==> multiset(pairs[0].cards) + multiset(pairs[1].cards) <= multiset(cards)
    ensures multiset(Decide(cards, straights, flushes, fours, threes, pairs).value.handCards) <= multiset(cards)
  {
    var sf := FirstStraightFlush(straights, flushes);
    if sf.Some? {
    } else if |fours| > 0 {
      assert fours[0] in fours;
      PrefixInside(fours[0].cards, 4);
    } else if |threes| > 1 {
      PrefixInside(threes[1].cards, 2);
    } else if |threes| == 1 && |pairs| > 0 {
    } else if |flushes| > 0 {
      assert flushes[0] in flushes;
    } else if |straights| > 0 {
      assert straights[0] in straights;
    } else if |threes| > 0 {
      assert threes[0] in threes;
    } else if |pairs| > 1 {
    } else if |pairs| == 1 {
      assert pairs[0] in pairs;
    } else {
      assert cards == [cards[0]] + cards[1..];
    }
  }

  // What the cards making each category are, described on the hand itself.

  /** `k` is the rank of the earliest card of the hand whose rank's cards
      fall in size class `cls`. */
  ghost predicate FirstRankOfClass(cards: seq<Card>, cls: nat, k: nat)
  {
    RankClass(|Filter(cards, RankOf, k)|) == cls
    && (exists i :: 0 <= i < |cards| && cards[i].rank == k
          && forall j :: 0 <= j < i ==> RankClass(|Filter(cards, RankOf, cards[j].rank)|) != cls)
  }

  /** `k2` is the rank, other than `k1`, of the earliest card whose rank's
      cards fall in size class `cls`. */
  ghost predicate NextRankOfClass(cards: seq<Card>, cls: nat, k1: nat, k2: nat)
  {
    k2 != k1 && RankClass(|Filter(cards, RankOf, k2)|) == cls
    && (exists i :: 0 <= i < |cards| && cards[i].rank == k2
          && forall j :: 0 <= j < i && cards[j].rank != k1 ==> RankClass(|Filter(cards, RankOf, cards[j].rank)|) != cls)
  }

  /** `k` is the suit of the earliest card of the hand whose suit has five
      cards or more. */
  ghost predicate FirstFlushSuit(cards: seq<Card>, k: nat)
  {
    |Filter(cards, SuitOf, k)| >= 5
    && (exists i :: 0 <= i < |cards| && cards[i].suit == k
          && forall j :: 0 <= j < i ==> |Filter(cards, SuitOf, cards[j].suit)| < 5)
  }

  /** `w` is the earliest five consecutive cards of the hand that are a
      straight run. */
  ghost predicate FirstRunWindow(cards: seq<Card>, w: seq<Card>)
  {
    exists i :: 0 <= i < |Windows(cards)| && Windows(cards)[i] == w && IsStraightRun(Windows(cards)[i])
      && forall j :: 0 <= j < i ==> !IsStraightRun(Windows(cards)[j])
  }

  /** `w` is a straight run that is also five consecutive cards of its suit. */
  ghost predicate StraightFlushWindow(cards: seq<Card>, w: seq<Card>)
  {
    |w| == 5 && IsStraightRun(w) && w in Windows(Filter(cards, SuitOf, w[0].suit))
  }

  /** `w` is the earliest five consecutive cards of the hand that are a
      straight flush. */
  ghost predicate FirstStraightFlushWindow(cards: seq<Card>, w: seq<Card>)
  {
    exists i :: 0 <= i < |Windows(cards)| && Windows(cards)[i] == w && StraightFlushWindow(cards, Windows(cards)[i])
      && forall j :: 0 <= j < i ==> !StraightFlushWindow(cards, Windows(cards)[j])
  }

  /** A straight flush is made by the earliest straight-flush window. */
  lemma StraightFlushCards(cards: seq<Card>)
    requires cards != [] && HandRankOf(cards).value.handRank == StraightFlush
    ensures FirstStraightFlushWindow(cards, HandRankOf(cards).value.handCards)
  {
    var g := ByRank(cards);
    DecideCards(cards, Straights(cards), Flushes(cards), GroupsOf(g, 4), GroupsOf(g, 3), GroupsOf(g, 2));
    var i := FirstStraightFlushAt(cards, Flushes(cards));
    StraightFlushWindowAt(cards, i);
  }

  /** Helper: the earliest window that is a straight run and a flush
      candidate is the earliest straight-flush window. */
  lemma StraightFlushWindowAt(cards: seq<Card>, i: nat)
    requires i < |Windows(cards)| && IsStraightRun(Windows(cards)[i]) && Windows(cards)[i] in Flushes(cards)
    requires forall j :: 0 <= j < i ==> !(IsStraightRun(Windows(cards)[j]) && Windows(cards)[j] in Flushes(cards))
    ensures FirstStraightFlushWindow(cards, Windows(cards)[i])
  {
    var ws := Windows(cards);
    InFlushesIsSuitWindow(cards, ws[i]);
    forall j | 0 <= j < i
      ensures !StraightFlushWindow(cards, ws[j])
    {
      InFlushesIsSuitWindow(cards, ws[j]);
    }
  }

  /** Four of a kind is made by four cards of the earliest rank that has
      four or more, the first four of them in hand order. */
  lemma FourOfAKindCards(cards: seq<Card>)
    requires cards != [] && HandRankOf(cards).value.handRank == FourOfAKind
    ensures var hc := HandRankOf(cards).value.handCards;
      |hc| == 4 && FirstRankOfClass(cards, 4, hc[0].rank) && hc == Filter(cards, RankOf, hc[0].rank)[..4]
  {
    var g := ByRank(cards);
    DecideCards(cards, Straights(cards), Flushes(cards), GroupsOf(g, 4), GroupsOf(g, 3), GroupsOf(g, 2));
    FirstFourCards(cards, HandRankOf(cards).value.handCards);
  }

  /** A full house is made by the three cards of the earliest three-card
      rank and two cards of another rank: the next three-card rank when
      there are two, otherwise the earliest pair. */
  lemma FullHouseCards(cards: seq<Card>)
    requires cards != [] && HandRankOf(cards).value.handRank == FullHouse
    ensures var hc := HandRankOf(cards).value.handCards;
      |hc| == 5 && FirstRankOfClass(cards, 3, hc[0].rank) && hc[..3] == Filter(cards, RankOf, hc[0].rank)
    ensures var hc := HandRankOf(cards).value.handCards;
      |hc| == 5 && if HasTwoRankGroups(cards, 3) then NextRankOfClass(cards, 3, hc[0].rank, hc[3].rank)
                   else FirstRankOfClass(cards, 2, hc[3].rank)
    ensures var hc := HandRankOf(cards).value.handCards;
      |hc| == 5 && hc[3].rank != hc[0].rank && hc[3..] == Filter(cards, RankOf, hc[3].rank)[..2]
  {
    var g := ByRank(cards);
    DecideCards(cards, Straights(cards), Flushes(cards), GroupsOf(g, 4), GroupsOf(g, 3), GroupsOf(g, 2));
    GroupsOfCount(cards, 3);
    FullHouseGroups(cards, HandRankOf(cards).value.handCards);
  }

  /** Helper: the full house taken from the threes and pairs lists. */
  lemma FullHouseGroups(cards: seq<Card>, hc: seq<Card>)
    requires var threes, pairs := GroupsOf(ByRank(cards), 3), GroupsOf(ByRank(cards), 2);
      |threes| > 0 && |hc| >= 3 && hc[..3] == threes[0].cards
      && if |threes| > 1 then hc[3..] == threes[1].cards[..2] else |pairs| > 0 && hc[3..] == pairs[0].cards
    ensures |hc| == 5 && FirstRankOfClass(cards, 3, hc[0].rank) && hc[..3] == Filter(cards, RankOf, hc[0].rank)
    ensures |hc| == 5 && if |GroupsOf(ByRank(cards), 3)| > 1 then NextRankOfClass(cards, 3, hc[0].rank, hc[3].rank)
                         else FirstRankOfClass(cards, 2, hc[3].rank)
    ensures |hc| == 5 && hc[3].rank != hc[0].rank && hc[3..] == Filter(cards, RankOf, hc[3].rank)[..2]
  {
    var g := ByRank(cards);
    var threes := GroupsOf(g, 3);
    assert threes[0] in threes;
    FirstGroupOfClass(cards, 3);
    if |threes| > 1 {
      SecondGroupOfClass(cards, 3);
      assert threes[1] in threes;
      FullHouseOf(cards, hc, threes[0], threes[1], true);
    } else {
      FirstGroupOfClass(cards, 2);
      var pairs := GroupsOf(g, 2);
      assert pairs[0] in pairs;
      FullHouseOf(cards, hc, threes[0], pairs[0], false);
    }
  }

  /** Helper: a full house assembled from the three-card group `b0` and two
      cards of the group `b1`. */
  lemma FullHouseOf(cards: seq<Card>, hc: seq<Card>, b0: Bucket, b1: Bucket, twoThrees: bool)
    requires |b0.cards| == 3 && b0.cards == Filter(cards, RankOf, b0.key) && FirstRankOfClass(cards, 3, b0.key)
    requires |b1.cards| >= 2 && b1.cards == Filter(cards, RankOf, b1.key)
    requires twoThrees ==> NextRankOfClass(cards, 3, b0.key, b1.key)
    requires !twoThrees ==> FirstRankOfClass(cards, 2, b1.key)
    requires |hc| >= 3 && hc[..3] == b0.cards && hc[3..] == b1.cards[..2]
    ensures |hc| == 5 && FirstRankOfClass(cards, 3, hc[0].rank) && hc[..3] == Filter(cards, RankOf, hc[0].rank)
    ensures |hc| == 5 && if twoThrees then NextRankOfClass(cards, 3, hc[0].rank, hc[3].rank)
                         else FirstRankOfClass(cards, 2, hc[3].rank)
    ensures |hc| == 5 && hc[3].rank != hc[0].rank && hc[3..] == Filter(cards, RankOf, hc[3].rank)[..2]
  {
    assert hc[0] == b0.cards[0] && Key(b0.cards[0], RankOf) == b0.key;
    assert hc[3] == b1.cards[0] && Key(b1.cards[0], RankOf) == b1.key;
  }

  /** A flush is made by the first five cards of the earliest suit that
      has five or more. */
  lemma FlushCards(cards: seq<Card>)
    requires cards != [] && HandRankOf(cards).value.handRank == Flush
    ensures var hc := HandRankOf(cards).value.handCards;
      |hc| == 5 && FirstFlushSuit(cards, hc[0].suit) && hc == Filter(cards, SuitOf, hc[0].suit)[..5]
  {
    var g := ByRank(cards);
    DecideCards(cards, Straights(cards), Flushes(cards), GroupsOf(g, 4), GroupsOf(g, 3), GroupsOf(g, 2));
    FirstFlushOfHand(cards);
  }

  /** A straight is made by the earliest straight-run window. */
  lemma StraightCards(cards: seq<Card>)
    requires cards != [] && HandRankOf(cards).value.handRank == Straight
    ensures FirstRunWindow(cards, HandRankOf(cards).value.handCards)
  {
    var g := ByRank(cards);
    DecideCards(cards, Straights(cards), Flushes(cards), GroupsOf(g, 4), GroupsOf(g, 3), GroupsOf(g, 2));
    var i := FirstStraight(cards);
  }

  /** Three of a kind is made by the three cards of the earliest
      three-card rank. */
  lemma ThreeOfAKindCards(cards: seq<Card>)
    requires cards != [] && HandRankOf(cards).value.handRank == ThreeOfAKind
    ensures var hc := HandRankOf(cards).value.handCards;
      |hc| == 3 && FirstRankOfClass(cards, 3, hc[0].rank) && hc == Filter(cards, RankOf, hc[0].rank)
  {
    var g := ByRank(cards);
    DecideCards(cards, Straights(cards), Flushes(cards), GroupsOf(g, 4), GroupsOf(g, 3), GroupsOf(g, 2));
    WholeFirstGroup(cards, 3, HandRankOf(cards).value.handCards);
  }

  /** Two pair is made by the earliest pair followed by the next pair, of
      a different rank. */
  lemma TwoPairCards(cards: seq<Card>)
    requires cards != [] && HandRankOf(cards).value.handRank == TwoPair
    ensures var hc := HandRankOf(cards).value.handCards;
      |hc| == 4 && FirstRankOfClass(cards, 2, hc[0].rank) && NextRankOfClass(cards, 2, hc[0].rank, hc[2].rank)
    ensures var hc := HandRankOf(cards).value.handCards;
      |hc| == 4 && hc == Filter(cards, RankOf, hc[0].rank) + Filter(cards, RankOf, hc[2].rank)
  {
    var g := ByRank(cards);
    DecideCards(cards, Straights(cards), Flushes(cards), GroupsOf(g, 4), GroupsOf(g, 3), GroupsOf(g, 2));
    TwoPairGroups(cards, HandRankOf(cards).value.handCards);
  }

  /** Helper: two pair taken from the pairs list. */
  lemma TwoPairGroups(cards: seq<Card>, hc: seq<Card>)
    requires var pairs := GroupsOf(ByRank(cards), 2);
      |pairs| > 1 && hc == pairs[0].cards + pairs[1].cards
    ensures |hc| == 4 && FirstRankOfClass(cards, 2, hc[0].rank) && NextRankOfClass(cards, 2, hc[0].rank, hc[2].rank)
    ensures |hc| == 4 && hc == Filter(cards, RankOf, hc[0].rank) + Filter(cards, RankOf, hc[2].rank)
  {
    var pairs := GroupsOf(ByRank(cards), 2);
    assert pairs[0] in pairs && pairs[1] in pairs;
    FirstGroupOfClass(cards, 2);
    SecondGroupOfClass(cards, 2);
    assert hc[0] == pairs[0].cards[0] && Key(pairs[0].cards[0], RankOf) == pairs[0].key;
    assert hc[2] == pairs[1].cards[0] && Key(pairs[1].cards[0], RankOf) == pairs[1].key;
  }

  /** One pair is made by the two cards of the earliest pair. */
  lemma OnePairCards(cards: seq<Card>)
    requires cards != [] && HandRankOf(cards).value.handRank == OnePair
    ensures var hc := HandRankOf(cards).value.handCards;
      |hc| == 2 && FirstRankOfClass(cards, 2, hc[0].rank) && hc == Filter(cards, RankOf, hc[0].rank)
  {
    var g := ByRank(cards);
    DecideCards(cards, Straights(cards), Flushes(cards), GroupsOf(g, 4), GroupsOf(g, 3), GroupsOf(g, 2));
    WholeFirstGroup(cards, 2, HandRankOf(cards).value.handCards);
  }

  /** Helper: the first four cards of the first group of four or more. */
  lemma FirstFourCards(cards: seq<Card>, hc: seq<Card>)
    requires var fours := GroupsOf(ByRank(cards), 4);
      |fours| > 0 && |fours[0].cards| >= 4 && hc == fours[0].cards[..4]
    ensures |hc| == 4 && FirstRankOfClass(cards, 4, hc[0].rank)
    ensures 4 <= |Filter(cards, RankOf, hc[0].rank)| && hc == Filter(cards, RankOf, hc[0].rank)[..4]
  {
    var fours := GroupsOf(ByRank(cards), 4);
    FirstGroupOfClass(cards, 4);
    assert hc[0] == fours[0].cards[0] && Key(fours[0].cards[0], RankOf) == fours[0].key;
  }

  /** Helper: the whole first group of two or three cards. */
  lemma WholeFirstGroup(cards: seq<Card>, cls: nat, hc: seq<Card>)
    requires cls == 2 || cls == 3
    requires var sel := GroupsOf(ByRank(cards), cls);
      |sel| > 0 && hc == sel[0].cards
    ensures |hc| == cls && FirstRankOfClass(cards, cls, hc[0].rank) && hc == Filter(cards, RankOf, hc[0].rank)
  {
    var sel := GroupsOf(ByRank(cards), cls);
    assert sel[0] in sel;
    FirstGroupOfClass(cards, cls);
    assert hc[0] == sel[0].cards[0] && Key(sel[0].cards[0], RankOf) == sel[0].key;
  }

  /** A high card is made by the hand's first card. */
  lemma HighCardCards(cards: seq<Card>)
    requires cards != [] && HandRankOf(cards).value.handRank == HighCard
    ensures HandRankOf(cards).value.handCards == [cards[0]]
  {
    var g := ByRank(cards);
    DecideHighCard(cards, Straights(cards), Flushes(cards), GroupsOf(g, 4), GroupsOf(g, 3), GroupsOf(g, 2));
  }

  /** In a strongest-first hand the earliest rank of a size class is the
      strongest rank of that class. */
  lemma FirstRankIsStrongest(cards: seq<Card>, cls: nat, k: nat, k2: nat)
    requires StrongestFirst(cards) && 2 <= cls
    requires FirstRankOfClass(cards, cls, k) && RankClass(|Filter(cards, RankOf, k2)|) == cls
    ensures k <= k2
  {
    var i :| 0 <= i < |cards| && cards[i].rank == k
      && forall j :: 0 <= j < i ==> RankClass(|Filter(cards, RankOf, cards[j].rank)|) != cls;
    var j := FilterHasIndex(cards, RankOf, k2);
    assert cards[j].rank == k2;
  }

  /** Helper: which lists the decision chain takes its cards from. */
  lemma DecideCards(cards: seq<Card>, straights: seq<seq<Card>>, flushes: seq<seq<Card>>,
                    fours: seq<Bucket>, threes: seq<Bucket>, pairs: seq<Bucket>)
    requires cards != []
    requires forall i :: 0 <= i < |fours| ==> |fours[i].cards| >= 4
    requires forall i :: 0 <= i < |threes| ==> |threes[i].cards| == 3
    ensures var m := Decide(cards, straights, flushes, fours, threes, pairs).value;
      m.handRank == StraightFlush ==> FirstStraightFlush(straights, flushes) == Some(m.handCards)
    ensures var m := Decide(cards, straights, flushes, fours, threes, pairs).value;
      m.handRank == FourOfAKind ==> |fours| > 0 && m.handCards == fours[0].cards[..4]
    ensures var m := Decide(cards, straights, flushes, fours, threes, pairs).value;
      m.handRank == FullHouse ==>
        |threes| > 0 && m.handCards[..3] == threes[0].cards
        && if |threes| > 1 then m.handCards[3..] == threes[1].cards[..2] else |pairs| > 0 && m.handCards[3..] == pairs[0].cards
    ensures var m := Decide(cards, straights, flushes, fours, threes, pairs).value;
      m.handRank == Flush ==> flushes != [] && m.handCards == flushes[0]
    ensures var m := Decide(cards, straights, flushes, fours, threes, pairs).value;
      m.handRank == Straight ==> straights != [] && m.handCards == straights[0]
    ensures var m := Decide(cards, straights, flushes, fours, threes, pairs).value;
      m.handRank == ThreeOfAKind ==> |threes| > 0 && m.handCards == threes[0].cards
    ensures var m := Decide(cards, straights, flushes, fours, threes, pairs).value;
      m.handRank == TwoPair ==> |pairs| > 1 && m.handCards == pairs[0].cards + pairs[1].cards
    ensures var m := Decide(cards, straights, flushes, fours, threes, pairs).value;
      m.handRank == OnePair ==> |pairs| > 0 && m.handCards == pairs[0].cards
  {
  }

  /** Helper: the first group of a size class, and that no earlier group
      is of that class. */
  lemma {:induction false} GroupsOfFirst(g: seq<Bucket>, cls: nat) returns (t: nat)
    requires |GroupsOf(g, cls)| >= 1
    ensures t < |g| && GroupsOf(g, cls)[0] == g[t]
    ensures forall u :: 0 <= u < t ==> RankClass(|g[u].cards|) != cls
    ensures GroupsOf(g[t + 1..], cls) == GroupsOf(g, cls)[1..]
  {
    if RankClass(|g[0].cards|) == cls {
      t := 0;
      assert GroupsOf(g, cls) == [g[0]] + GroupsOf(g[1..], cls);
    } else {
      assert GroupsOf(g, cls) == GroupsOf(g[1..], cls);
      var t' := GroupsOfFirst(g[1..], cls);
      t := t' + 1;
      assert g[t + 1..] == g[1..][t' + 1..];
      forall u | 0 <= u < t
        ensures RankClass(|g[u].cards|) != cls
      {
        if u > 0 {
          assert g[u] == g[1..][u - 1];
        }
      }
    }
  }

  /** Helper: the second group of a size class, and that every earlier
      group but the first is of another class. */
  lemma GroupsOfSecond(g: seq<Bucket>, cls: nat) returns (t1: nat, t2: nat)
    requires |GroupsOf(g, cls)| >= 2
    ensures t1 < t2 < |g| && GroupsOf(g, cls)[0] == g[t1] && GroupsOf(g, cls)[1] == g[t2]
    ensures forall u :: 0 <= u < t2 && u != t1 ==> RankClass(|g[u].cards|) != cls
  {
    t1 := GroupsOfFirst(g, cls);
    var d := GroupsOfFirst(g[t1 + 1..], cls);
    t2 := t1 + 1 + d;
    forall u | t1 < u < t2
      ensures RankClass(|g[u].cards|) != cls
    {
      assert g[u] == g[t1 + 1..][u - t1 - 1];
    }
  }

  /** Helper: the first group of a size class holds the cards of the
      earliest rank of that class. */
  lemma FirstGroupOfClass(cards: seq<Card>, cls: nat)
    requires |GroupsOf(ByRank(cards), cls)| >= 1
    ensures var b := GroupsOf(ByRank(cards), cls)[0];
      b.cards == Filter(cards, RankOf, b.key) && FirstRankOfClass(cards, cls, b.key)
  {
    var g := ByRank(cards);
    var ks := Keys(cards, RankOf);
    GroupByMeaning(cards, RankOf);
    var t := GroupsOfFirst(g, cls);
    assert GroupsOf(g, cls)[0] in GroupsOf(g, cls);
    var i := KeysFirstSeen(cards, RankOf, t);
    forall j | 0 <= j < i
      ensures RankClass(|Filter(cards, RankOf, cards[j].rank)|) != cls
    {
      var u :| 0 <= u < t && ks[u] == cards[j].rank;
      assert g[u].cards == Filter(cards, RankOf, ks[u]);
    }
  }

  /** Helper: the second group of a size class holds the cards of the
      next rank of that class. */
  lemma SecondGroupOfClass(cards: seq<Card>, cls: nat)
    requires |GroupsOf(ByRank(cards), cls)| >= 2
    ensures var b0, b1 := GroupsOf(ByRank(cards), cls)[0], GroupsOf(ByRank(cards), cls)[1];
      b1.cards == Filter(cards, RankOf, b1.key) && NextRankOfClass(cards, cls, b0.key, b1.key)
  {
    var g := ByRank(cards);
    var ks := Keys(cards, RankOf);
    GroupByMeaning(cards, RankOf);
    KeysFacts(cards, RankOf);
    var t1, t2 := GroupsOfSecond(g, cls);
    assert GroupsOf(g, cls)[1] in GroupsOf(g, cls);
    var i := KeysFirstSeen(cards, RankOf, t2);
    forall j | 0 <= j < i && cards[j].rank != ks[t1]
      ensures RankClass(|Filter(cards, RankOf, cards[j].rank)|) != cls
    {
      var u :| 0 <= u < t2 && ks[u] == cards[j].rank;
      assert g[u].cards == Filter(cards, RankOf, ks[u]);
    }
  }

  /** Helper: the first flush window of a suit grouping and the groups
      before it. */
  lemma {:induction false} FlushesOfFirst(g: seq<Bucket>) returns (t: nat)
    requires FlushesOf(g) != []
    ensures t < |g| && |g[t].cards| >= 5 && FlushesOf(g)[0] == g[t].cards[..5]
    ensures forall u :: 0 <= u < t ==> |g[u].cards| < 5
  {
    if |g[0].cards| >= 5 {
      t := 0;
    } else {
      var t' := FlushesOfFirst(g[1..]);
      t := t' + 1;
      forall u | 0 <= u < t
        ensures |g[u].cards| < 5
      {
        if u > 0 {
          assert g[u] == g[1..][u - 1];
        }
      }
    }
  }

  /** Helper: the first flush candidate is the first five cards of the
      earliest suit that has five or more. */
  lemma FirstFlushOfHand(cards: seq<Card>)
    requires Flushes(cards) != []
    ensures var w := Flushes(cards)[0];
      |w| == 5 && FirstFlushSuit(cards, w[0].suit) && w == Filter(cards, SuitOf, w[0].suit)[..5]
  {
    var g := BySuit(cards);
    var ks := Keys(cards, SuitOf);
    GroupByMeaning(cards, SuitOf);
    var t := FlushesOfFirst(g);
    var i := KeysFirstSeen(cards, SuitOf, t);
    forall j | 0 <= j < i
      ensures |Filter(cards, SuitOf, cards[j].suit)| < 5
    {
      var u :| 0 <= u < t && ks[u] == cards[j].suit;
      assert g[u].cards == Filter(cards, SuitOf, ks[u]);
    }
  }

  /** Helper: the straight-flush loop finds the earliest window that is a
      straight run and a flush candidate. */
  lemma {:induction false} FirstStraightFlushAt(s: seq<Card>, flushes: seq<seq<Card>>) returns (i: nat)
    requires FirstStraightFlush(Straights(s), flushes).Some?
    ensures i < |Windows(s)| && FirstStraightFlush(Straights(s), flushes) == Some(Windows(s)[i])
    ensures IsStraightRun(Windows(s)[i]) && Windows(s)[i] in flushes
    ensures forall j :: 0 <= j < i ==> !(IsStraightRun(Windows(s)[j]) && Windows(s)[j] in flushes)
  {
    StraightFlushStep(s, flushes);
    if IsStraightRun(s[..5]) && s[..5] in flushes {
      i := 0;
    } else {
      var i' := FirstStraightFlushAt(s[1..], flushes);
      i := i' + 1;
      WindowsShift(s, i);
    }
  }

  /** Helper: one step of the straight-flush loop over the hand's windows. */
  lemma StraightFlushStep(s: seq<Card>, flushes: seq<seq<Card>>)
    requires FirstStraightFlush(Straights(s), flushes).Some?
    ensures |s| >= 5 && Windows(s)[0] == s[..5]
    ensures FirstStraightFlush(Straights(s), flushes) ==
      if IsStraightRun(s[..5]) && s[..5] in flushes then Some(s[..5])
      else FirstStraightFlush(Straights(s[1..]), flushes)
  {
    assert |s| >= 5;
    var rest := Straights(s[1..]);
    if IsStraightRun(s[..5]) {
      assert Straights(s) == [s[..5]] + rest;
      assert Straights(s)[1..] == rest;
    } else {
      assert Straights(s) == rest;
    }
  }

  /** Helper: the windows of `s` after the first are the windows of `s[1..]`. */
  lemma WindowsShift(s: seq<Card>, i: nat)
    requires |s| >= 5 && 1 <= i <= |Windows(s[1..])|
    ensures |Windows(s)| == |Windows(s[1..])| + 1
    ensures forall j :: 1 <= j <= i ==> Windows(s)[j] == Windows(s[1..])[j - 1]
  {
    assert Windows(s) == [s[..5]] + Windows(s[1..]);
  }

  /** Helper: a five-card window is a flush candidate exactly when it is
      five consecutive cards of its own suit. */
  lemma InFlushesIsSuitWindow(cards: seq<Card>, w: seq<Card>)
    requires |w| == 5
    ensures w in Flushes(cards) <==> w in Windows(Filter(cards, SuitOf, w[0].suit))
  {
    FlushesMeaning(cards, w);
    if w in Flushes(cards) {
      var k: nat :| w in Windows(Filter(cards, SuitOf, k));
      var f := Filter(cards, SuitOf, k);
      var i :| 0 <= i < |Windows(f)| && Windows(f)[i] == w;
      assert w[0] == f[i];
    }
  }

  // Kickers.

  /** `for card in hand_cards: kickers.remove(card)`; None when a card is
      missing. */
  function RemoveEach(s: seq<Card>, hand: seq<Card>): (r: Option<seq<Card>>)
    ensures r.Some? ==> |r.value| == |s| - |hand|
    decreases |hand|
  {
    if hand == [] then Some(s)
    else if hand[0] !in s then None
    else RemoveEach(RemoveFirst(s, hand[0]), hand[1..])
  }

  /** `_fill_kickers`: the first `5 - |handCards|` cards left after taking
      each hand card out of the cards, or none when the hand already has
      five cards. */
  function KickersOf(cards: seq<Card>, handCards: seq<Card>): Option<seq<Card>>
  {
    var kickerCount := 5 - |handCards|;
    if kickerCount > 0 then
      match RemoveEach(cards, handCards)
      case None => None
      case Some(rest) => Some(if kickerCount <= |rest| then rest[..kickerCount] else rest)
    else Some([])
  }

  /** Removing the hand cards one by one succeeds exactly when they are
      part of the cards, and leaves the other cards. */
  lemma {:induction false} RemoveEachPerm(s: seq<Card>, hand: seq<Card>)
    ensures RemoveEach(s, hand).Some? <==> multiset(hand) <= multiset(s)
    ensures RemoveEach(s, hand).Some? ==> multiset(RemoveEach(s, hand).value) + multiset(hand) == multiset(s)
    decreases |hand|
  {
    if hand != [] {
      var h := hand[0];
      assert hand == [h] + hand[1..];
      assert multiset(hand) == multiset{h} + multiset(hand[1..]);
      if h in s {
        RemoveFirstPerm(s, h);
        RemoveEachPerm(RemoveFirst(s, h), hand[1..]);
        SubBagShift(multiset(hand[1..]), multiset(RemoveFirst(s, h)), h);
      } else {
        assert h in multiset(hand);
        assert h !in multiset(s);
      }
    }
  }

  /** Helper: adding the same card to both sides keeps the sub-bag order. */
  lemma SubBagShift(a: multiset<Card>, b: multiset<Card>, h: Card)
    ensures a <= b <==> a + multiset{h} <= b + multiset{h}
  {
    if a + multiset{h} <= b + multiset{h} {
      forall x
        ensures a[x] <= b[x]
      {
        assert (a + multiset{h})[x] <= (b + multiset{h})[x];
      }
    }
  }

  /** Removing a card keeps the others in their order. */
  lemma {:induction false} RemoveFirstSorted(s: seq<Card>, x: Card)
    requires x in s && StrongestFirst(s)
    ensures StrongestFirst(RemoveFirst(s, x))
  {
    if s[0] != x {
      var t := s[1..];
      SortedSuffix(s);
      RemoveFirstSorted(t, x);
      RemoveFirstPerm(t, x);
      var r := RemoveFirst(t, x);
      forall c | c in r
        ensures s[0].rank <= c.rank
      {
        assert c in multiset(r);
        assert c in multiset(t);
        var j :| 0 <= j < |t| && t[j] == c;
        assert s[j + 1] == c;
      }
      PrependStrongest(s[0], r);
    }
  }

  /** Helper: a suffix of a strongest-first sequence is strongest first. */
  lemma SortedSuffix(s: seq<Card>)
    requires s != [] && StrongestFirst(s)
    ensures StrongestFirst(s[1..])
  {
  }

  /** Helper: a card at least as strong as all of `r` can go in front. */
  lemma PrependStrongest(c: Card, r: seq<Card>)
    requires StrongestFirst(r)
    requires forall d :: d in r ==> c.rank <= d.rank
    ensures StrongestFirst([c] + r)
  {
    forall i, j | 0 <= i < j < |[c] + r|
      ensures ([c] + r)[i].rank <= ([c] + r)[j].rank
    {
      assert ([c] + r)[j] == r[j - 1];
      if i > 0 {
        assert ([c] + r)[i] == r[i - 1];
      } else {
        assert r[j - 1] in r;
      }
    }
  }

  /** Removing the hand cards from sorted cards leaves them sorted. */
  lemma {:induction false} RemoveEachSorted(s: seq<Card>, hand: seq<Card>)
    requires StrongestFirst(s) && RemoveEach(s, hand).Some?
    ensures StrongestFirst(RemoveEach(s, hand).value)
    decreases |hand|
  {
    if hand != [] {
      RemoveFirstSorted(s, hand[0]);
      RemoveEachSorted(RemoveFirst(s, hand[0]), hand[1..]);
    }
  }

  /** When the hand cards are among the cards, filling the kickers succeeds;
      the kickers number `5 - |handCards|`, or fewer when not enough cards
      are left, and none once the hand has five cards; together with the
      hand they use no card more often than the cards hold it. */
  lemma KickersFacts(cards: seq<Card>, handCards: seq<Card>)
    requires multiset(handCards) <= multiset(cards)
    ensures KickersOf(cards, handCards).Some?
    ensures |handCards| >= 5 ==> KickersOf(cards, handCards).value == []
    ensures |handCards| < 5 && |cards| >= 5 ==> |KickersOf(cards, handCards).value| == 5 - |handCards|
    ensures |handCards| < 5 && |cards| < 5 ==> |KickersOf(cards, handCards).value| == |cards| - |handCards|
    ensures multiset(handCards) + multiset(KickersOf(cards, handCards).value) <= multiset(cards)
  {
    RemoveEachPerm(cards, handCards);
    assert |multiset(handCards)| <= |multiset(cards)|;
    if |handCards| < 5 {
      var rest := RemoveEach(cards, handCards).value;
      var n := if 5 - |handCards| <= |rest| then 5 - |handCards| else |rest|;
      PrefixInside(rest, n);
    }
  }

  /** From sorted cards the kickers are sorted and are the strongest cards
      left: no card outside the hand and the kickers is stronger than a
      kicker. */
  lemma KickersStrongest(cards: seq<Card>, handCards: seq<Card>)
    requires multiset(handCards) <= multiset(cards) && StrongestFirst(cards)
    ensures KickersOf(cards, handCards).Some?
    ensures StrongestFirst(KickersOf(cards, handCards).value)
    ensures var k := KickersOf(cards, handCards).value;
      forall c, i :: c in multiset(cards) - multiset(handCards) - multiset(k) && 0 <= i < |k| ==> k[i].rank <= c.rank
  {
    RemoveEachPerm(cards, handCards);
    if |handCards| < 5 {
      var rest := RemoveEach(cards, handCards).value;
      RemoveEachSorted(cards, handCards);
      var n := if 5 - |handCards| <= |rest| then 5 - |handCards| else |rest|;
      assert KickersOf(cards, handCards).value == rest[..n];
      SortedSplit(rest, n);
      assert multiset(cards) - multiset(handCards) == multiset(rest);
    }
  }

  /** Helper: splitting a strongest-first sequence after `n` cards. */
  lemma SortedSplit(rest: seq<Card>, n: nat)
    requires n <= |rest| && StrongestFirst(rest)
    ensures StrongestFirst(rest[..n])
    ensures multiset(rest) - multiset(rest[..n]) == multiset(rest[n..])
    ensures forall c, i :: c in multiset(rest[n..]) && 0 <= i < n ==> rest[..n][i].rank <= c.rank
  {
    assert rest == rest[..n] + rest[n..];
    forall c, i | c in multiset(rest[n..]) && 0 <= i < n
      ensures rest[..n][i].rank <= c.rank
    {
      var j :| 0 <= j < |rest[n..]| && rest[n..][j] == c;
      assert rest[n + j] == c;
    }
  }

  /** With five cards or more, the hand cards and the kickers make five. */
  lemma FiveCards(cards: seq<Card>)
    requires |cards| >= 5
    ensures var m := HandRankOf(cards).value;
      KickersOf(cards, m.handCards).Some? && |m.handCards| + |KickersOf(cards, m.handCards).value| == 5
  {
    HandSizes(cards);
    HandCardsInside(cards);
    MadeFillsFive(cards, HandRankOf(cards).value);
  }

  /** Helper: kickers top any made hand of the right size up to five. */
  lemma MadeFillsFive(cards: seq<Card>, m: Made)
    requires |cards| >= 5
    requires |m.handCards| == HandSize(m.handRank) && multiset(m.handCards) <= multiset(cards)
    ensures KickersOf(cards, m.handCards).Some? && |m.handCards| + |KickersOf(cards, m.handCards).value| == 5
  {
    KickersFacts(cards, m.handCards);
  }
}
