/** Worked hands: a run hidden by a repeated rank, and a straight flush that
    depends on the order in which two cards of equal rank were dealt. */
module HandExamples {
  import opened Cards
  import opened HandSort
  import opened HandGroups
  import opened HandEval

  // Rank index 5 is "9" and 12 is "2"; suit 0 is spades, 1 hearts, 2 diamonds.

  /** 9S 8S 8H 7S 6S 5S 2D */
  const Hidden: seq<Card> := [Card(5, 0), Card(6, 0), Card(6, 1), Card(7, 0), Card(8, 0), Card(9, 0), Card(12, 2)]
  /** 9S 9H 8S 7S 6S 5S 2D */
  const SpadeNineFirst: seq<Card> := [Card(5, 0), Card(5, 1), Card(6, 0), Card(7, 0), Card(8, 0), Card(9, 0), Card(12, 2)]
  /** 9H 9S 8S 7S 6S 5S 2D */
  const HeartNineFirst: seq<Card> := [Card(5, 1), Card(5, 0), Card(6, 0), Card(7, 0), Card(8, 0), Card(9, 0), Card(12, 2)]

  /** None of the three windows of the hidden-run hand is a straight. */
  lemma HiddenHasNoStraight()
    ensures Straights(Hidden) == []
  {
    var h := Hidden;
    NotRun(h[..5], 2);
    NotRun(h[1..][..5], 1);
    NotRun(h[2..][..5], 4);
    assert |h[3..]| < 5;
    assert Straights(h[2..]) == [] + Straights(h[3..]);
    assert Straights(h[1..]) == [] + Straights(h[2..]);
  }

  /** A window whose card at `i` breaks the descent is not a straight. */
  lemma NotRun(w: seq<Card>, i: nat)
    requires |w| == 5 && i < 5 && w[i].rank != w[0].rank + i
    ensures !IsStraightRun(w)
  {
    StraightRunMeaning(w);
  }

  /** With the heart first, the spades 9-5 are a window and a suit window. */
  lemma HeartFirstIsStraightFlush()
    ensures HasStraightFlush(HeartNineFirst)
  {
    var h := HeartNineFirst;
    var run := [Card(5, 0), Card(6, 0), Card(7, 0), Card(8, 0), Card(9, 0)];
    assert h[1..6] == run;
    ConsecutiveIsStraightRun(run);
    HeartFirstSpades();
    WholeSuitRun(h, 1, 0);
  }

  /** The spades of the heart-first deal are its cards 1 to 5. */
  lemma HeartFirstSpades()
    ensures Filter(HeartNineFirst, SuitOf, 0) == HeartNineFirst[1..6]
  {
    var h := HeartNineFirst;
    var w := h[1..6];
    FilterOfUniform(w, SuitOf, 0);
    assert h == [h[0]] + w + [h[6]];
    FilterAppend([h[0]] + w, [h[6]], SuitOf, 0);
    FilterAppend([h[0]], w, SuitOf, 0);
    FilterSingle(h[0], SuitOf, 0);
    FilterSingle(h[6], SuitOf, 0);
  }

  /** A straight window that holds every card of one suit is a straight flush. */
  lemma WholeSuitRun(cards: seq<Card>, i: nat, k: nat)
    requires i + 5 <= |cards| && IsStraightRun(cards[i..i + 5])
    requires Filter(cards, SuitOf, k) == cards[i..i + 5]
    ensures HasStraightFlush(cards)
  {
    var w := cards[i..i + 5];
    assert Windows(cards)[i] == w;
    assert Windows(w)[0] == w;
  }

  /** With the spade first, every window mixes suits: the two nines open
      the first, the heart nine opens the second, and the third ends in a
      diamond. */
  lemma SpadeFirstNoStraightFlush()
    ensures !HasStraightFlush(SpadeNineFirst)
  {
    var h := SpadeNineFirst;
    var ws := Windows(h);
    forall i, k: nat | 0 <= i < |ws| ensures ws[i] !in Windows(Filter(h, SuitOf, k)) {
      if i < 2 {
        MixedNotSuitWindow(h, ws[i], k, 0, 1);
      } else {
        MixedNotSuitWindow(h, ws[i], k, 3, 4);
      }
    }
  }

  /** Five cards of two suits are no window of one suit's cards. */
  lemma MixedNotSuitWindow(h: seq<Card>, w: seq<Card>, k: nat, a: nat, b: nat)
    requires |w| == 5 && a < 5 && b < 5 && w[a].suit != w[b].suit
    ensures w !in Windows(Filter(h, SuitOf, k))
  {
    var f := Filter(h, SuitOf, k);
    forall j | 0 <= j < |Windows(f)| ensures Windows(f)[j] != w {
      assert Windows(f)[j][a] == f[j + a] && Windows(f)[j][b] == f[j + b];
    }
  }

  /** A hand already strongest first is left as it is by the sort. */
  lemma SortedStays(h: seq<Card>)
    requires StrongestFirst(h)
    ensures SortStrongestFirst(h) == h
  {
    SortUnique(h, h);
  }

  lemma NinesSorted()
    ensures StrongestFirst(SpadeNineFirst) && StrongestFirst(HeartNineFirst)
  {
  }

  lemma HeartFirstRank()
    ensures HandRankOf(HeartNineFirst).value.handRank == StraightFlush
  {
    HeartFirstIsStraightFlush();
    StraightFlushRank(HeartNineFirst);
  }

  lemma SpadeFirstRank()
    ensures HandRankOf(SpadeNineFirst).value.handRank != StraightFlush
  {
    SpadeFirstNoStraightFlush();
    StraightFlushRank(SpadeNineFirst);
  }

  /** The two deals hold the same cards. */
  lemma NinesSameCards()
    ensures multiset(SpadeNineFirst) == multiset(HeartNineFirst)
  {
    var s, h := SpadeNineFirst, HeartNineFirst;
    assert s == [s[0], s[1]] + s[2..];
    assert h == [s[1], s[0]] + s[2..];
    assert multiset([s[0], s[1]]) == multiset([s[1], s[0]]);
  }

  /** Dealt in either order, the two nines stay where they are in the
      stable sort, and that order alone decides whether the hand is a
      straight flush. */
  lemma EqualRankOrderDecides()
    ensures multiset(SpadeNineFirst) == multiset(HeartNineFirst)
    ensures SortStrongestFirst(SpadeNineFirst) == SpadeNineFirst
    ensures SortStrongestFirst(HeartNineFirst) == HeartNineFirst
    ensures HandRankOf(HeartNineFirst).value.handRank == StraightFlush
    ensures HandRankOf(SpadeNineFirst).value.handRank != StraightFlush
  {
    NinesSameCards();
    NinesSorted();
    SortedStays(SpadeNineFirst);
    SortedStays(HeartNineFirst);
    HeartFirstRank();
    SpadeFirstRank();
  }

  /** No rank of the hidden-run hand has three cards: its first two cards
      have different ranks, and so have its last five. */
  lemma HiddenRankCounts(k: nat)
    ensures |Filter(Hidden, RankOf, k)| <= 2
  {
    var h := Hidden;
    assert h == h[..2] + h[2..];
    FilterAppend(h[..2], h[2..], RankOf, k);
    FilterOfDistinct(h[..2], RankOf, k);
    FilterOfDistinct(h[2..], RankOf, k);
  }

  /** Five of the hidden-run hand's cards are spades. */
  lemma HiddenSpades()
    ensures |Filter(Hidden, SuitOf, 0)| == 5
  {
    var h := Hidden;
    assert h == h[..2] + [h[2]] + h[3..6] + [h[6]];
    FilterAppend(h[..2] + [h[2]] + h[3..6], [h[6]], SuitOf, 0);
    FilterAppend(h[..2] + [h[2]], h[3..6], SuitOf, 0);
    FilterAppend(h[..2], [h[2]], SuitOf, 0);
    FilterOfUniform(h[..2], SuitOf, 0);
    FilterOfUniform(h[3..6], SuitOf, 0);
    FilterSingle(h[2], SuitOf, 0);
    FilterSingle(h[6], SuitOf, 0);
  }

  /** The hidden-run hand holds 9-8-7-6-5 but evaluates as a flush: the
      repeated eight splits the run across two windows. */
  lemma HiddenIsFlush()
    ensures SortStrongestFirst(Hidden) == Hidden
    ensures Straights(Hidden) == []
    ensures HandRankOf(Hidden).value.handRank == Flush
  {
    assert StrongestFirst(Hidden);
    SortedStays(Hidden);
    HiddenHasNoStraight();
    StraightsNonEmpty(Hidden);
    HiddenSpades();
    forall k: nat ensures |Filter(Hidden, RankOf, k)| <= 2 {
      HiddenRankCounts(k);
    }
    FlushWithoutRun(Hidden, 0);
    CategoryIsBest(Hidden);
  }

  /** A hand with five cards of a suit, no straight window and no rank held
      three times is best made as a flush. */
  lemma FlushWithoutRun(cards: seq<Card>, suit: nat)
    requires !HasStraight(cards) && |Filter(cards, SuitOf, suit)| >= 5
    requires forall k: nat :: |Filter(cards, RankOf, k)| <= 2
    ensures BestCategory(cards) == Flush
  {
    assert HasFlush(cards);
    assert !HasStraightFlush(cards);
    assert !HasRankGroup(cards, 4) && !HasRankGroup(cards, 3) && !HasTwoRankGroups(cards, 3);
  }
}
