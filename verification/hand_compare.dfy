/**
 * Comparing evaluated hands: `__cmp__` orders two hands by category, then
 * by the cards making the category, then by the kickers, pairing cards
 * position by position as `zip` does.
 */
module HandCompare {
  import opened Wrappers
  import opened Cards
  import opened HandEval
  import opened HandGroups

  /** The three fields `evaluate` sets and `__cmp__` reads. */
  datatype Evaluated = Evaluated(handRank: nat, handCards: seq<Card>, kickers: seq<Card>)

  /** `evaluate()`: `_eval_hand_rank` followed by `_fill_kickers`. */
  function Evaluate(cards: seq<Card>): Result<Evaluated, HandError>
  {
    match HandRankOf(cards)
    case Failure(e) => Failure(e)
    case Success(m) =>
      match KickersOf(cards, m.handCards)
      case None => Failure(MissingCard)
      case Some(k) => Success(Evaluated(m.handRank, m.handCards, k))
  }

  /** The category is made by its usual number of cards, as it is for
      every evaluated hand. */
  ghost predicate SizedHand(e: Evaluated)
  {
    |e.handCards| == HandSize(e.handRank)
  }

  /** A hand evaluated from five cards or more: sized, and the kickers make
      the hand up to five. */
  ghost predicate FullHand(e: Evaluated)
  {
    SizedHand(e) && |e.handCards| + |e.kickers| == 5
  }

  /** Evaluation fails only on an empty hand (never on a missing card), and
      from five cards or more it gives a full hand whose cards and kickers
      are cards of the hand. */
  lemma EvaluateFacts(cards: seq<Card>)
    ensures Evaluate(cards).Success? <==> cards != []
    ensures cards == [] ==> Evaluate(cards) == Failure(NoCards)
    ensures Evaluate(cards).Success? ==>
      multiset(Evaluate(cards).value.handCards) + multiset(Evaluate(cards).value.kickers) <= multiset(cards)
    ensures Evaluate(cards).Success? ==> SizedHand(Evaluate(cards).value)
    ensures |cards| >= 5 ==> FullHand(Evaluate(cards).value)
  {
    if cards != [] {
      var m := HandRankOf(cards).value;
      HandCardsInside(cards);
      KickersFacts(cards, m.handCards);
      HandSizes(cards);
      if |cards| >= 5 {
        FiveCards(cards);
      }
    }
  }

  /** One `for c1, c2 in zip(xs, ys)` loop of `__cmp__`: 1 or -1 from the
      first pair of cards of different strength, 0 when `zip` runs out
      without one. */
  function CompareCards(xs: seq<Card>, ys: seq<Card>): (r: int)
    ensures r == 1 || r == 0 || r == -1
  {
    if xs == [] || ys == [] then 0
    else if Greater(xs[0], ys[0]) then 1
    else if Less(xs[0], ys[0]) then -1
    else CompareCards(xs[1..], ys[1..])
  }

  /** `__cmp__`. */
  function Compare(a: Evaluated, b: Evaluated): (r: int)
    ensures r == 1 || r == 0 || r == -1
  {
    if a.handRank > b.handRank then 1
    else if a.handRank < b.handRank then -1
    else if CompareCards(a.handCards, b.handCards) != 0 then CompareCards(a.handCards, b.handCards)
    else CompareCards(a.kickers, b.kickers)
  }

  /** Every pair of cards `zip` forms has equal ranks. */
  predicate SameStrength(xs: seq<Card>, ys: seq<Card>)
  {
    forall i :: 0 <= i < |xs| && i < |ys| ==> xs[i].rank == ys[i].rank
  }

  /** `xs` beats `ys`: at the first position where `zip` pairs cards of
      different ranks, the card of `xs` is stronger. */
  predicate Beats(xs: seq<Card>, ys: seq<Card>)
  {
    exists i :: 0 <= i < |xs| && i < |ys| && xs[i].rank < ys[i].rank
      && forall j :: 0 <= j < i ==> xs[j].rank == ys[j].rank
  }

  /** The card loop finds no difference exactly when the paired cards all
      have the same strength. */
  lemma {:induction false} CompareCardsTie(xs: seq<Card>, ys: seq<Card>)
    ensures CompareCards(xs, ys) == 0 <==> SameStrength(xs, ys)
  {
    if xs != [] && ys != [] {
      CompareCardsTie(xs[1..], ys[1..]);
      if xs[0].rank == ys[0].rank && SameStrength(xs[1..], ys[1..]) {
        forall i | 0 <= i < |xs| && i < |ys|
          ensures xs[i].rank == ys[i].rank
        {
          if i > 0 {
            assert xs[1..][i - 1] == xs[i] && ys[1..][i - 1] == ys[i];
          }
        }
      }
      if SameStrength(xs, ys) {
        forall i | 0 <= i < |xs[1..]| && i < |ys[1..]|
          ensures xs[1..][i].rank == ys[1..][i].rank
        {
          assert xs[i + 1].rank == ys[i + 1].rank;
        }
      }
    }
  }

  /** The card loop answers 1 exactly when `xs` beats `ys`. */
  lemma {:induction false} CompareCardsBeats(xs: seq<Card>, ys: seq<Card>)
    ensures CompareCards(xs, ys) == 1 <==> Beats(xs, ys)
  {
    if xs != [] && ys != [] {
      CompareCardsBeats(xs[1..], ys[1..]);
      if CompareCards(xs, ys) == 1 {
        if xs[0].rank < ys[0].rank {
          assert Beats(xs, ys) by {
            assert 0 < |xs| && 0 < |ys| && xs[0].rank < ys[0].rank;
          }
        } else {
          var i :| 0 <= i < |xs[1..]| && i < |ys[1..]| && xs[1..][i].rank < ys[1..][i].rank
            && forall j :: 0 <= j < i ==> xs[1..][j].rank == ys[1..][j].rank;
          BeatsStep(xs, ys, i);
        }
      }
      if Beats(xs, ys) {
        var i :| 0 <= i < |xs| && i < |ys| && xs[i].rank < ys[i].rank
          && forall j :: 0 <= j < i ==> xs[j].rank == ys[j].rank;
        if i > 0 {
          assert xs[0].rank == ys[0].rank;
          assert 0 <= i - 1 < |xs[1..]| && i - 1 < |ys[1..]| && xs[1..][i - 1].rank < ys[1..][i - 1].rank;
          forall j | 0 <= j < i - 1
            ensures xs[1..][j].rank == ys[1..][j].rank
          {
            assert xs[j + 1].rank == ys[j + 1].rank;
          }
        }
      }
    }
  }

  /** Helper: a win after equal first cards is a win. */
  lemma BeatsStep(xs: seq<Card>, ys: seq<Card>, i: nat)
    requires xs != [] && ys != [] && xs[0].rank == ys[0].rank
    requires i < |xs[1..]| && i < |ys[1..]| && xs[1..][i].rank < ys[1..][i].rank
    requires forall j :: 0 <= j < i ==> xs[1..][j].rank == ys[1..][j].rank
    ensures Beats(xs, ys)
  {
    forall j | 0 <= j < i + 1
      ensures xs[j].rank == ys[j].rank
    {
      if j > 0 {
        assert xs[j] == xs[1..][j - 1] && ys[j] == ys[1..][j - 1];
      }
    }
    assert xs[i + 1] == xs[1..][i];
  }

  /** Swapping the lists negates the card loop's answer. */
  lemma {:induction false} CompareCardsAntisymmetric(xs: seq<Card>, ys: seq<Card>)
    ensures CompareCards(ys, xs) == -CompareCards(xs, ys)
  {
    if xs != [] && ys != [] {
      CompareCardsAntisymmetric(xs[1..], ys[1..]);
    }
  }

  /** A win over a win is a win, whatever the lengths of the lists. */
  lemma {:induction false} CompareCardsTransitive(xs: seq<Card>, ys: seq<Card>, zs: seq<Card>)
    requires CompareCards(xs, ys) == 1 && CompareCards(ys, zs) == 1
    ensures CompareCards(xs, zs) == 1
  {
    if xs[0].rank == ys[0].rank && ys[0].rank == zs[0].rank {
      CompareCardsTransitive(xs[1..], ys[1..], zs[1..]);
    }
  }

  /** Replacing `ys` by a list of the same length and the same strengths
      does not change the answer against `xs`. */
  lemma {:induction false} CompareCardsCongruent(xs: seq<Card>, ys: seq<Card>, zs: seq<Card>)
    requires |ys| == |zs| && CompareCards(ys, zs) == 0
    ensures CompareCards(xs, ys) == CompareCards(xs, zs)
  {
    if xs != [] && ys != [] {
      CompareCardsCongruent(xs[1..], ys[1..], zs[1..]);
    }
  }

  /** `cmp(b, a) == -cmp(a, b)`. */
  lemma CompareAntisymmetric(a: Evaluated, b: Evaluated)
    ensures Compare(b, a) == -Compare(a, b)
  {
    CompareCardsAntisymmetric(a.handCards, b.handCards);
    CompareCardsAntisymmetric(a.kickers, b.kickers);
  }

  /** `cmp(a, a) == 0`. */
  lemma CompareReflexive(a: Evaluated)
    ensures Compare(a, a) == 0
  {
    CompareCardsTie(a.handCards, a.handCards);
    CompareCardsTie(a.kickers, a.kickers);
  }

  /** `__cmp__` answers 0 only when the categories are equal and the hand
      cards and the kickers pair off in equal strengths. */
  lemma CompareTie(a: Evaluated, b: Evaluated)
    ensures Compare(a, b) == 0 <==>
      a.handRank == b.handRank && SameStrength(a.handCards, b.handCards) && SameStrength(a.kickers, b.kickers)
  {
    CompareCardsTie(a.handCards, b.handCards);
    CompareCardsTie(a.kickers, b.kickers);
  }

  /** `__cmp__` is the lexicographic order on (category, hand cards,
      kickers), a higher category and stronger cards winning. */
  lemma CompareLexicographic(a: Evaluated, b: Evaluated)
    ensures Compare(a, b) == 1 <==>
      a.handRank > b.handRank
      || (a.handRank == b.handRank && Beats(a.handCards, b.handCards))
      || (a.handRank == b.handRank && SameStrength(a.handCards, b.handCards) && Beats(a.kickers, b.kickers))
  {
    CompareCardsTie(a.handCards, b.handCards);
    CompareCardsBeats(a.handCards, b.handCards);
    CompareCardsBeats(a.kickers, b.kickers);
  }

  /** Between full hands, tied hands are interchangeable. */
  lemma CompareTieCongruent(a: Evaluated, b: Evaluated, c: Evaluated)
    requires FullHand(b) && FullHand(c) && Compare(b, c) == 0
    ensures Compare(a, b) == Compare(a, c)
  {
    assert CompareCards(b.handCards, c.handCards) == 0;
    CompareCardsCongruent(a.handCards, b.handCards, c.handCards);
    CompareCardsCongruent(a.kickers, b.kickers, c.kickers);
  }

  /** Between full hands, a tie with a hand tied with a third is a tie
      with the third. */
  lemma CompareTieTransitive(a: Evaluated, b: Evaluated, c: Evaluated)
    requires FullHand(b) && FullHand(c)
    requires Compare(a, b) == 0 && Compare(b, c) == 0
    ensures Compare(a, c) == 0
  {
    CompareTieCongruent(a, b, c);
  }

  /** Between evaluated hands of any size, beating a hand that beats a
      third beats the third; only ties need full hands. */
  lemma CompareTransitive(a: Evaluated, b: Evaluated, c: Evaluated)
    requires SizedHand(a) && SizedHand(b) && SizedHand(c)
    requires Compare(a, b) == 1 && Compare(b, c) == 1
    ensures Compare(a, c) == 1
  {
    if a.handRank == b.handRank && b.handRank == c.handRank {
      var ab := CompareCards(a.handCards, b.handCards);
      var bc := CompareCards(b.handCards, c.handCards);
      if ab == 1 && bc == 1 {
        CompareCardsTransitive(a.handCards, b.handCards, c.handCards);
      } else if ab == 1 {
        CompareCardsCongruent(a.handCards, b.handCards, c.handCards);
      } else if bc == 1 {
        CompareCardsAntisymmetric(a.handCards, b.handCards);
        CompareCardsCongruent(c.handCards, b.handCards, a.handCards);
        CompareCardsAntisymmetric(c.handCards, a.handCards);
        CompareCardsAntisymmetric(c.handCards, b.handCards);
      } else {
        CompareCardsCongruent(a.handCards, b.handCards, c.handCards);
        CompareCardsTransitive(a.kickers, b.kickers, c.kickers);
      }
    }
  }

  /** With fewer than five cards the kickers of tied hands can differ in
      number, and ties stop being transitive: a lone ace ties with ace-king
      and with ace-queen, which do not tie with each other. */
  lemma ShortHandsTieIntransitive()
    ensures var a := Evaluated(HighCard, [Card(0, 0)], []);
      var b := Evaluated(HighCard, [Card(0, 1)], [Card(1, 0)]);
      var c := Evaluated(HighCard, [Card(0, 2)], [Card(2, 0)]);
      Compare(a, b) == 0 && Compare(a, c) == 0 && Compare(b, c) == 1
  {
  }

  /** A high-card hand is made by its strongest card, and its kickers are
      the next four cards (all the others in a hand of five). */
  lemma HighCardKickers(cards: seq<Card>)
    requires cards != [] && HandRankOf(cards).value.handRank == HighCard
    ensures Evaluate(cards).Success?
    ensures Evaluate(cards).value.handCards == [cards[0]]
    ensures Evaluate(cards).value.kickers == if |cards| >= 5 then cards[1..5] else cards[1..]
  {
    DecideHighCard(cards, Straights(cards), Flushes(cards), GroupsOf(ByRank(cards), 4),
                   GroupsOf(ByRank(cards), 3), GroupsOf(ByRank(cards), 2));
    FirstCardKickers(cards);
  }

  /** Helper: the kickers left beside the first card. */
  lemma FirstCardKickers(cards: seq<Card>)
    requires cards != []
    ensures KickersOf(cards, [cards[0]]) == Some(if |cards| >= 5 then cards[1..5] else cards[1..])
  {
    assert RemoveFirst(cards, cards[0]) == cards[1..];
    assert [cards[0]][1..] == [];
    assert RemoveEach(cards, [cards[0]]) == Some(cards[1..]);
    if |cards| >= 5 {
      assert cards[1..][..4] == cards[1..5];
    }
  }
}
