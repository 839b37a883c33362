/**
 * The PokerHand object: it sorts the list it is given in place, keeps it,
 * and `evaluate` sets the category, the cards making it and the kickers.
 */
module PokerHands {
  import opened Wrappers
  import opened Cards
  import opened HandSort
  import opened HandEval
  import opened HandCompare

  class PokerHand {
    /** The hand, strongest card first. */
    var cards: seq<Card>
    /** Whether `_eval_hand_rank` has set `hand_rank` and `hand_cards`. */
    var ranked: bool
    var handRank: nat
    var handCards: seq<Card>
    /** Whether `_fill_kickers` has set `kickers`. */
    var kicked: bool
    var kickers: seq<Card>

    /** Whatever has been set is what evaluating the cards gives. */
    ghost predicate Valid()
      reads this
    {
      (ranked ==> HandRankOf(cards) == Success(Made(handRank, handCards)))
      && (kicked ==> ranked && KickersOf(cards, handCards) == Some(kickers))
    }

    /** The fields `__cmp__` reads. */
    function Fields(): Evaluated
      reads this
    {
      Evaluated(handRank, handCards, kickers)
    }

    /** `PokerHand(cards, evaluate=False)`: sorts the caller's list in place,
        strongest first and stably, and keeps it. */
    constructor (hand: array<Card>)
      modifies hand
      ensures hand[..] == SortStrongestFirst(old(hand[..]))
      ensures cards == hand[..] && !ranked && !kicked
      ensures Valid()
    {
      SortInPlace(hand);
      cards := hand[..];
      ranked, handRank, handCards := false, 0, [];
      kicked, kickers := false, [];
    }

    /** `PokerHand(cards)`: the constructor followed by `evaluate`. */
    static method Create(hand: array<Card>, evaluate: bool) returns (h: PokerHand, r: Outcome<HandError>)
      modifies hand
      ensures fresh(h) && h.Valid()
      ensures hand[..] == SortStrongestFirst(old(hand[..])) && h.cards == hand[..]
      ensures !evaluate ==> r == Pass && !h.ranked && !h.kicked
      ensures evaluate ==> (r == Pass <==> hand.Length > 0)
      ensures evaluate && r == Pass ==> h.ranked && h.kicked && Success(h.Fields()) == HandCompare.Evaluate(h.cards)
    {
      h := new PokerHand(hand);
      SortPerm(old(hand[..]));
      if evaluate {
        r := h.Evaluate();
      } else {
        r := Pass;
      }
    }

    /** `evaluate`: the category, then the kickers. It fails only on an
        empty hand; the category is the best the cards make, and the hand
        cards and kickers are cards of the hand, five of them when the hand
        has five cards or more. */
    method Evaluate() returns (r: Outcome<HandError>)
      requires Valid()
      modifies this
      ensures Valid() && cards == old(cards)
      ensures r == Pass <==> cards != []
      ensures r.Fail? ==> r.error == NoCards && unchanged(this)
      ensures r == Pass ==> ranked && kicked && Success(Fields()) == HandCompare.Evaluate(cards)
      ensures r == Pass ==> handRank == BestCategory(cards)
      ensures r == Pass ==> multiset(handCards) + multiset(kickers) <= multiset(cards)
      ensures r == Pass && |cards| >= 5 ==> |handCards| + |kickers| == 5
    {
      r := EvalHandRank();
      if r.Fail? {
        return;
      }
      CategoryIsBest(cards);
      HandCardsInside(cards);
      r := FillKickers();
      EvaluateFacts(cards);
    }

    /** `_eval_hand_rank`: sets the category and the cards making it, or
        fails on an empty hand leaving the object as it was. */
    method EvalHandRank() returns (r: Outcome<HandError>)
      requires Valid()
      modifies this
      ensures Valid() && cards == old(cards) && kicked == old(kicked) && kickers == old(kickers)
      ensures HandRankOf(cards).Failure? ==> r == Fail(HandRankOf(cards).error) && unchanged(this)
      ensures HandRankOf(cards).Success? ==> r == Pass && ranked && Made(handRank, handCards) == HandRankOf(cards).value
    {
      match HandRankOf(cards)
      case Failure(e) =>
        r := Fail(e);
      case Success(m) =>
        handRank, handCards, ranked := m.handRank, m.handCards, true;
        r := Pass;
    }

    /** `_fill_kickers`: takes each hand card once out of a copy of the
        cards and keeps the first `5 - |handCards|` left; a missing hand
        card fails before any field changes. */
    method FillKickers() returns (r: Outcome<HandError>)
      requires Valid()
      modifies this
      ensures Valid()
      ensures cards == old(cards) && ranked == old(ranked) && handRank == old(handRank) && handCards == old(handCards)
      ensures !ranked ==> r == Fail(NotEvaluated) && unchanged(this)
      ensures ranked && KickersOf(cards, handCards).None? ==> r == Fail(MissingCard) && unchanged(this)
      ensures ranked && KickersOf(cards, handCards).Some? ==> r == Pass && kicked && kickers == KickersOf(cards, handCards).value
    {
      if !ranked {
        return Fail(NotEvaluated);
      }
      var kickerCount := 5 - |handCards|;
      if kickerCount <= 0 {
        kickers, kicked := [], true;
        return Pass;
      }
      var left := TakeOutEach(cards, handCards);
      if left.None? {
        return Fail(MissingCard);
      }
      var rest := left.value;
      kickers := if kickerCount <= |rest| then rest[..kickerCount] else rest;
      kicked := true;
      r := Pass;
    }
  }

  /** The loop of `_fill_kickers`: `kickers.remove(card)` for each hand
      card in turn on a copy of the cards; None at the first hand card
      that is not left. */
  method TakeOutEach(s: seq<Card>, hand: seq<Card>) returns (r: Option<seq<Card>>)
    ensures r == RemoveEach(s, hand)
  {
    var rest := s;
    var i := 0;
    while i < |hand|
      invariant 0 <= i <= |hand|
      invariant RemoveEach(s, hand) == RemoveEach(rest, hand[i..])
    {
      var card := hand[i];
      assert hand[i..] == [card] + hand[i + 1..];
      if card !in rest {
        return None;
      }
      rest := RemoveFirst(rest, card);
      i := i + 1;
    }
    r := Some(rest);
  }
}
