/**
 * The deck: 52 cards split into the undealt `active` pile (its end is the
 * top of the deck), the `popped` pile of dealt cards and the `discarded`
 * pile. The pure part describes the three piles as a value and the
 * `return_cards` family as functions over it; class Deck holds the piles
 * as fields and its methods update them in place.
 */
module Decks {
  import opened Wrappers
  import opened Cards

  /** Ends of the deck `return_cards` can put cards back at. */
  const PosTop: int := 0
  const PosBottom: int := 1

  /** EmptyDeck: popping an empty list. InvalidPos: a position that is
      neither end. NotTracked: returning a card that is in no removed pile.
      NothingReturned: returning an empty list, which leaves the loop
      variable unbound when the source reinserts it. */
  datatype DeckError = EmptyDeck | InvalidPos | NotTracked | NothingReturned

  datatype Piles = Piles(active: seq<Card>, popped: seq<Card>, discarded: seq<Card>)

  /** The fresh deck's order: suit by suit, ranks strongest first within a suit. */
  function FullDeck(): (d: seq<Card>)
    ensures |d| == 52
  {
    seq(52, i requires 0 <= i < 52 => Card(i % 13, i / 13))
  }

  /** Every card occurs exactly once in the fresh deck, at position
      13 * suit + rank, so the deck has 52 pairwise distinct cards. */
  lemma FullDeckLayout()
    ensures forall c: Card :: FullDeck()[13 * c.suit + c.rank] == c
    ensures forall i, j :: 0 <= i < j < 52 ==> FullDeck()[i] != FullDeck()[j]
    ensures forall c: Card :: multiset(FullDeck())[c] == 1
  {
    var d := FullDeck();
    forall c: Card ensures d[13 * c.suit + c.rank] == c {
      FullDeckAt(c);
    }
    forall c: Card ensures multiset(d)[c] == 1 {
      DistinctCount(d, c);
      FullDeckAt(c);
    }
  }

  lemma FullDeckAt(c: Card)
    ensures FullDeck()[13 * c.suit + c.rank] == c
  {
    var i := 13 * c.suit + c.rank;
    assert i / 13 == c.suit && i % 13 == c.rank;
  }

  /** In a sequence without repeats each member occurs once. */
  lemma {:induction false} DistinctCount(s: seq<Card>, c: Card)
    requires forall i, j :: 0 <= i < j < |s| ==> s[i] != s[j]
    ensures multiset(s)[c] == if c in s then 1 else 0
  {
    if s != [] {
      assert s == [s[0]] + s[1..];
      DistinctCount(s[1..], c);
      assert s[0] !in s[1..];
    }
  }

  /** Cards held in the three piles together. */
  function Held(p: Piles): multiset<Card>
  {
    multiset(p.active) + multiset(p.popped) + multiset(p.discarded)
  }

  /** `sum(stats())`. */
  function Total(p: Piles): nat
  {
    |p.active| + |p.popped| + |p.discarded|
  }

  /** The piles hold part of one 52-card deck: no card is held twice. */
  ghost predicate Sound(p: Piles)
  {
    Held(p) <= multiset(FullDeck())
  }

  /** The piles hold exactly the 52 cards of the deck. */
  ghost predicate Intact(p: Piles)
  {
    Held(p) == multiset(FullDeck())
  }

  /** An intact deck holds 52 cards, each of them once. */
  lemma IntactTotal(p: Piles)
    requires Intact(p)
    ensures Total(p) == 52 && Sound(p)
    ensures forall c: Card :: Held(p)[c] == 1
  {
    FullDeckLayout();
    assert |Held(p)| == Total(p);
  }

  /** A sound deck holds at most 52 cards and no card twice. */
  lemma SoundTotal(p: Piles)
    requires Sound(p)
    ensures Total(p) <= 52
    ensures forall c: Card :: Held(p)[c] <= 1
  {
    FullDeckLayout();
    var full := multiset(FullDeck());
    assert full == Held(p) + (full - Held(p));
    assert |Held(p)| == Total(p);
  }

  /** One pass of the `return_cards` loop: take `c` out of the discard pile
      if it is there, otherwise out of the dealt pile; None if in neither. */
  function TakeBack(p: Piles, c: Card): (r: Option<Piles>)
    ensures r.Some? <==> c in p.discarded || c in p.popped
    ensures r.Some? ==> r.value.active == p.active && Total(r.value) + 1 == Total(p)
  {
    if c in p.discarded then Some(p.(discarded := RemoveFirst(p.discarded, c)))
    else if c in p.popped then Some(p.(popped := RemoveFirst(p.popped, c)))
    else None
  }

  /** A successful TakeBack removes exactly one copy of `c`: from the
      discard pile when it holds one, otherwise from the dealt pile; the
      other pile is left as it was. */
  lemma TakeBackEffect(p: Piles, c: Card)
    requires TakeBack(p, c).Some?
    ensures Held(TakeBack(p, c).value) + multiset{c} == Held(p)
    ensures c in p.discarded ==> TakeBack(p, c).value.popped == p.popped
    ensures c in p.discarded ==> multiset(TakeBack(p, c).value.discarded) + multiset{c} == multiset(p.discarded)
    ensures c !in p.discarded ==> TakeBack(p, c).value.discarded == p.discarded
    ensures c !in p.discarded ==> multiset(TakeBack(p, c).value.popped) + multiset{c} == multiset(p.popped)
  {
    if c in p.discarded {
      RemoveFirstPerm(p.discarded, c);
    } else {
      RemoveFirstPerm(p.popped, c);
    }
  }

  /** The `return_cards` loop over `cards`, stopping at the first card that
      is in no removed pile; the flag says whether every card was found.
      Cards taken before a failure stay taken. */
  function Withdraw(p: Piles, cards: seq<Card>): (r: (Piles, bool))
    ensures r.0.active == p.active
    ensures r.1 ==> Total(r.0) + |cards| == Total(p)
  {
    if cards == [] then (p, true)
    else
      var w := Withdraw(p, cards[..|cards| - 1]);
      if !w.1 then w
      else match TakeBack(w.0, cards[|cards| - 1])
        case None => (w.0, false)
        case Some(q) => (q, true)
  }

  /** What the loop does to the piles: it only removes cards from the
      removed piles; when it succeeds it has removed exactly `cards`. */
  lemma {:induction false} WithdrawEffect(p: Piles, cards: seq<Card>)
    ensures Withdraw(p, cards).0.active == p.active
    ensures Held(Withdraw(p, cards).0) <= Held(p)
    ensures Withdraw(p, cards).1 ==> Held(Withdraw(p, cards).0) + multiset(cards) == Held(p)
    ensures Withdraw(p, cards).1 ==> Total(Withdraw(p, cards).0) + |cards| == Total(p)
  {
    if cards != [] {
      var pre := cards[..|cards| - 1];
      var c := cards[|cards| - 1];
      assert cards == pre + [c];
      assert multiset(cards) == multiset(pre) + multiset{c};
      WithdrawEffect(p, pre);
      var w := Withdraw(p, pre).0;
      if Withdraw(p, pre).1 && TakeBack(w, c).Some? {
        TakeBackEffect(w, c);
      }
    }
  }

  /** `return_cards(cards, pos)` as the source has it: the position is
      checked first; each card is withdrawn in turn; then only the LAST card
      of `cards` is put back, at index 0 for BOTTOM or at the end for TOP. */
  function ReturnCardsResult(p: Piles, cards: seq<Card>, pos: int): (r: (Piles, Outcome<DeckError>))
    ensures r.1.Fail? ==> r.0.active == p.active
    ensures r.1.Pass? ==> cards != [] && |r.0.active| == |p.active| + 1
    ensures r.1.Pass? ==> r.0.active[if pos == PosBottom then 0 else |p.active|] == cards[|cards| - 1]
    ensures r.1.Pass? ==> r.0.active == if pos == PosBottom then [cards[|cards| - 1]] + p.active else p.active + [cards[|cards| - 1]]
  {
    if pos != PosBottom && pos != PosTop then (p, Fail(InvalidPos))
    else
      var w := Withdraw(p, cards);
      if !w.1 then (w.0, Fail(NotTracked))
      else if cards == [] then (w.0, Fail(NothingReturned))
      else (PutBack(w.0, cards[|cards| - 1], pos), Pass)
  }

  /** Puts `c` into the active pile: at index 0 for BOTTOM, else at the end. */
  function PutBack(p: Piles, c: Card, pos: int): (q: Piles)
    ensures Held(q) == Held(p) + multiset{c} && Total(q) == Total(p) + 1
    ensures q.popped == p.popped && q.discarded == p.discarded
    ensures q.active == if pos == PosBottom then [c] + p.active else p.active + [c]
  {
    if pos == PosBottom then p.(active := [c] + p.active) else p.(active := p.active + [c])
  }

  /** Returning never duplicates a card, and a successful return of n cards
      leaves the deck n - 1 cards short: all n leave their piles but only
      one reaches the active pile. A failure leaves the active pile alone,
      and a bad position changes nothing at all. */
  lemma ReturnCardsCount(p: Piles, cards: seq<Card>, pos: int)
    requires Sound(p)
    ensures Sound(ReturnCardsResult(p, cards, pos).0)
    ensures ReturnCardsResult(p, cards, pos).1.Pass? ==>
      |cards| >= 1 && Total(ReturnCardsResult(p, cards, pos).0) == Total(p) - |cards| + 1
    ensures ReturnCardsResult(p, cards, pos).1 == Fail(InvalidPos) ==> ReturnCardsResult(p, cards, pos).0 == p
    ensures ReturnCardsResult(p, cards, pos).1.Fail? ==> ReturnCardsResult(p, cards, pos).0.active == p.active
  {
    if pos == PosBottom || pos == PosTop {
      if Withdraw(p, cards).1 && cards != [] {
        ReturnedLastCard(p, cards, pos);
      } else {
        WithdrawEffect(p, cards);
        SoundSubset(Withdraw(p, cards).0, p);
      }
    }
  }

  /** The successful case of ReturnCardsCount. */
  lemma ReturnedLastCard(p: Piles, cards: seq<Card>, pos: int)
    requires Sound(p)
    requires pos == PosBottom || pos == PosTop
    requires Withdraw(p, cards).1 && cards != []
    ensures ReturnCardsResult(p, cards, pos).1 == Pass
    ensures Sound(ReturnCardsResult(p, cards, pos).0)
    ensures Total(ReturnCardsResult(p, cards, pos).0) == Total(p) - |cards| + 1
  {
    var w := Withdraw(p, cards).0;
    var c := cards[|cards| - 1];
    WithdrawEffect(p, cards);
    LastCardHeld(w, p, cards);
    SoundSubset(PutBack(w, c, pos), p);
  }

  /** Helper: putting back one of the withdrawn cards stays within what was held. */
  lemma LastCardHeld(w: Piles, p: Piles, cards: seq<Card>)
    requires cards != [] && Held(w) + multiset(cards) == Held(p)
    ensures Held(w) + multiset{cards[|cards| - 1]} <= Held(p)
  {
    assert cards == cards[..|cards| - 1] + [cards[|cards| - 1]];
    assert multiset(cards) == multiset(cards[..|cards| - 1]) + multiset{cards[|cards| - 1]};
  }

  /** Piles holding part of what sound piles hold are sound. */
  lemma SoundSubset(q: Piles, p: Piles)
    requires Sound(p) && Held(q) <= Held(p)
    ensures Sound(q)
  {
  }

  /** With a single card the return is an exact move: an intact deck stays
      intact, and the card lands at the requested end of the active pile. */
  lemma ReturnOneCard(p: Piles, c: Card, pos: int)
    requires Intact(p)
    requires c in p.popped || c in p.discarded
    requires pos == PosBottom || pos == PosTop
    ensures ReturnCardsResult(p, [c], pos).1 == Pass
    ensures Intact(ReturnCardsResult(p, [c], pos).0)
    ensures ReturnCardsResult(p, [c], pos).0.active == if pos == PosBottom then [c] + p.active else p.active + [c]
  {
    assert [c][..0] == [];
    WithdrawEffect(p, [c]);
    var q := ReturnCardsResult(p, [c], pos).0;
    assert Held(q) == Held(Withdraw(p, [c]).0) + multiset{c};
  }

  /** The defect in `return_cards`: from an intact deck, a successful return
      of two or more cards leaves the deck with fewer than 52 cards. */
  lemma ReturnCardsLosesCards(p: Piles, cards: seq<Card>, pos: int)
    requires Intact(p)
    requires |cards| >= 2
    ensures ReturnCardsResult(p, cards, pos).1.Pass? ==>
      Total(ReturnCardsResult(p, cards, pos).0) < 52 && !Intact(ReturnCardsResult(p, cards, pos).0)
  {
    IntactTotal(p);
    ReturnCardsCount(p, cards, pos);
    var q := ReturnCardsResult(p, cards, pos).0;
    if Intact(q) {
      IntactTotal(q);
    }
  }

  /** The corrected `return_cards`: all-or-nothing, and every returned card
      goes back, in input order, at the requested end. */
  function ReturnCardsFixed(p: Piles, cards: seq<Card>, pos: int): (Piles, Outcome<DeckError>)
  {
    if pos != PosBottom && pos != PosTop then (p, Fail(InvalidPos))
    else
      var w := Withdraw(p, cards);
      if !w.1 then (p, Fail(NotTracked))
      else if pos == PosBottom then (w.0.(active := cards + w.0.active), Pass)
      else (w.0.(active := w.0.active + cards), Pass)
  }

  /** The corrected return keeps every card: an intact deck stays intact,
      the active pile gains exactly the returned cards, and a failure
      changes nothing. */
  lemma ReturnCardsFixedConserves(p: Piles, cards: seq<Card>, pos: int)
    requires Intact(p)
    ensures Intact(ReturnCardsFixed(p, cards, pos).0)
    ensures Total(ReturnCardsFixed(p, cards, pos).0) == 52
    ensures ReturnCardsFixed(p, cards, pos).1.Fail? ==> ReturnCardsFixed(p, cards, pos).0 == p
    ensures ReturnCardsFixed(p, cards, pos).1.Pass? ==>
      multiset(ReturnCardsFixed(p, cards, pos).0.active) == multiset(p.active) + multiset(cards)
  {
    var q := ReturnCardsFixed(p, cards, pos).0;
    FixedKeepsHeld(p, cards, pos);
    IntactTotal(q);
  }

  /** Helper: the corrected return holds the same cards before and after. */
  lemma FixedKeepsHeld(p: Piles, cards: seq<Card>, pos: int)
    ensures Held(ReturnCardsFixed(p, cards, pos).0) == Held(p)
    ensures ReturnCardsFixed(p, cards, pos).1.Pass? ==>
      multiset(ReturnCardsFixed(p, cards, pos).0.active) == multiset(p.active) + multiset(cards)
  {
    WithdrawEffect(p, cards);
  }

  /** A deck that has dealt two cards and returns them both with
      `return_popped` ends up with 51 cards. */
  lemma ReturnPoppedAfterTwoDeals()
    ensures var d := FullDeck();
      var p := Piles(d[..50], [d[51], d[50]], []);
      Intact(p) && ReturnCardsResult(p, p.popped, PosBottom).1 == Pass
      && Total(ReturnCardsResult(p, p.popped, PosBottom).0) == 51
  {
    var d := FullDeck();
    var p := Piles(d[..50], [d[51], d[50]], []);
    assert d == d[..50] + [d[50], d[51]];
    assert multiset([d[51], d[50]]) == multiset([d[50], d[51]]);
    assert Held(p) == multiset(d);
    WithdrawAll(p, true);
    ReturnCardsCount(p, p.popped, PosBottom);
  }

  /** `return_all(pos)`: ignores `pos`, returns the dealt pile to the bottom,
      and only if that succeeded the discard pile too. */
  function ReturnAllResult(p: Piles): (r: (Piles, Outcome<DeckError>))
    ensures r.1.Pass? ==> |r.0.active| == |p.active| + 2
  {
    var first := ReturnCardsResult(p, p.popped, PosBottom);
    if first.1.Fail? then first
    else ReturnCardsResult(first.0, first.0.discarded, PosBottom)
  }

  /** From an intact deck with cards in both removed piles, `return_all`
      empties both but recovers only two of their cards. */
  lemma ReturnAllCount(p: Piles)
    requires Intact(p)
    requires p.popped != [] && p.discarded != []
    ensures ReturnAllResult(p).1 == Pass
    ensures Total(ReturnAllResult(p).0) == 52 - |p.popped| - |p.discarded| + 2
    ensures ReturnAllResult(p).0.popped == [] && ReturnAllResult(p).0.discarded == []
  {
    IntactTotal(p);
    WithdrawAll(p, true);
    ReturnCardsCount(p, p.popped, PosBottom);
    var q := ReturnCardsResult(p, p.popped, PosBottom).0;
    assert q.discarded == p.discarded;
    WithdrawAll(q, false);
    ReturnCardsCount(q, q.discarded, PosBottom);
  }

  /** Withdrawing a sound deck's whole dealt pile (`fromPopped`) or whole
      discard pile always succeeds, empties that pile and leaves the other
      removed pile alone. */
  lemma WithdrawAll(p: Piles, fromPopped: bool)
    requires Sound(p)
    ensures var cards := if fromPopped then p.popped else p.discarded;
      var q := Withdraw(p, cards).0;
      Withdraw(p, cards).1
      && (fromPopped ==> q.popped == [] && q.discarded == p.discarded)
      && (!fromPopped ==> q.discarded == [] && q.popped == p.popped)
  {
    var cards := if fromPopped then p.popped else p.discarded;
    WithdrawSuffix(p, fromPopped, |cards|);
    assert cards[..|cards|] == cards;
  }

  /** Invariant of withdrawing a pile's own cards: after its first `i` cards
      only the remaining suffix is left in that pile. */
  lemma {:induction false} WithdrawSuffix(p: Piles, fromPopped: bool, i: nat)
    requires Sound(p)
    requires i <= |if fromPopped then p.popped else p.discarded|
    ensures var cards := if fromPopped then p.popped else p.discarded;
      var q := Withdraw(p, cards[..i]).0;
      Withdraw(p, cards[..i]).1 && q.active == p.active
      && (fromPopped ==> q.popped == cards[i..] && q.discarded == p.discarded)
      && (!fromPopped ==> q.discarded == cards[i..] && q.popped == p.popped)
  {
    var cards := if fromPopped then p.popped else p.discarded;
    if i == 0 {
      assert cards[..0] == [];
    } else {
      WithdrawSuffix(p, fromPopped, i - 1);
      WithdrawPrefixStep(p, cards, i);
      var c := cards[i - 1];
      assert cards[i - 1..] == [c] + cards[i..];
      if fromPopped {
        DealtNotDiscarded(p, c);
      }
      TakeFront(Withdraw(p, cards[..i - 1]).0, c, cards[i..], fromPopped);
    }
  }

  /** Helper: taking back the first card of a pile that starts with it. */
  lemma TakeFront(q: Piles, c: Card, rest: seq<Card>, fromPopped: bool)
    requires fromPopped ==> q.popped == [c] + rest && c !in q.discarded
    requires !fromPopped ==> q.discarded == [c] + rest
    ensures fromPopped ==> TakeBack(q, c) == Some(q.(popped := rest))
    ensures !fromPopped ==> TakeBack(q, c) == Some(q.(discarded := rest))
  {
  }

  /** One more turn of the loop: the effect on the first `i` cards is the
      effect on the first `i - 1` followed by one TakeBack. */
  lemma WithdrawPrefixStep(p: Piles, cards: seq<Card>, i: nat)
    requires 1 <= i <= |cards|
    ensures Withdraw(p, cards[..i]) ==
      var w := Withdraw(p, cards[..i - 1]);
      if !w.1 then w
      else match TakeBack(w.0, cards[i - 1])
        case None => (w.0, false)
        case Some(q) => (q, true)
  {
    assert cards[..i][..i - 1] == cards[..i - 1];
  }

  /** In a sound deck no card is both dealt and discarded. */
  lemma DealtNotDiscarded(p: Piles, c: Card)
    requires Sound(p) && c in p.popped
    ensures c !in p.discarded
  {
    SoundTotal(p);
    assert multiset(p.popped)[c] >= 1;
    assert Held(p)[c] <= 1;
  }

  /** Moving the top card of `a` onto `b` keeps the cards of both together. */
  lemma MoveTopCard(a: seq<Card>, b: seq<Card>)
    requires a != []
    ensures multiset(a[..|a| - 1]) + multiset(b + [a[|a| - 1]]) == multiset(a) + multiset(b)
  {
    assert a == a[..|a| - 1] + [a[|a| - 1]];
  }

  /** The deck object: the three piles, updated in place. */
  class Deck {
    var active: seq<Card>
    var popped: seq<Card>
    var discarded: seq<Card>

    function State(): Piles
      reads this
    {
      Piles(active, popped, discarded)
    }

    /** No card is held twice (the returns of the source can lose cards,
        but never duplicate one). */
    ghost predicate Valid()
      reads this
    {
      Sound(State())
    }

    /** `Deck()`: all 52 cards in the active pile, suit by suit. */
    constructor ()
      ensures active == FullDeck() && popped == [] && discarded == []
      ensures Valid() && Intact(State())
    {
      popped := [];
      discarded := [];
      active := [];
      new;
      var s := 0;
      while s < 4
        invariant 0 <= s <= 4
        invariant active == FullDeck()[..13 * s] && popped == [] && discarded == []
      {
        var r := 0;
        while r < 13
          invariant 0 <= r <= 13
          invariant active == FullDeck()[..13 * s + r] && popped == [] && discarded == []
        {
          FullDeckAt(Card(r, s));
          assert FullDeck()[..13 * s + r + 1] == FullDeck()[..13 * s + r] + [Card(r, s)];
          active := active + [Card(r, s)];
          r := r + 1;
        }
        s := s + 1;
      }
      assert active == FullDeck();
      assert Held(State()) == multiset(FullDeck());
    }

    /** `shuffle()`: the new order of the active pile, which the source draws
        at random, is a parameter here; it must be a permutation of the pile. */
    method Shuffle(order: seq<Card>)
      requires Valid()
      requires multiset(order) == multiset(active)
      modifies this
      ensures Valid() && active == order
      ensures popped == old(popped) && discarded == old(discarded)
      ensures Held(State()) == Held(old(State()))
    {
      active := order;
    }

    /** `pop()`: deal the top card onto the dealt pile and return it. */
    method Pop() returns (r: Result<Card, DeckError>)
      requires Valid()
      modifies this
      ensures Valid()
      ensures old(active) == [] ==> r == Failure(EmptyDeck) && State() == old(State())
      ensures old(active) != [] ==>
        r == Success(old(active)[|old(active)| - 1])
        && active == old(active)[..|old(active)| - 1]
        && popped == old(popped) + [r.value] && discarded == old(discarded)
      ensures Held(State()) == Held(old(State()))
    {
      if active == [] {
        return Failure(EmptyDeck);
      }
      var card := active[|active| - 1];
      MoveTopCard(active, popped);
      active := active[..|active| - 1];
      popped := popped + [card];
      r := Success(card);
    }

    /** `discard()`: move the top card onto the discard pile. */
    method Discard() returns (r: Outcome<DeckError>)
      requires Valid()
      modifies this
      ensures Valid()
      ensures old(active) == [] ==> r == Fail(EmptyDeck) && State() == old(State())
      ensures old(active) != [] ==>
        r == Pass
        && active == old(active)[..|old(active)| - 1]
        && discarded == old(discarded) + [old(active)[|old(active)| - 1]]
        && popped == old(popped)
      ensures Held(State()) == Held(old(State()))
    {
      if active == [] {
        return Fail(EmptyDeck);
      }
      var card := active[|active| - 1];
      MoveTopCard(active, discarded);
      ghost var before := State();
      active := active[..|active| - 1];
      discarded := discarded + [card];
      assert Held(State()) == multiset(active) + multiset(discarded) + multiset(popped);
      assert Held(before) == multiset(before.active) + multiset(before.discarded) + multiset(popped);
      r := Pass;
    }

    /** `return_cards(cards, pos)`, as written (see ReturnCardsResult). */
    method ReturnCards(cards: seq<Card>, pos: int) returns (r: Outcome<DeckError>)
      requires Valid()
      modifies this
      ensures Valid()
      ensures (State(), r) == ReturnCardsResult(old(State()), cards, pos)
    {
      ghost var start := State();
      if pos != PosBottom && pos != PosTop {
        return Fail(InvalidPos);
      }
      var ok := TakeBackAll(cards);
      if !ok {
        ReturnCardsCount(start, cards, pos);
        return Fail(NotTracked);
      }
      if |cards| == 0 {
        ReturnCardsCount(start, cards, pos);
        return Fail(NothingReturned);
      }
      var card := cards[|cards| - 1];
      ghost var taken := State();
      if pos == PosBottom {
        active := [card] + active;
      } else {
        active := active + [card];
      }
      r := Pass;
      assert State() == PutBack(taken, card, pos);
      ReturnCardsCount(start, cards, pos);
    }

    /** The loop of `return_cards`: remove each card from the discard pile,
        or failing that from the dealt pile, stopping at the first card that
        is in neither. */
    method TakeBackAll(cards: seq<Card>) returns (ok: bool)
      modifies this
      ensures (State(), ok) == Withdraw(old(State()), cards)
    {
      ghost var start := State();
      var i := 0;
      assert cards[..0] == [];
      while i < |cards|
        invariant 0 <= i <= |cards|
        invariant Withdraw(start, cards[..i]) == (State(), true)
      {
        var card := cards[i];
        ghost var before := State();
        WithdrawNext(start, cards, i, before);
        if card in discarded {
          discarded := RemoveFirst(discarded, card);
        } else if card in popped {
          popped := RemoveFirst(popped, card);
        } else {
          return false;
        }
        i := i + 1;
      }
      assert cards[..|cards|] == cards;
      ok := true;
    }

    /** `return_discarded(pos)`: return the whole discard pile. */
    method ReturnDiscarded(pos: int) returns (r: Outcome<DeckError>)
      requires Valid()
      modifies this
      ensures Valid()
      ensures (State(), r) == ReturnCardsResult(old(State()), old(discarded), pos)
    {
      r := ReturnCards(discarded, pos);
    }

    /** `return_popped(pos)`: return the whole dealt pile. */
    method ReturnPopped(pos: int) returns (r: Outcome<DeckError>)
      requires Valid()
      modifies this
      ensures Valid()
      ensures (State(), r) == ReturnCardsResult(old(State()), old(popped), pos)
    {
      r := ReturnCards(popped, pos);
    }

    /** `return_all(pos)`: `pos` is ignored (see ReturnAllResult). */
    method ReturnAll(pos: int) returns (r: Outcome<DeckError>)
      requires Valid()
      modifies this
      ensures Valid()
      ensures (State(), r) == ReturnAllResult(old(State()))
    {
      r := ReturnPopped(PosBottom);
      if r.Fail? {
        return;
      }
      r := ReturnDiscarded(PosBottom);
    }

    /** `stats()`: the sizes of the three piles; never more than 52, and
        exactly 52 while the deck is intact. */
    method Stats() returns (activeCount: nat, poppedCount: nat, discardedCount: nat)
      requires Valid()
      ensures activeCount == |active| && poppedCount == |popped| && discardedCount == |discarded|
      ensures activeCount + poppedCount + discardedCount <= 52
      ensures Intact(State()) ==> activeCount + poppedCount + discardedCount == 52
    {
      SoundTotal(State());
      if Intact(State()) {
        IntactTotal(State());
      }
      activeCount, poppedCount, discardedCount := |active|, |popped|, |discarded|;
    }
  }

  /** One more turn of the loop, as the method takes it: on success the
      prefix grows by one card, on failure the whole loop fails here. */
  lemma WithdrawNext(p: Piles, cards: seq<Card>, i: nat, q: Piles)
    requires i < |cards|
    requires Withdraw(p, cards[..i]) == (q, true)
    ensures TakeBack(q, cards[i]).Some? ==> Withdraw(p, cards[..i + 1]) == (TakeBack(q, cards[i]).value, true)
    ensures TakeBack(q, cards[i]).None? ==> Withdraw(p, cards) == (q, false)
  {
    WithdrawPrefixStep(p, cards, i + 1);
    assert cards[..i + 1][..i] == cards[..i];
    if TakeBack(q, cards[i]).None? {
      WithdrawFailedFrom(p, cards, i + 1, q);
    }
  }

  /** Once the loop has failed it stays failed, with the piles as they
      were at the failure. */
  lemma {:induction false} WithdrawFailedFrom(p: Piles, cards: seq<Card>, i: nat, q: Piles)
    requires 1 <= i <= |cards|
    requires Withdraw(p, cards[..i]) == (q, false)
    ensures Withdraw(p, cards) == (q, false)
    decreases |cards| - i
  {
    if i == |cards| {
      assert cards[..i] == cards;
    } else {
      assert cards[..i + 1][..i] == cards[..i];
      WithdrawFailedFrom(p, cards, i + 1, q);
    }
  }
}
