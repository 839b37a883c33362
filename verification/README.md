# Cards, deck and poker-hand evaluation of `games.py`, in Dafny

This project models the card core of `games.py` (acgowda/Games):

- the `ranks` and `suits` tables and the `POS_TOP`/`POS_BOTTOM` constants;
- the `Card` value: its constructor and token parser, `str`, equality and the four strength comparisons;
- the `Deck` object: three piles (`active`, `popped`, `discarded`) updated in place by `pop`, `discard`, `shuffle` and the `return_*` family;
- the `PokerHand` "high" evaluator:
  - it sorts the hand strongest first (in place, stably);
  - it groups the cards by rank and by suit in first-encounter order;
  - it collects five-card flush and straight candidates;
  - it picks the first category that holds, from straight flush (8) down to high card (0), with the cards that make it;
  - it fills the kickers;
  - `__cmp__` compares two evaluated hands.

Modules, one per file:

| file | module | what |
|---|---|---|
| `wrappers.dfy` | `Wrappers` | `Option`, `Result`, `Outcome` (a raised exception becomes a `Failure`/`Fail`) |
| `cards.dfy` | `Cards` | rank/suit tables, `Card`, parsing, printing, ordering, per-attribute filters, `list.remove` |
| `deck.dfy` | `Decks` | the piles as values (`Piles`) with the pure effect of each operation, and the class `Deck` whose methods update the three `seq` fields and are proved equal to those effects |
| `hand_sort.dfy` | `HandSort` | the stable strongest-first sort as a function, and the in-place insertion sort on an `array` proved equal to it |
| `hand_groups.dfy` | `HandGroups` | `_by_rank`/`_by_suit` (ordered dictionaries as sequences of buckets), five-card windows, `_find_flushes`, `_find_straights` |
| `hand_eval.dfy` | `HandEval` | `_eval_hand_rank` as a function, a reference "best category" definition, a reference description of the cards making each category, `_fill_kickers` |
| `hand_compare.dfy` | `HandCompare` | the evaluated hand, `__cmp__`, its order laws |
| `poker_hand.dfy` | `PokerHands` | the class `PokerHand`: constructor, `evaluate`, `_eval_hand_rank` and `_fill_kickers` as methods setting the fields |
| `hand_examples.dfy` | `HandExamples` | worked seven-card hands: a run hidden by a repeated rank, and a straight flush decided by the deal order of two equal-rank cards |

Representation choices:

- **Card.** A card holds the index of its rank in `Ranks` (0 = "A", strongest) and of its suit in `Suits`. The comparisons of the source compare `ranks.index(...)`. `Cards.OrderFollowsTable` shows that they are the same on indices.
- **Errors.** Exceptions are modelled as error values:
  - `CardError` covers the constructor's `ValueError`s and the `IndexError` of a short token;
  - `DeckError` covers popping an empty list, an invalid `pos`, a card in no removed pile, and the unbound `card` after an empty `return_cards`;
  - `HandError` covers `cards[0]` of an empty hand, a failed `list.remove`, and `hand_cards` read before it is set.
- **Deck integrity.** The deck's class invariant `Valid()` says that no card is held twice (`Sound`). `Intact` says that the piles hold exactly the 52 cards; this is what `sum(stats()) == 52` means.
- **Ordered dictionaries.** An `OrderedDict` is a sequence of `Bucket(key, cards)`. `HandGroups.GroupByMeaning` proves that it holds one entry per distinct key, in first-encounter order, each with exactly that key's cards in hand order.

Behaviour of the code worth knowing (all proved below):

- **Straights inside longer hands.** Straights are contiguous windows of the sorted hand. With more than five cards, a duplicated rank inside a run hides the straight. For example, 9S 8S 8H 7S 6S 5S 2D holds 9-8-7-6-5 but has no straight window, so it evaluates as a flush (`HandExamples.HiddenIsFlush`).
- **Deal order of equal ranks.** The sort is stable, so cards of equal rank keep the order the caller gave them, and the category can depend on that order. 9S 9H 8S 7S 6S 5S 2D is not a straight flush: every five-card window mixes suits, its one straight 9H 8S 7S 6S 5S included. The same cards dealt as 9H 9S 8S 7S 6S 5S 2D are a straight flush (`HandExamples.EqualRankOrderDecides`).
- **Straights never wrap.** A straight never goes past "2" (`HandGroups.StraightRunMeaning`).
- **Which cards make the category.** "First" means first in the order of the hand as sorted and dealt. Four of a kind, three of a kind and pairs come from the rank whose first card is earliest. A two pair or a full house adds the next such rank. A flush is the first five cards of the earliest suit holding five. A straight or straight flush is the earliest matching five-card window (`HandEval.FourOfAKindCards` … `HandEval.HighCardCards`). On a sorted hand the earliest rank of a group size is the strongest one (`HandEval.FirstRankIsStrongest`).
- **Size of the made hand.** `hand_cards` has 5, 4, 3, 2 or 1 cards depending on the category (`HandEval.HandSizes`), not always five.
- **High-card kickers.** A high-card hand keeps four kickers (`HandCompare.HighCardKickers`).
- **Where `__cmp__` is an order.** It is a total preorder (antisymmetric, reflexive, transitive) between hands evaluated from five or more cards. Strict wins are transitive between hands of any size. With fewer cards, the kickers of tied hands can differ in number, and ties are not transitive (`HandCompare.ShortHandsTieIntransitive`).
- **Round-tripping card tokens.** A card's printed token reads back as the same card for every rank but "10" (see Findings).

## Model

| member | source | states |
|---|---|---|
| Cards.IndexOfRankSymbol | games.py:15 | the rank table has no repeats, so `ranks.index` of a card's symbol is its own index |
| Cards.MakeCard | games.py:36-41 | `Card(rank, suit)` succeeds exactly when both symbols are in their tables, checking the rank first, and the card prints those symbols back |
| Cards.ParseToken | games.py:32-41 | the one-argument constructor reads the rank from character 0 and the suit from character 1; a shorter token fails; success exactly when both characters are symbols, and the card prints as the token's first two characters |
| Cards.Show | games.py:50-51 | `str(card)` is the rank symbol then the suit symbol, three characters for a ten and two otherwise, ending in the suit |
| Cards.MakeCardRoundTrip | games.py:36-41 | building a card from its own symbols gives the card back |
| Cards.TokenRoundTrip | games.py:32-51 | parsing `str(c)` gives `c` back for every rank but "10", for which it fails with an invalid rank |
| Cards.ParseTokenFixed | games.py:32-35 | corrected reader: the suit is the last character and the rank the rest; what it accepts prints back as the token |
| Cards.TokenRoundTripFixed | games.py:32-35 | the corrected reader inverts `str` for every card, tens included |
| Cards.OrderFollowsTable | games.py:65-75 | `<`, `>`, `<=`, `>=` compare `ranks.index` of the two rank symbols in the source's directions |
| Cards.OrderLaws | games.py:65-75 | the four operators agree with each other; exactly one of weaker, stronger and same rank holds; suits never matter |
| Cards.Less | games.py:65-66 | `a < b`: a's rank index is larger, so a is the weaker card; its tie to `ranks.index` is `Cards.OrderFollowsTable` |
| Cards.Greater | games.py:68-69 | `a > b`: a's rank index is smaller, so a is the stronger card |
| Cards.LessEq | games.py:71-72 | `a <= b`: a is not stronger than b |
| Cards.GreaterEq | games.py:74-75 | `a >= b`: a is not weaker than b |
| Cards.RemoveFirst | games.py:109-111 | `list.remove(x)` on a list holding `x` is one card shorter; which card goes is `Cards.RemoveFirstAt` |
| Cards.RemoveFirstAt | games.py:109-111 | `list.remove(x)` drops the first occurrence of `x` and keeps every other card in its order |
| Cards.EqualityIsStructural | games.py:59-63 | `==` holds exactly when rank and suit symbols match, and `!=` is its negation |
| Cards.RemoveFirstPerm | games.py:109-111 | `list.remove(x)` takes exactly one copy of `x` out |
| Decks.FullDeck | games.py:79-85 | the fresh deck has 52 cards; their order and distinctness are `Decks.FullDeckLayout` |
| Decks.FullDeckLayout | games.py:79-85 | the fresh order is suit-major, rank-minor; its 52 cards are pairwise distinct and each card occurs once |
| Decks.Deck.constructor | games.py:79-85 | `Deck()` fills `active` with the 52 cards in that order, with the other piles empty; the deck is intact |
| Decks.Deck.Shuffle | games.py:87-90 | `active` becomes the given permutation of itself; nothing else changes and every card is still held |
| Decks.Deck.Pop | games.py:92-97 | an empty deck fails unchanged; otherwise the last active card moves to the end of `popped` and is returned, `discarded` is untouched, and the held cards are the same |
| Decks.Deck.Discard | games.py:99-101 | as `pop`, but the card goes to the end of `discarded` and `popped` is untouched |
| Decks.TakeBack | games.py:108-113 | one loop pass: succeeds exactly when the card is in `discarded` or `popped`, leaves `active` alone, and drops the total by one |
| Decks.TakeBackEffect | games.py:108-113 | a successful pass removes exactly one copy of the card: from `discarded` when it holds one, leaving `popped` as it was; otherwise from `popped`, leaving `discarded` as it was |
| Decks.Withdraw | games.py:107-113 | the loop of `return_cards` never changes `active`; when every card is found, the piles hold `|cards|` fewer cards |
| Decks.WithdrawEffect | games.py:107-113 | the loop never touches `active` and only removes cards; if it completes, it removes exactly the given cards |
| Decks.Deck.TakeBackAll | games.py:107-113 | the method's loop leaves the piles as `Withdraw` says, stopping at the first untracked card with earlier removals kept |
| Decks.ReturnCardsResult | games.py:103-118 | `return_cards`: a failure leaves `active` as it was; a success needs a non-empty list, grows `active` by exactly one card, and that card is the last one listed, at index 0 for BOTTOM or at the end for TOP, the old active cards keeping their order |
| Decks.Deck.ReturnCards | games.py:103-118 | the method's new piles and outcome are `ReturnCardsResult` of the old piles |
| Decks.PutBack | games.py:115-118 | reinsertion puts the card at index 0 (BOTTOM) or at the end (TOP) of `active`, which otherwise stays as it was; the other piles are unchanged |
| Decks.ReturnCardsCount | games.py:103-118 | returning never duplicates a card; an invalid `pos` changes nothing; a failure leaves `active` alone; a success drops the total by `|cards| - 1` |
| Decks.ReturnedLastCard | games.py:107-118 | once every card is found, the return succeeds and the total is `old - |cards| + 1` |
| Decks.ReturnOneCard | games.py:103-118 | returning one tracked card to an intact deck succeeds, keeps all 52 cards, and puts the card at index 0 or at the end |
| Decks.ReturnCardsLosesCards | games.py:107-118 | a successful return of two or more cards to an intact deck leaves fewer than 52 cards |
| Decks.ReturnPoppedAfterTwoDeals | games.py:123-124 | dealing two cards and calling `return_popped` leaves a 51-card deck |
| Decks.ReturnCardsFixed | games.py:103-118 | corrected return: all-or-nothing, and every card goes back in order at the chosen end |
| Decks.ReturnCardsFixedConserves | games.py:103-118 | the corrected return keeps an intact deck intact (52 cards); on failure nothing changes; on success `active` gains exactly the returned cards |
| Decks.WithdrawAll | games.py:120-124 | withdrawing a pile's own cards always succeeds, empties that pile, and leaves the other removed pile alone |
| Decks.Deck.ReturnDiscarded | games.py:120-121 | `return_discarded(pos)` is `return_cards` of the discard pile |
| Decks.Deck.ReturnPopped | games.py:123-124 | `return_popped(pos)` is `return_cards` of the dealt pile |
| Decks.Deck.ReturnAll | games.py:126-128 | `return_all` ignores `pos`: it returns the dealt pile and then the discard pile to the bottom, stopping at the first failure |
| Decks.ReturnAllResult | games.py:126-128 | a successful `return_all` grows `active` by exactly two cards, however many were dealt or discarded |
| Decks.ReturnAllCount | games.py:126-128 | from an intact deck with both removed piles non-empty, `return_all` empties them but recovers only two cards |
| Decks.Deck.Stats | games.py:130-131 | `stats()` gives the three pile sizes; they sum to at most 52, and to exactly 52 when the deck is intact |
| Decks.IntactTotal | games.py:130-131 | an intact deck holds 52 cards, each once |
| Decks.DealtNotDiscarded | games.py:92-101 | in a sound deck no card is both dealt and discarded |
| HandSort.SortInPlace | games.py:144-146 | the in-place sort leaves the array holding `SortStrongestFirst` of its old contents |
| HandSort.SortStrongestFirst | games.py:145 | `cards.sort(reverse=True)` as a function: same length; permutation, order and stability are the lemmas below |
| HandSort.SortPerm | games.py:145 | the sort is a permutation of its input |
| HandSort.SortSorted | games.py:145 | the sort's result is strongest first (rank indices never decrease) |
| HandSort.SortIsStable | games.py:145 | for every rank, the cards of that rank keep their input order |
| HandSort.SortUnique | games.py:145 | any strongest-first, rank-stable arrangement of the input is the sort's result, so any stable sort such as Timsort gives the same list |
| HandGroups.KeysFacts | games.py:156-176 | the dictionary keys are distinct, and a value is a key exactly when some card has it |
| HandGroups.GroupBy | games.py:156-176 | the grouping loop over the hand; what it builds is `HandGroups.GroupByMeaning` |
| HandGroups.ByRank | games.py:156-165 | `_by_rank` is the grouping by rank |
| HandGroups.BySuit | games.py:167-176 | `_by_suit` is the grouping by suit |
| HandGroups.Flushes | games.py:178-187 | `_find_flushes` collects the five-card windows of each suit group, suits in first-encounter order; their meaning is `HandGroups.FlushesMeaning` |
| HandGroups.GroupByMeaning | games.py:156-176 | `_by_rank`/`_by_suit`: entry i is keyed by the i-th distinct value in first-encounter order and holds exactly that value's cards, in hand order |
| HandGroups.FlushesMeaning | games.py:178-187 | a flush candidate is exactly a run of five consecutive cards of one suit's group |
| HandGroups.FlushCandidate | games.py:178-187 | every flush candidate has five cards, all of one suit, all from the hand |
| HandGroups.IsStraightRun | games.py:194-196 | the straight test compares a window's rank symbols with the rank table's slice from the first card's rank, the slice cut short at "2" |
| HandGroups.StraightRunMeaning | games.py:194-196 | the `ranks[j:j+5]` test holds exactly for five consecutive ranks descending from a top card no lower than "6"; it never wraps |
| HandGroups.Straights | games.py:189-198 | `_find_straights` tests every five-card window of the hand, front to back; its meaning is `HandGroups.StraightsMeaning` |
| HandGroups.StraightsMeaning | games.py:189-198 | a straight candidate is exactly a five-card window of the sorted hand passing that test |
| HandGroups.FirstStraight | games.py:189-198 | the first straight candidate is the earliest window that passes the test |
| HandEval.HandRankOf | games.py:213-290 | `_eval_hand_rank` fails exactly on an empty hand, and the category is at most 8; which category it picks is `HandEval.CategoryIsBest`, and which cards make it is stated category by category below |
| HandEval.Decide | games.py:233-290 | the decision chain, given the candidate lists: it fails exactly when the hand and every list are empty, and the category is at most 8 |
| HandEval.CategoryIsBest | games.py:213-290 | the category is the first that holds, in the order straight flush, four of a kind, full house, flush, straight, three of a kind, two pair, pair, high card |
| HandEval.StraightFlushRank | games.py:233-239 | a hand is evaluated as a straight flush exactly when some straight window is also a window of one suit's cards |
| HandEval.GroupsOfCount | games.py:222-229 | the fours/threes/pairs lists are non-empty (or at least two long) exactly when one (or two) ranks have that many cards |
| HandEval.StraightFlushFound | games.py:234-239 | the straight-flush loop finds a hand exactly when some straight window is also a window of one suit's cards |
| HandEval.HandSizes | games.py:213-290 | `hand_cards` has 5 cards for categories 8, 6, 5, 4; 4 for 7 and 2; 3 for 3; 2 for 1; 1 for 0 |
| HandEval.HandCardsInside | games.py:213-290 | `hand_cards` is a sub-multiset of the hand: no card is used twice |
| HandEval.StraightFlushCards | games.py:233-239 | a straight flush is made by the earliest five-card window that is a straight run and also five consecutive cards of its suit |
| HandEval.FourOfAKindCards | games.py:222-245 | four of a kind is made by the first four cards of the rank whose first card is earliest among ranks with four or more |
| HandEval.FullHouseCards | games.py:246-256 | a full house is the three cards of the earliest three-card rank, then two cards of another rank: the next three-card rank when there are two, otherwise the earliest pair |
| HandEval.FlushCards | games.py:257-262 | a flush is made by the first five cards of the earliest suit holding five or more |
| HandEval.StraightCards | games.py:263-268 | a straight is made by the earliest five-card window that is a straight run |
| HandEval.ThreeOfAKindCards | games.py:269-274 | three of a kind is made by all three cards of the earliest three-card rank |
| HandEval.TwoPairCards | games.py:275-280 | two pair is made by the earliest pair followed by the next pair, of a different rank |
| HandEval.OnePairCards | games.py:281-286 | one pair is made by the two cards of the earliest pair |
| HandEval.HighCardCards | games.py:287-290 | a high card is made by the hand's first card |
| HandEval.FirstRankIsStrongest | games.py:222-229 | on a strongest-first hand, the earliest rank of a group size is the strongest rank of that size |
| HandEval.RemoveEach | games.py:205-206 | removing the hand cards one by one leaves `|hand|` fewer cards when it succeeds |
| HandEval.RemoveEachPerm | games.py:203-206 | removing the hand cards one by one succeeds exactly when they are a sub-multiset of the cards, and leaves the others |
| HandEval.KickersOf | games.py:200-209 | `_fill_kickers` as a function of the cards and `hand_cards`; its meaning is `HandEval.KickersFacts` and `HandEval.KickersStrongest` |
| HandEval.KickersFacts | games.py:200-209 | when the hand cards are among the cards, there are `5 - |hand_cards|` kickers, or fewer when the cards run out; none once the hand has five; together with the hand, a sub-multiset |
| HandEval.KickersStrongest | games.py:200-209 | from a sorted hand, the kickers are sorted, and no card outside the hand and kickers is stronger than a kicker |
| HandEval.FiveCards | games.py:200-209 | with five cards or more, `hand_cards` and `kickers` together make five |
| HandCompare.Evaluate | games.py:150-154 | `evaluate()` runs `_eval_hand_rank` and then `_fill_kickers`; its meaning is `HandCompare.EvaluateFacts` |
| HandCompare.EvaluateFacts | games.py:150-154 | `evaluate()` fails only on an empty hand, never on a missing card; what it picks is a sub-multiset of the cards; `hand_cards` has its category's size; with five or more cards it gives a full hand |
| HandCompare.HighCardKickers | games.py:200-209 | a high-card hand is made by its first card, and its kickers are the next four cards |
| HandCompare.Compare | games.py:298-318 | `__cmp__` returns -1, 0 or 1 |
| HandCompare.CompareCards | games.py:305-318 | one zip loop of `__cmp__` answers -1, 0 or 1 |
| HandCompare.CompareCardsBeats | games.py:304-310 | a zip loop answers 1 exactly when, at the first position of different ranks, the first list's card is stronger |
| HandCompare.CompareCardsTie | games.py:304-318 | a zip loop answers 0 exactly when the paired cards all have equal ranks |
| HandCompare.CompareLexicographic | games.py:298-318 | `cmp(a, b) == 1` exactly when a has the higher category, or the same category and beats b on hand cards, or ties on them and beats b on kickers |
| HandCompare.CompareTie | games.py:298-318 | `cmp(a, b) == 0` exactly when the categories are equal and hand cards and kickers pair off in equal ranks |
| HandCompare.CompareAntisymmetric | games.py:298-318 | `cmp(b, a) == -cmp(a, b)` |
| HandCompare.CompareReflexive | games.py:298-318 | `cmp(a, a) == 0` |
| HandCompare.CompareTransitive | games.py:298-318 | between evaluated hands of any size, a > b and b > c give a > c |
| HandCompare.CompareTieTransitive | games.py:298-318 | between hands from five or more cards, a tie with a hand tied with a third is a tie with the third |
| HandCompare.CompareTieCongruent | games.py:298-318 | between hands from five or more cards, tied hands compare the same way against any third hand |
| HandCompare.CompareCardsTransitive | games.py:304-310 | a zip-loop win over a win is a win, whatever the lengths |
| HandCompare.ShortHandsTieIntransitive | games.py:311-318 | with fewer than five cards, a lone ace ties with ace-king and with ace-queen, which do not tie |
| HandExamples.HiddenIsFlush | games.py:189-198 | 9S 8S 8H 7S 6S 5S 2D is left as it is by the sort, has no straight window, and evaluates as a flush |
| HandExamples.EqualRankOrderDecides | games.py:144-148 | two deals of the same seven cards, differing only in the order of the two nines, are both left as they are by the sort; one is a straight flush and the other is not |
| PokerHands.PokerHand.constructor | games.py:144-146 | the caller's array is sorted in place by `SortStrongestFirst` and kept as the hand; nothing is evaluated yet |
| PokerHands.PokerHand.Create | games.py:144-148 | with `evaluate`, construction fails exactly for an empty hand; on success the fields are `evaluate()` of the sorted cards |
| PokerHands.PokerHand.Evaluate | games.py:150-154 | sets the fields to `evaluate()` of the cards; fails only on an empty hand; the category is the best one; hand cards and kickers come from the hand and make five when it has five cards |
| PokerHands.PokerHand.EvalHandRank | games.py:213-290 | sets `hand_rank`/`hand_cards` from `HandRankOf`, or fails leaving the object unchanged |
| PokerHands.PokerHand.FillKickers | games.py:200-209 | sets `kickers` to `KickersOf`; fails without change before `hand_cards` is set or when a hand card is missing |
| PokerHands.TakeOutEach | games.py:203-206 | the `kickers.remove(card)` loop computes `RemoveEach` |

## Left out

- `Deck.shuffle` draws its order from `random.shuffle`. Here the new order is a parameter, and it must be a permutation of `active`.
- `Card.__hash__` is not modelled. On the rank "10" it raises, because `ord` of a two-character string fails. Dafny needs no hash.
- `Card.card_list` is not modelled. It returns inside its loop, after the first card.
- Logging, `f_list`/`f_lists`, `__repr__`, `Deck.__str__` and `PokerHand.__str__` produce text only and are not modelled.
- The Tk GUI, the betting on global money variables and the console hangman game are not part of this model.
- Python 3 never calls `__cmp__` for `<` or `>` between hands. Here it is a plain function, `HandCompare.Compare`.
- PokerHands.PokerHand.constructor: `self.cards` is the caller's own list in the source, so later changes to that list show in the hand. The model keeps a copy of the sorted array. Aliasing is not modelled.
- HandSort.SortInPlace: the model sorts by insertion, not Timsort. `HandSort.SortUnique` shows that every stable strongest-first sort gives the same list.
- `Compare` between objects is the pure `HandCompare.Compare` of their fields (`PokerHand.Fields`). Reading `hand_rank` of an unevaluated hand (an `AttributeError`) is not modelled there.
- `Deck`'s methods require its `Valid()` invariant (no card held twice). The constructor establishes it and every method keeps it. Piles built by hand with duplicates are not modelled.

Behaviour a reader may not expect:

- a high-card hand has four kickers;
- `hand_cards` has from one to five cards;
- the hand sorts the caller's own list and keeps it, not a copy;
- ties under `__cmp__` are not transitive on hands of fewer than five cards;
- `Card(str(c))` fails for tens.

## Findings

| source | as written | input that shows it | evidently intended | confidence | as-written member | corrected member |
|---|---|---|---|---|---|---|
| games.py:107-118 | the reinsertion sits after the loop, so only the last card of `cards` goes back to `active`; cards removed before an untracked one stay removed when the exception is raised; an empty list leaves `card` unbound | a fresh deck, `pop()` twice, then `return_popped()`: the deck holds 51 cards | every returned card goes back to `active`, all or nothing, so the 52 cards are kept | high (not executed) | Decks.ReturnPoppedAfterTwoDeals | Decks.ReturnCardsFixedConserves |
| games.py:32-35 | the one-argument constructor takes the rank from `token[0]` and the suit from `token[1]` | `Card(str(Card('10', 'S')))`: the token "10S" is read as rank "1", which raises `ValueError` | a printed card reads back as itself, tens included (rank = all but the last character) | high (not executed) | Cards.TokenRoundTrip | Cards.TokenRoundTripFixed |
