/**
 * Playing cards: the rank and suit tables, the Card value with its
 * parser, printer and strength ordering, and the per-attribute filters
 * that hand evaluation groups cards by.
 */
module Cards {
  import opened Wrappers

  /** Rank symbols from strongest to weakest; a card's rank is its index here. */
  const Ranks: seq<string> := ["A", "K", "Q", "J", "10", "9", "8", "7", "6", "5", "4", "3", "2"]

  /** Suit symbols (spades, hearts, diamonds, clubs); suits carry no strength. */
  const Suits: seq<string> := ["S", "H", "D", "C"]

  type RankIndex = r: int | 0 <= r < 13
  type SuitIndex = s: int | 0 <= s < 4

  /** Index of "10", the only rank whose symbol has two characters. */
  const Ten: RankIndex := 4

  /** A card: a lower rank index is a stronger card. */
  datatype Card = Card(rank: RankIndex, suit: SuitIndex)

  /** Why a card could not be built: a token shorter than two characters
      (Python's IndexError), an unknown rank, or an unknown suit. */
  datatype CardError = TokenTooShort | InvalidRank | InvalidSuit

  /** Position of the first occurrence of `x` in `table` (Python's `list.index`). */
  function IndexOf(table: seq<string>, x: string): (i: nat)
    requires x in table
    ensures i < |table| && table[i] == x
    ensures forall j :: 0 <= j < i ==> table[j] != x
  {
    if table[0] == x then 0 else 1 + IndexOf(table[1..], x)
  }

  lemma RanksDistinct()
    ensures forall i, j :: 0 <= i < j < |Ranks| ==> Ranks[i] != Ranks[j]
  {
  }

  lemma SuitsDistinct()
    ensures forall i, j :: 0 <= i < j < |Suits| ==> Suits[i] != Suits[j]
  {
  }

  /** Looking a rank symbol up in the table gives back its own index, so a
      card's rank index and its symbol determine each other. */
  lemma IndexOfRankSymbol(r: RankIndex)
    ensures IndexOf(Ranks, Ranks[r]) == r
  {
    RanksDistinct();
  }

  lemma IndexOfSuitSymbol(s: SuitIndex)
    ensures IndexOf(Suits, Suits[s]) == s
  {
    SuitsDistinct();
  }

  /** `Card(rank, suit)`: both symbols must belong to their tables, the rank
      being checked first. */
  function MakeCard(rank: string, suit: string): (r: Result<Card, CardError>)
    ensures r.Success? <==> rank in Ranks && suit in Suits
    ensures r.Success? ==> Ranks[r.value.rank] == rank && Suits[r.value.suit] == suit
    ensures r.Failure? ==> r.error == (if rank in Ranks then InvalidSuit else InvalidRank)
  {
    if rank !in Ranks then Failure(InvalidRank)
    else if suit !in Suits then Failure(InvalidSuit)
    else Success(Card(IndexOf(Ranks, rank), IndexOf(Suits, suit)))
  }

  /** `Card(token)`: the rank is the token's first character and the suit its
      second; any further characters are ignored. */
  function ParseToken(token: string): (r: Result<Card, CardError>)
    ensures r.Success? <==> |token| >= 2 && [token[0]] in Ranks && [token[1]] in Suits
    ensures |token| < 2 ==> r == Failure(TokenTooShort)
    ensures r.Success? ==> Show(r.value) == token[..2]
  {
    if |token| < 2 then Failure(TokenTooShort)
    else
      assert token[..2] == [token[0]] + [token[1]];
      MakeCard([token[0]], [token[1]])
  }

  /** `str(card)`: the rank symbol followed by the suit symbol. */
  function Show(c: Card): (t: string)
    ensures |t| == (if c.rank == Ten then 3 else 2)
    ensures t[|t| - 1..] == Suits[c.suit]
  {
    Ranks[c.rank] + Suits[c.suit]
  }

  /** The two-argument constructor inverts the symbol tables for every card. */
  lemma MakeCardRoundTrip(c: Card)
    ensures MakeCard(Ranks[c.rank], Suits[c.suit]) == Success(c)
  {
    IndexOfRankSymbol(c.rank);
    IndexOfSuitSymbol(c.suit);
  }

  /** Parsing a card's printed token gives the card back, except for the
      tens: "10S" is read as rank "1", which is not a rank. */
  lemma TokenRoundTrip(c: Card)
    ensures ParseToken(Show(c)) == if c.rank == Ten then Failure(InvalidRank) else Success(c)
  {
    var t := Show(c);
    if c.rank == Ten {
      assert [t[0]] == "1";
      RanksDistinct();
      assert "1" !in Ranks;
    } else {
      assert [t[0]] == Ranks[c.rank];
      assert [t[1]] == Suits[c.suit];
      MakeCardRoundTrip(c);
    }
  }

  /** The corrected token reader: the suit is the last character and the
      rank everything before it, so two-character ranks parse too. */
  function ParseTokenFixed(token: string): (r: Result<Card, CardError>)
    ensures r.Success? ==> Show(r.value) == token
  {
    if |token| < 2 then Failure(TokenTooShort)
    else MakeCard(token[..|token| - 1], token[|token| - 1..])
  }

  lemma TokenRoundTripFixed(c: Card)
    ensures ParseTokenFixed(Show(c)) == Success(c)
  {
    var t := Show(c);
    assert t[..|t| - 1] == Ranks[c.rank];
    MakeCardRoundTrip(c);
  }

  // Strength ordering: the four comparison operators compare rank indices
  // only, a lower index being a stronger card.

  /** `a < b`: `a` is strictly weaker than `b`. */
  predicate Less(a: Card, b: Card) { a.rank > b.rank }

  /** `a > b`: `a` is strictly stronger than `b`. */
  predicate Greater(a: Card, b: Card) { a.rank < b.rank }

  /** `a <= b`: `a` is not stronger than `b`. */
  predicate LessEq(a: Card, b: Card) { a.rank >= b.rank }

  /** `a >= b`: `a` is not weaker than `b`. */
  predicate GreaterEq(a: Card, b: Card) { a.rank <= b.rank }

  /** The operators compare the positions of the rank symbols in the table,
      as `ranks.index` does. */
  lemma OrderFollowsTable(a: Card, b: Card)
    ensures Less(a, b) <==> IndexOf(Ranks, Ranks[a.rank]) > IndexOf(Ranks, Ranks[b.rank])
    ensures Greater(a, b) <==> IndexOf(Ranks, Ranks[a.rank]) < IndexOf(Ranks, Ranks[b.rank])
    ensures LessEq(a, b) <==> IndexOf(Ranks, Ranks[a.rank]) >= IndexOf(Ranks, Ranks[b.rank])
    ensures GreaterEq(a, b) <==> IndexOf(Ranks, Ranks[a.rank]) <= IndexOf(Ranks, Ranks[b.rank])
  {
    IndexOfRankSymbol(a.rank);
    IndexOfRankSymbol(b.rank);
  }

  /** The four operators agree with one another, exactly one of "weaker",
      "stronger" and "same rank" holds, and the suit plays no part. */
  lemma OrderLaws(a: Card, b: Card, s: SuitIndex, t: SuitIndex)
    ensures Less(a, b) <==> Greater(b, a)
    ensures LessEq(a, b) <==> !Greater(a, b)
    ensures GreaterEq(a, b) <==> !Less(a, b)
    ensures (Less(a, b) || Greater(a, b) || a.rank == b.rank)
    ensures !(Less(a, b) && Greater(a, b))
    ensures Less(a, b) <==> Less(Card(a.rank, s), Card(b.rank, t))
    ensures Greater(a, b) <==> Greater(Card(a.rank, s), Card(b.rank, t))
  {
  }

  /** `==` and `!=` compare both symbols; on the model this is equality of
      the datatype values. */
  lemma EqualityIsStructural(a: Card, b: Card)
    ensures a == b <==> Ranks[a.rank] == Ranks[b.rank] && Suits[a.suit] == Suits[b.suit]
    ensures a != b <==> Ranks[a.rank] != Ranks[b.rank] || Suits[a.suit] != Suits[b.suit]
  {
    RanksDistinct();
    SuitsDistinct();
  }

  // Attributes and filters over card sequences.

  /** The attribute a hand is grouped by. */
  datatype Attr = RankOf | SuitOf

  function Key(c: Card, attr: Attr): nat
  {
    match attr
    case RankOf => c.rank
    case SuitOf => c.suit
  }

  /** The cards of `s` whose attribute is `k`, in their order in `s`. */
  function Filter(s: seq<Card>, attr: Attr, k: nat): (f: seq<Card>)
    ensures |f| <= |s|
    ensures forall i :: 0 <= i < |f| ==> Key(f[i], attr) == k
  {
    if s == [] then []
    else Filter(s[..|s| - 1], attr, k) + (if Key(s[|s| - 1], attr) == k then [s[|s| - 1]] else [])
  }

  lemma {:induction false} FilterAppend(a: seq<Card>, b: seq<Card>, attr: Attr, k: nat)
    ensures Filter(a + b, attr, k) == Filter(a, attr, k) + Filter(b, attr, k)
    decreases |b|
  {
    if b == [] {
      assert a + b == a;
    } else {
      var b' := b[..|b| - 1];
      assert (a + b)[..|a + b| - 1] == a + b';
      FilterAppend(a, b', attr, k);
    }
  }

  /** A card's attribute occurs in `s` exactly when its filter is non-empty,
      and the filter holds every card of `s` that has the attribute. */
  lemma {:induction false} FilterMembers(s: seq<Card>, attr: Attr, k: nat)
    ensures forall c :: c in Filter(s, attr, k) <==> c in s && Key(c, attr) == k
    ensures multiset(Filter(s, attr, k)) <= multiset(s)
  {
    if s != [] {
      var p := s[..|s| - 1];
      assert s == p + [s[|s| - 1]];
      FilterMembers(p, attr, k);
    }
  }

  /** Filters for two different values pick disjoint parts of `s`. */
  lemma {:induction false} FilterDisjoint(s: seq<Card>, attr: Attr, k1: nat, k2: nat)
    requires k1 != k2
    ensures multiset(Filter(s, attr, k1)) + multiset(Filter(s, attr, k2)) <= multiset(s)
  {
    if s != [] {
      var p := s[..|s| - 1];
      assert s == p + [s[|s| - 1]];
      FilterDisjoint(p, attr, k1, k2);
    }
  }

  /** The filter of a single card. */
  lemma FilterSingle(c: Card, attr: Attr, k: nat)
    ensures Filter([c], attr, k) == if Key(c, attr) == k then [c] else []
  {
    assert [c][..0] == [];
  }

  /** A sequence all of whose cards share the value `k` is its own filter. */
  lemma {:induction false} FilterOfUniform(w: seq<Card>, attr: Attr, k: nat)
    requires forall i :: 0 <= i < |w| ==> Key(w[i], attr) == k
    ensures Filter(w, attr, k) == w
  {
    if w != [] {
      var p := w[..|w| - 1];
      assert w == p + [w[|w| - 1]];
      FilterOfUniform(p, attr, k);
    }
  }

  /** Cards with pairwise different values have at most one card per value. */
  lemma {:induction false} FilterOfDistinct(s: seq<Card>, attr: Attr, k: nat)
    requires forall i, j :: 0 <= i < j < |s| ==> Key(s[i], attr) != Key(s[j], attr)
    ensures |Filter(s, attr, k)| <= 1
  {
    if s != [] {
      var p, c := s[..|s| - 1], s[|s| - 1];
      FilterOfDistinct(p, attr, k);
      if Key(c, attr) == k {
        forall i | 0 <= i < |p| ensures Key(p[i], attr) != k {
          assert s[i] == p[i];
        }
        FilterNone(p, attr, k);
      }
    }
  }

  /** A non-empty filter has a card of the hand at some position. */
  lemma {:induction false} FilterHasIndex(s: seq<Card>, attr: Attr, k: nat) returns (j: nat)
    requires Filter(s, attr, k) != []
    ensures j < |s| && Key(s[j], attr) == k
  {
    if Key(s[|s| - 1], attr) == k {
      j := |s| - 1;
    } else {
      j := FilterHasIndex(s[..|s| - 1], attr, k);
    }
  }

  /** No card with the value means an empty filter. */
  lemma {:induction false} FilterNone(s: seq<Card>, attr: Attr, k: nat)
    requires forall i :: 0 <= i < |s| ==> Key(s[i], attr) != k
    ensures Filter(s, attr, k) == []
  {
    if s != [] {
      FilterNone(s[..|s| - 1], attr, k);
    }
  }

  /** `list.remove(x)`: drops the first occurrence of `x`. */
  function RemoveFirst(s: seq<Card>, x: Card): (r: seq<Card>)
    requires x in s
    ensures |r| == |s| - 1
  {
    if s[0] == x then s[1..] else [s[0]] + RemoveFirst(s[1..], x)
  }

  /** Removing `x` drops its first occurrence and keeps every other card
      in its place and order. */
  lemma {:induction false} RemoveFirstAt(s: seq<Card>, x: Card) returns (i: nat)
    requires x in s
    ensures i < |s| && s[i] == x && x !in s[..i]
    ensures RemoveFirst(s, x) == s[..i] + s[i + 1..]
  {
    if s[0] == x {
      i := 0;
    } else {
      var t := s[1..];
      var j := RemoveFirstAt(t, x);
      i := j + 1;
      assert s[..i] == [s[0]] + t[..j];
      assert s[i + 1..] == t[j + 1..];
      assert RemoveFirst(s, x) == [s[0]] + (t[..j] + t[j + 1..]);
    }
  }

  /** Removing `x` takes exactly one copy of it out. */
  lemma {:induction false} RemoveFirstPerm(s: seq<Card>, x: Card)
    requires x in s
    ensures multiset(RemoveFirst(s, x)) + multiset{x} == multiset(s)
  {
    assert s == [s[0]] + s[1..];
    if s[0] != x {
      RemoveFirstPerm(s[1..], x);
    }
  }
}
