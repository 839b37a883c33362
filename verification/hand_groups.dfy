/**
 * Grouping a hand and finding its candidate windows: `_by_rank` and
 * `_by_suit` collect the cards into an insertion-ordered dictionary keyed
 * by rank or suit; `_find_flushes` takes every run of five consecutive
 * cards inside one suit's group; `_find_straights` takes every run of five
 * consecutive cards of the hand whose ranks follow the rank table.
 */
module HandGroups {
  import opened Cards

  /** One dictionary entry: a rank or suit index and its cards in hand order. */
  datatype Bucket = Bucket(key: nat, cards: seq<Card>)

  /** Position of the entry for `k`, or `|g|` when there is none. */
  function FindGroup(g: seq<Bucket>, k: nat): (i: nat)
    ensures i <= |g|
    ensures i < |g| ==> g[i].key == k
    ensures forall j :: 0 <= j < i ==> g[j].key != k
  {
    if g == [] then 0
    else if g[0].key == k then 0
    else 1 + FindGroup(g[1..], k)
  }

  /** One pass of the grouping loop: append to the card's entry if its key
      is present, otherwise add a new entry at the end. */
  function AddCard(g: seq<Bucket>, c: Card, attr: Attr): seq<Bucket>
  {
    var k := Key(c, attr);
    var i := FindGroup(g, k);
    if i == |g| then g + [Bucket(k, [c])]
    else g[i := Bucket(k, g[i].cards + [c])]
  }

  /** The grouping loop over the whole hand. */
  function GroupBy(cards: seq<Card>, attr: Attr): seq<Bucket>
  {
    if cards == [] then []
    else AddCard(GroupBy(cards[..|cards| - 1], attr), cards[|cards| - 1], attr)
  }

  /** `_by_rank`: the hand grouped by rank. */
  function ByRank(cards: seq<Card>): seq<Bucket>
  {
    GroupBy(cards, RankOf)
  }

  /** `_by_suit`: the hand grouped by suit. */
  function BySuit(cards: seq<Card>): seq<Bucket>
  {
    GroupBy(cards, SuitOf)
  }

  /** Reference: the distinct attribute values of the hand in order of
      first appearance. */
  function Keys(cards: seq<Card>, attr: Attr): seq<nat>
  {
    if cards == [] then []
    else
      var ks := Keys(cards[..|cards| - 1], attr);
      var k := Key(cards[|cards| - 1], attr);
      if k in ks then ks else ks + [k]
  }

  /** The keys are distinct, and a value is a key exactly when some card of
      the hand has it. */
  lemma {:induction false} KeysFacts(cards: seq<Card>, attr: Attr)
    ensures forall i, j :: 0 <= i < j < |Keys(cards, attr)| ==> Keys(cards, attr)[i] != Keys(cards, attr)[j]
    ensures forall k: nat :: k in Keys(cards, attr) <==> Filter(cards, attr, k) != []
  {
    if cards != [] {
      var p := cards[..|cards| - 1];
      KeysFacts(p, attr);
      forall k: nat
        ensures k in Keys(cards, attr) <==> Filter(cards, attr, k) != []
      {
        FilterSingle(cards[|cards| - 1], attr, k);
      }
    }
  }

  /** The i-th key first appears at position `i` of the hand, and every
      card before that position has one of the earlier keys. */
  lemma {:induction false} KeysFirstSeen(cards: seq<Card>, attr: Attr, t: nat) returns (i: nat)
    requires t < |Keys(cards, attr)|
    ensures i < |cards| && Key(cards[i], attr) == Keys(cards, attr)[t]
    ensures forall j :: 0 <= j < i ==> Key(cards[j], attr) in Keys(cards, attr)[..t]
  {
    var p := cards[..|cards| - 1];
    var c := cards[|cards| - 1];
    var ks := Keys(p, attr);
    if t < |ks| {
      i := KeysFirstSeen(p, attr, t);
      assert Keys(cards, attr)[..t] == ks[..t];
    } else {
      i := |p|;
      forall j | 0 <= j < i
        ensures Key(cards[j], attr) in Keys(cards, attr)[..t]
      {
        KeysFacts(p, attr);
        FilterMembers(p, attr, Key(p[j], attr));
        assert p[j] in Filter(p, attr, Key(p[j], attr));
        assert Keys(cards, attr)[..t] == ks;
      }
    }
  }

  /** What the dictionary holds: entry i is keyed by the i-th distinct value
      in order of first appearance and holds exactly the hand's cards with
      that value, in hand order. */
  lemma {:induction false} GroupByMeaning(cards: seq<Card>, attr: Attr)
    ensures |GroupBy(cards, attr)| == |Keys(cards, attr)|
    ensures forall i :: 0 <= i < |GroupBy(cards, attr)| ==>
      GroupBy(cards, attr)[i] == Bucket(Keys(cards, attr)[i], Filter(cards, attr, Keys(cards, attr)[i]))
  {
    if cards != [] {
      var p := cards[..|cards| - 1];
      var c := cards[|cards| - 1];
      GroupByMeaning(p, attr);
      KeysFacts(p, attr);
      GroupStep(p, c, attr, GroupBy(p, attr), Keys(p, attr));
    }
  }

  /** Helper: the step of GroupByMeaning for one more card. */
  lemma GroupStep(p: seq<Card>, c: Card, attr: Attr, g: seq<Bucket>, ks: seq<nat>)
    requires g == GroupBy(p, attr) && ks == Keys(p, attr)
    requires |g| == |ks|
    requires forall i :: 0 <= i < |g| ==> g[i] == Bucket(ks[i], Filter(p, attr, ks[i]))
    requires forall i, j :: 0 <= i < j < |ks| ==> ks[i] != ks[j]
    requires forall k: nat :: k in ks <==> Filter(p, attr, k) != []
    ensures |GroupBy(p + [c], attr)| == |Keys(p + [c], attr)|
    ensures forall i :: 0 <= i < |GroupBy(p + [c], attr)| ==>
      GroupBy(p + [c], attr)[i] == Bucket(Keys(p + [c], attr)[i], Filter(p + [c], attr, Keys(p + [c], attr)[i]))
  {
    var s := p + [c];
    assert s[..|s| - 1] == p;
    var k := Key(c, attr);
    assert GroupBy(s, attr) == AddCard(g, c, attr);
    assert Keys(s, attr) == if k in ks then ks else ks + [k];
    FilterSnoc(p, c, attr);
    if FindGroup(g, k) == |g| {
      NewGroup(p, c, attr, g, ks);
    } else {
      OldGroup(p, c, attr, g, ks);
    }
  }

  /** Helper: the filters of one more card. */
  lemma FilterSnoc(p: seq<Card>, c: Card, attr: Attr)
    ensures forall k: nat :: Filter(p + [c], attr, k) == Filter(p, attr, k) + (if Key(c, attr) == k then [c] else [])
  {
    assert (p + [c])[..|p + [c]| - 1] == p;
  }

  /** Helper: a card of a new value opens a new entry at the end. */
  lemma NewGroup(p: seq<Card>, c: Card, attr: Attr, g: seq<Bucket>, ks: seq<nat>)
    requires |g| == |ks| && FindGroup(g, Key(c, attr)) == |g|
    requires forall i :: 0 <= i < |g| ==> g[i] == Bucket(ks[i], Filter(p, attr, ks[i]))
    requires forall k: nat :: Filter(p + [c], attr, k) == Filter(p, attr, k) + (if Key(c, attr) == k then [c] else [])
    requires forall k: nat :: k in ks <==> Filter(p, attr, k) != []
    ensures Key(c, attr) !in ks
    ensures var ks' := ks + [Key(c, attr)];
      forall i :: 0 <= i < |AddCard(g, c, attr)| ==>
        AddCard(g, c, attr)[i] == Bucket(ks'[i], Filter(p + [c], attr, ks'[i]))
  {
    assert Filter(p, attr, Key(c, attr)) == [];
  }

  /** Helper: a card of a known value joins the end of its entry. */
  lemma OldGroup(p: seq<Card>, c: Card, attr: Attr, g: seq<Bucket>, ks: seq<nat>)
    requires |g| == |ks| && FindGroup(g, Key(c, attr)) < |g|
    requires forall i :: 0 <= i < |g| ==> g[i] == Bucket(ks[i], Filter(p, attr, ks[i]))
    requires forall i, j :: 0 <= i < j < |ks| ==> ks[i] != ks[j]
    requires forall k: nat :: Filter(p + [c], attr, k) == Filter(p, attr, k) + (if Key(c, attr) == k then [c] else [])
    ensures Key(c, attr) in ks
    ensures forall i :: 0 <= i < |AddCard(g, c, attr)| ==>
      AddCard(g, c, attr)[i] == Bucket(ks[i], Filter(p + [c], attr, ks[i]))
  {
    var k := Key(c, attr);
    var i := FindGroup(g, k);
    assert ks[i] == k;
    forall j | 0 <= j < |g| && j != i
      ensures ks[j] != k
    {
      if j > i {
        assert ks[i] != ks[j];
      }
    }
  }

  /** Every run of five consecutive cards of `s`, front to back. */
  function Windows(s: seq<Card>): (r: seq<seq<Card>>)
    ensures |r| == if |s| >= 5 then |s| - 4 else 0
    ensures forall i :: 0 <= i < |r| ==> r[i] == s[i..i + 5]
  {
    if |s| < 5 then []
    else
      var rest := Windows(s[1..]);
      assert forall i :: 0 <= i < |rest| ==> rest[i] == s[i + 1..i + 6];
      [s[..5]] + rest
  }

  /** The flush loop over the entries of a suit grouping. */
  function FlushesOf(g: seq<Bucket>): seq<seq<Card>>
  {
    if g == [] then [] else Windows(g[0].cards) + FlushesOf(g[1..])
  }

  /** `_find_flushes`: the five-card windows of every suit group, suits in
      order of first appearance. */
  function Flushes(cards: seq<Card>): seq<seq<Card>>
  {
    FlushesOf(BySuit(cards))
  }

  /** Helper: membership in the flush list of a grouping. */
  lemma {:induction false} FlushesOfMembers(g: seq<Bucket>, w: seq<Card>)
    ensures w in FlushesOf(g) <==> exists j :: 0 <= j < |g| && w in Windows(g[j].cards)
  {
    if g != [] {
      FlushesOfMembers(g[1..], w);
      if w in FlushesOf(g[1..]) {
        var j :| 0 <= j < |g[1..]| && w in Windows(g[1..][j].cards);
        assert g[j + 1] == g[1..][j];
      }
      if exists j :: 0 <= j < |g| && w in Windows(g[j].cards) {
        var j :| 0 <= j < |g| && w in Windows(g[j].cards);
        if j > 0 {
          assert g[1..][j - 1] == g[j];
        }
      }
    }
  }

  /** Every flush candidate is five consecutive cards of one suit's cards in
      hand order, and every such run is a candidate. */
  lemma FlushesMeaning(cards: seq<Card>, w: seq<Card>)
    ensures w in Flushes(cards) <==> exists k: nat :: w in Windows(Filter(cards, SuitOf, k))
  {
    var g := BySuit(cards);
    var ks := Keys(cards, SuitOf);
    GroupByMeaning(cards, SuitOf);
    KeysFacts(cards, SuitOf);
    FlushesOfMembers(g, w);
    if w in Flushes(cards) {
      var j :| 0 <= j < |g| && w in Windows(g[j].cards);
      assert g[j].cards == Filter(cards, SuitOf, ks[j]);
    }
    if exists k: nat :: w in Windows(Filter(cards, SuitOf, k)) {
      var k: nat :| w in Windows(Filter(cards, SuitOf, k));
      assert Filter(cards, SuitOf, k) != [];
      assert k in ks;
      var j :| 0 <= j < |ks| && ks[j] == k;
      assert w in Windows(g[j].cards);
    }
  }

  /** A window is a sub-multiset of the sequence it is taken from. */
  lemma WindowInside(s: seq<Card>, i: nat)
    requires i + 5 <= |s|
    ensures multiset(s[i..i + 5]) <= multiset(s)
  {
    assert s == s[..i] + s[i..i + 5] + s[i + 5..];
  }

  /** A flush candidate has five cards, all of one suit, all from the hand. */
  lemma FlushCandidate(cards: seq<Card>, w: seq<Card>)
    requires w in Flushes(cards)
    ensures |w| == 5
    ensures forall i, j :: 0 <= i < j < 5 ==> w[i].suit == w[j].suit
    ensures multiset(w) <= multiset(cards)
  {
    FlushesMeaning(cards, w);
    var k: nat :| w in Windows(Filter(cards, SuitOf, k));
    var f := Filter(cards, SuitOf, k);
    var i :| 0 <= i < |Windows(f)| && Windows(f)[i] == w;
    SuitWindow(cards, k, i, w);
  }

  /** Helper: a window of one suit's cards. */
  lemma SuitWindow(cards: seq<Card>, k: nat, i: nat, w: seq<Card>)
    requires i + 5 <= |Filter(cards, SuitOf, k)|
    requires w == Filter(cards, SuitOf, k)[i..i + 5]
    ensures forall j :: 0 <= j < 5 ==> w[j].suit == k
    ensures multiset(w) <= multiset(cards)
  {
    var f := Filter(cards, SuitOf, k);
    WindowInside(f, i);
    FilterMembers(cards, SuitOf, k);
    forall j | 0 <= j < 5
      ensures w[j].suit == k
    {
      assert w[j] == f[i + j];
      assert Key(f[i + j], SuitOf) == k;
    }
  }

  /** The rank symbols of a run of cards (the source's `card_ranks`). */
  function RankSymbols(w: seq<Card>): (syms: seq<string>)
    ensures |syms| == |w|
  {
    seq(|w|, i requires 0 <= i < |w| => Ranks[w[i].rank])
  }

  /** The straight test of `_find_straights`: the run's rank symbols equal
      the slice of the rank table starting at the first card's rank; the
      slice is cut short at the end of the table. */
  predicate IsStraightRun(w: seq<Card>)
    requires |w| == 5
  {
    var syms := RankSymbols(w);
    var j := IndexOf(Ranks, syms[0]);
    syms == Ranks[j..if j + 5 <= |Ranks| then j + 5 else |Ranks|]
  }

  /** A straight is five cards of consecutive ranks, strongest first, and it
      never wraps around the end of the table (its top card is at most "6"). */
  lemma StraightRunMeaning(w: seq<Card>)
    requires |w| == 5
    ensures IsStraightRun(w) <==> w[0].rank <= 8 && forall i :: 0 <= i < 5 ==> w[i].rank == w[0].rank + i
  {
    if IsStraightRun(w) {
      StraightRunIsConsecutive(w);
    }
    if w[0].rank <= 8 && forall i :: 0 <= i < 5 ==> w[i].rank == w[0].rank + i {
      ConsecutiveIsStraightRun(w);
    }
  }

  /** Helper: the backward direction of StraightRunMeaning. */
  lemma ConsecutiveIsStraightRun(w: seq<Card>)
    requires |w| == 5 && w[0].rank <= 8
    requires forall i :: 0 <= i < 5 ==> w[i].rank == w[0].rank + i
    ensures IsStraightRun(w)
  {
    var j := w[0].rank;
    var syms := RankSymbols(w);
    IndexOfRankSymbol(j);
    assert syms[0] == Ranks[j];
    forall i | 0 <= i < 5
      ensures syms[i] == Ranks[j..j + 5][i]
    {
      assert w[i].rank == j + i;
    }
    assert syms == Ranks[j..j + 5];
  }

  /** Helper: distinct rank indices have distinct symbols. */
  lemma RankSymbolInjective(a: RankIndex, b: RankIndex)
    requires Ranks[a] == Ranks[b]
    ensures a == b
  {
    IndexOfRankSymbol(a);
    IndexOfRankSymbol(b);
  }

  /** Helper: the forward direction of StraightRunMeaning. */
  lemma StraightRunIsConsecutive(w: seq<Card>)
    requires |w| == 5 && IsStraightRun(w)
    ensures w[0].rank <= 8 && forall i :: 0 <= i < 5 ==> w[i].rank == w[0].rank + i
  {
    var syms := RankSymbols(w);
    var j := w[0].rank;
    IndexOfRankSymbol(j);
    assert |Ranks[j..if j + 5 <= |Ranks| then j + 5 else |Ranks|]| == 5;
    assert j + 5 <= |Ranks|;
    forall i | 0 <= i < 5
      ensures w[i].rank == j + i
    {
      assert syms[i] == Ranks[j + i];
      RankSymbolInjective(w[i].rank, j + i);
    }
  }

  /** `_find_straights`: every straight run among the five-card windows of
      the hand, front to back. */
  function Straights(s: seq<Card>): seq<seq<Card>>
  {
    if |s| < 5 then []
    else (if IsStraightRun(s[..5]) then [s[..5]] else []) + Straights(s[1..])
  }

  /** The straight candidates are exactly the windows that are straight runs. */
  lemma {:induction false} StraightsMeaning(s: seq<Card>, w: seq<Card>)
    ensures w in Straights(s) <==> w in Windows(s) && IsStraightRun(w)
  {
    if |s| >= 5 {
      StraightsMeaning(s[1..], w);
      assert Windows(s) == [s[..5]] + Windows(s[1..]);
    }
  }

  /** The first straight candidate is the earliest window that is a
      straight; `i` is its position. */
  lemma {:induction false} FirstStraight(s: seq<Card>) returns (i: nat)
    requires Straights(s) != []
    ensures i < |Windows(s)| && Straights(s)[0] == Windows(s)[i] && IsStraightRun(Windows(s)[i])
    ensures forall j :: 0 <= j < i ==> !IsStraightRun(Windows(s)[j])
  {
    var ws := Windows(s);
    if IsStraightRun(s[..5]) {
      i := 0;
    } else {
      var i' := FirstStraight(s[1..]);
      var ws' := Windows(s[1..]);
      assert ws == [s[..5]] + ws';
      i := i' + 1;
      forall j | 0 <= j < i
        ensures !IsStraightRun(ws[j])
      {
        if j > 0 {
          assert ws[j] == ws'[j - 1];
        }
      }
    }
  }
}
