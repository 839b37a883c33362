/**
 * Sorting a hand strongest first. `cards.sort(reverse=True)` orders the
 * cards by the `<` of Card (rank only) into non-increasing strength and is
 * stable: cards of equal rank keep their relative order. The functional
 * sort here is the specification; SortInPlace sorts an array in place and
 * is proved to produce it.
 */
module HandSort {
  import opened Cards

  /** Non-increasing strength: rank indices never decrease along `s`. */
  predicate StrongestFirst(s: seq<Card>)
  {
    forall i, j :: 0 <= i < j < |s| ==> s[i].rank <= s[j].rank
  }

  /** Inserts `x` behind every card of `s` that is at least as strong,
      scanning from the end: the step of a stable insertion sort. */
  function Insert(s: seq<Card>, x: Card): (r: seq<Card>)
    ensures |r| == |s| + 1
  {
    if s == [] || s[|s| - 1].rank <= x.rank then s + [x]
    else Insert(s[..|s| - 1], x) + [s[|s| - 1]]
  }

  /** The stable strongest-first sort of `s`. */
  function SortStrongestFirst(s: seq<Card>): (r: seq<Card>)
    ensures |r| == |s|
  {
    if s == [] then []
    else Insert(SortStrongestFirst(s[..|s| - 1]), s[|s| - 1])
  }

  /** Inserting adds exactly `x` to the cards. */
  lemma {:induction false} InsertPerm(s: seq<Card>, x: Card)
    ensures multiset(Insert(s, x)) == multiset(s) + multiset{x}
    decreases |s|
  {
    if s != [] && s[|s| - 1].rank > x.rank {
      assert s == s[..|s| - 1] + [s[|s| - 1]];
      InsertPerm(s[..|s| - 1], x);
    }
  }

  /** The sort is a permutation of its input. */
  lemma {:induction false} SortPerm(s: seq<Card>)
    ensures multiset(SortStrongestFirst(s)) == multiset(s)
  {
    if s != [] {
      assert s == s[..|s| - 1] + [s[|s| - 1]];
      SortPerm(s[..|s| - 1]);
      InsertPerm(SortStrongestFirst(s[..|s| - 1]), s[|s| - 1]);
    }
  }

  /** Inserting into a strongest-first hand keeps it strongest first. */
  lemma {:induction false} InsertSorted(s: seq<Card>, x: Card)
    requires StrongestFirst(s)
    ensures StrongestFirst(Insert(s, x))
    decreases |s|
  {
    if s != [] && s[|s| - 1].rank > x.rank {
      var p := s[..|s| - 1];
      InsertSorted(p, x);
      InsertBelow(p, x, s[|s| - 1]);
      AppendWeakest(Insert(p, x), s[|s| - 1]);
    }
  }

  /** Helper: if `l` is no stronger than `x` or any card of the sorted `p`,
      it is no stronger than any card of `Insert(p, x)`. */
  lemma InsertBelow(p: seq<Card>, x: Card, l: Card)
    requires StrongestFirst(p + [l]) && x.rank <= l.rank
    ensures forall c :: c in Insert(p, x) ==> c.rank <= l.rank
  {
    var q := Insert(p, x);
    InsertPerm(p, x);
    forall c | c in q
      ensures c.rank <= l.rank
    {
      assert c in multiset(q);
      if c != x {
        assert c in multiset(p);
        var i :| 0 <= i < |p| && p[i] == c;
        assert (p + [l])[i] == c && (p + [l])[|p|] == l;
      }
    }
  }

  /** Helper: appending a card no stronger than all others keeps a hand sorted. */
  lemma AppendWeakest(q: seq<Card>, l: Card)
    requires StrongestFirst(q)
    requires forall c :: c in q ==> c.rank <= l.rank
    ensures StrongestFirst(q + [l])
  {
    forall i, j | 0 <= i < j < |q + [l]|
      ensures (q + [l])[i].rank <= (q + [l])[j].rank
    {
      assert (q + [l])[i] == q[i];
      if j < |q| {
        assert (q + [l])[j] == q[j];
      } else {
        assert q[i] in q;
      }
    }
  }

  /** The sort's result is strongest first. */
  lemma {:induction false} SortSorted(s: seq<Card>)
    ensures StrongestFirst(SortStrongestFirst(s))
  {
    if s != [] {
      SortSorted(s[..|s| - 1]);
      InsertSorted(SortStrongestFirst(s[..|s| - 1]), s[|s| - 1]);
    }
  }

  /** Inserting `x` adds it after the cards of its own rank already in `s`. */
  lemma {:induction false} InsertStable(s: seq<Card>, x: Card, k: nat)
    ensures Filter(Insert(s, x), RankOf, k) == Filter(s, RankOf, k) + Filter([x], RankOf, k)
    decreases |s|
  {
    if s == [] || s[|s| - 1].rank <= x.rank {
      assert Insert(s, x) == s + [x];
      FilterAppend(s, [x], RankOf, k);
    } else {
      var p := s[..|s| - 1];
      var l := s[|s| - 1];
      var q := Insert(p, x);
      assert s == p + [l];
      assert Insert(s, x) == q + [l];
      InsertStable(p, x, k);
      FilterAppend(q, [l], RankOf, k);
      FilterAppend(p, [l], RankOf, k);
      FilterSingle(x, RankOf, k);
      FilterSingle(l, RankOf, k);
      var fp, fx, fl := Filter(p, RankOf, k), Filter([x], RankOf, k), Filter([l], RankOf, k);
      assert Filter(Insert(s, x), RankOf, k) == fp + fx + fl;
      assert Filter(s, RankOf, k) + fx == fp + fl + fx;
      SwapSingles(fp, fx, fl);
    }
  }

  /** Two filters of single cards of different ranks cannot both be
      non-empty, so their order does not matter. */
  lemma SwapSingles(fp: seq<Card>, fx: seq<Card>, fl: seq<Card>)
    requires fx == [] || fl == []
    ensures fp + fx + fl == fp + fl + fx
  {
    if fx == [] {
      assert fp + fx + fl == fp + fl == fp + fl + fx;
    } else {
      assert fp + fx + fl == fp + fx == fp + fl + fx;
    }
  }

  /** The sort is stable: for every rank, the cards of that rank appear in
      the sorted hand in the order they had in the input. */
  lemma {:induction false} SortIsStable(s: seq<Card>, k: nat)
    ensures Filter(SortStrongestFirst(s), RankOf, k) == Filter(s, RankOf, k)
  {
    if s != [] {
      var p := s[..|s| - 1];
      var x := s[|s| - 1];
      assert s == p + [x];
      SortIsStable(p, k);
      InsertStable(SortStrongestFirst(p), x, k);
      FilterAppend(p, [x], RankOf, k);
    }
  }

  /** Two strongest-first orderings that agree rank by rank are the same:
      there is only one stable sort of a hand, whatever algorithm finds it. */
  lemma {:induction false} StableSortUnique(t: seq<Card>, u: seq<Card>)
    requires StrongestFirst(t) && StrongestFirst(u)
    requires forall k: nat :: Filter(t, RankOf, k) == Filter(u, RankOf, k)
    ensures t == u
    decreases |t|
  {
    NonEmptyFilter(t);
    NonEmptyFilter(u);
    if t != [] && u != [] {
      var t', u' := t[..|t| - 1], u[..|u| - 1];
      LastHasTopRank(t, u);
      LastHasTopRank(u, t);
      SameLast(t, u);
      PeelLast(t, u, t', u');
      SortedPrefix(t);
      SortedPrefix(u);
      StableSortUnique(t', u');
      JoinLast(t, u, t', u');
    }
  }

  /** Helper: a prefix of a strongest-first hand is strongest first. */
  lemma SortedPrefix(t: seq<Card>)
    requires t != [] && StrongestFirst(t)
    ensures StrongestFirst(t[..|t| - 1])
  {
  }

  /** Helper: equal prefixes and equal last cards make equal sequences. */
  lemma JoinLast(t: seq<Card>, u: seq<Card>, t': seq<Card>, u': seq<Card>)
    requires t != [] && u != [] && t[|t| - 1] == u[|u| - 1]
    requires t' == t[..|t| - 1] && u' == u[..|u| - 1] && t' == u'
    ensures t == u
  {
    assert t == t' + [t[|t| - 1]];
    assert u == u' + [u[|u| - 1]];
  }

  /** Helper: with the same cards of each rank and last cards of the same
      rank, the last cards are the same card. */
  lemma SameLast(t: seq<Card>, u: seq<Card>)
    requires t != [] && u != []
    requires t[|t| - 1].rank == u[|u| - 1].rank
    requires forall k: nat :: Filter(t, RankOf, k) == Filter(u, RankOf, k)
    ensures t[|t| - 1] == u[|u| - 1]
  {
    var r := t[|t| - 1].rank;
    LastOfFilter(t, r);
    LastOfFilter(u, r);
    assert Filter(t, RankOf, r) == Filter(u, RankOf, r);
  }

  /** Helper: dropping the same last card keeps the filters equal. */
  lemma PeelLast(t: seq<Card>, u: seq<Card>, t': seq<Card>, u': seq<Card>)
    requires t != [] && u != [] && t[|t| - 1] == u[|u| - 1]
    requires t' == t[..|t| - 1] && u' == u[..|u| - 1]
    requires forall k: nat :: Filter(t, RankOf, k) == Filter(u, RankOf, k)
    ensures forall k: nat :: Filter(t', RankOf, k) == Filter(u', RankOf, k)
  {
    forall k: nat
      ensures Filter(t', RankOf, k) == Filter(u', RankOf, k)
    {
      DropLastFilter(t, k);
      DropLastFilter(u, k);
      var ft, fu := Filter(t', RankOf, k), Filter(u', RankOf, k);
      var e := Filter([t[|t| - 1]], RankOf, k);
      assert ft + e == fu + e;
      assert ft == (ft + e)[..|ft|];
      assert fu == (fu + e)[..|fu|];
    }
  }

  /** Helper: the filter for the last card's rank ends with that card. */
  lemma LastOfFilter(t: seq<Card>, r: nat)
    requires t != [] && t[|t| - 1].rank == r
    ensures Filter(t, RankOf, r) != []
    ensures Filter(t, RankOf, r)[|Filter(t, RankOf, r)| - 1] == t[|t| - 1]
  {
  }

  /** Helper: a filter splits at the last card. */
  lemma DropLastFilter(t: seq<Card>, k: nat)
    requires t != []
    ensures Filter(t, RankOf, k) == Filter(t[..|t| - 1], RankOf, k) + Filter([t[|t| - 1]], RankOf, k)
  {
    FilterSingle(t[|t| - 1], RankOf, k);
  }

  /** Helper: a non-empty hand has a non-empty filter for its first card's rank. */
  lemma NonEmptyFilter(t: seq<Card>)
    ensures t != [] ==> Filter(t, RankOf, t[0].rank) != []
  {
    if t != [] {
      FilterMembers(t, RankOf, t[0].rank);
      assert t[0] in t;
    }
  }

  /** Helper: the last card of `t` is no stronger than the last card of a
      strongest-first `u` with the same cards of each rank. */
  lemma LastHasTopRank(t: seq<Card>, u: seq<Card>)
    requires t != [] && u != []
    requires StrongestFirst(u)
    requires forall k: nat :: Filter(t, RankOf, k) == Filter(u, RankOf, k)
    ensures t[|t| - 1].rank <= u[|u| - 1].rank
  {
    var lt := t[|t| - 1];
    FoundInOther(t, u, lt.rank);
    WeakestLast(u, lt);
  }

  /** Helper: the last card of `t` also occurs in `u`. */
  lemma FoundInOther(t: seq<Card>, u: seq<Card>, r: nat)
    requires t != [] && t[|t| - 1].rank == r
    requires Filter(t, RankOf, r) == Filter(u, RankOf, r)
    ensures t[|t| - 1] in u
  {
    LastOfFilter(t, r);
    FilterMembers(u, RankOf, r);
    assert t[|t| - 1] in Filter(u, RankOf, r);
  }

  /** Helper: no card of a strongest-first hand is weaker than its last. */
  lemma WeakestLast(u: seq<Card>, c: Card)
    requires StrongestFirst(u) && c in u
    ensures c.rank <= u[|u| - 1].rank
  {
    var i :| 0 <= i < |u| && u[i] == c;
    if i < |u| - 1 {
      assert u[i].rank <= u[|u| - 1].rank;
    }
  }

  /** Any stable strongest-first arrangement of `s` is SortStrongestFirst(s). */
  lemma SortUnique(s: seq<Card>, t: seq<Card>)
    requires StrongestFirst(t)
    requires forall k: nat :: Filter(t, RankOf, k) == Filter(s, RankOf, k)
    ensures t == SortStrongestFirst(s)
  {
    forall k: nat
      ensures Filter(t, RankOf, k) == Filter(SortStrongestFirst(s), RankOf, k)
    {
      SortIsStable(s, k);
    }
    SortSorted(s);
    StableSortUnique(t, SortStrongestFirst(s));
  }

  /** `cards.sort(reverse=True)` on the caller's list: a stable insertion
      sort by swapping, leaving the array holding the stable sort of its
      old contents. */
  method SortInPlace(a: array<Card>)
    modifies a
    ensures a[..] == SortStrongestFirst(old(a[..]))
  {
    ghost var input := a[..];
    var i := 0;
    while i < a.Length
      invariant 0 <= i <= a.Length
      invariant a[..] == SortStrongestFirst(input[..i]) + input[i..]
    {
      SortStep(input, i, a[..]);
      SinkLast(a, i);
      i := i + 1;
    }
    assert input[..a.Length] == input;
  }

  /** Helper: the sorted prefix grows by inserting the next input card. */
  lemma SortStep(input: seq<Card>, i: nat, w: seq<Card>)
    requires i < |input|
    requires w == SortStrongestFirst(input[..i]) + input[i..]
    ensures w[..i] == SortStrongestFirst(input[..i]) && w[i] == input[i] && w[i + 1..] == input[i + 1..]
    ensures SortStrongestFirst(input[..i + 1]) + input[i + 1..]
         == Insert(SortStrongestFirst(input[..i]), input[i]) + input[i + 1..]
  {
    assert input[..i + 1][..i] == input[..i];
  }

  /** One pass of the insertion sort: swaps `a[i]` towards the front past
      every strictly weaker card, which inserts it into the sorted `a[..i]`. */
  method SinkLast(a: array<Card>, i: nat)
    requires i < a.Length
    modifies a
    ensures a[..] == Insert(old(a[..i]), old(a[i])) + old(a[i + 1..])
  {
    ghost var sorted := a[..i];
    ghost var rest := a[i + 1..];
    var x := a[i];
    var j := i;
    SinkShape(sorted, x, rest, j);
    assert a[..] == a[..i] + [x] + a[i + 1..];
    while j > 0 && a[j - 1].rank > a[j].rank
      invariant 0 <= j <= i
      invariant a[..] == sorted[..j] + [x] + sorted[j..] + rest
      invariant Insert(sorted, x) == Insert(sorted[..j], x) + sorted[j..]
    {
      SinkShape(sorted, x, rest, j);
      SwapStep(sorted, x, rest, j);
      a[j - 1], a[j] := a[j], a[j - 1];
      j := j - 1;
    }
    SinkShape(sorted, x, rest, j);
    SinkDone(sorted, x, rest, j);
  }

  /** Helper: where the cards sit while `x` moves forward. */
  lemma SinkShape(sorted: seq<Card>, x: Card, rest: seq<Card>, j: nat)
    requires j <= |sorted|
    ensures |sorted[..j] + [x] + sorted[j..] + rest| == |sorted| + 1 + |rest|
    ensures (sorted[..j] + [x] + sorted[j..] + rest)[j] == x
    ensures j > 0 ==> (sorted[..j] + [x] + sorted[j..] + rest)[j - 1] == sorted[j - 1]
    ensures j == |sorted| ==> sorted[..j] == sorted && sorted[j..] == []
    ensures j == |sorted| ==> Insert(sorted, x) == Insert(sorted[..j], x) + sorted[j..]
  {
  }

  /** Helper: the sequence facts behind one swap of SinkLast. */
  lemma SwapStep(sorted: seq<Card>, x: Card, rest: seq<Card>, j: nat)
    requires 0 < j <= |sorted|
    requires sorted[j - 1].rank > x.rank
    ensures (sorted[..j] + [x] + sorted[j..] + rest)[j - 1 := x][j := sorted[j - 1]]
         == sorted[..j - 1] + [x] + sorted[j - 1..] + rest
    ensures Insert(sorted[..j], x) + sorted[j..] == Insert(sorted[..j - 1], x) + sorted[j - 1..]
  {
    assert sorted[..j - 1] == sorted[..j][..j - 1];
    assert sorted[j - 1..] == [sorted[j - 1]] + sorted[j..];
  }

  /** Helper: once `x` stops behind a card at least as strong (or at the
      front), the array holds the insertion followed by the untouched rest. */
  lemma SinkDone(sorted: seq<Card>, x: Card, rest: seq<Card>, j: nat)
    requires j <= |sorted|
    requires j == 0 || sorted[j - 1].rank <= x.rank
    ensures sorted[..j] + [x] + sorted[j..] + rest == Insert(sorted[..j], x) + sorted[j..] + rest
  {
  }
}
