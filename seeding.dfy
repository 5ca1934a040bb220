/**
 * Round one: the roster is sorted by rating, highest first (a stable sort),
 * and the top half meets the bottom half rank for rank, the top-half player
 * taking White. With an odd roster the last player of the sorted roster has
 * the bye.
 */
module Seeding {
  import opened Players
  import opened Sorting

  lemma IdsSnoc(s: seq<Player>, i: nat)
    requires i < |s|
    ensures Ids(s[..i + 1]) == Ids(s[..i]) + [s[i].id]
  {
    assert s[..i + 1][..i] == s[..i];
  }

  lemma PairingIdsSnoc(prs: seq<Pairing>, pr: Pairing)
    ensures PairingIds(prs + [pr]) == PairingIds(prs) + [pr.white] + (if pr.black.Some? then [pr.black.value] else [])
  {
    PairingIdsConcat(prs, [pr]);
    assert [pr][1..] == [];
  }

  lemma Halves(n: nat)
    ensures n == n / 2 + n / 2 + n % 2 && (n % 2 == 0 || n % 2 == 1)
  {
  }

  /** A roster is its top half, its bottom half and, when odd, its last player. */
  lemma SplitIds(s: seq<Player>, m: nat)
    requires m + m <= |s| <= m + m + 1
    ensures multiset(Ids(s)) == multiset(Ids(s[..m])) + multiset(Ids(s[m..][..m]))
                               + (if |s| == m + m then multiset{} else multiset{s[|s| - 1].id})
  {
    assert s[..m] + s[m..][..m] == s[..m + m];
    IdsConcat(s[..m], s[m..][..m]);
    if |s| == m + m {
      assert s[..m + m] == s;
    } else {
      IdsSnoc(s, m + m);
      assert s[..m + m + 1] == s;
    }
  }

  /** Rank-for-rank pairings of a top half (White) against a bottom half (Black). */
  function RankPairs(top: seq<PlayerId>, bottom: seq<PlayerId>): seq<Pairing>
    requires |top| == |bottom|
  {
    if top == [] then [] else [Pairing(top[0], Some(bottom[0]), 1, None)] + RankPairs(top[1..], bottom[1..])
  }

  lemma MultisetHead(s: seq<PlayerId>)
    requires s != []
    ensures multiset(s) == multiset{s[0]} + multiset(s[1..])
  {
    assert s == [s[0]] + s[1..];
  }

  lemma RankPairsCons(top: seq<PlayerId>, bottom: seq<PlayerId>)
    requires |top| == |bottom| && top != []
    ensures PairingIds(RankPairs(top, bottom)) == [top[0], bottom[0]] + PairingIds(RankPairs(top[1..], bottom[1..]))
  {
    var prs := RankPairs(top, bottom);
    assert prs[0] == Pairing(top[0], Some(bottom[0]), 1, None);
    assert prs[1..] == RankPairs(top[1..], bottom[1..]);
  }

  /** Pairing two halves rank for rank uses every id of both halves once. */
  lemma {:induction false} RankPairsIds(top: seq<PlayerId>, bottom: seq<PlayerId>)
    requires |top| == |bottom|
    ensures multiset(PairingIds(RankPairs(top, bottom))) == multiset(top) + multiset(bottom)
  {
    if top != [] {
      RankPairsIds(top[1..], bottom[1..]);
      RankPairsCons(top, bottom);
      assert multiset([top[0], bottom[0]] + PairingIds(RankPairs(top[1..], bottom[1..])))
          == multiset{top[0], bottom[0]} + multiset(PairingIds(RankPairs(top[1..], bottom[1..])));
      MultisetHead(top);
      MultisetHead(bottom);
    }
  }

  /** Pairing two halves rank for rank gives no bye. */
  lemma {:induction false} RankPairsNoBye(top: seq<PlayerId>, bottom: seq<PlayerId>)
    requires |top| == |bottom|
    ensures ByeCount(RankPairs(top, bottom)) == 0
  {
    if top != [] {
      RankPairsNoBye(top[1..], bottom[1..]);
    }
  }

  /** Pairings given index by index are the rank-for-rank pairings. */
  lemma {:induction false} HalvesPaired(prs: seq<Pairing>, top: seq<PlayerId>, bottom: seq<PlayerId>)
    requires |prs| == |top| == |bottom|
    requires forall k {:trigger prs[k]} :: 0 <= k < |prs| ==> prs[k] == Pairing(top[k], Some(bottom[k]), 1, None)
    ensures prs == RankPairs(top, bottom)
  {
    if prs != [] {
      RankPairsTail(prs, top, bottom);
      HalvesPaired(prs[1..], top[1..], bottom[1..]);
      assert prs == [prs[0]] + prs[1..];
    }
  }

  lemma RankPairsTail(prs: seq<Pairing>, top: seq<PlayerId>, bottom: seq<PlayerId>)
    requires 0 < |prs| == |top| == |bottom|
    requires forall k {:trigger prs[k]} :: 0 <= k < |prs| ==> prs[k] == Pairing(top[k], Some(bottom[k]), 1, None)
    ensures forall k {:trigger prs[1..][k]} :: 0 <= k < |prs| - 1 ==> prs[1..][k] == Pairing(top[1..][k], Some(bottom[1..][k]), 1, None)
  {
    forall k | 0 <= k < |prs| - 1 ensures prs[1..][k] == Pairing(top[1..][k], Some(bottom[1..][k]), 1, None) {
      assert prs[1..][k] == prs[k + 1];
    }
  }

  /** The key of the rating sort. */
  function RatingRank(p: Player): Rank
  {
    Rank(p.rating, 0, 0)
  }

  /** The roster sorted by rating, in the order the stable sort leaves it. */
  method SortByRating(ps: seq<Player>) returns (sorted: seq<Player>)
    ensures sorted == SortDescending(ps, RatingRank)
  {
    sorted := [];
    var i := |ps|;
    while i > 0
      invariant 0 <= i <= |ps|
      invariant sorted == SortDescending(ps[i..], RatingRank)
    {
      i := i - 1;
      var x := ps[i];
      var j := 0;
      while j < |sorted| && !AtLeast(RatingRank(x), RatingRank(sorted[j]))
        invariant 0 <= j <= |sorted|
        invariant forall k :: 0 <= k < j ==> !AtLeast(RatingRank(x), RatingRank(sorted[k]))
      {
        j := j + 1;
      }
      InsertAt(x, sorted, j, RatingRank);
      assert ps[i..] == [x] + ps[i + 1..];
      sorted := sorted[..j] + [x] + sorted[j..];
    }
  }

  /**
   * What the rating sort promises: highest rating first, the same players,
   * and players of equal rating in their roster order.
   */
  lemma SortByRatingOrder(ps: seq<Player>)
    ensures var sorted := SortDescending(ps, RatingRank);
      && (forall i, j :: 0 <= i < j < |sorted| ==> sorted[i].rating >= sorted[j].rating)
      && multiset(sorted) == multiset(ps)
      && (forall rating :: WithRank(sorted, Rank(rating, 0, 0), RatingRank) == WithRank(ps, Rank(rating, 0, 0), RatingRank))
  {
    var sorted := SortDescending(ps, RatingRank);
    SortedOutput(ps, RatingRank);
    SortPermutation(ps, RatingRank);
    forall i, j | 0 <= i < j < |sorted| ensures sorted[i].rating >= sorted[j].rating {
      assert AtLeast(RatingRank(sorted[i]), RatingRank(sorted[j]));
    }
    forall rating ensures WithRank(sorted, Rank(rating, 0, 0), RatingRank) == WithRank(ps, Rank(rating, 0, 0), RatingRank) {
      StableOutput(ps, Rank(rating, 0, 0), RatingRank);
    }
  }

  /**
   * The round-one pairings of a sorted roster: index i (White) against index
   * i + n/2 (Black) for every i < n/2, then a bye for the last player when n
   * is odd.
   */
  ghost predicate Seeded(sorted: seq<Player>, prs: seq<Pairing>)
  {
    && |prs| == |sorted| / 2 + |sorted| % 2
    && (forall i {:trigger prs[i]} :: 0 <= i < |sorted| / 2 ==>
          prs[i] == Pairing(sorted[i].id, Some(sorted[i + |sorted| / 2].id), 1, None))
    && (|sorted| % 2 == 1 ==> prs[|sorted| / 2] == Pairing(sorted[|sorted| - 1].id, None, 1, None))
  }

  /** The pairs built index by index use each id of the two halves once and give no bye. */
  lemma PairsOfHalves(sorted: seq<Player>, pairs: seq<Pairing>)
    requires |pairs| == |sorted| / 2
    requires forall k {:trigger pairs[k]} :: 0 <= k < |pairs| ==>
               pairs[k] == Pairing(sorted[k].id, Some(sorted[k + |sorted| / 2].id), 1, None)
    ensures multiset(PairingIds(pairs)) == multiset(Ids(sorted[..|sorted| / 2])) + multiset(Ids(sorted[|sorted| / 2..][..|sorted| / 2]))
    ensures ByeCount(pairs) == 0
  {
    var m := |sorted| / 2;
    Halves(|sorted|);
    var top, bottom := Ids(sorted[..m]), Ids(sorted[m..][..m]);
    HalvesPaired(pairs, top, bottom);
    RankPairsIds(top, bottom);
    RankPairsNoBye(top, bottom);
  }

  /** The rank-for-rank pairs followed, for an odd roster, by the bye of the last player are seeded. */
  lemma SeededTail(sorted: seq<Player>, pairs: seq<Pairing>, prs: seq<Pairing>)
    requires |pairs| == |sorted| / 2
    requires forall k {:trigger pairs[k]} :: 0 <= k < |pairs| ==>
               pairs[k] == Pairing(sorted[k].id, Some(sorted[k + |sorted| / 2].id), 1, None)
    requires prs == pairs + (if |sorted| % 2 == 1 then [Pairing(sorted[|sorted| - 1].id, None, 1, None)] else [])
    ensures Seeded(sorted, prs)
  {
    assert forall k :: 0 <= k < |pairs| ==> prs[k] == pairs[k];
  }

  /** The round-one pairings of a sorted roster, in which every player is paired exactly once. */
  method SeedPairings(sorted: seq<Player>) returns (prs: seq<Pairing>)
    ensures Seeded(sorted, prs)
    ensures multiset(PairingIds(prs)) == multiset(Ids(sorted))
    ensures ByeCount(prs) == |sorted| % 2
  {
    var midpoint := |sorted| / 2;
    Halves(|sorted|);
    var pairs := [];
    for i := 0 to midpoint
      invariant |pairs| == i
      invariant forall k {:trigger pairs[k]} :: 0 <= k < i ==> pairs[k] == Pairing(sorted[k].id, Some(sorted[k + midpoint].id), 1, None)
    {
      pairs := pairs + [Pairing(sorted[i].id, Some(sorted[i + midpoint].id), 1, None)];
    }
    PairsOfHalves(sorted, pairs);
    SplitIds(sorted, midpoint);
    if |sorted| % 2 != 0 {
      var bye := Pairing(sorted[|sorted| - 1].id, None, 1, None);
      PairingIdsSnoc(pairs, bye);
      ByeCountConcat(pairs, [bye]);
      prs := pairs + [bye];
    } else {
      prs := pairs;
    }
    SeededTail(sorted, pairs, prs);
  }
}
