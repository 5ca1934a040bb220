/**
 * The tournament object: the roster, the number of the current round and
 * the pairings of that round, updated in place by seeding, by pairing the
 * next round and by reporting results. The standings are a view computed
 * from the current state.
 */
module Tournament {
  import opened Players
  import opened Sorting
  import opened Seeding
  import opened Rounds
  import opened RoundProperties
  import opened Results
  import opened Standings

  /** No pairing puts a player against itself. */
  ghost predicate DistinctSides(prs: seq<Pairing>)
  {
    forall k :: 0 <= k < |prs| ==> prs[k].black.Some? ==> prs[k].white != prs[k].black.value
  }

  /** Pairings that name no id twice never put a player against itself. */
  lemma {:induction false} DistinctSidesFromBag(prs: seq<Pairing>)
    requires forall x :: multiset(PairingIds(prs))[x] <= 1
    ensures DistinctSides(prs)
  {
    if prs != [] {
      var head := [prs[0].white] + (if prs[0].black.Some? then [prs[0].black.value] else []);
      assert PairingIds(prs) == head + PairingIds(prs[1..]);
      assert multiset(PairingIds(prs)) == multiset(head) + multiset(PairingIds(prs[1..]));
      forall x ensures multiset(PairingIds(prs[1..]))[x] <= 1 {
        assert multiset(PairingIds(prs[1..]))[x] <= multiset(PairingIds(prs))[x];
      }
      DistinctSidesFromBag(prs[1..]);
      var w := prs[0].white;
      assert multiset(PairingIds(prs))[w] <= 1;
      if prs[0].black.Some? {
        assert multiset(head)[w] == (if w == prs[0].black.value then 2 else 1);
      }
      forall k | 1 <= k < |prs| ensures prs[k].black.Some? ==> prs[k].white != prs[k].black.value {
        assert prs[k] == prs[1..][k - 1];
      }
    }
  }

  /**
   * The invariants of the roster: ids are distinct; every player has one
   * colour per opponent, never itself as an opponent, and a game on one
   * record is on the other's.
   */
  ghost predicate RosterOk(ps: seq<Player>)
  {
    UniqueIds(ps) && Balanced(ps) && NoSelfGames(ps) && Symmetric(ps)
  }

  /** The roster invariants do not depend on the order of the roster. */
  lemma RosterPermutation(s: seq<Player>, t: seq<Player>)
    requires multiset(s) == multiset(t) && RosterOk(s)
    ensures RosterOk(t)
  {
    UniqueIdsPermutation(s, t);
    forall i | 0 <= i < |t| ensures exists a :: 0 <= a < |s| && s[a] == t[i] {
      assert t[i] in multiset(s);
    }
    forall i, j | 0 <= i < |t| && 0 <= j < |t|
      ensures multiset(t[i].opponents)[t[j].id] == multiset(t[j].opponents)[t[i].id]
    {
      var a :| 0 <= a < |s| && s[a] == t[i];
      var b :| 0 <= b < |s| && s[b] == t[j];
    }
  }

  /** Sorting by rating keeps the roster and its invariants. */
  lemma SortedRosterOk(ps: seq<Player>)
    requires RosterOk(ps)
    ensures multiset(SortDescending(ps, RatingRank)) == multiset(ps)
    ensures RosterOk(SortDescending(ps, RatingRank))
  {
    SortPermutation(ps, RatingRank);
    RosterPermutation(ps, SortDescending(ps, RatingRank));
  }

  /** Pairings that name each player of a roster with distinct ids once put nobody against itself. */
  lemma PairedOnce(ps: seq<Player>, prs: seq<Pairing>)
    requires UniqueIds(ps) && multiset(PairingIds(prs)) == multiset(Ids(ps))
    ensures DistinctSides(prs)
  {
    UniqueIdsBag(ps);
    DistinctSidesFromBag(prs);
  }

  /** Score-group pairing pairs every player of the roster once, with a bye exactly for an odd roster. */
  lemma RoundPaired(ps: seq<Player>, round: nat)
    requires UniqueIds(ps)
    ensures multiset(PairingIds(RoundPairings(ps, round))) == multiset(Ids(ps))
    ensures ByeCount(RoundPairings(ps, round)) == |ps| % 2
    ensures DistinctSides(RoundPairings(ps, round))
  {
    RoundPairingsIds(ps, round);
    RoundPairingsByes(ps, round);
    PairedOnce(ps, RoundPairings(ps, round));
  }

  /** Reporting a result keeps the roster invariants and the ids, and accounts for the points. */
  lemma RecordedRosterOk(ps: seq<Player>, pr: Pairing, result: string)
    requires RosterOk(ps)
    requires pr.black.Some? ==> pr.white != pr.black.value
    ensures RosterOk(RecordAll(ps, pr, result))
    ensures pr.white in Ids(ps) && (pr.black.Some? ==> pr.black.value in Ids(ps)) ==>
              TotalScore(RecordAll(ps, pr, result)) == TotalScore(ps) + (if pr.black.None? || result in {WhiteWins, BlackWins, Draw} then 2 else 0)
  {
    var r := RecordAll(ps, pr, result);
    RecordKeepsBalance(ps, pr, result);
    RecordKeepsNoSelfGames(ps, pr, result);
    RecordKeepsSymmetry(ps, pr, result);
    assert forall i :: 0 <= i < |ps| ==> r[i].id == ps[i].id;
    if pr.white in Ids(ps) && (pr.black.Some? ==> pr.black.value in Ids(ps)) {
      ScoreConservation(ps, pr, result);
    }
  }

  class SwissTournament {
    var players: seq<Player>
    var currentRound: nat
    var pairings: seq<Pairing>

    /** The roster invariants hold and no current pairing puts a player against itself. */
    ghost predicate Valid()
      reads this
    {
      RosterOk(players) && DistinctSides(pairings)
    }

    /** A tournament over the seeded players: no points, no games, round 0, no pairings. */
    constructor(seeds: seq<Seed>)
      ensures |players| == |seeds|
      ensures forall i :: 0 <= i < |seeds| ==> players[i] == Enroll(seeds[i])
      ensures currentRound == 0 && pairings == []
      ensures (forall i, j :: 0 <= i < j < |seeds| ==> seeds[i].id != seeds[j].id) ==> Valid()
    {
      players := seq(|seeds|, i requires 0 <= i < |seeds| => Enroll(seeds[i]));
      currentRound := 0;
      pairings := [];
    }

    /**
     * Round one: the roster is re-ordered by rating, highest first, stably;
     * the top half gets White against the bottom half rank for rank, and an
     * odd roster's last player has the bye.
     */
    method FirstRound() returns (prs: seq<Pairing>)
      requires Valid()
      modifies this
      ensures Valid()
      ensures players == SortDescending(old(players), RatingRank)
      ensures multiset(players) == multiset(old(players))
      ensures currentRound == 1 && pairings == prs
      ensures Seeded(players, prs)
      ensures multiset(PairingIds(prs)) == multiset(Ids(players))
      ensures ByeCount(prs) == |players| % 2
    {
      var sorted := SortByRating(players);
      SortedRosterOk(players);
      prs := SeedPairings(sorted);
      PairedOnce(sorted, prs);
      players := sorted;
      currentRound := 1;
      pairings := prs;
    }

    /**
     * A later round: the round number goes up by one and the pairings are
     * replaced by the score-group pairing of the unchanged roster, in which
     * every player is paired once and a bye exists exactly when the roster
     * is odd.
     */
    method NextRound() returns (prs: seq<Pairing>)
      requires Valid()
      modifies this
      ensures Valid()
      ensures currentRound == old(currentRound) + 1
      ensures players == old(players)
      ensures prs == RoundPairings(players, currentRound) && pairings == prs
      ensures multiset(PairingIds(prs)) == multiset(Ids(players))
      ensures ByeCount(prs) == |players| % 2
    {
      var round := currentRound + 1;
      prs := PairRound(players, round);
      RoundPaired(players, round);
      currentRound := round;
      pairings := prs;
    }

    /**
     * Reports `result` for the pairing `pr`: the records of its players are
     * updated as `Recorded` says, nothing else changes, and with both
     * players on the roster the roster's total score grows by one point for
     * a bye or a recognised result.
     */
    method RecordResult(pr: Pairing, result: string)
      requires Valid()
      requires pr.black.Some? ==> pr.white != pr.black.value
      modifies this
      ensures Valid()
      ensures players == RecordAll(old(players), pr, result)
      ensures currentRound == old(currentRound) && pairings == old(pairings)
      ensures pr.white in Ids(old(players)) && (pr.black.Some? ==> pr.black.value in Ids(old(players))) ==>
                TotalScore(players) == TotalScore(old(players)) + (if pr.black.None? || result in {WhiteWins, BlackWins, Draw} then 2 else 0)
    {
      RecordedRosterOk(players, pr, result);
      players := RecordAll(players, pr, result);
    }

    /**
     * Reporting the result of the `i`-th current pairing as the web front end
     * does it: the result is written into the pairing, where Sonneborn-Berger
     * reads it, and then recorded.
     */
    method SubmitResult(i: nat, result: string)
      requires Valid() && i < |pairings|
      modifies this
      ensures Valid()
      ensures pairings == old(pairings)[i := old(pairings)[i].(result := Some(result))]
      ensures players == RecordAll(old(players), old(pairings)[i], result)
      ensures currentRound == old(currentRound)
    {
      pairings := pairings[i := pairings[i].(result := Some(result))];
      RecordResult(pairings[i], result);
    }

    /**
     * The standings of the current state: every player of the roster with its
     * tie-breaks, ordered by score, then Buchholz, then Sonneborn-Berger,
     * highest first. Being a function, it changes nothing.
     */
    function GetFinalStandings(): (r: seq<Standing>)
      reads this
      ensures multiset(r) == multiset(Annotate(players, pairings))
      ensures forall i, j :: 0 <= i < j < |r| ==> AtLeast(StandingRank(r[i]), StandingRank(r[j]))
    {
      FinalStandingsOrder(players, pairings);
      FinalStandings(players, pairings)
    }
  }
}
