/**
 * What the pairing of a later round guarantees: every player of the roster
 * is paired exactly once, there is a bye exactly when the roster is odd,
 * score groups are taken highest score first, and every game formed inside
 * a score group joins two players of that score who may be paired, the
 * first of them getting the colour it prefers. Floats are paired with no
 * test at all, so two players who have met can meet again.
 */
module RoundProperties {
  import opened Players
  import opened Sorting
  import opened Colors
  import opened Rounds

  /* ---------------------------------------------------------------- */
  /* Bags of ids                                                       */
  /* ---------------------------------------------------------------- */

  lemma IdBagConcat(a: seq<Player>, b: seq<Player>)
    ensures multiset(Ids(a + b)) == multiset(Ids(a)) + multiset(Ids(b))
  {
    IdsConcat(a, b);
  }

  lemma PairingBagConcat(a: seq<Pairing>, b: seq<Pairing>)
    ensures multiset(PairingIds(a + b)) == multiset(PairingIds(a)) + multiset(PairingIds(b))
  {
    PairingIdsConcat(a, b);
  }

  /** Taking the first player and the one at `i` out of a group. */
  lemma IdBagRemoveTwo(g: seq<Player>, i: nat)
    requires 1 <= i < |g|
    ensures multiset(Ids(g)) == multiset{g[0].id, g[i].id} + multiset(Ids(g[1..i] + g[i + 1..]))
  {
    var s := Ids(g);
    assert Ids(g[1..i] + g[i + 1..]) == s[1..i] + s[i + 1..];
    assert s == [s[0]] + s[1..i] + [s[i]] + s[i + 1..];
  }

  lemma IdBagCons(g: seq<Player>)
    requires g != []
    ensures multiset(Ids(g)) == multiset{g[0].id} + multiset(Ids(g[1..]))
  {
    assert g == [g[0]] + g[1..];
    IdBagConcat([g[0]], g[1..]);
  }

  lemma IdBagConsTwo(g: seq<Player>)
    requires |g| >= 2
    ensures multiset(Ids(g)) == multiset{g[0].id, g[1].id} + multiset(Ids(g[2..]))
  {
    assert g == [g[0], g[1]] + g[2..];
    IdBagConcat([g[0], g[1]], g[2..]);
    assert Ids([g[0], g[1]]) == [g[0].id, g[1].id];
  }

  /* ---------------------------------------------------------------- */
  /* One score group                                                   */
  /* ---------------------------------------------------------------- */

  /** The ids a group outcome holds: those in its games and those of its floats. */
  ghost function OutcomeBag(o: GroupOutcome): multiset<PlayerId>
  {
    multiset(PairingIds(o.pairs)) + multiset(Ids(o.floats))
  }

  /** A game of `g[0]` and `g[i]` in front of an outcome holding the rest of the group holds the group. */
  lemma GameBag(g: seq<Player>, i: nat, pr: Pairing, o: GroupOutcome)
    requires 1 <= i < |g|
    requires multiset(PairingIds([pr])) == multiset{g[0].id, g[i].id} && ByeCount([pr]) == 0
    requires OutcomeBag(o) == multiset(Ids(g[1..i] + g[i + 1..])) && ByeCount(o.pairs) == 0
    ensures OutcomeBag(GroupOutcome([pr] + o.pairs, o.floats)) == multiset(Ids(g))
    ensures ByeCount([pr] + o.pairs) == 0
  {
    IdBagRemoveTwo(g, i);
    PairingBagConcat([pr], o.pairs);
    ByeCountConcat([pr], o.pairs);
  }

  /** The float `g[0]` in front of an outcome holding the rest of the group holds the group. */
  lemma FloatBag(g: seq<Player>, o: GroupOutcome)
    requires g != [] && OutcomeBag(o) == multiset(Ids(g[1..]))
    ensures OutcomeBag(GroupOutcome(o.pairs, [g[0]] + o.floats)) == multiset(Ids(g))
  {
    IdBagCons(g);
    IdBagConcat([g[0]], o.floats);
  }

  lemma PairedBag(g: seq<Player>, i: nat, round: nat)
    requires 1 <= i < |g| && FirstPartner(g, 1) == Some(i)
    requires OutcomeBag(PairGroup(g[1..i] + g[i + 1..], round)) == multiset(Ids(g[1..i] + g[i + 1..]))
    requires ByeCount(PairGroup(g[1..i] + g[i + 1..], round).pairs) == 0
    ensures OutcomeBag(PairGroup(g, round)) == multiset(Ids(g))
    ensures ByeCount(PairGroup(g, round).pairs) == 0
  {
    var pr := PairWith(g[0], g[i], round);
    var o := PairGroup(g[1..i] + g[i + 1..], round);
    assert PairGroup(g, round) == GroupOutcome([pr] + o.pairs, o.floats);
    PairWithBag(g[0], g[i], round);
    GameBag(g, i, pr, o);
  }

  lemma FloatedBag(g: seq<Player>, round: nat)
    requires 1 < |g| && FirstPartner(g, 1) == None
    requires OutcomeBag(PairGroup(g[1..], round)) == multiset(Ids(g[1..]))
    requires ByeCount(PairGroup(g[1..], round).pairs) == 0
    ensures OutcomeBag(PairGroup(g, round)) == multiset(Ids(g))
    ensures ByeCount(PairGroup(g, round).pairs) == 0
  {
    var o := PairGroup(g[1..], round);
    assert PairGroup(g, round) == GroupOutcome(o.pairs, [g[0]] + o.floats);
    FloatBag(g, o);
  }

  /** A group's games and floats hold each of its players once, and a group gives no bye. */
  lemma {:induction false} PairGroupIds(g: seq<Player>, round: nat)
    ensures OutcomeBag(PairGroup(g, round)) == multiset(Ids(g))
    ensures ByeCount(PairGroup(g, round).pairs) == 0
    decreases |g|
  {
    if |g| > 1 {
      match FirstPartner(g, 1)
      case None =>
        PairGroupIds(g[1..], round);
        FloatedBag(g, round);
      case Some(i) =>
        PairGroupIds(g[1..i] + g[i + 1..], round);
        PairedBag(g, i, round);
    }
  }

  lemma PairWithBag(p1: Player, p2: Player, round: nat)
    ensures multiset(PairingIds([PairWith(p1, p2, round)])) == multiset{p1.id, p2.id}
    ensures ByeCount([PairWith(p1, p2, round)]) == 0
  {
  }

  /** A game two players of a roster play inside their score group. */
  ghost predicate GroupGame(pr: Pairing, ps: seq<Player>, round: nat)
  {
    exists a, b :: a in ps && b in ps && a.score == b.score && CanBePaired(a, b) && pr == PairWith(a, b, round)
  }

  /** Every game of `pairs` joins two players of `g`, the first of whom may be paired with the second. */
  ghost predicate GamesOf(pairs: seq<Pairing>, g: seq<Player>, round: nat)
  {
    forall pr :: pr in pairs ==> exists a, b :: a in g && b in g && CanBePaired(a, b) && pr == PairWith(a, b, round)
  }

  lemma GamesWiden(pairs: seq<Pairing>, g: seq<Player>, h: seq<Player>, round: nat)
    requires GamesOf(pairs, g, round) && forall x :: x in g ==> x in h
    ensures GamesOf(pairs, h, round)
  {
    forall pr | pr in pairs
      ensures exists a, b :: a in h && b in h && CanBePaired(a, b) && pr == PairWith(a, b, round)
    {
      var a, b :| a in g && b in g && CanBePaired(a, b) && pr == PairWith(a, b, round);
    }
  }

  lemma GamesCons(a: Player, b: Player, pairs: seq<Pairing>, g: seq<Player>, round: nat)
    requires GamesOf(pairs, g, round) && a in g && b in g && CanBePaired(a, b)
    ensures GamesOf([PairWith(a, b, round)] + pairs, g, round)
  {
  }

  /** The players left once `g[0]` and `g[i]` are taken out are players of `g`. */
  lemma RestIn(g: seq<Player>, i: nat)
    requires 1 <= i < |g|
    ensures forall x :: x in g[1..i] + g[i + 1..] ==> x in g
  {
    forall x | x in g[1..i] + g[i + 1..] ensures x in g {
      assert x in g[1..i] || x in g[i + 1..];
    }
  }

  /** Every game a group forms joins two of its players, the first of whom may be paired with the second. */
  lemma {:induction false} PairGroupGames(g: seq<Player>, round: nat)
    ensures GamesOf(PairGroup(g, round).pairs, g, round)
    decreases |g|
  {
    if |g| > 1 {
      match FirstPartner(g, 1)
      case None =>
        PairGroupGames(g[1..], round);
        assert PairGroup(g, round).pairs == PairGroup(g[1..], round).pairs;
        GamesWiden(PairGroup(g[1..], round).pairs, g[1..], g, round);
      case Some(i) =>
        var rest := g[1..i] + g[i + 1..];
        PairGroupGames(rest, round);
        assert PairGroup(g, round).pairs == [PairWith(g[0], g[i], round)] + PairGroup(rest, round).pairs;
        RestIn(g, i);
        GamesWiden(PairGroup(rest, round).pairs, rest, g, round);
        GamesCons(g[0], g[i], PairGroup(rest, round).pairs, g, round);
    }
  }

  /* ---------------------------------------------------------------- */
  /* All groups                                                        */
  /* ---------------------------------------------------------------- */

  /** The players whose score is one of `scores`, in roster order. */
  function Members(ps: seq<Player>, scores: seq<nat>): seq<Player>
  {
    if ps == [] then []
    else Members(ps[..|ps| - 1], scores) + (if ps[|ps| - 1].score in scores then [ps[|ps| - 1]] else [])
  }

  /** Adding a score not yet among `scores` adds exactly its group. */
  lemma {:induction false} MembersSnoc(ps: seq<Player>, scores: seq<nat>, s: nat)
    requires s !in scores
    ensures multiset(Ids(Members(ps, scores + [s]))) == multiset(Ids(Members(ps, scores))) + multiset(Ids(ScoreGroup(ps, s)))
  {
    if ps != [] {
      var init, last := ps[..|ps| - 1], ps[|ps| - 1];
      MembersSnoc(init, scores, s);
      var extra := if last.score in scores + [s] then [last] else [];
      IdBagConcat(Members(init, scores + [s]), extra);
      IdBagConcat(Members(init, scores), if last.score in scores then [last] else []);
      IdBagConcat(ScoreGroup(init, s), if last.score == s then [last] else []);
    }
  }

  /** When every score of the roster is listed, every player is a member. */
  lemma {:induction false} MembersAll(ps: seq<Player>, scores: seq<nat>)
    requires forall p :: p in ps ==> p.score in scores
    ensures Members(ps, scores) == ps
  {
    if ps != [] {
      LastSplit(ps);
      MembersAll(ps[..|ps| - 1], scores);
      assert ps[..|ps| - 1] + [ps[|ps| - 1]] == ps;
    }
  }

  ghost predicate NoRepeats(s: seq<nat>)
  {
    forall x :: multiset(s)[x] <= 1
  }

  lemma NoRepeatsSnoc(s: seq<nat>)
    requires s != [] && NoRepeats(s)
    ensures NoRepeats(s[..|s| - 1]) && s[|s| - 1] !in s[..|s| - 1]
  {
    var init := s[..|s| - 1];
    assert s == init + [s[|s| - 1]];
    assert multiset(s) == multiset(init) + multiset{s[|s| - 1]};
    forall x ensures multiset(init)[x] <= 1 {
      assert multiset(init)[x] <= multiset(s)[x];
    }
    var last := s[|s| - 1];
    assert multiset(s)[last] <= 1;
    assert multiset(s)[last] == multiset(init)[last] + 1;
    assert s[|s| - 1] !in multiset(init);
  }

  lemma GroupPhaseBag(ps: seq<Player>, scores: seq<nat>, round: nat)
    requires scores != []
    ensures OutcomeBag(GroupPhase(ps, scores, round))
            == OutcomeBag(GroupPhase(ps, scores[..|scores| - 1], round)) + OutcomeBag(PairGroup(ScoreGroup(ps, scores[|scores| - 1]), round))
    ensures ByeCount(GroupPhase(ps, scores, round).pairs)
            == ByeCount(GroupPhase(ps, scores[..|scores| - 1], round).pairs) + ByeCount(PairGroup(ScoreGroup(ps, scores[|scores| - 1]), round).pairs)
  {
    var before := GroupPhase(ps, scores[..|scores| - 1], round);
    var o := PairGroup(ScoreGroup(ps, scores[|scores| - 1]), round);
    PairingBagConcat(before.pairs, o.pairs);
    IdBagConcat(before.floats, o.floats);
    ByeCountConcat(before.pairs, o.pairs);
  }

  /** Pairing the groups of distinct scores pairs or floats each of their members once. */
  lemma {:induction false} GroupPhaseIds(ps: seq<Player>, scores: seq<nat>, round: nat)
    requires NoRepeats(scores)
    ensures OutcomeBag(GroupPhase(ps, scores, round)) == multiset(Ids(Members(ps, scores)))
    ensures ByeCount(GroupPhase(ps, scores, round).pairs) == 0
  {
    if scores == [] {
      MembersEmpty(ps);
    } else {
      var init, s := scores[..|scores| - 1], scores[|scores| - 1];
      NoRepeatsSnoc(scores);
      GroupPhaseIds(ps, init, round);
      PairGroupIds(ScoreGroup(ps, s), round);
      GroupPhaseBag(ps, scores, round);
      MembersSnoc(ps, init, s);
      assert init + [s] == scores;
    }
  }

  lemma {:induction false} MembersEmpty(ps: seq<Player>)
    ensures Members(ps, []) == []
  {
    if ps != [] {
      MembersEmpty(ps[..|ps| - 1]);
    }
  }

  lemma {:induction false} DistinctScoresNoRepeats(ps: seq<Player>)
    ensures NoRepeats(DistinctScores(ps))
  {
    if ps != [] {
      var init := ps[..|ps| - 1];
      var d := DistinctScores(init);
      DistinctScoresNoRepeats(init);
      if ps[|ps| - 1].score !in d {
        assert multiset(d + [ps[|ps| - 1].score]) == multiset(d) + multiset{ps[|ps| - 1].score};
      }
    }
  }

  /** The sorted scores are the roster's scores, each once. */
  lemma SortedScoresCover(ps: seq<Player>)
    ensures forall s :: s in SortedScores(ps) <==> exists p :: p in ps && p.score == s
    ensures forall p :: p in ps ==> p.score in SortedScores(ps)
    ensures NoRepeats(SortedScores(ps))
  {
    var d := DistinctScores(ps);
    var ss := SortedScores(ps);
    SortPermutation(d, ScoreRank);
    DistinctScoresNoRepeats(ps);
    DistinctScoresMembers(ps);
    forall s ensures s in ss <==> s in d {
      assert s in ss <==> s in multiset(ss);
    }
  }

  /** The score groups are paired from the highest score down, each score of the roster once. */
  lemma SortedScoresOrder(ps: seq<Player>)
    ensures forall i, j :: 0 <= i < j < |SortedScores(ps)| ==> SortedScores(ps)[i] > SortedScores(ps)[j]
    ensures forall s :: s in SortedScores(ps) <==> exists p :: p in ps && p.score == s
  {
    var ss := SortedScores(ps);
    SortedOutput(DistinctScores(ps), ScoreRank);
    SortedScoresCover(ps);
    forall i, j | 0 <= i < j < |ss| ensures ss[i] > ss[j] {
      assert AtLeast(ScoreRank(ss[i]), ScoreRank(ss[j]));
      NoRepeatsAt(ss, i, j);
    }
  }

  lemma NoRepeatsAt(s: seq<nat>, i: nat, j: nat)
    requires NoRepeats(s) && i < j < |s|
    ensures s[i] != s[j]
  {
    CountTwo(s, i, j);
  }

  lemma CountTwo(s: seq<nat>, i: nat, j: nat)
    requires i < j < |s|
    ensures s[i] == s[j] ==> multiset(s)[s[i]] >= 2
  {
    assert s == s[..j] + s[j..];
    assert s[..j][i] == s[i];
    assert s[j..][0] == s[j];
    assert multiset(s) == multiset(s[..j]) + multiset(s[j..]);
  }

  /* ---------------------------------------------------------------- */
  /* Floats                                                            */
  /* ---------------------------------------------------------------- */

  /** The float games hold each float once. */
  lemma {:induction false} FloatPairingsIds(u: seq<Player>, round: nat)
    ensures multiset(PairingIds(FloatPairings(u, round))) == multiset(Ids(u))
    decreases |u|
  {
    if |u| >= 2 {
      FloatPairingsIds(u[2..], round);
      FloatPairingsCons(u, round);
      IdBagConsTwo(u);
    } else if |u| == 1 {
      assert Ids(u) == [u[0].id];
    }
  }

  lemma FloatPairingsCons(u: seq<Player>, round: nat)
    requires |u| >= 2
    ensures multiset(PairingIds(FloatPairings(u, round)))
            == multiset{u[0].id, u[1].id} + multiset(PairingIds(FloatPairings(u[2..], round)))
    ensures ByeCount(FloatPairings(u, round)) == ByeCount(FloatPairings(u[2..], round))
  {
    var pr := PairWith(u[0], u[1], round);
    PairWithBag(u[0], u[1], round);
    PairingBagConcat([pr], FloatPairings(u[2..], round));
    ByeCountConcat([pr], FloatPairings(u[2..], round));
  }

  /** The float games hold a bye exactly when the floats are odd in number. */
  lemma {:induction false} FloatPairingsByes(u: seq<Player>, round: nat)
    ensures ByeCount(FloatPairings(u, round)) == |u| % 2
    decreases |u|
  {
    if |u| >= 2 {
      FloatPairingsByes(u[2..], round);
      FloatPairingsCons(u, round);
      Parity(1, |u[2..]|);
    }
  }

  /** A roster with scores 2 and 0, in that order, has the score groups 2 then 0, of one player each. */
  lemma TwoScoreGroups(a: Player, b: Player)
    requires a.score == 2 && b.score == 0
    ensures SortedScores([a, b]) == [2, 0]
    ensures ScoreGroup([a, b], 2) == [a] && ScoreGroup([a, b], 0) == [b]
  {
    var ps := [a, b];
    assert ps[..1] == [a];
    assert [a][..0] == [];
    assert DistinctScores([a]) == [2];
    assert DistinctScores(ps) == [2, 0];
    var low: seq<nat> := [0];
    assert low[1..] == [];
    assert SortDescending(low, ScoreRank) == [0];
    var both: seq<nat> := [2, 0];
    assert both[1..] == low;
    assert ScoreGroup([a], 2) == [a];
    assert ScoreGroup([a], 0) == [];
  }

  /** Two single-player groups with no previous meeting recorded as possible: both players float. */
  lemma TwoGroupsFloat(a: Player, b: Player, round: nat)
    requires a.score == 2 && b.score == 0
    ensures GroupPhase([a, b], [2, 0], round) == GroupOutcome([], [a, b])
  {
    TwoScoreGroups(a, b);
    var both: seq<nat> := [2, 0];
    assert both[..1] == [2];
    assert [2][..0] == [];
    assert GroupPhase([a, b], [2], round) == GroupOutcome([], [a]);
  }

  /** Floats are paired whatever their records: two players who have met meet again. */
  lemma FloatsMayMeetAgain()
    ensures var a := Player(1, "A", "", 2000, 2, [2], [White], 0, 0);
            var b := Player(2, "B", "", 1900, 0, [1], [Black], 0, 0);
            RoundPairings([a, b], 2) == [Pairing(2, Some(1), 2, None)] && a.id in b.opponents
  {
    var a := Player(1, "A", "", 2000, 2, [2], [White], 0, 0);
    var b := Player(2, "B", "", 1900, 0, [1], [Black], 0, 0);
    TwoScoreGroups(a, b);
    TwoGroupsFloat(a, b, 2);
    assert [a, b][2..] == [];
    assert PreferredColor(a.colorHistory) == Black;
  }

  /* ---------------------------------------------------------------- */
  /* The round                                                         */
  /* ---------------------------------------------------------------- */

  /** The group phase takes every player of the roster once and gives no bye. */
  lemma AllGroupsIds(ps: seq<Player>, round: nat)
    ensures OutcomeBag(GroupPhase(ps, SortedScores(ps), round)) == multiset(Ids(ps))
    ensures ByeCount(GroupPhase(ps, SortedScores(ps), round).pairs) == 0
  {
    SortedScoresCover(ps);
    GroupPhaseIds(ps, SortedScores(ps), round);
    MembersAll(ps, SortedScores(ps));
  }

  /** Games without a bye plus floats that hold a roster: two players a game, one a float. */
  lemma FloatCount(o: GroupOutcome, ps: seq<Player>)
    requires OutcomeBag(o) == multiset(Ids(ps)) && ByeCount(o.pairs) == 0
    ensures 2 * |o.pairs| + |o.floats| == |ps|
  {
    PairingIdsLength(o.pairs);
    assert |OutcomeBag(o)| == |PairingIds(o.pairs)| + |Ids(o.floats)|;
    assert |multiset(Ids(ps))| == |ps|;
  }

  lemma Parity(k: nat, f: nat)
    ensures (2 * k + f) % 2 == f % 2
  {
  }

  /**
   * Every player of the roster is paired exactly once in a later round (as
   * often as it is on the roster).
   */
  lemma RoundPairingsIds(ps: seq<Player>, round: nat)
    ensures multiset(PairingIds(RoundPairings(ps, round))) == multiset(Ids(ps))
  {
    var o := GroupPhase(ps, SortedScores(ps), round);
    AllGroupsIds(ps, round);
    FloatPairingsIds(o.floats, round);
    PairingBagConcat(o.pairs, FloatPairings(o.floats, round));
  }

  /** Group games without a bye and floats that together hold a roster leave a bye exactly for an odd roster. */
  lemma OutcomeByes(o: GroupOutcome, ps: seq<Player>, round: nat)
    requires OutcomeBag(o) == multiset(Ids(ps)) && ByeCount(o.pairs) == 0
    ensures ByeCount(o.pairs + FloatPairings(o.floats, round)) == |ps| % 2
  {
    FloatCount(o, ps);
    Parity(|o.pairs|, |o.floats|);
    FloatPairingsByes(o.floats, round);
    ByeCountConcat(o.pairs, FloatPairings(o.floats, round));
  }

  /** A later round has a bye exactly when the roster is odd, so never more than one. */
  lemma RoundPairingsByes(ps: seq<Player>, round: nat)
    ensures ByeCount(RoundPairings(ps, round)) == |ps| % 2
    ensures ByeCount(RoundPairings(ps, round)) <= 1
  {
    var o := GroupPhase(ps, SortedScores(ps), round);
    AllGroupsIds(ps, round);
    OutcomeByes(o, ps, round);
  }

  /** The games formed inside the score groups come first, each a group game. */
  lemma {:induction false} GroupPhaseGames(ps: seq<Player>, scores: seq<nat>, round: nat)
    ensures forall pr :: pr in GroupPhase(ps, scores, round).pairs ==> GroupGame(pr, ps, round)
  {
    if scores != [] {
      var s := scores[|scores| - 1];
      GroupPhaseGames(ps, scores[..|scores| - 1], round);
      PairGroupGames(ScoreGroup(ps, s), round);
      ScoreGroupMembers(ps, s);
      forall pr | pr in PairGroup(ScoreGroup(ps, s), round).pairs ensures GroupGame(pr, ps, round) {
        assert GamesOf(PairGroup(ScoreGroup(ps, s), round).pairs, ScoreGroup(ps, s), round);
        var a, b :| a in ScoreGroup(ps, s) && b in ScoreGroup(ps, s) && CanBePaired(a, b) && pr == PairWith(a, b, round);
      }
    }
  }

  /**
   * In a later round, the round's pairings are the group games followed by the
   * float games; a group game joins two players of equal score such that the
   * second is not among the first one's opponents, and the first one plays
   * the colour it prefers.
   */
  lemma RoundGroupGames(ps: seq<Player>, round: nat)
    ensures var o := GroupPhase(ps, SortedScores(ps), round);
      RoundPairings(ps, round) == o.pairs + FloatPairings(o.floats, round) &&
      forall pr :: pr in o.pairs ==> exists a, b ::
        a in ps && b in ps && a.score == b.score && b.id !in a.opponents &&
        CanBePaired(a, b) && pr == PairWith(a, b, round)
  {
    GroupPhaseGames(ps, SortedScores(ps), round);
  }
}
