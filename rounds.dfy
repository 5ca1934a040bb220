/**
 * Pairing a round after the first. The roster is bucketed by score; the
 * buckets are taken highest score first; inside a bucket the first player
 * is paired greedily with the first later player it can be paired with,
 * or floats when there is none; floats are then paired two by two with no
 * further test, and a single leftover float has the bye.
 *
 * The functions below say what the pairing is; the methods compute it with
 * the loops of the engine and are proved to agree with them.
 */
module Rounds {
  import opened Players
  import opened Sorting
  import opened Colors

  /** A game between `p1` and `p2` in which `p1` gets the colour it prefers. */
  function PairWith(p1: Player, p2: Player, round: nat): Pairing
  {
    if PreferredColor(p1.colorHistory) == White then Pairing(p1.id, Some(p2.id), round, None)
    else Pairing(p2.id, Some(p1.id), round, None)
  }

  /** The first of the two players gets its preferred colour, the second the other one. */
  lemma PairWithColors(p1: Player, p2: Player, round: nat)
    requires p1.id != p2.id
    ensures ColorOf(PairWith(p1, p2, round), p1.id) == Some(PreferredColor(p1.colorHistory))
    ensures ColorOf(PairWith(p1, p2, round), p2.id) == Some(Opposite(PreferredColor(p1.colorHistory)))
    ensures PairingIds([PairWith(p1, p2, round)]) == [PairWith(p1, p2, round).white, PairWith(p1, p2, round).black.value]
    ensures multiset(PairingIds([PairWith(p1, p2, round)])) == multiset{p1.id, p2.id}
  {
  }

  /* ---------------------------------------------------------------- */
  /* Score groups                                                      */
  /* ---------------------------------------------------------------- */

  /** The players with score `s`, in roster order. */
  function ScoreGroup(ps: seq<Player>, s: nat): seq<Player>
  {
    if ps == [] then []
    else ScoreGroup(ps[..|ps| - 1], s) + (if ps[|ps| - 1].score == s then [ps[|ps| - 1]] else [])
  }

  lemma LastSplit(ps: seq<Player>)
    requires ps != []
    ensures forall p :: p in ps <==> p in ps[..|ps| - 1] || p == ps[|ps| - 1]
  {
    assert ps == ps[..|ps| - 1] + [ps[|ps| - 1]];
  }

  /** A score group holds exactly the roster's players with that score. */
  lemma {:induction false} ScoreGroupMembers(ps: seq<Player>, s: nat)
    ensures forall p :: p in ScoreGroup(ps, s) <==> p in ps && p.score == s
  {
    if ps != [] {
      ScoreGroupMembers(ps[..|ps| - 1], s);
      LastSplit(ps);
    }
  }

  /** The scores present in the roster, each once, in order of first appearance. */
  function DistinctScores(ps: seq<Player>): seq<nat>
  {
    if ps == [] then []
    else
      var d := DistinctScores(ps[..|ps| - 1]);
      if ps[|ps| - 1].score in d then d else d + [ps[|ps| - 1].score]
  }

  /** The distinct scores are exactly the scores of the roster's players. */
  lemma {:induction false} DistinctScoresMembers(ps: seq<Player>)
    ensures forall s :: s in DistinctScores(ps) <==> exists p :: p in ps && p.score == s
  {
    if ps != [] {
      DistinctScoresMembers(ps[..|ps| - 1]);
      LastSplit(ps);
    }
  }

  function ScoreRank(s: nat): Rank
  {
    Rank(s, 0, 0)
  }

  /** The order in which score groups are paired: the distinct scores, highest first. */
  function SortedScores(ps: seq<Player>): seq<nat>
  {
    SortDescending(DistinctScores(ps), ScoreRank)
  }

  /* ---------------------------------------------------------------- */
  /* Pairing inside one score group                                    */
  /* ---------------------------------------------------------------- */

  /** What pairing a group leaves: its games and, in order, the players that float down. */
  datatype GroupOutcome = GroupOutcome(pairs: seq<Pairing>, floats: seq<Player>)

  /** The first index from `i` on whose player `g[0]` can be paired with. */
  function FirstPartner(g: seq<Player>, i: nat): (r: Option<nat>)
    requires 1 <= i <= |g|
    ensures r.Some? ==> i <= r.value < |g| && CanBePaired(g[0], g[r.value])
    ensures r.Some? ==> forall k :: i <= k < r.value ==> !CanBePaired(g[0], g[k])
    ensures r.None? ==> forall k :: i <= k < |g| ==> !CanBePaired(g[0], g[k])
    decreases |g| - i
  {
    if i == |g| then None
    else if CanBePaired(g[0], g[i]) then Some(i)
    else FirstPartner(g, i + 1)
  }

  /**
   * The greedy pairing of a score group: while two or more players are left,
   * the first one is paired with its first possible partner, or floats when
   * there is none; a last single player floats.
   */
  function PairGroup(g: seq<Player>, round: nat): GroupOutcome
    decreases |g|
  {
    if |g| <= 1 then GroupOutcome([], g)
    else match FirstPartner(g, 1)
      case None =>
        var o := PairGroup(g[1..], round);
        GroupOutcome(o.pairs, [g[0]] + o.floats)
      case Some(i) =>
        var o := PairGroup(g[1..i] + g[i + 1..], round);
        GroupOutcome([PairWith(g[0], g[i], round)] + o.pairs, o.floats)
  }

  /** The groups of `scores`, in that order: their games, then their floats, concatenated. */
  function GroupPhase(ps: seq<Player>, scores: seq<nat>, round: nat): GroupOutcome
  {
    if scores == [] then GroupOutcome([], [])
    else
      var o := PairGroup(ScoreGroup(ps, scores[|scores| - 1]), round);
      var before := GroupPhase(ps, scores[..|scores| - 1], round);
      GroupOutcome(before.pairs + o.pairs, before.floats + o.floats)
  }

  /** Floats paired two by two in the order they floated, with no test; one left over has the bye. */
  function FloatPairings(u: seq<Player>, round: nat): seq<Pairing>
  {
    if |u| >= 2 then [PairWith(u[0], u[1], round)] + FloatPairings(u[2..], round)
    else if |u| == 1 then [Pairing(u[0].id, None, round, None)]
    else []
  }

  /** The pairings of a later round: the group games, then the float games and the bye. */
  function RoundPairings(ps: seq<Player>, round: nat): seq<Pairing>
  {
    var o := GroupPhase(ps, SortedScores(ps), round);
    o.pairs + FloatPairings(o.floats, round)
  }

  /* ---------------------------------------------------------------- */
  /* The loops                                                         */
  /* ---------------------------------------------------------------- */

  lemma ScoreGroupSnoc(ps: seq<Player>, i: nat, s: nat)
    requires i < |ps|
    ensures ScoreGroup(ps[..i + 1], s) == ScoreGroup(ps[..i], s) + (if ps[i].score == s then [ps[i]] else [])
    ensures DistinctScores(ps[..i + 1]) == DistinctScores(ps[..i]) + (if ps[i].score in DistinctScores(ps[..i]) then [] else [ps[i].score])
  {
    assert ps[..i + 1][..i] == ps[..i];
  }

  lemma ScoreGroupEmpty(ps: seq<Player>, s: nat)
    requires s !in DistinctScores(ps)
    ensures ScoreGroup(ps, s) == []
  {
    DistinctScoresMembers(ps);
    ScoreGroupMembers(ps, s);
    if ScoreGroup(ps, s) != [] {
      assert ScoreGroup(ps, s)[0] in ScoreGroup(ps, s);
    }
  }

  /** `groups` maps each score of `ps` to its group, and `keys` lists those scores in order of appearance. */
  ghost predicate Buckets(ps: seq<Player>, groups: map<nat, seq<Player>>, keys: seq<nat>)
  {
    && keys == DistinctScores(ps)
    && (forall s :: s in groups <==> s in keys)
    && (forall s :: s in groups ==> groups[s] == ScoreGroup(ps, s))
  }

  /** One step of the bucketing loop: the player at `i` joins the bucket of its score, opened if new. */
  lemma BucketStep(players: seq<Player>, i: nat, groups: map<nat, seq<Player>>, keys: seq<nat>,
                   grown: map<nat, seq<Player>>, grownKeys: seq<nat>)
    requires i < |players| && Buckets(players[..i], groups, keys)
    requires grownKeys == if players[i].score in groups then keys else keys + [players[i].score]
    requires grown == groups[players[i].score := (if players[i].score in groups then groups[players[i].score] else []) + [players[i]]]
    ensures Buckets(players[..i + 1], grown, grownKeys)
  {
    var score := players[i].score;
    ScoreGroupSnoc(players, i, score);
    forall s | s in grown ensures grown[s] == ScoreGroup(players[..i + 1], s) {
      ScoreGroupSnoc(players, i, s);
      if s == score && score !in groups {
        ScoreGroupEmpty(players[..i], score);
      }
    }
  }

  /** Buckets the roster by score, as a map from score to group plus the scores in order of appearance. */
  method BucketByScore(players: seq<Player>) returns (groups: map<nat, seq<Player>>, keys: seq<nat>)
    ensures keys == DistinctScores(players)
    ensures forall s :: s in groups <==> s in keys
    ensures forall s :: s in groups ==> groups[s] == ScoreGroup(players, s)
  {
    groups := map[];
    keys := [];
    for i := 0 to |players|
      invariant Buckets(players[..i], groups, keys)
    {
      var score := players[i].score;
      var bucket := if score in groups then groups[score] else [];
      var grownKeys := if score in groups then keys else keys + [score];
      BucketStep(players, i, groups, keys, groups[score := bucket + [players[i]]], grownKeys);
      groups := groups[score := bucket + [players[i]]];
      keys := grownKeys;
    }
    assert players[..|players|] == players;
  }

  /** What is left of a group after some games and floats: they and its pairing make the group's pairing. */
  ghost predicate GroupProgress(group: seq<Player>, round: nat, pairs: seq<Pairing>, floats: seq<Player>, left: seq<Player>)
  {
    pairs + PairGroup(left, round).pairs == PairGroup(group, round).pairs &&
    floats + PairGroup(left, round).floats == PairGroup(group, round).floats
  }

  /** One step of the group loop when `left[0]` finds its partner at `i`. */
  lemma PairedStep(group: seq<Player>, round: nat, pairs: seq<Pairing>, floats: seq<Player>, left: seq<Player>, i: nat)
    requires GroupProgress(group, round, pairs, floats, left)
    requires 1 <= i < |left| && FirstPartner(left, 1) == Some(i)
    ensures GroupProgress(group, round, pairs + [PairWith(left[0], left[i], round)], floats, left[1..i] + left[i + 1..])
  {
    var pr := PairWith(left[0], left[i], round);
    var o := PairGroup(left[1..i] + left[i + 1..], round);
    assert PairGroup(left, round).pairs == [pr] + o.pairs;
    assert pairs + [pr] + o.pairs == pairs + ([pr] + o.pairs);
  }

  /** One step of the group loop when `left[0]` finds no partner. */
  lemma FloatedStep(group: seq<Player>, round: nat, pairs: seq<Pairing>, floats: seq<Player>, left: seq<Player>)
    requires GroupProgress(group, round, pairs, floats, left)
    requires 1 < |left| && FirstPartner(left, 1) == None
    ensures GroupProgress(group, round, pairs, floats + [left[0]], left[1..])
  {
    var o := PairGroup(left[1..], round);
    assert PairGroup(left, round).floats == [left[0]] + o.floats;
    assert floats + [left[0]] + o.floats == floats + ([left[0]] + o.floats);
  }

  /** The engine's partner search: the first later player `players[0]` can be paired with. */
  method FindPartner(players: seq<Player>) returns (r: Option<nat>)
    requires |players| > 1
    ensures r == FirstPartner(players, 1)
  {
    var i := 1;
    while i < |players|
      invariant 1 <= i <= |players|
      invariant forall k :: 1 <= k < i ==> !CanBePaired(players[0], players[k])
    {
      if CanBePaired(players[0], players[i]) {
        return Some(i);
      }
      i := i + 1;
    }
    return None;
  }

  /** The greedy pairing of one score group, with the engine's search-and-remove loop. */
  method PairScoreGroup(group: seq<Player>, round: nat) returns (pairs: seq<Pairing>, floats: seq<Player>)
    ensures GroupOutcome(pairs, floats) == PairGroup(group, round)
  {
    var players := group;
    pairs := [];
    floats := [];
    while |players| > 1
      invariant GroupProgress(group, round, pairs, floats, players)
      decreases |players|
    {
      var partner := FindPartner(players);
      if partner.Some? {
        var i := partner.value;
        PairedStep(group, round, pairs, floats, players, i);
        pairs := pairs + [PairWith(players[0], players[i], round)];
        players := players[1..i] + players[i + 1..];
      } else {
        FloatedStep(group, round, pairs, floats, players);
        floats := floats + [players[0]];
        players := players[1..];
      }
    }
    if |players| == 1 {
      floats := floats + [players[0]];
    }
  }

  /** The float games, taking floats two at a time from the front; one left over has the bye. */
  method PairFloats(unpaired: seq<Player>, round: nat) returns (prs: seq<Pairing>)
    ensures prs == FloatPairings(unpaired, round)
  {
    var rest := unpaired;
    prs := [];
    while |rest| > 1
      invariant prs + FloatPairings(rest, round) == FloatPairings(unpaired, round)
      decreases |rest|
    {
      var p1 := rest[0];
      var p2 := rest[1];
      assert prs + [PairWith(p1, p2, round)] + FloatPairings(rest[2..], round)
          == prs + ([PairWith(p1, p2, round)] + FloatPairings(rest[2..], round));
      rest := rest[2..];
      prs := prs + [PairWith(p1, p2, round)];
    }
    if |rest| == 1 {
      prs := prs + [Pairing(rest[0].id, None, round, None)];
    }
  }

  /** One more score group appends its games and its floats to those of the groups before it. */
  lemma GroupPhaseSnoc(ps: seq<Player>, scores: seq<nat>, k: nat, round: nat)
    requires k < |scores|
    ensures var o := PairGroup(ScoreGroup(ps, scores[k]), round);
      var before := GroupPhase(ps, scores[..k], round);
      GroupPhase(ps, scores[..k + 1], round) == GroupOutcome(before.pairs + o.pairs, before.floats + o.floats)
  {
    assert scores[..k + 1][..k] == scores[..k];
  }

  /** The pairings of round `round` for the roster, computed the way the engine does. */
  method PairRound(players: seq<Player>, round: nat) returns (pairings: seq<Pairing>)
    ensures pairings == RoundPairings(players, round)
  {
    var groups, keys := BucketByScore(players);
    var sortedScores := SortDescending(keys, ScoreRank);
    SortPermutation(keys, ScoreRank);
    pairings := [];
    var unpaired: seq<Player> := [];
    for k := 0 to |sortedScores|
      invariant GroupOutcome(pairings, unpaired) == GroupPhase(players, sortedScores[..k], round)
    {
      var score := sortedScores[k];
      assert score in multiset(keys);
      var pairs, floats := PairScoreGroup(groups[score], round);
      GroupPhaseSnoc(players, sortedScores, k, round);
      pairings := pairings + pairs;
      unpaired := unpaired + floats;
    }
    assert sortedScores[..|sortedScores|] == sortedScores;
    var tail := PairFloats(unpaired, round);
    pairings := pairings + tail;
  }
}
