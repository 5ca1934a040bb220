/**
 * The final standings: every player with two tie-breaks, sorted by score,
 * then Buchholz, then Sonneborn-Berger, highest first, players tied on all
 * three keeping their roster order.
 *
 * Buchholz sums the current scores of a player's opponents (an id no longer
 * on the roster counts 0); it is kept in half points like scores. Sonneborn-
 * Berger adds an opponent's full score for a win and half of it for a draw,
 * looking the game up in the pairings of the current round only; it is kept
 * in QUARTER points, so a win adds twice the opponent's half-point score and
 * a draw adds it once.
 */
module Standings {
  import opened Players
  import opened Sorting
  import opened Results

  /** The current score of the player with id `id`, 0 when no player has it. */
  function OpponentScore(ps: seq<Player>, id: PlayerId): nat
  {
    match Find(ps, id)
    case None => 0
    case Some(q) => q.score
  }

  /**
   * Buchholz, in half points: the sum of the opponents' current scores, an
   * opponent once per game. It is at least the score of every opponent, and
   * it is 0 exactly when every opponent scores 0 or has left the roster.
   */
  function Buchholz(ps: seq<Player>, opponents: seq<PlayerId>): (r: nat)
    ensures forall i :: 0 <= i < |opponents| ==> OpponentScore(ps, opponents[i]) <= r
    ensures r == 0 <==> forall i :: 0 <= i < |opponents| ==> OpponentScore(ps, opponents[i]) == 0
  {
    if opponents == [] then 0
    else Buchholz(ps, opponents[..|opponents| - 1]) + OpponentScore(ps, opponents[|opponents| - 1])
  }

  /** Buchholz adds up game by game, in any split of the opponent list. */
  lemma {:induction false} BuchholzConcat(ps: seq<Player>, a: seq<PlayerId>, b: seq<PlayerId>)
    ensures Buchholz(ps, a + b) == Buchholz(ps, a) + Buchholz(ps, b)
    decreases |b|
  {
    if b == [] {
      assert a + b == a;
    } else {
      BuchholzConcat(ps, a, b[..|b| - 1]);
      assert (a + b)[..|a + b| - 1] == a + b[..|b| - 1];
    }
  }

  /** Only opponents on the roster count, each with its current score. */
  lemma BuchholzOf(ps: seq<Player>, opponents: seq<PlayerId>, k: nat)
    requires UniqueIds(ps) && k < |ps|
    ensures Buchholz(ps, opponents + [ps[k].id]) == Buchholz(ps, opponents) + ps[k].score
  {
    FindUnique(ps, k);
    assert (opponents + [ps[k].id])[..|opponents|] == opponents;
  }

  /** An opponent who is not on the roster adds nothing. */
  lemma BuchholzUnknown(ps: seq<Player>, opponents: seq<PlayerId>, id: PlayerId)
    requires id !in Ids(ps)
    ensures Buchholz(ps, opponents + [id]) == Buchholz(ps, opponents)
  {
    assert (opponents + [id])[..|opponents|] == opponents;
  }

  /** The first pairing of `prs` in which `pid` and `oid` meet, in either colour. */
  function FindGame(prs: seq<Pairing>, pid: PlayerId, oid: PlayerId): (r: Option<Pairing>)
    ensures r.Some? ==> r.value in prs
    ensures r.Some? ==> (r.value.white == pid && r.value.black == Some(oid)) || (r.value.black == Some(pid) && r.value.white == oid)
    ensures r.None? ==> forall pr :: pr in prs ==>
              !((pr.white == pid && pr.black == Some(oid)) || (pr.black == Some(pid) && pr.white == oid))
    ensures r.Some? ==> exists k :: (0 <= k < |prs| && prs[k] == r.value &&
              forall j :: 0 <= j < k ==>
                !((prs[j].white == pid && prs[j].black == Some(oid)) || (prs[j].black == Some(pid) && prs[j].white == oid)))
  {
    if prs == [] then None
    else if (prs[0].white == pid && prs[0].black == Some(oid)) || (prs[0].black == Some(pid) && prs[0].white == oid) then Some(prs[0])
    else FindGame(prs[1..], pid, oid)
  }

  /** Whether `pid` won the game `g`, by the result written into the pairing. */
  predicate Won(g: Pairing, pid: PlayerId)
  {
    (g.white == pid && g.result == Some(WhiteWins)) || (g.black == Some(pid) && g.result == Some(BlackWins))
  }

  /**
   * What one game against `oid` adds to the Sonneborn-Berger of `pid`, in
   * quarter points: never more than the opponent's whole score, and something
   * only for a game of the current pairings that `pid` won or drew.
   */
  function SonnebornBergerTerm(ps: seq<Player>, prs: seq<Pairing>, pid: PlayerId, oid: PlayerId): (r: nat)
    ensures r <= 2 * OpponentScore(ps, oid)
    ensures r > 0 ==> FindGame(prs, pid, oid).Some? &&
                      (Won(FindGame(prs, pid, oid).value, pid) || FindGame(prs, pid, oid).value.result == Some(Draw))
  {
    match FindGame(prs, pid, oid)
    case None => 0
    case Some(g) =>
      if Won(g, pid) then 2 * OpponentScore(ps, oid)
      else if g.result == Some(Draw) then OpponentScore(ps, oid)
      else 0
  }

  /**
   * Sonneborn-Berger of the player with id `pid` and opponent list
   * `opponents`, in quarter points. Each game counts at most the opponent's
   * whole score, so it never exceeds Buchholz; with no current pairings no
   * game is found and it is 0.
   */
  function SonnebornBerger(ps: seq<Player>, prs: seq<Pairing>, pid: PlayerId, opponents: seq<PlayerId>): (r: nat)
    ensures r <= 2 * Buchholz(ps, opponents)
    ensures prs == [] ==> r == 0
  {
    if opponents == [] then 0
    else SonnebornBerger(ps, prs, pid, opponents[..|opponents| - 1]) + SonnebornBergerTerm(ps, prs, pid, opponents[|opponents| - 1])
  }

  /**
   * One game's contribution: the opponent's full score for a win, half of it
   * for a draw, nothing for a loss, an unknown result or a game the current
   * pairings do not show.
   */
  lemma SonnebornBergerTermCases(ps: seq<Player>, prs: seq<Pairing>, pid: PlayerId, oid: PlayerId)
    ensures var t := SonnebornBergerTerm(ps, prs, pid, oid);
      && (FindGame(prs, pid, oid).None? ==> t == 0)
      && (FindGame(prs, pid, oid).Some? && Won(FindGame(prs, pid, oid).value, pid) ==> t == 2 * OpponentScore(ps, oid))
      && ((FindGame(prs, pid, oid).Some? && !Won(FindGame(prs, pid, oid).value, pid) &&
           FindGame(prs, pid, oid).value.result == Some(Draw)) ==> t == OpponentScore(ps, oid))
      && ((FindGame(prs, pid, oid).Some? && !Won(FindGame(prs, pid, oid).value, pid) &&
           FindGame(prs, pid, oid).value.result != Some(Draw)) ==> t == 0)
      && t <= 2 * OpponentScore(ps, oid)
  {
  }

  /** A row of the standings: a player with its Buchholz (half points) and Sonneborn-Berger (quarter points). */
  datatype Standing = Standing(player: Player, buchholz: nat, sonnebornBerger: nat)

  /** Every player of the roster, in roster order, with its tie-breaks. */
  function Annotate(ps: seq<Player>, prs: seq<Pairing>): (r: seq<Standing>)
    ensures |r| == |ps|
    ensures forall i :: 0 <= i < |ps| ==>
              r[i] == Standing(ps[i], Buchholz(ps, ps[i].opponents), SonnebornBerger(ps, prs, ps[i].id, ps[i].opponents))
  {
    seq(|ps|, i requires 0 <= i < |ps| =>
      Standing(ps[i], Buchholz(ps, ps[i].opponents), SonnebornBerger(ps, prs, ps[i].id, ps[i].opponents)))
  }

  /** The sort key of the standings: score, then Buchholz, then Sonneborn-Berger. */
  function StandingRank(s: Standing): Rank
  {
    Rank(s.player.score, s.buchholz, s.sonnebornBerger)
  }

  /** The standings of the roster given the current round's pairings. */
  function FinalStandings(ps: seq<Player>, prs: seq<Pairing>): seq<Standing>
  {
    SortDescending(Annotate(ps, prs), StandingRank)
  }

  /**
   * The standings hold every annotated player as often as the roster does,
   * ordered by score, then Buchholz, then Sonneborn-Berger, highest first;
   * rows equal on all three keys keep their roster order.
   */
  lemma FinalStandingsOrder(ps: seq<Player>, prs: seq<Pairing>)
    ensures var st := FinalStandings(ps, prs);
      && multiset(st) == multiset(Annotate(ps, prs))
      && (forall i, j :: 0 <= i < j < |st| ==>
            st[i].player.score > st[j].player.score ||
            (st[i].player.score == st[j].player.score &&
              (st[i].buchholz > st[j].buchholz ||
                (st[i].buchholz == st[j].buchholz && st[i].sonnebornBerger >= st[j].sonnebornBerger))))
      && (forall k :: WithRank(st, k, StandingRank) == WithRank(Annotate(ps, prs), k, StandingRank))
  {
    var st := FinalStandings(ps, prs);
    SortPermutation(Annotate(ps, prs), StandingRank);
    SortedOutput(Annotate(ps, prs), StandingRank);
    forall i, j | 0 <= i < j < |st| ensures AtLeast(StandingRank(st[i]), StandingRank(st[j])) {
    }
    forall k ensures WithRank(st, k, StandingRank) == WithRank(Annotate(ps, prs), k, StandingRank) {
      StableOutput(Annotate(ps, prs), k, StandingRank);
    }
  }
}
