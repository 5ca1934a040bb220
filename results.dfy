/**
 * Reporting the result of one pairing. A bye is worth a point to its
 * player and leaves everything else alone. A game is scored by its result
 * string ("1-0", "0-1" or "½-½"; any other string scores nothing) and is
 * written into both players' records: each gets the other's id appended to
 * its opponents and its colour appended to its colour history, whatever
 * the result string.
 *
 * Scores are in half points: a point is 2, half a point is 1.
 */
module Results {
  import opened Players

  const WhiteWins: string := "1-0"
  const BlackWins: string := "0-1"
  const Draw: string := "½-½"

  /** The half points the player of colour `c` earns from a game reported as `result`. */
  function Points(result: string, c: Color): (n: nat)
    ensures result == Draw ==> n == 1
    ensures result == WhiteWins ==> n == (if c == White then 2 else 0)
    ensures result == BlackWins ==> n == (if c == Black then 2 else 0)
    ensures result != Draw && result != WhiteWins && result != BlackWins ==> n == 0
  {
    if result == WhiteWins then (if c == White then 2 else 0)
    else if result == BlackWins then (if c == Black then 2 else 0)
    else if result == Draw then 1
    else 0
  }

  /** A game hands out one point in all for a recognised result and nothing otherwise. */
  lemma GamePoints(result: string)
    ensures Points(result, White) + Points(result, Black)
            == if result in {WhiteWins, BlackWins, Draw} then 2 else 0
  {
  }

  /** The record of `p` once `pr` has been reported with `result`. */
  function Recorded(p: Player, pr: Pairing, result: string): Player
  {
    if pr.black.None? then
      (if p.id == pr.white then p.(score := p.score + 2) else p)
    else
      var black := pr.black.value;
      var asWhite :=
        if p.id == pr.white then
          p.(score := p.score + Points(result, White), opponents := p.opponents + [black], colorHistory := p.colorHistory + [White])
        else p;
      if p.id == black then
        asWhite.(score := asWhite.score + Points(result, Black), opponents := asWhite.opponents + [pr.white],
                 colorHistory := asWhite.colorHistory + [Black])
      else asWhite
  }

  /** The roster once `pr` has been reported with `result`: every record with an id of the pairing is updated. */
  function RecordAll(ps: seq<Player>, pr: Pairing, result: string): (r: seq<Player>)
    ensures |r| == |ps|
    ensures forall i :: 0 <= i < |ps| ==> r[i] == Recorded(ps[i], pr, result)
  {
    seq(|ps|, i requires 0 <= i < |ps| => Recorded(ps[i], pr, result))
  }

  /** A bye adds a point to its player and changes nothing else, for any result string. */
  lemma RecordedBye(p: Player, pr: Pairing, result: string)
    requires pr.black.None?
    ensures Recorded(p, pr, result).(score := p.score) == p
    ensures Recorded(p, pr, result).score == p.score + (if p.id == pr.white then 2 else 0)
  {
  }

  /**
   * A game between two different players: each of them earns the points of
   * its colour, gets the other's id appended to its opponents and its colour
   * appended to its colour history, once; nobody else changes at all.
   */
  lemma RecordedGame(p: Player, pr: Pairing, result: string)
    requires pr.black.Some? && pr.white != pr.black.value
    ensures ColorOf(pr, p.id).None? ==> Recorded(p, pr, result) == p
    ensures ColorOf(pr, p.id).Some? ==>
      var c := ColorOf(pr, p.id).value;
      var r := Recorded(p, pr, result);
      && r.score == p.score + Points(result, c)
      && r.opponents == p.opponents + [OpponentOf(pr, p.id).value]
      && r.colorHistory == p.colorHistory + [c]
      && r.(score := p.score, opponents := p.opponents, colorHistory := p.colorHistory) == p
  {
  }

  /** Reporting a result only ever extends the histories. */
  lemma HistoriesGrow(p: Player, pr: Pairing, result: string)
    ensures p.opponents <= Recorded(p, pr, result).opponents
    ensures p.colorHistory <= Recorded(p, pr, result).colorHistory
    ensures p.score <= Recorded(p, pr, result).score
    ensures |Recorded(p, pr, result).opponents| - |p.opponents| == |Recorded(p, pr, result).colorHistory| - |p.colorHistory|
  {
  }

  /* ---------------------------------------------------------------- */
  /* Invariants of the roster                                          */
  /* ---------------------------------------------------------------- */

  /** Every player has as many colours as opponents: one of each per game. */
  ghost predicate Balanced(ps: seq<Player>)
  {
    forall i :: 0 <= i < |ps| ==> |ps[i].colorHistory| == |ps[i].opponents|
  }

  /** Nobody has itself as an opponent. */
  ghost predicate NoSelfGames(ps: seq<Player>)
  {
    forall i :: 0 <= i < |ps| ==> ps[i].id !in ps[i].opponents
  }

  /** Player `a` has `b` among its opponents as often as `b` has `a`. */
  ghost predicate Symmetric(ps: seq<Player>)
  {
    forall i, j :: 0 <= i < |ps| && 0 <= j < |ps| ==>
      multiset(ps[i].opponents)[ps[j].id] == multiset(ps[j].opponents)[ps[i].id]
  }

  lemma RecordKeepsBalance(ps: seq<Player>, pr: Pairing, result: string)
    requires Balanced(ps)
    ensures Balanced(RecordAll(ps, pr, result))
  {
    forall i | 0 <= i < |ps| ensures |RecordAll(ps, pr, result)[i].colorHistory| == |RecordAll(ps, pr, result)[i].opponents| {
      HistoriesGrow(ps[i], pr, result);
    }
  }

  lemma RecordKeepsNoSelfGames(ps: seq<Player>, pr: Pairing, result: string)
    requires NoSelfGames(ps)
    requires pr.black.Some? ==> pr.white != pr.black.value
    ensures NoSelfGames(RecordAll(ps, pr, result))
  {
  }

  /** How often `q` is added to the opponents of `p` by reporting `pr`. */
  lemma OpponentCount(p: Player, q: PlayerId, pr: Pairing, result: string)
    ensures multiset(Recorded(p, pr, result).opponents)[q] == multiset(p.opponents)[q]
      + (if pr.black.Some? && p.id == pr.white && q == pr.black.value then 1 else 0)
      + (if pr.black.Some? && p.id == pr.black.value && q == pr.white then 1 else 0)
  {
    if pr.black.Some? {
      var b := pr.black.value;
      var w := if p.id == pr.white then p.opponents + [b] else p.opponents;
      assert multiset(w)[q] == multiset(p.opponents)[q] + (if p.id == pr.white && q == b then 1 else 0);
      if p.id == b {
        assert multiset(w + [pr.white])[q] == multiset(w)[q] + (if q == pr.white then 1 else 0);
      }
    }
  }

  /** Games are recorded on both sides: the opponent relation stays symmetric. */
  lemma RecordKeepsSymmetry(ps: seq<Player>, pr: Pairing, result: string)
    requires Symmetric(ps)
    ensures Symmetric(RecordAll(ps, pr, result))
  {
    var r := RecordAll(ps, pr, result);
    forall i, j | 0 <= i < |ps| && 0 <= j < |ps|
      ensures multiset(r[i].opponents)[r[j].id] == multiset(r[j].opponents)[r[i].id]
    {
      OpponentCount(ps[i], ps[j].id, pr, result);
      OpponentCount(ps[j], ps[i].id, pr, result);
    }
  }

  /* ---------------------------------------------------------------- */
  /* Score accounting                                                  */
  /* ---------------------------------------------------------------- */

  /** The sum of the scores of the roster, in half points. */
  function TotalScore(ps: seq<Player>): nat
  {
    if ps == [] then 0 else TotalScore(ps[..|ps| - 1]) + ps[|ps| - 1].score
  }

  /** The half points the player with id `id` earns from `pr` reported as `result`. */
  function Gain(pr: Pairing, result: string, id: PlayerId): nat
  {
    if pr.black.None? then (if id == pr.white then 2 else 0)
    else (if id == pr.white then Points(result, White) else 0) + (if id == pr.black.value then Points(result, Black) else 0)
  }

  lemma RecordedScore(p: Player, pr: Pairing, result: string)
    ensures Recorded(p, pr, result).score == p.score + Gain(pr, result, p.id)
  {
  }

  /** The gains of a roster's players. */
  function Tally(ps: seq<Player>, pr: Pairing, result: string): nat
  {
    if ps == [] then 0 else Tally(ps[..|ps| - 1], pr, result) + Gain(pr, result, ps[|ps| - 1].id)
  }

  lemma RecordAllPrefix(ps: seq<Player>, pr: Pairing, result: string)
    requires ps != []
    ensures RecordAll(ps, pr, result)[..|ps| - 1] == RecordAll(ps[..|ps| - 1], pr, result)
  {
  }

  lemma {:induction false} TotalScoreTally(ps: seq<Player>, pr: Pairing, result: string)
    ensures TotalScore(RecordAll(ps, pr, result)) == TotalScore(ps) + Tally(ps, pr, result)
  {
    if ps != [] {
      var r := RecordAll(ps, pr, result);
      RecordAllPrefix(ps, pr, result);
      TotalScoreTally(ps[..|ps| - 1], pr, result);
      RecordedScore(ps[|ps| - 1], pr, result);
      assert r != [];
    }
  }

  lemma IdsInit(ps: seq<Player>, id: PlayerId)
    requires ps != []
    ensures id in Ids(ps) <==> id in Ids(ps[..|ps| - 1]) || id == ps[|ps| - 1].id
  {
    assert ps == ps[..|ps| - 1] + [ps[|ps| - 1]];
    IdsConcat(ps[..|ps| - 1], [ps[|ps| - 1]]);
    assert Ids([ps[|ps| - 1]]) == [ps[|ps| - 1].id];
  }

  lemma UniqueLast(ps: seq<Player>)
    requires ps != [] && UniqueIds(ps)
    ensures ps[|ps| - 1].id !in Ids(ps[..|ps| - 1])
  {
    var init := ps[..|ps| - 1];
    forall k | 0 <= k < |init| ensures Ids(init)[k] != ps[|ps| - 1].id {
    }
  }

  /** With distinct ids, the players of the pairing are the only ones who gain. */
  lemma {:induction false} TallyUnique(ps: seq<Player>, pr: Pairing, result: string)
    requires UniqueIds(ps)
    requires pr.black.Some? ==> pr.white != pr.black.value
    ensures Tally(ps, pr, result) ==
      (if pr.white in Ids(ps) then Gain(pr, result, pr.white) else 0) +
      (if pr.black.Some? && pr.black.value in Ids(ps) then Gain(pr, result, pr.black.value) else 0)
  {
    if ps != [] {
      var init, last := ps[..|ps| - 1], ps[|ps| - 1];
      assert UniqueIds(init);
      TallyUnique(init, pr, result);
      IdsInit(ps, pr.white);
      if pr.black.Some? {
        IdsInit(ps, pr.black.value);
      }
      UniqueLast(ps);
    }
  }

  /**
   * Score accounting: with distinct ids and a pairing of roster players,
   * reporting adds one point in all (2 half points) for a bye or a recognised
   * result, and nothing for any other result string.
   */
  lemma ScoreConservation(ps: seq<Player>, pr: Pairing, result: string)
    requires UniqueIds(ps) && pr.white in Ids(ps)
    requires pr.black.Some? ==> pr.black.value in Ids(ps) && pr.white != pr.black.value
    ensures TotalScore(RecordAll(ps, pr, result)) ==
      TotalScore(ps) + (if pr.black.None? || result in {WhiteWins, BlackWins, Draw} then 2 else 0)
  {
    TotalScoreTally(ps, pr, result);
    TallyUnique(ps, pr, result);
    GamePoints(result);
  }
}
