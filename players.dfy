/**
 * The records a Swiss tournament keeps: the competitors of the roster and the
 * pairings of a round. Pairings name their two players by id; the roster is
 * the only place where a player's record lives.
 *
 * Scores move in half points only, so a score is kept as a natural number of
 * HALF points (a win is 2, a draw 1).
 */
module Players {

  datatype Option<+T> = None | Some(value: T)

  type PlayerId = int

  datatype Color = White | Black

  function Opposite(c: Color): Color
  {
    if c == White then Black else White
  }

  /** The seed data a roster is built from: id, name, federation id and rating. */
  datatype Seed = Seed(id: PlayerId, name: string, fideId: string, rating: int)

  /**
   * A competitor. `score` counts half points; `opponents` and `colorHistory`
   * grow by one entry per game played (byes add to neither). The float
   * counters start at 0, and nothing reads or changes them.
   */
  datatype Player = Player(
    id: PlayerId,
    name: string,
    fideId: string,
    rating: int,
    score: nat,
    opponents: seq<PlayerId>,
    colorHistory: seq<Color>,
    upfloats: nat,
    downfloats: nat)

  /** A pairing of one round; `black == None` is a bye. `result` is unset until reported. */
  datatype Pairing = Pairing(white: PlayerId, black: Option<PlayerId>, round: nat, result: Option<string>)

  /** The colour the player with id `id` has in a pairing; None when not in it or on a bye. */
  function ColorOf(pr: Pairing, id: PlayerId): Option<Color>
  {
    if pr.black.Some? && pr.black.value == id then (if pr.white == id then None else Some(Black))
    else if pr.white == id && pr.black.Some? then Some(White)
    else None
  }

  /** The opponent the player with id `id` meets in a pairing; None when not in it or on a bye. */
  function OpponentOf(pr: Pairing, id: PlayerId): Option<PlayerId>
  {
    match ColorOf(pr, id)
    case None => None
    case Some(White) => pr.black
    case Some(Black) => Some(pr.white)
  }

  /** A fresh competitor made from its seed data: no points, no games, no floats. */
  function Enroll(s: Seed): (p: Player)
    ensures p.id == s.id && p.name == s.name && p.fideId == s.fideId && p.rating == s.rating
    ensures p.score == 0 && p.opponents == [] && p.colorHistory == []
    ensures p.upfloats == 0 && p.downfloats == 0
  {
    Player(s.id, s.name, s.fideId, s.rating, 0, [], [], 0, 0)
  }

  /** The ids of a sequence of players, in order. */
  function Ids(ps: seq<Player>): seq<PlayerId>
  {
    seq(|ps|, i requires 0 <= i < |ps| => ps[i].id)
  }

  lemma IdsConcat(a: seq<Player>, b: seq<Player>)
    ensures Ids(a + b) == Ids(a) + Ids(b)
  {
  }

  predicate UniqueIds(ps: seq<Player>)
  {
    forall i, j :: 0 <= i < j < |ps| ==> ps[i].id != ps[j].id
  }

  /** Every player id a sequence of pairings mentions, white before black, pairing by pairing. */
  function PairingIds(prs: seq<Pairing>): seq<PlayerId>
  {
    if prs == [] then []
    else
      var pr := prs[0];
      [pr.white] + (if pr.black.Some? then [pr.black.value] else []) + PairingIds(prs[1..])
  }

  lemma PairingIdsConcat(a: seq<Pairing>, b: seq<Pairing>)
    ensures PairingIds(a + b) == PairingIds(a) + PairingIds(b)
  {
    if a == [] {
      assert a + b == b;
    } else {
      assert (a + b)[0] == a[0] && (a + b)[1..] == a[1..] + b;
      PairingIdsConcat(a[1..], b);
    }
  }

  /** Each pairing names two players, a bye only one. */
  lemma {:induction false} PairingIdsLength(prs: seq<Pairing>)
    ensures |PairingIds(prs)| + ByeCount(prs) == 2 * |prs|
  {
    if prs != [] {
      PairingIdsLength(prs[1..]);
    }
  }

  /** The number of byes among some pairings. */
  function ByeCount(prs: seq<Pairing>): nat
  {
    if prs == [] then 0 else (if prs[0].black.None? then 1 else 0) + ByeCount(prs[1..])
  }

  lemma ByeCountConcat(a: seq<Pairing>, b: seq<Pairing>)
    ensures ByeCount(a + b) == ByeCount(a) + ByeCount(b)
  {
    if a == [] {
      assert a + b == b;
    } else {
      assert (a + b)[0] == a[0] && (a + b)[1..] == a[1..] + b;
      ByeCountConcat(a[1..], b);
    }
  }

  /** The first player with the given id, as an array `find` gives it. */
  function Find(ps: seq<Player>, id: PlayerId): (r: Option<Player>)
    ensures r.Some? ==> r.value in ps && r.value.id == id
    ensures r.None? <==> id !in Ids(ps)
  {
    if ps == [] then None
    else if ps[0].id == id then
      assert Ids(ps)[0] == id;
      Some(ps[0])
    else
      assert Ids(ps) == [ps[0].id] + Ids(ps[1..]);
      Find(ps[1..], id)
  }

  lemma FindUnique(ps: seq<Player>, k: nat)
    requires UniqueIds(ps) && k < |ps|
    ensures Find(ps, ps[k].id) == Some(ps[k])
  {
    if k > 0 {
      FindUnique(ps[1..], k - 1);
    }
  }

  /** With distinct ids, no id occurs twice in the roster's id list. */
  lemma {:induction false} UniqueIdsBag(ps: seq<Player>)
    requires UniqueIds(ps)
    ensures forall x :: multiset(Ids(ps))[x] <= 1
  {
    if ps != [] {
      UniqueIdsBag(ps[1..]);
      assert Ids(ps) == [ps[0].id] + Ids(ps[1..]);
      forall k | 0 <= k < |ps[1..]| ensures Ids(ps[1..])[k] != ps[0].id {
        assert ps[1..][k] == ps[k + 1];
      }
      assert ps[0].id !in Ids(ps[1..]);
    }
  }

  /** A player occurs in a roster at most as often as its id occurs in the id list. */
  lemma {:induction false} PlayersBelowIds(ps: seq<Player>, x: Player)
    ensures multiset(ps)[x] <= multiset(Ids(ps))[x.id]
  {
    if ps != [] {
      assert ps == [ps[0]] + ps[1..];
      assert Ids(ps) == [ps[0].id] + Ids(ps[1..]);
      PlayersBelowIds(ps[1..], x);
    }
  }

  /** Reordering a roster keeps its ids distinct. */
  lemma UniqueIdsPermutation(s: seq<Player>, t: seq<Player>)
    requires multiset(s) == multiset(t) && UniqueIds(s)
    ensures UniqueIds(t)
  {
    forall i, j | 0 <= i < j < |t| ensures t[i].id != t[j].id {
      if t[i] == t[j] {
        assert t == t[..i] + [t[i]] + t[i + 1..j] + [t[j]] + t[j + 1..];
        assert multiset(t)[t[i]] >= 2;
        UniqueIdsBag(s);
        PlayersBelowIds(s, t[i]);
      } else {
        assert t[i] in multiset(s) && t[j] in multiset(s);
        var a :| 0 <= a < |s| && s[a] == t[i];
        var b :| 0 <= b < |s| && s[b] == t[j];
        assert a != b;
      }
    }
  }
}
