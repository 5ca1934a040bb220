# Swiss tournament engine, modelled in Dafny

This project models the pairing and scoring engine of a small chess-tournament
manager: the `SwissTournament` class of `swissTournament.js`. The engine keeps a
roster of players, the number of the current round and the pairings of that
round. It offers these operations:

- **Enrolment** (`constructor`): every player starts with no points, no
  opponents and no colours.
- **Round one** (`firstRound`): the roster is sorted by rating, highest first.
  The top half then meets the bottom half rank for rank, the top-half player
  taking White. With an odd roster the last player gets a bye.
- **Later rounds** (`nextRound`):
  - Players are bucketed into score groups, which are handled from the highest
    score down.
  - Inside a group, the first player is paired with its first possible partner.
    A possible partner is one it has not met, and when the first player has
    played before, the two must prefer different colours.
  - A player with no possible partner floats. So does a last single player of
    a group.
  - The floats are then paired two by two without any check. One float left
    over gets a bye.
  - The first player of every pair gets the colour it prefers. That is the less
    used colour, or on a tie the opposite of its last colour; with no games it
    is White.
- **Results** (`recordResult`):
  - A bye is worth a point.
  - A game is scored by its result string, "1-0", "0-1" or "½-½". Any other
    string scores nothing.
  - A game is written into both players' opponent lists and colour histories,
    whatever the result string.
- **Standings** (`getFinalStandings`): score first, then Buchholz (the sum of
  the opponents' current scores), then Sonneborn-Berger. Sonneborn-Berger adds
  an opponent's score for a win and half of it for a draw, and looks the game up
  in the current round's pairings only.

How the model is laid out:

- **Files and modules.** The engine's state is the class
  `Tournament.SwissTournament`. Its methods change the roster, the round number
  and the pairings in place. The pairing loops of `nextRound` are the methods of
  `Rounds`, and each of them is proved equal to a specification function. The
  properties are proved as lemmas about those functions (`RoundProperties`,
  `Results`, `Standings`).
- **Players.** Pairings name players by id, and the roster is the only place a
  player's record lives. The JavaScript engine instead shares the player objects
  between the roster and the pairings. For ids to stand in for those objects,
  the roster's ids must be distinct. This is part of the class invariant
  `Valid()`, together with four more facts:
  - every player has one colour per opponent;
  - nobody has itself as an opponent;
  - a game on one record is on the other's;
  - no current pairing puts a player against itself.
- **Units.** Scores are kept in half points (a win is 2, a draw 1). Buchholz is
  in half points. Sonneborn-Berger is in quarter points, so that halving an
  opponent's score stays exact.
- **Sorting.** The JavaScript `Array.prototype.sort` is stable. It is modelled
  by a stable insertion sort over a lexicographic key (`Sorting`), with
  permutation, order and stability proved.

Two behaviours of the engine differ from what a Swiss system is usually
expected to do:

- A Swiss system is usually expected never to pair two players twice, and an
  opponent list to hold no id twice. This engine pairs floats with no rematch
  test, so a rematch happens when two players who have met are taken as a float
  pair. `RoundProperties.FloatsMayMeetAgain` shows such a round. Rematches are
  excluded only inside score groups (`RoundProperties.RoundGroupGames`).
- Nothing guards against reporting the same pairing twice. `RecordResult`
  appends on every call, as `Results.RecordedGame` states.

## Model

| member | source | states |
|---|---|---|
| Players.Enroll | swissTournament.js:3-10 | a fresh record keeps the seed's id, name, federation id and rating, with score 0, no opponents, no colours and zero float counters |
| Players.Find | swissTournament.js:156 | the lookup finds a player with the wanted id on the roster, and finds none exactly when no roster id matches |
| Tournament.SwissTournament.constructor | swissTournament.js:2-13 | the roster is the enrolled seeds in order; round 0 and no pairings; with distinct seed ids the invariant holds |
| Colors.PreferredColor | swissTournament.js:38-46 | the strictly less used colour; on a tie the opposite of the last colour; White for an empty history |
| Colors.CanBePaired | swissTournament.js:48-53 | false when the partner's id is among the first player's opponents; otherwise true exactly when the preferences differ or the first player has no colour history |
| Colors.PreferredColorRebalances | swissTournament.js:38-46 | playing the preferred colour moves an uneven history one step towards even, and makes an even one uneven by one |
| Colors.AlwaysPreferredAlternates | swissTournament.js:38-46 | a player who always gets its preferred colour plays White, Black, White, ... and has ceil(n/2) whites and floor(n/2) blacks |
| Sorting.SortPermutation | swissTournament.js:16 | the stable descending sort returns a permutation of its input |
| Sorting.SortedOutput | swissTournament.js:16 | the sort's output is in descending key order |
| Sorting.StableOutput | swissTournament.js:16 | elements with equal keys keep their input order |
| Seeding.SortByRating | swissTournament.js:16 | the sort of the roster by rating, which FirstRound stores back, computes the stable descending sort by rating |
| Seeding.SortByRatingOrder | swissTournament.js:16 | the sorted roster is a permutation, ratings do not increase, and players of equal rating keep their roster order |
| Seeding.SeedPairings | swissTournament.js:17-32 | the pairings are index i (White) against i + floor(n/2) (Black) for i < floor(n/2), then a bye for the last player when n is odd; every id is paired exactly once; there is one bye exactly when n is odd |
| Seeding.RankPairsIds | swissTournament.js:19-25 | pairing two halves rank for rank uses every id of both halves exactly once |
| Tournament.SortedRosterOk | swissTournament.js:16 | sorting the roster keeps its players and every roster invariant |
| Tournament.SwissTournament.FirstRound | swissTournament.js:15-36 | the roster becomes its stable sort by rating; the pairings are the seeded ones, each player once, with a bye exactly for an odd roster; round 1; the invariant is kept |
| Rounds.PairWithColors | swissTournament.js:76-81 | the first player gets its preferred colour and the partner the other one; the game names both players once |
| Rounds.ScoreGroupMembers | swissTournament.js:57-64 | a score group holds exactly the roster's players with that score |
| Rounds.DistinctScoresMembers | swissTournament.js:57-67 | the group keys are exactly the scores that occur on the roster |
| Rounds.FirstPartner | swissTournament.js:73-86 | returns the first index from the start on whose player can be paired with the group's first player, or none when no such player exists |
| Rounds.BucketByScore | swissTournament.js:57-64 | the map holds a key for each score on the roster, mapped to the players with that score in roster order; the keys come in order of first appearance |
| Rounds.FindPartner | swissTournament.js:72-86 | the inner search returns the first possible partner of the group's first player |
| Rounds.PairScoreGroup | swissTournament.js:69-94 | the loop over one score group produces exactly the greedy group pairing: its games, then its floats in the order they floated |
| Rounds.PairFloats | swissTournament.js:96-111 | the floats are paired two by two in collection order, and a last one gets the bye |
| Rounds.PairRound | swissTournament.js:57-111 | the pairings computed by the loops equal the specification of a later round: group games from the highest score down, then float games and the bye |
| RoundProperties.PairGroupIds | swissTournament.js:70-94 | one group's games and floats hold each of its players exactly once, and a group gives no bye |
| RoundProperties.PairGroupGames | swissTournament.js:73-86 | every game a group forms joins two of its players, the first of whom may be paired with the second |
| RoundProperties.SortedScoresCover | swissTournament.js:57-67 | the sorted scores are the roster's scores, each exactly once |
| RoundProperties.SortedScoresOrder | swissTournament.js:67 | the score groups are handled in strictly descending score order |
| RoundProperties.FloatPairingsIds | swissTournament.js:96-111 | the float games and the bye hold each float exactly once |
| RoundProperties.FloatPairingsByes | swissTournament.js:96-111 | the float pairing has a bye exactly when the number of floats is odd |
| RoundProperties.FloatsMayMeetAgain | swissTournament.js:96-104 | two players who met before, one with 1 point and one with 0, float from their groups and are paired again |
| RoundProperties.RoundPairingsIds | swissTournament.js:56-113 | in a later round every player of the roster is paired exactly once |
| RoundProperties.RoundPairingsByes | swissTournament.js:56-113 | a later round has a bye exactly when the roster is odd, so never more than one |
| RoundProperties.RoundGroupGames | swissTournament.js:68-104 | the round is the group games followed by the float games; a group game joins two roster players of equal score who have not met, and its first player plays the colour it prefers |
| Tournament.RoundPaired | swissTournament.js:55-113 | a later round pairs every player once, has a bye exactly for an odd roster and never pairs a player with itself |
| Tournament.SwissTournament.NextRound | swissTournament.js:55-114 | the round number goes up by exactly 1; the roster is unchanged; the pairings are replaced by the later-round pairing, each player once, with a bye exactly for an odd roster; the invariant is kept |
| Results.Points | swissTournament.js:122-133 | "1-0" gives the whole point to White, "0-1" to Black, "½-½" half to each, any other string nothing |
| Results.GamePoints | swissTournament.js:122-133 | a game hands out one point in all for a recognised result and nothing otherwise |
| Results.RecordedBye | swissTournament.js:118-121 | a bye adds one point to its player and changes nothing else, whatever the result string |
| Results.RecordedGame | swissTournament.js:122-137 | each player of a game earns the points of its colour and gets the other's id and its own colour appended exactly once; nobody else changes |
| Results.HistoriesGrow | swissTournament.js:134-137 | reporting only extends opponent lists and colour histories, by equal amounts, and never lowers a score |
| Results.RecordKeepsBalance | swissTournament.js:134-137 | every player keeps one colour per opponent |
| Results.RecordKeepsNoSelfGames | swissTournament.js:134-135 | nobody gets itself as an opponent |
| Results.RecordKeepsSymmetry | swissTournament.js:134-135 | a game is recorded on both sides: a has b as often as b has a |
| Results.ScoreConservation | swissTournament.js:116-133 | the roster's total score grows by one point for a bye or a recognised result, and by nothing for any other result string |
| Tournament.RecordedRosterOk | swissTournament.js:116-138 | reporting a result keeps every roster invariant and accounts for the points as above |
| Tournament.SwissTournament.RecordResult | swissTournament.js:116-138 | the roster records are updated as reporting says; the round and the pairings are unchanged; the total score grows by one point for a bye or a recognised result; the invariant is kept |
| Tournament.SwissTournament.SubmitResult | server.js:109-110 | the result is written into the i-th current pairing and then recorded; the invariant is kept |
| Standings.Buchholz | swissTournament.js:154-159 | Buchholz is the sum, game by game, of the opponents' current scores (0 for an id not on the roster); it is at least every opponent's score, and it is 0 exactly when every opponent scores 0 or is not on the roster |
| Standings.BuchholzConcat | swissTournament.js:154-159 | Buchholz adds up game by game |
| Standings.BuchholzOf | swissTournament.js:154-159 | an opponent on the roster adds its current score |
| Standings.BuchholzUnknown | swissTournament.js:156-157 | an opponent id not on the roster adds nothing |
| Standings.FindGame | swissTournament.js:164-167 | the game found is the first current pairing, in pairing order, that joins the two ids in either colour; none is found exactly when no current pairing joins them |
| Standings.SonnebornBergerTerm | swissTournament.js:164-176 | one game adds at most the opponent's whole score, and adds something only when the current pairings show the game and the player won or drew it |
| Standings.SonnebornBergerTermCases | swissTournament.js:168-176 | one game adds the opponent's full score for a win, half of it for a draw, and nothing for a loss, any other result or a game the current pairings do not show |
| Standings.SonnebornBerger | swissTournament.js:161-178 | Sonneborn-Berger is the sum over the opponent list of the per-game terms; it never exceeds Buchholz, and with no current pairings it is 0 |
| Standings.Annotate | swissTournament.js:142-146 | every roster player, in roster order, with its Buchholz and its Sonneborn-Berger |
| Standings.FinalStandingsOrder | swissTournament.js:140-152 | the standings are a permutation of the annotated roster, ordered by score, then Buchholz, then Sonneborn-Berger, highest first, and rows tied on all three keep their roster order |
| Tournament.SwissTournament.GetFinalStandings | swissTournament.js:140-152 | the standings of the current state are a permutation of the annotated roster in descending key order; being a function it changes nothing |

## Left out

- Everything outside the engine is not part of this model: the Express routes
  and JSON files of `server.js`, the browser code of `public/app.js`, and the
  rating scraping of `webscraper.py` and `server.js`.
- The rebuilding of an earlier round in `server.js` (lines 80-87) is not
  modelled. It builds a fresh tournament and replays `firstRound` and
  `nextRound` with no results recorded, so all scores and histories are lost.
  It then sets `pairings` to detached copies parsed from JSON. Later reports
  then change those copies and not the roster's records. Pairings by id cannot
  express such detached copies.
- Of the result-submission loop in `server.js`, only one step is modelled
  (`SubmitResult`). The loop's filtering of empty or "Select" results is left to
  the caller.
- Object identity is replaced by ids. A roster with repeated ids, on which the
  JavaScript engine would still tell the objects apart, is outside the
  invariant.
- Extra fields a seed object may carry, which the engine copies along with
  `...player`, are not modelled. A seed is id, name, federation id and rating.
- Scores are exact half points, not floating-point numbers. Ratings are
  integers, so a comparator that meets a non-numeric rating is not modelled.
- The `upfloats` and `downfloats` counters are kept and set to 0, as the engine
  does. Nothing reads or changes them.
- The standings are rows of a player plus its two tie-breaks. The engine
  instead returns spread copies of the player objects with two extra fields.
- Tournament.SwissTournament.RecordResult: requires the two sides of a game to
  differ. The engine never produces a pairing of a player with itself, and
  `Valid()` records this for the current pairings.
- Tournament.SwissTournament.FirstRound: requires `Valid()`, which includes
  distinct ids. The same holds for NextRound and RecordResult; without distinct
  ids, pairings by id cannot stand for the engine's shared player objects.
- Tournament.SwissTournament.constructor: establishes `Valid()` only when the
  seed ids are distinct.
- Tournament.SwissTournament.GetFinalStandings: does not restate stability. Its
  rows tied on all three keys keep their roster order, as
  `Standings.FinalStandingsOrder` proves.
- The in-group loop and the float loop of `nextRound` are separate methods
  (`Rounds.PairScoreGroup`, `Rounds.PairFloats`) that `Rounds.PairRound` calls.
  The order in which they change local state is the engine's.
