/**
 * The store of the stage-based iteration: the tables of
 * main/games/migrations/0001_initial.py with their unique constraints, and the
 * create, read and delete operations of main/games/services/crud.py. Rows of
 * each table are kept in primary-key order, so `.first()` is the first match
 * in the sequence. A violated unique constraint fails the insert with an
 * IntegrityError; everything else the database checks is taken as satisfied.
 */
module GameStore {
  import opened Wrappers
  import opened Text
  import opened Counting
  import Converters

  /** `GameState`. */
  datatype GameState = WaitingForPlayers | InProgress | Finished | Aborted

  /** `GameRoundStage`, in declaration order. */
  datatype Stage = UploadPhoto | WaitForRoulette | VoteRoasts | ShowResults

  /** The position of a stage in the enum declaration. */
  function StageIndex(s: Stage): nat {
    match s
    case UploadPhoto => 0
    case WaitForRoulette => 1
    case VoteRoasts => 2
    case ShowResults => 3
  }

  datatype Game = Game(id: nat, state: GameState, code: string)

  datatype GameRound = GameRound(id: nat, game: nat, count: int, stage: Stage)

  datatype Player = Player(id: nat, game: Option<nat>, sessionKey: string, name: string, avatar: int, isHost: bool)

  datatype Photo = Photo(id: nat, round: nat, uploadedBy: nat, cacheKey: string, isRoastTarget: bool, caption: Option<string>)

  datatype Roast = Roast(id: nat, round: nat, text: Option<string>)

  datatype Vote = Vote(id: nat, roast: nat, submittedBy: nat)

  datatype DbError = IntegrityError | NotFound(reason: GetError)

  predicate CodesDiffer(a: Game, b: Game) { a.code != b.code }

  predicate UniqueCodes(games: seq<Game>) {
    Pairwise(games, CodesDiffer)
  }

  predicate CountsDiffer(a: GameRound, b: GameRound) { (a.game, a.count) != (b.game, b.count) }

  /** `unique_together (game, count)`. */
  predicate UniqueRoundCounts(rounds: seq<GameRound>) {
    Pairwise(rounds, CountsDiffer)
  }

  predicate SessionsDiffer(a: Player, b: Player) { a.game.Some? ==> (a.game, a.sessionKey) != (b.game, b.sessionKey) }

  /** `unique_together (game, session_key)`; NULL games never clash. */
  predicate UniqueSessions(players: seq<Player>) {
    Pairwise(players, SessionsDiffer)
  }

  predicate UploadsDiffer(a: Photo, b: Photo) { (a.round, a.uploadedBy) != (b.round, b.uploadedBy) && a.cacheKey != b.cacheKey }

  /** `unique_together (game_round, uploaded_by)` and the unique `cache_key`. */
  predicate UniqueUploads(photos: seq<Photo>) {
    Pairwise(photos, UploadsDiffer)
  }

  predicate VotesDiffer(a: Vote, b: Vote) { (a.roast, a.submittedBy) != (b.roast, b.submittedBy) }

  /** `unique_together (roast, submitted_by)`. */
  predicate UniqueVotes(votes: seq<Vote>) {
    Pairwise(votes, VotesDiffer)
  }

  /** Primary keys ascend along the table and stay below the next key to hand out. */
  predicate KeysAscend<T>(rows: seq<T>, before: (T, T) -> bool, key: T -> nat, next: nat) {
    Pairwise(rows, before) && (forall i :: 0 <= i < |rows| ==> key(rows[i]) < next)
  }

  function VoteKey(v: Vote): nat { v.id }

  predicate VoteBefore(a: Vote, b: Vote) { a.id < b.id }

  function RoundKey(r: GameRound): nat { r.id }

  predicate RoundBefore(a: GameRound, b: GameRound) { a.id < b.id }

  function OfGame(game: nat): GameRound -> bool {
    (r: GameRound) => r.game == game
  }

  /** `get_game_by_code`: the first game whose code equals the upper-cased argument. */
  function GetGameByCode(games: seq<Game>, code: string): (r: Option<Game>)
    ensures r.None? <==> forall i :: 0 <= i < |games| ==> games[i].code != Upper(code)
    ensures r.Some? ==> r.value in games && r.value.code == Upper(code)
  {
    match FirstIndex(games, (g: Game) => g.code == Upper(code))
    case None => None
    case Some(k) => Some(games[k])
  }

  /** The lookup ignores the case of the code. */
  lemma GameLookupCaseInsensitive(games: seq<Game>, code: string)
    ensures GetGameByCode(games, code) == GetGameByCode(games, Upper(code))
  {
    UpperIdempotent(code);
  }

  /** `get_current_game_round`: the round of the game with the greatest count; None without rounds. */
  function GetCurrentGameRound(rounds: seq<GameRound>, game: nat): (r: Option<GameRound>)
    ensures r.None? <==> forall i :: 0 <= i < |rounds| ==> rounds[i].game != game
    ensures r.Some? ==> r.value in rounds && r.value.game == game
    ensures r.Some? ==> forall i :: 0 <= i < |rounds| && rounds[i].game == game ==> rounds[i].count <= r.value.count
  {
    if rounds == [] then None
    else
      var best := GetCurrentGameRound(rounds[..|rounds| - 1], game);
      var last := rounds[|rounds| - 1];
      if last.game != game then best
      else if best.Some? && best.value.count >= last.count then best
      else Some(last)
  }

  /** A round numbered above all earlier rounds of its game becomes the current round. */
  lemma NewRoundIsCurrent(rounds: seq<GameRound>, round: GameRound)
    requires forall i :: 0 <= i < |rounds| && rounds[i].game == round.game ==> rounds[i].count < round.count
    ensures GetCurrentGameRound(rounds + [round], round.game) == Some(round)
  {
    assert (rounds + [round])[..|rounds|] == rounds;
  }

  /** A round appended under a fresh key and an unused number keeps the table's uniqueness and key order. */
  lemma NewRoundKeepsTable(rounds: seq<GameRound>, next: nat, round: GameRound)
    requires UniqueRoundCounts(rounds) && KeysAscend(rounds, RoundBefore, RoundKey, next)
    requires round.id == next
    requires forall i :: 0 <= i < |rounds| ==> !(rounds[i].game == round.game && rounds[i].count == round.count)
    ensures UniqueRoundCounts(rounds + [round]) && KeysAscend(rounds + [round], RoundBefore, RoundKey, next + 1)
  {
    PairwiseAppend(rounds, round, CountsDiffer);
    PairwiseAppend(rounds, round, RoundBefore);
    assert (rounds + [round])[|rounds|] == round;
  }

  /** `get_player_by_session`. */
  function GetPlayerBySession(players: seq<Player>, game: nat, sessionKey: string): (r: Option<Player>)
    ensures r.None? <==> forall i :: 0 <= i < |players| ==> !(players[i].game == Some(game) && players[i].sessionKey == sessionKey)
    ensures r.Some? ==> r.value in players && r.value.game == Some(game) && r.value.sessionKey == sessionKey
  {
    match FirstIndex(players, (p: Player) => p.game == Some(game) && p.sessionKey == sessionKey)
    case None => None
    case Some(k) => Some(players[k])
  }

  /** `get_host_player`: the first player of the game flagged as host. */
  function GetHostPlayer(players: seq<Player>, game: nat): (r: Option<Player>)
    ensures r.None? <==> forall i :: 0 <= i < |players| ==> !(players[i].game == Some(game) && players[i].isHost)
    ensures r.Some? ==> r.value in players && r.value.game == Some(game) && r.value.isHost
  {
    match FirstIndex(players, (p: Player) => p.game == Some(game) && p.isHost)
    case None => None
    case Some(k) => Some(players[k])
  }

  /** `get_target_photo`: the first photo of the round marked as roast target. */
  function GetTargetPhoto(photos: seq<Photo>, round: nat): (r: Option<Photo>)
    ensures r.None? <==> forall i :: 0 <= i < |photos| ==> !(photos[i].round == round && photos[i].isRoastTarget)
    ensures r.Some? ==> r.value in photos && r.value.round == round && r.value.isRoastTarget
  {
    match FirstIndex(photos, (p: Photo) => p.round == round && p.isRoastTarget)
    case None => None
    case Some(k) => Some(photos[k])
  }

  /** `get_photo_uploaded_by_player`. */
  function GetPhotoUploadedByPlayer(photos: seq<Photo>, round: nat, player: nat): (r: Option<Photo>)
    ensures r.None? <==> forall i :: 0 <= i < |photos| ==> !(photos[i].round == round && photos[i].uploadedBy == player)
    ensures r.Some? ==> r.value in photos && r.value.round == round && r.value.uploadedBy == player
  {
    match FirstIndex(photos, (p: Photo) => p.round == round && p.uploadedBy == player)
    case None => None
    case Some(k) => Some(photos[k])
  }

  function RoastMatch(round: nat, roastId: nat): Roast -> bool {
    (x: Roast) => x.id == roastId && x.round == round
  }

  /** `get_roast_by_id`: the roast with that id among the round's roasts; raises otherwise. */
  function GetRoastById(roasts: seq<Roast>, round: nat, roastId: nat): (r: Result<Roast, DbError>)
    ensures r == Err(NotFound(DoesNotExist)) <==> forall i :: 0 <= i < |roasts| ==> !(roasts[i].id == roastId && roasts[i].round == round)
    ensures r.Ok? <==> CountWhere(roasts, RoastMatch(round, roastId)) == 1
    ensures r.Ok? ==> r.value in roasts && r.value.id == roastId && r.value.round == round
  {
    match Get(roasts, RoastMatch(round, roastId))
    case Ok(x) => Ok(x)
    case Err(e) => Err(NotFound(e))
  }

  function VoteMatch(roast: nat, submittedBy: nat, voteId: nat): Vote -> bool {
    (v: Vote) => v.id == voteId && v.roast == roast && v.submittedBy == submittedBy
  }

  /** `get_vote_by_id`: the vote with that id, only among the roast's votes submitted by that player. */
  function GetVoteById(votes: seq<Vote>, roast: nat, submittedBy: nat, voteId: nat): (r: Result<Vote, DbError>)
    ensures r.Ok? ==> r.value == Vote(voteId, roast, submittedBy) && r.value in votes
    ensures r == Err(NotFound(DoesNotExist)) <==> Vote(voteId, roast, submittedBy) !in votes
  {
    match Get(votes, VoteMatch(roast, submittedBy, voteId))
    case Ok(v) => Ok(v)
    case Err(e) => Err(NotFound(e))
  }

  /** With unique primary keys, the lookup succeeds exactly for a stored vote of that roast and player. */
  lemma VoteLookupExact(votes: seq<Vote>, next: nat, roast: nat, submittedBy: nat, voteId: nat)
    requires KeysAscend(votes, VoteBefore, VoteKey, next)
    ensures GetVoteById(votes, roast, submittedBy, voteId).Ok? <==> Vote(voteId, roast, submittedBy) in votes
  {
    var p := VoteMatch(roast, submittedBy, voteId);
    forall i, j | 0 <= i < j < |votes| && p(votes[i]) ensures !p(votes[j]) {
      assert VoteBefore(votes[i], votes[j]);
    }
    CountAtMostOne(votes, p);
  }

  /** A vote appended under a fresh key keeps keys ascending and can be looked up. */
  lemma NewVoteFound(votes: seq<Vote>, next: nat, v: Vote)
    requires KeysAscend(votes, VoteBefore, VoteKey, next) && v.id == next
    ensures KeysAscend(votes + [v], VoteBefore, VoteKey, next + 1)
    ensures GetVoteById(votes + [v], v.roast, v.submittedBy, v.id) == Ok(v)
  {
    PairwiseAppend(votes, v, VoteBefore);
    assert (votes + [v])[|votes|] == v;
    VoteLookupExact(votes + [v], next + 1, v.roast, v.submittedBy, v.id);
  }

  /** The test `delete_vote` keeps a vote by: its primary key is not the deleted one. */
  function OtherVote(voteId: nat): Vote -> bool {
    (v: Vote) => v.id != voteId
  }

  /** The votes left by `delete_vote`: every vote except the one with that primary key, in their old order. */
  function WithoutVote(votes: seq<Vote>, voteId: nat): (r: seq<Vote>)
    ensures forall v :: v in r <==> v in votes && v.id != voteId
  {
    Filter(votes, OtherVote(voteId))
  }

  /** After deletion the vote can no longer be looked up. */
  lemma DeletedVoteIsGone(votes: seq<Vote>, roast: nat, submittedBy: nat, voteId: nat)
    ensures GetVoteById(WithoutVote(votes, voteId), roast, submittedBy, voteId) == Err(NotFound(DoesNotExist))
  {
  }

  lemma StateChangeKeepsCodes(games: seq<Game>, k: nat, state: GameState)
    requires k < |games| && UniqueCodes(games)
    ensures UniqueCodes(games[k := games[k].(state := state)])
  {
    var after := games[k := games[k].(state := state)];
    forall i, j | 0 <= i < j < |after| ensures CodesDiffer(after[i], after[j]) {
      assert CodesDiffer(games[i], games[j]);
    }
  }

  lemma StageChangeKeepsRounds(rounds: seq<GameRound>, k: nat, stage: Stage, next: nat)
    requires k < |rounds| && UniqueRoundCounts(rounds) && KeysAscend(rounds, RoundBefore, RoundKey, next)
    ensures UniqueRoundCounts(rounds[k := rounds[k].(stage := stage)])
    ensures KeysAscend(rounds[k := rounds[k].(stage := stage)], RoundBefore, RoundKey, next)
  {
    var after := rounds[k := rounds[k].(stage := stage)];
    forall i, j | 0 <= i < j < |after| ensures CountsDiffer(after[i], after[j]) && RoundBefore(after[i], after[j]) {
      assert CountsDiffer(rounds[i], rounds[j]) && RoundBefore(rounds[i], rounds[j]);
    }
    assert forall i :: 0 <= i < |after| ==> RoundKey(after[i]) == RoundKey(rounds[i]);
  }

  lemma MarkKeepsUploads(photos: seq<Photo>, k: nat)
    requires k < |photos| && UniqueUploads(photos)
    ensures UniqueUploads(photos[k := photos[k].(isRoastTarget := true)])
  {
    var after := photos[k := photos[k].(isRoastTarget := true)];
    forall i, j | 0 <= i < j < |after| ensures UploadsDiffer(after[i], after[j]) {
      assert UploadsDiffer(photos[i], photos[j]);
    }
  }

  /** Keeping only some rows keeps keys ascending. */
  lemma FilterKeepsKeys<T>(rows: seq<T>, p: T -> bool, before: (T, T) -> bool, key: T -> nat, next: nat)
    requires KeysAscend(rows, before, key, next)
    ensures KeysAscend(Filter(rows, p), before, key, next)
  {
    FilterPairwise(rows, p, before);
    var r := Filter(rows, p);
    forall i | 0 <= i < |r| ensures key(r[i]) < next {
      var a :| 0 <= a < |rows| && rows[a] == r[i];
    }
  }

  function OtherRound(roundId: nat): GameRound -> bool {
    (r: GameRound) => r.id != roundId
  }

  function PhotoOfOtherRound(roundId: nat): Photo -> bool {
    (p: Photo) => p.round != roundId
  }

  function RoastOfOtherRound(roundId: nat): Roast -> bool {
    (x: Roast) => x.round != roundId
  }

  /** A vote survives the deletion of a round unless it is for one of that round's roasts. */
  function VoteOnKeptRoast(roasts: seq<Roast>, roundId: nat): Vote -> bool {
    (v: Vote) => forall i :: 0 <= i < |roasts| && roasts[i].id == v.roast ==> roasts[i].round != roundId
  }

  predicate HasRoundPhoto(photos: seq<Photo>, roundId: nat) {
    exists i :: 0 <= i < |photos| && photos[i].round == roundId
  }

  class Db {
    var games: seq<Game>
    var rounds: seq<GameRound>
    var players: seq<Player>
    var photos: seq<Photo>
    var roasts: seq<Roast>
    var votes: seq<Vote>
    var nextId: nat

    ghost predicate Valid()
      reads this
    {
      UniqueCodes(games) && UniqueRoundCounts(rounds) && UniqueSessions(players) &&
      UniqueUploads(photos) && UniqueVotes(votes) &&
      KeysAscend(votes, VoteBefore, VoteKey, nextId) && KeysAscend(rounds, RoundBefore, RoundKey, nextId)
    }

    constructor ()
      ensures Valid()
      ensures games == [] && rounds == [] && players == [] && photos == [] && roasts == [] && votes == []
    {
      games, rounds, players, photos, roasts, votes := [], [], [], [], [], [];
      nextId := 1;
    }

    /** `create_game`: a game WAITING_FOR_PLAYERS with a random four-letter code, which must be unused. */
    method CreateGame() returns (r: Result<Game, DbError>)
      requires Valid()
      modifies this`games, this`nextId
      ensures Valid()
      ensures r.Err? ==> r.error == IntegrityError && games == old(games)
      ensures r.Ok? ==> r.value.state == WaitingForPlayers && Converters.IsCanonicalCode(r.value.code)
      ensures r.Ok? ==> games == old(games) + [r.value] && forall g :: g in old(games) ==> g.code != r.value.code
    {
      assert Converters.IsCanonicalCode("AAAA");
      var code :| Converters.IsCanonicalCode(code);
      if exists g :: g in games && g.code == code {
        return Err(IntegrityError);
      }
      var g := Game(nextId, WaitingForPlayers, code);
      games := games + [g];
      nextId := nextId + 1;
      return Ok(g);
    }

    /**
     * `create_game_round`: saves the game as IN_PROGRESS, then creates a round
     * numbered one past the game's round count. The state change is saved
     * even when the insert then fails on (game, count).
     */
    method CreateGameRound(k: nat) returns (r: Result<GameRound, DbError>)
      requires Valid()
      requires k < |games|
      modifies this`games, this`rounds, this`nextId
      ensures Valid()
      ensures games == old(games)[k := old(games)[k].(state := InProgress)]
      ensures r.Err? <==> exists i :: (0 <= i < |old(rounds)| && old(rounds)[i].game == old(games)[k].id &&
        old(rounds)[i].count == CountWhere(old(rounds), OfGame(old(games)[k].id)) + 1)
      ensures r.Err? ==> r.error == IntegrityError && rounds == old(rounds)
      ensures r.Ok? ==> r.value.game == games[k].id && r.value.stage == UploadPhoto
      ensures r.Ok? ==> r.value.count == CountWhere(old(rounds), OfGame(games[k].id)) + 1
      ensures r.Ok? ==> rounds == old(rounds) + [r.value]
    {
      StateChangeKeepsCodes(games, k, InProgress);
      games := games[k := games[k].(state := InProgress)];
      var game := games[k].id;
      var count := CountWhere(rounds, OfGame(game)) + 1;
      if exists i :: 0 <= i < |rounds| && rounds[i].game == game && rounds[i].count == count {
        return Err(IntegrityError);
      }
      var round := GameRound(nextId, game, count, UploadPhoto);
      NewRoundKeepsTable(rounds, nextId, round);
      rounds := rounds + [round];
      nextId := nextId + 1;
      return Ok(round);
    }

    method InsertPlayer(game: nat, name: string, avatar: int, sessionKey: string, isHost: bool) returns (r: Result<Player, DbError>)
      requires Valid()
      modifies this`players, this`nextId
      ensures Valid()
      ensures r.Err? <==> GetPlayerBySession(old(players), game, sessionKey).Some?
      ensures r.Err? ==> r.error == IntegrityError && players == old(players)
      ensures r.Ok? ==> r.value == Player(old(nextId), Some(game), sessionKey, name, avatar, isHost) && players == old(players) + [r.value]
    {
      if GetPlayerBySession(players, game, sessionKey).Some? {
        return Err(IntegrityError);
      }
      var p := Player(nextId, Some(game), sessionKey, name, avatar, isHost);
      players := players + [p];
      nextId := nextId + 1;
      return Ok(p);
    }

    /** `create_player`: a player of the game, not host; a session key already in the game is rejected. */
    method CreatePlayer(game: nat, name: string, avatar: int, sessionKey: string) returns (r: Result<Player, DbError>)
      requires Valid()
      modifies this`players, this`nextId
      ensures Valid()
      ensures r.Err? <==> GetPlayerBySession(old(players), game, sessionKey).Some?
      ensures r.Ok? ==> !r.value.isHost && r.value.game == Some(game) && r.value.sessionKey == sessionKey
      ensures r.Ok? ==> players == old(players) + [r.value]
      ensures r.Err? ==> players == old(players)
    {
      r := InsertPlayer(game, name, avatar, sessionKey, false);
    }

    /** `create_host_player`: the same, with `is_host` set. */
    method CreateHostPlayer(game: nat, name: string, avatar: int, sessionKey: string) returns (r: Result<Player, DbError>)
      requires Valid()
      modifies this`players, this`nextId
      ensures Valid()
      ensures r.Err? <==> GetPlayerBySession(old(players), game, sessionKey).Some?
      ensures r.Ok? ==> r.value.isHost && r.value.game == Some(game) && r.value.sessionKey == sessionKey
      ensures r.Ok? ==> players == old(players) + [r.value]
      ensures r.Err? ==> players == old(players)
    {
      r := InsertPlayer(game, name, avatar, sessionKey, true);
    }

    /**
     * `create_photo`: a photo of the round by the player under the cache key
     * `photo:<uuid>`; a second photo of the player in the round, or a key
     * already used, is rejected.
     */
    method CreatePhoto(round: nat, player: nat, uuid: string) returns (r: Result<Photo, DbError>)
      requires Valid()
      modifies this`photos, this`nextId
      ensures Valid()
      ensures r.Err? <==> (GetPhotoUploadedByPlayer(old(photos), round, player).Some? ||
        exists i :: 0 <= i < |old(photos)| && old(photos)[i].cacheKey == "photo:" + uuid)
      ensures r.Err? ==> r.error == IntegrityError && photos == old(photos)
      ensures r.Ok? ==> r.value == Photo(old(nextId), round, player, "photo:" + uuid, false, None)
      ensures r.Ok? ==> photos == old(photos) + [r.value]
    {
      var key := "photo:" + uuid;
      if GetPhotoUploadedByPlayer(photos, round, player).Some? || exists i :: 0 <= i < |photos| && photos[i].cacheKey == key {
        return Err(IntegrityError);
      }
      var p := Photo(nextId, round, player, key, false, None);
      photos := photos + [p];
      nextId := nextId + 1;
      return Ok(p);
    }

    /** `game_round.roasts.acreate(text=...)`. */
    method CreateRoast(round: nat, text: Option<string>) returns (roast: Roast)
      requires Valid()
      modifies this`roasts, this`nextId
      ensures Valid()
      ensures roast == Roast(old(nextId), round, text) && roasts == old(roasts) + [roast]
      ensures nextId > old(nextId)
    {
      roast := Roast(nextId, round, text);
      roasts := roasts + [roast];
      nextId := nextId + 1;
    }

    /** `create_vote`: one vote per (roast, player); a second one is rejected. */
    method CreateVote(roast: nat, submittedBy: nat) returns (r: Result<Vote, DbError>)
      requires Valid()
      modifies this`votes, this`nextId
      ensures Valid()
      ensures r.Err? <==> exists v :: v in old(votes) && v.roast == roast && v.submittedBy == submittedBy
      ensures r.Err? ==> r.error == IntegrityError && votes == old(votes)
      ensures r.Ok? ==> r.value == Vote(old(nextId), roast, submittedBy) && votes == old(votes) + [r.value]
      ensures r.Ok? ==> GetVoteById(votes, roast, submittedBy, r.value.id) == Ok(r.value)
    {
      if exists v :: v in votes && v.roast == roast && v.submittedBy == submittedBy {
        return Err(IntegrityError);
      }
      var v := Vote(nextId, roast, submittedBy);
      NewVoteFound(votes, nextId, v);
      votes := votes + [v];
      nextId := nextId + 1;
      return Ok(v);
    }

    /** `delete_vote`: removes the vote with that primary key and leaves every other vote in place. */
    method DeleteVote(voteId: nat)
      requires Valid()
      modifies this`votes
      ensures Valid()
      ensures votes == WithoutVote(old(votes), voteId)
      ensures forall v :: v in old(votes) && v.id != voteId ==> v in votes
      ensures forall v :: v in votes ==> v.id != voteId
    {
      FilterPairwise(votes, OtherVote(voteId), VotesDiffer);
      FilterKeepsKeys(votes, OtherVote(voteId), VoteBefore, VoteKey, nextId);
      votes := WithoutVote(votes, voteId);
    }

    /** `game_round.stage = ...; game_round.asave()`. */
    method SaveStage(k: nat, stage: Stage)
      requires Valid()
      requires k < |rounds|
      modifies this`rounds
      ensures Valid()
      ensures rounds == old(rounds)[k := old(rounds)[k].(stage := stage)]
    {
      StageChangeKeepsRounds(rounds, k, stage, nextId);
      rounds := rounds[k := rounds[k].(stage := stage)];
    }

    /** `photo.is_roast_target = True; photo.asave()`. */
    method MarkTarget(k: nat)
      requires Valid()
      requires k < |photos|
      modifies this`photos
      ensures Valid()
      ensures photos == old(photos)[k := old(photos)[k].(isRoastTarget := true)]
    {
      MarkKeepsUploads(photos, k);
      photos := photos[k := photos[k].(isRoastTarget := true)];
    }

    /**
     * Deleting a round: the database cascades to its photos, its roasts and
     * the votes for those roasts; every other row stays.
     */
    method DeleteRound(roundId: nat)
      requires Valid()
      modifies this`rounds, this`photos, this`roasts, this`votes
      ensures Valid()
      ensures rounds == Filter(old(rounds), OtherRound(roundId))
      ensures photos == Filter(old(photos), PhotoOfOtherRound(roundId))
      ensures roasts == Filter(old(roasts), RoastOfOtherRound(roundId))
      ensures votes == Filter(old(votes), VoteOnKeptRoast(old(roasts), roundId))
      ensures !HasRoundPhoto(photos, roundId)
      ensures forall i :: 0 <= i < |rounds| ==> rounds[i].id != roundId
      ensures forall i :: 0 <= i < |roasts| ==> roasts[i].round != roundId
    {
      DeleteVotesOfRound(roundId);
      DeleteRoastsOfRound(roundId);
      DeletePhotosOfRound(roundId);
      DeleteRoundRow(roundId);
    }

    method DeleteVotesOfRound(roundId: nat)
      requires Valid()
      modifies this`votes
      ensures Valid()
      ensures votes == Filter(old(votes), VoteOnKeptRoast(roasts, roundId))
    {
      FilterPairwise(votes, VoteOnKeptRoast(roasts, roundId), VotesDiffer);
      FilterKeepsKeys(votes, VoteOnKeptRoast(roasts, roundId), VoteBefore, VoteKey, nextId);
      votes := Filter(votes, VoteOnKeptRoast(roasts, roundId));
    }

    method DeleteRoastsOfRound(roundId: nat)
      requires Valid()
      modifies this`roasts
      ensures Valid()
      ensures roasts == Filter(old(roasts), RoastOfOtherRound(roundId))
      ensures forall i :: 0 <= i < |roasts| ==> roasts[i].round != roundId
    {
      var kept := Filter(roasts, RoastOfOtherRound(roundId));
      assert forall i :: 0 <= i < |kept| ==> RoastOfOtherRound(roundId)(kept[i]);
      roasts := kept;
    }

    method DeletePhotosOfRound(roundId: nat)
      requires Valid()
      modifies this`photos
      ensures Valid()
      ensures photos == Filter(old(photos), PhotoOfOtherRound(roundId))
      ensures !HasRoundPhoto(photos, roundId)
    {
      FilterPairwise(photos, PhotoOfOtherRound(roundId), UploadsDiffer);
      var kept := Filter(photos, PhotoOfOtherRound(roundId));
      assert forall i :: 0 <= i < |kept| ==> PhotoOfOtherRound(roundId)(kept[i]);
      photos := kept;
    }

    method DeleteRoundRow(roundId: nat)
      requires Valid()
      modifies this`rounds
      ensures Valid()
      ensures rounds == Filter(old(rounds), OtherRound(roundId))
      ensures forall i :: 0 <= i < |rounds| ==> rounds[i].id != roundId
    {
      FilterPairwise(rounds, OtherRound(roundId), CountsDiffer);
      FilterKeepsKeys(rounds, OtherRound(roundId), RoundBefore, RoundKey, nextId);
      var kept := Filter(rounds, OtherRound(roundId));
      assert forall i :: 0 <= i < |kept| ==> OtherRound(roundId)(kept[i]);
      rounds := kept;
    }
  }
}
