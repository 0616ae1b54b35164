/**
 * The Django data model of the round-based iteration (main/games/models.py):
 * games, numbered rounds with timed states, players, photos and roast pieces.
 * Every save runs full validation first (field rules, `clean`, uniqueness),
 * so each creating or saving operation either stores a valid row or fails
 * with a ValidationError and stores nothing. Times are integers in microseconds.
 */
module LegacyModels {
  import opened Wrappers
  import opened Counting

  /** `Round.State`. */
  datatype RoundState = SubmitPhotos | ShowTarget | SubmitRoasts | ShowRoast

  /** `Round.TIME_LIMITS`, in seconds. */
  function TimeLimit(state: RoundState): nat {
    match state
    case SubmitPhotos => 60
    case ShowTarget => 10
    case SubmitRoasts => 180
    case ShowRoast => 30
  }

  /** `seconds_total`. */
  function SecondsTotal(state: RoundState): nat {
    TimeLimit(state)
  }

  lemma TimeLimits()
    ensures SecondsTotal(SubmitPhotos) == 60 && SecondsTotal(ShowTarget) == 10
    ensures SecondsTotal(SubmitRoasts) == 180 && SecondsTotal(ShowRoast) == 30
  {
  }

  const MicrosPerSecond: int := 1_000_000
  const SecondsPerDay: int := 86400

  /** Whole seconds elapsed since `updatedAt`, rounded down as Python's timedelta does. */
  function ElapsedSeconds(updatedAt: int, now: int): int {
    (now - updatedAt) / MicrosPerSecond
  }

  /** `(now - updated_at).seconds`: the seconds part of the timedelta, whole days dropped. */
  function SecondsField(updatedAt: int, now: int): (s: int)
    ensures 0 <= s < SecondsPerDay
    ensures 0 <= ElapsedSeconds(updatedAt, now) < SecondsPerDay ==> s == ElapsedSeconds(updatedAt, now)
  {
    ElapsedSeconds(updatedAt, now) % SecondsPerDay
  }

  /** The time left in the round's state: the limit minus the elapsed seconds, never below zero. */
  function SecondsLeft(state: RoundState, updatedAt: int, now: int): (r: nat)
    ensures r <= SecondsTotal(state)
    ensures r == 0 <==> ElapsedSeconds(updatedAt, now) >= SecondsTotal(state)
    ensures 0 <= ElapsedSeconds(updatedAt, now) < SecondsTotal(state) ==> r == SecondsTotal(state) - ElapsedSeconds(updatedAt, now)
  {
    var elapsed := ElapsedSeconds(updatedAt, now);
    if elapsed >= SecondsTotal(state) then 0
    else if elapsed < 0 then SecondsTotal(state)
    else SecondsTotal(state) - elapsed
  }

  /** `seconds_left` as written: it subtracts `elapsed.seconds`, which restarts from zero every day. */
  function SecondsLeftAsWritten(state: RoundState, updatedAt: int, now: int): (r: nat)
    ensures r <= SecondsTotal(state)
    ensures 0 <= now - updatedAt < SecondsPerDay * MicrosPerSecond ==> r == SecondsLeft(state, updatedAt, now)
  {
    var elapsed := SecondsField(updatedAt, now);
    if SecondsTotal(state) - elapsed > 0 then SecondsTotal(state) - elapsed else 0
  }

  lemma DivMonotone(a: int, b: int)
    requires a <= b
    ensures a / MicrosPerSecond <= b / MicrosPerSecond
  {
  }

  /** The time left never grows as the clock advances, so once zero it stays zero. */
  lemma SecondsLeftNeverIncreases(state: RoundState, updatedAt: int, t1: int, t2: int)
    requires t1 <= t2
    ensures SecondsLeft(state, updatedAt, t2) <= SecondsLeft(state, updatedAt, t1)
  {
    DivMonotone(t1 - updatedAt, t2 - updatedAt);
  }

  /** As written, a state past its limit shows time left again a day later. */
  lemma SecondsLeftAsWrittenRestartsAfterADay()
    ensures SecondsLeftAsWritten(SubmitPhotos, 0, 61 * MicrosPerSecond) == 0
    ensures SecondsLeftAsWritten(SubmitPhotos, 0, 86405 * MicrosPerSecond) == 55
    ensures SecondsLeft(SubmitPhotos, 0, 86405 * MicrosPerSecond) == 0
  {
  }

  datatype Game = Game(id: nat, code: string, isActive: bool)

  datatype Round = Round(id: nat, game: nat, count: int, state: RoundState, updatedAt: int)

  datatype Player = Player(id: nat, game: Option<nat>, sessionId: string, name: string, avatar: int, hp: int, isHost: bool)

  datatype Photo = Photo(id: nat, round: nat, player: nat, isRoastTarget: bool, imageSize: nat)

  datatype RoastPiece = RoastPiece(id: nat, player: nat, round: nat, game: nat, text: string)

  /** ValidationError from `full_clean`, the errors of `.get()`, and AttributeError on None. */
  datatype ModelError = ValidationError | LookupFailed(reason: GetError) | NoneAttribute

  /** `10 * 1024 * 1024` bytes, the largest image `Photo.clean` accepts. */
  const MaxImageSize: nat := 10 * 1024 * 1024

  /** `number_of_rounds`. */
  function NumberOfRounds(rounds: seq<Round>, game: nat): nat {
    CountWhere(rounds, (r: Round) => r.game == game)
  }

  function WithCount(game: nat, count: int): Round -> bool {
    (r: Round) => r.game == game && r.count == count
  }

  predicate HasRound(rounds: seq<Round>, game: nat, count: int) {
    exists i :: 0 <= i < |rounds| && rounds[i].game == game && rounds[i].count == count
  }

  /** `unique_together = ['game', 'count']`. */
  predicate UniqueRoundCounts(rounds: seq<Round>) {
    forall i, j :: 0 <= i < j < |rounds| ==> (rounds[i].game, rounds[i].count) != (rounds[j].game, rounds[j].count)
  }

  /** Every game with n rounds has rounds numbered 1 to n. */
  ghost predicate RoundsNumbered(rounds: seq<Round>) {
    forall game: nat, k: int :: 1 <= k <= NumberOfRounds(rounds, game) ==> HasRound(rounds, game, k)
  }

  /**
   * `current_round`: None for a game without rounds, otherwise
   * `rounds.get(count=number_of_rounds)`, which raises when no round, or more
   * than one, carries that number.
   */
  function CurrentRound(rounds: seq<Round>, game: nat): (r: Result<Option<Round>, ModelError>)
    ensures r == Ok(None) <==> NumberOfRounds(rounds, game) == 0
    ensures r.Ok? && r.value.Some? ==>
      r.value.value in rounds && r.value.value.game == game && r.value.value.count == NumberOfRounds(rounds, game)
    ensures r == Err(LookupFailed(DoesNotExist)) <==> NumberOfRounds(rounds, game) > 0 && !HasRound(rounds, game, NumberOfRounds(rounds, game))
    ensures r.Err? ==> r.error.LookupFailed?
  {
    var n := NumberOfRounds(rounds, game);
    if n == 0 then Ok(None)
    else match Get(rounds, WithCount(game, n))
      case Ok(x) => Ok(Some(x))
      case Err(e) => Err(LookupFailed(e))
  }

  /** In a store whose rounds are numbered and unique per game, a game with rounds has a current round: its latest. */
  lemma CurrentRoundIsLatest(rounds: seq<Round>, game: nat)
    requires RoundsNumbered(rounds) && UniqueRoundCounts(rounds)
    requires NumberOfRounds(rounds, game) > 0
    ensures CurrentRound(rounds, game).Ok? && CurrentRound(rounds, game).value.Some?
  {
    var n := NumberOfRounds(rounds, game);
    assert HasRound(rounds, game, n);
    CountAtMostOne(rounds, WithCount(game, n));
  }

  /** `is_lobby`: the game has no rounds yet, which is exactly when it has no current round. */
  function IsLobby(rounds: seq<Round>, game: nat): (b: bool)
    ensures b <==> CurrentRound(rounds, game) == Ok(None)
    ensures b <==> forall i :: 0 <= i < |rounds| ==> rounds[i].game != game
  {
    NumberOfRounds(rounds, game) == 0
  }

  lemma {:induction false} NumberOfRoundsAppend(rounds: seq<Round>, r: Round, game: nat)
    ensures NumberOfRounds(rounds + [r], game) == NumberOfRounds(rounds, game) + if r.game == game then 1 else 0
  {
    assert (rounds + [r])[..|rounds|] == rounds;
  }

  /** `target_photo`: the first photo of the round marked as roast target, if any. */
  function TargetPhoto(photos: seq<Photo>, round: nat): (r: Option<Photo>)
    ensures r.None? <==> forall i :: 0 <= i < |photos| ==> !(photos[i].round == round && photos[i].isRoastTarget)
    ensures r.Some? ==> r.value.round == round && r.value.isRoastTarget
    ensures r.Some? ==> exists k :: 0 <= k < |photos| && photos[k] == r.value && FlaggedBefore(photos, round, k) == false
  {
    match FirstIndex(photos, (p: Photo) => p.round == round && p.isRoastTarget)
    case None => None
    case Some(k) => Some(photos[k])
  }

  /** Some photo of the round before position k is marked as target. */
  predicate FlaggedBefore(photos: seq<Photo>, round: nat, k: nat)
    requires k <= |photos|
  {
    exists j :: 0 <= j < k && photos[j].round == round && photos[j].isRoastTarget
  }

  /** `unique_together = ['round', 'player']` on photos. */
  predicate UniquePhotos(photos: seq<Photo>) {
    forall i, j :: 0 <= i < j < |photos| ==> (photos[i].round, photos[i].player) != (photos[j].round, photos[j].player)
  }

  function PhotoCount(photos: seq<Photo>, player: nat, round: nat): nat {
    CountWhere(photos, (p: Photo) => p.player == player && p.round == round)
  }

  predicate HasPhoto(photos: seq<Photo>, player: nat, round: nat) {
    exists k :: 0 <= k < |photos| && photos[k].player == player && photos[k].round == round
  }

  /** `game.players.filter(photos__round=round).count()`: one row per (player, photo) pair of the join. */
  function UploadedCount(players: seq<Player>, photos: seq<Photo>, round: Round): nat {
    if players == [] then 0
    else
      var p := players[|players| - 1];
      UploadedCount(players[..|players| - 1], photos, round) + if p.game == Some(round.game) then PhotoCount(photos, p.id, round.id) else 0
  }

  /** `game.players.count()`. */
  function GamePlayerCount(players: seq<Player>, game: nat): nat {
    CountWhere(players, (p: Player) => p.game == Some(game))
  }

  /** `Round.clean`: entering SHOW_TARGET needs the join count to equal the player count. */
  predicate RoundCleanPasses(round: Round, players: seq<Player>, photos: seq<Photo>) {
    round.state != ShowTarget || UploadedCount(players, photos, round) == GamePlayerCount(players, round.game)
  }

  predicate AllPlayersUploaded(players: seq<Player>, photos: seq<Photo>, round: Round) {
    forall i :: 0 <= i < |players| && players[i].game == Some(round.game) ==> HasPhoto(photos, players[i].id, round.id)
  }

  lemma {:induction false} UploadedCountMatches(players: seq<Player>, photos: seq<Photo>, round: Round)
    requires UniquePhotos(photos)
    ensures UploadedCount(players, photos, round) <= GamePlayerCount(players, round.game)
    ensures UploadedCount(players, photos, round) == GamePlayerCount(players, round.game) <==> AllPlayersUploaded(players, photos, round)
    decreases |players|
  {
    if players != [] {
      var n := |players| - 1;
      var front := players[..n];
      UploadedCountMatches(front, photos, round);
      var p := players[n];
      if p.game == Some(round.game) {
        CountAtMostOne(photos, (q: Photo) => q.player == p.id && q.round == round.id);
        assert PhotoCount(photos, p.id, round.id) > 0 <==> HasPhoto(photos, p.id, round.id);
      }
      assert forall i :: 0 <= i < n ==> front[i] == players[i];
    }
  }

  /** With at most one photo per (round, player), the SHOW_TARGET check passes exactly when every player of the game has uploaded. */
  lemma ShowTargetNeedsEveryPhoto(round: Round, players: seq<Player>, photos: seq<Photo>)
    requires UniquePhotos(photos)
    ensures RoundCleanPasses(round, players, photos) <==> round.state != ShowTarget || AllPlayersUploaded(players, photos, round)
  {
    UploadedCountMatches(players, photos, round);
  }

  /** `Player` field validation: name of 3 to 32 characters, avatar among the choices 1 to 8, a non-blank session id of at most 32. */
  predicate PlayerFieldsValid(name: string, avatar: int, sessionId: string) {
    3 <= |name| <= 32 && 1 <= avatar <= 8 && 1 <= |sessionId| <= 32
  }

  /** `unique_together = ['game', 'session_id']`; rows without a game never clash. */
  predicate UniqueSessions(players: seq<Player>) {
    forall i, j :: 0 <= i < j < |players| && players[i].game.Some? ==>
      (players[i].game, players[i].sessionId) != (players[j].game, players[j].sessionId)
  }

  predicate SessionTaken(players: seq<Player>, game: nat, sessionId: string) {
    exists p :: p in players && p.game == Some(game) && p.sessionId == sessionId
  }

  /** The pieces `add_roast_pieces` stores: one per snippet up to the first blank one. */
  function StoredPieces(snippets: seq<string>, firstId: nat, player: nat, round: nat, game: nat): (r: seq<RoastPiece>)
    ensures |r| <= |snippets|
    ensures forall i :: 0 <= i < |r| ==> r[i] == RoastPiece(firstId + i, player, round, game, snippets[i]) && snippets[i] != ""
    ensures |r| < |snippets| ==> snippets[|r|] == ""
  {
    if snippets == [] || snippets[0] == "" then []
    else [RoastPiece(firstId, player, round, game, snippets[0])] + StoredPieces(snippets[1..], firstId + 1, player, round, game)
  }

  class LegacyDb {
    var games: seq<Game>
    var rounds: seq<Round>
    var players: seq<Player>
    var photos: seq<Photo>
    var pieces: seq<RoastPiece>
    var nextId: nat

    ghost predicate Valid()
      reads this
    {
      RoundsNumbered(rounds) && UniqueRoundCounts(rounds) && UniquePhotos(photos) && UniqueSessions(players) &&
      (forall k :: 0 <= k < |photos| ==> photos[k].imageSize <= MaxImageSize)
    }

    predicate GameExists(game: nat)
      reads this
    {
      exists g :: g in games && g.id == game
    }

    constructor ()
      ensures Valid()
      ensures games == [] && rounds == [] && players == [] && photos == [] && pieces == []
    {
      games, rounds, players, photos, pieces := [], [], [], [], [];
      nextId := 1;
    }

    /** `start_round`: a round numbered one past the game's round count, in SUBMIT_PHOTOS. */
    method StartRound(game: nat, now: int) returns (r: Result<Round, ModelError>)
      requires Valid()
      modifies this`rounds, this`nextId
      ensures Valid()
      ensures r.Err? <==> !GameExists(game) || HasRound(old(rounds), game, NumberOfRounds(old(rounds), game) + 1)
      ensures r.Err? ==> r.error == ValidationError && rounds == old(rounds)
      ensures r.Ok? ==> r.value.game == game && r.value.count == NumberOfRounds(old(rounds), game) + 1 && r.value.state == SubmitPhotos
      ensures r.Ok? ==> rounds == old(rounds) + [r.value] && NumberOfRounds(rounds, game) == r.value.count
    {
      var n := NumberOfRounds(rounds, game);
      if !GameExists(game) || HasRound(rounds, game, n + 1) {
        return Err(ValidationError);
      }
      var round := Round(nextId, game, n + 1, SubmitPhotos, now);
      forall g: nat ensures NumberOfRounds(rounds + [round], g) == NumberOfRounds(rounds, g) + if g == game then 1 else 0 {
        NumberOfRoundsAppend(rounds, round, g);
      }
      assert forall g: nat, k: int :: HasRound(rounds, g, k) ==> HasRound(rounds + [round], g, k) by {
        forall g: nat, k: int | HasRound(rounds, g, k) ensures HasRound(rounds + [round], g, k) {
          var i :| 0 <= i < |rounds| && rounds[i].game == g && rounds[i].count == k;
          assert (rounds + [round])[i] == rounds[i];
        }
      }
      assert (rounds + [round])[|rounds|] == round;
      rounds := rounds + [round];
      nextId := nextId + 1;
      return Ok(round);
    }

    /** `add_player`: a new non-host player with 3 hit points, after field and uniqueness validation. */
    method AddPlayer(game: nat, name: string, avatar: int, sessionId: string) returns (r: Result<Player, ModelError>)
      requires Valid()
      modifies this`players, this`nextId
      ensures Valid()
      ensures r.Err? <==> !GameExists(game) || !PlayerFieldsValid(name, avatar, sessionId) || SessionTaken(old(players), game, sessionId)
      ensures r.Err? ==> r.error == ValidationError && players == old(players)
      ensures r.Ok? ==> r.value == Player(old(nextId), Some(game), sessionId, name, avatar, 3, false) && players == old(players) + [r.value]
    {
      if !GameExists(game) || !PlayerFieldsValid(name, avatar, sessionId) || SessionTaken(players, game, sessionId) {
        return Err(ValidationError);
      }
      var p := Player(nextId, Some(game), sessionId, name, avatar, 3, false);
      players := players + [p];
      nextId := nextId + 1;
      return Ok(p);
    }

    /**
     * `add_photo`: a photo of the player's game's current round. A player
     * without a game fails on the attribute lookup; a game without rounds
     * leaves the round empty, which validation rejects, as it rejects an image
     * over 10 MB and a second photo of the same player in the round.
     */
    method AddPhoto(player: Player, imageSize: nat) returns (r: Result<Photo, ModelError>)
      requires Valid()
      modifies this`photos, this`nextId
      ensures Valid()
      ensures r.Err? ==> photos == old(photos)
      ensures player.game.None? ==> r == Err(NoneAttribute)
      ensures player.game.Some? && CurrentRound(rounds, player.game.value) == Ok(None) ==> r == Err(ValidationError)
      ensures r.Ok? ==> player.game.Some? && CurrentRound(rounds, player.game.value).Ok? && CurrentRound(rounds, player.game.value).value.Some?
      ensures r.Ok? ==> r.value.round == CurrentRound(rounds, player.game.value).value.value.id
      ensures r.Ok? ==> r.value.player == player.id && !r.value.isRoastTarget && r.value.imageSize == imageSize
      ensures r.Ok? ==> imageSize <= MaxImageSize && !HasPhoto(old(photos), player.id, r.value.round)
      ensures r.Ok? ==> photos == old(photos) + [r.value]
      ensures player.game.Some? && CurrentRound(rounds, player.game.value).Ok? && CurrentRound(rounds, player.game.value).value.Some? ==>
        (r.Ok? <==> imageSize <= MaxImageSize && !HasPhoto(old(photos), player.id, CurrentRound(rounds, player.game.value).value.value.id))
    {
      if player.game.None? {
        return Err(NoneAttribute);
      }
      var current := CurrentRound(rounds, player.game.value);
      if current.Err? {
        return Err(current.error);
      }
      if current.value.None? || imageSize > MaxImageSize || HasPhoto(photos, player.id, current.value.value.id) {
        return Err(ValidationError);
      }
      var photo := Photo(nextId, current.value.value.id, player.id, false, imageSize);
      photos := photos + [photo];
      nextId := nextId + 1;
      return Ok(photo);
    }

    /** `pick_target_photo`: marks one photo of the round, chosen at random, as roast target. */
    method PickTargetPhoto(round: nat) returns (r: Result<Photo, ModelError>)
      requires Valid()
      modifies this`photos
      ensures Valid()
      ensures r.Err? <==> forall k :: 0 <= k < |old(photos)| ==> old(photos)[k].round != round
      ensures r.Err? ==> r.error == NoneAttribute && photos == old(photos)
      ensures r.Ok? ==> exists k :: (0 <= k < |old(photos)| && old(photos)[k].round == round &&
        r.value == old(photos)[k].(isRoastTarget := true) && photos == old(photos)[k := r.value])
      ensures r.Ok? ==> TargetPhoto(photos, round).Some?
    {
      if forall k :: 0 <= k < |photos| ==> photos[k].round != round {
        return Err(NoneAttribute);
      }
      var k :| 0 <= k < |photos| && photos[k].round == round;
      var target := photos[k].(isRoastTarget := true);
      photos := photos[k := target];
      assert photos[k].round == round && photos[k].isRoastTarget;
      return Ok(target);
    }

    /** `Round.save()` with a new state: validation rejects SHOW_TARGET unless every player has uploaded; `updated_at` becomes now. */
    method SaveRoundState(k: nat, state: RoundState, now: int) returns (r: Result<Round, ModelError>)
      requires Valid()
      requires k < |rounds|
      modifies this`rounds
      ensures Valid()
      ensures r.Err? <==> !RoundCleanPasses(old(rounds)[k].(state := state), players, photos)
      ensures r.Err? ==> r.error == ValidationError && rounds == old(rounds)
      ensures r.Ok? ==> r.value == old(rounds)[k].(state := state, updatedAt := now) && rounds == old(rounds)[k := r.value]
      ensures r.Ok? && state == ShowTarget ==> AllPlayersUploaded(players, photos, r.value)
    {
      var updated := rounds[k].(state := state, updatedAt := now);
      ShowTargetNeedsEveryPhoto(rounds[k].(state := state), players, photos);
      ShowTargetNeedsEveryPhoto(updated, players, photos);
      if !RoundCleanPasses(rounds[k].(state := state), players, photos) {
        return Err(ValidationError);
      }
      ghost var before := rounds;
      rounds := rounds[k := updated];
      forall g: nat ensures NumberOfRounds(rounds, g) == NumberOfRounds(before, g) {
        SameGamesSameCounts(before, rounds, g);
      }
      assert forall g: nat, c: int :: HasRound(before, g, c) ==> HasRound(rounds, g, c) by {
        forall g: nat, c: int | HasRound(before, g, c) ensures HasRound(rounds, g, c) {
          var i :| 0 <= i < |before| && before[i].game == g && before[i].count == c;
          assert rounds[i].game == g && rounds[i].count == c;
        }
      }
      return Ok(updated);
    }

    /**
     * `add_roast_pieces`: one piece per snippet, in order, for the player's
     * current round. A blank snippet fails validation and ends the loop; the
     * pieces stored before it remain.
     */
    method AddRoastPieces(player: Player, snippets: seq<string>) returns (r: Result<(), ModelError>)
      requires Valid()
      modifies this`pieces, this`nextId
      ensures Valid()
      ensures snippets == [] ==> r.Ok? && pieces == old(pieces)
      ensures snippets != [] && player.game.None? ==> r == Err(NoneAttribute) && pieces == old(pieces)
      ensures snippets != [] && player.game.Some? && CurrentRound(rounds, player.game.value) == Ok(None) ==>
        r == Err(ValidationError) && pieces == old(pieces)
      ensures snippets != [] && player.game.Some? && CurrentRound(rounds, player.game.value).Ok? && CurrentRound(rounds, player.game.value).value.Some? ==>
        var round := CurrentRound(rounds, player.game.value).value.value;
        var stored := StoredPieces(snippets, old(nextId), player.id, round.id, player.game.value);
        pieces == old(pieces) + stored && (r.Ok? <==> |stored| == |snippets|) && (r.Err? ==> r.error == ValidationError)
    {
      if snippets == [] {
        return Ok(());
      }
      if player.game.None? {
        return Err(NoneAttribute);
      }
      var game := player.game.value;
      var current := CurrentRound(rounds, game);
      if current.Err? {
        return Err(current.error);
      }
      if current.value.None? {
        return Err(ValidationError);
      }
      r := StorePieces(player.id, current.value.value.id, game, snippets);
    }

    /** The loop of `add_roast_pieces` once the round is known. */
    method StorePieces(player: nat, round: nat, game: nat, snippets: seq<string>) returns (r: Result<(), ModelError>)
      requires Valid()
      modifies this`pieces, this`nextId
      ensures Valid()
      ensures pieces == old(pieces) + StoredPieces(snippets, old(nextId), player, round, game)
      ensures r.Ok? <==> |StoredPieces(snippets, old(nextId), player, round, game)| == |snippets|
      ensures r.Err? ==> r.error == ValidationError
    {
      ghost var stored := StoredPieces(snippets, nextId, player, round, game);
      ghost var firstId := nextId;
      var i := 0;
      while i < |snippets|
        invariant 0 <= i <= |stored|
        invariant nextId == firstId + i
        invariant pieces == old(pieces) + stored[..i]
      {
        if snippets[i] == "" {
          assert i == |stored|;
          assert stored[..i] == stored;
          return Err(ValidationError);
        }
        assert i < |stored|;
        assert stored[..i + 1] == stored[..i] + [RoastPiece(nextId, player, round, game, snippets[i])];
        pieces := pieces + [RoastPiece(nextId, player, round, game, snippets[i])];
        nextId := nextId + 1;
        i := i + 1;
      }
      assert stored[..i] == stored;
      return Ok(());
    }
  }

  lemma {:induction false} SameGamesSameCounts(a: seq<Round>, b: seq<Round>, game: nat)
    requires |a| == |b| && forall i :: 0 <= i < |a| ==> a[i].game == b[i].game
    ensures NumberOfRounds(a, game) == NumberOfRounds(b, game)
    decreases |a|
  {
    if a != [] {
      SameGamesSameCounts(a[..|a| - 1], b[..|b| - 1], game);
    }
  }
}
