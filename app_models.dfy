/**
 * The Tortoise data model of the FastAPI iteration (app/models.py): game
 * statuses, players, player-game connections and the event log the
 * connection hooks append to. Times are integers in microseconds.
 */
module AppModels {
  import opened Wrappers
  import opened Text
  import Converters
  import Lifecycle

  /** `Game.Status`. */
  datatype Status = InLobby | InProgress | Finished | Aborted

  predicate IsInLobby(s: Status) { s == InLobby }

  predicate IsInProgress(s: Status) { s == InProgress }

  /** `is_finished`: FINISHED or ABORTED. */
  predicate IsFinished(s: Status) { s == Finished || s == Aborted }

  /** Every status satisfies exactly one of the three status properties. */
  lemma StatusPredicatesPartition(s: Status)
    ensures IsInLobby(s) || IsInProgress(s) || IsFinished(s)
    ensures !(IsInLobby(s) && IsInProgress(s)) && !(IsInLobby(s) && IsFinished(s)) && !(IsInProgress(s) && IsFinished(s))
    ensures IsFinished(s) <==> s in {Finished, Aborted}
  {
  }

  /** `Event.Type`. */
  datatype EventType = GameStarted | GameFinished | PlayerJoined | PlayerDisconnected | PlayerReconnected

  datatype Event = Event(eventType: EventType, game: nat, player: Option<nat>, connection: Option<nat>)

  datatype Player = Player(id: nat, sessionId: string, name: string, avatar: int)

  datatype Game = Game(id: nat, status: Status, code: string, host: Option<nat>, updatedAt: int)

  /** `PlayerGameConnection`. */
  datatype Connection = Connection(
    id: nat,
    player: nat,
    game: nat,
    isActive: bool,
    lastHeartbeat: int,
    activityChangedAt: int,
    createdAt: int,
    updatedAt: int)

  datatype DbError = IntegrityError

  /** `session_id` is unique across players. */
  predicate UniqueSessions(players: seq<Player>) {
    forall i, j :: 0 <= i < j < |players| ==> players[i].sessionId != players[j].sessionId
  }

  /** `unique_together = (("player", "game"),)` on connections. */
  predicate UniqueMemberships(connections: seq<Connection>) {
    forall i, j :: 0 <= i < j < |connections| ==>
      (connections[i].player, connections[i].game) != (connections[j].player, connections[j].game)
  }

  /** `code` is unique across games. */
  predicate UniqueCodes(games: seq<Game>) {
    forall i, j :: 0 <= i < j < |games| ==> games[i].code != games[j].code
  }

  /**
   * The events `create_connection_event` appends when a saved connection is
   * compared with its previous state: one reconnect on a false-to-true flip of
   * `is_active`, one disconnect on a true-to-false flip, nothing otherwise.
   */
  function ConnectionEvents(previous: Connection, current: Connection): (es: seq<Event>)
    ensures |es| <= 1
    ensures es == [] <==> previous.isActive == current.isActive
    ensures es != [] ==> es[0].game == current.game && es[0].player == Some(current.player)
    ensures es != [] ==> (es[0].eventType == PlayerReconnected <==> current.isActive)
    ensures es != [] ==> (es[0].eventType == PlayerDisconnected <==> previous.isActive)
  {
    if !previous.isActive && current.isActive then [Event(PlayerReconnected, current.game, Some(current.player), None)]
    else if previous.isActive && !current.isActive then [Event(PlayerDisconnected, current.game, Some(current.player), None)]
    else []
  }

  /** `SetHost`: assigns the host on the in-memory game; nothing is written to the store. */
  function SetHost(game: Game, player: Player): (r: Game)
    ensures r.host == Some(player.id)
    ensures r.(host := game.host) == game
  {
    game.(host := Some(player.id))
  }

  /** A connection as the lifecycle mixin sees it: its attributes by name. */
  function AsInstance(c: Connection): Lifecycle.Instance {
    map[
      "id" := Lifecycle.Scalar(c.id),
      "is_active" := Lifecycle.Scalar(if c.isActive then 1 else 0),
      "last_heartbeat" := Lifecycle.Scalar(c.lastHeartbeat),
      "activity_changed_at" := Lifecycle.Scalar(c.activityChangedAt),
      "created_at" := Lifecycle.Scalar(c.createdAt),
      "updated_at" := Lifecycle.Scalar(c.updatedAt),
      "player" := Lifecycle.Obj("Player", Some(c.player), map[]),
      "game" := Lifecycle.Obj("Game", Some(c.game), map[])]
  }

  /** The flags `@after_update(fields=["is_active"])` puts on `create_connection_event`. */
  function ConnectionEventHook(): (h: Lifecycle.HookFlags)
    ensures h.kind == Lifecycle.AfterUpdate && h.fieldsToWatch == Some({"is_active"})
  {
    var fields := Lifecycle.ListArg(["is_active"]);
    assert Lifecycle.FieldsTruthy(fields);
    assert Lifecycle.SetOf(fields.items) == {"is_active"};
    Lifecycle.AfterUpdateHook(fields, true).value
  }

  /** `is_active` names a field of the instance itself, not of a related object. */
  lemma IsActiveIsPlain()
    ensures '.' !in "is_active"
  {
  }

  /** The field check on `is_active` sees a change exactly when the flag flipped. */
  lemma IsActiveChanged(previous: Connection, current: Connection)
    ensures Lifecycle.FieldHasChanged(AsInstance(current), "is_active", Some(AsInstance(previous))) <==> previous.isActive != current.isActive
  {
    IsActiveIsPlain();
  }

  /** The hook's watched-field check passes exactly when `is_active` flipped. */
  lemma ConnectionHookFiresIffFlip(previous: Connection, current: Connection)
    ensures Lifecycle.CallUpdateMethod(ConnectionEventHook(), AsInstance(current), Some(AsInstance(previous))).Call?
        <==> previous.isActive != current.isActive
  {
    IsActiveChanged(previous, current);
    Lifecycle.SingleWatch(ConnectionEventHook(), "is_active", AsInstance(current), Some(AsInstance(previous)));
  }

  /**
   * The two hooks of `PlayerGameConnection` as `__init_subclass__` collects
   * them: raw functions whose first parameter is `self`.
   */
  function ConnectionHooks(): (hs: seq<Lifecycle.RawHook>)
    ensures |hs| == 2 && forall h :: h in hs ==> "self" in h.params
  {
    [Lifecycle.RawHook(Lifecycle.Hook("create_player_joined_event", Lifecycle.PlainHook(Lifecycle.AfterCreate)), {"self"}),
     Lifecycle.RawHook(Lifecycle.Hook("create_connection_event", ConnectionEventHook()), {"self", "previous"})]
  }

  /**
   * As the handlers are connected, saving a connection never enters either
   * hook: a creation and an update both fail with TypeError (the hooks are
   * called with `instance=` but take `self`), so no PLAYER_JOINED,
   * PLAYER_RECONNECTED or PLAYER_DISCONNECTED event is stored.
   */
  lemma ConnectionHooksAsWritten(created: bool)
    ensures Lifecycle.SignalAsWritten(ConnectionHooks(), Lifecycle.PostSave(created)) == Lifecycle.Run([], Some(Lifecycle.TypeError))
  {
    var hs := ConnectionHooks();
    var c := Lifecycle.Collect(hs);
    assert c.afterCreate == [hs[0]] && c.afterUpdate == [hs[1]];
    Lifecycle.PostSaveOfMethods(c, created);
  }

  /** The rows of the Tortoise models and the event log. */
  class Store {
    var players: seq<Player>
    var games: seq<Game>
    var connections: seq<Connection>
    var events: seq<Event>
    var nextId: nat

    ghost predicate Valid()
      reads this
    {
      UniqueSessions(players) && UniqueCodes(games) && UniqueMemberships(connections)
    }

    constructor ()
      ensures Valid()
      ensures players == [] && games == [] && connections == [] && events == []
    {
      players, games, connections, events := [], [], [], [];
      nextId := 1;
    }

    /** `Player.create`: the unique `session_id` index rejects a second player with the same session. */
    method CreatePlayer(sessionId: string, name: string, avatar: int) returns (r: Result<Player, DbError>)
      requires Valid()
      modifies this`players, this`nextId
      ensures Valid()
      ensures r.Err? <==> exists p :: p in old(players) && p.sessionId == sessionId
      ensures r.Err? ==> players == old(players)
      ensures r.Ok? ==> r.value == Player(old(nextId), sessionId, name, avatar) && players == old(players) + [r.value]
    {
      if exists p :: p in players && p.sessionId == sessionId {
        return Err(IntegrityError);
      }
      var p := Player(nextId, sessionId, name, avatar);
      players := players + [p];
      nextId := nextId + 1;
      return Ok(p);
    }

    /**
     * `Game.create()`: a new game starts IN_LOBBY without a host, with a
     * randomly drawn four-letter code; a code already in use fails the unique index.
     */
    method CreateGame(now: int) returns (r: Result<Game, DbError>)
      requires Valid()
      modifies this`games, this`nextId
      ensures Valid()
      ensures r.Err? ==> games == old(games)
      ensures r.Ok? ==> r.value.status == InLobby && r.value.host.None? && Converters.IsCanonicalCode(r.value.code)
      ensures r.Ok? ==> games == old(games) + [r.value] && forall g :: g in old(games) ==> g.code != r.value.code
    {
      assert Converters.IsCanonicalCode("AAAA");
      var code :| Converters.IsCanonicalCode(code);
      if exists g :: g in games && g.code == code {
        return Err(IntegrityError);
      }
      var g := Game(nextId, InLobby, code, None, now);
      games := games + [g];
      nextId := nextId + 1;
      return Ok(g);
    }

    /**
     * `Game.add_player`: creates an active connection; the unique
     * (player, game) index rejects a second one, and the `after_create` hook
     * appends one PLAYER_JOINED event for that game and player.
     */
    method AddPlayer(player: Player, game: Game, now: int) returns (r: Result<Connection, DbError>)
      requires Valid()
      modifies this`connections, this`events, this`nextId
      ensures Valid()
      ensures r.Err? <==> exists c :: c in old(connections) && c.player == player.id && c.game == game.id
      ensures r.Err? ==> connections == old(connections) && events == old(events)
      ensures r.Ok? ==> r.value.isActive && r.value.player == player.id && r.value.game == game.id
      ensures r.Ok? ==> r.value.lastHeartbeat == now && r.value.activityChangedAt == now
      ensures r.Ok? ==> connections == old(connections) + [r.value]
      ensures r.Ok? ==> events == old(events) + [Event(PlayerJoined, game.id, Some(player.id), None)]
    {
      if exists c :: c in connections && c.player == player.id && c.game == game.id {
        return Err(IntegrityError);
      }
      var c := Connection(nextId, player.id, game.id, true, now, now, now, now);
      connections := connections + [c];
      nextId := nextId + 1;
      events := events + [Event(PlayerJoined, game.id, Some(player.id), None)];
      return Ok(c);
    }

    /**
     * `connection.save()` on an existing row: the row takes the new values and
     * the `after_update(fields=["is_active"])` hook, given the previous state,
     * appends the reconnect or disconnect event for a flip of `is_active`.
     */
    method SaveConnection(k: nat, updated: Connection)
      requires Valid()
      requires k < |connections|
      requires updated.id == connections[k].id && updated.player == connections[k].player && updated.game == connections[k].game
      modifies this`connections, this`events
      ensures Valid()
      ensures connections == old(connections)[k := updated]
      ensures events == old(events) + ConnectionEvents(old(connections[k]), updated)
    {
      var previous := connections[k];
      connections := connections[k := updated];
      var decision := Lifecycle.CallUpdateMethod(ConnectionEventHook(), AsInstance(updated), Some(AsInstance(previous)));
      ConnectionHookFiresIffFlip(previous, updated);
      if decision.Call? {
        events := events + ConnectionEvents(previous, updated);
      }
    }
  }
}
