/**
 * Presence tracking and player/game queries of the FastAPI iteration
 * (app/crud.py), over the connection rows of AppModels.Store. A heartbeat
 * reactivates a connection; a sweep deactivates the connections of one game
 * that have been silent for more than five seconds. `datetime.now()` and SQL
 * `NOW()` are the `now` parameter, in microseconds.
 */
module Presence {
  import opened Wrappers
  import opened Text
  import opened AppModels

  /** `INTERVAL '5 seconds'`, in microseconds. */
  const StaleAfter: int := 5_000_000

  /** The connection row after a heartbeat at `now`. */
  function HeartbeatRow(c: Connection, now: int): (r: Connection)
    ensures r.isActive && r.lastHeartbeat == now
    ensures r.id == c.id && r.player == c.player && r.game == c.game && r.createdAt == c.createdAt
    ensures c.isActive ==> r.activityChangedAt == c.activityChangedAt && r.updatedAt == c.updatedAt
    ensures !c.isActive ==> r.activityChangedAt == now && r.updatedAt == now
  {
    if c.isActive then c.(lastHeartbeat := now)
    else c.(isActive := true, lastHeartbeat := now, updatedAt := now, activityChangedAt := now)
  }

  /** The save of a heartbeat yields a reconnect event exactly when the connection was inactive. */
  lemma HeartbeatEvents(c: Connection, now: int)
    ensures ConnectionEvents(c, HeartbeatRow(c, now)) ==
      if c.isActive then [] else [Event(PlayerReconnected, c.game, Some(c.player), None)]
  {
  }

  /**
   * `update_player_connection_heartbeat`: stamps the heartbeat, reactivates an
   * inactive connection, and reports whether the status changed.
   */
  method Heartbeat(store: Store, k: nat, now: int) returns (changed: bool)
    requires store.Valid()
    requires k < |store.connections|
    modifies store`connections
    ensures store.Valid()
    ensures changed <==> !old(store.connections[k].isActive)
    ensures store.connections == old(store.connections)[k := HeartbeatRow(old(store.connections[k]), now)]
  {
    var c := store.connections[k];
    var wasActive := c.isActive;
    c := c.(lastHeartbeat := now);
    if !wasActive {
      c := c.(isActive := true, updatedAt := now, activityChangedAt := now);
      store.connections := store.connections[k := c];
      return true;
    } else {
      store.connections := store.connections[k := c];
      return false;
    }
  }

  /** The WHERE clause of the sweep: this game, active, and silent for more than five seconds. */
  predicate IsStale(c: Connection, gameId: nat, now: int) {
    c.game == gameId && c.isActive && c.lastHeartbeat < now - StaleAfter
  }

  /** One row after the sweep's UPDATE. */
  function SweepRow(c: Connection, gameId: nat, now: int): (r: Connection)
    ensures IsStale(c, gameId, now) ==> !r.isActive && r.activityChangedAt == now && r.updatedAt == now
    ensures IsStale(c, gameId, now) ==> r.(isActive := true, activityChangedAt := c.activityChangedAt, updatedAt := c.updatedAt) == c
    ensures !IsStale(c, gameId, now) ==> r == c
  {
    if IsStale(c, gameId, now) then c.(isActive := false, updatedAt := now, activityChangedAt := now) else c
  }

  /** The whole table after the sweep. */
  function SweepAll(cs: seq<Connection>, gameId: nat, now: int): (r: seq<Connection>)
    ensures |r| == |cs|
    ensures forall i :: 0 <= i < |cs| ==> r[i] == SweepRow(cs[i], gameId, now)
  {
    if cs == [] then [] else SweepAll(cs[..|cs| - 1], gameId, now) + [SweepRow(cs[|cs| - 1], gameId, now)]
  }

  /** The UPDATE's row count. */
  function CountStale(cs: seq<Connection>, gameId: nat, now: int): (n: nat)
    ensures n <= |cs|
    ensures n == 0 <==> forall i :: 0 <= i < |cs| ==> !IsStale(cs[i], gameId, now)
  {
    if cs == [] then 0
    else CountStale(cs[..|cs| - 1], gameId, now) + if IsStale(cs[|cs| - 1], gameId, now) then 1 else 0
  }

  /**
   * `mark_stale_connections_as_inactive`: the bulk UPDATE, row by row; the
   * result is the row count that decides whether to commit.
   */
  method MarkStale(store: Store, gameId: nat, now: int) returns (rowcount: nat)
    requires store.Valid()
    modifies store`connections
    ensures store.Valid()
    ensures store.connections == SweepAll(old(store.connections), gameId, now)
    ensures rowcount == CountStale(old(store.connections), gameId, now)
  {
    var table := store.connections;
    var swept: seq<Connection> := [];
    rowcount := 0;
    for i := 0 to |table|
      invariant swept == SweepAll(table[..i], gameId, now)
      invariant rowcount == CountStale(table[..i], gameId, now)
    {
      assert table[..i + 1][..i] == table[..i] && table[..i + 1][i] == table[i];
      assert SweepAll(table[..i + 1], gameId, now) == swept + [SweepRow(table[i], gameId, now)];
      assert CountStale(table[..i + 1], gameId, now) == rowcount + if IsStale(table[i], gameId, now) then 1 else 0;
      var c := table[i];
      if c.game == gameId && c.isActive && c.lastHeartbeat < now - StaleAfter {
        c := c.(isActive := false, updatedAt := now, activityChangedAt := now);
        rowcount := rowcount + 1;
      }
      swept := swept + [c];
    }
    assert table[..|table|] == table;
    store.connections := swept;
  }

  /** Each deactivated row yields one disconnect event when compared with its previous state, other rows none. */
  lemma SweepEvents(c: Connection, gameId: nat, now: int)
    ensures ConnectionEvents(c, SweepRow(c, gameId, now)) ==
      if IsStale(c, gameId, now) then [Event(PlayerDisconnected, c.game, Some(c.player), None)] else []
  {
  }

  /** A second sweep at the same time changes nothing and counts zero rows. */
  lemma {:induction false} SweepIdempotent(cs: seq<Connection>, gameId: nat, now: int)
    ensures SweepAll(SweepAll(cs, gameId, now), gameId, now) == SweepAll(cs, gameId, now)
    ensures CountStale(SweepAll(cs, gameId, now), gameId, now) == 0
  {
    var once := SweepAll(cs, gameId, now);
    forall i | 0 <= i < |once| ensures !IsStale(once[i], gameId, now) {
    }
    var twice := SweepAll(once, gameId, now);
    assert |twice| == |once|;
    forall i | 0 <= i < |once| ensures twice[i] == once[i] {
    }
  }

  /** How many positions differ between two tables of the same length. */
  function CountChanged(before: seq<Connection>, after: seq<Connection>): nat
    requires |before| == |after|
  {
    if before == [] then 0
    else CountChanged(before[..|before| - 1], after[..|after| - 1]) + if before[|before| - 1] != after[|after| - 1] then 1 else 0
  }

  /** The sweep's row count is the number of rows it changes. */
  lemma {:induction false} RowCountCountsChanges(cs: seq<Connection>, gameId: nat, now: int)
    ensures CountStale(cs, gameId, now) == CountChanged(cs, SweepAll(cs, gameId, now))
    decreases |cs|
  {
    if cs != [] {
      var n := |cs| - 1;
      RowCountCountsChanges(cs[..n], gameId, now);
      var after := SweepAll(cs, gameId, now);
      assert after[..n] == SweepAll(cs[..n], gameId, now);
    }
  }

  /** The first player with this session key, as `.first()` returns it. */
  function FindBySession(players: seq<Player>, sessionKey: string): (r: Option<nat>)
    ensures r.None? <==> forall p :: p in players ==> p.sessionId != sessionKey
    ensures r.Some? ==> r.value < |players| && players[r.value].sessionId == sessionKey
    ensures r.Some? ==> forall j :: 0 <= j < r.value ==> players[j].sessionId != sessionKey
  {
    if players == [] then None
    else if players[0].sessionId == sessionKey then Some(0)
    else match FindBySession(players[1..], sessionKey)
      case None => None
      case Some(i) => Some(i + 1)
  }

  /**
   * `get_or_create_player`: a known session key returns the stored player,
   * ignoring the name and avatar given; otherwise a new player is stored.
   */
  method GetOrCreatePlayer(store: Store, sessionKey: string, name: string, avatar: int) returns (p: Player)
    requires store.Valid()
    modifies store`players, store`nextId
    ensures store.Valid()
    ensures FindBySession(old(store.players), sessionKey).Some? ==>
      p == old(store.players)[FindBySession(old(store.players), sessionKey).value] && store.players == old(store.players)
    ensures FindBySession(old(store.players), sessionKey).None? ==>
      p.sessionId == sessionKey && p.name == name && p.avatar == avatar && store.players == old(store.players) + [p]
  {
    var found := FindBySession(store.players, sessionKey);
    if found.Some? {
      return store.players[found.value];
    }
    var created := store.CreatePlayer(sessionKey, name, avatar);
    p := created.value;
  }

  /** `get_game_by_code`: the first game whose code equals the upper-cased argument. */
  function GetGameByCode(games: seq<Game>, code: string): (r: Option<Game>)
    ensures r.None? <==> forall g :: g in games ==> g.code != Upper(code)
    ensures r.Some? ==> r.value in games && r.value.code == Upper(code)
  {
    if games == [] then None
    else if games[0].code == Upper(code) then Some(games[0])
    else GetGameByCode(games[1..], code)
  }

  /** The lookup ignores the case of the code. */
  lemma GameLookupCaseInsensitive(games: seq<Game>, code: string)
    ensures GetGameByCode(games, code) == GetGameByCode(games, Upper(code))
  {
    UpperIdempotent(code);
  }

  /** The join of `get_user_active_games`: some connection of this game belongs to a player with this session key. */
  predicate PlaysIn(players: seq<Player>, connections: seq<Connection>, sessionKey: string, g: Game) {
    exists c :: c in connections && c.game == g.id && PlayerHasSession(players, c.player, sessionKey)
  }

  predicate PlayerHasSession(players: seq<Player>, playerId: nat, sessionKey: string) {
    exists p :: p in players && p.id == playerId && p.sessionId == sessionKey
  }

  /** The WHERE clause: the user plays in the game and it is not FINISHED (ABORTED games still qualify). */
  predicate Listed(players: seq<Player>, connections: seq<Connection>, sessionKey: string, g: Game) {
    g.status != Finished && PlaysIn(players, connections, sessionKey, g)
  }

  function FilterListed(games: seq<Game>, players: seq<Player>, connections: seq<Connection>, sessionKey: string): (r: seq<Game>)
    ensures forall g :: g in r <==> g in games && Listed(players, connections, sessionKey, g)
    ensures multiset(r) <= multiset(games)
  {
    if games == [] then []
    else
      var rest := FilterListed(games[1..], players, connections, sessionKey);
      assert games == [games[0]] + games[1..];
      if Listed(players, connections, sessionKey, games[0]) then [games[0]] + rest else rest
  }

  /** `ORDER BY updated_at DESC`. */
  predicate NewestFirst(gs: seq<Game>) {
    forall i, j :: 0 <= i < j < |gs| ==> gs[i].updatedAt >= gs[j].updatedAt
  }

  /** A game no older than the head of a newest-first list may go in front of it. */
  lemma NewestFirstCons(g: Game, gs: seq<Game>)
    requires NewestFirst(gs)
    requires gs == [] || g.updatedAt >= gs[0].updatedAt
    ensures NewestFirst([g] + gs)
  {
    forall i, j | 0 <= i < j < |[g] + gs| ensures ([g] + gs)[i].updatedAt >= ([g] + gs)[j].updatedAt {
      if i == 0 && j > 1 {
        assert gs[0].updatedAt >= gs[j - 1].updatedAt;
      }
    }
  }

  /** Dropping the newest game leaves a newest-first list. */
  lemma NewestFirstTail(gs: seq<Game>)
    requires NewestFirst(gs) && gs != []
    ensures NewestFirst(gs[1..])
  {
    forall i, j | 0 <= i < j < |gs[1..]| ensures gs[1..][i].updatedAt >= gs[1..][j].updatedAt {
      assert gs[1..][i] == gs[i + 1] && gs[1..][j] == gs[j + 1];
    }
  }

  function InsertByRecency(g: Game, gs: seq<Game>): (r: seq<Game>)
    requires NewestFirst(gs)
    ensures NewestFirst(r)
    ensures multiset(r) == multiset(gs) + multiset{g}
    ensures r[0] == g || r[0] == gs[0]
  {
    if gs == [] || g.updatedAt >= gs[0].updatedAt then
      NewestFirstCons(g, gs);
      [g] + gs
    else
      NewestFirstTail(gs);
      var rest := InsertByRecency(g, gs[1..]);
      assert gs == [gs[0]] + gs[1..];
      assert rest[0].updatedAt <= gs[0].updatedAt by {
        if rest[0] != g { assert gs[1..][0] == gs[1]; }
      }
      NewestFirstCons(gs[0], rest);
      [gs[0]] + rest
  }

  function SortByRecency(gs: seq<Game>): (r: seq<Game>)
    ensures NewestFirst(r)
    ensures multiset(r) == multiset(gs)
  {
    if gs == [] then []
    else
      assert gs == [gs[0]] + gs[1..];
      InsertByRecency(gs[0], SortByRecency(gs[1..]))
  }

  /**
   * `get_user_active_games`: exactly the games the user plays in that are
   * not FINISHED, newest update first.
   */
  function GetUserActiveGames(games: seq<Game>, players: seq<Player>, connections: seq<Connection>, sessionKey: string): (r: seq<Game>)
    ensures NewestFirst(r)
    ensures forall g :: g in r <==> g in games && g.status != Finished && PlaysIn(players, connections, sessionKey, g)
    ensures multiset(r) <= multiset(games)
  {
    var listed := FilterListed(games, players, connections, sessionKey);
    var r := SortByRecency(listed);
    assert forall g :: g in r <==> g in listed by {
      forall g ensures g in r <==> g in listed {
        assert g in r <==> g in multiset(r);
        assert g in listed <==> g in multiset(listed);
      }
    }
    r
  }
}
