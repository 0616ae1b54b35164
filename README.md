# roast-roulette, modelled in Dafny

Roast Roulette is a party game. Players join a game by a four-letter code.
Each round, every player uploads a photo. One photo is drawn as the target,
an AI writes roasts about it, players vote, and the results are shown. The
repository holds several iterations of the game side by side. This project
models the parts of each that are sequential once time, randomness and the
AI are made parameters:

- **The Django iteration** (`main/games/`):
  - the older models (`Round`/`State`) with their time limits, round numbering and validation (`LegacyModels`);
  - the store behind the newer services, with the uniqueness constraints of the initial migration (`GameStore`);
  - the CRUD services (`GameStore`);
  - the background procedure that drives one round through its stages (`GameFlow`);
  - the URL converter for game codes (`Converters`).
- **The FastAPI/Tortoise iteration** (`app/`):
  - the models and their lifecycle hooks, both as the decorators describe the dispatch and as the handlers are actually connected (`AppModels`, `Lifecycle`);
  - presence tracking by heartbeats and the stale sweep (`Presence`);
  - the template helper's `template#block` parsing and its errors (`Templates`).
- **The vendored QR-code encoder** (`main/static/js/qr-code.js`, one minified line), modelled as an ISO/IEC 18004 encoder:
  - the GF(256) tables and the Reed–Solomon remainder (`QrField`, `QrReedSolomon`);
  - the BCH codes of the format and version information (`QrBch`, `QrFormat`);
  - character-count widths and capacities (`QrCapacity`);
  - mode detection (`QrModes`) and UTF-8 conversion (`QrUtf8`);
  - the bit buffer (`QrBits`), the segment layouts and their decoding (`QrEncoder`), and data encodation with padding (`QrEncodeData`, `QrCodewords`);
  - block interleaving (`QrInterleave`);
  - function patterns (`QrPatterns`, `QrAlignment`, `QrLayout`, `QrGrid`);
  - zigzag placement (`QrPlacement`);
  - masks, the penalty score and the mask search (`QrMask`, `QrPenalty`, `QrMaskSearch`);
  - the assembled symbol and its read-back (`QrSymbol`);
  - the option checks, version and mode choice and the `generate` entry point (`QrGenerate`).

Shared helpers:
- `Text` covers ASCII case mapping and `str.split(sep, 1)`.
- `Counting` covers the ORM's `count`/`first`/`get`.
- `Wrappers` holds `Option`/`Result`.

State that the source changes in place is modelled as classes with `modifies` clauses:
- the stores;
- the template context dictionary;
- the QR bit buffer;
- the QR module matrices, as `array2`.

Time is an explicit `now` parameter, in microseconds. The polling loop of the round procedure is given one optional photo upload per second it waits (`arrivals`). The AI roast generator is a function parameter. Random choices are parameters: the target photo index and the game code.

## Model

| member | source | states |
|---|---|---|
| Converters.ToPython | main/games/converters.py:6-9 | `to_python` keeps the length and leaves no ASCII lower-case letter; a value matching `[A-Za-z]{4}` comes out as four upper-case letters |
| Converters.ToUrl | main/games/converters.py:11-12 | `to_url` keeps the length and writes the value in the form `to_python` reads back unchanged; a value matching `[A-Za-z]{4}` comes out as four upper-case letters |
| Converters.ConvertersIdempotent | main/games/converters.py:8-12 | applying either direction twice gives the same value as applying it once |
| Converters.UrlRoundTrip | main/games/converters.py:8-12 | `to_python(to_url(x)) == to_url(x)`, and `to_url` keeps a value inside the URL pattern |
| Converters.CanonicalCodeIsFixed | main/games/converters.py:6-12 | a code of four upper-case letters is its own URL and view value and matches the pattern |
| Converters.CaseInsensitive | main/games/converters.py:8-9 | two segments that differ only in letter case reach the view as the same code |
| Text.UpperChar | main/games/converters.py:9 | an ASCII lower-case letter moves 32 code points down to its upper-case form; every other character is unchanged; letters stay letters |
| Text.Upper | main/games/converters.py:9 | `str.upper()` on ASCII: the same length, and each character is upper-cased on its own |
| Text.UpperIdempotent | main/games/converters.py:9 | upper-casing twice equals upper-casing once |
| Text.UpperFixedIff | main/games/converters.py:9 | upper-casing leaves a string unchanged exactly when it has no ASCII lower-case letter |
| Text.LowerChar | main/static/js/qr-code.js:3 | `toLowerCase` on one ASCII character: upper-case letters move 32 code points up; everything else is unchanged |
| Text.Lower | main/static/js/qr-code.js:3 | `toLowerCase` on ASCII: the same length, each character lower-cased on its own |
| Text.SplitFirst | app/fasthtml.py:62 | `s.split(sep, 1)`: None exactly when `sep` is absent; otherwise `s == pre + sep + post` with no `sep` in `pre` |
| Text.SplitFirstUnique | app/tortoise_lifecycle.py:247 | every decomposition of `s` around a first occurrence of `sep` is the one the split returns |
| Counting.CountWhere | main/games/models.py:65 | `.count()`: at most the table size, and zero exactly when no row matches |
| Counting.CountAppend | main/games/services/crud.py:20 | the count over two concatenated tables is the sum of the counts |
| Counting.CountAtMostOne | main/games/models.py:72 | when no two rows both match, the count is at most one |
| Counting.FirstIndex | main/games/services/crud.py:67 | `.first()` in table order: None exactly when no row matches; otherwise a matching row with no match before it |
| Counting.Filter | main/games/services/crud.py:75 | `.filter()`: as many rows as the count; a row is kept exactly when it matches |
| Counting.FilterAppend | main/games/services/crud.py:75 | `.filter()` keeps table order: filtering two concatenated tables is the concatenation of the filtered tables |
| Counting.Get | main/games/services/crud.py:100-109 | `.get()` fails with DoesNotExist exactly when no row matches, and with MultipleObjectsReturned exactly when more than one does; otherwise it returns a matching row |
| Counting.FilterPairwise | main/games/services/crud.py:115-116 | filtering a table keeps every property that holds of all its ordered pairs of rows (for example the uniqueness constraints) |
| Counting.PairwiseAppend | main/games/services/crud.py:59-60 | appending a row related to every earlier row keeps a pairwise property |
| Templates.ParseTemplateName | app/fasthtml.py:61-64 | a name with `#` splits at its FIRST `#` into a path without `#` and a block; a name without `#` is the path, and the `block` argument is the block |
| Templates.HashNameIgnoresBlockArgument | app/fasthtml.py:61-64 | for `path#block`, the block named in the string wins over the `block` argument, and it may itself contain `#` |
| Templates.TrailingHashRendersFullTemplate | app/fasthtml.py:61-80 | `page.html#` names an empty block, which is falsy, so the whole template is rendered |
| Templates.ContextDict.constructor | app/fasthtml.py:67 | a dictionary object holding the given entries, which the renderer then fills in place |
| Templates.SetDefault | app/fasthtml.py:72 | `setdefault`: the key is present afterwards with its old value if it had one, else the new value; every other entry is kept |
| Templates.MergedKeys | app/fasthtml.py:74-75 | after the processors' `update`s, a key is present exactly when it was there before or some processor yields it |
| Templates.UntouchedKeyKept | app/fasthtml.py:74-75 | a key that no processor yields keeps its value |
| Templates.LastProcessorWins | app/fasthtml.py:74-75 | a key ends with the value of the last processor that yields it |
| Templates.InjectRequest | app/fasthtml.py:70-78 | without a current request the context is unchanged; with one, "request" is set unless present, then every processor is merged in order |
| Templates.RenderTemplate | app/fasthtml.py:46-98 | the result is `RenderResult` of the caller's dictionary: an unknown template path and a missing block are errors, a missing block reports the available blocks, a truthy block renders that block, otherwise the full template, with the request and the processors' keys filled in; once the template is found a non-empty caller dictionary is filled in place, even when the block is then not found, and an empty or absent one is left as it was |
| Templates.BlockNotFoundFillsCaller | app/fasthtml.py:67-87 | when the block is not found, a non-empty caller dictionary already holds exactly its old keys, `request` and every key a processor yields |
| Templates.TemplateRuntime.constructor | app/fasthtml.py:110 | no templates loaded and no current request |
| Templates.TemplateRuntime.AddTemplates | app/fasthtml.py:141-145 | `add_templates` stores the environment for the module-level `render` |
| Templates.TemplateRuntime.Render | app/fasthtml.py:180-183 | before templates are loaded, `render` fails with RuntimeError and touches no context; afterwards its result and the caller's dictionary are those of `Jinja2Templates.render` with the stored environment and the current request |
| Templates.TemplateRuntime.UrlFor | app/fasthtml.py:201-209 | `url_for` fails exactly when there is no current request; otherwise it builds the URL from that request, the route and the parameters |
| AppModels.StatusPredicatesPartition | app/models.py:60-89 | every status satisfies exactly one of `is_in_lobby`, `is_in_progress`, `is_finished`, and `is_finished` means FINISHED or ABORTED |
| AppModels.ConnectionEvents | app/models.py:133-148 | an update of a connection appends at most one event, none exactly when `is_active` did not flip; a flip to active is PLAYER_RECONNECTED and a flip to inactive PLAYER_DISCONNECTED, for the connection's game and player |
| AppModels.SetHost | app/models.py:95-97 | `set_host` changes only the in-memory host field of the game |
| AppModels.ConnectionEventHook | app/models.py:133 | `@after_update(fields=["is_active"])` gives an after-update hook that watches exactly `is_active` |
| AppModels.IsActiveIsPlain | app/models.py:133 | the watched name has no dot, so it is compared as a plain attribute |
| AppModels.IsActiveChanged | app/tortoise_lifecycle.py:241-244 | the changed-field check on `is_active` holds exactly when the flag flipped |
| AppModels.ConnectionHookFiresIffFlip | app/tortoise_lifecycle.py:218-223 | the connection-event hook's watched-field check passes exactly when `is_active` flipped |
| AppModels.ConnectionHooks | app/models.py:125-133 | the two hooks of `PlayerGameConnection`, both taking `self` |
| AppModels.ConnectionHooksAsWritten | app/models.py:125-148 | as the handlers are connected, a creation or an update of a connection enters neither hook and raises TypeError, so no event is stored |
| AppModels.Store.constructor | app/models.py:29-182 | an empty store satisfying the uniqueness constraints |
| AppModels.Store.CreatePlayer | app/models.py:40-47 | creating a player fails exactly when the `session_id` is taken; otherwise the player is appended under a fresh id |
| AppModels.Store.CreateGame | app/models.py:24-67 | a new game is IN_LOBBY, has no host and a code of four upper-case letters that no other game has; a clashing code is rejected |
| AppModels.Store.AddPlayer | app/models.py:122-131 | joining fails exactly when the (player, game) connection exists; otherwise the connection is active, with both timestamps now, and exactly one PLAYER_JOINED event is appended |
| AppModels.Store.SaveConnection | app/models.py:133-148 | saving a connection replaces that row and appends exactly the events of `create_connection_event` |
| Lifecycle.FieldHasChanged | app/tortoise_lifecycle.py:232-267 | false without a previous snapshot; a plain name is changed iff the values differ; a dotted `fk.rel` is changed iff the FK changed, or both FKs are present with equal pk and their `rel` differs |
| Lifecycle.UnchangedAgainstItself | app/tortoise_lifecycle.py:232-267 | against an identical snapshot no field has changed |
| Lifecycle.ChangeIsSymmetric | app/tortoise_lifecycle.py:232-267 | swapping the instance and the snapshot gives the same answer |
| Lifecycle.OnlyHeadAttributeMatters | app/tortoise_lifecycle.py:241-265 | only the attribute a field path starts from matters; edits to other attributes are invisible |
| Lifecycle.SetOf | app/tortoise_lifecycle.py:385 | `set(fields)` holds exactly the listed names |
| Lifecycle.PlainHook | app/tortoise_lifecycle.py:286-316 | the create and delete decorators set only the kind flag |
| Lifecycle.BeforeUpdateHook | app/tortoise_lifecycle.py:337-347 | `before_update` watches `set(fields)` exactly when `fields` is truthy and notes a `previous` parameter; it never sets `_needs_previous` |
| Lifecycle.AfterUpdateHook | app/tortoise_lifecycle.py:378-393 | `after_update` raises ValueError exactly when `fields` is truthy but not a list; otherwise it watches `set(fields)` when truthy, and notes a `previous` parameter only when it is not watching |
| Lifecycle.CallUpdateMethod | app/tortoise_lifecycle.py:215-230 | a hook with watched fields is skipped exactly when none of them changed; `previous` is passed exactly when there is a snapshot and `_needs_previous` is set |
| Lifecycle.SingleWatch | app/tortoise_lifecycle.py:218-223 | a hook watching a single field runs exactly when that field changed |
| Lifecycle.WatchedHookNeedsSnapshot | app/tortoise_lifecycle.py:218-238 | without a previous snapshot a hook with watched fields never runs |
| Lifecycle.DecoratedHooksNeverGetPrevious | app/tortoise_lifecycle.py:227-391 | no decorator sets the flag `_call_update_method` reads, so no hook is ever handed `previous` |
| Lifecycle.RunHandlers | app/tortoise_lifecycle.py:61-128 | the intended dispatch: the handlers for one signal call, in declaration order, exactly the hooks whose gate holds (pk is None for before-create, `created` for after-create, not `created` for after-update, always for delete) and, for update hooks, whose field check passes |
| Lifecycle.InvokedIff | app/tortoise_lifecycle.py:61-128 | the intended dispatch: a hook name is invoked for a signal exactly when some hook of that name passes its gate and its field check |
| Lifecycle.InvocationsAreGated | app/tortoise_lifecycle.py:69-97 | every invoked hook passed its gate, so create and update hooks never run on the same save |
| Lifecycle.DeleteHooksAlwaysRun | app/tortoise_lifecycle.py:110-128 | the intended dispatch: a delete signal invokes every delete hook once, in order, unconditionally |
| Lifecycle.NoSnapshotNoWatchedUpdate | app/tortoise_lifecycle.py:218-223 | the intended dispatch: on an update save without a previous snapshot, no hook with watched fields is invoked |
| Lifecycle.OfKind | app/tortoise_lifecycle.py:52-56 | `hooks[kind]` keeps only functions flagged with that kind and is no longer than the class body |
| Lifecycle.OfKindMembers | app/tortoise_lifecycle.py:52-56 | `hooks[kind]` holds exactly the declared functions flagged with that kind |
| Lifecycle.Collect | app/tortoise_lifecycle.py:43-56 | the `hooks` dictionary holds, for every kind, the collection of that kind |
| Lifecycle.Names | app/tortoise_lifecycle.py:80-82 | the names of the hooks a listener walks, one per hook, in order |
| Lifecycle.CallEach | app/tortoise_lifecycle.py:10-14 | calling hooks in turn with keyword arguments enters every body exactly when every hook binds those keywords; otherwise it enters the hooks before the first that does not bind and raises TypeError there |
| Lifecycle.Connected | app/tortoise_lifecycle.py:66-84 | a listener is connected exactly when its kind has hooks; Tortoise's call of it binds, and it enters nothing when its condition fails |
| Lifecycle.Failing | app/tortoise_lifecycle.py:146-184 | the snapshot listeners are connected exactly when their kind has hooks, enter no hook body, and raise exactly when their condition holds |
| Lifecycle.DeletePartial | app/tortoise_lifecycle.py:110-128 | the delete partial is connected exactly when its kind has hooks, and Tortoise's call of it with `(sender, instance, using_db)` raises TypeError for the missing `update_fields` |
| Lifecycle.Listeners | app/tortoise_lifecycle.py:61-212 | at most three listeners per signal; every save listener's call binds; a delete signal has listeners exactly when the deleted kind has hooks, and the first is the partial whose call raises |
| Lifecycle.Dispatch | app/tortoise_lifecycle.py:61-212 | a listener whose call raises ends the signal with TypeError before any hook body; otherwise the signal raises exactly when a listener raises, with the exception of the first in registration order, and enters exactly the hook bodies the listeners enter |
| Lifecycle.SignalAsWritten | app/tortoise_lifecycle.py:61-212 | a save or delete as connected: TypeError with nothing entered when a listener's call raises; otherwise it raises exactly when some listener raises, and every hook body entered is one a listener enters |
| Lifecycle.FirstFailure | app/tortoise_lifecycle.py:61-212 | when no listener enters a body, the signal raises the exception of its first failing listener |
| Lifecycle.SelfHooksNeverBind | app/tortoise_lifecycle.py:10-14 | a hook taking `self`, called with `instance=` or `previous=` only, never binds: its listener enters no body and raises TypeError whenever it calls hooks |
| Lifecycle.PostSaveOfMethods | app/tortoise_lifecycle.py:77-184 | a post_save over methods taking `self`, with a hook of the kind `created` selects, enters nothing and raises TypeError, before the snapshot listener's NameError |
| Lifecycle.SaveListenersNeverRun | app/tortoise_lifecycle.py:66-184 | over methods taking `self`, no pre_save or post_save listener enters a body, and the one over a gated kind raises TypeError |
| Lifecycle.DeleteListenersRaise | app/tortoise_lifecycle.py:110-211 | a delete raises TypeError and enters nothing exactly when the deleted kind has hooks, whatever their parameters, so the second registration is never called; otherwise no listener runs |
| Lifecycle.MethodHooksNeverRun | app/tortoise_lifecycle.py:52-212 | as connected, when every hook is a method taking `self`, no hook body runs on any signal, and every signal some hook is gated on raises |
| Lifecycle.UpdateSaveRaises | app/tortoise_lifecycle.py:146-184 | as connected, every update save of a class with update hooks of the gated kind raises, at the latest on the undefined `previous_states` |
| Lifecycle.WatchedFieldsNotChecked | app/tortoise_lifecycle.py:94-103 | as connected, the after-update handler enters every after-update hook that binds `instance=`, whether or not its watched fields changed |
| Lifecycle.DeleteRaises | app/tortoise_lifecycle.py:110-128 | as connected, a delete of a class with hooks of the deleted kind raises TypeError before any hook body, whatever the hooks' parameters; a class without such hooks runs nothing |
| Lifecycle.ConnectedEntered | app/tortoise_lifecycle.py:66-103 | a connected listener enters only hooks of its own list, and only when its condition holds |
| Lifecycle.SaveEntered | app/tortoise_lifecycle.py:66-103 | a hook a save listener enters belongs to a kind the save gates |
| Lifecycle.EnteredAreGated | app/tortoise_lifecycle.py:61-212 | as connected, every hook body a signal enters is a declared hook whose kind the signal gates: the connected handlers keep the intended gates even where they skip the field check |
| Lifecycle.OfKindAppend | app/tortoise_lifecycle.py:52-56 | collecting by kind over two parts of a class body is the concatenation of the two collections |
| Lifecycle.OnlyKind | app/tortoise_lifecycle.py:52-56 | when every hook has one kind, the collection for that kind is all of them, in order |
| Lifecycle.NoneOfKind | app/tortoise_lifecycle.py:52-56 | when no hook has a kind, its collection is empty |
| Presence.HeartbeatRow | app/crud.py:122-134 | after a heartbeat the connection is active with `last_heartbeat = now`; `activity_changed_at` and `updated_at` move to now only if it was inactive; identity fields are kept |
| Presence.HeartbeatEvents | app/models.py:133-141 | the event the connection hook would compute for a heartbeat's change: one PLAYER_RECONNECTED exactly when the connection was inactive |
| Presence.Heartbeat | app/crud.py:118-134 | returns true exactly when the connection was inactive before the call, and replaces only that row by its heartbeat row |
| Presence.SweepRow | app/crud.py:158-164 | a connection of the game that is active and silent for more than five seconds becomes inactive with `activity_changed_at = updated_at = now`; every other row is unchanged |
| Presence.SweepAll | app/crud.py:158-164 | the UPDATE applies the per-row rule to every row and keeps the table's length and order |
| Presence.CountStale | app/crud.py:168-170 | the row count is zero exactly when no row matches the WHERE clause |
| Presence.MarkStale | app/crud.py:137-175 | the loop over the table leaves exactly the swept table and returns the number of matching rows |
| Presence.SweepEvents | app/models.py:142-148 | the events the connection hook would compute for the sweep's changes: one PLAYER_DISCONNECTED per deactivated row, none for the others |
| Presence.SweepIdempotent | app/crud.py:162-171 | a second sweep at the same time changes nothing and counts zero rows |
| Presence.RowCountCountsChanges | app/crud.py:157-170 | the sweep's row count is the number of rows it changes |
| Presence.FindBySession | app/crud.py:39-40 | `.first()` on session key: None exactly when no player has that key; otherwise the first player with it |
| Presence.GetOrCreatePlayer | app/crud.py:30-54 | a known session key returns that player unchanged, ignoring name and avatar, and leaves the players table as it was; an unknown key creates exactly one player with the given fields |
| Presence.GetGameByCode | app/crud.py:77-87 | returns a game whose code equals the upper-cased argument, None exactly when there is none |
| Presence.GameLookupCaseInsensitive | app/crud.py:85 | the lookup ignores the case of the code |
| Presence.FilterListed | app/crud.py:106-109 | keeps exactly the games the user plays in that are not FINISHED, without adding rows |
| Presence.NewestFirstCons | app/crud.py:110 | a game no older than the head of a newest-first list can go in front of it |
| Presence.NewestFirstTail | app/crud.py:110 | dropping the head of a newest-first list leaves a newest-first list |
| Presence.InsertByRecency | app/crud.py:110 | inserting into a newest-first list keeps it newest-first and adds exactly that game |
| Presence.SortByRecency | app/crud.py:110 | `ORDER BY updated_at DESC` yields a newest-first permutation of its input |
| Presence.GetUserActiveGames | app/crud.py:98-112 | newest first; a game is listed exactly when the user plays in it and it is not FINISHED (ABORTED games are listed); no game appears more often than in the table |
| GameStore.GetGameByCode | main/games/services/crud.py:66-67 | returns a game whose code equals the upper-cased argument; None exactly when no game has that code |
| GameStore.GameLookupCaseInsensitive | main/games/services/crud.py:67 | the lookup ignores the case of the code |
| GameStore.GetCurrentGameRound | main/games/services/crud.py:70-71 | None exactly when the game has no rounds; otherwise a round of the game whose count is the greatest |
| GameStore.NewRoundIsCurrent | main/games/services/crud.py:16-71 | a round numbered above every earlier round of its game becomes the current round |
| GameStore.NewRoundKeepsTable | main/games/migrations/0001_initial.py:41 | a round appended under a fresh key and an unused (game, count) keeps `unique_together (game, count)` and the key order |
| GameStore.GetPlayerBySession | main/games/services/crud.py:74-75 | a player of the game with that session key; None exactly when there is none |
| GameStore.GetHostPlayer | main/games/services/crud.py:78-79 | a player of the game flagged as host; None exactly when there is none |
| GameStore.GetTargetPhoto | main/games/services/crud.py:90-91 | a photo of the round with `is_roast_target` set; None exactly when there is none |
| GameStore.GetPhotoUploadedByPlayer | main/games/services/crud.py:104-105 | that player's photo in the round; None exactly when there is none |
| GameStore.GetRoastById | main/games/services/crud.py:100-101 | `aget` among the round's roasts: DoesNotExist exactly when no roast of the round has that id; success exactly when one does |
| GameStore.GetVoteById | main/games/services/crud.py:108-109 | succeeds only with a stored vote of that id, that roast and that submitter, and fails with DoesNotExist exactly when there is no such vote |
| GameStore.VoteLookupExact | main/games/services/crud.py:108-109 | with unique primary keys, the lookup succeeds exactly for a stored vote of that roast and player |
| GameStore.NewVoteFound | main/games/services/crud.py:59-109 | a vote appended under a fresh key keeps keys ascending and is found by the lookup |
| GameStore.WithoutVote | main/games/services/crud.py:115-116 | the votes left after deletion are exactly the old votes with a different primary key |
| GameStore.DeletedVoteIsGone | main/games/services/crud.py:108-116 | after deletion the vote can no longer be looked up |
| GameStore.StateChangeKeepsCodes | main/games/migrations/0001_initial.py:24 | changing a game's state keeps its code unique |
| GameStore.StageChangeKeepsRounds | main/games/migrations/0001_initial.py:41 | changing a round's stage keeps `(game, count)` unique and the keys ordered |
| GameStore.MarkKeepsUploads | main/games/migrations/0001_initial.py:79-86 | marking a photo as target keeps `(game_round, uploaded_by)` and `cache_key` unique |
| GameStore.FilterKeepsKeys | main/games/migrations/0001_initial.py:20-92 | deleting rows keeps the primary keys ascending |
| GameStore.Db.constructor | main/games/migrations/0001_initial.py:16-100 | an empty store satisfying every uniqueness constraint of the schema |
| GameStore.Db.CreateGame | main/games/services/crud.py:12-13 | a new game is WAITING_FOR_PLAYERS with an unused code of four upper-case letters; a code already taken is an IntegrityError |
| GameStore.Db.CreateGameRound | main/games/services/crud.py:16-20 | the game is saved as IN_PROGRESS even if the insert fails; the round is numbered (rounds of the game) + 1 and starts at UPLOAD_PHOTO; the insert fails exactly when that number is taken |
| GameStore.Db.InsertPlayer | main/games/services/crud.py:23-43 | an insert fails exactly when the session key is taken in the game; otherwise it appends the player with the given fields |
| GameStore.Db.CreatePlayer | main/games/services/crud.py:23-31 | `create_player` leaves `is_host` false; it fails exactly when the session key is taken in the game |
| GameStore.Db.CreateHostPlayer | main/games/services/crud.py:34-43 | `create_host_player` always yields `is_host = true`; it fails exactly when the session key is taken in the game |
| GameStore.Db.CreatePhoto | main/games/services/crud.py:46-56 | the photo's cache key is `photo:<uuid>`; the insert fails exactly when the player already has a photo in the round or the key is used |
| GameStore.Db.CreateRoast | main/games/services/game_flow.py:38 | appends one roast of the round with the text under a fresh key |
| GameStore.Db.CreateVote | main/games/services/crud.py:59-60 | fails exactly when a vote for the same (roast, submitter) exists; otherwise the new vote is appended and found by `get_vote_by_id` |
| GameStore.Db.DeleteVote | main/games/services/crud.py:115-116 | removes exactly the vote with that key; every other vote stays, in order |
| GameStore.Db.SaveStage | main/games/services/game_flow.py:14-61 | saving a stage changes only that round's stage |
| GameStore.Db.MarkTarget | main/games/services/game_flow.py:34-35 | sets `is_roast_target` on that photo only |
| GameStore.Db.DeleteRound | main/games/services/game_flow.py:25 | the intended effect: deleting a round cascades to its photos, its roasts and their votes; every other row stays, in order |
| LegacyModels.TimeLimits | main/games/models.py:101-146 | `seconds_total` is 60 for SUBMIT_PHOTOS, 10 for SHOW_TARGET, 180 for SUBMIT_ROASTS and 30 for SHOW_ROAST |
| LegacyModels.SecondsField | main/games/models.py:141-142 | `timedelta.seconds` lies in [0, 86400) and equals the elapsed whole seconds while less than a day has passed |
| LegacyModels.SecondsLeft | main/games/models.py:137-142 | the intended time left: never above the state's total, zero exactly when the limit has elapsed, otherwise the limit minus the elapsed seconds |
| LegacyModels.SecondsLeftAsWritten | main/games/models.py:137-142 | `seconds_left` as written stays in [0, seconds_total], and agrees with the intended value while less than a day has passed |
| LegacyModels.SecondsLeftNeverIncreases | main/games/models.py:137-142 | as the clock advances, the intended time left never grows |
| LegacyModels.SecondsLeftAsWrittenRestartsAfterADay | main/games/models.py:141-142 | as written, a SUBMIT_PHOTOS round 86405 s old shows 55 s left, where the intended value is 0 |
| LegacyModels.CurrentRound | main/games/models.py:63-72 | None exactly when the game has no rounds; otherwise `.get(count=number_of_rounds)`: that round, or DoesNotExist when no round has that number |
| LegacyModels.CurrentRoundIsLatest | main/games/models.py:67-118 | when rounds are numbered 1..n and unique per game, a game with rounds has a current round |
| LegacyModels.IsLobby | main/games/models.py:74-77 | `is_lobby` holds exactly when the game has no rounds, which is exactly when it has no current round |
| LegacyModels.NumberOfRoundsAppend | main/games/models.py:63-81 | a new round of the game adds one to `number_of_rounds` |
| LegacyModels.TargetPhoto | main/games/models.py:148-150 | the first photo of the round marked as target; None exactly when there is none |
| LegacyModels.UploadedCountMatches | main/games/models.py:126-130 | with one photo per (round, player), the joined count is at most the player count, and equal exactly when every player has a photo in the round |
| LegacyModels.ShowTargetNeedsEveryPhoto | main/games/models.py:120-135 | entering SHOW_TARGET passes validation exactly when every player of the game has a photo in the round |
| LegacyModels.StoredPieces | main/games/models.py:219-227 | `add_roast_pieces` stores the snippets in order up to the first blank one, which validation rejects |
| LegacyModels.LegacyDb.constructor | main/games/models.py:47-315 | an empty store satisfying the uniqueness constraints |
| LegacyModels.LegacyDb.StartRound | main/games/models.py:79-118 | `start_round` appends a SUBMIT_PHOTOS round numbered `number_of_rounds + 1`, which becomes the new round count; it fails exactly when the game is missing or that number is taken |
| LegacyModels.LegacyDb.AddPlayer | main/games/models.py:172-203 | `add_player` fails exactly when the name is not 3..32 characters, the avatar is outside 1..8, the session id is blank or too long, or it is taken in the game; otherwise a non-host player with 3 hit points is appended |
| LegacyModels.LegacyDb.AddPhoto | main/games/models.py:213-264 | a player without a game raises AttributeError; without a current round validation fails; a photo larger than 10 MiB or a second photo of the player in the round is rejected; otherwise it is stored in the current round |
| LegacyModels.LegacyDb.PickTargetPhoto | main/games/models.py:152-160 | fails with AttributeError exactly when the round has no photo; otherwise one of the round's photos is marked as target, and `target_photo` then finds one |
| LegacyModels.LegacyDb.SaveRoundState | main/games/models.py:120-135 | saving a state fails validation exactly when the round check fails; on success only that round changes, and SHOW_TARGET is reached only when every player has uploaded |
| LegacyModels.LegacyDb.AddRoastPieces | main/games/models.py:219-227 | no snippets store nothing; a player without a game raises AttributeError; without a current round validation fails; otherwise the pieces are stored as `StoredPieces` says |
| LegacyModels.LegacyDb.StorePieces | main/games/models.py:221-227 | the loop appends exactly the stored pieces, and fails exactly when a blank snippet stops it |
| LegacyModels.SameGamesSameCounts | main/games/models.py:63-65 | changing fields other than the game keeps every game's round count |
| GameFlow.RoastEvents | main/games/services/game_flow.py:37-38 | one RoastCreated step per generated text, in order |
| GameFlow.StagesAppend | main/games/services/game_flow.py:10-62 | the stages saved by two consecutive parts of the procedure are those of the first, then those of the second |
| GameFlow.QuietLog | main/games/services/game_flow.py:19-45 | steps that neither save a stage nor refresh add no stage and no refresh |
| GameFlow.EnterStage | main/games/services/game_flow.py:14-17 | entering a stage saves exactly that stage and sends exactly one refresh |
| GameFlow.StagesAfterEnter | main/games/services/game_flow.py:40-42 | entering a stage after a log adds just that stage |
| GameFlow.StagesAfterQuiet | main/games/services/game_flow.py:44-55 | a quiet step adds no stage |
| GameFlow.EnterThenQuiet | main/games/services/game_flow.py:40-45 | entering a stage and then a quiet step adds just that stage |
| GameFlow.TailStages | main/games/services/game_flow.py:29-62 | after UPLOAD_PHOTO a completed round saves WAIT_FOR_ROULETTE, VOTE_ROASTS, SHOW_RESULTS in that order |
| GameFlow.CompletedStages | main/games/services/game_flow.py:14-62 | a completed round saves the four stages once each, in the order the enum declares them |
| GameFlow.CompletedStagesInOrder | main/games/services/game_flow.py:14-62 | the saved stages strictly advance in declaration order, so none is skipped or revisited |
| GameFlow.CompletedRefreshesFourTimes | main/games/services/game_flow.py:17-62 | a completed round refreshes the clients exactly four times |
| GameFlow.TimeoutStages | main/games/services/game_flow.py:14-27 | an aborted round saves only UPLOAD_PHOTO and enters no later stage |
| GameFlow.TimeoutRefreshes | main/games/services/game_flow.py:17-26 | the intended timeout branch refreshes the clients exactly twice |
| GameFlow.TimeoutAsWritten | main/games/services/game_flow.py:22-27 | as written, the timeout branch stops at the synchronous delete: one refresh and no deletion, where the intended log goes on with the deletion and a second refresh |
| GameFlow.TargetAndRoastsBeforeRoulette | main/games/services/game_flow.py:33-41 | the target is marked and every roast stored before WAIT_FOR_ROULETTE is saved |
| GameFlow.AwaitFirstPhoto | main/games/services/game_flow.py:19-22 | the poll stops at the first check that finds a photo of the round, before the limit, or after `limit` checks that found none; photos are only added, at most one and of the round, and none when the poll found nothing |
| GameFlow.RandomPhotoOf | main/games/services/game_flow.py:33 | the random choice is a photo of the round |
| GameFlow.StoreRoasts | main/games/services/game_flow.py:37-38 | one roast of the round per generated text, in order, after the existing roasts |
| GameFlow.RoastTarget | main/games/services/game_flow.py:33-38 | marks exactly one photo of the round as target, generates texts for it, and stores one roast per text |
| GameFlow.PlayFoundRound | main/games/services/game_flow.py:29-62 | after a photo arrived: the round ends at SHOW_RESULTS, exactly one photo of the round becomes the target and no other photo changes, one roast of the round per generated text is appended with that text in order, and the log is the completed tail |
| GameFlow.EnterUpload | main/games/services/game_flow.py:14-22 | the round is saved at UPLOAD_PHOTO; either a photo of the round exists before the limit, or the limit has elapsed and the photos are unchanged; any added photo is of the round |
| GameFlow.PlayGameRoundInBackground | main/games/services/game_flow.py:10-62 | on timeout, the intended outcome: the log is the aborted one and the rounds, photos, roasts and votes tables are exactly what deleting the round leaves of the tables before the call; otherwise the round ends at SHOW_RESULTS, one photo of the round is the target, no earlier photo changed and any new photo is of the round, one roast of the round per generated text is appended with that text in order, votes are unchanged, and the log is the completed one; games and players never change |
| GameFlow.PolledPhotosBelongToRound | main/games/services/game_flow.py:19-22 | photos that arrive while waiting belong to the round, so a completed round compares so against the tables before the wait |
| QrField.StepInjective | main/static/js/qr-code.js:3 | multiplying by 2 in GF(256) (shift, then XOR 0x11D on overflow) is injective |
| QrField.PowAdd | main/static/js/qr-code.js:3 | 2^(a+b) is 2^b multiplied by 2 a further a times |
| QrField.PowOrder | main/static/js/qr-code.js:3 | 2 has order 255 in the field: 2^255 = 1 and no smaller positive power is 1 |
| QrField.PowCancel | main/static/js/qr-code.js:3 | equal powers 2^i = 2^j with i <= j give 2^(j-i) = 1 |
| QrField.PowersDistinct | main/static/js/qr-code.js:3 | the 255 entries of the exponent table are pairwise distinct and nonzero |
| QrField.PowNonZero | main/static/js/qr-code.js:3 | no power of 2 is zero |
| QrField.PowPeriodic | main/static/js/qr-code.js:3 | powers of 2 repeat with period 255, so exponents may be reduced modulo 255 |
| QrField.FillStep | main/static/js/qr-code.js:3 | one iteration of the table loop extends the filled part of both tables by one entry |
| QrField.BuildTables | main/static/js/qr-code.js:3 | the exponent table holds 2^k for k < 255; the logarithm table is -1 at 0, lies in -1..254, and inverts the exponent table |
| QrField.Filled | main/static/js/qr-code.js:3 | once 255 entries are filled, the logarithm of every table power is its exponent |
| QrField.JsRem | main/static/js/qr-code.js:3 | JavaScript's `%` agrees with the mathematical remainder on non-negative operands and always lies strictly between -m and m |
| QrField.ExpAt | main/static/js/qr-code.js:3 | a read inside the exponent table gives the entry; a read outside gives `undefined`, which XOR treats as 0 |
| QrField.GenNext | main/static/js/qr-code.js:3 | multiplying a log-form generator polynomial by (x + 2^u) gives one more coefficient, each defined by the JS recurrence |
| QrField.GenNextLogForm | main/static/js/qr-code.js:3 | with a logarithm table, every generator polynomial keeps its coefficients in -1..254 |
| QrField.BuildGenerators | main/static/js/qr-code.js:3 | the generator table has 31 entries; entry u has u coefficients in log form and is the previous entry times (x + 2^(u-1)) |
| QrReedSolomon.Zeros | main/static/js/qr-code.js:3 | n zero codewords |
| QrReedSolomon.Eliminate | main/static/js/qr-code.js:3 | one division step changes only the positions after the leading one, within the generator's reach |
| QrReedSolomon.AddMultiple | main/static/js/qr-code.js:3 | adding 2^i times the generator changes only the generator's window |
| QrReedSolomon.Divide | main/static/js/qr-code.js:3 | the division steps keep the work's length |
| QrReedSolomon.Remainder | main/static/js/qr-code.js:3 | `x(data, gen)` returns exactly `gen.length` codewords |
| QrReedSolomon.XorSeq | main/static/js/qr-code.js:3 | the element-wise XOR of two codeword sequences |
| QrReedSolomon.DivideTailDifference | main/static/js/qr-code.js:3 | divisions of two works that agree on the data part keep that agreement and keep the XOR of their tails: the division is linear |
| QrReedSolomon.EliminatePrefix | main/static/js/qr-code.js:3 | one division step keeps two works that agree on the data part in agreement there |
| QrReedSolomon.EliminateTail | main/static/js/qr-code.js:3 | one division step with the same multiplier keeps the XOR of the two tails |
| QrReedSolomon.RemainderOfCodewordIsZero | main/static/js/qr-code.js:3 | data followed by its error correction codewords divides with remainder zero: the output is a codeword of the Reed–Solomon code (section 7.5.2 of ISO/IEC 18004) |
| QrReedSolomon.RsRemainder | main/static/js/qr-code.js:3 | the in-place loop of `x` computes exactly the remainder of the division |
| QrReedSolomon.AddMultipleInPlace | main/static/js/qr-code.js:3 | the inner loop updates the working array exactly as the generator multiple says |
| QrBch.Bch | main/static/js/qr-code.js:3 | the loop of `y` computes the BCH code word of its arguments |
| QrBch.CodeOf | main/static/js/qr-code.js:3 | the code word keeps r in the high bits and the remainder below them |
| QrBch.FormatInfo | main/static/js/qr-code.js:3 | the format writer's word is `y(ecc << 3 \| mask, 5, 0x537, 10) ^ 0x5412` (section 7.9 of ISO/IEC 18004) |
| QrBch.VersionInfo | main/static/js/qr-code.js:3 | the version word is `y(v, 6, 0x1F25, 12)` (section 7.10 of ISO/IEC 18004) |
| QrBch.FormatRemainderBelow | main/static/js/qr-code.js:3 | the remainder of a 5-bit value fits in 10 bits |
| QrBch.FormatWordDecodes | main/static/js/qr-code.js:3 | the format word is 15 bits long, and unmasking it gives back the level (top 2 bits) and the mask (next 3 bits) |
| QrBch.FormatWordInjective | main/static/js/qr-code.js:3 | distinct (level, mask) pairs give distinct format words |
| QrBch.VersionRemainderBelow | main/static/js/qr-code.js:3 | the remainder of a 6-bit value fits in 12 bits |
| QrBch.VersionWordDecodes | main/static/js/qr-code.js:3 | for versions 7..40 the version word is 18 bits long and its top 6 bits are the version |
| QrBch.KnownWords | main/static/js/qr-code.js:3 | level L with mask 0 gives 0x77C4 and version 7 gives 0x07C94, as in Tables C.1 and D.1 of ISO/IEC 18004 |
| QrFormat.FormatRow | main/static/js/qr-code.js:3 | the row of column 8 receiving format bit u is inside the symbol and skips the timing row and the dark module |
| QrFormat.FormatCol | main/static/js/qr-code.js:3 | the column of row 8 receiving format bit u is inside the symbol and skips the timing column and column 8 |
| QrFormat.FormatPlaces | main/static/js/qr-code.js:3 | each bit's two places are found again by the index functions, so no module holds two bits |
| QrFormat.WithFormat | main/static/js/qr-code.js:3 | writing the format word changes only format modules |
| QrFormat.ColumnCopy | main/static/js/qr-code.js:3 | reading the column copy gives 15 bits |
| QrFormat.RowCopy | main/static/js/qr-code.js:3 | reading the row copy gives 15 bits |
| QrFormat.WordBits | main/static/js/qr-code.js:3 | the 15 bits of a word |
| QrFormat.FormatReadBack | main/static/js/qr-code.js:3 | both copies of a written format word read back as that word |
| QrFormat.FormatTwice | main/static/js/qr-code.js:3 | writing a second format word replaces the first entirely |
| QrFormat.MaskFormatCommute | main/static/js/qr-code.js:3 | when the format modules are reserved, masking and writing the format commute |
| QrFormat.WordBitsInjective | main/static/js/qr-code.js:3 | two 15-bit words with the same bits are the same word |
| QrFormat.FormatIdentifies | main/static/js/qr-code.js:3 | the column copy of a written format word determines the level and the mask |
| QrFormat.WriteStep | main/static/js/qr-code.js:3 | writing format bit u changes only its two places |
| QrFormat.WriteFormat | main/static/js/qr-code.js:3 | `M` leaves the matrix equal to the old matrix with the format word for (level, mask) written over both copies |
| QrCapacity.CountWidth | main/static/js/qr-code.js:3 | `w(v, mode)`: numeric 10/12/14, alphanumeric 9/11/13, byte 8/16/16, kanji 8/10/12 bits for versions below 10, below 27 and from 27 (Table 3 of ISO/IEC 18004); always 8..16 |
| QrCapacity.DataBitsWholeCodewords | main/static/js/qr-code.js:3 | `m(v, e)` is a whole number of codewords |
| QrCapacity.PayloadBitsMonotone | main/static/js/qr-code.js:3 | more characters never need fewer data bits |
| QrCapacity.FittingCharsExact | main/static/js/qr-code.js:3 | the characters that fit in n bits are exactly the lengths whose payload is at most n bits |
| QrCapacity.CapacityMeansFit | main/static/js/qr-code.js:3 | `b(v, mode, e)`: a length is within capacity exactly when the mode indicator, the count and the payload fit in the version's data bits |
| QrCapacity.SmallestVersion | main/static/js/qr-code.js:3 | the automatic version search returns the smallest version whose capacity holds the length, or 41 when none does |
| QrCapacity.DataBitsBound | main/static/js/qr-code.js:3 | every version and level has at least 72 data bits and at most the largest of its count-width band |
| QrModes.AlnumCharsValues | main/static/js/qr-code.js:3 | the encoder's 45-character alphanumeric string lists the characters in the order of their values: the character at index k has value k (Table 5 of ISO/IEC 18004) |
| QrModes.AlnumCharIffListed | main/static/js/qr-code.js:3 | a character belongs to the alphanumeric class exactly when it occurs in the encoder's character string |
| QrModes.AlnumValueDefined | main/static/js/qr-code.js:3 | a character has a value (0..44) exactly when it is alphanumeric |
| QrModes.AlnumChar | main/static/js/qr-code.js:3 | every value 0..44 is the value of one alphanumeric character |
| QrModes.AlnumCharOfValue | main/static/js/qr-code.js:3 | an alphanumeric character is recovered from its value |
| QrModes.AlnumCharsListed | main/static/js/qr-code.js:3 | the character at index k of the string is the character of value k |
| QrModes.BuildAlnumTable | main/static/js/qr-code.js:3 | the start-up loop that fills the lookup object `g` gives it exactly the alphanumeric characters as keys, each mapped to its value |
| QrModes.TableStep | main/static/js/qr-code.js:3 | each iteration of that loop enters the character of the next value and nothing else |
| QrModes.TableComplete | main/static/js/qr-code.js:3 | after 45 iterations the object holds the whole class |
| QrModes.NumericSlice | main/static/js/qr-code.js:3 | every slice of digit text is digit text, so each three-digit group parses |
| QrModes.NumericIsAlphanumeric | main/static/js/qr-code.js:3 | numeric text passes the alphanumeric test as well |
| QrModes.AnyCaseMeansUpperAlphanumeric | main/static/js/qr-code.js:3 | the case-insensitive alphanumeric test passes exactly when the upper-cased text is alphanumeric |
| QrModes.DetectMode | main/static/js/qr-code.js:3 | with no mode requested: numeric exactly for digit text, alphanumeric exactly for non-digit alphanumeric text, octet exactly for the rest |
| QrModes.Convert | main/static/js/qr-code.js:3 | numeric mode accepts exactly digit text, unchanged; alphanumeric mode accepts exactly text that is alphanumeric in either case and gives its upper-cased form, of the same length and alphanumeric; octet mode always gives the UTF-8 bytes |
| QrModes.DetectedModeAccepts | main/static/js/qr-code.js:3 | text always converts to the mode detected for it, unchanged unless the mode is octet |
| QrModes.UpperOfAlphanumeric | main/static/js/qr-code.js:3 | upper-casing alphanumeric text leaves it unchanged |
| QrUtf8.Utf16 | main/static/js/qr-code.js:3 | a character is one code unit exactly when it is in the Basic Multilingual Plane, else a high and a low surrogate that together give its code point |
| QrUtf8.CodeUnits | main/static/js/qr-code.js:3 | the units `charCodeAt` visits: at least one per character, each below 0x10000 |
| QrUtf8.CodePoints | main/static/js/qr-code.js:3 | one value per character, its code point |
| QrUtf8.UnitBytes | main/static/js/qr-code.js:3 | the UTF-8 pattern of one value: one byte exactly below 0x80, four exactly from 0x10000, all bytes below 256 for values below 0x110000 |
| QrUtf8.OctetsInRange | main/static/js/qr-code.js:3 | the conversion of values below 0x110000 yields bytes |
| QrUtf8.Utf8 | main/static/js/qr-code.js:3 | UTF-8 by code point yields bytes (RFC 3629) |
| QrUtf8.UnitRoundTrip | main/static/js/qr-code.js:3 | the lead byte of each pattern announces the pattern's length, and the pattern decodes to the value |
| QrUtf8.OctetsRoundTrip | main/static/js/qr-code.js:3 | decoding the converted bytes gives back the values |
| QrUtf8.Utf8RoundTrip | main/static/js/qr-code.js:3 | UTF-8 by code point decodes to the text's code points |
| QrUtf8.AsWrittenDecodesToCodeUnits | main/static/js/qr-code.js:3 | the conversion as the source writes it decodes to the UTF-16 code units, not to the characters |
| QrUtf8.CodeUnitsOfBmp | main/static/js/qr-code.js:3 | inside the Basic Multilingual Plane, code units and code points coincide |
| QrUtf8.AsWrittenIsUtf8OnBmp | main/static/js/qr-code.js:3 | inside the Basic Multilingual Plane the source's conversion is exactly UTF-8 |
| QrUtf8.SupplementaryCharacter | main/static/js/qr-code.js:3 | U+1F600 is F0 9F 98 80 in UTF-8, while the source emits ED A0 BD ED B8 80 (two encoded surrogates) |
| QrCodewords.ByteOf | main/static/js/qr-code.js:3 | a number 0..255 as a byte keeps its value |
| QrCodewords.AsBytes | main/static/js/qr-code.js:3 | codewords as bytes keep their count |
| QrCodewords.Values | main/static/js/qr-code.js:3 | bytes read as numbers keep their count and each value |
| QrCodewords.ValuesOfBytes | main/static/js/qr-code.js:3 | codewords 0..255 survive the trip to bytes and back |
| QrEncodeData.WriteNumeric | main/static/js/qr-code.js:3 | the numeric loop (10 bits per three digits, then 0, 4 or 7 bits for the rest) appends exactly the numeric bits of the text |
| QrEncodeData.WriteAlnum | main/static/js/qr-code.js:3 | the alphanumeric loop (11 bits per pair `45a+b`, then 6 bits for an odd last character) appends exactly the alphanumeric bits |
| QrEncodeData.WriteOctets | main/static/js/qr-code.js:3 | the octet loop appends the eight bits of each byte, in order |
| QrEncodeData.WriteSegment | main/static/js/qr-code.js:3 | mode indicator, character count of the version's width and payload are appended, and nothing else |
| QrEncodeData.PadCodewords | main/static/js/qr-code.js:3 | the padding loop appends the alternating 236, 17 codewords until n codewords are reached, and none when there are already n |
| QrEncodeData.Finish | main/static/js/qr-code.js:3 | terminator, zero fill to the byte boundary and padding turn the written bits into the codewords `Codify` describes |
| QrEncodeData.EncodeDataAsWritten | main/static/js/qr-code.js:3 | the data codewords as the source computes them: segment, a 4-bit terminator whatever the room, fill and padding |
| QrEncodeData.EncodeData | main/static/js/qr-code.js:3 | the data codewords with the terminator shortened to the room left, as section 7.4.9 of ISO/IEC 18004 requires |
| QrGenerate.RequestedVersion | main/static/js/qr-code.js:3 | `a.version \|\| -1`: a missing version or 0 asks for the automatic choice; any other number is kept |
| QrGenerate.LevelOf | main/static/js/qr-code.js:3 | a level name in either case is known exactly when it is L, M, Q or H, and its index is 0..3 |
| QrGenerate.RequestedMode | main/static/js/qr-code.js:3 | a mode name resolves to numeric, alphanumeric or octet, never Kanji |
| QrGenerate.ChooseMode | main/static/js/qr-code.js:3 | "invalid or unsupported mode" exactly for an unknown name; with no mode, a byte array is octet |
| QrGenerate.ConvertInput | main/static/js/qr-code.js:3 | text converts exactly when it fits the mode, else "invalid data format"; a byte array is kept in octet mode and runs into a TypeError in the other modes; a result is encodable in its mode |
| QrGenerate.ConvertInputAsWritten | main/static/js/qr-code.js:3 | the conversion of the source, whose octet text goes through the code-unit conversion |
| QrGenerate.FirstFit | main/static/js/qr-code.js:3 | the version search loop returns the first version from its start whose capacity holds the length, or 41 when none does |
| QrGenerate.FirstFitUnique | main/static/js/qr-code.js:3 | a version that holds the length while no smaller one does is the one the search returns |
| QrGenerate.UndefinedLevelSearch | main/static/js/qr-code.js:3 | with an undefined level, every capacity comes from NaN arithmetic, so the search stops at once or runs to 41 |
| QrGenerate.CheckSizeAsWritten | main/static/js/qr-code.js:3 | the version and mask checks of the source: an accepted call has a version 1..40, the requested mask, and a mask the source's test lets through |
| QrGenerate.CheckAsWritten | main/static/js/qr-code.js:3 | the order of checks of `generate` as written: an accepted call has a version 1..40 and a mask the source's test lets through |
| QrGenerate.CheckSize | main/static/js/qr-code.js:3 | corrected version and mask checks: an accepted call's data fit its version and level, and its mask is -1..7 |
| QrGenerate.Check | main/static/js/qr-code.js:3 | corrected checks of `generate`: an accepted call has a known level, data that fit, and the requested mask -1..7 |
| QrGenerate.Load | main/static/js/qr-code.js:3 | the start-up code builds the exponent and logarithm tables of GF(256) exactly, and the generator polynomials of degrees 0..30, each from the previous one by the source's recurrence, in logarithm form |
| QrGenerate.ValidateSize | main/static/js/qr-code.js:3 | the corrected version and mask checks, with the search loop, decide as CheckSize does |
| QrGenerate.Validate | main/static/js/qr-code.js:3 | the corrected checks of `generate` decide as Check does |
| QrGenerate.Generate | main/static/js/qr-code.js:3 | the corrected `generate` fails exactly as Check does; otherwise it returns the finished symbol of the checked call, with the requested mask or, with none, the first mask of least penalty |
| QrGenerate.VersionRequests | main/static/js/qr-code.js:3 | a negative version asks for the automatic choice like a missing one; "invalid version" exactly for a version above 40 |
| QrGenerate.AutoVersionSmallest | main/static/js/qr-code.js:3 | the automatic version is the smallest that holds the data at the level |
| QrGenerate.ExplicitVersionKept | main/static/js/qr-code.js:3 | an explicit version that passes is used as given |
| QrGenerate.AutoVersionAccepts | main/static/js/qr-code.js:3 | data that fit some version are accepted when the version is left to `generate` and the mask is valid |
| QrGenerate.AutoModeConverts | main/static/js/qr-code.js:3 | with the mode left to `generate`, text never fails: digit and alphanumeric text are kept, other text becomes UTF-8 |
| QrGenerate.SizeCorrectionsOnlyReject | main/static/js/qr-code.js:3 | a call the corrected version and mask checks accept is accepted by the source's checks unchanged |
| QrGenerate.CorrectionsOnlyReject | main/static/js/qr-code.js:3 | for Basic Multilingual Plane text, a call the corrected checks accept is accepted by the source unchanged |
| QrGenerate.GeneratedReadsBack | main/static/js/qr-code.js:3 | a generated symbol whose free modules hold its codeword stream reads back to the mode and data of the call |
| QrGenerate.Version1L | main/static/js/qr-code.js:3 | version 1 at level L holds 41 digits or 17 bytes (Table 7 of ISO/IEC 18004) |
| QrGenerate.MaskEightAccepted | main/static/js/qr-code.js:3 | the source accepts mask 8, for which no mask pattern exists; the corrected check says "invalid mask" |
| QrGenerate.UnknownLevelAccepted | main/static/js/qr-code.js:3 | an unknown level passes the source's level check; the corrected check says "invalid ECC level" |
| QrGenerate.ExplicitVersionOverflow | main/static/js/qr-code.js:3 | 18 bytes with version 1 at level L pass the source's checks though they do not fit; the corrected check says "too large data" |
| QrInterleave.ShortBlocks | main/static/js/qr-code.js:3 | `t - len % t` short blocks: at least one, at most all t |
| QrInterleave.Shape | main/static/js/qr-code.js:3 | the data length is t short blocks of `len / t` codewords plus one more codeword per long block |
| QrInterleave.OffsetEnd | main/static/js/qr-code.js:3 | the block offsets `n[l]` end exactly at the end of the data |
| QrInterleave.Block | main/static/js/qr-code.js:3 | `data.slice(n[l], n[l + 1])` has the length of block l |
| QrInterleave.BlockSizes | main/static/js/qr-code.js:3 | the first `t - len % t` blocks hold `len / t` codewords and the rest one more (section 7.5.2 of ISO/IEC 18004) |
| QrInterleave.BlockEcc | main/static/js/qr-code.js:3 | one list of error correction codewords per block, each as long as the generator |
| QrInterleave.BlocksAreCodewords | main/static/js/qr-code.js:3 | each block followed by its error correction codewords leaves remainder zero on division by the generator: it is a Reed-Solomon codeword |
| QrInterleave.BlockOfBounds | main/static/js/qr-code.js:3 | every data codeword lies in exactly the block BlockOf names |
| QrInterleave.SourceOfPosOf | main/static/js/qr-code.js:3 | interleaving moves each data codeword to a position inside the data part from which it is read back |
| QrInterleave.PosOfSourceOf | main/static/js/qr-code.js:3 | every position of the data part receives exactly one data codeword: the interleaving is a permutation |
| QrInterleave.PosOfColumn | main/static/js/qr-code.js:3 | codeword f of block l, while all blocks have one, goes to column f, row l of the stream |
| QrInterleave.PosOfTail | main/static/js/qr-code.js:3 | the extra codeword of each long block goes after the full columns, in block order |
| QrInterleave.Interleaved | main/static/js/qr-code.js:3 | the stream holds all data and error correction codewords |
| QrInterleave.Deinterleave | main/static/js/qr-code.js:3 | the reader's reverse step recovers as many codewords as the data length |
| QrInterleave.DeinterleaveRoundTrip | main/static/js/qr-code.js:3 | reading the data back from the interleaved stream gives the data |
| QrInterleave.InterleavedEcc | main/static/js/qr-code.js:3 | error correction codeword f of block l is at position `len + f * t + l` |
| QrInterleave.BlockOffsets | main/static/js/qr-code.js:3 | the loops that fill `n` compute every block offset |
| QrInterleave.BlockCodes | main/static/js/qr-code.js:3 | the loop that fills `i` computes every block's error correction codewords |
| QrInterleave.InterleaveBlocks | main/static/js/qr-code.js:3 | `f(data, t, gen)` returns the interleaved stream of the data and the blocks' error correction codewords |
| QrInterleave.Stream | main/static/js/qr-code.js:3 | the three emitting loops together produce the interleaved stream |
| QrInterleave.DataColumns | main/static/js/qr-code.js:3 | the first loop emits the full data columns, each codeword where the interleaving puts it |
| QrInterleave.DataTails | main/static/js/qr-code.js:3 | the second loop adds the last codeword of each long block, reaching the data length |
| QrInterleave.EccColumns | main/static/js/qr-code.js:3 | the third loop adds the error correction columns, completing the stream |
| QrGrid.GridOf | main/static/js/qr-code.js:3 | a matrix read as rows keeps its dimensions |
| QrGrid.CellOf | main/static/js/qr-code.js:3 | each cell of the read matrix is the array's module |
| QrGrid.GridEq | main/static/js/qr-code.js:3 | two square matrices of one size that agree on every module are equal |
| QrGrid.GridOfEq | main/static/js/qr-code.js:3 | an array that agrees with a square matrix module by module reads as that matrix |
| QrAlignment.Positions | main/static/js/qr-code.js:3 | the alignment positions of each version: none for version 1, otherwise from 4 to `n - 9`, even, at least 12 apart and clear of the finder corners (Table E.1 of ISO/IEC 18004) |
| QrAlignment.AlignmentShape | main/static/js/qr-code.js:3 | every row of the table has that shape |
| QrPatterns.Full | main/static/js/qr-code.js:3 | the rows a block writes into the reserved flags are all ones |
| QrPatterns.Rows | main/static/js/qr-code.js:3 | the rows written into the matrix or the flags keep their number |
| QrPatterns.Stamp | main/static/js/qr-code.js:3 | a block written into a matrix changes exactly the modules it covers |
| QrPatterns.WriteBlockRow | main/static/js/qr-code.js:3 | one row of `f` writes the bits of its pattern row into the matrix and reserves them, and changes nothing else |
| QrPatterns.WriteBlock | main/static/js/qr-code.js:3 | `f(r0, c0, h, w, rows)` stamps the block into the matrix and reserves the same modules |
| QrPatterns.Timing | main/static/js/qr-code.js:3 | the timing loop changes only row 6 and column 6 between the separators |
| QrPatterns.WriteTimingPair | main/static/js/qr-code.js:3 | one iteration writes `1 & ~u` at (6, u) and (u, 6) and reserves both |
| QrPatterns.WriteTiming | main/static/js/qr-code.js:3 | the timing loop's matrix and flags are the Timing of the matrices before it |
| QrPatterns.AlignRow | main/static/js/qr-code.js:3 | the alignment patterns of one row of positions, written in order |
| QrPatterns.AlignRows | main/static/js/qr-code.js:3 | the alignment patterns of the first rows of positions, written in order |
| QrPatterns.WriteAlignmentRow | main/static/js/qr-code.js:3 | one row of the alignment loop writes that row's patterns, skipping the finder corners |
| QrPatterns.WriteAlignment | main/static/js/qr-code.js:3 | the alignment loop writes every pattern of the position table |
| QrPatterns.WithVersion | main/static/js/qr-code.js:3 | writing the first k bits of a version word changes only their two copies |
| QrPatterns.VersionStep | main/static/js/qr-code.js:3 | bit `3u + l` changes only its modules (u, n - 11 + l) and (n - 11 + l, u) |
| QrPatterns.WriteVersionBit | main/static/js/qr-code.js:3 | one bit goes into both copies, or both are reserved |
| QrPatterns.WriteVersionRow | main/static/js/qr-code.js:3 | one row u writes bits 3u to 3u + 2 into both copies |
| QrPatterns.WriteVersionWord | main/static/js/qr-code.js:3 | the version loop writes all 18 bits of the word into both copies and reserves them |
| QrPatterns.WriteVersion | main/static/js/qr-code.js:3 | from version 7, `y(v, 6, 7973, 12)` is computed and its bits written |
| QrPatterns.Blank | main/static/js/qr-code.js:3 | a new matrix of side n is all light |
| QrPatterns.Blocks | main/static/js/qr-code.js:3 | the three corner blocks keep the matrix square |
| QrPatterns.Framed | main/static/js/qr-code.js:3 | blocks, timing and alignment patterns give a matrix of side `4v + 17` |
| QrPatterns.FramedStages | main/static/js/qr-code.js:3 | that matrix is the corner blocks, then timing, then alignment patterns, in the order of `s(v)` |
| QrPatterns.Layout | main/static/js/qr-code.js:3 | the finished function patterns of version v have side `4v + 17` |
| QrPatterns.WriteBlocks | main/static/js/qr-code.js:3 | the three calls of `f` write and reserve the corner blocks |
| QrPatterns.FramedPatterns | main/static/js/qr-code.js:3 | new, distinct matrix and flag arrays holding the blocks, timing and alignment patterns |
| QrPatterns.FunctionPatterns | main/static/js/qr-code.js:3 | `s(v)` returns new, distinct arrays holding Layout(v) and its reserved flags |
| QrLayout.BlocksAt | main/static/js/qr-code.js:3 | each module of the corner blocks, as the three writes leave it |
| QrLayout.AlignRowOutside | main/static/js/qr-code.js:3 | a module no pattern of the row covers is kept |
| QrLayout.AlignRowsOutside | main/static/js/qr-code.js:3 | a module no drawn pattern covers is kept |
| QrLayout.AlignRowInside | main/static/js/qr-code.js:3 | a module a pattern of the row covers takes that pattern's bit |
| QrLayout.AlignRowsInside | main/static/js/qr-code.js:3 | a module a drawn pattern covers takes that pattern's bit, as patterns never overlap |
| QrLayout.PositionsApart | main/static/js/qr-code.js:3 | the alignment positions of each version are far enough apart for their patterns not to overlap |
| QrLayout.LayoutPlain | main/static/js/qr-code.js:3 | a module outside the alignment patterns and the version copies is what the blocks and the timing loop left |
| QrLayout.LayoutCovered | main/static/js/qr-code.js:3 | a module under an alignment pattern is that pattern's |
| QrLayout.CornersClear | main/static/js/qr-code.js:3 | the three 9 by 9 corners hold no alignment pattern and no version information |
| QrLayout.TopLeftFinder | main/static/js/qr-code.js:3 | the top left block is the finder pattern around (3, 3) with its separator |
| QrLayout.TopRightFinder | main/static/js/qr-code.js:3 | the top right block is the finder pattern around (3, n - 4) with its separator |
| QrLayout.BottomLeftFinder | main/static/js/qr-code.js:3 | the bottom left block is the finder pattern around (n - 4, 3) with its separator |
| QrLayout.AlignmentRings | main/static/js/qr-code.js:3 | the rows `[31, 17, 21, 17, 31]` are dark on rings 0 and 2 and light on ring 1 |
| QrLayout.FinderPatterns | main/static/js/qr-code.js:3 | around each finder centre, rings 0, 1 and 3 are dark, ring 2 and the separator light, and all of it reserved (section 6.3.3 of ISO/IEC 18004) |
| QrLayout.TimingInBox | main/static/js/qr-code.js:3 | where an alignment pattern crosses a timing line its modules alternate in step with it |
| QrLayout.TimingOutside | main/static/js/qr-code.js:3 | outside the alignment patterns the timing modules are the loop's `1 & ~u` |
| QrLayout.TimingCovered | main/static/js/qr-code.js:3 | a timing module under an alignment pattern is dark exactly at even positions |
| QrLayout.TimingPlain | main/static/js/qr-code.js:3 | a timing module outside the alignment patterns is dark exactly at even positions |
| QrLayout.TimingModule | main/static/js/qr-code.js:3 | row 6 and column 6 between the separators are dark exactly at even positions and reserved (section 6.3.5 of ISO/IEC 18004) |
| QrLayout.DarkModule | main/static/js/qr-code.js:3 | the module at (n - 8, 8) is dark and reserved |
| QrLayout.AlignmentPatterns | main/static/js/qr-code.js:3 | each drawn alignment pattern is dark on rings 0 and 2 around its centre, light on ring 1, and reserved (section 6.3.6 of ISO/IEC 18004) |
| QrLayout.VersionBits | main/static/js/qr-code.js:3 | a version word has 18 bits |
| QrLayout.TopRightVersion | main/static/js/qr-code.js:3 | the copy at the top right reads back 18 bits |
| QrLayout.BottomLeftVersion | main/static/js/qr-code.js:3 | the copy at the bottom left reads back 18 bits |
| QrLayout.WithVersionReadBack | main/static/js/qr-code.js:3 | both copies of a written version word read back as the word |
| QrLayout.VersionReadBack | main/static/js/qr-code.js:3 | from version 7, both copies in the layout read back as the version's BCH word (section 6.10 of ISO/IEC 18004) |
| QrLayout.VersionReserved | main/static/js/qr-code.js:3 | every module of both version copies is reserved |
| QrLayout.VersionBitsInjective | main/static/js/qr-code.js:3 | two 18-bit words with the same bits are equal |
| QrLayout.VersionIdentifies | main/static/js/qr-code.js:3 | two versions from 7 to 40 with the same version bits are the same version |
| QrLayout.FormatModuleReserved | main/static/js/qr-code.js:3 | a format module is reserved by the corner blocks and stays reserved |
| QrLayout.FormatModulesReserved | main/static/js/qr-code.js:3 | every format module of every version is reserved, as the format writer and the masks need |
| QrPlacement.PairCells | main/static/js/qr-code.js:3 | a column pair visits two modules per row, one row after another |
| QrPlacement.Order | main/static/js/qr-code.js:3 | for an odd side of at least 21 every module the zigzag visits lies in the symbol |
| QrPlacement.StreamBits | main/static/js/qr-code.js:3 | the first len bits of the codeword stream, `e[a >> 3] >> (7 & ~a) & 1` for each a |
| QrPlacement.StreamBitsStep | main/static/js/qr-code.js:3 | one more stream bit is the bit at the next index |
| QrPlacement.Set | main/static/js/qr-code.js:3 | writing one module changes that module only |
| QrPlacement.Placed | main/static/js/qr-code.js:3 | placing the stream keeps the matrix's dimensions |
| QrPlacement.Collect | main/static/js/qr-code.js:3 | a reader collecting the unreserved modules in placement order gets one bit per unreserved visited module |
| QrPlacement.PlacedElsewhere | main/static/js/qr-code.js:3 | placement changes no reserved module and no module outside the order |
| QrPlacement.CollectFrame | main/static/js/qr-code.js:3 | collecting reads only the unreserved modules of the order |
| QrPlacement.PlacedStep | main/static/js/qr-code.js:3 | the last visited module, when free, takes the stream bit numbered by the free modules before it, and nothing else changes |
| QrPlacement.CollectBeforeLast | main/static/js/qr-code.js:3 | placing the last module does not disturb what the earlier modules hold, as no module repeats |
| QrPlacement.ReadBack | main/static/js/qr-code.js:3 | when no module is visited twice, collecting the unreserved modules after placement gives the stream's bits in order |
| QrPlacement.DataBitOfByte | main/static/js/qr-code.js:3 | stream bit `8i + b` is bit b of codeword i, most significant first |
| QrPlacement.ByteOfBits | main/static/js/qr-code.js:3 | a codeword is rebuilt from its eight bits |
| QrPlacement.StreamByte | main/static/js/qr-code.js:3 | stream bits `8i` to `8i + 7` are the bits of codeword i |
| QrPlacement.BytesReadBack | main/static/js/qr-code.js:3 | with room for the whole stream, every codeword is read back from the placed symbol |
| QrPlacement.PairColumns | main/static/js/qr-code.js:3 | each pair's columns lie in the symbol, avoid column 6, and lie right of the next pair's |
| QrPlacement.HeadStep | main/static/js/qr-code.js:3 | the outer loop runs once per pair, stepping over column 6 and moving two columns left each time |
| QrPlacement.PairWithin | main/static/js/qr-code.js:3 | a pair's modules lie in the symbol, in its two columns, off column 6 |
| QrPlacement.OrderUpToWithin | main/static/js/qr-code.js:3 | the modules of the earlier pairs lie in the symbol, off column 6, and right of the current pair |
| QrPlacement.PairDistinct | main/static/js/qr-code.js:3 | a pair visits no module twice |
| QrPlacement.OrderUpToDistinct | main/static/js/qr-code.js:3 | the zigzag so far visits no module twice |
| QrPlacement.PairInOrder | main/static/js/qr-code.js:3 | every module of an earlier pair is in the order |
| QrPlacement.PairOf | main/static/js/qr-code.js:3 | every module outside column 6 is visited by some pair at some step |
| QrPlacement.OrderCovers | main/static/js/qr-code.js:3 | the zigzag visits exactly the modules outside column 6, each once (section 7.7.3 of ISO/IEC 18004) |
| QrPlacement.PlacementKeeps | main/static/js/qr-code.js:3 | placement leaves every reserved module and all of column 6 as they were |
| QrPlacement.PlaceModule | main/static/js/qr-code.js:3 | one module of the inner loop: a reserved module is skipped; a free one takes the next stream bit and advances the bit index |
| QrPlacement.PlaceRow | main/static/js/qr-code.js:3 | the two modules of a row, right column first |
| QrPlacement.PlacePair | main/static/js/qr-code.js:3 | one column pair, all rows, upwards or downwards by the pair's direction |
| QrPlacement.PlaceNextPair | main/static/js/qr-code.js:3 | one pass of the outer loop places the next pair and turns round |
| QrPlacement.PlaceData | main/static/js/qr-code.js:3 | the placement loops leave the matrix as Placed over the zigzag order describes |
| QrMask.Masked | main/static/js/qr-code.js:3 | mask k flips exactly the unreserved modules its condition selects (section 7.8.2 of ISO/IEC 18004) |
| QrMask.MaskTwice | main/static/js/qr-code.js:3 | applying a mask twice gives the matrix back, which the search relies on to undo a trial |
| QrMask.MaskedAgree | main/static/js/qr-code.js:3 | masking only looks at each module itself |
| QrMask.ApplyMask | main/static/js/qr-code.js:3 | `A(r, t, e)` flips in place exactly the modules Masked flips |
| QrPenalty.RunOf | main/static/js/qr-code.js:3 | a run stays inside the line and is non-empty when its first module has the colour |
| QrPenalty.RunEnds | main/static/js/qr-code.js:3 | a run ends at a module of the other colour or at the end of the line |
| QrPenalty.RunSlice | main/static/js/qr-code.js:3 | a run is that many modules of its colour |
| QrPenalty.PairsStretch | main/static/js/qr-code.js:3 | the alternating dark and light runs from a position spell the rest of the line |
| QrPenalty.PairsPositive | main/static/js/qr-code.js:3 | only the first and last runs of the list can be empty |
| QrPenalty.RunsDescribe | main/static/js/qr-code.js:3 | the run list `[0, dark, light, ...]` of a line spells the line, and its inner runs are non-empty |
| QrPenalty.QuietLine | main/static/js/qr-code.js:3 | a line with no run of five and no finder-like pattern scores nothing |
| QrPenalty.QuietPrefix | main/static/js/qr-code.js:3 | the same for every prefix of the run list |
| QrPenalty.NoFinderBelow | main/static/js/qr-code.js:3 | no finder-like pattern ends before the sixth run |
| QrPenalty.ScoreLine | main/static/js/qr-code.js:3 | the inner function `t(u)` scores runs of five or more at 3 plus the excess and each 1:1:3:1:1 pattern beside four light widths at 40 |
| QrPenalty.Line | main/static/js/qr-code.js:3 | a row or column has the symbol's side |
| QrPenalty.BalanceSteps | main/static/js/qr-code.js:3 | the balance term is 10k exactly when the dark share is between k and k + 1 steps of 5% from one half |
| QrPenalty.BalanceFree | main/static/js/qr-code.js:3 | the balance term is zero exactly when the dark share lies strictly between 45% and 55% |
| QrPenalty.MeasureRun | main/static/js/qr-code.js:3 | the inner `for` of the run scan measures the run starting at its position |
| QrPenalty.LineRuns | main/static/js/qr-code.js:3 | the run scan of a row or column builds exactly its run list |
| QrPenalty.PushRuns | main/static/js/qr-code.js:3 | each pass of the scan appends one dark and one light run and moves past them |
| QrPenalty.RowBlocks | main/static/js/qr-code.js:3 | the block loop counts the uniform 2x2 blocks below a row and the row's dark modules |
| QrPenalty.ScoreRow | main/static/js/qr-code.js:3 | one pass of the outer loop scores a row, the column of the same index and the blocks under the row |
| QrPenalty.ComputePenalty | main/static/js/qr-code.js:3 | `C(r)` is the sum over rows and columns plus the balance term (section 7.8.3 of ISO/IEC 18004, as the source scores it) |
| QrMaskSearch.Candidate | main/static/js/qr-code.js:3 | a masked symbol with its format information keeps its side |
| QrMaskSearch.Scores | main/static/js/qr-code.js:3 | there is one penalty per mask, eight in all |
| QrMaskSearch.BestStart | main/static/js/qr-code.js:3 | the first score is the best of the first one |
| QrMaskSearch.BestStep | main/static/js/qr-code.js:3 | a strictly smaller score takes over, an equal one does not, as `v > p` decides |
| QrMaskSearch.FirstBestUnique | main/static/js/qr-code.js:3 | at most one mask is the first of least penalty |
| QrMaskSearch.FirstBestExists | main/static/js/qr-code.js:3 | some mask is always the first of least penalty |
| QrMaskSearch.Trial | main/static/js/qr-code.js:3 | masking and writing the format give the candidate, whatever format word the previous trial left, and masking again undoes the mask |
| QrMaskSearch.ApplyCandidate | main/static/js/qr-code.js:3 | `A(h, l, k)` then `M(h, 0, a, k)` mask the matrix and write mask k's format word |
| QrMaskSearch.TryMask | main/static/js/qr-code.js:3 | one trial scores candidate k and leaves the unmasked symbol with k's format word |
| QrMaskSearch.Keep | main/static/js/qr-code.js:3 | the comparison keeps the first mask of least penalty seen so far |
| QrMaskSearch.SearchMask | main/static/js/qr-code.js:3 | the search returns the first mask of least penalty and leaves the symbol unmasked |
| QrMaskSearch.FinishSymbol | main/static/js/qr-code.js:3 | the requested mask, or the searched one when none was requested, is applied with its format information |
| QrBits.Pow2 | main/static/js/qr-code.js:3 | powers of two are positive |
| QrBits.Pow2Add | main/static/js/qr-code.js:3 | `2^(a+b) == 2^a * 2^b` |
| QrBits.BitsOf | main/static/js/qr-code.js:3 | the low `width` bits of a value, most significant first, are `width` bits |
| QrBits.BitsValueBound | main/static/js/qr-code.js:3 | k bits spell a number below 2^k |
| QrBits.BitsRoundTrip | main/static/js/qr-code.js:3 | a value below 2^width written in width bits reads back as itself |
| QrBits.BitsOfValue | main/static/js/qr-code.js:3 | bits read as a number and written back in as many bits are the same bits |
| QrBits.ShrDiv | main/static/js/qr-code.js:3 | `v >> t` on a non-negative v is `v / 2^t` |
| QrBits.BitsSplit | main/static/js/qr-code.js:3 | the low a + b bits of a value are its bits above position b, then its low b bits |
| QrBits.BytesBits | main/static/js/qr-code.js:3 | a byte array spells eight bits per byte |
| QrBits.BytesBitsAppend | main/static/js/qr-code.js:3 | one more byte appends its eight bits |
| QrBits.ByteBitsInjective | main/static/js/qr-code.js:3 | a byte is determined by its eight bits |
| QrBits.Unpack | main/static/js/qr-code.js:3 | reading bits back as bytes gives one byte per whole eight bits |
| QrBits.UnpackBytesBits | main/static/js/qr-code.js:3 | unpacking the bits of a byte array gives the array |
| QrBits.BytesBitsInjective | main/static/js/qr-code.js:3 | two byte arrays with the same bits are equal |
| QrBits.UnpackInRange | main/static/js/qr-code.js:3 | unpacking yields bytes |
| QrBits.UnpackBits | main/static/js/qr-code.js:3 | whole bytes of bits unpack to an array whose bits they are |
| QrBits.BytesBitsConcat | main/static/js/qr-code.js:3 | the bits of two arrays one after the other are the bits of the first, then of the second |
| QrBits.FillWidth | main/static/js/qr-code.js:3 | fewer than eight zero bits complete any bit count to whole bytes |
| QrBits.Write | main/static/js/qr-code.js:3 | `i(value, width)` on the buffer state (bytes, unfinished byte, free bits) keeps it well formed and appends the low width bits of value |
| QrBits.WriteTop | main/static/js/qr-code.js:3 | the first part of `i`: completes the unfinished byte and pushes whole bytes, appending all but the lowest t bits |
| QrBits.PutBytes | main/static/js/qr-code.js:3 | the unfinished byte completed with the top bits of the value, then the whole bytes below them, spell the state's bits followed by those value bits |
| QrBits.PushBytes | main/static/js/qr-code.js:3 | `while (t >= 8) a.push(r >> (t -= 8) & 255)`: pushes whole bytes from the top until fewer than eight bits of the value remain |
| QrBits.WriteLow | main/static/js/qr-code.js:3 | the last part of `i`: puts the lowest t bits into the unfinished byte |
| QrBits.BitWriter.Length | main/static/js/qr-code.js:3 | the buffer's bit count is the number of bits written |
| QrBits.BitWriter.constructor | main/static/js/qr-code.js:3 | a new buffer holds no bits |
| QrBits.BitWriter.Put | main/static/js/qr-code.js:3 | `i(value, width)` appends the low width bits of value to what the buffer holds |
| QrBits.BitWriter.Flush | main/static/js/qr-code.js:3 | `u < 8 && a.push(o)` returns bytes spelling the written bits, then zeros to the byte boundary |
| QrEncoder.Pow10 | main/static/js/qr-code.js:3 | powers of ten are positive |
| QrEncoder.DigitsValue | main/static/js/qr-code.js:3 | `parseInt` of k digits is below 10^k |
| QrEncoder.DigitsOf | main/static/js/qr-code.js:3 | a numeral of n digits is digit text of length n |
| QrEncoder.DigitsRoundTrip | main/static/js/qr-code.js:3 | a numeral parsed and written back with as many digits is itself, leading zeros included |
| QrEncoder.DigitsFitWidth | main/static/js/qr-code.js:3 | one, two or three digits fit 4, 7 or 10 bits |
| QrEncoder.Group | main/static/js/qr-code.js:3 | each group of three digits takes 10 bits |
| QrEncoder.NumericGroups | main/static/js/qr-code.js:3 | k groups take 10k bits |
| QrEncoder.NumericBits | main/static/js/qr-code.js:3 | numeric data takes the payload size the capacity table assumes for its length |
| QrEncoder.Pair | main/static/js/qr-code.js:3 | each pair of characters takes 11 bits |
| QrEncoder.AlnumPairs | main/static/js/qr-code.js:3 | k pairs take 11k bits |
| QrEncoder.AlnumBits | main/static/js/qr-code.js:3 | alphanumeric data takes the payload size the capacity table assumes for its length |
| QrEncoder.PairFits | main/static/js/qr-code.js:3 | `45a + b` fits 11 bits and a single value fits 6 |
| QrEncoder.Payload | main/static/js/qr-code.js:3 | the payload of any mode takes the size the capacity table assumes |
| QrEncoder.SegmentBits | main/static/js/qr-code.js:3 | a segment is 4 mode bits, the version's count width and the payload |
| QrEncoder.FitsIffCapacity | main/static/js/qr-code.js:3 | data fit a version and level exactly when their length is within the capacity `b(v, mode, e)` |
| QrEncoder.Codewords | main/static/js/qr-code.js:3 | `m(v, e) >> 3` data codewords hold exactly the data bits of the version and level |
| QrEncoder.CountFits | main/static/js/qr-code.js:3 | data that fit have a segment within the data codewords and a length the count indicator can hold |
| QrEncoder.Pad | main/static/js/qr-code.js:3 | the pad codewords alternate 236 and 17, starting with 236 (section 7.4.10 of ISO/IEC 18004) |
| QrEncoder.TerminatorWidth | main/static/js/qr-code.js:3 | the terminator is four bits, cut to the room left when fewer remain |
| QrEncoder.Filled | main/static/js/qr-code.js:3 | segment, terminator and zero fill end on a byte boundary |
| QrEncoder.PadCount | main/static/js/qr-code.js:3 | padding brings fewer than n codewords up to exactly n, and adds none to n or more |
| QrEncoder.CodifyShape | main/static/js/qr-code.js:3 | the codewords are the bytes of the filled bits, then the padding |
| QrEncoder.CodifyBytes | main/static/js/qr-code.js:3 | the codewords are bytes |
| QrEncoder.CodifyBits | main/static/js/qr-code.js:3 | the codewords spell the segment, the terminator, the fill and the padding |
| QrEncoder.DataCodewordsLength | main/static/js/qr-code.js:3 | the corrected encoder emits exactly the n data codewords, all bytes |
| QrEncoder.AsWrittenLength | main/static/js/qr-code.js:3 | the source emits n codewords when the segment leaves room for a 4-bit terminator, and n + 1 otherwise |
| QrEncoder.AsWrittenAgrees | main/static/js/qr-code.js:3 | with room for the whole terminator, the source and the corrected encoder agree |
| QrEncoder.Version1L | main/static/js/qr-code.js:3 | version 1 at level L has 19 data codewords and holds 41 digits |
| QrEncoder.TerminatorOverflow | main/static/js/qr-code.js:3 | 41 digits at version 1-L leave 1 bit of room; the source emits 20 codewords where the symbol has 19, the corrected encoder 19 |
| QrEncoder.DecodeDigits | main/static/js/qr-code.js:3 | a decoded numeral of k digits is digit text of length k |
| QrEncoder.DigitsDecode | main/static/js/qr-code.js:3 | one, two or three digits decode back from their bits |
| QrEncoder.GroupsRoundTrip | main/static/js/qr-code.js:3 | the first k groups decode back to the first 3k digits |
| QrEncoder.GroupDecode | main/static/js/qr-code.js:3 | one group's bits decode to its three digits |
| QrEncoder.PairOfDecode | main/static/js/qr-code.js:3 | one pair's bits decode to its two characters |
| QrEncoder.GroupsStep | main/static/js/qr-code.js:3 | one more group decodes to three more digits |
| QrEncoder.PairsAppend | main/static/js/qr-code.js:3 | appending a pair's bits appends its two characters to the decoding |
| QrEncoder.GroupsAppend | main/static/js/qr-code.js:3 | appending a group's bits appends its three digits to the decoding |
| QrEncoder.NumericRoundTrip | main/static/js/qr-code.js:3 | numeric payload decodes back to the digits |
| QrEncoder.DecodePair | main/static/js/qr-code.js:3 | a decoded pair is two alphanumeric characters |
| QrEncoder.DecodeSingle | main/static/js/qr-code.js:3 | a decoded single is one alphanumeric character |
| QrEncoder.PairDecode | main/static/js/qr-code.js:3 | the 11 bits of a pair and the 6 bits of a single decode to their characters |
| QrEncoder.PairsRoundTrip | main/static/js/qr-code.js:3 | the first k pairs decode back to the first 2k characters |
| QrEncoder.PairsStep | main/static/js/qr-code.js:3 | one more pair decodes to two more characters |
| QrEncoder.AlnumRoundTrip | main/static/js/qr-code.js:3 | alphanumeric payload decodes back to the characters |
| QrEncoder.ModeOf | main/static/js/qr-code.js:3 | a decoded mode indicator is that of numeric, alphanumeric or octet mode |
| QrEncoder.PayloadRoundTrip | main/static/js/qr-code.js:3 | the payload of encodable data decodes back to the data |
| QrEncoder.ModeStep | main/static/js/qr-code.js:3 | the mode indicator in front decodes to the mode |
| QrEncoder.CountStep | main/static/js/qr-code.js:3 | the character count in front decodes to the length |
| QrEncoder.PayloadStep | main/static/js/qr-code.js:3 | the payload in front decodes to the data |
| QrEncoder.SegmentRoundTrip | main/static/js/qr-code.js:3 | a segment decodes to its mode and data whatever follows it, when its length fits the count indicator |
| QrEncoder.CodifyDecode | main/static/js/qr-code.js:3 | codewords made from a segment decode to the mode and data, whatever the terminator width and padding |
| QrEncoder.DataCodewordsDecode | main/static/js/qr-code.js:3 | the corrected data codewords decode to the mode and data |
| QrSymbol.RowShape | main/static/js/qr-code.js:3 | every version and level has at least one block and at most 30 error correction codewords per block |
| QrSymbol.DataBytes | main/static/js/qr-code.js:3 | data that fit give exactly the symbol's data codewords, as bytes |
| QrSymbol.TotalCodewords | main/static/js/qr-code.js:3 | the symbol's codewords include its data codewords |
| QrSymbol.Stream | main/static/js/qr-code.js:3 | the interleaved stream has the symbol's total number of codewords |
| QrSymbol.SizeOdd | main/static/js/qr-code.js:3 | the side `4v + 17` is odd and at least 21 |
| QrSymbol.Zigzag | main/static/js/qr-code.js:3 | the placement order stays inside the symbol |
| QrSymbol.PlacedSymbol | main/static/js/qr-code.js:3 | the placed symbol has side `4v + 17` |
| QrSymbol.SymbolOf | main/static/js/qr-code.js:3 | the finished symbol has side `4v + 17` |
| QrSymbol.EncodeSymbol | main/static/js/qr-code.js:3 | the corrected `L(t, e, n, a, o)` returns a new array holding the finished symbol of the stream, with the requested mask or the first of least penalty |
| QrSymbol.FormatTable | main/static/js/qr-code.js:3 | the format bits of the 32 level and mask pairs |
| QrSymbol.FormatFrom | main/static/js/qr-code.js:3 | a format match names a level 0..3 and a mask 0..7 |
| QrSymbol.WordsDiffer | main/static/js/qr-code.js:3 | different level and mask pairs have different format bits |
| QrSymbol.FormatFound | main/static/js/qr-code.js:3 | the search of the table finds the first level and mask with the given bits |
| QrSymbol.FormatOfWord | main/static/js/qr-code.js:3 | the format bits of a level and mask read as that level and mask |
| QrSymbol.ReadBytes | main/static/js/qr-code.js:3 | a reader takes count bytes from the collected bits |
| QrSymbol.SymbolFormat | main/static/js/qr-code.js:3 | both format copies of the finished symbol hold the word of its level and mask and read as them |
| QrSymbol.UnmaskedBits | main/static/js/qr-code.js:3 | unmasking the finished symbol gives back the placed modules on every unreserved cell |
| QrSymbol.PlacedBytesRead | main/static/js/qr-code.js:3 | bytes placed along an order of distinct cells read back, when the free cells hold them all |
| QrSymbol.StreamReadBack | main/static/js/qr-code.js:3 | every byte of the stream reads back from the unmasked symbol, when the unreserved modules hold it all |
| QrSymbol.SymbolDecodes | main/static/js/qr-code.js:3 | reading the symbol `L` writes, with any mask, gives back the mode and the data, when the unreserved modules hold the whole stream |
| QrSymbol.SymbolKeeps | main/static/js/qr-code.js:3 | a reserved module outside the format information keeps its function-pattern value through placement, masking and format |
| QrSymbol.SymbolFinders | main/static/js/qr-code.js:3 | the finder patterns and separators survive in the finished symbol |
| QrSymbol.SymbolTiming | main/static/js/qr-code.js:3 | the timing patterns survive: dark exactly at even positions |
| QrSymbol.BoxOffFormat | main/static/js/qr-code.js:3 | no alignment pattern reaches a format module |
| QrSymbol.SymbolAlignment | main/static/js/qr-code.js:3 | the alignment patterns survive in the finished symbol |
| QrSymbol.SymbolDarkModule | main/static/js/qr-code.js:3 | the dark module survives in the finished symbol |
| QrSymbol.SymbolKeepsPatterns | main/static/js/qr-code.js:3 | the finished symbol keeps every function pattern outside the format information |
| QrSymbol.KeptVersion | main/static/js/qr-code.js:3 | a symbol that keeps its function patterns reads back the version information of v |
| QrSymbol.SymbolVersion | main/static/js/qr-code.js:3 | from version 7, both version copies survive in the finished symbol |

## Left out

- HTTP, websocket and message plumbing (views, consumers, routing, middleware, `app/routes.py`, `app/deps.py`, `app/main.py`, `app/lifespan.py`) is not part of this model. A client refresh is an entry appended to a log.
- The AI roast generators (`main/games/services.py`, `app/services/ai.py`, the prompts) are a function parameter returning the list of texts.
- `asyncio.timeout`, `sleep` and the database clock are explicit parameters: `now` in microseconds, and one optional upload per second for the polling loop. The one-second sleeps are the index into that sequence.
- Randomness is a parameter: `order_by('?')` for the target photo, the game-code generator and uuid session ids. The models state only membership and format.
- `generate_unique_game_code` in `main/games/utils.py` is not part of this model. A new game's code is any four capital letters, and a clash fails the unique index.
- Jinja rendering itself is an abstract function of template and context. Only the name and block parsing, the context filling and the errors are modelled.
- Settings and configuration files are not part of this model.
- Commented-out code is not modelled: `app/notifications.py`, `main/games/services/game_flow.py:64-149`, `app/models.py:185-261`.
- `create_photo` caches the uploaded file under a key built from `uuid4()`. The cache and the file content are left out, and the key is a parameter.
- Lifecycle: `__init_subclass__` scanning, signal registration, `deepcopy` and `call_sync_or_async` are left out, because they are Python reflection. `RunHandlers` takes the registered hooks as a list.
- Lifecycle: the handlers as connected are modelled separately (`SignalAsWritten`) and listed under Findings. That covers the undefined `previous_states` (`app/tortoise_lifecycle.py:162-182`), the update handlers that skip the field check (`app/tortoise_lifecycle.py:86-103`), the delete partial whose call lacks `update_fields` (`app/tortoise_lifecycle.py:110-128`), which also keeps the second delete registration (`app/tortoise_lifecycle.py:185-211`) from ever being called, and the `self` parameter that never binds. The flag names also disagree (`app/tortoise_lifecycle.py:227,347,391`), which is stated as `DecoratedHooksNeverGetPrevious`.
- Lifecycle.SignalAsWritten: Tortoise calls every listener of a signal in registration order and then gathers the coroutines. A call that raises (the delete partial) ends the signal before any coroutine runs. Otherwise every coroutine runs, and the model takes the first exception in registration order as the one the save raises. The bodies of hooks that do bind are assumed not to raise.
- Lifecycle.RunHandlers, Lifecycle.InvokedIff, Lifecycle.NoSnapshotNoWatchedUpdate, Lifecycle.DeleteHooksAlwaysRun: state the intended dispatch (gate, field check, each hook once). The handlers as connected do not do this; see `Lifecycle.MethodHooksNeverRun`, `Lifecycle.UpdateSaveRaises`, `Lifecycle.WatchedFieldsNotChecked` and `Lifecycle.DeleteRaises`.
- AppModels.Store.AddPlayer: gives the intended effect, one PLAYER_JOINED event. As connected, the hook raises TypeError and stores nothing (`AppModels.ConnectionHooksAsWritten`).
- AppModels.Store.SaveConnection: gives the intended effect of `create_connection_event`. As connected, an update raises TypeError and stores nothing (`AppModels.ConnectionHooksAsWritten`).
- Presence.HeartbeatEvents, Presence.SweepEvents: `app/crud.py` writes through SQLAlchemy and a raw UPDATE, so no Tortoise hook fires there. These state only the events the connection hook would compute for those changes.
- Presence.Heartbeat: the three `datetime.now()` readings at `app/crud.py:123-129` are one `now`; the microseconds between them are not modelled.
- Presence.MarkStale: returns the UPDATE's row count, the value the source prints and tests before committing; the source function itself returns None.
- GameStore.GetGameByCode, Presence.GetGameByCode: codes are taken to be ASCII. `Text.Upper` maps only a to z, where Python's `str.upper()` also maps other letters and can lengthen text ('ﬁ' becomes "FI").
- GameFlow.PlayGameRoundInBackground, GameFlow.TimeoutRefreshes, GameStore.Db.DeleteRound: give the intended timeout branch: the round is deleted with the database's cascade, and the clients are refreshed a second time. As written, `main/games/services/game_flow.py:25` calls the synchronous ORM delete inside the coroutine. Django's async-safety rule makes that call raise SynchronousOnlyOperation, so the branch ends with that exception: nothing is deleted and there is no second refresh (`GameFlow.TimeoutAsWritten`, under Findings). In neither case is the game's state reverted.
- `GameRound`, its `stage` and `stage_seconds_total` do not appear in `main/games/models.py`. The store takes its schema from `main/games/migrations/0001_initial.py` and the stages from `main/games/enums.py`.
- The `print` logging of the stale sweep is left out, because it is output only.
- The DOM custom element `QRCodeElement` and `generateHTML`/`generateSVG`/`generatePNG` are left out. They are rendering with floating-point module sizes and canvas, and `app/static/js/sse-preserve.js` is htmx glue.
- QrPenalty.ComputePenalty: the balance term is computed exactly as `10 · ⌊|20a − 10e²| / e²⌋` for a dark modules on a side of e, where the source uses float `Math.abs(a/e/e-.5)/.05|0`. The two differ where the float quotient falls just below a whole number: at side 25 with 375 dark modules, JavaScript gives 1 step (10 points) and the exact value is 2 (20 points). The mask chosen can therefore differ on such ties.
- QR matrices are `array2<bool>`, where the source has arrays of arrays whose unwritten entries are `undefined`. The model starts every cell as false (light).
- Byte arrays passed to `generate` are sequences of bytes. Entries outside 0..255, non-integer versions or masks and non-string modes or levels are not modelled.
- QrGenerate.Generate: is the corrected `generate`. It runs the corrected checks (`QrGenerate.Validate`) and builds the symbol with the corrected `L` (`QrSymbol.EncodeSymbol`). The source goes on where this member fails: with an unknown level it indexes its tables with `undefined` (`UnknownLevelAccepted`), with mask 8 it reads a mask pattern that does not exist (`MaskEightAccepted`), and with an explicit version too small for the data it encodes them anyway (`ExplicitVersionOverflow`). The source's output for these calls is not modelled. Octet text with supplementary characters is converted to UTF-8, where the source emits two 3-byte sequences per character (`QrUtf8.SupplementaryCharacter`).
- QrGenerate.Validate: decides as the corrected `Check`, not as the source's throwing checks (`CheckAsWritten`). It rejects an unknown level, mask 8 and an explicit version too small for the data, which the source accepts. It measures octet text in UTF-8 bytes, where the source counts its 3-byte encoding of each surrogate, so the two can disagree on capacity for text outside the Basic Multilingual Plane (`QrGenerate.CorrectionsOnlyReject` holds inside that plane).
- QrGenerate.ValidateSize: decides as the corrected `CheckSize`, not as `CheckSizeAsWritten`. It rejects mask 8 and an explicit version too small for the data, which the source accepts (`QrGenerate.SizeCorrectionsOnlyReject`).
- QrSymbol.EncodeSymbol: is the corrected `L`. It cuts the terminator to the bits that remain (`QrEncodeData.EncodeData`), where the source always writes 4 bits and can emit one codeword more than the symbol holds (`QrEncoder.TerminatorOverflow`). It requires the data to fit the version and level, where the source reaches `L` with data that overflow an explicit version.
- QrGenerate.CheckAsWritten: states only the version and mask ranges of an accepted call, since with an unknown level the source's later steps are undefined behaviour.
- QrGenerate.Load: the exp/log tables and generator polynomials are passed as parameters built once, where the source keeps them in module-level variables.
- QrSymbol.SymbolDecodes: `Room(v, e)` holds when the unreserved modules of version v hold all the codewords. It is a hypothesis, proved for no version. `QrGenerate.GeneratedReadsBack` carries the same hypothesis.
- QrSymbol.SymbolDecodes: the reader uses no error correction. It reads the data codewords back from an undamaged symbol.
- QrLayout.VersionIdentifies is stated over 32-bit version numbers (`bv32`).
- QrPlacement: `Placed` is total and skips a cell outside the grid, where the source would index a missing row. The zigzag order only yields cells inside the grid (`QrPlacement.OrderUpToWithin`).
- QrGrid.GridOfEq: proves one direction only. Equal cells give equal grids.
- Kanji mode has a count width and an indicator in the capacity table. The source never selects it, and the model has no Kanji encoder either.

## Findings

| source | as written | input that shows it | evidently intended | confidence | as-written member | corrected member |
|---|---|---|---|---|---|---|
| main/games/models.py:141-142 | `seconds_left` uses `timedelta.seconds`, which drops whole days | a SUBMIT_PHOTOS round created 86405 s ago shows 55 s left | 0 s left once the limit has elapsed, however long ago | not executed | LegacyModels.SecondsLeftAsWrittenRestartsAfterADay | LegacyModels.SecondsLeft |
| main/static/js/qr-code.js:3 | octet text is converted UTF-16 code unit by code unit, so a surrogate pair becomes two 3-byte sequences (CESU-8) | U+1F600 gives ED A0 BD ED B8 80 | UTF-8 F0 9F 98 80 | not executed | QrUtf8.SupplementaryCharacter | QrUtf8.Utf8RoundTrip |
| main/static/js/qr-code.js:3 | the 4-bit terminator is written even when fewer bits remain | 41 digits at version 1, level L: 151 bits, 20 codewords where the symbol has 19 | terminator cut to the bits that remain (section 7.4.9 of ISO/IEC 18004), exactly 19 codewords | not executed | QrEncoder.TerminatorOverflow | QrEncoder.DataCodewordsLength |
| main/static/js/qr-code.js:3 | the mask check `h<0\|\|h>8` lets 8 through | `generate("1", {mask: 8})` | masks 0..7 only, "invalid mask" for 8 | not executed | QrGenerate.MaskEightAccepted | QrGenerate.CheckSize |
| main/static/js/qr-code.js:3 | an unknown level gives `undefined`, and `i<0\|\|i>3` is false for it | `generate("12", {ecclevel: "X"})` passes the checks | "invalid ECC level" | not executed | QrGenerate.UnknownLevelAccepted | QrGenerate.Check |
| main/static/js/qr-code.js:3 | an explicit version is checked against 1..40 only, not against the capacity | 18 bytes with version 1 at level L (capacity 17) | "too large data" | not executed | QrGenerate.ExplicitVersionOverflow | QrGenerate.CheckSize |
| app/models.py:125-131 | `create_player_joined_event(self)` is collected as a raw function and called as `method(instance=instance)` (app/tortoise_lifecycle.py:82), which does not bind | creating any `PlayerGameConnection` | the hook runs on the new connection and stores one PLAYER_JOINED event | not executed | AppModels.ConnectionHooksAsWritten | AppModels.Store.AddPlayer |
| app/models.py:133-148 | `create_connection_event(self, previous)` is called as `method(instance=instance)` (app/tortoise_lifecycle.py:101), which does not bind | saving a connection whose `is_active` flips from true to false | the hook runs with the previous state and stores one PLAYER_DISCONNECTED event | not executed | AppModels.ConnectionHooksAsWritten | AppModels.Store.SaveConnection |
| app/tortoise_lifecycle.py:146-184 | the snapshot listeners read and write `previous_states`, which is defined nowhere | any update save of a class with an after-update hook raises NameError | a snapshot per instance, taken before the save and handed to the hooks after it | not executed | Lifecycle.UpdateSaveRaises | Lifecycle.RunHandlers |
| app/tortoise_lifecycle.py:86-103 | `before_update_handler` and `after_update_handler` call every update hook with no field check | an after-update hook watching `is_active` that binds `instance=` is entered on a save that changes only `name` | update hooks run only when a watched field changed | not executed | Lifecycle.WatchedFieldsNotChecked | Lifecycle.InvokedIff |
| app/tortoise_lifecycle.py:110-128 | the delete listener is `partial(_call_methods_if_condition, ...)`, whose positional `update_fields` Tortoise never passes to delete listeners, so calling it raises TypeError before any coroutine runs, and the second delete registration under the update-hooks guard is never reached | a class with one before-delete hook `h(instance)`: every delete raises TypeError and enters no hook | each delete hook once per delete | not executed | Lifecycle.DeleteRaises | Lifecycle.DeleteHooksAlwaysRun |
| main/games/services/game_flow.py:25 | the timeout branch calls the synchronous `game.rounds.filter(...).delete()` inside the coroutine, which Django's async-safety rule refuses with SynchronousOnlyOperation | a round with no photo before the upload limit: the procedure raises after the wait, the round stays and no second refresh is sent | the round deleted, then a second refresh | not executed | GameFlow.TimeoutAsWritten | GameFlow.PlayGameRoundInBackground |
