/**
 * The background procedure that drives one round through its stages
 * (main/games/services/game_flow.py). Sleeps and the upload timeout are
 * counted in whole seconds; client refreshes, stage saves and the other
 * visible steps are recorded in a log. Roast generation is a function
 * parameter, and photo uploads that arrive while the procedure polls are
 * given as one optional upload per second.
 */
module GameFlow {
  import opened Wrappers
  import opened Counting
  import opened GameStore

  /** A visible step of the procedure. */
  datatype FlowEvent =
    | StageSaved(stage: Stage)
    | Refresh
    | WaitedForUpload(seconds: nat)
    | RoundDeleted
    | TargetMarked(photo: nat)
    | RoastCreated(text: string)
    | Slept(seconds: nat)

  datatype Outcome = Completed | TimedOut

  /** The upload time limit, the roulette duration and the voting time limit, in seconds. */
  datatype Timing = Timing(uploadLimit: nat, rouletteSeconds: nat, voteLimit: nat)

  /** A photo upload by a player, with the uuid that names its cache key. */
  datatype Upload = Upload(player: nat, uuid: string)

  /** The stages saved, in log order. */
  function Stages(log: seq<FlowEvent>): seq<Stage> {
    if log == [] then []
    else Stages(log[..|log| - 1]) + if log[|log| - 1].StageSaved? then [log[|log| - 1].stage] else []
  }

  /** The number of client refreshes in the log. */
  function Refreshes(log: seq<FlowEvent>): nat {
    CountWhere(log, (e: FlowEvent) => e.Refresh?)
  }

  function RoastEvents(texts: seq<string>): (r: seq<FlowEvent>)
    ensures |r| == |texts|
    ensures forall i :: 0 <= i < |texts| ==> r[i] == RoastCreated(texts[i])
  {
    if texts == [] then [] else [RoastCreated(texts[0])] + RoastEvents(texts[1..])
  }

  /** Saving a stage and refreshing the clients. */
  function Enter(stage: Stage): seq<FlowEvent> {
    [StageSaved(stage), Refresh]
  }

  /** The log of a round aborted for lack of photos. */
  function TimeoutLog(timing: Timing): seq<FlowEvent> {
    Enter(UploadPhoto) + [WaitedForUpload(timing.uploadLimit), RoundDeleted] + [Refresh]
  }

  /** The log of a round played to the end. */
  function CompletedLog(timing: Timing, waited: nat, target: nat, texts: seq<string>): seq<FlowEvent> {
    Enter(UploadPhoto) + CompletedTail(timing, waited, target, texts)
  }

  /** What a completed round logs after entering UPLOAD_PHOTO. */
  function CompletedTail(timing: Timing, waited: nat, target: nat, texts: seq<string>): seq<FlowEvent> {
    ([WaitedForUpload(waited), TargetMarked(target)] + RoastEvents(texts)) +
    Enter(WaitForRoulette) + [Slept(timing.rouletteSeconds)] +
    Enter(VoteRoasts) + [Slept(timing.voteLimit)] +
    Enter(ShowResults)
  }

  /** An event that neither saves a stage nor refreshes the clients. */
  predicate Quiet(e: FlowEvent) {
    !e.StageSaved? && !e.Refresh?
  }

  lemma {:induction false} StagesAppend(a: seq<FlowEvent>, b: seq<FlowEvent>)
    ensures Stages(a + b) == Stages(a) + Stages(b)
    decreases |b|
  {
    if b == [] {
      assert a + b == a;
    } else {
      var n := |b| - 1;
      StagesAppend(a, b[..n]);
      assert (a + b)[..|a + b| - 1] == a + b[..n];
      assert (a + b)[|a + b| - 1] == b[n];
    }
  }

  lemma {:induction false} QuietLog(log: seq<FlowEvent>)
    requires forall i :: 0 <= i < |log| ==> Quiet(log[i])
    ensures Stages(log) == [] && Refreshes(log) == 0
    decreases |log|
  {
    if log != [] {
      QuietLog(log[..|log| - 1]);
    }
  }

  lemma EnterStage(stage: Stage)
    ensures Stages(Enter(stage)) == [stage] && Refreshes(Enter(stage)) == 1
  {
    var log := Enter(stage);
    assert log[..1][..0] == [] && log[..1] == [StageSaved(stage)];
    assert log[..1] == [StageSaved(stage)];
    CountAppend(log[..1], [Refresh], (e: FlowEvent) => e.Refresh?);
    assert log[..1] + [Refresh] == log;
  }

  lemma StagesAfterEnter(log: seq<FlowEvent>, stage: Stage)
    ensures Stages(log + Enter(stage)) == Stages(log) + [stage]
  {
    StagesAppend(log, Enter(stage));
    EnterStage(stage);
  }

  lemma StagesAfterQuiet(log: seq<FlowEvent>, e: FlowEvent)
    requires Quiet(e)
    ensures Stages(log + [e]) == Stages(log)
  {
    assert (log + [e])[..|log|] == log;
  }

  /** Entering a stage and then a quiet step adds just that stage. */
  lemma EnterThenQuiet(log: seq<FlowEvent>, stage: Stage, e: FlowEvent)
    requires Quiet(e)
    ensures Stages(log + Enter(stage) + [e]) == Stages(log) + [stage]
  {
    StagesAfterEnter(log, stage);
    StagesAfterQuiet(log + Enter(stage), e);
  }

  /** After UPLOAD_PHOTO a completed round saves the other three stages, in order. */
  lemma TailStages(timing: Timing, waited: nat, target: nat, texts: seq<string>)
    ensures Stages(CompletedTail(timing, waited, target, texts)) == [WaitForRoulette, VoteRoasts, ShowResults]
  {
    var q1 := [WaitedForUpload(waited), TargetMarked(target)] + RoastEvents(texts);
    QuietLog(q1);
    var l3 := q1 + Enter(WaitForRoulette) + [Slept(timing.rouletteSeconds)];
    EnterThenQuiet(q1, WaitForRoulette, Slept(timing.rouletteSeconds));
    var l5 := l3 + Enter(VoteRoasts) + [Slept(timing.voteLimit)];
    EnterThenQuiet(l3, VoteRoasts, Slept(timing.voteLimit));
    StagesAfterEnter(l5, ShowResults);
  }

  /** A completed round saves the four stages once each, in the order the enum declares them. */
  lemma CompletedStages(timing: Timing, waited: nat, target: nat, texts: seq<string>)
    ensures Stages(CompletedLog(timing, waited, target, texts)) == [UploadPhoto, WaitForRoulette, VoteRoasts, ShowResults]
  {
    TailStages(timing, waited, target, texts);
    EnterStage(UploadPhoto);
    StagesAppend(Enter(UploadPhoto), CompletedTail(timing, waited, target, texts));
  }

  /** The stages a completed round saves strictly advance. */
  lemma CompletedStagesInOrder(timing: Timing, waited: nat, target: nat, texts: seq<string>)
    ensures |Stages(CompletedLog(timing, waited, target, texts))| == 4
    ensures forall i, j :: 0 <= i < j < |Stages(CompletedLog(timing, waited, target, texts))| ==>
      StageIndex(Stages(CompletedLog(timing, waited, target, texts))[i]) < StageIndex(Stages(CompletedLog(timing, waited, target, texts))[j])
  {
    CompletedStages(timing, waited, target, texts);
  }

  /** A completed round refreshes the clients four times, once per stage entered. */
  lemma CompletedRefreshesFourTimes(timing: Timing, waited: nat, target: nat, texts: seq<string>)
    ensures Refreshes(CompletedLog(timing, waited, target, texts)) == 4
  {
    var isRefresh := (e: FlowEvent) => e.Refresh?;
    var q1 := [WaitedForUpload(waited), TargetMarked(target)] + RoastEvents(texts);
    var q2 := [Slept(timing.rouletteSeconds)];
    var q3 := [Slept(timing.voteLimit)];
    QuietLog(q1); QuietLog(q2); QuietLog(q3);
    EnterStage(UploadPhoto); EnterStage(WaitForRoulette); EnterStage(VoteRoasts); EnterStage(ShowResults);
    var l2 := q1 + Enter(WaitForRoulette);
    var l3 := l2 + q2;
    var l4 := l3 + Enter(VoteRoasts);
    var l5 := l4 + q3;
    CountAppend(Enter(UploadPhoto), l5 + Enter(ShowResults), isRefresh);
    CountAppend(q1, Enter(WaitForRoulette), isRefresh);
    CountAppend(l2, q2, isRefresh);
    CountAppend(l3, Enter(VoteRoasts), isRefresh);
    CountAppend(l4, q3, isRefresh);
    CountAppend(l5, Enter(ShowResults), isRefresh);
  }

  /** An aborted round saves only the upload stage. */
  lemma TimeoutStages(timing: Timing)
    ensures Stages(TimeoutLog(timing)) == [UploadPhoto]
  {
    var q := [WaitedForUpload(timing.uploadLimit), RoundDeleted];
    var l := Enter(UploadPhoto) + q;
    QuietLog(q);
    EnterStage(UploadPhoto);
    StagesAppend(Enter(UploadPhoto), q);
    assert (l + [Refresh])[..|l|] == l;
  }

  /** An aborted round refreshes the clients twice: on entering UPLOAD_PHOTO and after deleting the round. */
  lemma TimeoutRefreshes(timing: Timing)
    ensures Refreshes(TimeoutLog(timing)) == 2
  {
    var isRefresh := (e: FlowEvent) => e.Refresh?;
    var q := [WaitedForUpload(timing.uploadLimit), RoundDeleted];
    QuietLog(q);
    EnterStage(UploadPhoto);
    CountAppend(Enter(UploadPhoto), q, isRefresh);
    CountAppend(Enter(UploadPhoto) + q, [Refresh], isRefresh);
  }

  /**
   * The timeout branch as written: `game.rounds.filter(...).delete()` is a
   * synchronous ORM call inside the coroutine, which Django refuses with
   * SynchronousOnlyOperation, so the procedure ends with that exception right
   * after the wait: the round is not deleted and no second refresh is sent.
   */
  function TimeoutLogAsWritten(timing: Timing): seq<FlowEvent> {
    Enter(UploadPhoto) + [WaitedForUpload(timing.uploadLimit)]
  }

  /** As written, an aborted round refreshes the clients once and deletes nothing; the intended log goes on with the deletion and a second refresh. */
  lemma TimeoutAsWritten(timing: Timing)
    ensures Refreshes(TimeoutLogAsWritten(timing)) == 1
    ensures RoundDeleted !in TimeoutLogAsWritten(timing)
    ensures TimeoutLog(timing) == TimeoutLogAsWritten(timing) + [RoundDeleted, Refresh]
  {
    var isRefresh := (e: FlowEvent) => e.Refresh?;
    var q := [WaitedForUpload(timing.uploadLimit)];
    QuietLog(q);
    EnterStage(UploadPhoto);
    CountAppend(Enter(UploadPhoto), q, isRefresh);
  }

  /** The target is marked and every roast stored before the WAIT_FOR_ROULETTE stage is saved. */
  lemma TargetAndRoastsBeforeRoulette(timing: Timing, waited: nat, target: nat, texts: seq<string>, i: nat)
    requires i < |CompletedLog(timing, waited, target, texts)|
    requires CompletedLog(timing, waited, target, texts)[i].TargetMarked? || CompletedLog(timing, waited, target, texts)[i].RoastCreated?
    ensures CompletedLog(timing, waited, target, texts)[4 + |texts|] == StageSaved(WaitForRoulette)
    ensures i < 4 + |texts|
  {
  }

  /**
   * The polling loop: before the check of second t the upload of that second,
   * if any, is stored; the loop stops at the first check that finds a photo of
   * the round, or after `limit` checks. `seen` records the size of the photo
   * table at each check.
   */
  method AwaitFirstPhoto(db: Db, roundId: nat, limit: nat, arrivals: seq<Option<Upload>>)
    returns (found: bool, waited: nat, ghost seen: seq<nat>)
    requires db.Valid()
    modifies db`photos, db`nextId
    ensures db.Valid()
    ensures old(db.photos) <= db.photos && |db.photos| <= |old(db.photos)| + 1
    ensures forall j :: |old(db.photos)| <= j < |db.photos| ==> db.photos[j].round == roundId
    ensures !found ==> db.photos == old(db.photos)
    ensures found ==> waited < limit && HasRoundPhoto(db.photos, roundId) && |seen| == waited + 1
    ensures !found ==> waited == limit && |seen| == limit && (limit > 0 ==> !HasRoundPhoto(db.photos, roundId))
    ensures forall s :: 0 <= s < |seen| ==> seen[s] <= |db.photos|
    ensures forall s :: 0 <= s < |seen| ==> (HasRoundPhoto(db.photos[..seen[s]], roundId) <==> found && s == waited)
  {
    found, waited, seen := false, 0, [];
    while waited < limit
      invariant db.Valid()
      invariant db.photos == old(db.photos)
      invariant |seen| == waited <= limit
      invariant |seen| > 0 ==> seen[|seen| - 1] == |db.photos|
      invariant forall s :: 0 <= s < |seen| ==> seen[s] <= |db.photos| && !HasRoundPhoto(db.photos[..seen[s]], roundId)
    {
      if waited < |arrivals| && arrivals[waited].Some? {
        ghost var before := db.photos;
        var created := db.CreatePhoto(roundId, arrivals[waited].value.player, arrivals[waited].value.uuid);
        if created.Ok? {
          assert db.photos[|db.photos| - 1].round == roundId;
        }
        assert forall s :: 0 <= s < |seen| ==> db.photos[..seen[s]] == before[..seen[s]];
      }
      seen := seen + [|db.photos|];
      assert db.photos[..|db.photos|] == db.photos;
      if HasRoundPhoto(db.photos, roundId) {
        found := true;
        return;
      }
      waited := waited + 1;
    }
  }

  /** The index of a photo of the round, chosen at random (`order_by('?').afirst()`). */
  method RandomPhotoOf(photos: seq<Photo>, roundId: nat) returns (k: nat)
    requires HasRoundPhoto(photos, roundId)
    ensures k < |photos| && photos[k].round == roundId
  {
    k :| k < |photos| && photos[k].round == roundId;
  }

  /** Stores one roast of the round per generated text, in order (`game_round.roasts.acreate`). */
  method StoreRoasts(db: Db, roundId: nat, texts: seq<string>)
    requires db.Valid()
    modifies db`roasts, db`nextId
    ensures db.Valid()
    ensures |db.roasts| == |old(db.roasts)| + |texts| && db.roasts[..|old(db.roasts)|] == old(db.roasts)
    ensures forall j :: |old(db.roasts)| <= j < |db.roasts| ==>
      db.roasts[j].round == roundId && db.roasts[j].text == Some(texts[j - |old(db.roasts)|])
  {
    ghost var before := db.roasts;
    for i := 0 to |texts|
      invariant db.Valid()
      invariant |db.roasts| == |before| + i && db.roasts[..|before|] == before
      invariant forall j :: |before| <= j < |db.roasts| ==> db.roasts[j].round == roundId && db.roasts[j].text == Some(texts[j - |before|])
    {
      var _ := db.CreateRoast(roundId, Some(texts[i]));
    }
  }

  /** Marks a random photo of the round as target and stores one roast per text generated for it. */
  method RoastTarget(db: Db, roundId: nat, generate: Photo -> seq<string>) returns (t: nat, texts: seq<string>)
    requires db.Valid()
    requires HasRoundPhoto(db.photos, roundId)
    modifies db`photos, db`roasts, db`nextId
    ensures db.Valid()
    ensures t < |db.photos| == |old(db.photos)| && db.photos == old(db.photos)[t := old(db.photos[t]).(isRoastTarget := true)]
    ensures old(db.photos[t]).round == roundId
    ensures texts == generate(db.photos[t])
    ensures |db.roasts| == |old(db.roasts)| + |texts| && db.roasts[..|old(db.roasts)|] == old(db.roasts)
    ensures forall j :: |old(db.roasts)| <= j < |db.roasts| ==>
      db.roasts[j].round == roundId && db.roasts[j].text == Some(texts[j - |old(db.roasts)|])
  {
    t := RandomPhotoOf(db.photos, roundId);
    db.MarkTarget(t);
    texts := generate(db.photos[t]);
    StoreRoasts(db, roundId, texts);
  }

  /** The part of the procedure after a photo has arrived, with the index `t` of the photo chosen as target. */
  method PlayFoundRound(db: Db, k: nat, roundId: nat, timing: Timing, waited: nat, generate: Photo -> seq<string>)
    returns (log: seq<FlowEvent>, ghost t: nat)
    requires db.Valid()
    requires k < |db.rounds| && db.rounds[k].id == roundId
    requires HasRoundPhoto(db.photos, roundId)
    modifies db`rounds, db`photos, db`roasts, db`nextId
    ensures db.Valid()
    ensures db.rounds == old(db.rounds)[k := old(db.rounds[k]).(stage := ShowResults)]
    ensures t < |db.photos| == |old(db.photos)| && db.photos == old(db.photos)[t := old(db.photos[t]).(isRoastTarget := true)]
    ensures old(db.photos[t]).round == roundId
    ensures log == CompletedTail(timing, waited, db.photos[t].id, generate(db.photos[t]))
    ensures |db.roasts| == |old(db.roasts)| + |generate(db.photos[t])| && db.roasts[..|old(db.roasts)|] == old(db.roasts)
    ensures forall j :: |old(db.roasts)| <= j < |db.roasts| ==>
      db.roasts[j].round == roundId && db.roasts[j].text == Some(generate(db.photos[t])[j - |old(db.roasts)|])
    ensures CompletedTables(old(db.photos), old(db.roasts), db.photos, db.roasts, roundId, t, generate(db.photos[t]))
  {
    var i, texts := RoastTarget(db, roundId, generate);
    t := i;
    log := [WaitedForUpload(waited), TargetMarked(db.photos[i].id)] + RoastEvents(texts);
    db.SaveStage(k, WaitForRoulette);
    log := log + Enter(WaitForRoulette) + [Slept(timing.rouletteSeconds)];
    db.SaveStage(k, VoteRoasts);
    log := log + Enter(VoteRoasts) + [Slept(timing.voteLimit)];
    db.SaveStage(k, ShowResults);
    log := log + Enter(ShowResults);
  }

  /** Enters UPLOAD_PHOTO for the round at index k and polls for its first photo. */
  method EnterUpload(db: Db, k: nat, timing: Timing, arrivals: seq<Option<Upload>>) returns (found: bool, waited: nat)
    requires db.Valid()
    requires k < |db.rounds|
    modifies db`rounds, db`photos, db`nextId
    ensures db.Valid()
    ensures db.rounds == old(db.rounds)[k := old(db.rounds[k]).(stage := UploadPhoto)]
    ensures found ==> waited < timing.uploadLimit && HasRoundPhoto(db.photos, db.rounds[k].id)
    ensures !found ==> waited == timing.uploadLimit && db.photos == old(db.photos)
    ensures old(db.photos) <= db.photos && |db.photos| <= |old(db.photos)| + 1
    ensures forall j :: |old(db.photos)| <= j < |db.photos| ==> db.photos[j].round == db.rounds[k].id
  {
    db.SaveStage(k, UploadPhoto);
    ghost var seen;
    found, waited, seen := AwaitFirstPhoto(db, db.rounds[k].id, timing.uploadLimit, arrivals);
  }

  /**
   * The photo and roast tables after a round played to the end, against the tables before it:
   * photo t of the round is the roast target, changed in that flag only, and no other earlier photo changed, any new photo
   * belongs to the round, and one roast of the round per generated text is appended in order.
   */
  predicate CompletedTables(photos0: seq<Photo>, roasts0: seq<Roast>, photos: seq<Photo>, roasts: seq<Roast>,
                            roundId: nat, t: nat, texts: seq<string>)
  {
    && t < |photos| && photos[t].round == roundId && photos[t].isRoastTarget
    && (t < |photos0| ==> photos[t] == photos0[t].(isRoastTarget := true))
    && (forall j :: 0 <= j < |photos0| && j < |photos| && j != t ==> photos[j] == photos0[j])
    && (forall j :: |photos0| <= j < |photos| ==> photos[j].round == roundId)
    && |roasts| == |roasts0| + |texts| && roasts[..|roasts0|] == roasts0
    && (forall j :: |roasts0| <= j < |roasts| ==> roasts[j].round == roundId && roasts[j].text == Some(texts[j - |roasts0|]))
  }

  /** Photos polled in while waiting belong to the round, so the tables also compare so against the tables before the wait. */
  lemma PolledPhotosBelongToRound(photos0: seq<Photo>, polled: seq<Photo>, roasts0: seq<Roast>, photos: seq<Photo>, roasts: seq<Roast>,
                                  roundId: nat, t: nat, texts: seq<string>)
    requires photos0 <= polled && |photos| == |polled|
    requires forall j :: |photos0| <= j < |polled| ==> polled[j].round == roundId
    requires forall j :: 0 <= j < |polled| && j != t ==> photos[j].round == polled[j].round
    requires CompletedTables(polled, roasts0, photos, roasts, roundId, t, texts)
    ensures CompletedTables(photos0, roasts0, photos, roasts, roundId, t, texts)
  {
  }

  /**
   * `play_game_round_in_background` for the round at index k: enters
   * UPLOAD_PHOTO and waits for a first photo; without one in time it deletes
   * the round and stops (the game's state is left as it was). Otherwise it
   * marks a random photo as target, stores one roast per generated text, and
   * enters WAIT_FOR_ROULETTE, VOTE_ROASTS and SHOW_RESULTS, refreshing the
   * clients on entering each stage.
   */
  method PlayGameRoundInBackground(db: Db, k: nat, timing: Timing, arrivals: seq<Option<Upload>>, generate: Photo -> seq<string>)
    returns (outcome: Outcome, log: seq<FlowEvent>)
    requires db.Valid()
    requires k < |db.rounds|
    modifies db`rounds, db`photos, db`roasts, db`votes, db`nextId
    ensures db.Valid()
    ensures db.games == old(db.games) && db.players == old(db.players)
    ensures outcome == TimedOut ==> log == TimeoutLog(timing)
    ensures outcome == TimedOut ==>
      !HasRoundPhoto(db.photos, old(db.rounds[k].id)) &&
      (forall i :: 0 <= i < |db.rounds| ==> db.rounds[i].id != old(db.rounds[k].id)) &&
      (forall i :: 0 <= i < |db.roasts| ==> db.roasts[i].round != old(db.rounds[k].id))
    ensures outcome == TimedOut ==>
      db.rounds == Filter(old(db.rounds)[k := old(db.rounds[k]).(stage := UploadPhoto)], OtherRound(old(db.rounds[k].id))) &&
      db.photos == Filter(old(db.photos), PhotoOfOtherRound(old(db.rounds[k].id))) &&
      db.roasts == Filter(old(db.roasts), RoastOfOtherRound(old(db.rounds[k].id))) &&
      db.votes == Filter(old(db.votes), VoteOnKeptRoast(old(db.roasts), old(db.rounds[k].id)))
    ensures outcome == Completed ==> db.rounds == old(db.rounds)[k := old(db.rounds[k]).(stage := ShowResults)]
    ensures outcome == Completed ==> db.votes == old(db.votes)
    ensures outcome == Completed ==> exists waited: nat, t: nat :: (
      waited < timing.uploadLimit && t < |db.photos| &&
      log == CompletedLog(timing, waited, db.photos[t].id, generate(db.photos[t])) &&
      CompletedTables(old(db.photos), old(db.roasts), db.photos, db.roasts, old(db.rounds[k].id), t, generate(db.photos[t])))
    ensures outcome == Completed ==> |db.roasts| >= |old(db.roasts)| && db.roasts[..|old(db.roasts)|] == old(db.roasts)
  {
    var roundId := db.rounds[k].id;
    ghost var before := db.photos;
    var found, waited := EnterUpload(db, k, timing, arrivals);
    ghost var polled := db.photos;
    log := Enter(UploadPhoto);
    if !found {
      ghost var entered := db.rounds;
      assert polled == before;
      db.DeleteRound(roundId);
      assert db.photos == Filter(before, PhotoOfOtherRound(roundId));
      assert db.rounds == Filter(entered, OtherRound(roundId));
      log := log + [WaitedForUpload(waited), RoundDeleted] + [Refresh];
      return TimedOut, log;
    }
    var rest, t := PlayFoundRound(db, k, roundId, timing, waited, generate);
    log := log + rest;
    assert log == CompletedLog(timing, waited, db.photos[t].id, generate(db.photos[t]));
    PolledPhotosBelongToRound(before, polled, old(db.roasts), db.photos, db.roasts, roundId, t, generate(db.photos[t]));
    return Completed, log;
  }
}
