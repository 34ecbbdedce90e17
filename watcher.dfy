/**
 * The itch.io watcher: its configuration (the game list and the poll
 * interval), the effect one poll of one game has on the store, and the
 * watcher object whose status counters a poll cycle updates.
 *
 * The HTTP request is not made here: each poll is given the response it
 * received (`FetchResult`), the instant it ran at and the id the new
 * announcement would get (`Date.now().toString()` in the source).
 */
module ItchWatcher {
  import opened Common
  import opened Text
  import opened Records
  import opened LocalStorage
  import opened Reconciler

  /* ---------------------------------------------------------------- */
  /* Configuration                                                     */
  /* ---------------------------------------------------------------- */

  /** The environment variables the watcher reads; `None` is an unset variable. */
  datatype Env = Env(gameIds: Option<string>, gameId: Option<string>, pollIntervalMs: Option<int>)

  /** `GAME_IDS || GAME_ID || ''`: the first variable that is set to a non-empty text. */
  function RawGameIds(env: Env): (raw: string)
    ensures env.gameIds.Some? && env.gameIds.value != "" ==> raw == env.gameIds.value
    ensures (env.gameIds.None? || env.gameIds.value == "") && env.gameId.Some? && env.gameId.value != "" ==> raw == env.gameId.value
    ensures (env.gameIds.None? || env.gameIds.value == "") && (env.gameId.None? || env.gameId.value == "") ==> raw == ""
  {
    if env.gameIds.Some? && env.gameIds.value != "" then env.gameIds.value
    else if env.gameId.Some? && env.gameId.value != "" then env.gameId.value
    else ""
  }

  /** `.map(s => s.trim())`: the trimmed text of every piece, in order. */
  function Trims(pieces: seq<string>): (ts: seq<string>)
    ensures |ts| == |pieces|
    ensures forall k :: 0 <= k < |pieces| ==> ts[k] == Trim(pieces[k])
  {
    if pieces == [] then [] else [Trim(pieces[0])] + Trims(pieces[1..])
  }

  /** Trimming two runs of pieces is trimming each run. */
  lemma {:induction false} TrimsAppend(a: seq<string>, b: seq<string>)
    ensures Trims(a + b) == Trims(a) + Trims(b)
  {
    if a == [] {
      assert a + b == b;
    } else {
      assert (a + b)[0] == a[0] && (a + b)[1..] == a[1..] + b;
      TrimsAppend(a[1..], b);
    }
  }

  /** `.filter(Boolean)` on texts: the non-empty ones, in order. */
  function NonBlank(ts: seq<string>): (ids: seq<string>)
    ensures |ids| <= |ts|
    ensures forall t :: t in ids <==> t in ts && t != []
  {
    if ts == [] then []
    else (if ts[0] != [] then [ts[0]] else []) + NonBlank(ts[1..])
  }

  /** The filter keeps order: filtering two runs is filtering each run. */
  lemma {:induction false} NonBlankAppend(x: seq<string>, y: seq<string>)
    ensures NonBlank(x + y) == NonBlank(x) + NonBlank(y)
  {
    if x == [] {
      assert x + y == y;
    } else {
      assert (x + y)[0] == x[0] && (x + y)[1..] == x[1..] + y;
      NonBlankAppend(x[1..], y);
    }
  }

  /** The texts of `ids` are exactly the pieces' trimmed texts that are not empty. */
  ghost predicate NonBlankTrimmedPieces(ids: seq<string>, pieces: seq<string>)
  {
    forall t :: t in ids <==> t in Trims(pieces) && t != []
  }

  /**
   * `.map(s => s.trim()).filter(Boolean)`: an id is exactly a non-empty
   * trimmed piece, and it has no white space at either end.
   */
  function KeepNonBlank(pieces: seq<string>): (ids: seq<string>)
    ensures |ids| <= |pieces|
    ensures NonBlankTrimmedPieces(ids, pieces)
    ensures forall i :: 0 <= i < |ids| ==> ids[i] != [] && Trimmed(ids[i])
  {
    var ts := Trims(pieces);
    var ids := NonBlank(ts);
    assert forall i :: 0 <= i < |ids| ==> ids[i] != [] && Trimmed(ids[i]) by {
      forall i | 0 <= i < |ids| ensures ids[i] != [] && Trimmed(ids[i]) {
        assert ids[i] in ids;
        var k :| 0 <= k < |ts| && ts[k] == ids[i];
      }
    }
    ids
  }

  /** The selection keeps order: the ids of two runs of pieces are those of the first run, then those of the second. */
  lemma KeepNonBlankAppend(a: seq<string>, b: seq<string>)
    ensures KeepNonBlank(a + b) == KeepNonBlank(a) + KeepNonBlank(b)
  {
    TrimsAppend(a, b);
    NonBlankAppend(Trims(a), Trims(b));
  }

  /** One piece yields its trimmed text, or nothing when that text is empty. */
  lemma KeepNonBlankSingle(piece: string)
    ensures Trim(piece) != [] ==> KeepNonBlank([piece]) == [Trim(piece)]
    ensures Trim(piece) == [] ==> KeepNonBlank([piece]) == []
  {
    assert Trims([piece]) == [Trim(piece)];
    assert [Trim(piece)][1..] == [];
  }

  /** A character no piece holds is in no id. */
  lemma KeepNonBlankAvoids(pieces: seq<string>, c: char)
    requires forall k :: 0 <= k < |pieces| ==> c !in pieces[k]
    ensures forall i :: 0 <= i < |KeepNonBlank(pieces)| ==> c !in KeepNonBlank(pieces)[i]
  {
    var ts := Trims(pieces);
    var ids := KeepNonBlank(pieces);
    forall i | 0 <= i < |ids| ensures c !in ids[i] {
      assert ids[i] in ids;
      var k :| 0 <= k < |ts| && ts[k] == ids[i];
      TrimKeepsCharacters(pieces[k]);
    }
  }

  /** The game ids the watcher polls, in the order the variable lists them. */
  function ParseGameIds(env: Env): (ids: seq<string>)
    ensures forall i :: 0 <= i < |ids| ==> ids[i] != [] && ',' !in ids[i]
    ensures forall i :: 0 <= i < |ids| ==> Trimmed(ids[i])
    ensures NonBlankTrimmedPieces(ids, Split(RawGameIds(env), ","))
  {
    var pieces := Split(RawGameIds(env), ",");
    SplitPiecesAreFree(RawGameIds(env), ",");
    forall k | 0 <= k < |pieces| ensures ',' !in pieces[k] {
      ContainsChar(pieces[k], ',');
    }
    KeepNonBlankAvoids(pieces, ',');
    KeepNonBlank(pieces)
  }

  /** A single id, with or without surrounding blanks, is the whole game list. */
  lemma SingleGameId(env: Env)
    requires ',' !in RawGameIds(env) && Trim(RawGameIds(env)) != []
    ensures ParseGameIds(env) == [Trim(RawGameIds(env))]
  {
    ContainsChar(RawGameIds(env), ',');
    SplitWithoutSeparator(RawGameIds(env), ",");
  }

  /** Ids listed before a comma come before the ids listed after it. */
  lemma ParseGameIdsInOrder(env: Env, a: string, b: string)
    requires RawGameIds(env) == a + "," + b
    ensures ParseGameIds(env) == KeepNonBlank(Split(a, ",")) + KeepNonBlank(Split(b, ","))
  {
    SplitAtSeparator(a, ',', b);
    KeepNonBlankAppend(Split(a, ","), Split(b, ","));
  }

  /** With neither variable set, there is nothing to poll. */
  lemma NoGameIds(env: Env)
    requires env.gameIds.None? && env.gameId.None?
    ensures ParseGameIds(env) == []
  {
    assert RawGameIds(env) == "";
    SplitWithoutSeparator("", ",");
    assert Trim("") == "";
    KeepNonBlankSingle("");
  }

  /** Ten minutes. */
  const DefaultPollIntervalMs := 1000 * 60 * 10

  /** `(POLL_INTERVAL_MS && Number(POLL_INTERVAL_MS)) || 600000`: zero and unset both mean the default. */
  function PollIntervalMs(setting: Option<int>): (ms: int)
    ensures ms != 0
    ensures setting.Some? && setting.value != 0 ==> ms == setting.value
    ensures setting.None? || setting.value == 0 ==> ms == DefaultPollIntervalMs
  {
    match setting
    case Some(n) => if n != 0 then n else DefaultPollIntervalMs
    case None => DefaultPollIntervalMs
  }

  /* ---------------------------------------------------------------- */
  /* One poll of one game, on the store's map                          */
  /* ---------------------------------------------------------------- */

  /** What the uploads request produced: the list (`data.uploads || []`), or the error it threw. */
  datatype FetchResult = Fetched(uploads: seq<Upload>) | Failed(message: string)

  /** One poll of one game: its response, the instant it ran at, the id a new announcement would get. */
  datatype PollInput = PollInput(response: FetchResult, now: Time, announcementId: string)

  /** The error `games[GAME_ID].versions` throws when the stored games value is not a map. */
  const ShapeError := "TypeError: stored games value has an unexpected shape"

  /**
   * What one poll did: the new map, whether the store was written,
   * whether an announcement was created, and the error the poll's
   * `catch` recorded, if any.
   */
  datatype Effect = Effect(db: map<string, Value>, saved: bool, announced: bool, failure: Option<string>)

  /** The templates in the store, or the empty configuration when none (or a non-template value) is stored. */
  function StoredTemplates(db: map<string, Value>): (t: TemplateConfig)
    ensures TemplatesIn(Get(db, TemplatesKey)).Found? ==> t == TemplatesIn(Get(db, TemplatesKey)).value
    ensures !TemplatesIn(Get(db, TemplatesKey)).Found? ==> t == NoTemplates
  {
    match TemplatesIn(Get(db, TemplatesKey))
    case Found(t) => t
    case _ => NoTemplates
  }

  /** The announcement text for a new version of `gameId`. */
  function AnnouncementText(templates: TemplateConfig, gameId: string, latest: Upload): (text: string)
    ensures '{' !in ChooseTemplate(templates, gameId) ==> text == ChooseTemplate(templates, gameId)
  {
    Render(ChooseTemplate(templates, gameId), gameId, latest.id, PatchNote(latest))
  }

  /**
   * The announcement step, run on the map that already holds the new
   * version: prepend the announcement, or swallow the error `unshift`
   * throws on a stored value that is not a list.
   */
  function Announce(db: map<string, Value>, a: Announcement): (eff: Effect)
    ensures eff.saved && eff.failure.None?
    ensures eff.announced <==> !AnnouncementsIn(Get(db, AnnouncementsKey)).WrongShape?
    ensures eff.db.Keys <= db.Keys + {AnnouncementsKey}
    ensures forall k :: k != AnnouncementsKey ==> Get(eff.db, k) == Get(db, k)
    ensures eff.announced ==>
      var stored := AnnouncementsIn(Get(db, AnnouncementsKey));
      Get(eff.db, AnnouncementsKey) == AnnouncementList([a] + (if stored.Found? then stored.value else []))
    ensures !eff.announced ==> eff.db == db
  {
    match AnnouncementsIn(Get(db, AnnouncementsKey))
    case WrongShape => Effect(db, true, false, None)
    case Absent => Effect(db[AnnouncementsKey := AnnouncementList([a])], true, true, None)
    case Found(list) => Effect(db[AnnouncementsKey := AnnouncementList([a] + list)], true, true, None)
  }

  /** The games map a poll starts from, when the stored value is not of the wrong shape. */
  function GamesOf(db: map<string, Value>): map<string, GameEntry>
  {
    match GamesIn(Get(db, GamesKey))
    case Found(games) => games
    case _ => map[]
  }

  /**
   * One poll of one game, as the body of the source's loop does it: an
   * error records a failure; an empty list changes nothing; otherwise the
   * game entry is reconciled and saved, and only then, if the current version
   * moved, the announcement is created.
   */
  function PollEffect(db: map<string, Value>, gameId: string, response: FetchResult, now: Time, id: string): (eff: Effect)
    ensures response.Failed? ==> eff == Effect(db, false, false, Some(response.message))
    ensures response == Fetched([]) ==> eff == Effect(db, false, false, None)
    ensures eff.announced ==> eff.saved
    ensures eff.saved <==> eff.failure.None? && response.Fetched? && response.uploads != []
    ensures !eff.saved ==> eff.db == db
    ensures eff.db.Keys <= db.Keys + {GamesKey, AnnouncementsKey}
    ensures forall k :: k != GamesKey && k != AnnouncementsKey ==> Get(eff.db, k) == Get(db, k)
  {
    match response
    case Failed(message) => Effect(db, false, false, Some(message))
    case Fetched(uploads) =>
      if uploads == [] then Effect(db, false, false, None)
      else if GamesIn(Get(db, GamesKey)).WrongShape? then Effect(db, false, false, Some(ShapeError))
      else
        var games := GamesOf(db);
        var o := Reconcile(EntryOf(games, gameId), uploads, gameId, now);
        var saved := db[GamesKey := GameMap(games[gameId := o.entry])];
        if o.newVersionDetected then
          var latest := Latest(uploads);
          Announce(saved, AutoAnnouncement(id, gameId, latest, AnnouncementText(StoredTemplates(db), gameId, latest), now))
        else Effect(saved, true, false, None)
  }

  /**
   * A poll that lists uploads writes the reconciled entry for its game,
   * leaves every other game's entry as it was, and announces exactly when
   * the current version moved and the stored announcements are a list (or absent).
   */
  lemma PollSavesReconciledEntry(db: map<string, Value>, gameId: string, uploads: seq<Upload>, now: Time, id: string)
    requires uploads != [] && !GamesIn(Get(db, GamesKey)).WrongShape?
    ensures var eff := PollEffect(db, gameId, Fetched(uploads), now, id);
      var o := Reconcile(EntryOf(GamesOf(db), gameId), uploads, gameId, now);
      && eff.saved && eff.failure.None?
      && Get(eff.db, GamesKey) == GameMap(GamesOf(db)[gameId := o.entry])
      && (eff.announced <==> o.newVersionDetected && !AnnouncementsIn(Get(db, AnnouncementsKey)).WrongShape?)
      && (!eff.announced ==> eff.db == db[GamesKey := GameMap(GamesOf(db)[gameId := o.entry])])
      && (!eff.announced ==> Get(eff.db, AnnouncementsKey) == Get(db, AnnouncementsKey))
    ensures var eff := PollEffect(db, gameId, Fetched(uploads), now, id);
      forall g :: g != gameId && g in GamesOf(db) ==> g in GamesOf(eff.db) && GamesOf(eff.db)[g] == GamesOf(db)[g]
  {
    var eff := PollEffect(db, gameId, Fetched(uploads), now, id);
    var games := GamesOf(db);
    var o := Reconcile(EntryOf(games, gameId), uploads, gameId, now);
    var saved := db[GamesKey := GameMap(games[gameId := o.entry])];
    assert Get(saved, GamesKey) == GameMap(games[gameId := o.entry]);
    assert Get(saved, AnnouncementsKey) == Get(db, AnnouncementsKey);
    assert Get(eff.db, GamesKey) == Get(saved, GamesKey);
    assert GamesOf(eff.db) == games[gameId := o.entry];
  }

  /** A poll that moves the current version announces the newest upload, in front of the earlier announcements. */
  lemma PollAnnouncesNewVersion(db: map<string, Value>, gameId: string, uploads: seq<Upload>, now: Time, id: string)
    requires uploads != [] && !GamesIn(Get(db, GamesKey)).WrongShape?
    requires PollEffect(db, gameId, Fetched(uploads), now, id).announced
    ensures var eff := PollEffect(db, gameId, Fetched(uploads), now, id);
      var olds := AnnouncementsIn(Get(db, AnnouncementsKey));
      var latest := Latest(uploads);
      && EntryOf(GamesOf(db), gameId).version != Some(latest.id)
      && GamesOf(eff.db)[gameId].version == Some(latest.id)
      && Get(eff.db, AnnouncementsKey) == AnnouncementList(
        [AutoAnnouncement(id, gameId, latest, AnnouncementText(StoredTemplates(db), gameId, latest), now)]
        + (if olds.Found? then olds.value else []))
  {
    var games := GamesOf(db);
    var o := Reconcile(EntryOf(games, gameId), uploads, gameId, now);
    var saved := db[GamesKey := GameMap(games[gameId := o.entry])];
    assert Get(saved, AnnouncementsKey) == Get(db, AnnouncementsKey);
    PollSavesReconciledEntry(db, gameId, uploads, now, id);
  }

  /** Polling the same list a second time writes the same map back and announces nothing. */
  lemma PollIdempotent(db: map<string, Value>, gameId: string, uploads: seq<Upload>, now: Time, id: string, later: Time, id2: string)
    requires PollEffect(db, gameId, Fetched(uploads), now, id).failure.None?
    ensures var first := PollEffect(db, gameId, Fetched(uploads), now, id).db;
      var second := PollEffect(first, gameId, Fetched(uploads), later, id2);
      second.db == first && !second.announced
  {
    if uploads != [] {
      var first := PollEffect(db, gameId, Fetched(uploads), now, id).db;
      var e := Reconcile(EntryOf(GamesOf(db), gameId), uploads, gameId, now).entry;
      assert Get(first, GamesKey) == GameMap(GamesOf(db)[gameId := e]) by {
        PollSavesReconciledEntry(db, gameId, uploads, now, id);
      }
      ReconcileIdempotent(EntryOf(GamesOf(db), gameId), uploads, gameId, now, later);
      RepollUnchanged(first, gameId, uploads, later, id2);
    }
  }

  /** A poll whose reconciliation changes nothing writes back the map it read and announces nothing. */
  lemma RepollUnchanged(db: map<string, Value>, gameId: string, uploads: seq<Upload>, now: Time, id: string)
    requires uploads != [] && GamesIn(Get(db, GamesKey)).Found?
    requires var e := EntryOf(GamesOf(db), gameId);
      gameId in GamesOf(db) && Reconcile(e, uploads, gameId, now) == Outcome(e, false)
    ensures var eff := PollEffect(db, gameId, Fetched(uploads), now, id);
      eff.db == db && !eff.announced
  {
    PollSavesReconciledEntry(db, gameId, uploads, now, id);
    assert GamesOf(db)[gameId := GamesOf(db)[gameId]] == GamesOf(db);
    assert db[GamesKey := GameMap(GamesOf(db))] == db;
  }

  /** A game that already points at the newest upload gets no announcement, whatever else the list holds. */
  lemma NoAnnouncementWhenCurrent(db: map<string, Value>, gameId: string, uploads: seq<Upload>, now: Time, id: string)
    requires uploads != [] && !GamesIn(Get(db, GamesKey)).WrongShape?
    requires EntryOf(GamesOf(db), gameId).version == Some(Latest(uploads).id)
    ensures !PollEffect(db, gameId, Fetched(uploads), now, id).announced
  {
    ReconcileAdvancesVersion(EntryOf(GamesOf(db), gameId), uploads, gameId, now);
    PollSavesReconciledEntry(db, gameId, uploads, now, id);
  }

  /** The polls of one cycle, one per configured game, in order. */
  function RunCycle(db: map<string, Value>, ids: seq<string>, polls: seq<PollInput>): (r: map<string, Value>)
    requires |ids| == |polls|
    ensures r.Keys <= db.Keys + {GamesKey, AnnouncementsKey}
    decreases |ids|
  {
    if ids == [] then db
    else RunCycle(PollEffect(db, ids[0], polls[0].response, polls[0].now, polls[0].announcementId).db, ids[1..], polls[1..])
  }

  /** How many announcements a cycle created. */
  function AnnouncedIn(db: map<string, Value>, ids: seq<string>, polls: seq<PollInput>): (n: nat)
    requires |ids| == |polls|
    ensures n <= |ids|
    decreases |ids|
  {
    if ids == [] then 0
    else
      var eff := PollEffect(db, ids[0], polls[0].response, polls[0].now, polls[0].announcementId);
      (if eff.announced then 1 else 0) + AnnouncedIn(eff.db, ids[1..], polls[1..])
  }

  /** A whole cycle writes no key but `games` and `announcements`. */
  lemma {:induction false} CycleTouchesOnlyItsKeys(db: map<string, Value>, ids: seq<string>, polls: seq<PollInput>)
    requires |ids| == |polls|
    ensures forall k :: k != GamesKey && k != AnnouncementsKey ==> Get(RunCycle(db, ids, polls), k) == Get(db, k)
    decreases |ids|
  {
    if ids != [] {
      var eff := PollEffect(db, ids[0], polls[0].response, polls[0].now, polls[0].announcementId);
      CycleTouchesOnlyItsKeys(eff.db, ids[1..], polls[1..]);
    }
  }

  /** A cycle in which every request fails leaves the map as it was and announces nothing. */
  lemma {:induction false} FailedCycleChangesNothing(db: map<string, Value>, ids: seq<string>, polls: seq<PollInput>)
    requires |ids| == |polls|
    requires forall i :: 0 <= i < |polls| ==> polls[i].response.Failed?
    ensures RunCycle(db, ids, polls) == db && AnnouncedIn(db, ids, polls) == 0
    decreases |ids|
  {
    if ids != [] {
      FailedCycleChangesNothing(db, ids[1..], polls[1..]);
    }
  }

  /** One start of the poll loop: its instant, and the polls it made. */
  datatype Cycle = Cycle(start: Time, polls: seq<PollInput>)

  /** The map after several cycles, run one after the other. */
  function RunCycles(db: map<string, Value>, ids: seq<string>, cycles: seq<Cycle>): map<string, Value>
    requires forall c :: c in cycles ==> |c.polls| == |ids|
    decreases |cycles|
  {
    if cycles == [] then db else RunCycles(RunCycle(db, ids, cycles[0].polls), ids, cycles[1..])
  }

  /* ---------------------------------------------------------------- */
  /* Status                                                            */
  /* ---------------------------------------------------------------- */

  datatype ErrorInfo = ErrorInfo(time: Time, message: string)

  /** `watcherStatus.perGame[GAME_ID]`. */
  datatype GameStatus = GameStatus(lastCheck: Option<Time>, lastSuccess: Option<Time>, lastError: Option<ErrorInfo>, updatesFound: nat)

  const FreshStatus := GameStatus(None, None, None, 0)

  /** A game's status after one poll with the given effect. */
  function NextStatus(s: GameStatus, poll: PollInput, eff: Effect): (r: GameStatus)
    ensures r.lastCheck == Some(poll.now)
    ensures r.lastSuccess == (if poll.response.Fetched? then Some(poll.now) else s.lastSuccess)
    ensures eff.failure.Some? ==> r.lastError == Some(ErrorInfo(poll.now, eff.failure.value))
    ensures eff.failure.None? ==> r.lastError == s.lastError
    ensures r.updatesFound == s.updatesFound + (if eff.announced then 1 else 0)
  {
    GameStatus(
      Some(poll.now),
      if poll.response.Fetched? then Some(poll.now) else s.lastSuccess,
      if eff.failure.Some? then Some(ErrorInfo(poll.now, eff.failure.value)) else s.lastError,
      s.updatesFound + (if eff.announced then 1 else 0))
  }

  /** What `getWatcherStatus()` returns. */
  datatype StatusReport = StatusReport(
    lastCheck: Option<Time>, lastSuccess: Option<Time>, lastError: Option<ErrorInfo>,
    checksCount: nat, updatesFound: nat, perGame: map<string, GameStatus>,
    pollIntervalMinutes: real, gameIds: seq<string>)

  /** `watcherStatus`: the counters the watcher module keeps across cycles. */
  datatype WatcherStatus = WatcherStatus(
    lastCheck: Option<Time>, lastSuccess: Option<Time>, lastError: Option<ErrorInfo>,
    checksCount: nat, updatesFound: nat, perGame: map<string, GameStatus>)

  const InitialStatus := WatcherStatus(None, None, None, 0, 0, map[])

  /** `perGame[GAME_ID] || { ... }`: a game's status, fresh when it has none yet. */
  function StatusOf(perGame: map<string, GameStatus>, gameId: string): GameStatus
  {
    if gameId in perGame then perGame[gameId] else FreshStatus
  }

  /** One iteration of the loop over the games, on `watcherStatus`. */
  function StepStatus(w: WatcherStatus, gameId: string, poll: PollInput, eff: Effect): WatcherStatus
  {
    w.(perGame := w.perGame[gameId := NextStatus(StatusOf(w.perGame, gameId), poll, eff)],
       lastSuccess := if poll.response.Fetched? then Some(poll.now) else w.lastSuccess,
       lastError := if eff.failure.Some? then Some(ErrorInfo(poll.now, eff.failure.value)) else w.lastError,
       updatesFound := w.updatesFound + (if eff.announced then 1 else 0))
  }

  /** `watcherStatus` after the loop over `ids`, each poll run on the map the previous one left. */
  function CycleStatus(db: map<string, Value>, ids: seq<string>, polls: seq<PollInput>, w: WatcherStatus): WatcherStatus
    requires |ids| == |polls|
    decreases |ids|
  {
    if ids == [] then w
    else
      var eff := PollEffect(db, ids[0], polls[0].response, polls[0].now, polls[0].announcementId);
      CycleStatus(eff.db, ids[1..], polls[1..], StepStatus(w, ids[0], polls[0], eff))
  }

  /** `watcherStatus` after one `checkItchUpdates()`: stamped and counted, then the loop. */
  function CheckStatus(db: map<string, Value>, ids: seq<string>, start: Time, polls: seq<PollInput>, w: WatcherStatus): WatcherStatus
    requires |ids| == |polls|
  {
    CycleStatus(db, ids, polls, w.(lastCheck := Some(start), checksCount := w.checksCount + 1))
  }

  /** `watcherStatus` after several cycles, run one after the other. */
  function StartStatus(db: map<string, Value>, ids: seq<string>, cycles: seq<Cycle>, w: WatcherStatus): WatcherStatus
    requires forall c :: c in cycles ==> |c.polls| == |ids|
    decreases |cycles|
  {
    if cycles == [] then w
    else
      assert cycles[0] in cycles;
      StartStatus(RunCycle(db, ids, cycles[0].polls), ids, cycles[1..], CheckStatus(db, ids, cycles[0].start, cycles[0].polls, w))
  }

  /**
   * The loop leaves `lastCheck` and `checksCount` alone and adds to
   * `updatesFound` exactly the announcements the cycle created.
   */
  lemma {:induction false} CycleStatusCounts(db: map<string, Value>, ids: seq<string>, polls: seq<PollInput>, w: WatcherStatus)
    requires |ids| == |polls|
    ensures var r := CycleStatus(db, ids, polls, w);
      && r.lastCheck == w.lastCheck && r.checksCount == w.checksCount
      && r.updatesFound == w.updatesFound + AnnouncedIn(db, ids, polls)
    decreases |ids|
  {
    if ids != [] {
      var eff := PollEffect(db, ids[0], polls[0].response, polls[0].now, polls[0].announcementId);
      CycleStatusCounts(eff.db, ids[1..], polls[1..], StepStatus(w, ids[0], polls[0], eff));
    }
  }

  /**
   * No game loses its status, and after the loop every configured game
   * has one that records a check.
   */
  lemma {:induction false} CycleStatusCoversGames(db: map<string, Value>, ids: seq<string>, polls: seq<PollInput>, w: WatcherStatus)
    requires |ids| == |polls|
    ensures var r := CycleStatus(db, ids, polls, w);
      && (forall g :: g in w.perGame ==> g in r.perGame)
      && (forall g :: g in w.perGame && w.perGame[g].lastCheck.Some? ==> r.perGame[g].lastCheck.Some?)
      && (forall g :: g in ids ==> g in r.perGame && r.perGame[g].lastCheck.Some?)
    decreases |ids|
  {
    if ids != [] {
      var eff := PollEffect(db, ids[0], polls[0].response, polls[0].now, polls[0].announcementId);
      var w' := StepStatus(w, ids[0], polls[0], eff);
      assert w'.perGame.Keys == w.perGame.Keys + {ids[0]};
      CycleStatusCoversGames(eff.db, ids[1..], polls[1..], w');
      forall g | g in ids ensures g in ids[1..] || g == ids[0] {
        var j :| 0 <= j < |ids| && ids[j] == g;
        if j > 0 { assert ids[1..][j - 1] == g; }
      }
    }
  }

  /**
   * `lastError` is kept once set, and stays empty only when no request
   * of the cycle failed.
   */
  lemma {:induction false} CycleStatusErrors(db: map<string, Value>, ids: seq<string>, polls: seq<PollInput>, w: WatcherStatus)
    requires |ids| == |polls|
    ensures var r := CycleStatus(db, ids, polls, w);
      && (w.lastError.Some? ==> r.lastError.Some?)
      && (r.lastError.None? ==> forall j :: 0 <= j < |polls| ==> !polls[j].response.Failed?)
    decreases |ids|
  {
    if ids != [] {
      var eff := PollEffect(db, ids[0], polls[0].response, polls[0].now, polls[0].announcementId);
      var w' := StepStatus(w, ids[0], polls[0], eff);
      CycleStatusErrors(eff.db, ids[1..], polls[1..], w');
      var r := CycleStatus(db, ids, polls, w);
      if r.lastError.None? {
        forall j | 0 <= j < |polls| ensures !polls[j].response.Failed? {
          if j > 0 { assert polls[1..][j - 1] == polls[j]; }
        }
      }
    }
  }

  /**
   * `lastSuccess` is the instant of the last request that answered: kept
   * when none did, and the last poll's own instant when that one did.
   */
  lemma {:induction false} CycleStatusSuccess(db: map<string, Value>, ids: seq<string>, polls: seq<PollInput>, w: WatcherStatus)
    requires |ids| == |polls|
    ensures var r := CycleStatus(db, ids, polls, w);
      && ((forall j :: 0 <= j < |polls| ==> polls[j].response.Failed?) ==> r.lastSuccess == w.lastSuccess)
      && (polls != [] && polls[|polls| - 1].response.Fetched? ==> r.lastSuccess == Some(polls[|polls| - 1].now))
    decreases |ids|
  {
    if ids != [] {
      var eff := PollEffect(db, ids[0], polls[0].response, polls[0].now, polls[0].announcementId);
      var w' := StepStatus(w, ids[0], polls[0], eff);
      CycleStatusSuccess(eff.db, ids[1..], polls[1..], w');
      if forall j :: 0 <= j < |polls| ==> polls[j].response.Failed? {
        assert polls[0].response.Failed?;
        forall j | 0 <= j < |polls[1..]| ensures polls[1..][j].response.Failed? {
          assert polls[1..][j] == polls[j + 1];
        }
      }
      if |polls| > 1 {
        assert polls[1..][|polls[1..]| - 1] == polls[|polls| - 1];
      }
    }
  }

  /**
   * After the cycles, `checksCount` has grown by their number, `lastCheck`
   * is the last cycle's start, and every configured game has a status
   * that records a check.
   */
  lemma {:induction false} StartStatusCounts(db: map<string, Value>, ids: seq<string>, cycles: seq<Cycle>, w: WatcherStatus)
    requires forall c :: c in cycles ==> |c.polls| == |ids|
    ensures var r := StartStatus(db, ids, cycles, w);
      && r.checksCount == w.checksCount + |cycles|
      && r.updatesFound >= w.updatesFound
      && (cycles == [] ==> r == w)
      && (cycles != [] ==> r.lastCheck == Some(cycles[|cycles| - 1].start))
      && (cycles != [] ==> forall g :: g in ids ==> g in r.perGame && r.perGame[g].lastCheck.Some?)
    decreases |cycles|
  {
    if cycles != [] {
      assert cycles[0] in cycles;
      var c := cycles[0];
      var w' := CheckStatus(db, ids, c.start, c.polls, w);
      CheckStatusFacts(db, ids, c.start, c.polls, w);
      assert forall d :: d in cycles[1..] ==> d in cycles;
      StartStatusCounts(RunCycle(db, ids, c.polls), ids, cycles[1..], w');
      if |cycles| > 1 {
        assert cycles[1..][|cycles[1..]| - 1] == cycles[|cycles| - 1];
      }
    }
  }

  /**
   * One `checkItchUpdates()` on `watcherStatus`: stamped and counted once,
   * one announcement counted per announcement created, no game's status
   * lost, every configured game checked, and a failed request recorded.
   */
  lemma CheckStatusFacts(db: map<string, Value>, ids: seq<string>, start: Time, polls: seq<PollInput>, w: WatcherStatus)
    requires |ids| == |polls|
    ensures var r := CheckStatus(db, ids, start, polls, w);
      && r.lastCheck == Some(start) && r.checksCount == w.checksCount + 1
      && r.updatesFound == w.updatesFound + AnnouncedIn(db, ids, polls)
      && (forall g :: g in w.perGame ==> g in r.perGame)
      && (forall g :: g in ids ==> g in r.perGame && r.perGame[g].lastCheck.Some?)
      && (w.lastError.Some? ==> r.lastError.Some?)
      && (r.lastError.None? ==> forall j :: 0 <= j < |polls| ==> !polls[j].response.Failed?)
  {
    var stamped := w.(lastCheck := Some(start), checksCount := w.checksCount + 1);
    CycleStatusCounts(db, ids, polls, stamped);
    CycleStatusCoversGames(db, ids, polls, stamped);
    CycleStatusErrors(db, ids, polls, stamped);
  }

  /* ---------------------------------------------------------------- */
  /* The watcher                                                       */
  /* ---------------------------------------------------------------- */

  /** The watcher module's state: its configuration and `watcherStatus`, over the store it writes. */
  class Watcher {
    const store: Store
    const gameIds: seq<string>
    const pollIntervalMs: int
    var lastCheck: Option<Time>
    var lastSuccess: Option<Time>
    var lastError: Option<ErrorInfo>
    var checksCount: nat
    var updatesFound: nat
    var perGame: map<string, GameStatus>

    /** Module start: the configuration is read from the environment and every counter is empty. */
    constructor (store: Store, env: Env)
      ensures this.store == store && gameIds == ParseGameIds(env) && pollIntervalMs == PollIntervalMs(env.pollIntervalMs)
      ensures lastCheck == None && lastSuccess == None && lastError == None
      ensures checksCount == 0 && updatesFound == 0 && perGame == map[]
    {
      this.store := store;
      gameIds := ParseGameIds(env);
      pollIntervalMs := PollIntervalMs(env.pollIntervalMs);
      lastCheck := None;
      lastSuccess := None;
      lastError := None;
      checksCount := 0;
      updatesFound := 0;
      perGame := map[];
    }

    /** The announcement step on the store: prepend `a` unless the stored value is not a list. */
    method PostAnnouncement(a: Announcement) returns (announced: bool)
      modifies store
      ensures var eff := Announce(old(store.internal), a);
        && store.internal == eff.db && announced == eff.announced
        && store.disk == (if announced then Present(Serialize(eff.db)) else old(store.disk))
    {
      var announcements := AnnouncementsIn(store.GetItem(AnnouncementsKey));
      announced := false;
      if !announcements.WrongShape? {
        var list := if announcements.Found? then announcements.value else [];
        store.SetItem(AnnouncementsKey, AnnouncementList([a] + list));
        announced := true;
      }
    }

    /**
     * The store side of a poll that listed uploads: sort them, merge them
     * into the game's history, move the current version, save, and announce a new
     * version. A stored games value of the wrong shape is the poll's error.
     */
    method ApplyPoll(gameId: string, uploads: seq<Upload>, now: Time, id: string) returns (failure: Option<string>, announced: bool)
      requires uploads != []
      modifies store
      ensures var eff := PollEffect(old(store.internal), gameId, Fetched(uploads), now, id);
        && store.internal == eff.db && failure == eff.failure && announced == eff.announced
        && store.disk == (if eff.saved then Present(Serialize(eff.db)) else old(store.disk))
    {
      ghost var db := store.internal;
      var sorted := SortNewestFirst(uploads);
      var stored := GamesIn(store.GetItem(GamesKey));
      if stored.WrongShape? {
        return Some(ShapeError), false;
      }
      failure := None;
      var games := if stored.Found? then stored.value else map[];
      var entry := if gameId in games then games[gameId] else NewEntry;
      ghost var o := Reconcile(entry, uploads, gameId, now);
      var latest := sorted[0];
      var versions := MergeUploads(entry.versions, sorted, gameId, now);
      var newVersionDetected := false;
      if entry.version != Some(latest.id) {
        newVersionDetected := true;
        entry := GameEntry(Some(latest.id), Some(PatchNote(latest)), Some(now), versions);
      } else {
        entry := entry.(versions := versions);
      }
      assert o == Outcome(entry, newVersionDetected);
      store.SetItem(GamesKey, GameMap(games[gameId := entry]));
      announced := false;
      if newVersionDetected {
        var templates := StoredTemplates(store.internal);
        assert templates == StoredTemplates(db) by {
          assert Get(store.internal, TemplatesKey) == Get(db, TemplatesKey);
        }
        var content := AnnouncementText(templates, gameId, latest);
        announced := PostAnnouncement(AutoAnnouncement(id, gameId, latest, content, now));
      }
    }

    /**
     * The `try` block of one iteration on the store side: a failed request
     * is the error, an empty list changes nothing, and any other list is
     * applied as `ApplyPoll` does.
     */
    method Poll(gameId: string, poll: PollInput) returns (failure: Option<string>, announced: bool)
      modifies store
      ensures var eff := PollEffect(old(store.internal), gameId, poll.response, poll.now, poll.announcementId);
        && store.internal == eff.db && failure == eff.failure && announced == eff.announced
        && store.disk == (if eff.saved then Present(Serialize(eff.db)) else old(store.disk))
    {
      match poll.response {
        case Failed(message) =>
          return Some(message), false;
        case Fetched(uploads) =>
          if uploads == [] {
            return None, false;
          }
          failure, announced := ApplyPoll(gameId, uploads, poll.now, poll.announcementId);
      }
    }

    /** One iteration of the loop over the configured games. */
    method CheckGame(gameId: string, poll: PollInput)
      modifies this, store
      ensures var eff := PollEffect(old(store.internal), gameId, poll.response, poll.now, poll.announcementId);
        && store.internal == eff.db
        && store.disk == (if eff.saved then Present(Serialize(eff.db)) else old(store.disk))
        && updatesFound == old(updatesFound) + (if eff.announced then 1 else 0)
        && lastError == (if eff.failure.Some? then Some(ErrorInfo(poll.now, eff.failure.value)) else old(lastError))
        && perGame == old(perGame)[gameId := NextStatus(if gameId in old(perGame) then old(perGame)[gameId] else FreshStatus, poll, eff)]
      ensures lastSuccess == (if poll.response.Fetched? then Some(poll.now) else old(lastSuccess))
      ensures lastCheck == old(lastCheck) && checksCount == old(checksCount)
      ensures store.disk == Present(Serialize(store.internal)) || (store.disk == old(store.disk) && store.internal == old(store.internal))
      ensures Counters() == StepStatus(old(Counters()), gameId, poll, PollEffect(old(store.internal), gameId, poll.response, poll.now, poll.announcementId))
    {
      ghost var eff := PollEffect(store.internal, gameId, poll.response, poll.now, poll.announcementId);
      var status := if gameId in perGame then perGame[gameId] else FreshStatus;
      ghost var next := NextStatus(status, poll, eff);
      status := status.(lastCheck := Some(poll.now));
      if poll.response.Fetched? {
        lastSuccess := Some(poll.now);
        status := status.(lastSuccess := Some(poll.now));
      }
      var failure, announced := Poll(gameId, poll);
      if failure.Some? {
        lastError := Some(ErrorInfo(poll.now, failure.value));
        status := status.(lastError := lastError);
      } else if announced {
        updatesFound := updatesFound + 1;
        status := status.(updatesFound := status.updatesFound + 1);
      }
      assert status == next;
      perGame := perGame[gameId := status];
    }

    /**
     * `checkItchUpdates()`: stamp the cycle, count it, and poll every
     * configured game in order. The store ends as the cycle's fold says,
     * and each announcement created is counted once.
     */
    method CheckUpdates(cycleStart: Time, polls: seq<PollInput>)
      requires |polls| == |gameIds|
      modifies this, store
      ensures Counters() == CheckStatus(old(store.internal), gameIds, cycleStart, polls, old(Counters()))
      ensures lastCheck == Some(cycleStart) && checksCount == old(checksCount) + 1
      ensures store.internal == RunCycle(old(store.internal), gameIds, polls)
      ensures store.disk == Present(Serialize(store.internal)) || (store.disk == old(store.disk) && store.internal == old(store.internal))
      ensures updatesFound == old(updatesFound) + AnnouncedIn(old(store.internal), gameIds, polls)
      ensures forall g :: g in old(perGame) ==> g in perGame
      ensures forall g :: g in gameIds ==> g in perGame && perGame[g].lastCheck.Some?
      ensures old(lastError).Some? ==> lastError.Some?
      ensures lastError.None? ==> forall j :: 0 <= j < |polls| ==> !polls[j].response.Failed?
    {
      ghost var db := store.internal;
      ghost var stamped := Counters().(lastCheck := Some(cycleStart), checksCount := checksCount + 1);
      lastCheck := Some(cycleStart);
      checksCount := checksCount + 1;
      assert Counters() == stamped;
      assert gameIds[0..] == gameIds && polls[0..] == polls;
      var i := 0;
      while i < |gameIds|
        invariant 0 <= i <= |gameIds|
        invariant RunCycle(store.internal, gameIds[i..], polls[i..]) == RunCycle(db, gameIds, polls)
        invariant CycleStatus(store.internal, gameIds[i..], polls[i..], Counters()) == CycleStatus(db, gameIds, polls, stamped)
        invariant store.disk == Present(Serialize(store.internal)) || (store.disk == old(store.disk) && store.internal == db)
      {
        ghost var before, dbi := Counters(), store.internal;
        CheckGame(gameIds[i], polls[i]);
        ghost var eff := PollEffect(dbi, gameIds[i], polls[i].response, polls[i].now, polls[i].announcementId);
        assert gameIds[i..][0] == gameIds[i] && gameIds[i..][1..] == gameIds[i + 1..];
        assert polls[i..][0] == polls[i] && polls[i..][1..] == polls[i + 1..];
        assert CycleStatus(dbi, gameIds[i..], polls[i..], before)
          == CycleStatus(eff.db, gameIds[i + 1..], polls[i + 1..], StepStatus(before, gameIds[i], polls[i], eff));
        assert RunCycle(dbi, gameIds[i..], polls[i..]) == RunCycle(eff.db, gameIds[i + 1..], polls[i + 1..]);
        i := i + 1;
      }
      assert gameIds[i..] == [] && polls[i..] == [];
      CheckStatusFacts(db, gameIds, cycleStart, polls, old(Counters()));
    }

    /**
     * `startItchWatcher()`: with no game configured nothing happens;
     * otherwise one cycle now and one per interval, here run one after
     * the other as given.
     */
    method Start(cycles: seq<Cycle>)
      requires forall c :: c in cycles ==> |c.polls| == |gameIds|
      modifies this, store
      ensures gameIds == [] ==> unchanged(this) && unchanged(store)
      ensures gameIds != [] ==> Counters() == StartStatus(old(store.internal), gameIds, cycles, old(Counters()))
      ensures gameIds != [] ==> checksCount == old(checksCount) + |cycles|
      ensures gameIds != [] ==> store.internal == RunCycles(old(store.internal), gameIds, cycles)
      ensures store.disk == Present(Serialize(store.internal)) || (store.disk == old(store.disk) && store.internal == old(store.internal))
    {
      if gameIds == [] {
        return;
      }
      ghost var db := store.internal;
      ghost var w := Counters();
      var k := 0;
      while k < |cycles|
        invariant 0 <= k <= |cycles|
        invariant RunCycles(store.internal, gameIds, cycles[k..]) == RunCycles(db, gameIds, cycles)
        invariant StartStatus(store.internal, gameIds, cycles[k..], Counters()) == StartStatus(db, gameIds, cycles, w)
        invariant store.disk == Present(Serialize(store.internal)) || (store.disk == old(store.disk) && store.internal == db)
      {
        assert cycles[k] in cycles;
        CheckUpdates(cycles[k].start, cycles[k].polls);
        assert cycles[k..][1..] == cycles[k + 1..];
        k := k + 1;
      }
      assert cycles[k..] == [];
      StartStatusCounts(db, gameIds, cycles, w);
    }

    /** `watcherStatus` itself. */
    function Counters(): WatcherStatus
      reads this
    {
      WatcherStatus(lastCheck, lastSuccess, lastError, checksCount, updatesFound, perGame)
    }

    /** `getWatcherStatus()`: the counters, the interval in minutes and the game list. */
    function Status(): (r: StatusReport)
      reads this
      ensures r.pollIntervalMinutes * 60000.0 == pollIntervalMs as real
      ensures r.gameIds == gameIds && r.checksCount == checksCount && r.updatesFound == updatesFound
      ensures r.lastCheck == lastCheck && r.lastSuccess == lastSuccess && r.lastError == lastError && r.perGame == perGame
    {
      StatusReport(lastCheck, lastSuccess, lastError, checksCount, updatesFound, perGame,
        pollIntervalMs as real / 60000.0, gameIds)
    }
  }
}
