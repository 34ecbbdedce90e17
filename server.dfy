/**
 * The data side of the HTTP server: the defaults written at startup, the
 * admin check, and what each route handler reads from and writes to the
 * store. Routing, status bodies and JSON encoding are not modelled; each
 * handler returns the status it answers with and the value it sends.
 */
module Server {
  import opened Common
  import opened Text
  import opened Records
  import opened LocalStorage
  import opened Reconciler

  /** The statuses the handlers answer with; `InternalError` is a TypeError Express turns into 500. */
  datatype Status = Ok | BadRequest | Unauthorized | Forbidden | NotFound | InternalError

  /* ---------------------------------------------------------------- */
  /* Startup defaults                                                  */
  /* ---------------------------------------------------------------- */

  /** The admin token the server installs when none is stored. */
  const DefaultAdmin := "admin"

  const DefaultTemplates := TemplateConfig(DefaultTemplate, map[])

  /** `if (!getItem(key)) setItem(key, value)`. */
  function SetIfFalsy(s: StoreState, key: string, value: Value): (r: StoreState)
    ensures Truthy(Get(s.internal, key)) ==> r == s
    ensures !Truthy(Get(s.internal, key)) ==> Get(r.internal, key) == value && r.disk == Present(Serialize(r.internal))
  {
    if Truthy(Get(s.internal, key)) then s else Set(s, key, value)
  }

  /** The four defaults of the startup block, in the source's order. */
  function WithDefaults(s: StoreState): (r: StoreState)
    ensures r.internal.Keys == s.internal.Keys + {GamesKey, AnnouncementsKey, AdminsKey, TemplatesKey}
  {
    var s1 := SetIfFalsy(s, GamesKey, GameMap(map[]));
    var s2 := SetIfFalsy(s1, AnnouncementsKey, AnnouncementList([]));
    var s3 := SetIfFalsy(s2, AdminsKey, TokenList([DefaultAdmin]));
    SetIfFalsy(s3, TemplatesKey, TemplateSet(DefaultTemplates))
  }

  /** The four keys the startup block fills. */
  predicate IsDefaultKey(k: string)
  {
    k == GamesKey || k == AnnouncementsKey || k == AdminsKey || k == TemplatesKey
  }

  /** One default: the key ends truthy, truthy keys and other keys keep their values, and a synced store stays synced. */
  lemma SetIfFalsyFills(s: StoreState, key: string, value: Value)
    requires Truthy(value)
    ensures Truthy(Get(SetIfFalsy(s, key, value).internal, key))
    ensures forall k :: Truthy(Get(s.internal, k)) ==> Get(SetIfFalsy(s, key, value).internal, k) == Get(s.internal, k)
    ensures forall k :: k != key ==> Get(SetIfFalsy(s, key, value).internal, k) == Get(s.internal, k)
    ensures Synced(s) ==> Synced(SetIfFalsy(s, key, value))
  {
  }

  /**
   * After the defaults every server key holds a truthy value; a key that
   * already held one keeps it, and no other key changes. When nothing was
   * missing, nothing (not even the file) changes; when something was, the
   * file holds the new map.
   */
  lemma WithDefaultsFills(s: StoreState)
    ensures forall k :: IsDefaultKey(k) ==> Truthy(Get(WithDefaults(s).internal, k))
    ensures forall k :: Truthy(Get(s.internal, k)) ==> Get(WithDefaults(s).internal, k) == Get(s.internal, k)
    ensures forall k :: !IsDefaultKey(k) ==> Get(WithDefaults(s).internal, k) == Get(s.internal, k)
    ensures (forall k :: IsDefaultKey(k) ==> Truthy(Get(s.internal, k))) ==> WithDefaults(s) == s
    ensures (exists k :: IsDefaultKey(k) && !Truthy(Get(s.internal, k))) || Synced(s) ==> Synced(WithDefaults(s))
  {
    var s1 := SetIfFalsy(s, GamesKey, GameMap(map[]));
    var s2 := SetIfFalsy(s1, AnnouncementsKey, AnnouncementList([]));
    var s3 := SetIfFalsy(s2, AdminsKey, TokenList([DefaultAdmin]));
    SetIfFalsyFills(s, GamesKey, GameMap(map[]));
    SetIfFalsyFills(s1, AnnouncementsKey, AnnouncementList([]));
    SetIfFalsyFills(s2, AdminsKey, TokenList([DefaultAdmin]));
    SetIfFalsyFills(s3, TemplatesKey, TemplateSet(DefaultTemplates));
  }

  /** The file holds exactly the in-memory map. */
  predicate Synced(s: StoreState)
  {
    s.disk == Present(Serialize(s.internal))
  }

  /** Running the defaults twice is running them once. */
  lemma WithDefaultsIdempotent(s: StoreState)
    ensures WithDefaults(WithDefaults(s)) == WithDefaults(s)
  {
    WithDefaultsFills(s);
    WithDefaultsFills(WithDefaults(s));
  }

  /** The startup block on the live store. */
  method InitDefaults(store: Store)
    modifies store
    ensures store.State() == WithDefaults(old(store.State()))
  {
    if !Truthy(store.GetItem(GamesKey)) {
      store.SetItem(GamesKey, GameMap(map[]));
    }
    if !Truthy(store.GetItem(AnnouncementsKey)) {
      store.SetItem(AnnouncementsKey, AnnouncementList([]));
    }
    if !Truthy(store.GetItem(AdminsKey)) {
      store.SetItem(AdminsKey, TokenList([DefaultAdmin]));
    }
    if !Truthy(store.GetItem(TemplatesKey)) {
      store.SetItem(TemplatesKey, TemplateSet(DefaultTemplates));
    }
  }

  /**
   * Startup as written: the store module never reads its file, so the
   * defaults are written over an empty map.
   */
  function StartupAsWritten(disk: Disk): (r: StoreState)
    ensures Get(r.internal, GamesKey) == GameMap(map[]) && Get(r.internal, AnnouncementsKey) == AnnouncementList([])
    ensures Get(r.internal, AdminsKey) == TokenList([DefaultAdmin]) && Get(r.internal, TemplatesKey) == TemplateSet(DefaultTemplates)
    ensures forall k :: !IsDefaultKey(k) ==> Get(r.internal, k) == Null
    ensures r.disk == Present(Serialize(r.internal))
  {
    var s := Initial(disk);
    WithDefaultsFills(s);
    WithDefaults(s)
  }

  /** As written, a restart replaces the saved announcements in the file by an empty list. */
  lemma StartupAsWrittenDiscardsSavedData(disk: Disk)
    requires disk.Present? && disk.content.Document?
    requires AnnouncementsIn(Get(disk.content.entries, AnnouncementsKey)).Found?
    requires AnnouncementsIn(Get(disk.content.entries, AnnouncementsKey)).value != []
    ensures var after := StartupAsWritten(disk);
      after.disk.Present? && after.disk.content.Document?
      && Get(after.disk.content.entries, AnnouncementsKey) == AnnouncementList([])
      && Get(after.disk.content.entries, AnnouncementsKey) != Get(disk.content.entries, AnnouncementsKey)
  {
    var s := Initial(disk);
    WithDefaultsFills(s);
    assert Get(s.internal, AnnouncementsKey) == Null;
  }

  /** Startup as intended: load the file, then fill in what is missing. */
  function Startup(disk: Disk): StoreState
  {
    WithDefaults(Loaded(disk))
  }

  /** Every truthy value saved in the file survives a restart, and the file ends holding the started map. */
  lemma StartupKeepsSavedData(disk: Disk)
    ensures disk.Present? && disk.content.Document? ==>
      forall k :: Truthy(Get(disk.content.entries, k)) ==> Get(Startup(disk).internal, k) == Get(disk.content.entries, k)
    ensures Synced(Startup(disk))
  {
    var s := Loaded(disk);
    WithDefaultsFills(s);
    if !Synced(s) {
      assert IsDefaultKey(GamesKey) && !Truthy(Get(s.internal, GamesKey));
    }
  }

  /** Restarting a server that has started changes nothing. */
  lemma RestartIsStable(disk: Disk)
    ensures Startup(Startup(disk).disk) == Startup(disk)
  {
    var t := Startup(disk);
    StartupKeepsSavedData(disk);
    assert Loaded(t.disk) == t;
    WithDefaultsIdempotent(Loaded(disk));
  }

  /** Module loading followed by the startup block, with the load the store module omits. */
  method Boot(disk: Disk) returns (store: Store)
    ensures fresh(store) && store.State() == Startup(disk)
  {
    store := new Store(disk);
    var _ := store.Reload();
    InitDefaults(store);
  }

  /* ---------------------------------------------------------------- */
  /* Admin check                                                       */
  /* ---------------------------------------------------------------- */

  /**
   * `value.includes(token)`: list membership for a token list, substring
   * search for a text, `false` for a list of announcements, and a
   * TypeError (`None`) for the values that have no `includes`.
   */
  function Includes(v: Value, token: string): (b: Option<bool>)
    ensures b.Some? <==> v.TokenList? || v.Str? || v.AnnouncementList?
    ensures v.TokenList? ==> b == Some(token in v.tokens)
    ensures v.Str? ==> b == Some(Contains(v.s, token))
    ensures v.AnnouncementList? ==> b == Some(false)
  {
    match v
    case TokenList(tokens) => Some(token in tokens)
    case Str(s) => Some(Contains(s, token))
    case AnnouncementList(_) => Some(false)
    case _ => None
  }

  /** `isAdmin`: no token is 401; a token the admin list includes passes; any other is 403. */
  function Authorize(admins: Value, token: string): (s: Status)
    ensures token == "" <==> s == Unauthorized
    ensures token != "" && admins.TokenList? ==> (s == Ok <==> token in admins.tokens)
    ensures token != "" && admins.TokenList? ==> s in {Ok, Forbidden}
    ensures s == Ok ==> Includes(admins, token) == Some(true)
    ensures s == InternalError <==> token != "" && Includes(admins, token).None?
  {
    if token == "" then Unauthorized
    else match Includes(admins, token)
      case None => InternalError
      case Some(b) => if b then Ok else Forbidden
  }

  /** `POST /admin/login`: the token is accepted when the admin list includes it. */
  function Login(admins: Value, token: string): (s: Status)
    ensures admins.TokenList? ==> (s == Ok <==> token in admins.tokens) && s in {Ok, Unauthorized}
    ensures s == Ok ==> Includes(admins, token) == Some(true)
  {
    match Includes(admins, token)
    case None => InternalError
    case Some(b) => if b then Ok else Unauthorized
  }

  /** A token list without repetitions. */
  predicate NoDuplicates(ts: seq<string>)
  {
    forall i, j :: 0 <= i < j < |ts| ==> ts[i] != ts[j]
  }

  /** `indexOf`: the first position of `t`, or -1. */
  function IndexOf(ts: seq<string>, t: string): (i: int)
    ensures -1 <= i < |ts|
    ensures i == -1 <==> t !in ts
    ensures 0 <= i ==> ts[i] == t && forall j :: 0 <= j < i ==> ts[j] != t
  {
    if ts == [] then -1
    else if ts[0] == t then 0
    else
      var i := IndexOf(ts[1..], t);
      if i == -1 then -1 else i + 1
  }

  /** `splice(i, 1)`: the sequence without its element at `i`. */
  function RemoveAt<T>(s: seq<T>, i: nat): (r: seq<T>)
    requires i < |s|
    ensures |r| == |s| - 1
    ensures forall j :: 0 <= j < i ==> r[j] == s[j]
    ensures forall j :: i <= j < |r| ==> r[j] == s[j + 1]
    ensures multiset(r) + multiset{s[i]} == multiset(s)
  {
    assert s == s[..i] + [s[i]] + s[i + 1..];
    s[..i] + s[i + 1..]
  }

  /** The `add` action: append the token unless the list already includes it. */
  function AddAdmin(ts: seq<string>, t: string): (r: seq<string>)
    ensures t in r
    ensures t in ts ==> r == ts
    ensures t !in ts ==> r == ts + [t]
  {
    if t in ts then ts else ts + [t]
  }

  /** The `remove` action: delete the first occurrence of the token, if any, keeping the others in order. */
  function RemoveAdmin(ts: seq<string>, t: string): (r: seq<string>)
    ensures t !in ts ==> r == ts
    ensures t in ts ==> r == ts[..IndexOf(ts, t)] + ts[IndexOf(ts, t) + 1..]
    ensures multiset(r) == multiset(ts) - multiset{t}
  {
    var i := IndexOf(ts, t);
    if i == -1 then ts
    else
      assert multiset(ts)[t] >= 1;
      var r := RemoveAt(ts, i);
      assert r == ts[..i] + ts[i + 1..];
      r
  }

  /**
   * Removal takes out the first occurrence: the tokens before it, which
   * are all different from `t`, followed by everything after it.
   */
  lemma RemoveAdminFirst(before: seq<string>, t: string, after: seq<string>)
    requires t !in before
    ensures RemoveAdmin(before + [t] + after, t) == before + after
  {
    var ts := before + [t] + after;
    assert ts[|before|] == t;
    assert forall j :: 0 <= j < |before| ==> ts[j] == before[j];
    assert IndexOf(ts, t) == |before|;
    assert ts[..|before|] == before && ts[|before| + 1..] == after;
  }

  /** With a repeated token, only its first occurrence goes. */
  lemma RemoveAdminRepeated()
    ensures RemoveAdmin(["a", "b", "a"], "a") == ["b", "a"]
  {
    RemoveAdminFirst([], "a", ["b", "a"]);
    assert [] + ["a"] + ["b", "a"] == ["a", "b", "a"];
  }

  /** Adding never duplicates a token, and adding twice is adding once. */
  lemma AddAdminKeepsNoDuplicates(ts: seq<string>, t: string)
    requires NoDuplicates(ts)
    ensures NoDuplicates(AddAdmin(ts, t))
    ensures AddAdmin(AddAdmin(ts, t), t) == AddAdmin(ts, t)
  {
  }

  /** In a list without repetitions, a removed token is gone, and removing undoes a fresh add. */
  lemma RemoveAdminRemovesToken(ts: seq<string>, t: string)
    requires NoDuplicates(ts)
    ensures t !in RemoveAdmin(ts, t)
    ensures NoDuplicates(RemoveAdmin(ts, t))
    ensures t !in ts ==> RemoveAdmin(AddAdmin(ts, t), t) == ts
  {
    if t in ts {
      var i := IndexOf(ts, t);
      var r := RemoveAdmin(ts, t);
      forall j | 0 <= j < |r| ensures r[j] != t {
        if j >= i {
          assert r[j] == ts[j + 1];
        }
      }
    } else {
      var a := ts + [t];
      assert IndexOf(a, t) == |ts|;
      assert RemoveAt(a, |ts|) == ts;
    }
  }

  /** A token just added passes the admin check. */
  lemma AddedAdminPasses(ts: seq<string>, t: string)
    requires t != ""
    ensures Authorize(TokenList(AddAdmin(ts, t)), t) == Ok
  {
    assert t in AddAdmin(ts, t);
  }

  /** A token just removed from a list without repetitions is refused. */
  lemma RemovedAdminRefused(ts: seq<string>, t: string)
    requires t != "" && NoDuplicates(ts)
    ensures Authorize(TokenList(RemoveAdmin(ts, t)), t) == Forbidden
  {
    RemoveAdminRemovesToken(ts, t);
  }

  /**
   * `POST /admin/users`: `add` and `remove` change the stored list, any
   * other action nothing. The stored value is used only inside those two
   * branches: a value without `includes`/`indexOf` throws there, and so
   * does `push` or `splice` on a text.
   */
  method ManageAdmins(store: Store, action: string, token: string) returns (status: Status)
    modifies store
    ensures var stored := Get(old(store.internal), AdminsKey);
      var has := Includes(stored, token);
      if action != "add" && action != "remove" then status == Ok && store.State() == old(store.State())
      else if has.None? then status == InternalError && store.State() == old(store.State())
      else if action == "add" && has.value then status == Ok && store.State() == old(store.State())
      else if action == "remove" && !has.value then status == Ok && store.State() == old(store.State())
      else if !stored.TokenList? then status == InternalError && store.State() == old(store.State())
      else if action == "add" then
        status == Ok && store.State() == Set(old(store.State()), AdminsKey, TokenList(AddAdmin(stored.tokens, token)))
      else
        status == Ok && store.State() == Set(old(store.State()), AdminsKey, TokenList(RemoveAdmin(stored.tokens, token)))
  {
    var stored := store.GetItem(AdminsKey);
    status := Ok;
    if action == "add" {
      var has := Includes(stored, token);
      if has.None? {
        return InternalError;
      }
      if !has.value {
        if !stored.TokenList? {
          return InternalError;
        }
        store.SetItem(AdminsKey, TokenList(stored.tokens + [token]));
      }
    } else if action == "remove" {
      var has := Includes(stored, token);
      if has.None? {
        return InternalError;
      }
      if has.value {
        if !stored.TokenList? {
          return InternalError;
        }
        var admins := stored.tokens;
        var index := IndexOf(admins, token);
        if index > -1 {
          store.SetItem(AdminsKey, TokenList(RemoveAt(admins, index)));
        }
      }
    }
  }

  /* ---------------------------------------------------------------- */
  /* Game versions                                                     */
  /* ---------------------------------------------------------------- */

  /** The webhook's upsert: the current-version fields are overwritten, and the version is recorded once. */
  function Upsert(entry: GameEntry, version: string, patchNotes: string, now: Time): (e: GameEntry)
    ensures e.version == Some(version) && e.patchNotes == Some(patchNotes) && e.lastUpdated == Some(now)
    ensures version in Ids(entry.versions) ==> e.versions == entry.versions
    ensures version !in Ids(entry.versions) ==> e.versions == [VersionRecord(version, patchNotes, now, Reported)] + entry.versions
  {
    var versions :=
      if FindVersion(entry.versions, version).Some? then entry.versions
      else [VersionRecord(version, patchNotes, now, Reported)] + entry.versions;
    GameEntry(Some(version), Some(patchNotes), Some(now), versions)
  }

  /** The upsert keeps a game entry valid, and the reported version is always recorded. */
  lemma UpsertKeepsEntryValid(entry: GameEntry, version: string, patchNotes: string, now: Time)
    requires UniqueIds(entry.versions)
    ensures EntryValid(Upsert(entry, version, patchNotes, now))
    ensures Ids(Upsert(entry, version, patchNotes, now).versions) == Ids(entry.versions) + {version}
  {
    var r := VersionRecord(version, patchNotes, now, Reported);
    IdsCons(r, entry.versions);
    if version !in Ids(entry.versions) {
      UniqueCons(r, entry.versions);
    }
  }

  /** Reporting the same version again only moves `lastUpdated`: the history is not duplicated. */
  lemma UpsertIdempotent(entry: GameEntry, version: string, patchNotes: string, now: Time, later: Time)
    ensures var e := Upsert(entry, version, patchNotes, now);
      Upsert(e, version, patchNotes, later) == e.(lastUpdated := Some(later))
  {
    var r := VersionRecord(version, patchNotes, now, Reported);
    IdsCons(r, entry.versions);
  }

  /** `POST /webhook/itch-io/:gameId`: no admin check; the upserted entry is saved. */
  method Webhook(store: Store, gameId: string, version: string, patchNotes: string, now: Time) returns (status: Status)
    modifies store
    ensures var games := GamesIn(Get(old(store.internal), GamesKey));
      if games.Found? then
        status == Ok
        && store.State() == Set(old(store.State()), GamesKey,
             GameMap(games.value[gameId := Upsert(EntryOf(games.value, gameId), version, patchNotes, now)]))
      else status == InternalError && store.State() == old(store.State())
  {
    var stored := GamesIn(store.GetItem(GamesKey));
    if !stored.Found? {
      return InternalError;
    }
    var games := stored.value;
    var entry := if gameId in games then games[gameId] else NewEntry;
    entry := entry.(version := Some(version), patchNotes := Some(patchNotes), lastUpdated := Some(now));
    var found := FindVersion(entry.versions, version);
    if found.None? {
      entry := entry.(versions := [VersionRecord(version, patchNotes, now, Reported)] + entry.versions);
    }
    store.SetItem(GamesKey, GameMap(games[gameId := entry]));
    status := Ok;
  }

  /** What `GET /games/:gameId/version` sends. */
  datatype VersionInfo = VersionInfo(current: Option<string>, lastUpdated: Option<Time>, patchNotes: Option<string>)

  /** A handler's answer: the status, and the value sent with 200. */
  datatype Answer<T> = Answer(status: Status, body: Option<T>)

  /** The entry `games[gameId]` reads on a stored value that is not `null`: only a games map holds entries. */
  function GameAt(stored: Value, gameId: string): Option<GameEntry>
  {
    if stored.GameMap? && gameId in stored.games then Some(stored.games[gameId]) else None
  }

  /**
   * `GET /games/:gameId/version`: the current-version fields of a known
   * game, 404 for an unknown one. Only a `null` games value throws on
   * `games[gameId]`; any other value without that entry reads `undefined`.
   */
  function GetVersion(db: map<string, Value>, gameId: string): (a: Answer<VersionInfo>)
    ensures a.status == Ok <==> a.body.Some?
    ensures Get(db, GamesKey).Null? ==> a == Answer(InternalError, None)
    ensures Get(db, GamesKey).GameMap? && gameId in Get(db, GamesKey).games ==>
      var e := Get(db, GamesKey).games[gameId];
      a == Answer(Ok, Some(VersionInfo(e.version, e.lastUpdated, e.patchNotes)))
    ensures !Get(db, GamesKey).Null? && !(Get(db, GamesKey).GameMap? && gameId in Get(db, GamesKey).games) ==>
      a == Answer(NotFound, None)
  {
    var stored := Get(db, GamesKey);
    if stored.Null? then Answer(InternalError, None)
    else match GameAt(stored, gameId)
      case Some(e) => Answer(Ok, Some(VersionInfo(e.version, e.lastUpdated, e.patchNotes)))
      case None => Answer(NotFound, None)
  }

  /**
   * `GET /games/:gameId/versions`: the history of a known game, an empty
   * one for an unknown game; only a `null` games value throws.
   */
  function GetVersions(db: map<string, Value>, gameId: string): (a: Answer<seq<VersionRecord>>)
    ensures Get(db, GamesKey).Null? ==> a == Answer(InternalError, None)
    ensures Get(db, GamesKey).GameMap? ==> a == Answer(Ok, Some(EntryOf(Get(db, GamesKey).games, gameId).versions))
    ensures !Get(db, GamesKey).Null? && !Get(db, GamesKey).GameMap? ==> a == Answer(Ok, Some([]))
  {
    var stored := Get(db, GamesKey);
    if stored.Null? then Answer(InternalError, None)
    else match GameAt(stored, gameId)
      case Some(e) => Answer(Ok, Some(e.versions))
      case None => Answer(Ok, Some([]))
  }

  /** After the webhook, the game is known and its history lists the reported version. */
  lemma WebhookThenRead(db: map<string, Value>, gameId: string, version: string, patchNotes: string, now: Time)
    requires GamesIn(Get(db, GamesKey)).Found?
    ensures var games := GamesIn(Get(db, GamesKey)).value;
      var after := db[GamesKey := GameMap(games[gameId := Upsert(EntryOf(games, gameId), version, patchNotes, now)])];
      && GetVersion(after, gameId) == Answer(Ok, Some(VersionInfo(Some(version), Some(now), Some(patchNotes))))
      && GetVersions(after, gameId).body.Some?
      && version in Ids(GetVersions(after, gameId).body.value)
  {
    var games := GamesIn(Get(db, GamesKey)).value;
    var e := EntryOf(games, gameId);
    IdsCons(VersionRecord(version, patchNotes, now, Reported), e.versions);
  }

  /* ---------------------------------------------------------------- */
  /* Announcements                                                     */
  /* ---------------------------------------------------------------- */

  /** `findIndex(a => a.id === id)`: the first position with that id, or -1. */
  function IndexOfId(list: seq<Announcement>, id: string): (i: int)
    ensures -1 <= i < |list|
    ensures i == -1 <==> forall j :: 0 <= j < |list| ==> list[j].id != id
    ensures 0 <= i ==> list[i].id == id && forall j :: 0 <= j < i ==> list[j].id != id
  {
    if list == [] then -1
    else if list[0].id == id then 0
    else
      var i := IndexOfId(list[1..], id);
      if i == -1 then -1 else i + 1
  }

  /** `POST /admin/announcements`: the new announcement goes in front. */
  method CreateAnnouncement(store: Store, title: string, content: string, kind: string, gameId: Option<string>, id: string, now: Time)
    returns (status: Status, created: Option<Announcement>)
    modifies store
    ensures var stored := AnnouncementsIn(Get(old(store.internal), AnnouncementsKey));
      if stored.Found? then
        var a := Announcement(id, title, content, kind, gameId, now, None);
        status == Ok && created == Some(a)
        && store.State() == Set(old(store.State()), AnnouncementsKey, AnnouncementList([a] + stored.value))
      else status == InternalError && created.None? && store.State() == old(store.State())
  {
    var stored := AnnouncementsIn(store.GetItem(AnnouncementsKey));
    if !stored.Found? {
      return InternalError, None;
    }
    var a := Announcement(id, title, content, kind, gameId, now, None);
    store.SetItem(AnnouncementsKey, AnnouncementList([a] + stored.value));
    return Ok, Some(a);
  }

  /** An announcement after an edit: truthy fields replace the old ones, and the edit is stamped. */
  function Edited(a: Announcement, title: string, content: string, now: Time): (r: Announcement)
    ensures r.id == a.id && r.kind == a.kind && r.gameId == a.gameId && r.date == a.date
    ensures r.title == (if title != "" then title else a.title)
    ensures r.content == (if content != "" then content else a.content)
    ensures r.editedAt == Some(now)
  {
    var titled := if title != "" then a.(title := title) else a;
    var written := if content != "" then titled.(content := content) else titled;
    written.(editedAt := Some(now))
  }

  /** Editing with the same fields again only moves the stamp; an empty edit only stamps. */
  lemma EditedIdempotent(a: Announcement, title: string, content: string, now: Time, later: Time)
    ensures Edited(Edited(a, title, content, now), title, content, later) == Edited(a, title, content, later)
    ensures Edited(a, "", "", now) == a.(editedAt := Some(now))
  {
  }

  /** The edit of the first announcement with the id, or `None` when there is none. */
  function EditFirst(list: seq<Announcement>, id: string, title: string, content: string, now: Time): (r: Option<seq<Announcement>>)
    ensures r.None? <==> IndexOfId(list, id) == -1
  {
    var i := IndexOfId(list, id);
    if i == -1 then None else Some(list[i := Edited(list[i], title, content, now)])
  }

  /** Only the first announcement with the id changes, and it changes as `Edited` says. */
  lemma EditFirstTouchesOnlyMatch(list: seq<Announcement>, id: string, title: string, content: string, now: Time)
    requires EditFirst(list, id, title, content, now).Some?
    ensures var r := EditFirst(list, id, title, content, now).value;
      exists i :: 0 <= i < |list| && list[i].id == id && (forall j :: 0 <= j < i ==> list[j].id != id)
        && r[i] == Edited(list[i], title, content, now)
        && |r| == |list| && forall j :: 0 <= j < |list| && j != i ==> r[j] == list[j]
  {
    var i := IndexOfId(list, id);
    assert 0 <= i;
  }

  /** `PUT /admin/announcements/:id`: 404 and no change for an unknown id. */
  method EditAnnouncement(store: Store, id: string, title: string, content: string, now: Time)
    returns (status: Status, edited: Option<Announcement>)
    modifies store
    ensures var stored := AnnouncementsIn(Get(old(store.internal), AnnouncementsKey));
      if !stored.Found? then status == InternalError && edited.None? && store.State() == old(store.State())
      else
        var i := IndexOfId(stored.value, id);
        if i == -1 then status == NotFound && edited.None? && store.State() == old(store.State())
        else
          && status == Ok && edited == Some(Edited(stored.value[i], title, content, now))
          && store.State() == Set(old(store.State()), AnnouncementsKey,
               AnnouncementList(EditFirst(stored.value, id, title, content, now).value))
  {
    var stored := AnnouncementsIn(store.GetItem(AnnouncementsKey));
    if !stored.Found? {
      return InternalError, None;
    }
    var list := stored.value;
    var idx := IndexOfId(list, id);
    if idx == -1 {
      return NotFound, None;
    }
    var a := list[idx];
    if title != "" {
      a := a.(title := title);
    }
    if content != "" {
      a := a.(content := content);
    }
    a := a.(editedAt := Some(now));
    list := list[idx := a];
    store.SetItem(AnnouncementsKey, AnnouncementList(list));
    return Ok, Some(a);
  }

  /** The list without the first announcement with the id, and that announcement; `None` when there is none. */
  function DeleteFirst(list: seq<Announcement>, id: string): (r: Option<(seq<Announcement>, Announcement)>)
    ensures r.None? <==> forall j :: 0 <= j < |list| ==> list[j].id != id
    ensures r.Some? ==> r.value.1.id == id && multiset(r.value.0) + multiset{r.value.1} == multiset(list)
  {
    var i := IndexOfId(list, id);
    if i == -1 then None else Some((RemoveAt(list, i), list[i]))
  }

  /** Deletion removes exactly the first match, and the others keep their order. */
  lemma DeleteFirstRemovesFirstMatch(list: seq<Announcement>, id: string)
    requires DeleteFirst(list, id).Some?
    ensures var r := DeleteFirst(list, id).value.0;
      exists i :: 0 <= i < |list| && list[i].id == id && (forall j :: 0 <= j < i ==> list[j].id != id)
        && r == list[..i] + list[i + 1..]
  {
    var i := IndexOfId(list, id);
    var r := DeleteFirst(list, id).value.0;
    assert r == list[..i] + list[i + 1..];
  }

  /** `DELETE /admin/announcements/:id`: 404 and no change for an unknown id. */
  method DeleteAnnouncement(store: Store, id: string) returns (status: Status, removed: Option<Announcement>)
    modifies store
    ensures var stored := AnnouncementsIn(Get(old(store.internal), AnnouncementsKey));
      if !stored.Found? then status == InternalError && removed.None? && store.State() == old(store.State())
      else
        var d := DeleteFirst(stored.value, id);
        if d.None? then status == NotFound && removed.None? && store.State() == old(store.State())
        else
          && status == Ok && removed == Some(d.value.1)
          && store.State() == Set(old(store.State()), AnnouncementsKey, AnnouncementList(d.value.0))
  {
    var stored := AnnouncementsIn(store.GetItem(AnnouncementsKey));
    if !stored.Found? {
      return InternalError, None;
    }
    var list := stored.value;
    var idx := IndexOfId(list, id);
    if idx == -1 {
      return NotFound, None;
    }
    var a := list[idx];
    store.SetItem(AnnouncementsKey, AnnouncementList(RemoveAt(list, idx)));
    return Ok, Some(a);
  }

  /** Which filter `GET /announcements` applies. */
  predicate FiltersGame(kind: string, gameId: string)
  {
    kind == "game-specific" && gameId != ""
  }

  /** The two filters of the public list. */
  datatype Selection = OfGame(gameId: string) | GlobalOnly

  predicate Selects(sel: Selection, a: Announcement)
  {
    match sel
    case OfGame(g) => a.kind == "game-specific" && a.gameId == Some(g)
    case GlobalOnly => a.kind == "global"
  }

  /** `filter(...)`: the announcements the selection keeps, in their order. */
  function Keep(list: seq<Announcement>, sel: Selection): (r: seq<Announcement>)
    ensures |r| <= |list|
  {
    if list == [] then []
    else (if Selects(sel, list[0]) then [list[0]] else []) + Keep(list[1..], sel)
  }

  /** The filter keeps exactly the announcements the selection accepts. */
  lemma {:induction false} KeepMembers(list: seq<Announcement>, sel: Selection)
    ensures forall a :: a in Keep(list, sel) <==> a in list && Selects(sel, a)
  {
    if list != [] {
      KeepMembers(list[1..], sel);
      assert list == [list[0]] + list[1..];
    }
  }

  /** Filtering keeps order: `Keep` distributes over concatenation. */
  lemma {:induction false} KeepAppend(xs: seq<Announcement>, ys: seq<Announcement>, sel: Selection)
    ensures Keep(xs + ys, sel) == Keep(xs, sel) + Keep(ys, sel)
  {
    if xs != [] {
      var h := if Selects(sel, xs[0]) then [xs[0]] else [];
      assert (xs + ys)[0] == xs[0] && (xs + ys)[1..] == xs[1..] + ys;
      calc {
        Keep(xs + ys, sel);
        h + Keep(xs[1..] + ys, sel);
        { KeepAppend(xs[1..], ys, sel); }
        h + (Keep(xs[1..], sel) + Keep(ys, sel));
        (h + Keep(xs[1..], sel)) + Keep(ys, sel);
        Keep(xs, sel) + Keep(ys, sel);
      }
    } else {
      assert xs + ys == ys;
    }
  }

  /** The public filter: one game's game-specific announcements, the global ones, or all. */
  function FilterAnnouncements(list: seq<Announcement>, kind: string, gameId: string): (r: seq<Announcement>)
    ensures FiltersGame(kind, gameId) ==>
      forall a :: a in r <==> a in list && a.kind == "game-specific" && a.gameId == Some(gameId)
    ensures !FiltersGame(kind, gameId) && kind == "global" ==>
      forall a :: a in r <==> a in list && a.kind == "global"
    ensures !FiltersGame(kind, gameId) && kind != "global" ==> r == list
    ensures |r| <= |list|
  {
    KeepMembers(list, OfGame(gameId));
    KeepMembers(list, GlobalOnly);
    if FiltersGame(kind, gameId) then Keep(list, OfGame(gameId))
    else if kind == "global" then Keep(list, GlobalOnly)
    else list
  }

  /**
   * `GET /announcements`: the stored value itself when no filter applies;
   * the filtered list otherwise, which needs the stored value to be a list.
   */
  function ListAnnouncements(stored: Value, kind: string, gameId: string): (a: Answer<Value>)
    ensures !FiltersGame(kind, gameId) && kind != "global" ==> a == Answer(Ok, Some(stored))
    ensures (FiltersGame(kind, gameId) || kind == "global") && stored.AnnouncementList? ==>
      a == Answer(Ok, Some(AnnouncementList(FilterAnnouncements(stored.items, kind, gameId))))
    ensures (FiltersGame(kind, gameId) || kind == "global") && !stored.AnnouncementList? ==> a.status == InternalError
  {
    if !FiltersGame(kind, gameId) && kind != "global" then Answer(Ok, Some(stored))
    else if stored.AnnouncementList? then Answer(Ok, Some(AnnouncementList(FilterAnnouncements(stored.items, kind, gameId))))
    else Answer(InternalError, None)
  }

  /** An announcement the watcher creates for a game is listed by that game's filter. */
  lemma AutoAnnouncementIsListed(list: seq<Announcement>, id: string, gameId: string, latest: Upload, content: string, now: Time)
    requires gameId != ""
    ensures var a := AutoAnnouncement(id, gameId, latest, content, now);
      a in FilterAnnouncements([a] + list, "game-specific", gameId)
      && a !in FilterAnnouncements([a] + list, "global", "")
  {
  }

  /* ---------------------------------------------------------------- */
  /* Templates                                                         */
  /* ---------------------------------------------------------------- */

  /** The template update: `None` is the 400 answer to a payload that names no valid scope. */
  function SetTemplate(t: TemplateConfig, scope: string, gameId: string, template: string): (r: Option<TemplateConfig>)
    ensures r.Some? <==> scope == "global" || (scope == "perGame" && gameId != "")
    ensures scope == "global" ==> r == Some(t.(global := template))
    ensures scope == "perGame" && gameId != "" ==> r == Some(t.(perGame := t.perGame[gameId := template]))
  {
    if scope == "global" then Some(t.(global := template))
    else if scope == "perGame" && gameId != "" then Some(t.(perGame := t.perGame[gameId := template]))
    else None
  }

  /**
   * A non-empty per-game template is the one the watcher then uses for that
   * game, and other games keep the template they had.
   */
  lemma PerGameTemplateTakesEffect(t: TemplateConfig, gameId: string, other: string, template: string)
    requires gameId != "" && template != "" && other != gameId
    ensures ChooseTemplate(SetTemplate(t, "perGame", gameId, template).value, gameId) == template
    ensures ChooseTemplate(SetTemplate(t, "perGame", gameId, template).value, other) == ChooseTemplate(t, other)
  {
    OtherOverrideIrrelevant(t, other, gameId, template);
  }

  /** A non-empty global template is used for every game without a non-empty override of its own. */
  lemma GlobalTemplateTakesEffect(t: TemplateConfig, gameId: string, template: string)
    requires template != "" && (gameId !in t.perGame || t.perGame[gameId] == "")
    ensures ChooseTemplate(SetTemplate(t, "global", gameId, template).value, gameId) == template
  {
  }

  /**
   * `POST /admin/templates`: an invalid payload is refused before the stored
   * value is touched; otherwise a missing templates value starts from the
   * empty configuration.
   */
  method UpdateTemplate(store: Store, scope: string, gameId: string, template: string)
    returns (status: Status, saved: Option<TemplateConfig>)
    modifies store
    ensures var stored := TemplatesIn(Get(old(store.internal), TemplatesKey));
      if !(scope == "global" || (scope == "perGame" && gameId != "")) then
        status == BadRequest && saved.None? && store.State() == old(store.State())
      else if stored.WrongShape? then
        status == InternalError && saved.None? && store.State() == old(store.State())
      else
        var r := SetTemplate(if stored.Found? then stored.value else NoTemplates, scope, gameId, template);
        status == Ok && saved == r && store.State() == Set(old(store.State()), TemplatesKey, TemplateSet(r.value))
  {
    var stored := TemplatesIn(store.GetItem(TemplatesKey));
    var templates := if stored.Found? then stored.value else NoTemplates;
    if scope == "global" {
      if stored.WrongShape? {
        return InternalError, None;
      }
      templates := templates.(global := template);
    } else if scope == "perGame" && gameId != "" {
      if stored.WrongShape? {
        return InternalError, None;
      }
      templates := templates.(perGame := templates.perGame[gameId := template]);
    } else {
      return BadRequest, None;
    }
    store.SetItem(TemplatesKey, TemplateSet(templates));
    return Ok, Some(templates);
  }
}
