# Game version tracker: a Dafny model

This project models the core of a small Node.js backend that tracks the
builds of games published on itch.io. The model covers three parts.

- **The key-value store** (`geserver/localstorage.js`): one in-memory map,
  written whole to a JSON file on every change, with a `reload` that
  re-reads the file.
- **The itch.io watcher** (`geserver/itchwatcher.js`): polls each configured
  game's upload list and merges new uploads into the game's version
  history. It moves the game's current version to the newest upload and
  posts an automatic announcement built from a template. It keeps
  per-game status counters as it goes.
- **The route handlers** (`geserver/server.js`):
  - the startup defaults and the admin check;
  - the webhook that reports a version;
  - the version queries;
  - announcement create, edit, delete and list;
  - admin-list management and template updates.

Files:

| file | module | contents |
|---|---|---|
| `common.dfy` | `Common` | `Option` |
| `text.dfy` | `Text` | `split` with a literal separator, global literal `replace`, `trim` |
| `records.dfy` | `Records` | uploads, version records, game entries, announcements, templates, the store's values, JavaScript truthiness |
| `localstorage.dfy` | `LocalStorage` | the store as functions on `StoreState`, and the `Store` class over them |
| `reconciler.dfy` | `Reconciler` | stable newest-first sort, the merge loop, the move of the current version, template choice and placeholder substitution |
| `watcher.dfy` | `ItchWatcher` | game-id and interval configuration, the effect of one poll on the store, the `Watcher` class with its status |
| `server.dfy` | `Server` | startup, `isAdmin`, and each handler's effect on the store |

Modelling choices:

- The file is an abstract `Disk`: missing, or present with blank, corrupt
  or serialised content. `Serialize` is injective and `Parse` inverts it.
- Time is an integer. The HTTP responses, the instant of each poll, and
  the id given to a new announcement (`Date.now()`) are all inputs.
- A stored value (`Value`) is `null`, a boolean, an integer, a text, or
  one of the four shapes the server writes.
  - A falsy value takes the code's `||` default where the code has one.
  - A handler answers `InternalError` where the code reads a property of
    `null` or calls a method the stored value lacks. This is the
    TypeError that Express turns into status 500. Reading a property of
    `false`, `0`, `""` or any other non-null value gives `undefined`
    instead; `GetVersion` and `GetVersions` model that. On the paths that
    do not touch the value, the handler answers as the code does, whatever
    is stored.
  - Several handlers also treat a stored value of an unexpected shape as
    `InternalError` where JavaScript would read `undefined` or carry on;
    see Left out.
- Request fields that may be absent (`title`, `content`, `gameId`, the
  token) are strings, with `""` standing for both absent and empty. The
  code tests them only for truthiness.

Three behaviours of the code that a reader might not expect:

- The merge loop (`geserver/itchwatcher.js:66-80`) walks the sorted
  uploads newest first and `unshift`s each unseen one. After a burst of
  uploads the OLDEST new upload is therefore at index 0 of the history
  (`ReconcileBurstExample`).
- `startItchWatcher` (`geserver/itchwatcher.js:144-152`) uses
  `setInterval`, which starts a new cycle whether or not the previous
  `async` cycle has finished. The model runs cycles one after the other
  (see Left out).
- `load()` (`geserver/localstorage.js:13-27`) is called only from
  `reload()`, and nothing calls `reload()` at start, so the store starts
  empty (see Findings).

## Model

| member | source | states |
|---|---|---|
| `Text.Split` | geserver/itchwatcher.js:7-8 | `split(',')` yields at least one piece |
| `Text.SplitConsSeparator` | geserver/itchwatcher.js:8 | a separator at the front of the text cuts off an empty first piece |
| `Text.SplitConsOther` | geserver/itchwatcher.js:8 | any other character at the front joins the first piece |
| `Text.SplitAtSeparator` | geserver/itchwatcher.js:7-8 | splitting at a comma splits the two sides separately, the left side's pieces first |
| `Text.SplitAtSeparatorStep` | geserver/itchwatcher.js:7-8 | one more character in front of the left side keeps the two sides splitting separately |
| `Text.SplitJoin` | geserver/itchwatcher.js:7-8 | joining the pieces of a split with the separator gives back the text |
| `Text.SplitPiecesAreFree` | geserver/itchwatcher.js:7-8 | no piece of a split contains the separator |
| `Text.SplitWithoutSeparator` | geserver/itchwatcher.js:7-8 | a text without the separator splits into itself alone |
| `Text.ContainsChar` | geserver/itchwatcher.js:7-8 | a one-character separator occurs exactly where that character does |
| `Text.ReplaceAll` | geserver/itchwatcher.js:100-103 | replacing a pattern by itself leaves the text unchanged |
| `Text.TrimStart` | geserver/itchwatcher.js:9 | the result is a suffix of the text that does not start with white space, and everything removed in front is white space |
| `Text.TrimEnd` | geserver/itchwatcher.js:9 | the result is a prefix of the text that does not end with white space, and everything removed at the end is white space |
| `Text.Trim` | geserver/itchwatcher.js:9 | `trim()` leaves no white space at either end, and everything it removes before and after what it keeps is white space |
| `Text.TrimIsSlice` | geserver/itchwatcher.js:9 | what `trim()` leaves is the slice of the text that starts after its leading white space |
| `Text.TrimKeepsCharacters` | geserver/itchwatcher.js:9 | trimming adds no character |
| `Text.ReplaceAllIsSplitJoin` | geserver/itchwatcher.js:100-103 | a global literal replace is split on the pattern, joined with the replacement |
| `Text.ReplaceAllUntouched` | geserver/itchwatcher.js:100-103 | a text without the pattern's first character is left unchanged |
| `Text.ReplaceAllSkips` | geserver/itchwatcher.js:100-103 | a prefix without the pattern's first character is copied through unchanged |
| `Text.ReplaceAllAtPattern` | geserver/itchwatcher.js:100-103 | an occurrence at the front is replaced and the scan continues after it |
| `Records.FindVersion` | geserver/itchwatcher.js:67 | `find` by id succeeds exactly when the id is in the history, and returns a record of the history with that id |
| `Records.Truthy` | geserver/server.js:20-30 | JavaScript truthiness: `null` is falsy, and every map and list is truthy, even an empty one |
| `Records.EntryOf` | geserver/itchwatcher.js:60 | a known game's entry, or an entry with no version, no notes, no time and an empty history |
| `LocalStorage.Parse` | geserver/localstorage.js:16-17 | parsing succeeds exactly on serialised content, and inverts `Serialize` |
| `LocalStorage.ParseSerialize` | geserver/localstorage.js:17-31 | what `save` writes, `load` reads back |
| `LocalStorage.Initial` | geserver/localstorage.js:5 | at module start the map is empty whatever the file holds, and the file is untouched |
| `LocalStorage.Loaded` | geserver/localstorage.js:13-27 | `load()` by file state: a missing file gives `{}` and is written as `{}`; a blank or corrupt file gives `{}` and stays as it is; a parsable file gives its map |
| `LocalStorage.Set` | geserver/localstorage.js:37-40 | `setItem`: the key reads back the value, every other key is unchanged, and the file holds the whole new map |
| `LocalStorage.Remove` | geserver/localstorage.js:41-44 | `removeItem`: the key reads `null`, every other key is unchanged, and the file holds the whole new map |
| `LocalStorage.SetSurvivesReload` | geserver/localstorage.js:30-48 | `setItem(k, v)` then `reload()` leaves the state as it was, and `getItem(k)` yields `v` |
| `LocalStorage.RemoveSurvivesReload` | geserver/localstorage.js:41-48 | a removed key stays removed across a reload |
| `LocalStorage.Store.constructor` | geserver/localstorage.js:5 | the store object starts in the `Initial` state |
| `LocalStorage.Store.GetItem` | geserver/localstorage.js:36 | `internal[key] ?? null` |
| `LocalStorage.Store.SetItem` | geserver/localstorage.js:37-40 | the new state is `Set` of the old one |
| `LocalStorage.Store.RemoveItem` | geserver/localstorage.js:41-44 | the new state is `Remove` of the old one |
| `LocalStorage.Store.Reload` | geserver/localstorage.js:45-48 | the new state is `Loaded` of the old file, and the returned map is the new map |
| `LocalStorage.Store.Save` | geserver/localstorage.js:30-32 | the file holds the serialised map |
| `Reconciler.InsertByTime` | geserver/itchwatcher.js:57 | inserting into a newest-first list keeps it newest first, one longer, with the inserted upload or the old head in front |
| `Reconciler.InsertByTimeAdds` | geserver/itchwatcher.js:57 | inserting adds exactly the inserted upload to the multiset of uploads |
| `Reconciler.SortNewestFirst` | geserver/itchwatcher.js:57 | the sort is a permutation, and its result is newest first |
| `Reconciler.SortIsStable` | geserver/itchwatcher.js:57 | uploads with equal times keep their fetched order |
| `Reconciler.SortKeepsIds` | geserver/itchwatcher.js:57 | sorting keeps the set of upload ids |
| `Reconciler.LatestCons` | geserver/itchwatcher.js:57-62 | the newest of a longer list is its first upload unless the rest holds a strictly newer one |
| `Reconciler.LatestSingle` | geserver/itchwatcher.js:57-62 | the newest of a one-upload list is that upload |
| `Reconciler.LatestIsNewest` | geserver/itchwatcher.js:57-62 | `uploads[0]` after the sort is a fetched upload, and none is newer |
| `Reconciler.NewestIndex` | geserver/itchwatcher.js:57-62 | the position of the first fetched upload that is strictly newer than every earlier one and at least as new as every later one |
| `Reconciler.LatestIsFirstNewest` | geserver/itchwatcher.js:57-62 | `uploads[0]` after the sort is the upload at `NewestIndex`: among equally new uploads, the first in fetched order |
| `Reconciler.PatchNote` | geserver/itchwatcher.js:73 | the patch note ends with the upload's `updated_at` text |
| `Reconciler.DownloadUrl` | geserver/itchwatcher.js:70 | `upload.url` when it is set, otherwise a non-empty page address ending with the upload's id |
| `Reconciler.NewRecord` | geserver/itchwatcher.js:71-78 | the record for an unseen upload carries its id, its patch note, the detection time, its `updated_at` text, its address and the upload itself |
| `Reconciler.Merge` | geserver/itchwatcher.js:66-80 | the merge never shortens the history and adds at most one record per fetched upload; which records it adds is `MergeShape` |
| `Reconciler.MergeShape` | geserver/itchwatcher.js:66-80 | the merge keeps the old history unchanged at the back and prepends one record per unseen id, the last one seen at index 0 |
| `Reconciler.MergeIds` | geserver/itchwatcher.js:66-80 | after the merge the ids are the old ids plus the fetched ones, and unique ids stay unique |
| `Reconciler.MergeKnown` | geserver/itchwatcher.js:66-80 | uploads whose ids are all known leave the history unchanged |
| `Reconciler.MergeUploads` | geserver/itchwatcher.js:66-80 | the merge loop computes `Merge` |
| `Reconciler.Reconcile` | geserver/itchwatcher.js:57-91 | the current version becomes the newest upload; a new version is signalled exactly when it changed; only then are the patch note and time updated; the history is the merge of the sorted uploads |
| `Reconciler.ReconcileKeepsHistory` | geserver/itchwatcher.js:59-91 | a poll never loses history: the old history is a suffix of the new one, the ids are the union, and they stay unique |
| `Reconciler.ReconcileAdvancesVersion` | geserver/itchwatcher.js:62-91 | the current version moves to the newest upload; a new version is signalled exactly when the current version changes; only then do `patchNotes` and `lastUpdated` change |
| `Reconciler.ReconcileKeepsEntryValid` | geserver/itchwatcher.js:59-91 | after a poll the entry has unique ids and its current version names a recorded id |
| `Reconciler.ReconcileIdempotent` | geserver/itchwatcher.js:59-91 | polling the same list again changes nothing and signals no new version |
| `Reconciler.ReconcileBurstExample` | geserver/itchwatcher.js:57-91 | with two new uploads, the current version moves to the newer, both are recorded, and the older is in front |
| `Reconciler.ChooseTemplate` | geserver/itchwatcher.js:98-99 | the template is the game's truthy override, else the truthy global one, else the built-in default; it is never empty |
| `Reconciler.OtherOverrideIrrelevant` | geserver/itchwatcher.js:99 | another game's override never changes the template a game gets |
| `Reconciler.Render` | geserver/itchwatcher.js:100-103 | a template without placeholders is the announcement text unchanged |
| `Reconciler.RenderExample` | geserver/itchwatcher.js:100-103 | a template with `{gameId}` and `{version}` renders with both substituted |
| `Reconciler.AutoAnnouncement` | geserver/itchwatcher.js:106-113 | the automatic announcement has the given id, content and date, no edit stamp, kind `game-specific`, the game's id, and a title ending with the upload's id |
| `ItchWatcher.RawGameIds` | geserver/itchwatcher.js:7 | `GAME_IDS`, else `GAME_ID`, else `""`, each only when set and non-empty |
| `ItchWatcher.KeepNonBlank` | geserver/itchwatcher.js:9-10 | the kept ids are exactly the non-empty trimmed pieces, each non-empty and trimmed, and no more than the pieces |
| `ItchWatcher.KeepNonBlankSingle` | geserver/itchwatcher.js:9-10 | one piece yields its trimmed text, or nothing when that text is empty |
| `ItchWatcher.KeepNonBlankAppend` | geserver/itchwatcher.js:9-10 | the ids of two runs of pieces are the first run's ids followed by the second's, so order is kept |
| `ItchWatcher.Trims` | geserver/itchwatcher.js:9 | `map(s => s.trim())`: one trimmed text per piece, at the same position |
| `ItchWatcher.TrimsAppend` | geserver/itchwatcher.js:9 | trimming two runs of pieces is trimming each run, in order |
| `ItchWatcher.NonBlank` | geserver/itchwatcher.js:10 | `filter(s => s)`: a text is kept exactly when it is one of the inputs and non-empty |
| `ItchWatcher.NonBlankAppend` | geserver/itchwatcher.js:10 | filtering two runs of texts is filtering each run, in order |
| `ItchWatcher.KeepNonBlankAvoids` | geserver/itchwatcher.js:9-10 | a character that no piece holds is in no id |
| `ItchWatcher.ParseGameIds` | geserver/itchwatcher.js:7-10 | every id is non-empty, contains no comma and has no surrounding white space; the ids are exactly the non-empty trimmed pieces of `GAME_IDS` (or its default) split at commas |
| `ItchWatcher.ParseGameIdsInOrder` | geserver/itchwatcher.js:7-10 | the ids listed before a comma come first, then those listed after it |
| `ItchWatcher.SingleGameId` | geserver/itchwatcher.js:7-10 | one id, with or without blanks around it, is the whole game list |
| `ItchWatcher.NoGameIds` | geserver/itchwatcher.js:7-10 | with neither variable set the game list is empty |
| `ItchWatcher.PollIntervalMs` | geserver/itchwatcher.js:12 | the interval is the setting when it is set and non-zero, else ten minutes; it is never zero |
| `ItchWatcher.StoredTemplates` | geserver/itchwatcher.js:98 | the stored templates, or the empty configuration when they are missing |
| `ItchWatcher.AnnouncementText` | geserver/itchwatcher.js:98-103 | a chosen template without placeholders is the announcement text unchanged |
| `ItchWatcher.Announce` | geserver/itchwatcher.js:105-122 | the announcement goes in front of the stored list (or of `[]`); a stored value that is not a list makes `unshift` throw, and the error is swallowed with nothing written; no other key changes |
| `ItchWatcher.PollEffect` | geserver/itchwatcher.js:47-132 | a failed request and an empty list change nothing; a save happens exactly when the poll lists uploads and does not fail; an announcement only after that save; only `games` and `announcements` change |
| `ItchWatcher.PollSavesReconciledEntry` | geserver/itchwatcher.js:59-93 | the saved entry is the reconciled one; other games keep their entries; an announcement is made exactly when the current version moved and the stored announcements are a list or missing |
| `ItchWatcher.PollAnnouncesNewVersion` | geserver/itchwatcher.js:83-115 | when a poll announces, the current version moved to the newest upload, and the announcement for that upload is in front of the earlier ones |
| `ItchWatcher.PollIdempotent` | geserver/itchwatcher.js:47-123 | polling the same list a second time writes the same map back and announces nothing |
| `ItchWatcher.RepollUnchanged` | geserver/itchwatcher.js:59-96 | a poll whose reconciliation changes nothing writes back the map it read, and announces nothing |
| `ItchWatcher.NoAnnouncementWhenCurrent` | geserver/itchwatcher.js:83-96 | a game already pointing at the newest upload gets no announcement |
| `ItchWatcher.AnnouncedIn` | geserver/itchwatcher.js:38-117 | a cycle creates at most one announcement per configured game |
| `ItchWatcher.RunCycle` | geserver/itchwatcher.js:38-133 | a cycle adds no key but `games` and `announcements` to the store |
| `ItchWatcher.CycleTouchesOnlyItsKeys` | geserver/itchwatcher.js:34-134 | a whole cycle writes no key except `games` and `announcements` |
| `ItchWatcher.FailedCycleChangesNothing` | geserver/itchwatcher.js:125-132 | a cycle in which every request fails leaves the store as it was and announces nothing |
| `ItchWatcher.NextStatus` | geserver/itchwatcher.js:39-128 | a game's status after a poll: its check time is set; its last success is set exactly when the request returned; a failure is recorded with its time and message, and the error is kept otherwise; the update count grows by one exactly when the poll announced |
| `ItchWatcher.CycleStatusCounts` | geserver/itchwatcher.js:36-128 | the loop over the games leaves `lastCheck` and `checksCount` alone and adds to `updatesFound` exactly the announcements the cycle created |
| `ItchWatcher.CycleStatusCoversGames` | geserver/itchwatcher.js:37-44 | no game loses its status, and after the loop every configured game has one with a check time |
| `ItchWatcher.CycleStatusErrors` | geserver/itchwatcher.js:125-128 | a recorded error is never cleared, and `lastError` stays empty only when no request of the cycle failed |
| `ItchWatcher.CycleStatusSuccess` | geserver/itchwatcher.js:50-51 | `lastSuccess` is kept when every request failed, and is the last poll's instant when that request answered |
| `ItchWatcher.CheckStatusFacts` | geserver/itchwatcher.js:34-128 | one `checkItchUpdates()` stamps and counts the cycle once, counts each announcement created, loses no game's status, gives every configured game a check time, and records a failed request |
| `ItchWatcher.StartStatusCounts` | geserver/itchwatcher.js:144-152 | after the cycles `checksCount` has grown by their number, `updatesFound` has not shrunk, `lastCheck` is the last cycle's start, and every configured game has a status with a check time |
| `ItchWatcher.Watcher.constructor` | geserver/itchwatcher.js:7-23 | the game list and interval come from the environment, and every status field starts empty |
| `ItchWatcher.Watcher.PostAnnouncement` | geserver/itchwatcher.js:105-115 | the store changes as `Announce` says |
| `ItchWatcher.Watcher.ApplyPoll` | geserver/itchwatcher.js:54-123 | the store, the error and the announcement flag are those `PollEffect` gives |
| `ItchWatcher.Watcher.Poll` | geserver/itchwatcher.js:47-123 | the store, the error and the announcement flag are those `PollEffect` gives: a failed request is the error, an empty list changes nothing |
| `ItchWatcher.Watcher.CheckGame` | geserver/itchwatcher.js:39-132 | the store changes as `PollEffect` says; the file is rewritten only when the poll saves, and then holds the new map; `updatesFound`, `lastError`, `lastSuccess` and the game's status follow the poll's effect |
| `ItchWatcher.Watcher.CheckUpdates` | geserver/itchwatcher.js:34-134 | the whole new `watcherStatus` is `CheckStatus` of the old one: stamped, counted, then one `NextStatus` step per configured game; the store is the fold of the polls, and the file either holds the new map or nothing changed; the announcements created are counted once each; every configured game has a status with a check time; a failed request leaves an error recorded |
| `ItchWatcher.Watcher.Start` | geserver/itchwatcher.js:144-152 | with no game configured nothing happens; otherwise the whole new `watcherStatus` is `StartStatus`, the fold of `checkItchUpdates` over the cycles, every cycle is counted, and the store is the fold of the cycles; the file either holds the final map or nothing changed |
| `ItchWatcher.Watcher.Status` | geserver/itchwatcher.js:136-142 | the status carries the counters, the game list, and the interval in minutes |
| `Server.SetIfFalsy` | geserver/server.js:20-22 | a truthy key leaves the store as it is; a falsy one receives the default and the file is written |
| `Server.SetIfFalsyFills` | geserver/server.js:20-22 | with a truthy default the key ends truthy, truthy keys and other keys keep their values, and a synced store stays synced |
| `Server.WithDefaults` | geserver/server.js:20-35 | after the startup block the map holds the four server keys besides the keys it held |
| `Server.WithDefaultsFills` | geserver/server.js:20-35 | after the startup block every server key is truthy; keys that held a truthy value keep it; other keys are untouched; with nothing missing nothing changes |
| `Server.WithDefaultsIdempotent` | geserver/server.js:20-35 | running the startup block twice is running it once |
| `Server.InitDefaults` | geserver/server.js:20-35 | the startup block on the store computes `WithDefaults` |
| `Server.StartupAsWritten` | geserver/server.js:20-35 | as written, whatever the file held, the store ends with exactly the four defaults and no other key, and the file is overwritten with them |
| `Server.StartupAsWrittenDiscardsSavedData` | geserver/server.js:20-25 | as written, a restart replaces the saved announcements in the file by an empty list |
| `Server.StartupKeepsSavedData` | geserver/server.js:20-35 | with the file loaded first, every truthy saved value survives a restart, and the file holds the started map |
| `Server.RestartIsStable` | geserver/server.js:20-35 | with the file loaded first, starting a started server changes nothing |
| `Server.Boot` | geserver/server.js:5-35 | module loading with the load, then the startup block, gives `Startup` |
| `Server.Includes` | geserver/server.js:45 | `includes` exists on token lists, texts and announcement lists: list membership, substring search, and never for a token in a list of announcements |
| `Server.Authorize` | geserver/server.js:38-50 | no token gives 401; with a token list, a token passes exactly when it is in the list and is refused with 403 otherwise; a value without `includes` gives 500 |
| `Server.Login` | geserver/server.js:167-176 | a token is accepted exactly when the admin list includes it, and refused with 401 otherwise |
| `Server.IndexOf` | geserver/server.js:189 | `indexOf` is -1 exactly when the token is absent, and otherwise the first position holding it |
| `Server.RemoveAt` | geserver/server.js:191 | `splice(i, 1)` removes the element at `i` and keeps the others in order |
| `Server.AddAdmin` | geserver/server.js:183-187 | after `add` the token is in the list; a token already present changes nothing |
| `Server.RemoveAdmin` | geserver/server.js:188-193 | `remove` deletes the first occurrence of the token and keeps the rest in order (one occurrence fewer in the multiset); an absent token changes nothing |
| `Server.RemoveAdminFirst` | geserver/server.js:189-191 | with no earlier occurrence, the tokens before the removed one and those after it are kept, in order |
| `Server.RemoveAdminRepeated` | geserver/server.js:189-191 | removing `a` from `a, b, a` leaves `b, a`: only the first occurrence goes |
| `Server.AddAdminKeepsNoDuplicates` | geserver/server.js:183-187 | `add` never creates a duplicate, and adding twice is adding once |
| `Server.RemoveAdminRemovesToken` | geserver/server.js:188-193 | in a list without repetitions, a removed token is gone, and `remove` undoes a fresh `add` |
| `Server.AddedAdminPasses` | geserver/server.js:183-187 | a token just added passes the admin check (`isAdmin`) |
| `Server.RemovedAdminRefused` | geserver/server.js:188-193 | a token just removed from a list without repetitions is refused by `isAdmin` with 403 |
| `Server.ManageAdmins` | geserver/server.js:179-197 | any action but `add` and `remove` answers 200 and changes nothing, whatever is stored; `add` of a new token and `remove` of a present one save the changed list; a stored value without `includes`, or a text that `push` or `splice` would be called on, gives 500 with no change |
| `Server.Upsert` | geserver/server.js:62-71 | the webhook overwrites version, patch notes and time, and prepends a record only for an id not yet in the history |
| `Server.UpsertKeepsEntryValid` | geserver/server.js:62-71 | the upsert keeps the entry valid, and adds exactly the reported id to its ids |
| `Server.UpsertIdempotent` | geserver/server.js:62-71 | reporting the same version again changes only `lastUpdated` |
| `Server.Webhook` | geserver/server.js:55-75 | the upserted entry is saved under `games`; a missing or wrongly shaped games value gives 500 |
| `Server.GetVersion` | geserver/server.js:77-91 | a known game yields its current-version fields; a `null` games value throws (500); any other value without the game gives 404 |
| `Server.GetVersions` | geserver/server.js:94-106 | a known game yields its history; a `null` games value throws (500); an unknown game, or a games value that is not a map, yields an empty history |
| `Server.WebhookThenRead` | geserver/server.js:55-106 | after the webhook, the version query returns what was reported, and the history contains it |
| `Server.IndexOfId` | geserver/server.js:133 | `findIndex` is -1 exactly when no announcement has the id, and otherwise the first position with it |
| `Server.CreateAnnouncement` | geserver/server.js:109-126 | the new announcement, with the given fields and no edit stamp, is put in front of the stored list and returned; a stored value that is not a list gives 500 with no change |
| `Server.Edited` | geserver/server.js:135-137 | an edit replaces title and content only by truthy values, always stamps `editedAt`, and keeps the id, kind, game and date |
| `Server.EditedIdempotent` | geserver/server.js:135-137 | repeating an edit only moves the stamp; an edit without fields only stamps |
| `Server.EditFirst` | geserver/server.js:133-137 | an edit fails exactly when no announcement has the id |
| `Server.EditFirstTouchesOnlyMatch` | geserver/server.js:133-137 | only the first announcement with the id changes, and the others keep their place |
| `Server.EditAnnouncement` | geserver/server.js:129-140 | an unknown id gives 404 with no change; otherwise the edited list is saved and the edited announcement returned |
| `Server.DeleteFirst` | geserver/server.js:146-148 | deletion fails exactly when no announcement has the id; otherwise the removed announcement has the id and the multiset is preserved |
| `Server.DeleteFirstRemovesFirstMatch` | geserver/server.js:146-148 | exactly the first match is removed, and the others keep their order |
| `Server.DeleteAnnouncement` | geserver/server.js:143-151 | an unknown id gives 404 with no change; otherwise the shortened list is saved and the removed announcement returned |
| `Server.Keep` | geserver/server.js:158-160 | `filter` never lengthens the list |
| `Server.KeepMembers` | geserver/server.js:158-160 | `filter` keeps exactly the announcements the selection accepts |
| `Server.KeepAppend` | geserver/server.js:158-160 | filtering distributes over concatenation, so it keeps the list's order |
| `Server.FilterAnnouncements` | geserver/server.js:157-161 | `type=game-specific` with a `gameId` keeps that game's game-specific entries; `type=global` keeps the global ones; anything else keeps the whole list |
| `Server.ListAnnouncements` | geserver/server.js:153-164 | without a filter the stored value is sent as it is; a filter on a value that is not a list gives 500 |
| `Server.AutoAnnouncementIsListed` | geserver/server.js:157-161 | an announcement the watcher creates is listed under its game's filter and not under the global one |
| `Server.SetTemplate` | geserver/server.js:209-215 | the update succeeds exactly for `scope=global`, or for `scope=perGame` with a game id; it sets that template |
| `Server.PerGameTemplateTakesEffect` | geserver/server.js:211-212 | a non-empty per-game template is the one the watcher then uses for that game, and other games keep theirs |
| `Server.GlobalTemplateTakesEffect` | geserver/server.js:209-210 | a non-empty global template is used for every game without an override of its own |
| `Server.UpdateTemplate` | geserver/server.js:205-218 | an invalid payload gives 400 with no change, whatever is stored; a valid one on a stored value of another shape gives 500; otherwise the updated templates are saved, starting from the empty configuration when none is stored |

## Left out

- File-system and network I/O: `fs`, the itch.io request (`axios.get`) and the Discord notification (`notifyDiscord`) are not modelled. Responses are inputs, and the notification has no effect on the modelled state.
- Express routing, `cors`, body parsing, response bodies and `app.listen`. Each handler returns its status and the value it sends.
- The `GET /templates`, `GET /` and `GET /status` routes. They only wrap `getItem` and `getWatcherStatus` (`ItchWatcher.Watcher.Status`) in a response.
- The store module's `_raw` debug accessor.
- JSON text: `Serialize`/`Parse` are abstract, and `JSON.stringify` formatting is not modelled. A value that does not survive JSON, such as an array carrying extra properties, is not modelled.
- `geserver/server.js:16-17`, which create the file relative to the working directory rather than the module's directory, are not modelled. The file is a single `Disk`.
- Concurrency: `setInterval` can start a cycle while the previous one is still awaiting, and requests can interleave with polls. Cycles are modelled as running one after the other.
- Clock reads within one poll all give the same instant, `now`.
- Date parsing: each upload carries its `updated_at` text and the instant it denotes.
- Ids: itch.io upload ids are numbers and webhook versions are strings, and `===` never equates the two. All ids are strings here.
- Wrong shapes: a stored value of another shape than the code writes is treated as a failure wherever the code dereferences it.
  - In JavaScript some such values would instead read as `undefined` or be written back silently. A property read on a boolean, a number or a text, falsy or not, gives `undefined`, and an assignment to a property of one is silently dropped. So, for instance, `POST /admin/templates` with `scope: "global"` on a stored text saves the text back and answers 200, and `POST /webhook/itch-io/:gameId` on a stored list sets a property that `JSON.stringify` then drops. Both answer 500 here.
  - The exceptions: `includes` and `indexOf` on a text are modelled as substring search, and `POST /admin/users` touches the stored value only for `add` and `remove`, as the code does.
- The `replace` special patterns (`$&`, `$1`, ...) in replacement texts are not modelled. The replacement is inserted literally.
- `Number(POLL_INTERVAL_MS)` for a non-numeric text (`NaN`) and fractional intervals are not modelled. The setting is an optional integer.
- ItchWatcher.PollEffect: reads the templates from the map before the games entry is saved, whereas the source reads them after. The save only writes the `games` key, so the value read is the same, and `Watcher.ApplyPoll` reads them after the save as the source does.
- ItchWatcher.AnnouncementText: uses the patch note computed from the newest upload, which is exactly the value the source has just stored in `games[GAME_ID].patchNotes`.
- Records.EntryOf, LocalStorage.Get, Server.Webhook, Server.GetVersion, Server.GetVersions, Reconciler.ChooseTemplate: the store's maps are Dafny maps, whereas the source's are plain JavaScript objects, whose lookups also see the keys inherited from `Object.prototype` (`geserver/server.js:62`, `:80`, `:98`, `geserver/itchwatcher.js:60`, `:99`, `geserver/localstorage.js:36`). So `GET /games/constructor/version` answers 200 with empty fields in the source and 404 here. The unauthenticated `POST /webhook/itch-io/__proto__` writes its fields onto `Object.prototype`, which every object of the process then inherits, and saves no entry; here it saves a `games["__proto__"]` entry. Keys are assumed to be names no object inherits. Likewise, a stored list or text also answers to index names (`"0"`, `"1"`, …) and `length`. `GetVersion` and `GetVersions` treat every value that is not a games map as having no game.
- Server.ManageAdmins: `add` of a token to a list of announcements stored under `admins` answers 500 here, whereas JavaScript would push the token onto that list. Such a value never passes `isAdmin` (`Server.Authorize` answers 403 for it), so the handler is not reached with it.
- Server.Webhook: `version` and `patchNotes` are strings. A request without them (which stores `undefined`) is not modelled.

## Findings

| source | as written | input that shows it | evidently intended | confidence | as-written member | corrected member |
|---|---|---|---|---|---|---|
| geserver/localstorage.js:5-27 | `load()` is never called when the module starts, so the store begins empty; every `getItem` in the startup block of `geserver/server.js` (lines 20-35) then returns `null`, and the block writes its four defaults over the saved file | a file holding a non-empty announcement list; after a restart the file holds `announcements: []` | read the file at start, then fill in only the keys that are missing, so saved data survives a restart (`Server.Startup`, `Server.RestartIsStable`, `Server.Boot`) | high; not executed | `Server.StartupAsWrittenDiscardsSavedData` | `Server.StartupKeepsSavedData` |
