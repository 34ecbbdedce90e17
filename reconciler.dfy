/**
 * The upload reconciler of the itch.io watcher: sort the fetched uploads
 * newest first, add every upload whose id is not yet in the game's history,
 * and move the game's current version to the newest upload. Also the
 * announcement generator: template choice and placeholder substitution.
 */
module Reconciler {
  import opened Common
  import opened Text
  import opened Records

  /** Uploads ordered by non-increasing update time. */
  predicate NewestFirst(us: seq<Upload>)
  {
    forall i, j :: 0 <= i < j < |us| ==> us[i].time >= us[j].time
  }

  /** An upload at least as new as the head of a newest-first list can go in front of it. */
  lemma NewestFirstCons(y: Upload, us: seq<Upload>)
    requires NewestFirst(us) && (us == [] || us[0].time <= y.time)
    ensures NewestFirst([y] + us)
  {
    var r := [y] + us;
    forall i, j | 0 <= i < j < |r| ensures r[i].time >= r[j].time {
      if i == 0 {
        assert r[j] == us[j - 1];
        assert us[0].time >= us[j - 1].time;
      } else {
        assert r[i] == us[i - 1] && r[j] == us[j - 1];
      }
    }
  }

  /** Places `x` before the first upload that is not newer than it. */
  function InsertByTime(x: Upload, us: seq<Upload>): (r: seq<Upload>)
    requires NewestFirst(us)
    ensures |r| == |us| + 1
    ensures NewestFirst(r)
    ensures r[0] == x || (us != [] && r[0] == us[0])
  {
    if us == [] || us[0].time <= x.time then
      NewestFirstCons(x, us);
      [x] + us
    else
      var rest := InsertByTime(x, us[1..]);
      NewestFirstCons(us[0], rest);
      [us[0]] + rest
  }

  /** Inserting adds exactly the inserted upload. */
  lemma {:induction false} InsertByTimeAdds(x: Upload, us: seq<Upload>)
    requires NewestFirst(us)
    ensures multiset(InsertByTime(x, us)) == multiset(us) + multiset{x}
  {
    if us != [] && us[0].time > x.time {
      InsertByTimeAdds(x, us[1..]);
      assert us == [us[0]] + us[1..];
    }
  }

  /**
   * `uploads.sort((a, b) => new Date(b.updated_at) - new Date(a.updated_at))`:
   * a stable sort, newest first.
   */
  function SortNewestFirst(us: seq<Upload>): (r: seq<Upload>)
    ensures |r| == |us|
    ensures multiset(r) == multiset(us)
    ensures NewestFirst(r)
  {
    if us == [] then []
    else
      assert us == [us[0]] + us[1..];
      InsertByTimeAdds(us[0], SortNewestFirst(us[1..]));
      InsertByTime(us[0], SortNewestFirst(us[1..]))
  }

  /** `uploads[0]` after the sort: the upload the current version moves to. */
  function Latest(us: seq<Upload>): Upload
    requires us != []
  {
    SortNewestFirst(us)[0]
  }

  /** The latest of a longer list: the first upload unless the rest holds a strictly newer one. */
  lemma LatestCons(x: Upload, rest: seq<Upload>)
    requires rest != []
    ensures Latest([x] + rest) == if Latest(rest).time <= x.time then x else Latest(rest)
  {
    assert ([x] + rest)[1..] == rest;
  }

  /** The latest of a one-element list is its element. */
  lemma LatestSingle(x: Upload)
    ensures Latest([x]) == x
  {
    assert SortNewestFirst([x]) == [x];
  }

  /** The latest upload is one of the fetched uploads, and none is newer. */
  lemma {:induction false} LatestIsNewest(us: seq<Upload>)
    requires us != []
    ensures Latest(us) in us
    ensures forall u :: u in us ==> u.time <= Latest(us).time
  {
    var x := us[0];
    var rest := us[1..];
    assert us == [x] + rest;
    if rest == [] {
      LatestSingle(x);
    } else {
      LatestIsNewest(rest);
      LatestCons(x, rest);
    }
  }

  /** The position of the first upload, in fetched order, that no later upload is newer than. */
  function NewestIndex(us: seq<Upload>): (k: nat)
    requires us != []
    ensures k < |us|
    ensures forall j :: 0 <= j < k ==> us[j].time < us[k].time
    ensures forall j :: k < j < |us| ==> us[j].time <= us[k].time
  {
    if |us| == 1 then 0
    else
      var k := NewestIndex(us[1..]);
      assert forall j :: 1 <= j < |us| ==> us[j] == us[1..][j - 1];
      if us[1..][k].time <= us[0].time then 0 else k + 1
  }

  /** Among the newest uploads, the latest is the first in the fetched order. */
  lemma {:induction false} LatestIsFirstNewest(us: seq<Upload>)
    requires us != []
    ensures Latest(us) == us[NewestIndex(us)]
  {
    var x := us[0];
    var rest := us[1..];
    assert us == [x] + rest;
    if rest == [] {
      LatestSingle(x);
    } else {
      LatestIsFirstNewest(rest);
      LatestCons(x, rest);
    }
  }

  /** The uploads with update time `t`, in their order. */
  function AtTime(us: seq<Upload>, t: Time): seq<Upload>
  {
    if us == [] then [] else (if us[0].time == t then [us[0]] else []) + AtTime(us[1..], t)
  }

  lemma AtTimeCons(x: Upload, us: seq<Upload>, t: Time)
    ensures AtTime([x] + us, t) == (if x.time == t then [x] else []) + AtTime(us, t)
  {
    assert ([x] + us)[1..] == us;
  }

  lemma {:induction false} InsertKeepsTies(x: Upload, us: seq<Upload>, t: Time)
    requires NewestFirst(us)
    ensures AtTime(InsertByTime(x, us), t) == (if x.time == t then [x] else []) + AtTime(us, t)
  {
    if us == [] || us[0].time <= x.time {
      AtTimeCons(x, us, t);
    } else {
      InsertKeepsTies(x, us[1..], t);
      AtTimeCons(us[0], InsertByTime(x, us[1..]), t);
      AtTimeCons(us[0], us[1..], t);
      assert us == [us[0]] + us[1..];
    }
  }

  /** The sort is stable: uploads with equal times keep their fetched order. */
  lemma {:induction false} SortIsStable(us: seq<Upload>, t: Time)
    ensures AtTime(SortNewestFirst(us), t) == AtTime(us, t)
  {
    if us != [] {
      SortIsStable(us[1..], t);
      InsertKeepsTies(us[0], SortNewestFirst(us[1..]), t);
      AtTimeCons(us[0], us[1..], t);
      assert us == [us[0]] + us[1..];
    }
  }

  /** Sorting keeps the set of upload ids. */
  lemma SortKeepsIds(us: seq<Upload>)
    ensures UploadIds(SortNewestFirst(us)) == UploadIds(us)
  {
    var s := SortNewestFirst(us);
    assert forall u :: u in s <==> u in multiset(s);
    assert forall u :: u in us <==> u in multiset(us);
  }

  /** The patch-notes text recorded for an upload. */
  function PatchNote(u: Upload): (note: string)
    ensures |note| > |u.updatedAt| && note[|note| - |u.updatedAt|..] == u.updatedAt
  {
    "New build uploaded at " + u.updatedAt
  }

  /** `upload.url`, or the page built from the game and upload ids when it is empty. */
  function DownloadUrl(gameId: string, u: Upload): (url: string)
    ensures url != ""
    ensures u.url != "" ==> url == u.url
    ensures u.url == "" ==> |url| > |u.id| && url[|url| - |u.id|..] == u.id
  {
    if u.url != "" then u.url else "https://itch.io/my-game/" + gameId + "/uploads/" + u.id
  }

  /** The record the watcher creates for an upload it has not seen before. */
  function NewRecord(gameId: string, u: Upload, now: Time): (r: VersionRecord)
    ensures r.id == u.id && r.detectedAt == now && r.patchNotes == PatchNote(u)
    ensures r.origin == Polled(u.updatedAt, DownloadUrl(gameId, u), u)
  {
    VersionRecord(u.id, PatchNote(u), now, Polled(u.updatedAt, DownloadUrl(gameId, u), u))
  }

  /**
   * The merge loop: for each upload in order, prepend a new record unless a
   * record with its id is already in the history built so far.
   */
  function Merge(history: seq<VersionRecord>, us: seq<Upload>, gameId: string, now: Time): (r: seq<VersionRecord>)
    ensures |history| <= |r| <= |history| + |us|
    decreases |us|
  {
    if us == [] then history
    else
      var u := us[0];
      var next := if FindVersion(history, u.id).Some? then history else [NewRecord(gameId, u, now)] + history;
      Merge(next, us[1..], gameId, now)
  }

  /** The uploads whose ids are neither in `seen` nor taken by an earlier upload of the list. */
  function Unseen(seen: set<string>, us: seq<Upload>): seq<Upload>
    decreases |us|
  {
    if us == [] then []
    else if us[0].id in seen then Unseen(seen, us[1..])
    else [us[0]] + Unseen(seen + {us[0].id}, us[1..])
  }

  /** The records of `us`, the last upload's first: what prepending them one at a time yields. */
  function Prepended(gameId: string, us: seq<Upload>, now: Time): seq<VersionRecord>
  {
    if us == [] then [] else Prepended(gameId, us[1..], now) + [NewRecord(gameId, us[0], now)]
  }

  /**
   * The merge leaves the old history untouched at the back and puts in front
   * of it one record per unseen id, the last one seen at index 0.
   */
  lemma {:induction false} MergeShape(h: seq<VersionRecord>, us: seq<Upload>, gameId: string, now: Time)
    ensures Merge(h, us, gameId, now) == Prepended(gameId, Unseen(Ids(h), us), now) + h
    decreases |us|
  {
    if us != [] {
      var u := us[0];
      if u.id in Ids(h) {
        MergeShape(h, us[1..], gameId, now);
      } else {
        var r := NewRecord(gameId, u, now);
        IdsCons(r, h);
        MergeShape([r] + h, us[1..], gameId, now);
        var f := Unseen(Ids(h) + {u.id}, us[1..]);
        assert ([u] + f)[1..] == f;
        assert Ids([r] + h) == Ids(h) + {u.id};
      }
    }
  }

  /** The merged history holds exactly the old ids and the uploads' ids, each once if it did before. */
  lemma {:induction false} MergeIds(h: seq<VersionRecord>, us: seq<Upload>, gameId: string, now: Time)
    ensures Ids(Merge(h, us, gameId, now)) == Ids(h) + UploadIds(us)
    ensures UniqueIds(h) ==> UniqueIds(Merge(h, us, gameId, now))
    decreases |us|
  {
    if us != [] {
      var u := us[0];
      assert UploadIds(us) == {u.id} + UploadIds(us[1..]) by {
        assert forall v :: v in us <==> v == u || v in us[1..];
      }
      if u.id in Ids(h) {
        MergeIds(h, us[1..], gameId, now);
      } else {
        var r := NewRecord(gameId, u, now);
        IdsCons(r, h);
        if UniqueIds(h) {
          UniqueCons(r, h);
        }
        MergeIds([r] + h, us[1..], gameId, now);
      }
    }
  }

  /** Uploads whose ids are all recorded already add nothing. */
  lemma {:induction false} MergeKnown(h: seq<VersionRecord>, us: seq<Upload>, gameId: string, now: Time)
    requires UploadIds(us) <= Ids(h)
    ensures Merge(h, us, gameId, now) == h
    decreases |us|
  {
    if us != [] {
      assert us[0] in us;
      assert UploadIds(us[1..]) <= UploadIds(us) by {
        assert forall v :: v in us[1..] ==> v in us;
      }
      MergeKnown(h, us[1..], gameId, now);
    }
  }

  /**
   * The loop of the source, `for (const upload of uploads)` with `find` and
   * `unshift`, over a local copy of the history.
   */
  method MergeUploads(history: seq<VersionRecord>, sorted: seq<Upload>, gameId: string, now: Time)
    returns (versions: seq<VersionRecord>)
    ensures versions == Merge(history, sorted, gameId, now)
  {
    versions := history;
    var i := 0;
    while i < |sorted|
      invariant 0 <= i <= |sorted|
      invariant Merge(versions, sorted[i..], gameId, now) == Merge(history, sorted, gameId, now)
    {
      var upload := sorted[i];
      assert sorted[i..][1..] == sorted[i + 1..];
      var found := FindVersion(versions, upload.id);
      if found.None? {
        versions := [NewRecord(gameId, upload, now)] + versions;
      }
      i := i + 1;
    }
  }

  /** The game entry after a poll that returned a non-empty list, and whether the current version moved. */
  datatype Outcome = Outcome(entry: GameEntry, newVersionDetected: bool)

  /** Sort, merge, and move the current version to the newest upload when it differs from the stored one. */
  function Reconcile(entry: GameEntry, uploads: seq<Upload>, gameId: string, now: Time): (o: Outcome)
    requires uploads != []
    ensures o.entry.version == Some(SortNewestFirst(uploads)[0].id)
    ensures o.newVersionDetected <==> entry.version != o.entry.version
    ensures o.newVersionDetected ==> o.entry.patchNotes == Some(PatchNote(SortNewestFirst(uploads)[0])) && o.entry.lastUpdated == Some(now)
    ensures !o.newVersionDetected ==> o.entry.patchNotes == entry.patchNotes && o.entry.lastUpdated == entry.lastUpdated
    ensures o.entry.versions == Merge(entry.versions, SortNewestFirst(uploads), gameId, now)
  {
    var sorted := SortNewestFirst(uploads);
    var latest := sorted[0];
    var versions := Merge(entry.versions, sorted, gameId, now);
    if entry.version != Some(latest.id) then
      Outcome(GameEntry(Some(latest.id), Some(PatchNote(latest)), Some(now), versions), true)
    else
      Outcome(entry.(versions := versions), false)
  }

  /**
   * History only grows: the old history survives unchanged at the back, the
   * ids are the old ones plus the fetched ones, and ids stay unique.
   */
  lemma ReconcileKeepsHistory(entry: GameEntry, uploads: seq<Upload>, gameId: string, now: Time)
    requires uploads != []
    ensures var vs := Reconcile(entry, uploads, gameId, now).entry.versions;
      |entry.versions| <= |vs| && vs[|vs| - |entry.versions|..] == entry.versions
    ensures Ids(Reconcile(entry, uploads, gameId, now).entry.versions) == Ids(entry.versions) + UploadIds(uploads)
    ensures UniqueIds(entry.versions) ==> UniqueIds(Reconcile(entry, uploads, gameId, now).entry.versions)
  {
    var sorted := SortNewestFirst(uploads);
    MergeShape(entry.versions, sorted, gameId, now);
    MergeIds(entry.versions, sorted, gameId, now);
    SortKeepsIds(uploads);
  }

  /**
   * The current version ends at the newest fetched upload (the first fetched among
   * equally new ones); a new version is signalled exactly when the stored
   * version differed, null included; otherwise version, notes and time stay.
   */
  lemma ReconcileAdvancesVersion(entry: GameEntry, uploads: seq<Upload>, gameId: string, now: Time)
    requires uploads != []
    ensures var o := Reconcile(entry, uploads, gameId, now);
      exists k :: 0 <= k < |uploads| && o.entry.version == Some(uploads[k].id)
        && (forall u :: u in uploads ==> u.time <= uploads[k].time)
        && (forall j :: 0 <= j < k ==> uploads[j].time < uploads[k].time)
    ensures var o := Reconcile(entry, uploads, gameId, now);
      o.newVersionDetected <==> entry.version != o.entry.version
    ensures var o := Reconcile(entry, uploads, gameId, now);
      !o.newVersionDetected ==> o.entry.patchNotes == entry.patchNotes && o.entry.lastUpdated == entry.lastUpdated
    ensures var o := Reconcile(entry, uploads, gameId, now);
      o.newVersionDetected ==> o.entry.patchNotes == Some(PatchNote(Latest(uploads))) && o.entry.lastUpdated == Some(now)
  {
    LatestIsNewest(uploads);
    LatestIsFirstNewest(uploads);
    var k := NewestIndex(uploads);
    assert uploads[k] in uploads;
  }

  /** A poll leaves the entry valid: one record per id, and the current version names a recorded id. */
  lemma ReconcileKeepsEntryValid(entry: GameEntry, uploads: seq<Upload>, gameId: string, now: Time)
    requires uploads != []
    requires UniqueIds(entry.versions)
    ensures EntryValid(Reconcile(entry, uploads, gameId, now).entry)
  {
    ReconcileKeepsHistory(entry, uploads, gameId, now);
    LatestIsNewest(uploads);
    assert Latest(uploads).id in UploadIds(uploads);
  }

  /** Polling the same list again changes nothing and signals no new version. */
  lemma ReconcileIdempotent(entry: GameEntry, uploads: seq<Upload>, gameId: string, now: Time, later: Time)
    requires uploads != []
    ensures var e := Reconcile(entry, uploads, gameId, now).entry;
      Reconcile(e, uploads, gameId, later) == Outcome(e, false)
  {
    var e := Reconcile(entry, uploads, gameId, now).entry;
    ReconcileKeepsHistory(entry, uploads, gameId, now);
    var sorted := SortNewestFirst(uploads);
    SortKeepsIds(uploads);
    MergeKnown(e.versions, sorted, gameId, later);
  }

  /**
   * A burst of two uploads seen in one poll of a new game: the move of the current versions
   * to the newer one, both are recorded, and the older one ends in front.
   */
  lemma ReconcileBurstExample(a: Upload, b: Upload, gameId: string, now: Time)
    requires a.id == "a" && a.time == 1 && b.id == "b" && b.time == 2
    ensures var o := Reconcile(NewEntry, [a, b], gameId, now);
      o.newVersionDetected && o.entry.version == Some("b")
      && |o.entry.versions| == 2 && o.entry.versions[0].id == "a" && o.entry.versions[1].id == "b"
  {
    assert SortNewestFirst([b]) == [b];
    assert [a, b][1..] == [b];
    assert SortNewestFirst([a, b]) == [b, a];
    assert [b, a][1..] == [a];
    var rb := NewRecord(gameId, b, now);
    var ra := NewRecord(gameId, a, now);
    assert FindVersion([], "b") == None;
    assert [rb] == [rb] + [];
    assert Merge([], [b, a], gameId, now) == Merge([rb], [a], gameId, now);
    assert FindVersion([rb], "a") == None;
    assert Merge([rb], [a], gameId, now) == Merge([ra, rb], [], gameId, now);
  }

  /** The template chosen for a game: its truthy override, else the truthy global one, else the default. */
  function ChooseTemplate(t: TemplateConfig, gameId: string): (tpl: string)
    ensures tpl != ""
    ensures gameId in t.perGame && t.perGame[gameId] != "" ==> tpl == t.perGame[gameId]
    ensures (gameId !in t.perGame || t.perGame[gameId] == "") && t.global != "" ==> tpl == t.global
    ensures (gameId !in t.perGame || t.perGame[gameId] == "") && t.global == "" ==> tpl == DefaultTemplate
  {
    if gameId in t.perGame && t.perGame[gameId] != "" then t.perGame[gameId]
    else if t.global != "" then t.global
    else DefaultTemplate
  }

  /** Another game's override never changes the template a game gets. */
  lemma OtherOverrideIrrelevant(t: TemplateConfig, gameId: string, other: string, tpl: string)
    requires other != gameId
    ensures ChooseTemplate(t.(perGame := t.perGame[other := tpl]), gameId) == ChooseTemplate(t, gameId)
  {
  }

  /** The three chained global replacements of the placeholders, in the source's order. */
  function Render(tpl: string, gameId: string, version: string, patchNotes: string): (text: string)
    ensures '{' !in tpl ==> text == tpl
  {
    var g := "{gameId}";
    var v := "{version}";
    var p := "{patchNotes}";
    assert '{' !in tpl ==> ReplaceAll(ReplaceAll(ReplaceAll(tpl, g, gameId), v, version), p, patchNotes) == tpl by {
      if '{' !in tpl {
        assert g[0] == '{' && v[0] == '{' && p[0] == '{';
        ReplaceAllUntouched(tpl, g, gameId);
        ReplaceAllUntouched(tpl, v, version);
        ReplaceAllUntouched(tpl, p, patchNotes);
      }
    }
    ReplaceAll(ReplaceAll(ReplaceAll(tpl, g, gameId), v, version), p, patchNotes)
  }

  /** The worked example: every placeholder of the template is substituted and none is left. */
  lemma RenderExample(tpl: string, gameId: string, version: string, patchNotes: string)
    requires tpl == "Update {gameId} to {version}" && gameId == "g1" && version == "42"
    ensures Render(tpl, gameId, version, patchNotes) == "Update g1 to 42"
  {
    var step1 := "Update " + (gameId + (" to " + "{version}"));
    RenderExampleGameId(tpl, gameId);
    RenderExampleVersion(step1, version);
    ReplaceAllUntouched("Update g1 to 42", "{patchNotes}", patchNotes);
  }

  lemma RenderExampleGameId(tpl: string, gameId: string)
    requires tpl == "Update {gameId} to {version}"
    ensures ReplaceAll(tpl, "{gameId}", gameId) == "Update " + (gameId + (" to " + "{version}"))
  {
    var g, v := "{gameId}", "{version}";
    var tail := " to " + v;
    assert tpl == "Update " + (g + tail);
    calc {
      ReplaceAll(tpl, g, gameId);
      { ReplaceAllSkips("Update ", g + tail, g, gameId); }
      "Update " + ReplaceAll(g + tail, g, gameId);
      { ReplaceAllAtPattern(g, tail, gameId); }
      "Update " + (gameId + ReplaceAll(tail, g, gameId));
      { ReplaceAllSkips(" to ", v, g, gameId); }
      "Update " + (gameId + (" to " + ReplaceAll(v, g, gameId)));
      { VersionHasNoGameId(v, g, gameId); }
      "Update " + (gameId + (" to " + v));
    }
  }

  lemma VersionHasNoGameId(v: string, g: string, r: string)
    requires v == "{version}" && g == "{gameId}"
    ensures ReplaceAll(v, g, r) == v
  {
    assert v[..|g|] != g by {
      assert v[..|g|][1] == 'v' && g[1] == 'g';
    }
    assert ReplaceAll(v, g, r) == [v[0]] + ReplaceAll(v[1..], g, r);
    ReplaceAllUntouched(v[1..], g, r);
    assert v == [v[0]] + v[1..];
  }

  lemma RenderExampleVersion(step1: string, version: string)
    requires step1 == "Update " + ("g1" + (" to " + "{version}")) && version == "42"
    ensures ReplaceAll(step1, "{version}", version) == "Update g1 to 42"
  {
    var v := "{version}";
    assert step1 == "Update g1 to " + (v + "");
    ReplaceAllSkips("Update g1 to ", v + "", v, version);
    ReplaceAllAtPattern(v, "", version);
    assert "Update g1 to " + (version + "") == "Update g1 to 42";
  }

  /** The announcement the watcher posts for a new version. */
  function AutoAnnouncement(id: string, gameId: string, latest: Upload, content: string, now: Time): (a: Announcement)
    ensures a.id == id && a.content == content && a.date == now && a.editedAt.None?
    ensures a.kind == "game-specific" && a.gameId == Some(gameId)
    ensures |a.title| > |latest.id| && a.title[|a.title| - |latest.id|..] == latest.id
  {
    Announcement(id, "New Update: " + gameId + " - " + latest.id, content, "game-specific", Some(gameId), now, None)
  }
}
