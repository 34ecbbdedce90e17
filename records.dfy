/**
 * The entities the server keeps in its store: uploads reported by itch.io,
 * version records, game entries, announcements, templates, and the loosely
 * typed values the key-value store holds.
 */
module Records {
  import opened Common

  /** An instant, in milliseconds; the ISO-8601 text the source stores is not modelled. */
  type Time = int

  /**
   * One entry of itch.io's upload list: its id, the `updated_at` text as
   * received, the instant that text denotes (what the sort compares), and
   * its `url` ("" when absent).
   */
  datatype Upload = Upload(id: string, updatedAt: string, time: Time, url: string)

  /** Where a version record came from: the webhook, or an upload seen by the watcher. */
  datatype Origin =
    | Reported
    | Polled(uploadedAt: string, url: string, meta: Upload)

  datatype VersionRecord = VersionRecord(id: string, patchNotes: string, detectedAt: Time, origin: Origin)

  /** What `games[gameId]` holds; `versions` is the history, front first. */
  datatype GameEntry = GameEntry(
    version: Option<string>,
    patchNotes: Option<string>,
    lastUpdated: Option<Time>,
    versions: seq<VersionRecord>)

  /** The entry created for a game seen for the first time. */
  const NewEntry := GameEntry(None, None, None, [])

  /** `games[gameId]`, or the fresh entry the code creates when it is missing. */
  function EntryOf(games: map<string, GameEntry>, gameId: string): (e: GameEntry)
    ensures gameId in games ==> e == games[gameId]
    ensures gameId !in games ==> e.version.None? && e.patchNotes.None? && e.lastUpdated.None? && e.versions == []
  {
    if gameId in games then games[gameId] else NewEntry
  }

  /** An announcement; `kind` is the source's free-form `type` ("global", "game-specific", ...). */
  datatype Announcement = Announcement(
    id: string,
    title: string,
    content: string,
    kind: string,
    gameId: Option<string>,
    date: Time,
    editedAt: Option<Time>)

  /** The announcement templates: a global one and per-game overrides. */
  datatype TemplateConfig = TemplateConfig(global: string, perGame: map<string, string>)

  const NoTemplates := TemplateConfig("", map[])

  /** The template both the startup defaults and the watcher fall back to. */
  const DefaultTemplate := "New update for " + Placeholder("gameId") + ": version " + Placeholder("version") + "\n\n" + Placeholder("patchNotes")

  /** The marker a template uses for a named value: the name in braces. */
  function Placeholder(name: string): string
  {
    "{" + name + "}"
  }

  /** The store keys the server and the watcher use. */
  const GamesKey := "games"
  const AnnouncementsKey := "announcements"
  const AdminsKey := "admins"
  const TemplatesKey := "templates"

  /**
   * A value held in the store. `Null` stands for both `null` and `undefined`;
   * the four structured cases are the shapes the server writes.
   */
  datatype Value =
    | Null
    | Bool(b: bool)
    | Num(n: int)
    | Str(s: string)
    | GameMap(games: map<string, GameEntry>)
    | AnnouncementList(items: seq<Announcement>)
    | TokenList(tokens: seq<string>)
    | TemplateSet(templates: TemplateConfig)

  /** JavaScript truthiness: null, false, 0 and "" are falsy, every object and array is truthy. */
  predicate Truthy(v: Value)
    ensures v.Null? ==> !Truthy(v)
    ensures v.GameMap? || v.AnnouncementList? || v.TokenList? || v.TemplateSet? ==> Truthy(v)
  {
    match v
    case Null => false
    case Bool(b) => b
    case Num(n) => n != 0
    case Str(s) => s != ""
    case _ => true
  }

  /** How a stored value reads when the code expects one shape: falsy, that shape, or some other truthy value. */
  datatype Lookup<T> = Absent | Found(value: T) | WrongShape

  function GamesIn(v: Value): Lookup<map<string, GameEntry>>
  {
    if !Truthy(v) then Absent else if v.GameMap? then Found(v.games) else WrongShape
  }

  function AnnouncementsIn(v: Value): Lookup<seq<Announcement>>
  {
    if !Truthy(v) then Absent else if v.AnnouncementList? then Found(v.items) else WrongShape
  }

  function TemplatesIn(v: Value): Lookup<TemplateConfig>
  {
    if !Truthy(v) then Absent else if v.TemplateSet? then Found(v.templates) else WrongShape
  }

  /** The ids of a version history. */
  function Ids(vs: seq<VersionRecord>): set<string>
  {
    set v | v in vs :: v.id
  }

  /** The ids of an upload list. */
  function UploadIds(us: seq<Upload>): set<string>
  {
    set u | u in us :: u.id
  }

  /** No two records of the history share an id. */
  predicate UniqueIds(vs: seq<VersionRecord>)
  {
    forall i, j :: 0 <= i < j < |vs| ==> vs[i].id != vs[j].id
  }

  /** A game entry's invariant: one record per id, and the current version names a recorded id. */
  predicate EntryValid(e: GameEntry)
  {
    UniqueIds(e.versions) && (e.version.Some? ==> e.version.value in Ids(e.versions))
  }

  /** `versions.find(v => v.id === id)`: the first record with that id. */
  function FindVersion(vs: seq<VersionRecord>, id: string): (r: Option<VersionRecord>)
    ensures r.Some? <==> id in Ids(vs)
    ensures r.Some? ==> r.value in vs && r.value.id == id
  {
    if vs == [] then None
    else if vs[0].id == id then Some(vs[0])
    else
      var r := FindVersion(vs[1..], id);
      assert Ids(vs) == {vs[0].id} + Ids(vs[1..]) by {
        assert forall v :: v in vs <==> v == vs[0] || v in vs[1..];
      }
      r
  }

  lemma IdsCons(v: VersionRecord, vs: seq<VersionRecord>)
    ensures Ids([v] + vs) == {v.id} + Ids(vs)
  {
    assert forall w :: w in [v] + vs <==> w == v || w in vs;
  }

  /** Prepending a record with a fresh id keeps the ids unique. */
  lemma UniqueCons(v: VersionRecord, vs: seq<VersionRecord>)
    requires UniqueIds(vs) && v.id !in Ids(vs)
    ensures UniqueIds([v] + vs)
  {
    var r := [v] + vs;
    forall i, j | 0 <= i < j < |r| ensures r[i].id != r[j].id {
      if i == 0 {
        assert r[j] in vs;
      } else {
        assert r[i] == vs[i - 1] && r[j] == vs[j - 1];
      }
    }
  }
}
