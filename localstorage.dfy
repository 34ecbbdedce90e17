/**
 * The file-backed key-value store: one in-memory map, rewritten whole to a
 * single JSON file on every mutation. The file is an abstract `Disk`; the
 * JSON text is an abstract `Content` with an injective `Serialize` and a
 * `Parse` that may fail.
 */
module LocalStorage {
  import opened Common
  import opened Records

  /** What the file holds: text that trims to nothing, text JSON.parse rejects, or a serialised map. */
  datatype Content = Blank | Corrupt | Document(entries: map<string, Value>)

  datatype Disk = Missing | Present(content: Content)

  /** The module's state: the `internal` map and the file. */
  datatype StoreState = StoreState(internal: map<string, Value>, disk: Disk)

  /** `JSON.stringify(internal)`. */
  function Serialize(m: map<string, Value>): Content
  {
    Document(m)
  }

  /** `JSON.parse` of the file's text; blank and corrupt text are rejected. */
  function Parse(c: Content): (r: Option<map<string, Value>>)
    ensures r.Some? <==> c.Document?
    ensures r.Some? ==> Serialize(r.value) == c
  {
    if c.Document? then Some(c.entries) else None
  }

  lemma ParseSerialize(m: map<string, Value>)
    ensures Parse(Serialize(m)) == Some(m)
  {
  }

  /** `internal[key] ?? null`. */
  function Get(m: map<string, Value>, key: string): Value
  {
    if key in m then m[key] else Null
  }

  /** The state at module start: `internal` is `{}` whatever the file holds. */
  function Initial(disk: Disk): (s: StoreState)
    ensures forall k :: Get(s.internal, k) == Null
    ensures s.disk == disk
  {
    StoreState(map[], disk)
  }

  /** `load()`: the state after reading the file, by what the file holds. */
  function Loaded(disk: Disk): (s: StoreState)
    ensures disk.Missing? ==> s.internal == map[] && s.disk == Present(Serialize(map[]))
    ensures disk.Present? ==> s.disk == disk
    ensures disk == Present(Blank) || disk == Present(Corrupt) ==> s.internal == map[]
    ensures disk.Present? && disk.content.Document? ==> s.internal == disk.content.entries
  {
    match disk
    case Missing => StoreState(map[], Present(Serialize(map[])))
    case Present(c) =>
      var m := if c.Blank? then map[] else match Parse(c) { case Some(m) => m case None => map[] };
      StoreState(m, disk)
  }

  /** `setItem(key, value)`: the key now holds the value, and the whole map is written out. */
  function Set(s: StoreState, key: string, value: Value): (r: StoreState)
    ensures Get(r.internal, key) == value
    ensures forall k :: k != key ==> Get(r.internal, k) == Get(s.internal, k)
    ensures r.internal.Keys == s.internal.Keys + {key}
    ensures r.disk == Present(Serialize(r.internal))
  {
    var m := s.internal[key := value];
    StoreState(m, Present(Serialize(m)))
  }

  /** `removeItem(key)`: the key is gone, and the whole map is written out. */
  function Remove(s: StoreState, key: string): (r: StoreState)
    ensures key !in r.internal && Get(r.internal, key) == Null
    ensures forall k :: k != key ==> Get(r.internal, k) == Get(s.internal, k)
    ensures r.disk == Present(Serialize(r.internal))
  {
    var m := s.internal - {key};
    StoreState(m, Present(Serialize(m)))
  }

  /** A value set is what a reload reads back: reloading after a mutation changes nothing. */
  lemma SetSurvivesReload(s: StoreState, key: string, value: Value)
    ensures Loaded(Set(s, key, value).disk) == Set(s, key, value)
    ensures Get(Loaded(Set(s, key, value).disk).internal, key) == value
  {
  }

  /** A removed key stays removed across a reload. */
  lemma RemoveSurvivesReload(s: StoreState, key: string)
    ensures Loaded(Remove(s, key).disk) == Remove(s, key)
    ensures Get(Loaded(Remove(s, key).disk).internal, key) == Null
  {
  }

  /** The store module's single instance. */
  class Store {
    var internal: map<string, Value>
    var disk: Disk

    function State(): StoreState
      reads this
    {
      StoreState(internal, disk)
    }

    /** Module start: the file is left alone and not read. */
    constructor (disk: Disk)
      ensures State() == Initial(disk)
    {
      internal := map[];
      this.disk := disk;
    }

    function GetItem(key: string): (v: Value)
      reads this
      ensures key !in internal ==> v == Null
      ensures key in internal ==> v == internal[key]
    {
      Get(internal, key)
    }

    method SetItem(key: string, value: Value)
      modifies this
      ensures State() == Set(old(State()), key, value)
    {
      internal := internal[key := value];
      Save();
    }

    method RemoveItem(key: string)
      modifies this
      ensures State() == Remove(old(State()), key)
    {
      internal := internal - {key};
      Save();
    }

    /** `reload()`: read the file again, discarding the in-memory map, and return the map. */
    method Reload() returns (m: map<string, Value>)
      modifies this
      ensures State() == Loaded(old(disk)) && m == internal
    {
      match disk {
        case Missing =>
          disk := Present(Serialize(map[]));
          internal := map[];
        case Present(c) =>
          if c.Blank? {
            internal := map[];
          } else {
            var parsed := Parse(c);
            match parsed {
              case Some(entries) => internal := entries;
              case None => internal := map[];
            }
          }
      }
      m := internal;
    }

    /** `save()`: write the whole map to the file. */
    method Save()
      modifies this`disk
      ensures disk == Present(Serialize(internal))
    {
      disk := Present(Serialize(internal));
    }
  }
}
