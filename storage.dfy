/**
 * The schema-driven storage service. A schema maps each key to a kind, a
 * default value and an optional version. `get` reads a key by its declared
 * kind and falls back to the default; `set` writes by the runtime type of the
 * value; building a store evicts every versioned key whose recorded version
 * differs and records the new versions under `__storage_metadata`.
 *
 * The specification functions below say what each operation does to the
 * backend's contents; the class `Storage` performs the operations through the
 * backend's own methods and is proved against them.
 */
module Storage {
  import opened Wrappers
  import opened Json
  import opened Mmkv

  /** The declared kind of a key; `UnknownKind` is anything else, or a key outside the schema. */
  datatype Kind = StringKind | BooleanKind | NumberKind | ObjectKind | UnknownKind

  /** A schema version: a string or a number. */
  datatype Version = TextVersion(text: string) | NumberVersion(number: int) {
    function AsValue(): (v: Value)
      ensures IsJson(v) && !Nullish(v)
    {
      match this
      case TextVersion(t) => Str(t)
      case NumberVersion(n) => Num(n)
    }
  }

  datatype Descriptor = Descriptor(kind: Kind, defaultValue: Value, version: Option<Version>)

  type Schema = map<string, Descriptor>

  /** The reserved backend key of the version record. */
  const MetadataKey: string := "__storage_metadata"

  /** `config[key]?.type` and `config[key]?.default`: a key outside the schema has neither. */
  function DescriptorOf(config: Schema, key: string): (d: Descriptor)
    ensures key in config ==> d == config[key]
    ensures key !in config ==> d.kind == UnknownKind && d.defaultValue == Undefined && d.version == None
  {
    if key in config then config[key] else Descriptor(UnknownKind, Undefined, None)
  }

  /** What MMKV's `getString`, `getBoolean` and `getNumber` hand back, as JavaScript values. */
  function StringSlot(entries: map<string, Entry>, key: string): Value {
    match StringOf(entries, key)
    case Some(s) => Str(s)
    case None => Undefined
  }

  function BooleanSlot(entries: map<string, Entry>, key: string): Value {
    match BooleanOf(entries, key)
    case Some(b) => Bool(b)
    case None => Undefined
  }

  function NumberSlot(entries: map<string, Entry>, key: string): Value {
    match NumberOf(entries, key)
    case Some(n) => Num(n)
    case None => Undefined
  }

  // ---------------------------------------------------------------------------
  // get, set, remove, clear

  /**
   * What `get(key)` returns when the backend holds `entries`. A string is read
   * with `||`, so an empty string falls back; a boolean or a number with `??`,
   * so `false` and `0` do not. Text that does not parse falls back as well.
   */
  function Read(config: Schema, json: Codec, entries: map<string, Entry>, key: string): (v: Value)
    ensures key !in entries ==> v == DescriptorOf(config, key).defaultValue
    ensures DescriptorOf(config, key).kind == UnknownKind ==> v == DescriptorOf(config, key).defaultValue
  {
    var d := DescriptorOf(config, key);
    if key !in entries then d.defaultValue
    else match d.kind
      case StringKind => Or(StringSlot(entries, key), d.defaultValue)
      case BooleanKind => Coalesce(BooleanSlot(entries, key), d.defaultValue)
      case NumberKind => Coalesce(NumberSlot(entries, key), d.defaultValue)
      case ObjectKind =>
        var text := StringSlot(entries, key);
        if !Truthy(text) then d.defaultValue
        else (match json.parse(text.s)
          case Some(v) => v
          case None => d.defaultValue)
      case UnknownKind => d.defaultValue
  }

  /**
   * The backend contents after `set(key, value)`: `null` and `undefined` delete
   * the entry, a string, boolean or number goes to its own slot whatever the
   * declared kind, and anything else is stored as JSON text.
   */
  function Write(json: Codec, entries: map<string, Entry>, key: string, value: Value): (r: map<string, Entry>)
    ensures r.Keys - {key} == entries.Keys - {key}
    ensures forall k :: k in r && k != key ==> k in entries && r[k] == entries[k]
    ensures key in r <==> !Nullish(value)
  {
    match value
    case Undefined => entries - {key}
    case Null => entries - {key}
    case Str(s) => entries[key := StringEntry(s)]
    case Bool(b) => entries[key := BooleanEntry(b)]
    case Num(n) => entries[key := NumberEntry(n)]
    case _ => entries[key := StringEntry(json.stringify(value))]
  }

  /** The values that `get` returns unchanged after `set` under each declared kind. */
  predicate Preserved(kind: Kind, v: Value) {
    match kind
    case StringKind => v.Str? && v.s != ""
    case BooleanKind => v.Bool?
    case NumberKind => v.Num?
    case ObjectKind => (v.Arr? || v.Obj?) && IsJson(v)
    case UnknownKind => false
  }

  /** Round trip: after `set(key, v)`, `get(key)` returns `v` for every value its kind preserves. */
  lemma ReadAfterWrite(config: Schema, json: Codec, entries: map<string, Entry>, key: string, v: Value)
    requires json.Lawful() && key in config && Preserved(config[key].kind, v)
    ensures Read(config, json, Write(json, entries, key, v), key) == v
  {
    if config[key].kind == ObjectKind {
      var text := json.stringify(v);
      assert text != "" && json.parse(text) == Some(v);
      assert StringSlot(Write(json, entries, key, v), key) == Str(text);
    }
  }

  /**
   * `set` dispatches on the runtime type, not on the declared kind: under a
   * primitive kind a value of another type, a nullish value or (for strings)
   * the empty string reads back as the default.
   */
  lemma ForeignValueReadsDefault(config: Schema, json: Codec, entries: map<string, Entry>, key: string, v: Value)
    requires key in config
    requires match config[key].kind
      case StringKind => v.Bool? || v.Num? || Nullish(v) || v == Str("")
      case BooleanKind => !v.Bool?
      case NumberKind => !v.Num?
      case _ => Nullish(v)
    ensures Read(config, json, Write(json, entries, key, v), key) == config[key].defaultValue
  {
  }

  /** Under the object kind, stored text that does not parse reads as the default instead of failing. */
  lemma UnparsableTextReadsDefault(config: Schema, json: Codec, entries: map<string, Entry>, key: string)
    requires key in config && config[key].kind == ObjectKind
    requires key in entries && entries[key].StringEntry? && json.parse(entries[key].s).None?
    ensures Read(config, json, entries, key) == config[key].defaultValue
  {
  }

  /** A structured value set under the string kind is read back as its JSON text. */
  lemma StructuredUnderStringKind(config: Schema, json: Codec, entries: map<string, Entry>, key: string, v: Value)
    requires json.Lawful() && key in config && config[key].kind == StringKind
    requires (v.Arr? || v.Obj?) && IsJson(v)
    ensures Read(config, json, Write(json, entries, key, v), key) == Str(json.stringify(v))
  {
    assert json.parse(json.stringify(v)) == Some(v);
  }

  /** `set` and `remove` leave what `get` returns for every other key as it was. */
  lemma WriteIsolated(config: Schema, json: Codec, entries: map<string, Entry>, key: string, v: Value, other: string)
    requires other != key
    ensures Read(config, json, Write(json, entries, key, v), other) == Read(config, json, entries, other)
    ensures Read(config, json, entries - {key}, other) == Read(config, json, entries, other)
  {
    var w := Write(json, entries, key, v);
    assert (other in w <==> other in entries) && (other in w ==> w[other] == entries[other]);
    assert StringOf(w, other) == StringOf(entries, other);
    assert BooleanOf(w, other) == BooleanOf(entries, other);
    assert NumberOf(w, other) == NumberOf(entries, other);
  }

  // ---------------------------------------------------------------------------
  // The value-or-default rule of `useStorage`

  /**
   * The value the hook hands out for the raw value of the reactive binding:
   * for the string kind `value || default`, for every other kind `value ?? default`.
   */
  function ValueOrDefault(kind: Kind, value: Value, default: Value): (r: Value)
    ensures Truthy(value) ==> r == value
    ensures Nullish(value) ==> r == default
    ensures kind == StringKind && !Truthy(value) ==> r == default
    ensures kind != StringKind && !Nullish(value) ==> r == value
  {
    if kind == StringKind then Or(value, default) else Coalesce(value, default)
  }

  /**
   * The raw value of the reactive binding: `useMMKVString`, `useMMKVBoolean` or
   * `useMMKVNumber` by declared kind, and `useMMKVString` for an unrecognised
   * kind. Each is MMKV's typed read of the key.
   */
  function HookSlot(kind: Kind, entries: map<string, Entry>, key: string): (r: Value)
    requires kind != ObjectKind
    ensures StringOf(entries, key).None? && BooleanOf(entries, key).None? && NumberOf(entries, key).None?
      ==> r == Undefined
    ensures kind == BooleanKind ==> (r.Bool? <==> key in entries && entries[key].BooleanEntry?)
    ensures kind == NumberKind ==> (r.Num? <==> key in entries && entries[key].NumberEntry?)
    ensures kind in {StringKind, UnknownKind} ==> (r.Str? <==> key in entries && entries[key].StringEntry?)
    ensures r.Undefined? || r.Str? || r.Bool? || r.Num?
  {
    match kind
    case StringKind => StringSlot(entries, key)
    case BooleanKind => BooleanSlot(entries, key)
    case NumberKind => NumberSlot(entries, key)
    case UnknownKind => StringSlot(entries, key)
  }

  /** For the primitive kinds, `get` and the hook give the same value for the same contents. */
  lemma GetAgreesWithHook(config: Schema, json: Codec, entries: map<string, Entry>, key: string)
    requires DescriptorOf(config, key).kind in {StringKind, BooleanKind, NumberKind}
    ensures var d := DescriptorOf(config, key);
      Read(config, json, entries, key) == ValueOrDefault(d.kind, HookSlot(d.kind, entries, key), d.defaultValue)
  {
  }

  /**
   * For a key of unrecognised kind the two disagree: `get` always gives the
   * default, while the hook reads the string slot and keeps an empty string.
   */
  lemma UnknownKindDisagreement(config: Schema, json: Codec, entries: map<string, Entry>, key: string)
    requires key in config && config[key].kind == UnknownKind
    requires key in entries && entries[key] == StringEntry("") && config[key].defaultValue != Str("")
    ensures Read(config, json, entries, key) == config[key].defaultValue
    ensures ValueOrDefault(UnknownKind, HookSlot(UnknownKind, entries, key), config[key].defaultValue) == Str("")
  {
  }

  // ---------------------------------------------------------------------------
  // The version migration run when a store is built

  /** `metadataJson ? JSON.parse(metadataJson) : {}` does not throw and yields an object. */
  predicate MetadataReadable(json: Codec, entries: map<string, Entry>) {
    match StringOf(entries, MetadataKey)
    case Some(text) => text != "" ==> json.parse(text).Some? && json.parse(text).value.Obj?
    case None => true
  }

  /** The version record as the migration reads it. */
  function StoredMetadata(json: Codec, entries: map<string, Entry>): map<string, Value>
    requires MetadataReadable(json, entries)
  {
    match StringOf(entries, MetadataKey)
    case Some(text) => if text != "" then json.parse(text).value.fields else map[]
    case None => map[]
  }

  /** `metadata[key]`: `undefined` when nothing is recorded. */
  function RecordedVersion(metadata: map<string, Value>, key: string): Value {
    if key in metadata then metadata[key] else Undefined
  }

  /** The version the schema declares for `key`, as it is recorded; `undefined` for none. */
  function DeclaredVersion(config: Schema, key: string): Value {
    if key in config && config[key].version.Some? then config[key].version.value.AsValue() else Undefined
  }

  /** A schema key with a version that differs from (or is missing in) the record. */
  predicate IsStale(config: Schema, metadata: map<string, Value>, key: string) {
    key in config && config[key].version.Some?
    && RecordedVersion(metadata, key) != DeclaredVersion(config, key)
  }

  /** The stale keys among `keys`. */
  function StaleKeys(config: Schema, metadata: map<string, Value>, keys: set<string>): set<string> {
    set k | k in keys && IsStale(config, metadata, k)
  }

  /** The record after the keys in `keys` have been examined: each stale one now has its new version. */
  function Recorded(config: Schema, metadata: map<string, Value>, keys: set<string>): map<string, Value> {
    metadata + Declared(config, StaleKeys(config, metadata, keys))
  }

  /**
   * Once its key has been examined, every versioned key has its declared version
   * in the record; every entry of a key that was not stale is kept as it was.
   */
  lemma RecordedFacts(config: Schema, metadata: map<string, Value>, keys: set<string>, key: string)
    ensures key in keys && key in config && config[key].version.Some? ==>
      RecordedVersion(Recorded(config, metadata, keys), key) == config[key].version.value.AsValue()
    ensures key !in StaleKeys(config, metadata, keys) ==>
      RecordedVersion(Recorded(config, metadata, keys), key) == RecordedVersion(metadata, key)
  {
  }

  /** Examining one more key adds it to the stale keys exactly when it is stale. */
  lemma StaleStep(config: Schema, metadata: map<string, Value>, done: set<string>, key: string)
    ensures StaleKeys(config, metadata, done + {key})
      == StaleKeys(config, metadata, done) + (if IsStale(config, metadata, key) then {key} else {})
  {
  }

  /** The new versions of the keys in `keys`. */
  function Declared(config: Schema, keys: set<string>): map<string, Value> {
    map k | k in keys :: DeclaredVersion(config, k)
  }

  /** One more key adds one more declared version. */
  lemma DeclaredStep(config: Schema, keys: set<string>, key: string)
    ensures Declared(config, keys + {key}) == Declared(config, keys)[key := DeclaredVersion(config, key)]
  {
  }

  /** Updating the right operand of a map union updates the union. */
  lemma UnionUpdate(a: map<string, Value>, b: map<string, Value>, key: string, v: Value)
    ensures a + b[key := v] == (a + b)[key := v]
  {
  }

  /** A key not yet examined is stale in the record being built exactly when it was stale at the start. */
  lemma StaleUnexamined(config: Schema, metadata: map<string, Value>, done: set<string>, key: string)
    requires key !in done
    ensures IsStale(config, Recorded(config, metadata, done), key) == IsStale(config, metadata, key)
  {
    RecordedFacts(config, metadata, done, key);
  }

  /** Evicting one more key from what is left after evicting `keys`. */
  lemma EvictOneMore(entries: map<string, Entry>, keys: set<string>, key: string)
    ensures (entries - keys) - {key} == entries - (keys + {key})
  {
  }

  /** Examining one more key changes the record at that key only, and only when it is stale. */
  lemma RecordStep(config: Schema, metadata: map<string, Value>, done: set<string>, key: string)
    ensures Recorded(config, metadata, done + {key})
      == if IsStale(config, metadata, key)
         then Recorded(config, metadata, done)[key := DeclaredVersion(config, key)]
         else Recorded(config, metadata, done)
  {
    var stale := StaleKeys(config, metadata, done);
    StaleStep(config, metadata, done, key);
    if IsStale(config, metadata, key) {
      DeclaredStep(config, stale, key);
      UnionUpdate(metadata, Declared(config, stale), key, DeclaredVersion(config, key));
    }
  }

  /**
   * The backend contents after the migration: stale keys evicted, everything
   * else untouched, and the new record written as JSON under `MetadataKey`.
   */
  function Migrated(config: Schema, json: Codec, entries: map<string, Entry>): (r: map<string, Entry>)
    requires MetadataReadable(json, entries)
    ensures MetadataKey in r && r[MetadataKey].StringEntry?
    ensures r.Keys - {MetadataKey} <= entries.Keys
    ensures forall k :: k in r && k != MetadataKey ==> r[k] == entries[k]
  {
    var metadata := StoredMetadata(json, entries);
    var record := Recorded(config, metadata, config.Keys);
    (entries - StaleKeys(config, metadata, config.Keys))[MetadataKey := StringEntry(json.stringify(Obj(record)))]
  }

  /**
   * The migration evicts exactly the stale keys, keeps every other entry as it
   * was, and always writes the record.
   */
  lemma MigrationEffect(config: Schema, json: Codec, entries: map<string, Entry>, key: string)
    requires MetadataReadable(json, entries)
    ensures var r, metadata := Migrated(config, json, entries), StoredMetadata(json, entries);
      && MetadataKey in r
      && r[MetadataKey] == StringEntry(json.stringify(Obj(Recorded(config, metadata, config.Keys))))
      && (key != MetadataKey ==> (key in r <==> key in entries && !IsStale(config, metadata, key)))
      && (key != MetadataKey && key in r ==> r[key] == entries[key])
  {
  }

  /** The record a migration writes is read back by the next one as exactly the record written. */
  lemma MigratedMetadata(config: Schema, json: Codec, entries: map<string, Entry>)
    requires json.Lawful() && MetadataReadable(json, entries)
    ensures MetadataReadable(json, Migrated(config, json, entries))
    ensures StoredMetadata(json, Migrated(config, json, entries))
      == Recorded(config, StoredMetadata(json, entries), config.Keys)
  {
    var metadata := StoredMetadata(json, entries);
    var record := Recorded(config, metadata, config.Keys);
    var r := Migrated(config, json, entries);
    assert IsJson(Obj(metadata)) by {
      var text := StringOf(entries, MetadataKey);
      if text.Some? && text.value != "" {
        assert json.parse(text.value).Some?;
      }
    }
    assert IsJson(Obj(record));
    assert StringOf(r, MetadataKey) == Some(json.stringify(Obj(record)));
  }

  /** After a store is built, every versioned schema key has its version in the record. */
  lemma MigrationRecordsVersions(config: Schema, json: Codec, entries: map<string, Entry>, key: string)
    requires json.Lawful() && MetadataReadable(json, entries)
    requires key in config && config[key].version.Some?
    ensures MetadataReadable(json, Migrated(config, json, entries))
    ensures RecordedVersion(StoredMetadata(json, Migrated(config, json, entries)), key)
      == config[key].version.value.AsValue()
  {
    MigratedMetadata(config, json, entries);
  }

  /** The record keeps what it held for keys outside the schema and for keys that were current. */
  lemma MigrationKeepsOtherRecords(config: Schema, json: Codec, entries: map<string, Entry>, key: string)
    requires json.Lawful() && MetadataReadable(json, entries)
    requires !IsStale(config, StoredMetadata(json, entries), key)
    ensures MetadataReadable(json, Migrated(config, json, entries))
    ensures RecordedVersion(StoredMetadata(json, Migrated(config, json, entries)), key)
      == RecordedVersion(StoredMetadata(json, entries), key)
  {
    MigratedMetadata(config, json, entries);
    RecordedFacts(config, StoredMetadata(json, entries), config.Keys, key);
  }

  /** Building a second store over the same backend with the same schema changes nothing. */
  lemma MigrationIdempotent(config: Schema, json: Codec, entries: map<string, Entry>)
    requires json.Lawful() && MetadataReadable(json, entries)
    ensures MetadataReadable(json, Migrated(config, json, entries))
    ensures StaleKeys(config, StoredMetadata(json, Migrated(config, json, entries)), config.Keys) == {}
    ensures Migrated(config, json, Migrated(config, json, entries)) == Migrated(config, json, entries)
  {
    var once := Migrated(config, json, entries);
    MigratedMetadata(config, json, entries);
    var record := StoredMetadata(json, once);
    assert StaleKeys(config, record, config.Keys) == {};
    assert Recorded(config, record, config.Keys) == record;
  }

  /** The record built from nothing: every versioned schema key with its version. */
  function FreshRecord(config: Schema): map<string, Value> {
    Declared(config, set k | k in config && config[k].version.Some?)
  }

  /**
   * After `clear()` the backend is empty, so the next store treats every
   * versioned key as first seen and writes a record of exactly those keys.
   */
  lemma MigrationAfterClear(config: Schema, json: Codec)
    ensures MetadataReadable(json, map[])
    ensures StaleKeys(config, map[], config.Keys) == set k | k in config && config[k].version.Some?
    ensures Migrated(config, json, map[]) == map[MetadataKey := StringEntry(json.stringify(Obj(FreshRecord(config))))]
  {
    assert StoredMetadata(json, map[]) == map[];
    assert Recorded(config, map[], config.Keys) == FreshRecord(config);
  }

  /** A version bump evicts the stored value, which then reads as the default. */
  lemma VersionBumpReadsDefault(config: Schema, json: Codec, entries: map<string, Entry>, key: string)
    requires MetadataReadable(json, entries) && key != MetadataKey
    requires IsStale(config, StoredMetadata(json, entries), key)
    ensures Read(config, json, Migrated(config, json, entries), key) == config[key].defaultValue
  {
  }

  /** A key whose version matches, or that has none, reads the same after the migration. */
  lemma MigrationKeepsCurrent(config: Schema, json: Codec, entries: map<string, Entry>, key: string)
    requires MetadataReadable(json, entries) && key != MetadataKey
    requires !IsStale(config, StoredMetadata(json, entries), key)
    ensures Read(config, json, Migrated(config, json, entries), key) == Read(config, json, entries, key)
  {
    var r := Migrated(config, json, entries);
    assert StringOf(r, key) == StringOf(entries, key);
    assert BooleanOf(r, key) == BooleanOf(entries, key);
    assert NumberOf(r, key) == NumberOf(entries, key);
  }

  // ---------------------------------------------------------------------------
  // The service object

  class Storage {
    const config: Schema
    const json: Codec
    const backend: Backend

    /** Builds the store over an injected backend and runs the version migration. */
    constructor (config: Schema, json: Codec, backend: Backend)
      requires MetadataReadable(json, backend.entries)
      modifies backend
      ensures this.config == config && this.json == json && this.backend == backend
      ensures backend.entries == Migrated(config, json, old(backend.entries))
    {
      this.config := config;
      this.json := json;
      this.backend := backend;
      new;
      ValidateAndMigrateVersions();
    }

    /** Reads the version record: an absent or empty one is the empty record. */
    method ReadMetadata() returns (metadata: map<string, Value>)
      requires MetadataReadable(json, backend.entries)
      ensures metadata == StoredMetadata(json, backend.entries)
    {
      var text := backend.GetString(MetadataKey);
      metadata := map[];
      if text.Some? && text.value != "" {
        metadata := json.parse(text.value).value.fields;
      }
    }

    /** The loop body for one schema key: evict and re-record it when its version differs. */
    method MigrateKey(key: string, metadata: map<string, Value>) returns (updated: map<string, Value>)
      requires key in config
      modifies backend
      ensures IsStale(config, metadata, key) ==>
        backend.entries == old(backend.entries) - {key}
        && updated == metadata[key := DeclaredVersion(config, key)]
      ensures !IsStale(config, metadata, key) ==>
        backend.entries == old(backend.entries) && updated == metadata
    {
      updated := metadata;
      var descriptor := config[key];
      if descriptor.version.Some? {
        var stored := RecordedVersion(metadata, key);
        if stored != descriptor.version.value.AsValue() {
          Remove(key);
          updated := metadata[key := descriptor.version.value.AsValue()];
        }
      }
    }

    /**
     * The `forEach` over the schema: evicts every stale key and returns the
     * record with the new version of each. The order of the keys does not matter.
     */
    method EvictStale(metadata: map<string, Value>) returns (updated: map<string, Value>)
      modifies backend
      ensures updated == Recorded(config, metadata, config.Keys)
      ensures backend.entries == old(backend.entries) - StaleKeys(config, metadata, config.Keys)
    {
      updated := metadata;
      var pending := config.Keys;
      ghost var done: set<string> := {};
      ghost var entries0 := backend.entries;
      while pending != {}
        invariant pending <= config.Keys && done == config.Keys - pending
        invariant updated == Recorded(config, metadata, done)
        invariant backend.entries == entries0 - StaleKeys(config, metadata, done)
        decreases pending
      {
        var key :| key in pending;
        StaleUnexamined(config, metadata, done, key);
        StaleStep(config, metadata, done, key);
        RecordStep(config, metadata, done, key);
        EvictOneMore(entries0, StaleKeys(config, metadata, done), key);
        updated := MigrateKey(key, updated);
        pending := pending - {key};
        done := done + {key};
      }
      assert done == config.Keys;
    }

    /**
     * Reads the version record, evicts each versioned key whose recorded version
     * differs and records its new version, then writes the record back.
     */
    method ValidateAndMigrateVersions()
      requires MetadataReadable(json, backend.entries)
      modifies backend
      ensures backend.entries == Migrated(config, json, old(backend.entries))
    {
      var metadata := ReadMetadata();
      metadata := EvictStale(metadata);
      backend.Set(MetadataKey, StringEntry(json.stringify(Obj(metadata))));
    }

    /** `get(key)`: never fails; falls back to the key's default. */
    method Get(key: string) returns (v: Value)
      ensures v == Read(config, json, backend.entries, key)
    {
      var d := DescriptorOf(config, key);
      var present := backend.Contains(key);
      if !present {
        return d.defaultValue;
      }
      match d.kind {
        case StringKind =>
          var s := backend.GetString(key);
          v := Or(if s.Some? then Str(s.value) else Undefined, d.defaultValue);
        case BooleanKind =>
          var b := backend.GetBoolean(key);
          v := Coalesce(if b.Some? then Bool(b.value) else Undefined, d.defaultValue);
        case NumberKind =>
          var n := backend.GetNumber(key);
          v := Coalesce(if n.Some? then Num(n.value) else Undefined, d.defaultValue);
        case ObjectKind =>
          var text := backend.GetString(key);
          v := d.defaultValue;
          if text.Some? && text.value != "" {
            var parsed := json.parse(text.value);
            if parsed.Some? {
              v := parsed.value;
            }
          }
        case UnknownKind =>
          v := d.defaultValue;
      }
    }

    /** `set(key, value)`: deletes on `null`/`undefined`, otherwise writes by runtime type. */
    method Set(key: string, value: Value)
      modifies backend
      ensures backend.entries == Write(json, old(backend.entries), key, value)
    {
      match value {
        case Undefined => backend.Delete(key);
        case Null => backend.Delete(key);
        case Str(s) => backend.Set(key, StringEntry(s));
        case Bool(b) => backend.Set(key, BooleanEntry(b));
        case Num(n) => backend.Set(key, NumberEntry(n));
        case _ => backend.Set(key, StringEntry(json.stringify(value)));
      }
    }

    /** `remove(key)`: deletes one entry; on an absent key the backend is unchanged. */
    method Remove(key: string)
      modifies backend
      ensures backend.entries == old(backend.entries) - {key}
      ensures key !in old(backend.entries) ==> backend.entries == old(backend.entries)
    {
      backend.Delete(key);
    }

    /** `clear()`: empties the whole backend, the version record included. */
    method Clear()
      modifies backend
      ensures backend.entries == map[]
      ensures MetadataKey !in backend.entries
    {
      backend.ClearAll();
    }
  }
}
