/**
 * The key-value engine the storage service is built on, as an in-memory map.
 * Each entry lives in one typed slot; a typed getter answers `None` both for a
 * missing key and for an entry held in another slot.
 */
module Mmkv {
  import opened Wrappers

  datatype Entry = StringEntry(s: string) | BooleanEntry(b: bool) | NumberEntry(n: int)

  function StringOf(entries: map<string, Entry>, key: string): (r: Option<string>)
    ensures r.Some? <==> key in entries && entries[key].StringEntry?
    ensures r.Some? ==> entries[key] == StringEntry(r.value)
  {
    if key in entries && entries[key].StringEntry? then Some(entries[key].s) else None
  }

  function BooleanOf(entries: map<string, Entry>, key: string): (r: Option<bool>)
    ensures r.Some? <==> key in entries && entries[key].BooleanEntry?
    ensures r.Some? ==> entries[key] == BooleanEntry(r.value)
  {
    if key in entries && entries[key].BooleanEntry? then Some(entries[key].b) else None
  }

  function NumberOf(entries: map<string, Entry>, key: string): (r: Option<int>)
    ensures r.Some? <==> key in entries && entries[key].NumberEntry?
    ensures r.Some? ==> entries[key] == NumberEntry(r.value)
  {
    if key in entries && entries[key].NumberEntry? then Some(entries[key].n) else None
  }

  class Backend {
    var entries: map<string, Entry>

    constructor (initial: map<string, Entry>)
      ensures entries == initial
    {
      entries := initial;
    }

    method Contains(key: string) returns (present: bool)
      ensures present <==> key in entries
    {
      present := key in entries;
    }

    method GetString(key: string) returns (r: Option<string>)
      ensures r == StringOf(entries, key)
    {
      r := StringOf(entries, key);
    }

    method GetBoolean(key: string) returns (r: Option<bool>)
      ensures r == BooleanOf(entries, key)
    {
      r := BooleanOf(entries, key);
    }

    method GetNumber(key: string) returns (r: Option<int>)
      ensures r == NumberOf(entries, key)
    {
      r := NumberOf(entries, key);
    }

    method Set(key: string, entry: Entry)
      modifies this
      ensures entries == old(entries)[key := entry]
    {
      entries := entries[key := entry];
    }

    method Delete(key: string)
      modifies this
      ensures entries == old(entries) - {key}
    {
      entries := entries - {key};
    }

    method ClearAll()
      modifies this
      ensures entries == map[]
    {
      entries := map[];
    }
  }
}
