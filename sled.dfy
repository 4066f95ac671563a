/**
 * The embedded key-value engine as the handlers use it: one handle holding a
 * map from keys to stored texts, with point reads, inserts and removes.
 * Each operation takes a `fault` flag standing for an engine error (I/O,
 * corruption); the engine's own causes of failure are not modelled, and after
 * a failed insert or remove nothing is promised about the entries.
 */
module Sled {

  import opened Wrappers
  import opened Json

  /** An engine error; its cause is not modelled. */
  datatype EngineError = EngineError

  /** The outcome of one engine call. */
  datatype EngineResult<+T> = Ok(value: T) | Err(error: EngineError)

  /** The value stored under `key`, if any. */
  function Lookup(m: map<string, Text>, key: string): (r: Option<Text>)
    ensures r.Some? <==> key in m
    ensures r.Some? ==> m[key] == r.value
  {
    if key in m then Some(m[key]) else None
  }

  /** The database handle. */
  class Db {
    var entries: map<string, Text>

    /** An empty database. */
    constructor ()
      ensures entries == map[]
    {
      entries := map[];
    }

    /** Point read: the stored value, or `None` when the key is absent. Never changes the entries. */
    method Get(key: string, fault: bool) returns (r: EngineResult<Option<Text>>)
      ensures fault <==> r.Err?
      ensures r.Ok? ==> r.value == Lookup(entries, key)
    {
      if fault {
        r := Err(EngineError);
      } else {
        r := Ok(Lookup(entries, key));
      }
    }

    /** Insert or overwrite: on success the key holds `value` and the previous value is returned. */
    method Insert(key: string, value: Text, fault: bool) returns (r: EngineResult<Option<Text>>)
      modifies this
      ensures fault <==> r.Err?
      ensures r.Ok? ==> r.value == Lookup(old(entries), key) && entries == old(entries)[key := value]
    {
      if fault {
        r := Err(EngineError);
      } else {
        r := Ok(Lookup(entries, key));
        entries := entries[key := value];
      }
    }

    /** Remove: on success the key is absent and the previous value, if any, is returned. */
    method Remove(key: string, fault: bool) returns (r: EngineResult<Option<Text>>)
      modifies this
      ensures fault <==> r.Err?
      ensures r.Ok? ==> r.value == Lookup(old(entries), key) && entries == old(entries) - {key}
    {
      if fault {
        r := Err(EngineError);
      } else {
        r := Ok(Lookup(entries, key));
        entries := entries - {key};
      }
    }
  }
}
