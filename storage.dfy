/**
 * AsyncStorage as the application uses it: a persistent string-to-string
 * store whose every call is asynchronous and may reject. Whether a call
 * rejects is not under the application's control, so each operation takes
 * it as a parameter; a rejected call leaves the entries as they were.
 */
module Storage {
  import opened Js

  /** The one key the application stores: the session token. */
  const TokenKey := "token"

  /** How an awaited `getItem` ends: with the stored string or `null`, or rejected. */
  datatype ReadResult = Got(item: Option<string>) | ReadFailed

  /** The value stored under `key`, or `null`. */
  function Get(entries: map<string, string>, key: string): (r: Option<string>)
    ensures r.Some? <==> key in entries
    ensures r.Some? ==> r.value == entries[key]
  {
    if key in entries then Some(entries[key]) else None
  }

  class KeyValueStore {
    var entries: map<string, string>

    constructor (initial: map<string, string>)
      ensures entries == initial
    {
      entries := initial;
    }

    /** What an awaited `getItem(key)` yields when the call does or does not reject. */
    function Read(key: string, fails: bool): (r: ReadResult)
      reads this
      ensures r.ReadFailed? <==> fails
      ensures !fails ==> r.item == Get(entries, key)
    {
      if fails then ReadFailed else Got(Get(entries, key))
    }

    /** `await setItem(key, value)`. */
    method SetItem(key: string, value: string, fails: bool) returns (ok: bool)
      modifies this
      ensures ok == !fails
      ensures entries == if ok then old(entries)[key := value] else old(entries)
    {
      ok := !fails;
      if ok {
        entries := entries[key := value];
      }
    }

    /** `await removeItem(key)`. */
    method RemoveItem(key: string, fails: bool) returns (ok: bool)
      modifies this
      ensures ok == !fails
      ensures entries == if ok then old(entries) - {key} else old(entries)
    {
      ok := !fails;
      if ok {
        entries := entries - {key};
      }
    }
  }
}
