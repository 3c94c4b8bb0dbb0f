/**
 * The browser's `localStorage`, as the frontend uses it: a map from keys to
 * string values. When storage is unavailable (disabled, or a private
 * window that refuses it) every call throws; the callers catch or not as
 * their source does.
 */
module BrowserStorage {
  import opened Wrappers

  /** The exception a call on unavailable storage throws. */
  datatype StorageError = StorageUnavailable

  class LocalStorage {
    var entries: map<string, string>
    var available: bool

    constructor(entries: map<string, string>, available: bool)
      ensures this.entries == entries && this.available == available
    {
      this.entries := entries;
      this.available := available;
    }

    /** `getItem(key)`: the stored value or null; it throws when storage is unavailable. */
    function GetItem(key: string): (r: Result<Option<string>, StorageError>)
      reads this
      ensures r.Ok? <==> available
      ensures r.Ok? ==> (r.value.Some? <==> key in entries)
      ensures r.Ok? && key in entries ==> r.value.value == entries[key]
    {
      if !available then Err(StorageUnavailable)
      else if key in entries then Ok(Some(entries[key]))
      else Ok(None)
    }

    /** `setItem(key, value)`; `ok` is false when it threw, and then nothing changed. */
    method SetItem(key: string, value: string) returns (ok: bool)
      modifies this
      ensures ok == available && available == old(available)
      ensures ok ==> entries == old(entries)[key := value]
      ensures !ok ==> entries == old(entries)
    {
      ok := available;
      if available {
        entries := entries[key := value];
      }
    }

    /** `removeItem(key)`; `ok` is false when it threw, and then nothing changed. */
    method RemoveItem(key: string) returns (ok: bool)
      modifies this
      ensures ok == available && available == old(available)
      ensures ok ==> entries == old(entries) - {key}
      ensures !ok ==> entries == old(entries)
    {
      ok := available;
      if available {
        entries := entries - {key};
      }
    }
  }
}
