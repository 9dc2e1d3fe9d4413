/** The app's persistent key-value storage, held in memory: a map from key to
    stored value. Three keys are used: `LoggedIn` and `IsFirstTime` hold the
    text "true" when set, and `profileData` holds the profile record (its JSON
    text, which reads back as the same record). */
module SessionStore {
  import opened Common
  import opened Utils

  const LoggedInKey := "LoggedIn"
  const IsFirstTimeKey := "IsFirstTime"
  const ProfileDataKey := "profileData"

  datatype Stored = Text(text: string) | Profile(data: ProfileData)

  datatype StoreError = Unavailable

  /** The value under `key`, if any (`getItem` answers `null` for a missing key). */
  function Lookup(entries: map<string, Stored>, key: string): (v: Option<Stored>)
    ensures v.Some? <==> key in entries
    ensures v.Some? ==> v.value == entries[key]
  {
    if key in entries then Some(entries[key]) else None
  }

  class KeyValueStore {
    var entries: map<string, Stored>
    /** Whether the storage medium answers; when it does not, every call rejects. */
    const available: bool

    constructor (entries: map<string, Stored>, available: bool)
      ensures this.entries == entries && this.available == available
    {
      this.entries := entries;
      this.available := available;
    }

    /** `getItem(key)`. */
    method GetItem(key: string) returns (r: Result<Option<Stored>, StoreError>)
      ensures r == if available then Ok(Lookup(entries, key)) else Err(Unavailable)
    {
      if !available {
        return Err(Unavailable);
      }
      r := Ok(Lookup(entries, key));
    }

    /** `setItem(key, value)`: replaces whatever was under `key`. */
    method SetItem(key: string, value: Stored) returns (r: Result<(), StoreError>)
      modifies this
      ensures r == if available then Ok(()) else Err(Unavailable)
      ensures entries == if available then old(entries)[key := value] else old(entries)
    {
      if !available {
        return Err(Unavailable);
      }
      entries := entries[key := value];
      r := Ok(());
    }

    /** `clear()`: removes every key. */
    method Clear() returns (r: Result<(), StoreError>)
      modifies this
      ensures r == if available then Ok(()) else Err(Unavailable)
      ensures entries == if available then map[] else old(entries)
    {
      if !available {
        return Err(Unavailable);
      }
      entries := map[];
      r := Ok(());
    }
  }
}
