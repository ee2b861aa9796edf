/** `window.localStorage` as the credential code uses it: a string-keyed,
    string-valued store mutated in place (src/api/client.ts, src/lib/auth-guards.ts). */
module Storage {
  import opened Wrappers

  const AccessTokenKey := "accessToken"
  const RefreshTokenKey := "refreshToken"
  const UserKey := "user"

  /** The three keys removed when the credentials are cleared. */
  const CredentialKeys: set<string> := {AccessTokenKey, RefreshTokenKey, UserKey}

  /** JavaScript truthiness of a value read from storage: present and not empty. */
  predicate Truthy(v: Option<string>)
  {
    v.Some? && v.value != ""
  }

  /** A key's value in a store's map, or nothing (JavaScript's `null`) when
      the key is missing. */
  function Lookup(items: map<string, string>, key: string): Option<string>
  {
    if key in items then Some(items[key]) else None
  }

  class LocalStorage {
    var items: map<string, string>

    constructor (initial: map<string, string>)
      ensures items == initial
    {
      items := initial;
    }

    /** `getItem`: `null` (here `None`) for a missing key. */
    function GetItem(key: string): Option<string>
      reads this
    {
      Lookup(items, key)
    }

    method SetItem(key: string, value: string)
      modifies this
      ensures items == old(items)[key := value]
    {
      items := items[key := value];
    }

    method RemoveItem(key: string)
      modifies this
      ensures items == old(items) - {key}
    {
      items := items - {key};
    }

    /** Removes `accessToken`, `refreshToken` and `user`, in that order. */
    method ClearCredentials()
      modifies this
      ensures items == old(items) - CredentialKeys
    {
      RemoveItem(AccessTokenKey);
      RemoveItem(RefreshTokenKey);
      RemoveItem(UserKey);
    }
  }
}
