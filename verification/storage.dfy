/** The browser's `localStorage` as the session layer uses it: a map from key to text,
    with the three keys the session writes. */
module Storage {
  type Store = map<string, string>

  const AccessKey := "access_token"
  const RefreshKey := "refresh_token"
  const UserKey := "user"

  /** `if (localStorage.getItem(k))`: the key is present and its text is not empty. */
  predicate Holds(s: Store, k: string)
  {
    k in s && s[k] != ""
  }

  /** Both token keys removed, as on a terminal refresh failure. */
  function ClearTokens(s: Store): (r: Store)
    ensures AccessKey !in r && RefreshKey !in r
    ensures forall k :: k in s && k != AccessKey && k != RefreshKey ==> k in r && r[k] == s[k]
    ensures forall k :: k in r ==> k in s
  {
    s - {AccessKey, RefreshKey}
  }

  /** The store agrees with `s` on every key other than the two token keys. */
  predicate SameOutsideTokens(s: Store, t: Store)
  {
    && (forall k :: k in s && k != AccessKey && k != RefreshKey ==> k in t && t[k] == s[k])
    && (forall k :: k in t && k != AccessKey && k != RefreshKey ==> k in s)
  }
}
