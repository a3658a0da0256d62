/** The device's key-value store (AsyncStorage) as a pure map from keys
    to string values. `setItem` overwrites unconditionally; `getItem`
    yields `None` (JavaScript `null`) for a key never written. */
module KeyValueStore {
  import opened Optional

  type Store = map<string, string>

  const Empty: Store := map[]

  function GetItem(store: Store, key: string): (r: Option<string>)
    ensures r.Some? <==> key in store
    ensures r.Some? ==> r.value == store[key]
  {
    if key in store then Some(store[key]) else None
  }

  function SetItem(store: Store, key: string, value: string): (r: Store)
    ensures GetItem(r, key) == Some(value)
    ensures forall k :: k != key ==> GetItem(r, k) == GetItem(store, k)
    ensures r.Keys == store.Keys + {key}
  {
    store[key := value]
  }
}
