/** The app's `SharedPreferences` file ("weather"): integer and string slots
    under string keys. Writes are modelled as taking effect at once.

    The real file has a single key space, so a `putInt` under a key replaces
    a string stored under the same key. Here integers and strings are kept
    apart; this matters only for a key used with both types, and the app
    uses "alertsId" only for an integer and "locations" only for a string. */
module Storage {
  import opened Results
  import opened Text

  datatype Prefs = Prefs(ints: map<string, Int32>, strings: map<string, string>)

  /** `getInt(key, default)`. */
  function GetInt(p: Prefs, key: string, default: Int32): Int32 {
    if key in p.ints then p.ints[key] else default
  }

  /** `getString(key, null)`. */
  function GetString(p: Prefs, key: string): Option<string> {
    if key in p.strings then Some(p.strings[key]) else None
  }

  /** `edit().putInt(key, v).apply()`: the slot reads back `v`; every other
      slot is untouched. */
  function PutInt(p: Prefs, key: string, v: Int32): (r: Prefs)
    ensures forall d :: GetInt(r, key, d) == v
    ensures forall k, d :: k != key ==> GetInt(r, k, d) == GetInt(p, k, d)
    ensures forall k :: GetString(r, k) == GetString(p, k)
  {
    p.(ints := p.ints[key := v])
  }

  /** `edit().putString(key, v).apply()`: the slot reads back `v`; every
      other slot is untouched. */
  function PutString(p: Prefs, key: string, v: string): (r: Prefs)
    ensures GetString(r, key) == Some(v)
    ensures forall k :: k != key ==> GetString(r, k) == GetString(p, k)
    ensures forall k, d :: GetInt(r, k, d) == GetInt(p, k, d)
  {
    p.(strings := p.strings[key := v])
  }
}
