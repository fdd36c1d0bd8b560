/** The configuration helper of the factory: a shallow copy of a string-keyed
    object with one key renamed. An object is a map from property names to
    values, where `None` is the value `undefined`. */
module Rename {
  import opened Wrappers

  /** Property read: a key the object does not hold reads as `undefined`. */
  function Get<V>(o: map<string, Option<V>>, k: string): Option<V>
  {
    if k in o then o[k] else None
  }

  /** `r` is `o` with `oldKey` renamed to `newKey`: the old key is gone, the
      new key holds what reading the old key gave (`undefined` if absent),
      and every other key keeps its value. Renaming a key to itself deletes
      it. */
  ghost predicate IsRenamed<V>(o: map<string, Option<V>>, oldKey: string, newKey: string, r: map<string, Option<V>>)
  {
    && oldKey !in r
    && (oldKey != newKey ==> newKey in r && r[newKey] == Get(o, oldKey))
    && (oldKey != newKey ==> r.Keys == (o.Keys - {oldKey}) + {newKey})
    && (oldKey == newKey ==> r == o - {oldKey})
    && forall k :: k in o && k != oldKey && k != newKey ==> k in r && r[k] == o[k]
  }

  /** Copy `o`, write `newKey` with the value read at `oldKey`, then delete
      `oldKey` from the copy. The input is a value and is never changed. */
  function RenameKey<V>(o: map<string, Option<V>>, oldKey: string, newKey: string): (r: map<string, Option<V>>)
    ensures IsRenamed(o, oldKey, newKey, r)
  {
    o[newKey := Get(o, oldKey)] - {oldKey}
  }

  /** Renaming back undoes a rename, as long as the new name was free and the
      old one was present (otherwise `undefined` or a lost value shows up). */
  lemma RenameKeyRoundTrip<V>(o: map<string, Option<V>>, oldKey: string, newKey: string)
    requires oldKey != newKey
    requires oldKey in o && newKey !in o
    ensures RenameKey(RenameKey(o, oldKey, newKey), newKey, oldKey) == o
  {
  }
}
