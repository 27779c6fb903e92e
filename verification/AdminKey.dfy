/**
 * Admin API key verification against the current and previous secret slots
 * (src/routes.rs, verify_admin_api_key), each behind its own hashed cache.
 * Argon2 is ideal: a salted hash verifies exactly its own secret.
 */
module AdminKey {
  import opened Common
  import opened SecretCache

  datatype Hash = Hash(secret: string, salt: nat)

  predicate VerifyApiKey(provided: string, hash: Hash) { hash.secret == provided }

  datatype KeySlot = CurrentKey | PreviousKey

  /**
   * What one slot's cache answers: nothing when the fetch failed, otherwise a
   * hash, or a cached `None` when hashing failed.
   */
  function VerifyAdmin(current: Option<Option<Hash>>, previous: Option<Option<Hash>>, provided: string): Option<KeySlot>
  {
    if current.Some? && current.value.Some? && VerifyApiKey(provided, current.value.value) then Some(CurrentKey)
    else if previous.Some? && previous.value.Some? && VerifyApiKey(provided, previous.value.value)
    then Some(PreviousKey)
    else None
  }

  /** What a fetch of a slot can put in the cache: the store's secret hashed under some salt, or a failed hash. */
  ghost function HashedSource(store: int -> Option<string>): (Option<Hash>, int, int) -> bool {
    (v: Option<Hash>, m: int, n: int) =>
      store(m).Some? && store(m).value != "" && (v.Some? ==> v.value.secret == store(m).value)
  }

  ghost predicate HeldBetween(store: int -> Option<string>, key: string, from: int, to: int) {
    exists m :: from <= m <= to && store(m) == Some(key)
  }

  lemma HashFromStore(store: int -> Option<string>, a: Answer<Option<Hash>>)
    requires Current(HashedSource(store), a) && a.value.Some? && a.value.value.Some?
    ensures HeldBetween(store, a.value.value.value.secret, Since(a), a.at) && a.value.value.value.secret != ""
  {
    var m, n :| Since(a) <= m <= n <= a.at && HashedSource(store)(a.value.value, m, n);
    assert store(m) == Some(a.value.value.value.secret);
  }

  /**
   * A key is accepted only if one of the slots held it less than five minutes
   * before the slot's cache answered, or since the call; the empty key never is.
   */
  lemma AcceptedOnlyIfRecentlyHeld(
      curStore: int -> Option<string>, curSteps: seq<Step<Option<Hash>>>, cur: Answer<Option<Hash>>,
      prevStore: int -> Option<string>, prevSteps: seq<Step<Option<Hash>>>, prev: Answer<Option<Hash>>,
      clock: int, provided: string)
    requires Serves(HashedSource(curStore), clock, curSteps, cur)
    requires Serves(HashedSource(prevStore), clock, prevSteps, prev)
    ensures match VerifyAdmin(cur.value, prev.value, provided)
            case Some(CurrentKey) => HeldBetween(curStore, provided, Since(cur), cur.at) && provided != ""
            case Some(PreviousKey) => HeldBetween(prevStore, provided, Since(prev), prev.at) && provided != ""
            case None => true
  {
    ServedValuesAreCurrent(HashedSource(curStore), clock, curSteps, cur);
    ServedValuesAreCurrent(HashedSource(prevStore), clock, prevSteps, prev);
    match VerifyAdmin(cur.value, prev.value, provided) {
      case Some(CurrentKey) => HashFromStore(curStore, cur);
      case Some(PreviousKey) => HashFromStore(prevStore, prev);
      case None =>
    }
  }

  /**
   * A key the current slot held throughout the five minutes before the answer is
   * accepted as current exactly when the slot answered with a hash, whatever
   * refreshes failed earlier in the run.
   */
  lemma StableKeyAcceptedIff(store: int -> Option<string>, clock: int, steps: seq<Step<Option<Hash>>>,
                             a: Answer<Option<Hash>>, previous: Option<Option<Hash>>, key: string)
    requires Serves(HashedSource(store), clock, steps, a)
    requires forall m | Since(a) <= m <= a.at :: store(m) == Some(key)
    ensures VerifyAdmin(a.value, previous, key) == Some(CurrentKey) <==> a.value.Some? && a.value.value.Some?
  {
    ServedValuesAreCurrent(HashedSource(store), clock, steps, a);
    if a.value.Some? && a.value.value.Some? {
      HashFromStore(store, a);
    }
  }

  /** Did this slot's cache answer with a hash? */
  predicate HasHash(a: Answer<Option<Hash>>) { a.value.Some? && a.value.value.Some? }

  /**
   * A key the previous slot held throughout its five minutes is accepted exactly
   * when one of the two caches answered with a hash of it: as current if the
   * current slot's did, as previous otherwise.
   */
  lemma StablePreviousKeyAcceptedIff(curStore: int -> Option<string>, curSteps: seq<Step<Option<Hash>>>,
                                     cur: Answer<Option<Hash>>,
                                     prevStore: int -> Option<string>, prevSteps: seq<Step<Option<Hash>>>,
                                     prev: Answer<Option<Hash>>, clock: int, key: string)
    requires Serves(HashedSource(curStore), clock, curSteps, cur)
    requires Serves(HashedSource(prevStore), clock, prevSteps, prev)
    requires forall m | Since(prev) <= m <= prev.at :: prevStore(m) == Some(key)
    ensures var slot := VerifyAdmin(cur.value, prev.value, key);
            var byCurrent := HasHash(cur) && cur.value.value.value.secret == key;
            && (slot == Some(CurrentKey) <==> byCurrent)
            && (slot == Some(PreviousKey) <==> !byCurrent && HasHash(prev))
            && (slot == None <==> !byCurrent && !HasHash(prev))
  {
    ServedValuesAreCurrent(HashedSource(prevStore), clock, prevSteps, prev);
    if HasHash(prev) {
      HashFromStore(prevStore, prev);
    }
  }
}
