/** The host's temporary storage: entries expire, and `extend_ttl` renews only short-lived ones (`ttl.rs`). */
module TempStorage {
  import opened Results
  import opened Types

  predicate Live<T>(entry: Temporary<T>, now: nat) {
    now <= entry.liveUntil
  }

  /** Reading an expired entry is the same as reading an absent one. */
  function Read<K, T>(entries: map<K, Temporary<T>>, key: K, clock: Clock): Option<T> {
    if key in entries && Live(entries[key], clock.ledger) then Some(entries[key].value) else None
  }

  /** `extend_ttl(key, threshold, extendTo)`: renew only when at most `threshold` ledgers remain. */
  function Renewed(liveUntil: nat, now: nat, threshold: nat, extendTo: nat): nat {
    if liveUntil <= now + threshold && liveUntil < now + extendTo then now + extendTo else liveUntil
  }

  /** `set` followed by `extend_ttl`; a new entry starts with the host's minimum lifetime. */
  function Write<K, T>(entries: map<K, Temporary<T>>, key: K, value: T, clock: Clock,
                       threshold: nat, extendTo: nat): map<K, Temporary<T>> {
    var now := clock.ledger;
    var base := if key in entries && Live(entries[key], now) then entries[key].liveUntil
                else if clock.minTempTtl == 0 then now else now + clock.minTempTtl - 1;
    entries[key := Temporary(value, Renewed(base, now, threshold, extendTo))]
  }
}
