/** What the two stores share. */
module StoreTypes {
  import opened Decimal

  /** (db, key), the primary key of redge_keys. */
  type Key = (int, string)

  datatype SetOptions = SetOptions(ttl: int, keepTTL: bool, nx: bool, xx: bool)

  /** A row with this expiry counts as gone. */
  predicate Passed(expiresAt: Option<int>, now: int) {
    expiresAt.Some? && expiresAt.value <= now
  }
}
