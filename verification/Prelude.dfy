/** Shared vocabulary: optional values and Redis keys that expire. */
module Prelude {
  datatype Option<+T> = None | Some(value: T)

  /** A stored integer with the absolute instant, in milliseconds, at which Redis forgets it. */
  datatype Stored = Stored(value: nat, expiry: int)

  /** The key exists: it was written and its expiry has not been reached. */
  predicate Live(key: Option<Stored>, now: int) {
    key.Some? && now < key.value.expiry
  }

  /** GET on a counter, reading an absent key as zero. */
  function Read(key: Option<Stored>, now: int): nat {
    if Live(key, now) then key.value.value else 0
  }

  function Min(a: int, b: int): int {
    if a <= b then a else b
  }

  function Max(a: int, b: int): int {
    if a <= b then b else a
  }

  /** Milliseconds in `seconds`. */
  function Ms(seconds: int): int {
    1000 * seconds
  }
}
