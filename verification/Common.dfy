/** What several modules share: optional values, instants, and the symbolic digest. */
module Common {
  datatype Option<+T> = None | Some(value: T)

  /** Instants and durations in nanoseconds; 0 is Go's zero time, which every clock reading follows. */
  type Time = int

  const SECOND := 1_000_000_000

  /** SHA-256 is symbolic: no two plaintexts share a digest. */
  datatype Digest = Sha256(plain: string)
}
