/** Identifiers, instants and the `User` record (src/user/model.rs). */
module Model {

  /** A 128-bit UUID; only equality is ever used on it. */
  newtype Uuid = x: int | 0 <= x < 0x1_0000_0000_0000_0000_0000_0000_0000_0000

  /** A UTC instant, in whole seconds since the Unix epoch. */
  type Instant = int

  const Minute: int := 60
  const Hour: int := 60 * Minute

  datatype User = User(
    id: Uuid,
    username: string,
    email: string,
    passwordHash: string,
    createdAt: Instant)
}
