/** Types shared by every component: optional values and results, UUIDs, instants and bytes.
    Ids and instants are plain numbers, so that comparing them is what Postgres does. */
module Common {
  datatype Option<+T> = None | Some(value: T) {
    function GetOr(default: T): T {
      if Some? then value else default
    }
  }

  datatype Result<+T, +E> = Ok(value: T) | Err(error: E)

  // A UUID is its 128-bit number: Postgres compares the 16 bytes from the left,
  // which is the order of the numbers. uuid.Nil is 0.
  type Uuid = nat

  const NIL: Uuid := 0

  // An instant in microseconds, the grain of a Postgres timestamptz.
  type Time = int

  type Byte = b: int | 0 <= b < 256

  const SECOND: int := 1_000_000
}
