/** The few types that several components share. */
module Common {
  datatype Option<T> = None | Some(value: T)

  const NUL: char := '\0'

  /** The text of a C string, without its terminator. */
  type CString = s: string | NUL !in s

  type Byte = b: nat | b < 256

  /** The bytes of a stream that arrives in pieces. */
  function Concat(chunks: seq<seq<Byte>>): seq<Byte>
    decreases |chunks|
  {
    if chunks == [] then [] else chunks[0] + Concat(chunks[1..])
  }
}
