/** Byte strings, as the sds layer and the dictionary keys hold them. */
module Bytes {
  datatype Option<+T> = None | Some(value: T)

  /** A C `char` seen as an unsigned byte. */
  type Byte = c: char | c <= '\U{FF}' witness '\0'

  type ByteString = seq<Byte>

  const CRLF: ByteString := "\r\n"

  function Backwards<X>(s: seq<X>): (r: seq<X>)
    ensures |r| == |s| && forall i | 0 <= i < |s| :: r[i] == s[|s| - 1 - i]
  {
    seq(|s|, i requires 0 <= i < |s| => s[|s| - 1 - i])
  }
}
