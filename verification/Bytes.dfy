/** Octets and big-endian numbers. */
module Bytes {
  type byte = b: int | 0 <= b < 256

  function BigEndian(bs: seq<byte>): nat {
    if bs == [] then 0 else BigEndian(bs[..|bs| - 1]) * 256 + bs[|bs| - 1]
  }
}
