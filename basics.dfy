/** Failure-compatible wrappers used for the parser's error results. */
module Wrappers {

  datatype Option<+T> = None | Some(value: T)

  datatype Result<+T, +E> = Ok(value: T) | Err(error: E)
}

/** Fixed-width unsigned integers as bounded subsets of int. */
module Ints {

  type u8 = x: int | 0 <= x < 0x100
  type u16 = x: int | 0 <= x < 0x1_0000

  /** `u16::to_be_bytes`: most significant byte first. */
  function BigEndian16(v: u16): (r: seq<u8>)
    ensures |r| == 2 && FromBigEndian16(r[0], r[1]) == v
  {
    [v / 0x100, v % 0x100]
  }

  /** Reads back two big-endian bytes. */
  function FromBigEndian16(hi: u8, lo: u8): u16
  {
    hi * 0x100 + lo
  }

  /** Writing back two bytes that were read gives the same two bytes. */
  lemma BigEndian16Inverse(hi: u8, lo: u8)
    ensures BigEndian16(FromBigEndian16(hi, lo)) == [hi, lo]
  {
  }
}
