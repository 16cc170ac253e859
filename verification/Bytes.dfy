/** Bytes, 256-byte pages and optional values, shared by every module. */
module Bytes {

  type Byte = b: int | 0 <= b < 0x100

  /** Buffers are modelled page by page: copying a page is one assignment. */
  type Page = p: seq<Byte> | |p| == 0x100 witness seq(0x100, i => 0)

  function ZeroPage(): Page {
    seq(0x100, i => 0)
  }

  datatype Option<+T> = None | Some(value: T)

  lemma Regroup<T>(p: seq<T>, q: seq<T>, r: seq<T>)
    ensures p + (q + r) == (p + q) + r
  {
  }
}
