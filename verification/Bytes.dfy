/** Byte-level vocabulary shared by the flash, codec and protocol models. */
module Bytes {

  type byte = x: int | 0 <= x < 0x100

  type u16 = x: int | 0 <= x < 0x1_0000

  type u32 = x: int | 0 <= x < 0x1_0000_0000

  datatype Option<+T> = None | Some(value: T)

  /** High and low halves of a 16-bit word, as `to_be_bytes` and `to_le_bytes` cut it. */
  function Hi(w: u16): byte { w / 256 }

  function Lo(w: u16): byte { w % 256 }

  function Join(hi: byte, lo: byte): u16 { hi * 256 + lo }

  /** Adding a byte to a word with a clear low half fills that half, as an or would. */
  lemma LowByte(w: u16, b: byte)
    requires w % 256 == 0
    ensures w + b < 0x1_0000 && Hi(w + b) == Hi(w) && Lo(w + b) == b
  {
  }

  function Repeat<T>(x: T, n: nat): (s: seq<T>)
    ensures |s| == n && forall i :: 0 <= i < n ==> s[i] == x
  {
    seq(n, _ => x)
  }

  /** `old` with `data` copied over it at `off`. */
  function Splice<T>(old_: seq<T>, off: nat, data: seq<T>): (s: seq<T>)
    requires off + |data| <= |old_|
    ensures |s| == |old_|
    ensures forall i :: 0 <= i < |s| ==> s[i] == if off <= i < off + |data| then data[i - off] else old_[i]
  {
    old_[..off] + data + old_[off + |data|..]
  }
}
