/** Byte strings: what a CPU image holds, and what a buffer's memory holds. */
module Bytes {

  newtype byte = x: int | 0 <= x < 256

  datatype Option<T> = None | Some(value: T)

  /** `s` grown to at least `n` bytes, the new ones zero. */
  function ZeroExtend(s: seq<byte>, n: nat): (r: seq<byte>)
    ensures |r| == if |s| < n then n else |s|
    ensures forall i :: 0 <= i < |r| ==> r[i] == if i < |s| then s[i] else 0
  {
    if |s| < n then s + seq(n - |s|, _ => 0 as byte) else s
  }

  /** `s` with `data` at `offset`. */
  function Overwrite(s: seq<byte>, offset: nat, data: seq<byte>): (r: seq<byte>)
    requires offset + |data| <= |s|
    ensures |r| == |s|
    ensures forall i :: 0 <= i < |r| ==> r[i] == if offset <= i < offset + |data| then data[i - offset] else s[i]
  {
    s[..offset] + data + s[offset + |data|..]
  }

  /** Two neighbouring pieces are one. */
  lemma OverwriteJoins(s: seq<byte>, offset: nat, a: seq<byte>, b: seq<byte>)
    requires offset + |a| + |b| <= |s|
    ensures Overwrite(Overwrite(s, offset, a), offset + |a|, b) == Overwrite(s, offset, a + b)
  {}

  /** A write of `data` at `offset` into memory that grows, zero-filled, to hold it. */
  function Write(memory: seq<byte>, offset: nat, data: seq<byte>): (r: seq<byte>)
    ensures |r| == if |memory| < offset + |data| then offset + |data| else |memory|
    ensures forall i :: 0 <= i < |r| ==>
      r[i] == if offset <= i < offset + |data| then data[i - offset] else if i < |memory| then memory[i] else 0
  {
    Overwrite(ZeroExtend(memory, offset + |data|), offset, data)
  }

  function Min(a: nat, b: nat): (r: nat) {
    if a < b then a else b
  }

  function Max(a: nat, b: nat): (r: nat) {
    if a < b then b else a
  }
}
