/** Octets as mathematical integers, and the few character constants the
    codecs share. Widths other than eight bits are written out where they matter. */
module Bytes {
  type byte = b: int | 0 <= b < 256

  const NUL: byte := 0
  const TAB: byte := 9
  const LF: byte := 10
  const CR: byte := 13
  const SPACE: byte := 32

  predicate IsDigit(c: byte) { 48 <= c <= 57 }

  predicate IsUpper(c: byte) { 65 <= c <= 90 }

  predicate IsLower(c: byte) { 97 <= c <= 122 }

  predicate IsAlpha(c: byte) { IsUpper(c) || IsLower(c) }

  /** The value of an unsigned 64-bit word after truncation. */
  const TWO_TO_64: nat := 0x1_0000_0000_0000_0000
  const ULLONG_MAX: nat := TWO_TO_64 - 1

  /** memcpy */
  method Copy(a: array<byte>, at: nat, src: seq<byte>)
    requires at + |src| <= a.Length
    modifies a
    ensures a[..at + |src|] == old(a[..at]) + src
    ensures forall k :: at + |src| <= k < a.Length ==> a[k] == old(a[k])
  {
    var i := 0;
    while i < |src|
      invariant i <= |src|
      invariant forall k :: 0 <= k < a.Length ==> a[k] == if at <= k < at + i then src[k - at] else old(a[k])
    {
      a[at + i] := src[i];
      i := i + 1;
    }
  }
}
