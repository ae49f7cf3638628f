/** Byte buffers: what a memcpy or memmove into an array leaves behind. */
module Buffers {

  type byte = x: int | 0 <= x < 256

  function Min(a: nat, b: nat): nat {
    if a < b then a else b
  }

  // s with bs written over it from index `at` on.
  function Overwrite(s: seq<byte>, at: nat, bs: seq<byte>): (r: seq<byte>)
    requires at + |bs| <= |s|
    ensures |r| == |s|
  {
    s[..at] + bs + s[at + |bs|..]
  }

  lemma OverwriteOn(s: seq<byte>, at: nat, a: seq<byte>, b: seq<byte>)
    requires at + |a| + |b| <= |s|
    ensures Overwrite(Overwrite(s, at, a), at + |a|, b) == Overwrite(s, at, a + b)
  {
  }

  // Reading back what was written, and what was not touched.
  lemma OverwriteRead(s: seq<byte>, at: nat, bs: seq<byte>)
    requires at + |bs| <= |s|
    ensures var r := Overwrite(s, at, bs);
            r[at..at + |bs|] == bs && r[..at] == s[..at] && r[at + |bs|..] == s[at + |bs|..]
  {
  }

  lemma Split<T>(s: seq<T>, k: nat, n: nat)
    requires k + n <= |s|
    ensures s[..k] + s[k..][..n] == s[..k + n] && s[k..][n..] == s[k + n..] && s[k..][..n] == s[k..k + n]
  {
  }

  // The bytes bs to dst[at..].
  method Memcpy(dst: array<byte>, at: nat, bs: seq<byte>)
    requires at + |bs| <= dst.Length
    modifies dst
    ensures dst[..] == Overwrite(old(dst[..]), at, bs)
  {
    forall i | 0 <= i < |bs| {
      dst[at + i] := bs[i];
    }
  }
}
