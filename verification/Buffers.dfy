/** Fixed buffers, as the C library's copying functions fill them. */
module Buffers {
  const NUL: char := '\0'

  function Min(a: nat, b: nat): nat {
    if a < b then a else b
  }

  /** The `n` characters from `c` on. */
  function Row(c: char, n: nat): (s: string)
    requires c as int + n <= 128
    ensures |s| == n && forall i :: 0 <= i < n ==> s[i] as int == c as int + i
  {
    seq(n, i requires 0 <= i < n => (c as int + i) as char)
  }

  /** `memcpy(dst + at, bytes, ...)`. */
  method Store<T>(dst: array<T>, at: nat, bytes: seq<T>)
    requires at + |bytes| <= dst.Length
    modifies dst
    ensures dst[..] == old(dst[..at]) + bytes + old(dst[at + |bytes|..])
  {
    ghost var orig := dst[..];
    assert orig == orig[..at] + [] + orig[at..];
    for k := 0 to |bytes|
      invariant dst[..] == orig[..at] + bytes[..k] + orig[at + k..]
    {
      dst[at + k] := bytes[k];
      assert bytes[..k + 1] == bytes[..k] + [bytes[k]];
    }
    assert bytes[..|bytes|] == bytes;
  }

  lemma Concat3<T>(a: seq<T>, b: seq<T>, c: seq<T>)
    ensures a + b + c == a + (b + c)
  {
  }
}
