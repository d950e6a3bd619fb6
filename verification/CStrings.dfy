/** Strings as the C library and its BSD relatives handle them.

    A C string ends at its first NUL; names are compared without regard to case,
    in the C locale. */
module CStrings {
  import opened Buffers

  function ToLower(c: char): char {
    if 'A' <= c <= 'Z' then 'a' + (c as int - 'A' as int) as char else c
  }

  function Lower(s: string): (t: string)
    ensures |t| == |s|
  {
    seq(|s|, i requires 0 <= i < |s| => ToLower(s[i]))
  }

  /** `strcasecmp(a, b) == 0`. */
  predicate SameName(a: string, b: string) {
    Lower(a) == Lower(b)
  }

  /** Equal, or the two cases of one letter. */
  predicate SameLetter(a: char, b: char) {
    a == b || ('A' <= a <= 'Z' && b as int == a as int + 32) || ('A' <= b <= 'Z' && a as int == b as int + 32)
  }

  lemma LowerLetter(a: char, b: char)
    ensures ToLower(a) == ToLower(b) <==> SameLetter(a, b)
  {
  }

  /** Names are the same if and only if they are letter by letter, but for case. */
  lemma SameNameIff(a: string, b: string)
    ensures SameName(a, b) <==> |a| == |b| && forall i :: 0 <= i < |a| ==> SameLetter(a[i], b[i])
  {
    if |a| == |b| {
      forall i | 0 <= i < |a|
        ensures Lower(a)[i] == Lower(b)[i] <==> SameLetter(a[i], b[i])
      {
        LowerLetter(a[i], b[i]);
      }
      assert Lower(a) == Lower(b) <==> forall i :: 0 <= i < |a| ==> Lower(a)[i] == Lower(b)[i];
    }
  }

  /** The C string at the start of a buffer: up to its first NUL, or all of it. */
  function CString(buf: string): (s: string)
    ensures s <= buf && NUL !in s && (|s| < |buf| ==> buf[|s|] == NUL)
  {
    if buf == "" || buf[0] == NUL then "" else
      var t := CString(buf[1..]);
      assert [buf[0]] + t <= buf;
      [buf[0]] + t
  }

  lemma {:induction false} CStringUpTo(buf: string, n: nat)
    requires n <= |buf| && NUL !in buf[..n] && (n < |buf| ==> buf[n] == NUL)
    ensures CString(buf) == buf[..n]
  {
    var s := CString(buf);
    assert forall i :: 0 <= i < n ==> buf[i] in buf[..n];
    assert s == buf[..|s|];
  }

  /** `strlcpy(dst, src, siz)`: as much as fits, and always a NUL. */
  method Strlcpy(dst: array<char>, src: string, siz: nat) returns (r: nat)
    requires siz <= dst.Length
    modifies dst
    ensures r == |src|
    ensures siz == 0 ==> dst[..] == old(dst[..])
    ensures siz > 0 ==>
              var n := Min(|src|, siz - 1);
              dst[..] == src[..n] + [NUL] + old(dst[n + 1..])
  {
    if siz > 0 {
      var n := Min(|src|, siz - 1);
      ghost var orig := dst[..];
      Store(dst, 0, src[..n] + [NUL]);
      assert orig[0..0] == [] && dst[..] == src[..n] + [NUL] + orig[n + 1..];
    }
    r := |src|;
  }

  /** The length of the C string in the first `siz` characters. */
  method Length(dst: array<char>, siz: nat) returns (dlen: nat)
    requires siz <= dst.Length
    ensures dlen <= siz && CString(dst[..siz]) == dst[..dlen]
  {
    dlen := 0;
    while dlen < siz && dst[dlen] != NUL
      invariant dlen <= siz && NUL !in dst[..dlen]
    {
      assert dst[..dlen + 1] == dst[..dlen] + [dst[dlen]];
      dlen := dlen + 1;
    }
    assert dst[..siz][..dlen] == dst[..dlen];
    CStringUpTo(dst[..siz], dlen);
  }

  /** `strlcat(dst, src, siz)`: appends what fits. Nothing changes if there is no
      NUL within `siz`. */
  method Strlcat(dst: array<char>, src: string, siz: nat) returns (r: nat)
    requires siz <= dst.Length
    modifies dst
    ensures var head := CString(old(dst[..siz]));
            && r == |head| + |src|
            && (|head| == siz ==> dst[..] == old(dst[..]))
            && (|head| < siz ==>
                  var n := Min(|src|, siz - |head| - 1);
                  dst[..] == head + src[..n] + [NUL] + old(dst[|head| + n + 1..]))
  {
    hide CString;
    ghost var orig := dst[..];
    var dlen := Length(dst, siz);
    assert orig[..siz][..dlen] == orig[..dlen];
    if dlen < siz {
      var n := Min(|src|, siz - dlen - 1);
      Store(dst, dlen, src[..n] + [NUL]);
      assert dst[..] == orig[..dlen] + src[..n] + [NUL] + orig[dlen + n + 1..];
    }
    r := dlen + |src|;
  }
}
