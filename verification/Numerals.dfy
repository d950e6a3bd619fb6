/** The base 64 numerals of time stamps and of P10 names. Time stamps are written
    with as many digits as they need, at the end of a static buffer; P10 names with
    a given number of digits. Both are read from the front, in the arithmetic of
    int and unsigned int. */
module Numerals {
  import opened Arithmetic
  import opened Buffers
  import opened CIntegers

  /** The digits `0`-`9`, `A`-`Z`, `a`-`z`, `{` and `}` of time stamps, and
      `A`-`Z`, `a`-`z`, `0`-`9`, `[` and `]` of P10 names. */
  datatype Alphabet = Stamp | Nick

  function DigitChar(al: Alphabet, d: nat): char
    requires d < 64
  {
    match al
    case Stamp =>
      if d < 10 then (d + '0' as int) as char else if d < 36 then (d - 10 + 'A' as int) as char
      else if d < 62 then (d - 36 + 'a' as int) as char else if d == 62 then '{' else '}'
    case Nick =>
      if d < 26 then (d + 'A' as int) as char else if d < 52 then (d - 26 + 'a' as int) as char
      else if d < 62 then (d - 52 + '0' as int) as char else if d == 62 then '[' else ']'
  }

  /** What the reverse table holds: -1 or 0 for a character that is no digit. */
  function CharDigit(al: Alphabet, c: char): (d: int)
    ensures -1 <= d < 64
  {
    match al
    case Stamp =>
      if '0' <= c <= '9' then c as int - '0' as int else if 'A' <= c <= 'Z' then c as int - 'A' as int + 10
      else if 'a' <= c <= 'z' then c as int - 'a' as int + 36 else if c == '{' then 62 else if c == '}' then 63 else -1
    case Nick =>
      if 'A' <= c <= 'Z' then c as int - 'A' as int else if 'a' <= c <= 'z' then c as int - 'a' as int + 26
      else if '0' <= c <= '9' then c as int - '0' as int + 52 else if c == '[' then 62 else if c == ']' then 63 else 0
  }

  predicate IsDigit64(al: Alphabet, c: char) {
    CharDigit(al, c) >= 0 && DigitChar(al, CharDigit(al, c)) == c
  }

  predicate IsNumeral(al: Alphabet, s: string) {
    forall i :: 0 <= i < |s| ==> IsDigit64(al, s[i])
  }

  lemma DigitBack(al: Alphabet, d: nat)
    requires d < 64
    ensures CharDigit(al, DigitChar(al, d)) == d && DigitChar(al, d) != NUL
  {
  }

  // ----- Writing -----

  /** The last `n` digits of `v`. */
  function Fixed(al: Alphabet, v: nat, n: nat): (s: string)
    ensures |s| == n
  {
    if n == 0 then "" else Fixed(al, v / 64, n - 1) + [DigitChar(al, v % 64)]
  }

  /** As many digits as it takes. */
  function Shortest(al: Alphabet, v: nat): string {
    (if v < 64 then "" else Shortest(al, v / 64)) + [DigitChar(al, v % 64)]
  }

  /** `buf[at] = c` in front of what is written already. */
  method Prepend(buf: array<char>, at: nat, c: char)
    requires at < buf.Length
    modifies buf
    ensures buf[at..] == [c] + old(buf[at + 1..]) && buf[..at] == old(buf[..at])
  {
    buf[at] := c;
  }

  lemma FixedLast(v: nat, n: nat)
    requires n > 0
    ensures Fixed(Nick, v, n) == Fixed(Nick, v / 64, n - 1) + [DigitChar(Nick, v % 64)]
  {
  }

  /** `inttobase64(buf, v, count)`. */
  method InttoBase64(buf: array<char>, v: nat, count: nat)
    requires v < 0x1_0000_0000 && count < buf.Length
    modifies buf
    ensures buf[..] == Fixed(Nick, v, count) + [NUL] + old(buf[count + 1..])
  {
    hide DigitChar, Fixed;
    ghost var rear := [NUL] + buf[count + 1..];
    Prepend(buf, count, NUL);
    var n: nat, rest: nat := count, v;
    ghost var done: string := [];
    assert Fixed(Nick, v, count) + done == Fixed(Nick, v, count) && done + rear == rear;
    while n > 0
      invariant n <= count && Fixed(Nick, rest, n) + done == Fixed(Nick, v, count)
      invariant buf[n..] == done + rear
    {
      FixedLast(rest, n);
      n := n - 1;
      ghost var digit := [DigitChar(Nick, rest % 64)];
      Concat3(Fixed(Nick, rest / 64, n), digit, done);
      Concat3(digit, done, rear);
      Prepend(buf, n, DigitChar(Nick, rest % 64));
      rest := rest / 64;
      done := digit + done;
    }
    assert buf[0..] == buf[..];
    assert "" + done == done;
    Concat3(done, [NUL], rear[1..]);
  }

  /** What is left of a value below 2^31 once the buffer is filled down to `i`. */
  function Limit(i: nat): nat {
    if i >= 7 then 2147483648 else if i == 6 then 33554432 else if i == 5 then 524288
    else if i == 4 then 8192 else if i == 3 then 128 else if i == 2 then 2 else 0
  }

  lemma LimitStep(at: nat, v: nat)
    requires at <= 7 && v < Limit(at)
    ensures at >= 2 && (v / 64 != 0 ==> v / 64 < Limit(at - 1))
  {
  }

  lemma LimitTop()
    ensures Limit(7) == 2147483648
  {
  }

  /** The digits still to be written. */
  function Unwritten(more: bool, rest: nat): string {
    if more then Shortest(Stamp, rest) else ""
  }

  lemma UnwrittenNext(v: nat)
    ensures Unwritten(true, v) == Unwritten(v / 64 != 0, v / 64) + [DigitChar(Stamp, v % 64)]
  {
    hide DigitChar;
  }

  /** `int_to_base64(val)`: the text stands at the end of the static buffer. */
  method IntToBase64(base64buf: array<char>, val: nat) returns (at: nat)
    requires val < 2147483647 && base64buf.Length == 8
    modifies base64buf
    ensures at < 7 && base64buf[at..] == Shortest(Stamp, val) + [NUL]
  {
    hide DigitChar, Limit, Shortest;
    at := 7;
    Prepend(base64buf, at, NUL);
    var rest: nat, more := val, true;
    ghost var done: string := [];
    LimitTop();
    assert Unwritten(true, val) + done == Shortest(Stamp, val);
    while more
      invariant 1 <= at <= 7 && base64buf[at..] == done + [NUL] && (at == 7 ==> more)
      invariant Unwritten(more, rest) + done == Shortest(Stamp, val)
      invariant more ==> rest < Limit(at)
      decreases at, more
    {
      LimitStep(at, rest);
      UnwrittenNext(rest);
      at := at - 1;
      ghost var digit := [DigitChar(Stamp, rest % 64)];
      Concat3(Unwritten(rest / 64 != 0, rest / 64), digit, done);
      Concat3(digit, done, [NUL]);
      Prepend(base64buf, at, DigitChar(Stamp, rest % 64));
      done := digit + done;
      rest := rest / 64;
      more := rest != 0;
    }
    assert "" + done == done;
  }

  // ----- Reading -----

  /** `base64toint`: an unsigned int, most significant digit first. */
  function NickValue(s: string): (v: nat)
    ensures v < 0x1_0000_0000
  {
    if s == "" then 0 else ToUInt(NickValue(s[..|s| - 1]) * 64 + CharDigit(Nick, s[|s| - 1]))
  }

  /** `base64_to_int`: an int. */
  function StampValue(s: string): int {
    if s == "" then 0 else ToInt(StampValue(s[..|s| - 1]) * 64 + CharDigit(Stamp, s[|s| - 1]))
  }

  lemma NickNext(s: string, k: nat)
    requires k < |s|
    ensures NickValue(s[..k + 1]) == ToUInt(NickValue(s[..k]) * 64 + CharDigit(Nick, s[k]))
  {
    assert s[..k + 1][..k] == s[..k];
  }

  lemma StampNext(s: string, k: nat)
    requires k < |s|
    ensures StampValue(s[..k + 1]) == ToInt(StampValue(s[..k]) * 64 + CharDigit(Stamp, s[k]))
  {
    assert s[..k + 1][..k] == s[..k];
  }

  /** `base64toint(s, count)`: at most `count` characters are read. */
  method Base64toInt(s: string, count: nat) returns (i: nat)
    ensures i == NickValue(s[..Min(|s|, count)])
  {
    hide ToUInt;
    i := 0;
    var k := 0;
    while k < |s| && k < count
      invariant k <= Min(|s|, count) && i == NickValue(s[..k])
    {
      NickNext(s, k);
      i := ToUInt(i * 64 + CharDigit(Nick, s[k]));
      k := k + 1;
    }
  }

  /** `base64_to_int(b64)`: of a text that is not empty. */
  method Base64_ToInt(s: string) returns (v: int)
    requires s != ""
    ensures v == StampValue(s)
  {
    StampNext(s, 0);
    assert s[..0] == "";
    v := CharDigit(Stamp, s[0]);
    hide ToInt;
    for k := 1 to |s|
      invariant v == StampValue(s[..k])
    {
      StampNext(s, k);
      v := ToInt(v * 64 + CharDigit(Stamp, s[k]));
    }
    assert s[..|s|] == s;
  }

  // ----- Reading undoes writing -----

  function Power64(n: nat): nat {
    if n == 0 then 1 else 64 * Power64(n - 1)
  }

  lemma SplitDigit(v: nat, m: nat)
    requires m > 0
    ensures (v / 64) % m * 64 + v % 64 == v % (64 * m)
  {
    var q := v / 64;
    var r, k := q % m, q / m;
    assert q == m * k + r && r * 64 + v % 64 < 64 * m;
    assert v == 64 * q + v % 64;
    assert 64 * (m * k) == (64 * m) * k;
    ModIs(v, 64 * m, k, r * 64 + v % 64);
  }

  lemma ModSmall(v: nat, m: nat)
    requires m > 0
    ensures v % m <= v && v % m < m
  {
    var d := v / m;
    assert m * d >= 0;
  }

  lemma {:induction false} PowerPositive(n: nat)
    ensures Power64(n) > 0
  {
    if n > 0 {
      PowerPositive(n - 1);
    }
  }

  /** A P10 numeral holds the last digits of the number. */
  lemma {:induction false} NickRoundTrip(v: nat, count: nat)
    requires v < 0x1_0000_0000
    ensures Power64(count) > 0 && NickValue(Fixed(Nick, v, count)) == v % Power64(count)
  {
    PowerPositive(count);
    if count > 0 {
      NickRoundTrip(v / 64, count - 1);
      DigitBack(Nick, v % 64);
      var s := Fixed(Nick, v, count);
      assert s[..|s| - 1] == Fixed(Nick, v / 64, count - 1);
      SplitDigit(v, Power64(count - 1));
      ModSmall(v, Power64(count));
    }
  }

  lemma {:induction false} PowerGrows(n: nat)
    requires n >= 6
    ensures Power64(n) >= 68719476736
  {
    if n > 6 {
      PowerGrows(n - 1);
    } else {
      assert Power64(3) == 262144;
      assert Power64(6) == 64 * (64 * (64 * Power64(3)));
    }
  }

  /** Six digits hold every number. */
  lemma NickExact(v: nat, count: nat)
    requires v < 0x1_0000_0000 && count >= 6
    ensures NickValue(Fixed(Nick, v, count)) == v
  {
    PowerPositive(count);
    PowerGrows(count);
    NickRoundTrip(v, count);
    ModIs(v, Power64(count), 0, v);
  }

  /** A time stamp is read back as it was. */
  lemma {:induction false} StampRoundTrip(v: nat)
    requires v < 2147483647
    ensures StampValue(Shortest(Stamp, v)) == v
  {
    var s := Shortest(Stamp, v);
    DigitBack(Stamp, v % 64);
    if v >= 64 {
      StampRoundTrip(v / 64);
      assert s[..|s| - 1] == Shortest(Stamp, v / 64);
    } else {
      assert s[..|s| - 1] == "";
    }
  }

  // ----- Writing undoes reading -----

  /** The number that a P10 numeral stands for. */
  function Meaning(s: string): nat
    requires IsNumeral(Nick, s)
  {
    if s == "" then 0
    else
      assert IsDigit64(Nick, s[|s| - 1]);
      Meaning(s[..|s| - 1]) * 64 + CharDigit(Nick, s[|s| - 1])
  }

  lemma FixedNext(v: nat, d: nat, n: nat)
    requires d < 64
    ensures Fixed(Nick, v * 64 + d, n + 1) == Fixed(Nick, v, n) + [DigitChar(Nick, d)]
  {
  }

  lemma {:induction false} MeaningWritten(s: string)
    requires IsNumeral(Nick, s)
    ensures Meaning(s) < Power64(|s|) && Fixed(Nick, Meaning(s), |s|) == s
  {
    if s != "" {
      var n := |s| - 1;
      hide DigitChar, CharDigit, Fixed;
      assert IsDigit64(Nick, s[n]);
      MeaningWritten(s[..n]);
      assert s == s[..n] + [s[n]];
      FixedNext(Meaning(s[..n]), CharDigit(Nick, s[n]), n);
    }
  }

  lemma {:induction false} FixedInjective(v: nat, w: nat, n: nat)
    requires v < Power64(n) && w < Power64(n) && Fixed(Nick, v, n) == Fixed(Nick, w, n)
    ensures v == w
  {
    if n > 0 {
      DigitBack(Nick, v % 64);
      DigitBack(Nick, w % 64);
      hide DigitChar, CharDigit;
      var a, b := Fixed(Nick, v, n), Fixed(Nick, w, n);
      assert a[..n - 1] == Fixed(Nick, v / 64, n - 1) && b[..n - 1] == Fixed(Nick, w / 64, n - 1);
      assert a[n - 1] == b[n - 1];
      FixedInjective(v / 64, w / 64, n - 1);
    }
  }

  /** What is lost early is lost at the end as well. */
  lemma WrapNext(m: nat, d: nat)
    ensures ToUInt(ToUInt(m) * 64 + d) == ToUInt(m * 64 + d)
  {
    var t := 0x1_0000_0000;
    var k, e := m / t, m % t;
    var x := e * 64 + d;
    assert m * 64 + d == t * (64 * k) + x;
    assert x == t * (x / t) + x % t;
    assert t * (64 * k) + t * (x / t) == t * (64 * k + x / t);
    ModIs(m * 64 + d, t, 64 * k + x / t, x % t);
  }

  lemma {:induction false} NickIsMeaning(s: string)
    requires IsNumeral(Nick, s)
    ensures NickValue(s) == ToUInt(Meaning(s))
  {
    if s != "" {
      var n := |s| - 1;
      assert IsDigit64(Nick, s[n]);
      NickIsMeaning(s[..n]);
      hide CharDigit, DigitChar, ToUInt;
      WrapNext(Meaning(s[..n]), CharDigit(Nick, s[n]));
    }
  }

  lemma PowerSmall(n: nat)
    requires n <= 5
    ensures Power64(n) <= 1073741824
  {
    assert Power64(2) == 4096 && Power64(3) == 262144;
  }

  /** A P10 numeral is read as its number, modulo 2^32, and written again as it was
      if and only if the number fits; with five digits it always does. */
  lemma NumeralRoundTrip(s: string)
    requires IsNumeral(Nick, s)
    ensures NickValue(s) == ToUInt(Meaning(s))
    ensures Fixed(Nick, NickValue(s), |s|) == s <==> Meaning(s) < 0x1_0000_0000
    ensures |s| <= 5 ==> Meaning(s) < 0x1_0000_0000
  {
    hide Meaning, Fixed, IsNumeral;
    NickIsMeaning(s);
    MeaningWritten(s);
    var v := Meaning(s);
    ModSmall(v, 0x1_0000_0000);
    assert ToUInt(v) == v % 0x1_0000_0000;
    if Fixed(Nick, ToUInt(v), |s|) == s {
      FixedInjective(v, ToUInt(v), |s|);
    }
    if |s| <= 5 {
      PowerSmall(|s|);
    }
  }

  // ----- The alphabets -----

  const STAMPS: string := Row('0', 10) + Row('A', 26) + Row('a', 26) + "{}"
  const NICKS: string := Row('A', 26) + Row('a', 26) + Row('0', 10) + "[]"

  /** The digits in order, as the source lists them. */
  lemma AlphabetIs(al: Alphabet, d: nat)
    requires d < 64
    ensures |STAMPS| == 64 == |NICKS| && DigitChar(al, d) == (if al == Stamp then STAMPS else NICKS)[d]
  {
  }
}
