/** Unique identifiers: an odometer whose first digit is a letter and whose others
    go from `A` to `Z` and then from `0` to `9`. */
module Uid {
  import opened Arithmetic
  import opened Buffers

  // ----- The odometer -----

  predicate IsDigit36(c: char) {
    'A' <= c <= 'Z' || '0' <= c <= '9'
  }

  /** Letters come before the decimal digits. */
  function Digit36(d: nat): char
    requires d < 36
  {
    if d < 26 then 'A' + d as char else '0' + (d - 26) as char
  }

  /** Six characters of a uid, or three of a P10 numeric: the first one a letter. */
  predicate IsOdometer(s: string) {
    s != "" && 'A' <= s[0] <= 'Z' && forall i :: 1 <= i < |s| ==> IsDigit36(s[i])
  }

  function Succ(c: char): char {
    if c as int < 0xff then (c as int + 1) as char else c
  }

  /** The next reading; after the last one it starts again. */
  function Next(s: string): (r: string)
    requires s != ""
    ensures |r| == |s|
  {
    var n := |s| - 1;
    if n == 0 then if s[0] == 'Z' then "A" else [Succ(s[0])]
    else if s[n] == 'Z' then s[..n] + ['0']
    else if s[n] != '9' then s[..n] + [Succ(s[n])]
    else Next(s[..n]) + ['A']
  }

  /** How many readings an odometer of `n` digits has: 26 * 36^(n - 1). */
  function Limit(n: nat): (m: nat)
    ensures m > 0
  {
    if n <= 1 then 26 else 36 * Limit(n - 1)
  }

  /** Number `k` in the mixed radix of the odometer. */
  function Numeral(k: nat, n: nat): (s: string)
    requires n > 0 && k < Limit(n)
    ensures |s| == n
  {
    if n == 1 then [Digit36(k)] else Numeral(k / 36, n - 1) + [Digit36(k % 36)]
  }

  lemma {:induction false} NumeralIsOdometer(k: nat, n: nat)
    requires n > 0 && k < Limit(n)
    ensures IsOdometer(Numeral(k, n))
  {
    if n > 1 {
      NumeralIsOdometer(k / 36, n - 1);
    }
  }

  lemma Digit36Next(d: nat)
    requires d < 36
    ensures Digit36(d) == 'Z' <==> d == 25
    ensures Digit36(d) == '9' <==> d == 35
    ensures d < 25 || 25 < d < 35 ==> Succ(Digit36(d)) == Digit36(d + 1)
    ensures Digit36(0) == 'A' && Digit36(26) == '0'
  {
  }

  lemma NextLast(front: string, d: nat)
    requires front != "" && d < 36
    ensures Next(front + [Digit36(d)]) == if d == 35 then Next(front) + ['A'] else front + [Digit36(d + 1)]
  {
    var s := front + [Digit36(d)];
    assert s[..|s| - 1] == front;
    Digit36Next(d);
    hide Digit36, Succ;
  }

  lemma NumeralLast(k: nat, n: nat)
    requires n > 1 && k < Limit(n)
    ensures Numeral(k, n) == Numeral(k / 36, n - 1) + [Digit36(k % 36)]
  {
  }

  /** The number of the next reading, digit by digit. */
  lemma NumberNext(k: nat, n: nat)
    requires n > 1 && k < Limit(n)
    ensures var next := if k + 1 == Limit(n) then 0 else k + 1;
            && k / 36 < Limit(n - 1)
            && next / 36 == (if k % 36 != 35 then k / 36 else if k / 36 + 1 == Limit(n - 1) then 0 else k / 36 + 1)
            && next % 36 == (if k % 36 != 35 then k % 36 + 1 else 0)
  {
    var d := k % 36;
    if d == 35 {
      assert k + 1 == 36 * (k / 36 + 1);
    } else {
      assert (k + 1) / 36 == k / 36 && (k + 1) % 36 == d + 1;
    }
  }

  /** The odometer counts. */
  lemma {:induction false} NextCounts(k: nat, n: nat)
    requires n > 0 && k < Limit(n)
    ensures Next(Numeral(k, n)) == Numeral(if k + 1 == Limit(n) then 0 else k + 1, n)
    decreases n
  {
    if n == 1 {
      Digit36Next(k);
      hide Digit36, Succ;
    } else {
      NumberNext(k, n);
      NumeralLast(k, n);
      NumeralLast(if k + 1 == Limit(n) then 0 else k + 1, n);
      NextCounts(k / 36, n - 1);
      Digit36Next(0);
      hide Digit36, Numeral, Next, Limit;
      NextLast(Numeral(k / 36, n - 1), k % 36);
    }
  }

  lemma NumeralZero(n: nat)
    requires n > 1
    ensures Numeral(0, n) == Numeral(0, n - 1) + ['A']
  {
  }

  lemma {:induction false} NumeralInjective(j: nat, k: nat, n: nat)
    requires n > 0 && j < Limit(n) && k < Limit(n) && Numeral(j, n) == Numeral(k, n)
    ensures j == k
  {
    var s := Numeral(j, n);
    if n > 1 {
      assert s[..n - 1] == Numeral(j / 36, n - 1) && s[..n - 1] == Numeral(k / 36, n - 1);
      NumeralInjective(j / 36, k / 36, n - 1);
      assert s[n - 1] == Digit36(j % 36) == Digit36(k % 36);
    } else {
      assert s[0] == Digit36(j) == Digit36(k);
    }
  }

  // ----- The counters in place -----

  lemma NextNine(t: string)
    requires |t| > 1 && t[|t| - 1] == '9'
    ensures Next(t) == Next(t[..|t| - 1]) + ['A']
  {
  }

  lemma NextCarry(s: string, m: nat, tail: string)
    requires 1 < m <= |s| && s[m - 1] == '9' && Next(s) == Next(s[..m]) + tail
    ensures Next(s) == Next(s[..m - 1]) + (['A'] + tail)
  {
    hide Next;
    NextNine(s[..m]);
    assert s[..m][..m - 1] == s[..m - 1];
    assert Next(s[..m - 1]) + ['A'] + tail == Next(s[..m - 1]) + (['A'] + tail);
  }

  lemma NextHere(s: string, m: nat, c: char)
    requires 1 < m <= |s| && s[m - 1] != '9' && c == if s[m - 1] == 'Z' then '0' else Succ(s[m - 1])
    ensures Next(s[..m]) == s[..m - 1] + [c]
  {
    assert s[..m][..m - 1] == s[..m - 1];
  }

  /** The last digit to change: what is behind it has changed already. */
  method Settle(buf: array<char>, first: nat, i: nat, last: nat, c: char, ghost orig: string, ghost s: string, ghost tail: string)
    requires first <= i <= last < buf.Length == |orig| && s == orig[first..last + 1] && |tail| == last - i
    requires buf[..] == orig[..i + 1] + tail + orig[last + 1..]
    requires Next(s) == Next(s[..i + 1 - first]) + tail && Next(s[..i + 1 - first]) == s[..i - first] + [c]
    modifies buf
    ensures buf[first..last + 1] == Next(s)
    ensures buf[..first] == orig[..first] && buf[last + 1..] == orig[last + 1..]
  {
    hide Next;
    buf[i] := c;
    assert buf[..] == orig[..i] + [c] + tail + orig[last + 1..];
    assert s[..i - first] == orig[first..i];
    assert buf[first..last + 1] == orig[first..i] + [c] + tail;
  }

  /** A nine is passed on. */
  method Carry(buf: array<char>, first: nat, i: nat, last: nat, ghost orig: string, ghost s: string, ghost tail: string)
    requires first < i <= last < buf.Length == |orig| && s == orig[first..last + 1] && |tail| == last - i
    requires buf[..] == orig[..i + 1] + tail + orig[last + 1..] && buf[i] == '9'
    requires Next(s) == Next(s[..i + 1 - first]) + tail
    modifies buf
    ensures buf[..] == orig[..i] + (['A'] + tail) + orig[last + 1..]
    ensures Next(s) == Next(s[..i - first]) + (['A'] + tail)
  {
    hide Next;
    assert buf[i] == orig[i] == s[i - first];
    NextCarry(s, i + 1 - first, tail);
    buf[i] := 'A';
    assert buf[..] == orig[..i] + ['A'] + tail + orig[last + 1..];
  }

  lemma NextFirst(s: string)
    requires s != ""
    ensures Next(s[..1]) == s[..0] + (if s[0] == 'Z' then "A" else [Succ(s[0])])
  {
  }

  /** The digits from `first` to `last` move on by one. */
  method Advance(buf: array<char>, first: nat, last: nat)
    requires first < last < buf.Length && IsOdometer(buf[first..last + 1])
    modifies buf
    ensures buf[first..last + 1] == Next(old(buf[first..last + 1]))
    ensures buf[..first] == old(buf[..first]) && buf[last + 1..] == old(buf[last + 1..])
  {
    hide Next, Succ, IsOdometer;
    ghost var orig := buf[..];
    ghost var s := buf[first..last + 1];
    ghost var tail: string := "";
    var i := last;
    assert s[..|s|] == s && Next(s) + "" == Next(s) && orig[..last + 1] + tail + orig[last + 1..] == orig;
    while i > first
      invariant first <= i <= last && |tail| == last - i
      invariant buf[..] == orig[..i + 1] + tail + orig[last + 1..]
      invariant Next(s) == Next(s[..i + 1 - first]) + tail
    {
      assert buf[i] == orig[i] == s[i - first];
      if buf[i] != '9' {
        // 'Z' is followed by '0'
        var c := if buf[i] == 'Z' then '0' else Succ(buf[i]);
        NextHere(s, i + 1 - first, c);
        Settle(buf, first, i, last, c, orig, s, tail);
        return;
      }
      Carry(buf, first, i, last, orig, s, tail);
      tail := ['A'] + tail;
      i := i - 1;
    }
    NextFirst(s);
    assert buf[i] == orig[i] == s[0];
    Settle(buf, first, i, last, if buf[i] == 'Z' then 'A' else Succ(buf[i]), orig, s, tail);
  }

  /** The number of uids, and of P10 numerics: 26 * 36^5 and 26 * 36^2. */
  lemma Limits()
    ensures Limit(6) == 26 * 36 * 36 * 36 * 36 * 36 && Limit(3) == 26 * 36 * 36
  {
    assert Limit(3) == 33696;
  }

  lemma NumeralAs()
    ensures Numeral(0 % Limit(6), 6) == ['A', 'A', 'A', 'A', 'A', 'A']
    ensures Numeral(0 % Limit(3), 3) == ['A', 'A', 'A']
  {
    NumeralZero(2);
    NumeralZero(3);
    NumeralZero(4);
    NumeralZero(5);
    NumeralZero(6);
  }

  class Counters {
    const currentUid: array<char>
    const p10Uid: array<char>
    const sid: string
    const p10Id: string
    // how often each was asked for
    ghost var uids: nat
    ghost var p10s: nat

    ghost predicate Valid()
      reads this, currentUid, p10Uid
    {
      && currentUid.Length == 10 && p10Uid.Length == 7 && currentUid != p10Uid && |sid| == 3 && |p10Id| == 2
      && p10Id[0] != NUL
      && currentUid[..] == sid + Numeral(uids % Limit(6), 6) + [NUL]
      && (if p10s == 0 then p10Uid[0] == NUL
          else p10Uid[..5] == p10Id + Numeral((p10s - 1) % Limit(3), 3))
    }

    /** `init_uid()`. */
    constructor (sid: string, p10Id: string)
      requires |sid| == 3 && |p10Id| == 2 && p10Id[0] != NUL
      ensures Valid() && fresh(currentUid) && fresh(p10Uid)
      ensures this.sid == sid && this.p10Id == p10Id && uids == 0 && p10s == 0
    {
      this.sid, this.p10Id, uids, p10s := sid, p10Id, 0, 0;
      currentUid := new char[10](i requires 0 <= i < 10 => if i < 3 then sid[i] else if i < 9 then 'A' else NUL);
      p10Uid := new char[7](_ => NUL);
      new;
      NumeralAs();
      assert currentUid[..] == sid + ['A', 'A', 'A', 'A', 'A', 'A'] + [NUL];
    }

    /** `generate_uid()`: call number `k` gives the server's identifier and the
        numeral of `k`. */
    method GenerateUid() returns (uid: string)
      requires Valid()
      modifies this`uids, currentUid
      ensures Valid() && uids == old(uids) + 1
      ensures uid == sid + Numeral(uids % Limit(6), 6)
    {
      hide Limit, Numeral, Next;
      ghost var k := uids % Limit(6);
      NumeralIsOdometer(k, 6);
      NextCounts(k, 6);
      assert currentUid[3..9] == Numeral(k, 6) && currentUid[..3] == sid && currentUid[9..] == [NUL];
      Advance(currentUid, 3, 8);
      ModNext(uids, Limit(6));
      uids := uids + 1;
      assert currentUid[..] == currentUid[..3] + currentUid[3..9] + currentUid[9..];
      uid := currentUid[..9];
      assert uid == currentUid[..3] + currentUid[3..9];
    }

    /** The first P10 numeric. */
    method FirstP10Uid() returns (uid: string)
      requires Valid() && p10s == 0
      modifies this`p10s, p10Uid
      ensures Valid() && p10s == 1 && uid == p10Id + Numeral(0 % Limit(3), 3)
    {
      hide Limit, Numeral;
      p10Uid[0], p10Uid[1], p10Uid[2], p10Uid[3], p10Uid[4], p10Uid[6] := p10Id[0], p10Id[1], 'A', 'A', 'A', NUL;
      NumeralAs();
      assert p10Uid[..5] == p10Id + ['A', 'A', 'A'];
      p10s := p10s + 1;
      uid := p10Uid[..5];
    }

    /** `generate_p10_uid(u)`: call number `k` gives the numeral of `k - 1`. */
    method GenerateP10Uid() returns (uid: string)
      requires Valid()
      modifies this`p10s, p10Uid
      ensures Valid() && p10s == old(p10s) + 1
      ensures uid == p10Id + Numeral((p10s - 1) % Limit(3), 3)
    {
      hide Limit, Numeral, Next;
      assert p10Uid[0] == p10Uid[..5][0];
      if p10Uid[0] == NUL {
        uid := FirstP10Uid();
        return;
      }
      ghost var k := (p10s - 1) % Limit(3);
      NumeralIsOdometer(k, 3);
      NextCounts(k, 3);
      assert p10Uid[2..5] == p10Uid[..5][2..] == Numeral(k, 3) && p10Uid[..2] == p10Uid[..5][..2] == p10Id;
      Advance(p10Uid, 2, 4);
      ModNext(p10s - 1, Limit(3));
      p10s := p10s + 1;
      uid := p10Uid[..5];
      assert uid == p10Uid[..2] + p10Uid[2..5];
    }
  }

  /** No two calls give the same uid, until 26 * 36^5 calls have been made. */
  lemma UidsDistinct(sid: string, j: nat, k: nat)
    requires j < 26 * 36 * 36 * 36 * 36 * 36 && k < 26 * 36 * 36 * 36 * 36 * 36 && j != k
    ensures j < Limit(6) && k < Limit(6) && sid + Numeral(j % Limit(6), 6) != sid + Numeral(k % Limit(6), 6)
  {
    Limits();
    hide Numeral, Limit;
    if sid + Numeral(j, 6) == sid + Numeral(k, 6) {
      assert (sid + Numeral(j, 6))[|sid|..] == Numeral(j, 6) && (sid + Numeral(k, 6))[|sid|..] == Numeral(k, 6);
      NumeralInjective(j, k, 6);
    }
  }

  lemma P10Distinct(p10Id: string, j: nat, k: nat)
    requires j < 26 * 36 * 36 && k < 26 * 36 * 36 && j != k
    ensures j < Limit(3) && k < Limit(3) && p10Id + Numeral(j % Limit(3), 3) != p10Id + Numeral(k % Limit(3), 3)
  {
    Limits();
    hide Numeral, Limit;
    if p10Id + Numeral(j, 3) == p10Id + Numeral(k, 3) {
      assert (p10Id + Numeral(j, 3))[|p10Id|..] == Numeral(j, 3) && (p10Id + Numeral(k, 3))[|p10Id|..] == Numeral(k, 3);
      NumeralInjective(j, k, 3);
    }
  }
}
