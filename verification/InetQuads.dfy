/** The IPv4 parser accepts exactly the dotted quads: four runs of digits of small value, with dots between. */
module InetQuads {
  import opened Wrappers
  import opened Snprintf
  import opened SnprintfFields
  import opened Inet

  /** A non-empty run of decimal digits of value `v`. */
  predicate Octet(p: string, v: byte) {
    p != "" && AllDigits(p, Dec) && DigitsValue(p, Dec) == v
  }

  /** Appending a digit cannot make the value smaller. */
  lemma ValueGrows(s: string)
    requires s != ""
    ensures DigitsValue(s, Dec) >= DigitsValue(s[..|s| - 1], Dec)
  {
  }

  /** Digits are accumulated, as long as the value fits a byte. */
  lemma {:induction false} Run4Digits(done: seq<byte>, d: string, rest: string)
    requires |done| <= 3 && AllDigits(d, Dec)
    ensures Run4(State4(done, 0, false), d + rest)
         == if DigitsValue(d, Dec) <= 255 then Run4(State4(done, DigitsValue(d, Dec), d != ""), rest) else None
    decreases |d|
  {
    if d == "" {
      assert d + rest == rest;
    } else {
      var d', c := d[..|d| - 1], d[|d| - 1];
      assert d + rest == d' + ([c] + rest);
      Run4Digits(done, d', [c] + rest);
      ValueGrows(d);
      assert IsDigitOf(c, Dec) && ([c] + rest)[1..] == rest;
    }
  }

  /** The leading digits of a text. */
  function Head(src: string): (k: nat)
    ensures k <= |src| && AllDigits(src[..k], Dec)
    ensures k < |src| ==> !IsDigit(src[k])
  {
    if src == "" || !IsDigit(src[0]) then 0
    else
      var k := Head(src[1..]);
      assert src[..k + 1] == [src[0]] + src[1..][..k];
      k + 1
  }

  /** The octets `v`, separated by dots. */
  predicate Quads(src: string, v: seq<byte>)
    decreases |v|
  {
    v != [] &&
    var k := Head(src);
    && Octet(src[..k], v[0])
    && if |v| == 1 then k == |src| else k < |src| && src[k] == '.' && Quads(src[k + 1..], v[1..])
  }

  /** What the end of the text decides. */
  function Result4(r: Option<State4>): Option<seq<byte>> {
    match r
    case None => None
    case Some(s) =>
      if |s.done| + (if s.saw then 1 else 0) != 4 then None
      else if s.saw then Some(s.done + [s.cur]) else Some(s.done)
  }

  lemma {:induction false} ResultExtends(s: State4, src: string)
    ensures var r := Result4(Run4(s, src)); r.Some? ==> s.done <= r.value
    decreases |src|
  {
    if src != "" {
      var t := Step4(s, src[0]);
      if t.Some? {
        ResultExtends(t.value, src[1..]);
      }
    }
  }

  lemma Run4Rest(s: State4, rest: string)
    requires |s.done| <= 3
    requires rest != "" ==> !IsDigit(rest[0])
    ensures rest == "" ==> Run4(s, rest) == Some(s)
    ensures rest != "" ==> Run4(s, rest) == if rest[0] == '.' && s.saw && |s.done| < 3 then Run4(State4(s.done + [s.cur], 0, false), rest[1..]) else None
  {
  }

  /** Parsing from the start of an octet. */
  lemma {:induction false} Result4IsQuads(done: seq<byte>, src: string, v: seq<byte>)
    requires |done| <= 3
    ensures Result4(Run4(State4(done, 0, false), src)) == Some(done + v) <==> |done| + |v| == 4 && Quads(src, v)
    decreases |src|
  {
    var k := Head(src);
    var head, rest := src[..k], src[k..];
    var value := DigitsValue(head, Dec);
    assert src == head + rest;
    Run4Digits(done, head, rest);
    hide AllDigits, DigitsValue, Run4, Head;
    var all := Run4(State4(done, 0, false), src);
    if value <= 255 {
      var s := State4(done, value, head != "");
      assert (done + v)[|done|..] == v && (done + [s.cur])[|done|..] == [s.cur];
      assert |v| == 1 ==> v == [v[0]];
      assert all == Run4(s, rest);
      Run4Rest(s, rest);
      if rest != "" && rest[0] == '.' && head != "" && |done| < 3 {
        var tail := src[k + 1..];
        assert rest[1..] == tail;
        Result4IsQuads(done + [value], tail, if v == [] then [] else v[1..]);
        ResultExtends(State4(done + [value], 0, false), tail);
        if v != [] && v[0] == value {
          assert done + v == (done + [value]) + v[1..];
        } else if v != [] {
          assert (done + v)[|done|] == v[0] && (done + [value])[|done|] == value;
        }
      }
    }
  }

  // ----- The quad as four texts -----

  lemma HeadOf(a: string, rest: string)
    requires AllDigits(a, Dec) && (rest != "" ==> !IsDigit(rest[0]))
    ensures Head(a + rest) == |a| && (a + rest)[..|a|] == a && (a + rest)[|a|..] == rest
    decreases |a|
  {
    if a == "" {
      assert a + rest == rest;
    } else {
      assert (a + rest)[1..] == a[1..] + rest && IsDigitOf(a[0], Dec);
      HeadOf(a[1..], rest);
    }
  }

  function QuadText(a: string, b: string, c: string, d: string): string {
    a + "." + b + "." + c + "." + d
  }

  lemma QuadTextRight(a: string, b: string, c: string, d: string)
    ensures QuadText(a, b, c, d) == a + "." + (b + "." + (c + "." + d))
  {
  }

  lemma QuadsLast(d: string, v: byte)
    requires Octet(d, v)
    ensures Quads(d, [v])
  {
    HeadOf(d, "");
    assert d + "" == d;
  }

  lemma QuadsCons(a: string, s: string, v: seq<byte>)
    requires |v| >= 2 && Octet(a, v[0]) && Quads(s, v[1..])
    ensures Quads(a + "." + s, v)
  {
    HeadOf(a, "." + s);
    assert a + "." + s == a + ("." + s) && (a + ("." + s))[|a| + 1..] == s;
  }

  lemma Pton4IsResult(src: string)
    ensures Pton4(src) == Result4(Run4(START4, src))
  {
  }

  lemma Pton4IsQuads(src: string, v: seq<byte>)
    ensures Pton4(src) == Some(v) <==> |v| == 4 && Quads(src, v)
  {
    hide Run4, Pton4, Quads, Result4;
    Pton4IsResult(src);
    Result4IsQuads([], src, v);
    assert [] + v == v;
  }

  /** Four octets with dots between are accepted and give their values. */
  lemma Pton4Accepts(a: string, b: string, c: string, d: string, v: seq<byte>)
    requires |v| == 4 && Octet(a, v[0]) && Octet(b, v[1]) && Octet(c, v[2]) && Octet(d, v[3])
    ensures Pton4(QuadText(a, b, c, d)) == Some(v)
  {
    hide Octet, Quads, Pton4, QuadText;
    var s2 := c + "." + d;
    var s1 := b + "." + s2;
    QuadsLast(d, v[3]);
    assert v[3..] == [v[3]] && v[2..][1..] == v[3..] && v[1..][1..] == v[2..];
    QuadsCons(c, d, v[2..]);
    QuadsCons(b, s2, v[1..]);
    QuadsCons(a, s1, v);
    QuadTextRight(a, b, c, d);
    Pton4IsQuads(QuadText(a, b, c, d), v);
  }

  lemma QuadsOne(src: string, v: seq<byte>)
    requires |v| == 1 && Quads(src, v)
    ensures Octet(src, v[0])
  {
    assert src[..|src|] == src;
  }

  lemma Uncons(src: string, v: seq<byte>) returns (a: string, s: string)
    requires |v| >= 2 && Quads(src, v)
    ensures src == a + "." + s && Octet(a, v[0]) && Quads(s, v[1..])
  {
    var k := Head(src);
    a, s := src[..k], src[k + 1..];
    assert src[k..k + 1] == ".";
  }

  /** Whatever is accepted is of this form. */
  lemma Pton4Only(src: string) returns (a: string, b: string, c: string, d: string)
    requires Pton4(src).Some?
    ensures var v := Pton4(src).value;
            && src == QuadText(a, b, c, d)
            && Octet(a, v[0]) && Octet(b, v[1]) && Octet(c, v[2]) && Octet(d, v[3])
  {
    hide Octet, Quads, QuadText;
    var v := Pton4(src).value;
    Pton4IsQuads(src, v);
    hide Pton4;
    var s1, s2, s3;
    a, s1 := Uncons(src, v);
    b, s2 := Uncons(s1, v[1..]);
    c, s3 := Uncons(s2, v[1..][1..]);
    d := s3;
    QuadsOne(s3, v[1..][1..][1..]);
    QuadTextRight(a, b, c, d);
  }
}
