/** What the fields of the numeric conversions look like (ISO C99, section
    7.19.6.1), and that they can be read back. */
module SnprintfFields {
  import opened CIntegers
  import opened Snprintf

  // ----- The reference layout -----

  function Max(a: int, b: int): int {
    if a > b then a else b
  }

  function Abs(v: int): nat {
    if v < 0 then -v else v
  }

  predicate IsInteger(c: char) {
    c == 'd' || c == 'u' || c == 'o' || c == 'x' || c == 'X'
  }

  /** Widths and precisions far enough from the end of the int range. */
  predicate Moderate(s: Spec) {
    s.width < 0x7fff_ff00 && s.prec < 0x7fff_ff00
  }

  /** The sign of a signed conversion, the base of an alternate hexadecimal one. */
  function Prefix(s: Spec, v: int): string {
    if s.conv == 'd' then
      if v < 0 then "-" else if !s.sign then "" else if s.space then " " else "+"
    else if s.alt && v != 0 && (s.conv == 'x' || s.conv == 'X') then ['0', s.conv]
    else ""
  }

  function Core(s: Spec, v: int): string {
    if Vanishes(s, v) then "" else Digits(Abs(v), BaseOf(s.conv))
  }

  /** At least as many digits as the precision, by default one; an alternate octal
      number starts with a 0. */
  function Padded(s: Spec, core: string): string {
    var body := Rep('0', (if s.precise then s.prec else 1) - |core|) + core;
    if s.alt && s.conv == 'o' && (body == "" || body[0] != '0') then "0" + body else body
  }

  /** Value 0 with precision 0 has no digits. */
  function Body(s: Spec, v: int): string {
    Padded(s, Core(s, v))
  }

  /** '-' puts the padding behind, otherwise '0' without a precision puts zeros
      behind the prefix, otherwise blanks go in front. */
  function Layout(s: Spec, pre: string, body: string): string {
    var gap := s.width - (|pre| + |body|);
    if s.left then pre + body + Rep(' ', gap)
    else if s.zero && !s.precise then pre + Rep('0', gap) + body
    else Rep(' ', gap) + pre + body
  }

  function Reference(s: Spec, v: int): string {
    Layout(s, Prefix(s, v), Body(s, v))
  }

  // ----- Digits -----

  predicate IsDigitOf(c: char, b: Base) {
    '0' <= c <= '9' || (b == Hex && 'a' <= c <= 'f') || (b == HexUpper && 'A' <= c <= 'F')
  }

  predicate AllDigits(s: string, b: Base) {
    forall i :: 0 <= i < |s| ==> IsDigitOf(s[i], b)
  }

  lemma {:induction false} DigitsShape(v: nat, b: Base)
    ensures AllDigits(Digits(v, b), b)
    ensures Digits(v, b)[0] == '0' <==> v == 0
    decreases v
  {
    if Quot(v, b) != 0 {
      DigitsShape(Quot(v, b), b);
    }
  }

  function Power(b: Base, n: nat): nat {
    if n == 0 then 1
    else match b
      case Oct => 8 * Power(b, n - 1)
      case Dec => 10 * Power(b, n - 1)
      case _ => 16 * Power(b, n - 1)
  }

  /** No 64-bit number has more than 22 digits. */
  lemma {:induction false} DigitsLength(v: nat, b: Base, n: nat)
    requires v < Power(b, n) && n > 0
    ensures |Digits(v, b)| <= n
    decreases n
  {
    if Quot(v, b) != 0 {
      DigitsLength(Quot(v, b), b, n - 1);
    }
  }

  // ----- What the code lays out -----

  /** The prefix follows the value of the argument, the digits and their sign the
      short that is printed for the modifier 'h'. */
  function FieldPrefix(s: Spec, a: Arg): string {
    Lead(s, Value(s, a)) + if Printed(s, a) < 0 then "-" else ""
  }

  function FieldCore(s: Spec, a: Arg): string {
    if Vanishes(s, Value(s, a)) then "" else Digits(Abs(Printed(s, a)), BaseOf(s.conv))
  }

  function FieldBody(s: Spec, a: Arg): string {
    Padded(s, FieldCore(s, a))
  }

  lemma PrintedRange(s: Spec, a: Arg)
    requires IsInteger(s.conv)
    ensures Abs(Printed(s, a)) < 0x1_0000_0000_0000_0000
    ensures s.conv != 'd' ==> Value(s, a) >= 0 && Printed(s, a) >= 0
    ensures Value(s, a) == 0 ==> Printed(s, a) == 0
  {
  }

  /** From `i`, a minus sign at most, then digits. */
  lemma SkipPrefix(text: string, i: nat, pre: string, d: string, b: Base)
    requires text == pre + d && i <= |pre| <= i + 1
    requires |pre| == i + 1 ==> pre[i] == '-'
    requires AllDigits(d, b)
    ensures Skip(text, i) == |pre|
  {
    if d != "" {
      assert text[|pre|] == d[0] && IsDigitOf(d[0], b);
      if |d| > 1 {
        assert text[|pre| + 1] == d[1] && IsDigitOf(d[1], b);
      }
    }
  }

  /** The host's text splits at the point found by the code. */
  lemma TextParts(s: Spec, a: Arg)
    requires IsInteger(s.conv)
    ensures var (text, ind) := NumberText(s, a);
            text == FieldPrefix(s, a) + FieldCore(s, a) && ind == |FieldPrefix(s, a)|
  {
    PrintedRange(s, a);
    hide Value, Printed, Digits, Lead, Skip;
    var p := Printed(s, a);
    var lead, pre := Lead(s, Value(s, a)), FieldPrefix(s, a);
    assert lead + "" == lead;
    if !Vanishes(s, Value(s, a)) {
      var d := Digits(Abs(p), BaseOf(s.conv));
      DigitsShape(Abs(p), BaseOf(s.conv));
      assert lead + Signed(p, BaseOf(s.conv)) == pre + d;
      SkipPrefix(pre + d, |lead|, pre, d, BaseOf(s.conv));
    }
  }

  /** The zeros of the precision and the digits make up the body. */
  lemma BodyParts(s: Spec, text: string, ind: nat, core: string)
    requires ind <= |text| && text[ind..] == core
    ensures Padded(s, core) == Rep('0', EffectivePrec(s, text, ind) - |core|) + core
  {
    if core != "" {
      assert text[ind] == core[0];
    }
    var n := (if s.precise then s.prec else 1) - |core|;
    var body := Rep('0', n) + core;
    if n > 0 {
      assert body[0] == Rep('0', n)[0];
    } else {
      assert body == core;
      assert "0" + core == Rep('0', 1) + core;
    }
  }

  lemma EffectivePrecIgnoresZero(s: Spec, text: string, ind: nat)
    requires ind <= |text|
    ensures EffectivePrec(ZeroOff(s), text, ind) == EffectivePrec(s, text, ind)
  {
  }

  lemma {:induction false} RepSplit(c: char, m: nat, n: nat)
    ensures Rep(c, m) + Rep(c, n) == Rep(c, m + n)
  {
  }

  /** Rendering a text cut in two with zeros between. */
  lemma RenderParts(it: Item, pre: string, core: string)
    requires it.text == pre + core && it.ind == |pre|
    requires |pre| + |core| + it.zeros < 0x8000_0000 && it.spec.width < 0x8000_0000
    ensures var gap := it.spec.width - (|pre| + it.zeros + |core|);
            Render(it) == (if it.spec.left then "" else Rep(if it.spec.zero then '0' else ' ', gap))
                          + (pre + Rep('0', it.zeros) + core)
                          + (if it.spec.left then Rep(' ', gap) else "")
  {
    assert it.text[..it.ind] == pre && it.text[it.ind..] == core && it.text[0..] == it.text;
    assert Rep('0', 0) == "";
    hide Rep;
    var l, r, z := Left(it), Right(it), Rep('0', it.zeros);
    assert Gap(it) == it.spec.width - (|pre| + it.zeros + |core|);
    if it.zeros == 0 {
      assert Middle(it) == "" && Last(it) == it.text && z == "";
      hide Left, Right, Middle, Last;
      assert l + "" + it.text + r == l + (pre + "" + core) + r;
    } else {
      assert Middle(it) == pre + z && Last(it) == core;
      hide Left, Right, Middle, Last;
      assert l + (pre + z) + core + r == l + (pre + z + core) + r;
    }
  }

  lemma PowerStep(b: Base, n: nat, p: nat)
    requires Power(b, n) == p
    ensures Power(b, n + 2) == Radix(b) * Radix(b) * p
    ensures Power(b, n + 4) == Radix(b) * Radix(b) * Radix(b) * Radix(b) * p
  {
    assert Power(b, n + 1) == Radix(b) * p;
    assert Power(b, n + 2) == Radix(b) * (Radix(b) * p);
    assert Power(b, n + 3) == Radix(b) * (Radix(b) * (Radix(b) * p));
  }

  lemma PowerBig(b: Base)
    ensures Power(b, 22) > 0x1_0000_0000_0000_0000
  {
    PowerStep(Oct, 0, 1);
    assert Power(Oct, 4) == 4096;
    PowerStep(Oct, 4, 4096);
    assert Power(Oct, 8) == 16777216;
    PowerStep(Oct, 8, 16777216);
    PowerStep(Oct, 12, 68719476736);
    PowerStep(Oct, 16, 281474976710656);
    PowerStep(Oct, 20, 1152921504606846976);
    PowerStep(Dec, 0, 1);
    PowerStep(Dec, 4, 10000);
    PowerStep(Dec, 8, 100000000);
    PowerStep(Dec, 12, 1000000000000);
    PowerStep(Dec, 16, 10000000000000000);
    PowerStep(Dec, 20, 100000000000000000000);
    PowerStep(b, 0, 1);
    if b == Hex || b == HexUpper {
      PowerStep(b, 4, 65536);
      PowerStep(b, 8, 4294967296);
      PowerStep(b, 12, 281474976710656);
      PowerStep(b, 16, 18446744073709551616);
      PowerStep(b, 20, 1208925819614629174706176);
    }
  }

  lemma CoreShort(s: Spec, a: Arg)
    requires IsInteger(s.conv)
    ensures |FieldCore(s, a)| <= 22 && |FieldPrefix(s, a)| <= 2
  {
    hide Digits;
    PrintedRange(s, a);
    hide Value, Printed;
    PowerBig(BaseOf(s.conv));
    DigitsLength(Abs(Printed(s, a)), BaseOf(s.conv), 22);
  }

  lemma ZerosAre(s: Spec, text: string, ind: nat, z: nat)
    requires Moderate(s) && ind <= |text| < 0x80
    requires z == if EffectivePrec(s, text, ind) > |text| - ind then EffectivePrec(s, text, ind) - (|text| - ind) else 0
    ensures z < 0x7fff_ff00 + 1
    ensures var gap := s.width - (|text| + z);
            ZeroCount(ZeroOff(s), text, ind) == if !s.left && s.zero && !s.precise && gap > 0 then z + gap else z
  {
    EffectivePrecIgnoresZero(s, text, ind);
  }

  /** The same field written in two ways. */
  lemma Assemble(s: Spec, pre: string, core: string, z: nat)
    ensures var gap, zero := s.width - (|pre| + |core| + z), s.zero && !s.precise;
            var more := if zero && !s.left && gap > 0 then gap else 0;
            (if s.left then "" else Rep(if zero then '0' else ' ', gap - more))
            + (pre + Rep('0', z + more) + core)
            + (if s.left then Rep(' ', gap - more) else "")
            == Layout(s, pre, Rep('0', z) + core)
  {
    var gap, zero := s.width - (|pre| + |core| + z), s.zero && !s.precise;
    var zs, body := Rep('0', z), Rep('0', z) + core;
    assert s.width - (|pre| + |body|) == gap;
    if s.left {
      assert "" + (pre + zs + core) + Rep(' ', gap) == pre + body + Rep(' ', gap);
    } else if !zero {
      assert Rep(' ', gap) + (pre + zs + core) + "" == Rep(' ', gap) + pre + body;
    } else if gap > 0 {
      RepSplit('0', gap, z);
      assert Rep('0', 0) == "";
      assert "" + (pre + (Rep('0', gap) + zs) + core) + "" == pre + Rep('0', gap) + body;
    } else {
      assert Rep('0', gap) == "";
      assert "" + (pre + zs + core) + "" == pre + "" + body;
    }
  }

  lemma LayoutFrom(s: Spec, pre: string, core: string, it: Item, z: nat)
    requires Moderate(s)
    requires it.text == pre + core && it.ind == |pre| && |it.text| < 0x80
    requires it.spec == ZeroOff(s) && it.zeros == ZeroCount(ZeroOff(s), it.text, it.ind)
    requires z == if EffectivePrec(s, it.text, it.ind) > |core| then EffectivePrec(s, it.text, it.ind) - |core| else 0
    ensures Render(it) == Layout(s, pre, Rep('0', z) + core)
  {
    hide Render, EffectivePrec, ZeroCount, Rep, Layout;
    ZerosAre(s, it.text, it.ind, z);
    var gap, zero := s.width - (|it.text| + z), s.zero && !s.precise;
    var more := if zero && !s.left && gap > 0 then gap else 0;
    assert it.zeros == z + more && it.spec.zero == zero && it.spec.left == s.left;
    assert it.spec.width - (|pre| + it.zeros + |core|) == gap - more;
    hide ZeroOff;
    RenderParts(it, pre, core);
    Assemble(s, pre, core, z);
  }

  /** Every numeric field is laid out as the standard says, with the code's prefix
      and digits. */
  lemma FieldLayout(s: Spec, a: Arg)
    requires IsInteger(s.conv) && Moderate(s)
    ensures Render(NumericItem(s, a)) == Layout(s, FieldPrefix(s, a), FieldBody(s, a))
  {
    hide FieldPrefix, FieldCore, Padded, Layout, Render, NumberText, EffectivePrec, ZeroCount, Rep;
    var pre, core := FieldPrefix(s, a), FieldCore(s, a);
    var it := NumericItem(s, a);
    TextParts(s, a);
    CoreShort(s, a);
    assert it.text == pre + core && it.text[|pre|..] == core;
    BodyParts(s, it.text, it.ind, core);
    var need := EffectivePrec(s, it.text, it.ind) - |core|;
    var z := if need > 0 then need else 0;
    assert Rep('0', need) == Rep('0', z);
    LayoutFrom(s, pre, core, it, z);
  }

  /** The length of a field: the width, unless the number needs more. */
  lemma FieldLength(s: Spec, a: Arg)
    requires IsInteger(s.conv) && Moderate(s)
    ensures |Render(NumericItem(s, a))| == Max(s.width, |FieldPrefix(s, a)| + |FieldBody(s, a)|)
  {
    hide FieldPrefix, FieldBody, Render, NumericItem;
    FieldLayout(s, a);
  }

  // ----- The layout is the reference -----

  /** A zero that hides behind a nonzero argument loses neither a base prefix nor
      its digit to the precision 0. */
  predicate ZeroOk(s: Spec, a: Arg) {
    Value(s, a) != 0 && Printed(s, a) == 0 ==>
      && !(s.alt && (s.conv == 'x' || s.conv == 'X'))
      && (s.precise && s.prec == 0 ==> s.alt && s.conv == 'o')
  }

  /** A sign that differs from the argument's does not show: no sign is asked for,
      or a blank that the padding in front hides. */
  predicate SignOk(s: Spec, a: Arg) {
    var p := Printed(s, a);
    s.conv == 'd' && s.sign && (Value(s, a) < 0) != (p < 0) ==>
      s.space && !s.left && !(s.zero && !s.precise) && s.width > (if p < 0 then 1 else 0) + |Body(s, p)|
  }

  /** A character that is no padding stands in the field exactly if it stands in
      prefix or body. */
  lemma LayoutHas(s: Spec, pre: string, body: string, c: char)
    requires c != ' ' && (c == '0' ==> s.precise)
    ensures c in Layout(s, pre, body) <==> c in pre || c in body
  {
    var gap := s.width - (|pre| + |body|);
    assert c !in Rep(' ', gap) && (c != '0' ==> c !in Rep('0', gap));
    hide Rep;
  }

  lemma ZeroStart(pre: string, zeros: string, body: string)
    requires pre + body != "" && (pre + body)[0] != ' ' && forall i :: 0 <= i < |zeros| ==> zeros[i] == '0'
    ensures (pre + zeros + body)[0] != ' '
  {
  }

  /** A blank at the start of the prefix is hidden exactly by blanks in front. */
  lemma BlankHidden(s: Spec, pre: string, body: string)
    requires pre + body != "" && (pre + body)[0] != ' '
    ensures Layout(s, " " + pre, body) == Layout(s, pre, body) <==>
            !s.left && !(s.zero && !s.precise) && s.width > |pre| + |body|
  {
    var gap := s.width - (|pre| + |body|);
    var f, g := Layout(s, " " + pre, body), Layout(s, pre, body);
    if s.left {
      assert f[0] == ' ' && g[0] == (pre + body)[0];
    } else if s.zero && !s.precise {
      assert f[0] == ' ';
      ZeroStart(pre, Rep('0', gap), body);
    } else if gap > 0 {
      RepSplit(' ', gap - 1, 1);
      assert Rep(' ', 1) == " ";
      hide Rep;
      assert Rep(' ', gap - 1) + (" " + pre) + body == (Rep(' ', gap - 1) + " ") + pre + body;
    } else {
      assert |f| == |g| + 1;
    }
  }

  function Times(b: Base, v: nat): nat {
    match b
    case Oct => 8 * v
    case Dec => 10 * v
    case _ => 16 * v
  }

  function DigitValue(c: char): nat {
    if '0' <= c <= '9' then c as int - '0' as int
    else if 'a' <= c <= 'f' then c as int - 'a' as int + 10
    else if 'A' <= c <= 'F' then c as int - 'A' as int + 10
    else 0
  }

  function DigitsValue(s: string, b: Base): nat {
    if s == "" then 0 else Times(b, DigitsValue(s[..|s| - 1], b)) + DigitValue(s[|s| - 1])
  }

  lemma {:induction false} LeadingZeros(n: int, s: string, b: Base)
    ensures DigitsValue(Rep('0', n) + s, b) == DigitsValue(s, b)
    decreases |s|, if n > 0 then n else 0
  {
    var t := Rep('0', n) + s;
    if s != "" {
      assert t[..|t| - 1] == Rep('0', n) + s[..|s| - 1];
      LeadingZeros(n, s[..|s| - 1], b);
    } else if n > 0 {
      assert t[..|t| - 1] == Rep('0', n - 1) + "";
      LeadingZeros(n - 1, "", b);
    } else {
      assert t == s;
    }
  }

  lemma PaddedIs(s: Spec, core: string)
    requires AllDigits(core, BaseOf(s.conv))
    ensures AllDigits(Padded(s, core), BaseOf(s.conv))
    ensures Padded(s, core) == "" <==> core == "" && s.precise && s.prec == 0 && !(s.alt && s.conv == 'o')
    ensures DigitsValue(Padded(s, core), BaseOf(s.conv)) == DigitsValue(core, BaseOf(s.conv))
  {
    hide DigitsValue;
    var b := BaseOf(s.conv);
    var n := (if s.precise then s.prec else 1) - |core|;
    LeadingZeros(n, core, b);
    var body := Rep('0', n) + core;
    assert AllDigits(body, b);
    assert Rep('0', 1) == "0";
    LeadingZeros(1, body, b);
  }

  lemma BodyDigits(s: Spec, v: int)
    ensures AllDigits(Body(s, v), BaseOf(s.conv))
    ensures Body(s, v) == "" <==> Vanishes(s, v) && !(s.alt && s.conv == 'o')
  {
    DigitsShape(Abs(v), BaseOf(s.conv));
    hide Digits, DigitsValue, Padded;
    PaddedIs(s, Core(s, v));
  }

  lemma BodyDigitsOnly(s: Spec, v: int, c: char)
    requires IsInteger(s.conv) && (c == '+' || c == '-' || c == ' ' || c == 'x' || c == 'X')
    ensures c !in Body(s, v)
    ensures Body(s, v) == "" <==> Vanishes(s, v) && !(s.alt && s.conv == 'o')
  {
    BodyDigits(s, v);
    hide Body;
  }

  /** The body differs from the reference's in one case only. */
  lemma BodyIs(s: Spec, a: Arg)
    requires IsInteger(s.conv)
    ensures Vanishes(s, Printed(s, a)) && Value(s, a) != 0 ==> FieldBody(s, a) == "0"
    ensures !(Vanishes(s, Printed(s, a)) && Value(s, a) != 0) ==> FieldBody(s, a) == Body(s, Printed(s, a))
    ensures Vanishes(s, Printed(s, a)) ==> Body(s, Printed(s, a)) == if s.alt && s.conv == 'o' then "0" else ""
  {
    PrintedRange(s, a);
    hide Value, Printed;
    assert Rep('0', -1) == "" && "" + "0" == "0" && "0" + "" == "0" && Rep('0', 0) + "" == "";
  }

  lemma PrefixIs(s: Spec, a: Arg)
    requires IsInteger(s.conv) && ZeroOk(s, a)
    requires s.conv == 'd' && s.sign ==> (Value(s, a) < 0 <==> Printed(s, a) < 0)
    ensures FieldPrefix(s, a) == Prefix(s, Printed(s, a))
  {
    PrintedRange(s, a);
    hide Value, Printed;
    var lead := Lead(s, Value(s, a));
    assert lead + "" == lead && "" + "-" == "-";
  }

  lemma ZeroShows(s: Spec, a: Arg)
    requires IsInteger(s.conv) && !ZeroOk(s, a)
    ensures Layout(s, FieldPrefix(s, a), FieldBody(s, a)) != Reference(s, Printed(s, a))
  {
    hide Value, Printed, Body, FieldBody, Layout;
    BodyIs(s, a);
    var pre, body := FieldPrefix(s, a), FieldBody(s, a);
    if s.alt && (s.conv == 'x' || s.conv == 'X') {
      BodyDigitsOnly(s, 0, s.conv);
      assert pre[1] == s.conv;
      LayoutHas(s, pre, body, s.conv);
      LayoutHas(s, Prefix(s, 0), Body(s, 0), s.conv);
    } else {
      assert body[0] == '0';
      LayoutHas(s, pre, body, '0');
      LayoutHas(s, Prefix(s, 0), Body(s, 0), '0');
    }
  }

  lemma SignShows(s: Spec, a: Arg)
    requires s.conv == 'd' && s.sign && (Value(s, a) < 0) != (Printed(s, a) < 0) && ZeroOk(s, a)
    ensures Layout(s, FieldPrefix(s, a), FieldBody(s, a)) == Reference(s, Printed(s, a)) <==> SignOk(s, a)
  {
    hide Value, Printed, Body, FieldBody, Layout;
    BodyIs(s, a);
    var p := Printed(s, a);
    var pre, body := FieldPrefix(s, a), Body(s, p);
    var minus := if p < 0 then "-" else "";
    if s.space {
      BodyDigitsOnly(s, p, ' ');
      assert body != "" && body[0] in body;
      assert (minus + body)[0] == if p < 0 then '-' else body[0];
      assert " " + "" == " " && "" + "" == "";
      BlankHidden(s, minus, body);
    } else {
      BodyDigitsOnly(s, p, '+');
      assert p < 0 ==> pre[0] == '+';
      LayoutHas(s, pre, body, '+');
      LayoutHas(s, Prefix(s, p), body, '+');
    }
  }

  /** The field is that of the number printed if and only if sign and zero of the
      argument do not show. */
  lemma LayoutIffReference(s: Spec, a: Arg)
    requires IsInteger(s.conv) && Moderate(s)
    ensures Render(NumericItem(s, a)) == Reference(s, Printed(s, a)) <==> ZeroOk(s, a) && SignOk(s, a)
  {
    hide Render, NumericItem, Value, Printed, Body, FieldBody, Layout;
    FieldLayout(s, a);
    PrintedRange(s, a);
    BodyIs(s, a);
    var v, p := Value(s, a), Printed(s, a);
    if v != 0 && p == 0 && !ZeroOk(s, a) {
      ZeroShows(s, a);
    } else if s.conv == 'd' && s.sign && (v < 0) != (p < 0) {
      SignShows(s, a);
    } else {
      PrefixIs(s, a);
    }
  }

  /** In particular whenever the argument fits a short, or no 'h' is given. */
  lemma LayoutIsReference(s: Spec, a: Arg)
    requires IsInteger(s.conv) && Moderate(s)
    requires (Value(s, a) < 0 <==> Printed(s, a) < 0) && (Value(s, a) == 0 <==> Printed(s, a) == 0)
    ensures Render(NumericItem(s, a)) == Reference(s, Printed(s, a))
  {
    hide Render, NumericItem, Value, Printed, Body, Reference;
    LayoutIffReference(s, a);
  }

  lemma PartsOfTwoSigns(s: Spec, a: Arg)
    requires s.conv == 'd' && s.mod == 'h' && s.sign && !s.space && !s.precise && a.num == 65535
    ensures Printed(s, a) == -1 && FieldPrefix(s, a) == "+-" && FieldBody(s, a) == Body(s, -1) == "1"
  {
    hide Rep;
    assert Value(s, a) == 65535 && Printed(s, a) == -1;
    hide Value, Printed;
    var one := Digits(1, Dec);
    assert one == "1" && FieldCore(s, a) == one && Core(s, -1) == one;
    hide Digits, FieldCore, Core;
    assert Rep('0', 0) == "" && "" + "1" == "1" && "+" + "-" == "+-";
  }

  /** Without a width a field is prefix and digits. */
  lemma NarrowLayout(s: Spec, pre: string, body: string)
    requires s.width <= |pre| + |body|
    ensures Layout(s, pre, body) == pre + body
  {
    var gap := s.width - (|pre| + |body|);
    assert Rep(' ', gap) == "" && Rep('0', gap) == "";
    hide Rep;
    assert pre + "" == pre && "" + pre == pre && pre + body + "" == pre + body;
  }

  lemma TwoSignsAt(s: Spec, a: Arg)
    requires s.conv == 'd' && s.mod == 'h' && s.sign && !s.space && !s.precise && s.width == 0 && Moderate(s)
    requires a.num == 65535
    ensures Render(NumericItem(s, a)) == "+-1" && Reference(s, Printed(s, a)) == "-1"
  {
    hide Render, NumericItem, FieldPrefix, FieldBody, Body, Value, Printed, Layout;
    FieldLayout(s, a);
    PartsOfTwoSigns(s, a);
    NarrowLayout(s, "+-", "1");
    NarrowLayout(s, "-", "1");
    assert "+-" + "1" == "+-1" && "-" + "1" == "-1";
  }

  /** `snprintf("%+hd", 65535)` prints two signs. */
  lemma TwoSigns(ap: Args)
    requires ap(0).num == 65535
    ensures Format("%+hd", 0, ap, 0) == "+-1"
  {
    var fmt := "%+hd";
    var s := PLAIN.(sign := true, space := false);
    assert Flags(fmt, PLAIN, 1) == Flags(fmt, s, 2) == (s, 2);
    hide Flags;
    var c := Directive(fmt, 0, ap, 0);
    assert c == Cursor(s.(mod := 'h', conv := 'd'), 3, 0);
    hide Render, NumericItem, Directive;
    assert Format(fmt, 4, ap, 1) == "";
    TwoSignsAt(c.spec, ap(0));
    assert ItemOf(c.spec, 'd', ap(0)) == NumericItem(c.spec, ap(0));
    assert "+-1" + "" == "+-1";
  }

  // ----- Reading a field back -----

  datatype Reading = NoNumber | Number(v: int)

  function TrimLeft(s: string): string {
    if s != "" && s[0] == ' ' then TrimLeft(s[1..]) else s
  }

  function TrimRight(s: string): string {
    if s != "" && s[|s| - 1] == ' ' then TrimRight(s[..|s| - 1]) else s
  }

  /** An optional sign, an optional base prefix for hexadecimal, and at least one
      digit and nothing else. */
  function ReadTrimmed(t: string, conv: char): Reading {
    var signed := t != "" && (t[0] == '-' || t[0] == '+');
    var u := if signed then t[1..] else t;
    var based := (conv == 'x' || conv == 'X') && |u| > 1 && u[0] == '0' && (u[1] == 'x' || u[1] == 'X');
    var w := if based then u[2..] else u;
    if w == "" || !AllDigits(w, BaseOf(conv)) then NoNumber
    else if signed && t[0] == '-' then Number(-(DigitsValue(w, BaseOf(conv)) as int))
    else Number(DigitsValue(w, BaseOf(conv)))
  }

  /** Blanks around a number are dropped. */
  function Read(field: string, conv: char): Reading {
    ReadTrimmed(TrimRight(TrimLeft(field)), conv)
  }

  lemma {:induction false} TrimLeftBlanks(m: int, t: string)
    requires t == "" || t[0] != ' '
    ensures TrimLeft(Rep(' ', m) + t) == t
    decreases if m > 0 then m else 0
  {
    if m > 0 {
      assert (Rep(' ', m) + t)[1..] == Rep(' ', m - 1) + t;
      TrimLeftBlanks(m - 1, t);
    } else {
      assert Rep(' ', m) + t == t;
    }
  }

  lemma {:induction false} TrimRightBlanks(t: string, n: int)
    requires t == "" || t[|t| - 1] != ' '
    ensures TrimRight(t + Rep(' ', n)) == t
    decreases if n > 0 then n else 0
  {
    if n > 0 {
      assert (t + Rep(' ', n))[..|t| + n - 1] == t + Rep(' ', n - 1);
      TrimRightBlanks(t, n - 1);
    } else {
      assert t + Rep(' ', n) == t;
    }
  }

  function Pos(n: int): nat {
    if n > 0 then n else 0
  }

  lemma RepBoth(c: char, m: int, n: int)
    ensures Rep(c, m) + Rep(c, n) == Rep(c, Pos(m) + Pos(n))
  {
  }

  lemma TrimBlanks(m: int, t: string, n: int)
    requires t == "" || (t[0] != ' ' && t[|t| - 1] != ' ')
    ensures TrimRight(TrimLeft(Rep(' ', m) + t + Rep(' ', n))) == t
  {
    hide TrimLeft, TrimRight, Rep;
    if t == "" {
      RepBoth(' ', m, n);
      var k := Pos(m) + Pos(n);
      assert Rep(' ', m) + t + Rep(' ', n) == Rep(' ', k) + "";
      TrimLeftBlanks(k, "");
      TrimRightBlanks("", 0);
      assert "" + Rep(' ', 0) == "";
    } else {
      var u := t + Rep(' ', n);
      assert Rep(' ', m) + t + Rep(' ', n) == Rep(' ', m) + u;
      assert u[0] == t[0];
      TrimLeftBlanks(m, u);
      TrimRightBlanks(t, n);
    }
  }

  lemma {:induction false} DigitsReadBack(v: nat, b: Base)
    ensures DigitsValue(Digits(v, b), b) == v
    decreases v
  {
    var s, last := Digits(v, b), DigitChar(Rem(v, b), b);
    assert DigitValue(last) == Rem(v, b);
    if Quot(v, b) == 0 {
      assert s == [last] && s[..0] == "";
      assert DigitsValue(s, b) == Times(b, 0) + DigitValue(last);
    } else {
      var front := Digits(Quot(v, b), b);
      assert s == front + [last] && s[..|s| - 1] == front && s[|s| - 1] == last;
      DigitsReadBack(Quot(v, b), b);
    }
  }

  /** What may stand in front of the digits, blanks apart. */
  predicate Leads(pre: string, body: string, conv: char) {
    || pre == "" || pre == "-" || pre == "+"
    || ((conv == 'x' || conv == 'X') && pre == ['0', conv] && body != "")
  }

  /** Digits cannot be taken for a sign or a base prefix. */
  lemma DigitsStart(body: string, b: Base)
    requires AllDigits(body, b)
    ensures body != "" ==> body[0] != '-' && body[0] != '+'
    ensures |body| > 1 ==> body[1] != 'x' && body[1] != 'X'
  {
    assert body != "" ==> IsDigitOf(body[0], b);
    assert |body| > 1 ==> IsDigitOf(body[1], b);
  }

  lemma ReadTrimmedParts(pre: string, body: string, conv: char)
    requires IsInteger(conv) && AllDigits(body, BaseOf(conv)) && Leads(pre, body, conv)
    ensures ReadTrimmed(pre + body, conv)
         == if body == "" then NoNumber
            else if pre == "-" then Number(-(DigitsValue(body, BaseOf(conv)) as int))
            else Number(DigitsValue(body, BaseOf(conv)))
  {
    DigitsStart(body, BaseOf(conv));
    hide DigitsValue, AllDigits;
    var t := pre + body;
    assert t[|pre|..] == body;
    if pre == "" {
      assert t == body;
    } else if pre == "-" || pre == "+" {
      assert t[0] == pre[0] && t[1..] == body;
    } else {
      assert t[0] == '0' && t[1] == conv && t[2..] == body;
    }
  }

  lemma Unblank(pre: string, body: string, conv: char)
    requires AllDigits(body, BaseOf(conv)) && Leads(pre, body, conv)
    ensures var t := pre + body; t == "" || (t[0] != ' ' && t[|t| - 1] != ' ')
  {
    var t := pre + body;
    if body != "" {
      assert IsDigitOf(body[0], BaseOf(conv)) && IsDigitOf(body[|body| - 1], BaseOf(conv));
      assert t[|t| - 1] == body[|body| - 1];
    } else {
      assert t == pre;
    }
  }

  /** Digits behind a prefix, in blanks. */
  lemma ReadParts(m: int, pre: string, body: string, n: int, conv: char)
    requires IsInteger(conv) && AllDigits(body, BaseOf(conv)) && Leads(pre, body, conv)
    ensures Read(Rep(' ', m) + (pre + body) + Rep(' ', n), conv)
         == if body == "" then NoNumber
            else if pre == "-" then Number(-(DigitsValue(body, BaseOf(conv)) as int))
            else Number(DigitsValue(body, BaseOf(conv)))
  {
    hide AllDigits, ReadTrimmed, TrimLeft, TrimRight, Rep, DigitsValue;
    Unblank(pre, body, conv);
    TrimBlanks(m, pre + body, n);
    ReadTrimmedParts(pre, body, conv);
  }

  lemma ReadNothing(b: Base)
    ensures DigitsValue("", b) == 0
  {
  }

  lemma FieldDigits(s: Spec, a: Arg)
    requires IsInteger(s.conv)
    ensures AllDigits(FieldBody(s, a), BaseOf(s.conv))
    ensures FieldBody(s, a) == "" <==> Vanishes(s, Value(s, a)) && !(s.alt && s.conv == 'o')
    ensures DigitsValue(FieldBody(s, a), BaseOf(s.conv)) == Abs(Printed(s, a))
  {
    var p, b := Printed(s, a), BaseOf(s.conv);
    PrintedRange(s, a);
    DigitsShape(Abs(p), b);
    DigitsReadBack(Abs(p), b);
    ReadNothing(b);
    hide Digits, DigitsValue, Padded, Value, Printed;
    PaddedIs(s, FieldCore(s, a));
  }

  /** A field is blanks, prefix, digits, blanks. */
  lemma LayoutShape(s: Spec, pre: string, body: string, m: int, digits: string, n: int)
    requires var gap := s.width - (|pre| + |body|);
             && m == (if s.left || (s.zero && !s.precise) then 0 else gap)
             && n == (if s.left then gap else 0)
             && digits == (if !s.left && s.zero && !s.precise then Rep('0', gap) + body else body)
    ensures Layout(s, pre, body) == Rep(' ', m) + (pre + digits) + Rep(' ', n)
  {
    assert Rep(' ', 0) == "";
    var gap := s.width - (|pre| + |body|);
    if s.left {
      assert "" + (pre + body) + Rep(' ', gap) == pre + body + Rep(' ', gap);
    } else if s.zero && !s.precise {
      assert "" + (pre + (Rep('0', gap) + body)) + "" == pre + Rep('0', gap) + body;
    } else {
      assert Rep(' ', gap) + (pre + body) + "" == Rep(' ', gap) + pre + body;
    }
  }

  lemma PaddedDigits(gap: int, body: string, b: Base)
    requires AllDigits(body, b)
    ensures AllDigits(Rep('0', gap) + body, b)
  {
  }

  lemma BlankPrefix(m: int, pre: string, digits: string, n: int)
    ensures Rep(' ', m) + ((" " + pre) + digits) + Rep(' ', n) == Rep(' ', Pos(m) + 1) + (pre + digits) + Rep(' ', n)
  {
    RepBoth(' ', m, 1);
    assert Rep(' ', 1) == " ";
    hide Rep;
    assert Rep(' ', m) + ((" " + pre) + digits) == (Rep(' ', m) + Rep(' ', 1)) + (pre + digits);
  }

  /** Reading a field: a blank in the prefix does not count. */
  lemma LayoutReads(s: Spec, blank: bool, pre: string, body: string)
    requires IsInteger(s.conv) && AllDigits(body, BaseOf(s.conv)) && Leads(pre, body, s.conv)
    requires body == "" ==> s.precise
    ensures Read(Layout(s, (if blank then " " else "") + pre, body), s.conv)
         == if body == "" then NoNumber
            else if pre == "-" then Number(-(DigitsValue(body, BaseOf(s.conv)) as int))
            else Number(DigitsValue(body, BaseOf(s.conv)))
  {
    hide Read, DigitsValue, Rep, AllDigits, Layout;
    var b := BaseOf(s.conv);
    var full := (if blank then " " else "") + pre;
    var gap := s.width - (|full| + |body|);
    var digits := if !s.left && s.zero && !s.precise then Rep('0', gap) + body else body;
    var m := if s.left || (s.zero && !s.precise) then 0 else gap;
    var n := if s.left then gap else 0;
    LayoutShape(s, full, body, m, digits, n);
    LeadingZeros(gap, body, b);
    PaddedDigits(gap, body, b);
    assert Leads(pre, digits, s.conv);
    if blank {
      BlankPrefix(m, pre, digits, n);
      ReadParts(Pos(m) + 1, pre, digits, n, s.conv);
    } else {
      assert full == pre;
      ReadParts(m, pre, digits, n, s.conv);
    }
  }

  /** Two signs are no number. */
  lemma TwoSignsRead(s: Spec, body: string)
    requires s.conv == 'd' && AllDigits(body, Dec) && body != ""
    ensures Read(Layout(s, "+-", body), s.conv) == NoNumber
  {
    hide Rep, Layout, TrimLeft, TrimRight;
    var gap := s.width - (2 + |body|);
    var digits := if !s.left && s.zero && !s.precise then Rep('0', gap) + body else body;
    var m := if s.left || (s.zero && !s.precise) then 0 else gap;
    var n := if s.left then gap else 0;
    LayoutShape(s, "+-", body, m, digits, n);
    PaddedDigits(gap, body, Dec);
    var t := "+-" + digits;
    assert IsDigitOf(digits[|digits| - 1], Dec) && t[|t| - 1] == digits[|digits| - 1];
    TrimBlanks(m, t, n);
    assert t[1..][0] == '-' && !IsDigitOf('-', Dec);
  }

  /** The sign flag '+' and a short that is negative where the argument is not. */
  predicate SignsClash(s: Spec, a: Arg) {
    s.conv == 'd' && s.sign && !s.space && Value(s, a) >= 0 > Printed(s, a)
  }

  /** Reading a numeric field back gives the number printed, except that precision 0
      makes the value 0 disappear (but for the alternate octal form) and that two
      signs are no number. */
  lemma FieldReadsBack(s: Spec, a: Arg)
    requires IsInteger(s.conv) && Moderate(s)
    ensures Read(Render(NumericItem(s, a)), s.conv)
         == if Vanishes(s, Value(s, a)) && !(s.alt && s.conv == 'o') then NoNumber
            else if SignsClash(s, a) then NoNumber
            else Number(Printed(s, a))
  {
    hide Render, NumericItem, Value, Printed, Read, Layout, FieldBody, AllDigits, DigitsValue;
    FieldLayout(s, a);
    FieldDigits(s, a);
    PrintedRange(s, a);
    var v, p := Value(s, a), Printed(s, a);
    var pre, body := FieldPrefix(s, a), FieldBody(s, a);
    if SignsClash(s, a) {
      assert pre == "+-";
      TwoSignsRead(s, body);
    } else {
      var blank := s.conv == 'd' && s.sign && s.space && v >= 0;
      var rest := if blank then (if p < 0 then "-" else "") else pre;
      assert pre == (if blank then " " else "") + rest;
      LayoutReads(s, blank, rest, body);
    }
  }

  // ----- The number printed -----

  /** An argument that fits the type that its modifier says is printed as it is ... */
  lemma SignedPrinted(s: Spec, a: Arg)
    requires s.conv == 'd'
    ensures s.mod == 'l' && -0x8000_0000_0000_0000 <= a.num < 0x8000_0000_0000_0000 ==> Printed(s, a) == a.num
    ensures s.mod == '\0' && -0x8000_0000 <= a.num < 0x8000_0000 ==> Printed(s, a) == a.num
    ensures s.mod == 'h' && -0x8000 <= a.num < 0x8000 ==> Printed(s, a) == a.num
  {
    hide ToInt, ToLong, ToShort;
  }

  lemma ShortOfInt(x: int)
    ensures ToUShort(ToUInt(x)) == x % 0x1_0000
  {
  }

  /** ... and an unsigned conversion prints what is left modulo the size of the type. */
  lemma UnsignedPrinted(s: Spec, a: Arg)
    requires IsInteger(s.conv) && s.conv != 'd'
    ensures s.mod == 'l' ==> Printed(s, a) == a.num % 0x1_0000_0000_0000_0000
    ensures s.mod == '\0' ==> Printed(s, a) == a.num % 0x1_0000_0000
    ensures s.mod == 'h' ==> Printed(s, a) == a.num % 0x1_0000
  {
    if s.mod == 'h' {
      ShortOfInt(a.num);
    }
    hide ToUShort;
  }

  /** The bases, and the letters of the hexadecimal ones. */
  lemma BasesAre(d: nat)
    requires 10 <= d < 16
    ensures BaseOf('d') == BaseOf('u') == Dec && BaseOf('o') == Oct
    ensures Radix(Dec) == 10 && Radix(Oct) == 8 && Radix(BaseOf('x')) == 16 == Radix(BaseOf('X'))
    ensures DigitChar(d, BaseOf('x')) == "abcdef"[d - 10] && DigitChar(d, BaseOf('X')) == "ABCDEF"[d - 10]
  {
  }
}
