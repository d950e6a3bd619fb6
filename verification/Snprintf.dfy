/** The portable vsnprintf of libopm: the text it stands for, without a buffer.

    A directive is parsed into a `Spec`, the argument is turned into an `Item`,
    and the item is laid out in its field. */
module Snprintf {
  import opened Buffers
  import opened CIntegers

  // ----- Arguments -----

  datatype Text = Null | Text(s: string)

  /** One variadic argument: as a number of any type, as a string pointer, and as
      the host prints it when it is a pointer. */
  datatype Arg = Arg(num: int, str: Text, ptr: string)

  /** The arguments still to come; what follows the last one is undefined in C
      and arbitrary here. */
  type Args = nat -> Arg

  // ----- Digits, as the host's sprintf prints them -----

  datatype Base = Oct | Dec | Hex | HexUpper

  function Radix(b: Base): nat {
    match b
    case Oct => 8
    case Dec => 10
    case _ => 16
  }

  function Quot(v: nat, b: Base): (q: nat)
    ensures q <= v && (v > 0 ==> q < v)
  {
    match b
    case Oct => v / 8
    case Dec => v / 10
    case _ => v / 16
  }

  function Rem(v: nat, b: Base): (r: nat)
    ensures r < Radix(b)
  {
    match b
    case Oct => v % 8
    case Dec => v % 10
    case _ => v % 16
  }

  function DigitChar(d: nat, b: Base): (c: char)
    requires d < Radix(b)
  {
    if d < 10 then '0' + d as char
    else if b == HexUpper then 'A' + (d - 10) as char
    else 'a' + (d - 10) as char
  }

  function Digits(v: nat, b: Base): (s: string)
    ensures s != ""
    decreases v
  {
    if Quot(v, b) == 0 then [DigitChar(Rem(v, b), b)]
    else Digits(Quot(v, b), b) + [DigitChar(Rem(v, b), b)]
  }

  function Signed(v: int, b: Base): string {
    if v < 0 then "-" + Digits(-v, b) else Digits(v, b)
  }

  // ----- Conversion specifications -----

  /** What is between '%' and the conversion character. */
  datatype Spec = Spec(zero: bool, left: bool, sign: bool, space: bool, alt: bool,
                       width: nat, precise: bool, prec: nat, mod: char, conv: char)

  const PLAIN: Spec := Spec(false, false, false, true, false, 0, false, 0, NUL, NUL)

  /** A C string is read up to its NUL. */
  function At(fmt: string, p: nat): (c: char)
    ensures c != NUL ==> p < |fmt| && c == fmt[p]
  {
    if p < |fmt| then fmt[p] else NUL
  }

  predicate IsFlag(c: char) {
    c == '0' || c == '-' || c == '+' || c == ' ' || c == '#' || c == '\''
  }

  predicate IsDigit(c: char) {
    '0' <= c <= '9'
  }

  function SetFlag(s: Spec, c: char): Spec {
    if c == '0' then s.(zero := true)
    else if c == '-' then s.(left := true)
    else if c == '+' then s.(sign := true, space := false)
    else if c == ' ' then s.(sign := true)
    else if c == '#' then s.(alt := true)
    else s
  }

  /** A position in the format and in the arguments, and what is known so far. */
  datatype Cursor = Cursor(spec: Spec, p: nat, k: nat)

  function Flags(fmt: string, s: Spec, p: nat): (r: (Spec, nat))
    requires p <= |fmt|
    ensures p <= r.1 <= |fmt|
    decreases |fmt| - p
  {
    if IsFlag(At(fmt, p)) then Flags(fmt, SetFlag(s, At(fmt, p)), p + 1) else (s, p)
  }

  /** Decimal digits, accumulated in an unsigned int. */
  function Number(fmt: string, uj: nat, p: nat): (r: (nat, nat))
    requires p <= |fmt|
    ensures p <= r.1 <= |fmt|
    decreases |fmt| - p
  {
    if IsDigit(At(fmt, p)) then Number(fmt, ToUInt(10 * uj + (At(fmt, p) as int - '0' as int)), p + 1) else (uj, p)
  }

  function Width(fmt: string, c: Cursor, ap: Args): (r: Cursor)
    requires c.p <= |fmt|
    ensures c.p <= r.p <= |fmt|
  {
    if At(fmt, c.p) == '*' then
      var j := ToInt(ap(c.k).num);
      var s := if j >= 0 then c.spec.(width := j) else c.spec.(width := -j, left := true);
      Cursor(s, c.p + 1, c.k + 1)
    else if IsDigit(At(fmt, c.p)) then
      var (w, p) := Number(fmt, 0, c.p);
      Cursor(c.spec.(width := w), p, c.k)
    else c
  }

  function Precision(fmt: string, c: Cursor, ap: Args): (r: Cursor)
    requires c.p <= |fmt|
    ensures c.p <= r.p <= |fmt|
  {
    if At(fmt, c.p) != '.' then c
    else if At(fmt, c.p + 1) == '*' then
      var j := ToInt(ap(c.k).num);
      var s := if j >= 0 then c.spec.(precise := true, prec := j) else c.spec.(precise := false, prec := 0);
      Cursor(s, c.p + 2, c.k + 1)
    else if IsDigit(At(fmt, c.p + 1)) then
      var (n, p) := Number(fmt, 0, c.p + 1);
      Cursor(c.spec.(precise := true, prec := n), p, c.k)
    else Cursor(c.spec.(precise := true), c.p + 1, c.k)
  }

  function Modifier(fmt: string, c: Cursor): (r: Cursor)
    requires c.p <= |fmt|
    ensures c.p <= r.p <= |fmt|
  {
    if At(fmt, c.p) == 'h' then Cursor(c.spec.(mod := 'h'), c.p + 1, c.k)
    else if At(fmt, c.p) == 'l' then
      Cursor(c.spec.(mod := 'l'), if At(fmt, c.p + 1) == 'l' then c.p + 2 else c.p + 1, c.k)
    else c
  }

  function Synonym(s: Spec): Spec {
    if s.conv == 'i' then s.(conv := 'd')
    else if s.conv == 'D' then s.(conv := 'd', mod := 'l')
    else if s.conv == 'U' then s.(conv := 'u', mod := 'l')
    else if s.conv == 'O' then s.(conv := 'o', mod := 'l')
    else s
  }

  /** Everything from '%' to the conversion character, which is left to read. */
  function Directive(fmt: string, p: nat, ap: Args, k: nat): (c: Cursor)
    requires p < |fmt| && fmt[p] == '%'
    ensures p < c.p <= |fmt|
  {
    var (s, q) := Flags(fmt, PLAIN, p + 1);
    var c := Modifier(fmt, Precision(fmt, Width(fmt, Cursor(s, q, k), ap), ap));
    c.(spec := Synonym(c.spec.(conv := At(fmt, c.p))))
  }

  // ----- Fields -----

  /** Where the parts of a field come from: the converted text, how much of it
      goes before inserted zeros, and how many zeros. */
  datatype Item = Item(text: string, ind: nat, zeros: nat, spec: Spec)

  function Rep(c: char, n: int): (s: string)
    ensures |s| == if n > 0 then n else 0
    ensures forall i :: 0 <= i < |s| ==> s[i] == c
    decreases if n > 0 then n else 0
  {
    if n <= 0 then "" else [c] + Rep(c, n - 1)
  }

  /** The start of a text, its length read as an int. */
  function Clip(s: string): (r: string)
    ensures r <= s
    ensures |s| < 0x8000_0000 ==> r == s
  {
    var n := ToInt(|s|);
    if n > 0 then s[..n] else ""
  }

  /** Blanks needed to fill the field. */
  function Gap(it: Item): int {
    ToInt(it.spec.width - (|it.text| + it.zeros))
  }

  function Left(it: Item): string {
    if it.spec.left then "" else Rep(if it.spec.zero then '0' else ' ', Gap(it))
  }

  function Middle(it: Item): string
    requires it.ind <= |it.text|
  {
    if it.zeros == 0 then "" else Clip(it.text[..it.ind]) + Rep('0', ToInt(it.zeros))
  }

  function Last(it: Item): string
    requires it.ind <= |it.text|
  {
    Clip(it.text[if it.zeros == 0 then 0 else it.ind..])
  }

  function Right(it: Item): string {
    if it.spec.left then Rep(' ', Gap(it)) else ""
  }

  /** Left padding, first part and zeros, the rest, right padding. */
  function Render(it: Item): string
    requires it.ind <= |it.text|
  {
    Left(it) + Middle(it) + Last(it) + Right(it)
  }

  predicate IsNumeric(c: char) {
    c == 'd' || c == 'u' || c == 'o' || c == 'x' || c == 'X' || c == 'p'
  }

  predicate IsTextual(c: char) {
    c == '%' || c == 'c' || c == 's'
  }

  /** The argument's value, which decides its sign ... */
  function Value(s: Spec, a: Arg): int {
    if s.conv == 'p' then (if a.num == 0 then 0 else 1)
    else if s.conv == 'd' then (if s.mod == 'l' then ToLong(a.num) else ToInt(a.num))
    else (if s.mod == 'l' then ToULong(a.num) else ToUInt(a.num))
  }

  /** ... and the value the host prints, a short one for 'h'. */
  function Printed(s: Spec, a: Arg): int {
    if s.mod != 'h' then Value(s, a)
    else if s.conv == 'd' then ToShort(ToInt(a.num))
    else ToUShort(ToUInt(a.num))
  }

  function BaseOf(c: char): Base {
    if c == 'o' then Oct else if c == 'x' then Hex else if c == 'X' then HexUpper else Dec
  }

  function HostText(s: Spec, a: Arg): string {
    if s.conv == 'p' then a.ptr else Signed(Printed(s, a), BaseOf(s.conv))
  }

  /** Sign or base written before the host's digits. */
  function Lead(s: Spec, v: int): string {
    if s.conv == 'd' then (if s.sign && v >= 0 then (if s.space then " " else "+") else "")
    else if s.alt && v != 0 && (s.conv == 'x' || s.conv == 'X') then ['0', s.conv]
    else ""
  }

  /** Steps over a minus sign and a base prefix. */
  function Skip(text: string, i: nat): (r: nat)
    requires i <= |text|
    ensures i <= r <= |text|
  {
    var j := if i < |text| && text[i] == '-' then i + 1 else i;
    if j + 1 < |text| && text[j] == '0' && (text[j + 1] == 'x' || text[j + 1] == 'X') then j + 2 else j
  }

  /** Precision after the alternate form of 'o' has asked for a leading zero. */
  function EffectivePrec(s: Spec, text: string, ind: nat): nat
    requires ind <= |text|
  {
    var prec := if s.precise then s.prec else 1;
    var n := |text| - ind;
    if s.alt && s.conv == 'o' && !(ind < |text| && text[ind] == '0') && (!s.precise || prec < n + 1) then n + 1 else prec
  }

  /** The explicit precision 0 turns the value 0 into nothing. */
  predicate Vanishes(s: Spec, v: int) {
    s.precise && s.prec == 0 && v == 0
  }

  /** Sign or base and digits, and where zeros would be inserted. */
  function NumberText(s: Spec, a: Arg): (r: (string, nat))
    ensures r.1 <= |r.0|
  {
    var v := Value(s, a);
    var lead := Lead(s, v);
    if Vanishes(s, v) then (lead, |lead|)
    else
      var text := lead + HostText(s, a);
      (text, Skip(text, |lead|))
  }

  /** ZeroCount asked for by the precision, then by the '0' flag. */
  function ZeroCount(s: Spec, text: string, ind: nat): nat
    requires ind <= |text|
  {
    var prec := EffectivePrec(s, text, ind);
    var zeros := if |text| - ind < prec then prec - (|text| - ind) else 0;
    var n := ToInt(s.width - (|text| + zeros));
    if !s.left && s.zero && n > 0 then zeros + n else zeros
  }

  /** A precision switches the '0' flag off. */
  function ZeroOff(s: Spec): Spec {
    if s.precise then s.(zero := false) else s
  }

  function NumericItem(s: Spec, a: Arg): (it: Item)
    ensures it.ind <= |it.text|
  {
    var (text, ind) := NumberText(s, a);
    Item(text, ind, ZeroCount(ZeroOff(s), text, ind), ZeroOff(s))
  }

  function TextualItem(s0: Spec, a: Arg): (it: Item)
    ensures it.ind <= |it.text|
  {
    var s := s0.(mod := NUL, zero := false);
    var text :=
      if s.conv == '%' then "%"
      else if s.conv == 'c' then [(ToInt(a.num) % 256) as char]
      else match a.str
        case Null => ""
        case Text(t) => if s.precise && s.prec < |t| then t[..s.prec] else t;
    Item(text, 0, 0, s)
  }

  function UnknownItem(s: Spec, c: char): (it: Item)
    ensures it.ind <= |it.text|
  {
    Item(if c != NUL then [c] else "", 0, 0, s.(zero := false, left := true, width := 0))
  }

  function ItemOf(s: Spec, c: char, a: Arg): (it: Item)
    ensures it.ind <= |it.text|
  {
    if IsTextual(s.conv) then TextualItem(s, a)
    else if IsNumeric(s.conv) then NumericItem(s, a)
    else UnknownItem(s, c)
  }

  /** How many arguments the conversion itself takes. */
  function Taken(conv: char): nat {
    if conv == 'c' || conv == 's' || IsNumeric(conv) then 1 else 0
  }

  // ----- The whole text -----

  function Format(fmt: string, p: nat, ap: Args, k: nat): string
    requires p <= |fmt|
    decreases |fmt| - p
  {
    if At(fmt, p) == NUL then ""
    else if fmt[p] != '%' then [fmt[p]] + Format(fmt, p + 1, ap, k)
    else
      var c := Directive(fmt, p, ap, k);
      var conv := At(fmt, c.p);
      Render(ItemOf(c.spec, conv, ap(c.k)))
      + Format(fmt, if conv != NUL then c.p + 1 else c.p, ap, c.k + Taken(c.spec.conv))
  }

  lemma FormatDirective(fmt: string, p: nat, ap: Args, k: nat)
    requires p < |fmt| && fmt[p] == '%'
    ensures var c := Directive(fmt, p, ap, k);
            var conv := At(fmt, c.p);
            Format(fmt, p, ap, k)
            == Render(ItemOf(c.spec, conv, ap(c.k)))
               + Format(fmt, if conv != NUL then c.p + 1 else c.p, ap, c.k + Taken(c.spec.conv))
  {
  }

  lemma FormatOrdinary(fmt: string, p: nat, ap: Args, k: nat)
    requires p < |fmt| && fmt[p] != '%' && fmt[p] != NUL
    ensures Format(fmt, p, ap, k) == [fmt[p]] + Format(fmt, p + 1, ap, k)
  {
  }
}
