/** What a format text denotes: its directives and literals, and which argument each one takes. */
module SnprintfDirectives {
  import opened Arithmetic
  import opened Buffers
  import opened CIntegers
  import opened Snprintf
  import opened SnprintfFields

  // ----- Directives, as they are written -----

  /** A width or a precision: none, a run of decimal digits, or an argument. */
  datatype Amount = Absent | Written(digits: string) | FromArg

  /** The parts of a directive between '%' and the end of its conversion character. */
  datatype Parts = Parts(flags: string, width: Amount, prec: Amount, mod: string, conv: char)

  /** A character that nothing before it can be taken to include. */
  predicate Closing(c: char) {
    !IsFlag(c) && !IsDigit(c) && c != '.' && c != '*' && c != 'h' && c != 'l' && c != NUL
  }

  /** A width begins with a digit that is no flag; the digits of a precision may be
      missing. */
  predicate WellFormed(d: Parts) {
    && (forall i :: 0 <= i < |d.flags| ==> IsFlag(d.flags[i]))
    && (d.width.Written? ==> d.width.digits != "" && d.width.digits[0] != '0' && AllDigits(d.width.digits, Dec))
    && (d.prec.Written? ==> AllDigits(d.prec.digits, Dec))
    && (d.mod == "" || d.mod == "h" || d.mod == "l" || d.mod == "ll")
    && Closing(d.conv)
  }

  function WidthText(w: Amount): string {
    match w
    case Absent => ""
    case Written(digits) => digits
    case FromArg => "*"
  }

  function PrecText(p: Amount): string {
    match p
    case Absent => ""
    case Written(digits) => "." + digits
    case FromArg => ".*"
  }

  function Printed(d: Parts): string {
    "%" + (d.flags + (WidthText(d.width) + (PrecText(d.prec) + (d.mod + [d.conv]))))
  }

  // ----- What they mean -----

  /** A number as an unsigned int. */
  function Decimal(digits: string): nat {
    ToUInt(DigitsValue(digits, Dec))
  }

  function WidthStars(d: Parts): nat {
    if d.width.FromArg? then 1 else 0
  }

  function PrecStars(d: Parts): nat {
    if d.prec.FromArg? then 1 else 0
  }

  /** The flags, the width, the precision, and the rest of a specification. */
  ghost predicate MeansFlags(s: Spec, d: Parts, ap: Args, k: nat) {
    && (s.zero <==> '0' in d.flags)
    && (s.left <==> '-' in d.flags || (d.width.FromArg? && ToInt(ap(k).num) < 0))
    && (s.sign <==> '+' in d.flags || ' ' in d.flags)
    && (s.space <==> '+' !in d.flags)
    && (s.alt <==> '#' in d.flags)
  }

  ghost predicate MeansWidth(s: Spec, d: Parts, ap: Args, k: nat) {
    match d.width
    case Absent => s.width == 0
    case Written(t) => s.width == Decimal(t)
    case FromArg => s.width == Abs(ToInt(ap(k).num))
  }

  ghost predicate MeansPrec(s: Spec, d: Parts, ap: Args, k: nat) {
    match d.prec
    case Absent => !s.precise && s.prec == 0
    case Written(t) => s.precise && s.prec == Decimal(t)
    case FromArg =>
      var j := ToInt(ap(k + WidthStars(d)).num);
      if j >= 0 then s.precise && s.prec == j else !s.precise && s.prec == 0
  }

  /** 'i' is 'd', and the capital letters ask for long numbers. */
  ghost predicate MeansConv(s: Spec, d: Parts) {
    if d.conv == 'D' || d.conv == 'U' || d.conv == 'O' then
      s.mod == 'l' && s.conv == (if d.conv == 'D' then 'd' else if d.conv == 'U' then 'u' else 'o')
    else
      s.mod == (if d.mod == "" then NUL else d.mod[0]) && s.conv == if d.conv == 'i' then 'd' else d.conv
  }

  /** The specification that the parts stand for, if the next argument is number `k`. */
  ghost predicate Means(s: Spec, d: Parts, ap: Args, k: nat) {
    MeansFlags(s, d, ap, k) && MeansWidth(s, d, ap, k) && MeansPrec(s, d, ap, k) && MeansConv(s, d)
  }

  // ----- Reading the flags -----

  /** The text stands at `p`. */
  predicate Stands(fmt: string, p: nat, text: string) {
    p + |text| <= |fmt| && fmt[p..p + |text|] == text
  }

  lemma StandsBoth(fmt: string, p: nat, a: string, b: string)
    requires Stands(fmt, p, a + b)
    ensures Stands(fmt, p, a) && Stands(fmt, p + |a|, b)
  {
    var t := fmt[p..p + |a + b|];
    assert t[..|a|] == a && t[|a|..] == b;
  }

  lemma StandsChar(fmt: string, p: nat, text: string, i: nat)
    requires Stands(fmt, p, text) && i < |text|
    ensures At(fmt, p + i) == text[i]
  {
    assert fmt[p..p + |text|][i] == fmt[p + i];
  }

  /** The flags seen so far. */
  predicate FlagsAre(s: Spec, flags: string) {
    && (s.zero <==> '0' in flags) && (s.left <==> '-' in flags) && (s.sign <==> '+' in flags || ' ' in flags)
    && (s.space <==> '+' !in flags) && (s.alt <==> '#' in flags)
    && s.width == 0 && !s.precise && s.prec == 0 && s.mod == NUL && s.conv == NUL
  }

  lemma FlagsSnoc(s: Spec, flags: string, c: char)
    requires FlagsAre(s, flags) && IsFlag(c)
    ensures FlagsAre(SetFlag(s, c), flags + [c])
  {
  }

  lemma {:induction false} FlagsRead(fmt: string, s: Spec, p: nat, done: string, more: string)
    requires FlagsAre(s, done) && Stands(fmt, p, more) && !IsFlag(At(fmt, p + |more|))
    requires forall i :: 0 <= i < |more| ==> IsFlag(more[i])
    ensures FlagsAre(Flags(fmt, s, p).0, done + more) && Flags(fmt, s, p).1 == p + |more|
    decreases |more|
  {
    hide FlagsAre, SetFlag;
    if more == "" {
      assert done + more == done;
    } else {
      StandsChar(fmt, p, more, 0);
      FlagsSnoc(s, done, more[0]);
      assert more == [more[0]] + more[1..];
      StandsBoth(fmt, p, [more[0]], more[1..]);
      FlagsRead(fmt, SetFlag(s, more[0]), p + 1, done + [more[0]], more[1..]);
      assert done + [more[0]] + more[1..] == done + more;
    }
  }

  // ----- Reading numbers -----

  /** What is lost early is lost at the end as well. */
  lemma WrapDigit(m: nat, d: nat)
    ensures ToUInt(10 * ToUInt(m) + d) == ToUInt(10 * m + d)
  {
    var t := 0x1_0000_0000;
    var k, e := m / t, m % t;
    var x := 10 * e + d;
    assert 10 * m + d == t * (10 * k) + x;
    assert x == t * (x / t) + x % t;
    assert t * (10 * k) + t * (x / t) == t * (10 * k + x / t);
    ModIs(10 * m + d, t, 10 * k + x / t, x % t);
  }

  lemma DecimalSnoc(digits: string, c: char)
    requires IsDigit(c)
    ensures Decimal(digits + [c]) == ToUInt(10 * Decimal(digits) + (c as int - '0' as int))
  {
    var t := digits + [c];
    assert t[..|t| - 1] == digits;
    WrapDigit(DigitsValue(digits, Dec), c as int - '0' as int);
  }

  lemma {:induction false} NumberRead(fmt: string, p: nat, done: string, more: string)
    requires Stands(fmt, p, more) && !IsDigit(At(fmt, p + |more|)) && AllDigits(more, Dec)
    ensures Snprintf.Number(fmt, Decimal(done), p) == (Decimal(done + more), p + |more|)
    decreases |more|
  {
    hide Decimal;
    if more == "" {
      assert done + more == done;
    } else {
      StandsChar(fmt, p, more, 0);
      assert IsDigitOf(more[0], Dec);
      DecimalSnoc(done, more[0]);
      assert more == [more[0]] + more[1..];
      StandsBoth(fmt, p, [more[0]], more[1..]);
      NumberRead(fmt, p + 1, done + [more[0]], more[1..]);
      assert done + [more[0]] + more[1..] == done + more;
    }
  }

  lemma NumberFromStart(fmt: string, p: nat, digits: string)
    requires Stands(fmt, p, digits) && !IsDigit(At(fmt, p + |digits|)) && AllDigits(digits, Dec)
    ensures Snprintf.Number(fmt, 0, p) == (Decimal(digits), p + |digits|)
  {
    assert Decimal("") == 0 && "" + digits == digits;
    hide Decimal;
    NumberRead(fmt, p, "", digits);
  }

  lemma WidthRead(fmt: string, c: Cursor, ap: Args, w: Amount)
    requires c.p <= |fmt| && Stands(fmt, c.p, WidthText(w))
    requires w.Written? ==> w.digits != "" && AllDigits(w.digits, Dec)
    requires var end := At(fmt, c.p + |WidthText(w)|); !IsDigit(end) && (w.Absent? ==> end != '*')
    ensures var j := ToInt(ap(c.k).num);
            Width(fmt, c, ap) ==
            (match w
             case Absent => c
             case Written(t) => Cursor(c.spec.(width := Decimal(t)), c.p + |t|, c.k)
             case FromArg => Cursor(c.spec.(width := Abs(j), left := c.spec.left || j < 0), c.p + 1, c.k + 1))
  {
    hide Decimal;
    match w
    case Absent =>
    case Written(t) =>
      StandsChar(fmt, c.p, t, 0);
      assert IsDigitOf(t[0], Dec);
      NumberFromStart(fmt, c.p, t);
    case FromArg => StandsChar(fmt, c.p, "*", 0);
  }

  lemma PrecRead(fmt: string, c: Cursor, ap: Args, q: Amount)
    requires c.p <= |fmt| && Stands(fmt, c.p, PrecText(q)) && !c.spec.precise && c.spec.prec == 0
    requires q.Written? ==> AllDigits(q.digits, Dec)
    requires var end := At(fmt, c.p + |PrecText(q)|);
             (q.Absent? ==> end != '.') && (q.Written? ==> !IsDigit(end) && end != '*')
    ensures var j := ToInt(ap(c.k).num);
            Precision(fmt, c, ap) ==
            (match q
             case Absent => c
             case Written(t) => Cursor(c.spec.(precise := true, prec := Decimal(t)), c.p + 1 + |t|, c.k)
             case FromArg => Cursor(c.spec.(precise := j >= 0, prec := if j >= 0 then j else 0), c.p + 2, c.k + 1))
  {
    match q
    case Absent =>
    case Written(t) =>
      StandsChar(fmt, c.p, "." + t, 0);
      StandsBoth(fmt, c.p, ".", t);
      if t != "" {
        StandsChar(fmt, c.p + 1, t, 0);
        assert IsDigitOf(t[0], Dec);
        NumberFromStart(fmt, c.p + 1, t);
        hide Decimal;
      } else {
        assert Decimal("") == 0;
      }
    case FromArg =>
      StandsChar(fmt, c.p, ".*", 0);
      StandsChar(fmt, c.p, ".*", 1);
  }

  lemma ModifierRead(fmt: string, c: Cursor, mod: string)
    requires c.p <= |fmt| && Stands(fmt, c.p, mod) && (mod == "" || mod == "h" || mod == "l" || mod == "ll")
    requires var end := At(fmt, c.p + |mod|); end != 'h' && end != 'l'
    ensures Modifier(fmt, c) == if mod == "" then c else Cursor(c.spec.(mod := mod[0]), c.p + |mod|, c.k)
  {
    if mod != "" {
      StandsChar(fmt, c.p, mod, 0);
    }
    if mod == "ll" {
      StandsChar(fmt, c.p, mod, 1);
    }
  }

  // ----- Reading a directive -----

  lemma PercentStands(fmt: string, p: nat)
    requires Stands(fmt, p, "%")
    ensures p < |fmt| && fmt[p] == '%'
  {
    assert fmt[p..p + 1][0] == fmt[p];
  }

  /** What follows the flags, and so on. */
  function Tail(d: Parts, n: nat): string {
    if n == 0 then d.mod + [d.conv]
    else if n == 1 then PrecText(d.prec) + Tail(d, 0)
    else if n == 2 then WidthText(d.width) + Tail(d, 1)
    else d.flags + Tail(d, 2)
  }

  lemma PrintedTail(d: Parts)
    ensures Printed(d) == "%" + Tail(d, 3) && Tail(d, 3) == d.flags + Tail(d, 2)
    ensures Tail(d, 2) == WidthText(d.width) + Tail(d, 1) && Tail(d, 1) == PrecText(d.prec) + Tail(d, 0)
    ensures Tail(d, 0) == d.mod + [d.conv]
  {
    hide WidthText, PrecText;
  }

  /** Where the parts of a printed directive stand. */
  lemma PartsStand(fmt: string, p: nat, d: Parts)
    requires Stands(fmt, p, Printed(d))
    ensures p < |fmt| && fmt[p] == '%' && Stands(fmt, p + 1, d.flags)
    ensures var w := p + 1 + |d.flags|;
            var q := w + |WidthText(d.width)|;
            var m := q + |PrecText(d.prec)|;
            && Stands(fmt, w, WidthText(d.width)) && Stands(fmt, q, PrecText(d.prec)) && Stands(fmt, m, d.mod)
            && At(fmt, m + |d.mod|) == d.conv && m + |d.mod| == p + |Printed(d)| - 1
  {
    hide WidthText, PrecText, Stands, At, Printed, Tail;
    PrintedTail(d);
    StandsBoth(fmt, p, "%", Tail(d, 3));
    PercentStands(fmt, p);
    StandsBoth(fmt, p + 1, d.flags, Tail(d, 2));
    var w := p + 1 + |d.flags|;
    StandsBoth(fmt, w, WidthText(d.width), Tail(d, 1));
    var q := w + |WidthText(d.width)|;
    StandsBoth(fmt, q, PrecText(d.prec), Tail(d, 0));
    var m := q + |PrecText(d.prec)|;
    StandsBoth(fmt, m, d.mod, [d.conv]);
    StandsChar(fmt, m + |d.mod|, [d.conv], 0);
  }

  lemma WidthBegins(fmt: string, w: nat, a: Amount)
    requires Stands(fmt, w, WidthText(a)) && (a.Written? ==> a.digits != "" && a.digits[0] != '0' && AllDigits(a.digits, Dec))
    ensures a.FromArg? ==> At(fmt, w) == '*'
    ensures a.Written? ==> '1' <= At(fmt, w) <= '9'
  {
    hide Stands, At;
    if !a.Absent? {
      StandsChar(fmt, w, WidthText(a), 0);
      if a.Written? {
        assert IsDigitOf(a.digits[0], Dec);
      }
    }
  }

  lemma PrecBegins(fmt: string, q: nat, a: Amount)
    requires Stands(fmt, q, PrecText(a)) && !a.Absent?
    ensures At(fmt, q) == '.'
  {
    hide Stands, At;
    StandsChar(fmt, q, PrecText(a), 0);
  }

  lemma ModBegins(fmt: string, m: nat, mod: string)
    requires Stands(fmt, m, mod) && mod != ""
    ensures At(fmt, m) == mod[0]
  {
    hide Stands, At;
    StandsChar(fmt, m, mod, 0);
  }

  /** The character at the end of one part is the first one of the next. */
  lemma PartsMeet(fmt: string, p: nat, d: Parts)
    requires WellFormed(d) && Stands(fmt, p, Printed(d))
    ensures var w := p + 1 + |d.flags|;
            var q := w + |WidthText(d.width)|;
            var m := q + |PrecText(d.prec)|;
            && (d.mod != "" ==> At(fmt, m) == d.mod[0]) && (d.mod == "" ==> At(fmt, m) == d.conv)
            && (!d.prec.Absent? ==> At(fmt, q) == '.') && (d.prec.Absent? ==> q == m)
            && (d.width.FromArg? ==> At(fmt, w) == '*') && (d.width.Absent? ==> w == q)
            && (d.width.Written? ==> '1' <= At(fmt, w) <= '9')
  {
    hide Stands, Printed, At, AllDigits;
    PartsStand(fmt, p, d);
    var w := p + 1 + |d.flags|;
    var q := w + |WidthText(d.width)|;
    var m := q + |PrecText(d.prec)|;
    WidthBegins(fmt, w, d.width);
    if !d.prec.Absent? {
      PrecBegins(fmt, q, d.prec);
    }
    if d.mod != "" {
      ModBegins(fmt, m, d.mod);
    }
  }

  /** No part runs on into the next one. */
  lemma PartsEnd(fmt: string, p: nat, d: Parts)
    requires WellFormed(d) && Stands(fmt, p, Printed(d))
    ensures var w := p + 1 + |d.flags|;
            var q := w + |WidthText(d.width)|;
            var m := q + |PrecText(d.prec)|;
            && !IsFlag(At(fmt, w))
            && !IsDigit(At(fmt, q)) && (d.width.Absent? ==> At(fmt, q) != '*')
            && (d.prec.Absent? ==> At(fmt, m) != '.') && !IsDigit(At(fmt, m)) && At(fmt, m) != '*'
            && At(fmt, m + |d.mod|) != 'h' && At(fmt, m + |d.mod|) != 'l'
  {
    PartsStand(fmt, p, d);
    PartsMeet(fmt, p, d);
    hide Stands, Printed, AllDigits, At, WidthText, PrecText;
  }

  /** What is known of the specification once the width is read. */
  ghost predicate AfterWidth(s: Spec, d: Parts, ap: Args, k: nat) {
    MeansFlags(s, d, ap, k) && MeansWidth(s, d, ap, k) && !s.precise && s.prec == 0 && s.mod == NUL
  }

  ghost predicate AfterPrec(s: Spec, d: Parts, ap: Args, k: nat) {
    MeansFlags(s, d, ap, k) && MeansWidth(s, d, ap, k) && MeansPrec(s, d, ap, k) && s.mod == NUL
  }

  lemma WidthMeans(fmt: string, s: Spec, w: nat, d: Parts, ap: Args, k: nat)
    requires WellFormed(d) && FlagsAre(s, d.flags) && w <= |fmt| && Stands(fmt, w, WidthText(d.width))
    requires var end := At(fmt, w + |WidthText(d.width)|); !IsDigit(end) && (d.width.Absent? ==> end != '*')
    ensures var c := Width(fmt, Cursor(s, w, k), ap);
            AfterWidth(c.spec, d, ap, k) && c.p == w + |WidthText(d.width)| && c.k == k + WidthStars(d)
  {
    hide Width, Decimal, ToInt, Stands, AllDigits, At;
    WidthRead(fmt, Cursor(s, w, k), ap, d.width);
  }

  lemma PrecMeans(fmt: string, c: Cursor, d: Parts, ap: Args, k: nat)
    requires WellFormed(d) && AfterWidth(c.spec, d, ap, k) && c.k == k + WidthStars(d)
    requires c.p <= |fmt| && Stands(fmt, c.p, PrecText(d.prec))
    requires var end := At(fmt, c.p + |PrecText(d.prec)|);
             (d.prec.Absent? ==> end != '.') && !IsDigit(end) && end != '*'
    ensures var r := Precision(fmt, c, ap);
            AfterPrec(r.spec, d, ap, k) && r.p == c.p + |PrecText(d.prec)| && r.k == c.k + PrecStars(d)
  {
    hide Precision, Decimal, ToInt, Stands, AllDigits, At;
    PrecRead(fmt, c, ap, d.prec);
  }

  /** Modifier and conversion do not matter for the rest. */
  lemma RestMeans(s: Spec, mod: char, conv: char, d: Parts, ap: Args, k: nat)
    requires AfterPrec(s, d, ap, k)
    ensures var t := s.(mod := mod, conv := conv);
            MeansFlags(t, d, ap, k) && MeansWidth(t, d, ap, k) && MeansPrec(t, d, ap, k)
  {
    hide Decimal, ToInt, WidthStars;
  }

  lemma SynonymMeans(s: Spec, d: Parts)
    requires s.conv == d.conv && s.mod == (if d.mod == "" then NUL else d.mod[0])
    ensures MeansConv(Synonym(s), d) && Synonym(s) == s.(mod := Synonym(s).mod, conv := Synonym(s).conv)
  {
  }

  lemma ConvMeans(fmt: string, c: Cursor, d: Parts, ap: Args, k: nat)
    requires WellFormed(d) && AfterPrec(c.spec, d, ap, k) && c.p <= |fmt| && Stands(fmt, c.p, d.mod)
    requires At(fmt, c.p + |d.mod|) == d.conv
    ensures var r := Modifier(fmt, c);
            Means(Synonym(r.spec.(conv := d.conv)), d, ap, k) && r.p == c.p + |d.mod| && r.k == c.k
  {
    hide Modifier, Stands, AllDigits, At, MeansFlags, MeansWidth, MeansPrec, MeansConv, Synonym;
    ModifierRead(fmt, c, d.mod);
    var t := Modifier(fmt, c).spec.(conv := d.conv);
    SynonymMeans(t, d);
    RestMeans(c.spec, Synonym(t).mod, Synonym(t).conv, d, ap, k);
  }

  lemma DirectiveIs(fmt: string, p: nat, ap: Args, k: nat)
    requires p < |fmt| && fmt[p] == '%'
    ensures var (s, w) := Flags(fmt, PLAIN, p + 1);
            var c := Modifier(fmt, Precision(fmt, Width(fmt, Cursor(s, w, k), ap), ap));
            Directive(fmt, p, ap, k) == c.(spec := Synonym(c.spec.(conv := At(fmt, c.p))))
  {
    hide Flags, Width, Precision, Modifier, Synonym, At;
  }

  lemma FlagsReadAll(fmt: string, p: nat, d: Parts)
    requires WellFormed(d) && Stands(fmt, p, d.flags) && !IsFlag(At(fmt, p + |d.flags|))
    ensures p + |d.flags| <= |fmt| && Flags(fmt, PLAIN, p).1 == p + |d.flags| && FlagsAre(Flags(fmt, PLAIN, p).0, d.flags)
  {
    assert FlagsAre(PLAIN, "") && "" + d.flags == d.flags;
    hide FlagsAre, Flags;
    FlagsRead(fmt, PLAIN, p, "", d.flags);
  }

  /** A printed directive is read as its parts, up to its conversion character, and
      takes one argument for each star. */
  lemma DirectiveReads(fmt: string, p: nat, d: Parts, ap: Args, k: nat)
    requires WellFormed(d) && Stands(fmt, p, Printed(d))
    ensures p < |fmt| && fmt[p] == '%'
    ensures var c := Directive(fmt, p, ap, k);
            && Means(c.spec, d, ap, k) && c.k == k + WidthStars(d) + PrecStars(d)
            && c.p == p + |Printed(d)| - 1 && At(fmt, c.p) == d.conv
  {
    hide WellFormed, FlagsAre, Directive, Stands, Printed, Flags, Width, Precision, Modifier, IsFlag, IsDigit, At, Means, Synonym;
    hide AfterWidth, AfterPrec, WidthText, PrecText, WidthStars, PrecStars;
    PartsStand(fmt, p, d);
    PartsEnd(fmt, p, d);
    FlagsReadAll(fmt, p + 1, d);
    var (s, w) := Flags(fmt, PLAIN, p + 1);
    WidthMeans(fmt, s, w, d, ap, k);
    var c1 := Width(fmt, Cursor(s, w, k), ap);
    PrecMeans(fmt, c1, d, ap, k);
    ConvMeans(fmt, Precision(fmt, c1, ap), d, ap, k);
    DirectiveIs(fmt, p, ap, k);
  }

  // ----- Formats -----

  /** A run of ordinary characters, or a directive. */
  datatype Piece = Literal(text: string) | Conversion(d: Parts)

  predicate PieceOk(x: Piece) {
    match x
    case Literal(text) => '%' !in text && NUL !in text
    case Conversion(d) => WellFormed(d)
  }

  predicate PiecesOk(pieces: seq<Piece>) {
    pieces == [] || (PieceOk(pieces[0]) && PiecesOk(pieces[1..]))
  }

  function PieceText(x: Piece): string {
    match x
    case Literal(text) => text
    case Conversion(d) => Printed(d)
  }

  function FormatText(pieces: seq<Piece>): string {
    if pieces == [] then "" else PieceText(pieces[0]) + FormatText(pieces[1..])
  }

  /** The arguments a directive takes: one for each star, and one for the value of
      every conversion that prints one. */
  function Takes(d: Parts): nat {
    WidthStars(d) + PrecStars(d)
    + if d.conv in {'c', 's', 'd', 'i', 'D', 'u', 'U', 'o', 'O', 'x', 'X', 'p'} then 1 else 0
  }

  /** The argument whose value is printed comes behind those of the stars. */
  function ValueAt(d: Parts, k: nat): nat {
    k + WidthStars(d) + PrecStars(d)
  }

  /** `out` is the field of the directive with argument `a`, followed by `rest`. */
  ghost predicate FieldThen(s: Spec, d: Parts, ap: Args, k: nat, a: nat, out: string, rest: string) {
    Means(s, d, ap, k) && out == Render(ItemOf(s, d.conv, ap(a))) + rest
  }

  /** Piece after piece, each with the arguments that come next, gives `out`. */
  ghost predicate Renders(pieces: seq<Piece>, ap: Args, k: nat, out: string)
    decreases |pieces|
  {
    if pieces == [] then out == ""
    else
      match pieces[0]
      case Literal(text) => text <= out && Renders(pieces[1..], ap, k, out[|text|..])
      case Conversion(d) =>
        exists s: Spec, rest: string :: FieldThen(s, d, ap, k, ValueAt(d, k), out, rest)
                                        && Renders(pieces[1..], ap, k + Takes(d), rest)
  }

  lemma {:induction false} LiteralPasses(fmt: string, p: nat, text: string, ap: Args, k: nat)
    requires Stands(fmt, p, text) && '%' !in text && NUL !in text
    ensures Format(fmt, p, ap, k) == text + Format(fmt, p + |text|, ap, k)
    decreases |text|
  {
    hide Format;
    if text == "" {
      assert text + Format(fmt, p, ap, k) == Format(fmt, p, ap, k);
    } else {
      StandsChar(fmt, p, text, 0);
      assert text[0] in text && text == [text[0]] + text[1..];
      StandsBoth(fmt, p, [text[0]], text[1..]);
      FormatOrdinary(fmt, p, ap, k);
      LiteralPasses(fmt, p + 1, text[1..], ap, k);
      hide Stands;
      Concat3([text[0]], text[1..], Format(fmt, p + |text|, ap, k));
    }
  }

  lemma TakesOne(s: Spec, d: Parts, ap: Args, k: nat)
    requires Means(s, d, ap, k)
    ensures WidthStars(d) + PrecStars(d) + Taken(s.conv) == Takes(d)
  {
  }

  lemma ConversionPasses(fmt: string, p: nat, d: Parts, ap: Args, k: nat) returns (s: Spec)
    requires WellFormed(d) && Stands(fmt, p, Printed(d))
    ensures p + |Printed(d)| <= |fmt| && Means(s, d, ap, k)
    ensures Format(fmt, p, ap, k)
         == Render(ItemOf(s, d.conv, ap(k + WidthStars(d) + PrecStars(d)))) + Format(fmt, p + |Printed(d)|, ap, k + Takes(d))
  {
    hide Directive, Render, ItemOf, Printed, Format, Means, Takes, Taken, At;
    DirectiveReads(fmt, p, d, ap, k);
    var c := Directive(fmt, p, ap, k);
    s := c.spec;
    TakesOne(s, d, ap, k);
    FormatDirective(fmt, p, ap, k);
  }

  lemma RendersLiteral(pieces: seq<Piece>, ap: Args, k: nat, out: string, rest: string)
    requires pieces != [] && pieces[0].Literal? && out == pieces[0].text + rest && Renders(pieces[1..], ap, k, rest)
    ensures Renders(pieces, ap, k, out)
  {
    hide Means;
    assert out[|pieces[0].text|..] == rest;
  }

  lemma RendersConversion(pieces: seq<Piece>, ap: Args, k: nat, s: Spec, out: string, rest: string)
    requires pieces != [] && pieces[0].Conversion?
    requires var d := pieces[0].d;
             FieldThen(s, d, ap, k, ValueAt(d, k), out, rest)
             && Renders(pieces[1..], ap, k + Takes(d), rest)
    ensures Renders(pieces, ap, k, out)
  {
    hide FieldThen, Takes;
  }

  lemma NothingRenders(fmt: string, ap: Args, k: nat)
    ensures Renders([], ap, k, Format(fmt, |fmt|, ap, k))
  {
  }

  lemma {:induction false} PiecesRender(fmt: string, p: nat, pieces: seq<Piece>, ap: Args, k: nat)
    requires PiecesOk(pieces) && p <= |fmt|
    requires Stands(fmt, p, FormatText(pieces)) && p + |FormatText(pieces)| == |fmt|
    ensures Renders(pieces, ap, k, Format(fmt, p, ap, k))
    decreases |pieces|
  {
    hide Format, Means, WellFormed, Renders, Takes, Render, ItemOf, Printed, Stands, WidthStars, PrecStars;
    if pieces == [] {
      NothingRenders(fmt, ap, k);
    } else {
      var x := pieces[0];
      StandsBoth(fmt, p, PieceText(x), FormatText(pieces[1..]));
      var q := p + |PieceText(x)|;
      match x {
        case Literal(text) =>
          LiteralPasses(fmt, p, text, ap, k);
          PiecesRender(fmt, q, pieces[1..], ap, k);
          RendersLiteral(pieces, ap, k, Format(fmt, p, ap, k), Format(fmt, q, ap, k));
        case Conversion(d) =>
          var s := ConversionPasses(fmt, p, d, ap, k);
          PiecesRender(fmt, q, pieces[1..], ap, k + Takes(d));
          RendersConversion(pieces, ap, k, s, Format(fmt, p, ap, k), Format(fmt, q, ap, k + Takes(d)));
      }
    }
  }

  /** Every format of literals and directives is rendered piece after piece: a
      directive as its parts say, with the arguments that come next, and literals
      and '%%' without any. */
  lemma FormatMeans(pieces: seq<Piece>, ap: Args)
    requires PiecesOk(pieces)
    ensures Renders(pieces, ap, 0, Format(FormatText(pieces), 0, ap, 0))
  {
    var fmt := FormatText(pieces);
    assert fmt[0..|fmt|] == fmt;
    hide Renders, Format;
    PiecesRender(fmt, 0, pieces, ap, 0);
  }

  /** A conversion of one argument, without stars. */
  predicate Plain(d: Parts) {
    && WellFormed(d) && !d.width.FromArg? && !d.prec.FromArg?
    && d.conv in {'c', 's', 'd', 'i', 'u', 'o', 'x', 'X', 'p'}
  }

  function AsPieces(ds: seq<Parts>): seq<Piece> {
    if ds == [] then [] else [Conversion(ds[0])] + AsPieces(ds[1..])
  }

  /** One field after the other, with argument after argument. */
  ghost predicate Fields(ds: seq<Parts>, ap: Args, k: nat, out: string)
    decreases |ds|
  {
    if ds == [] then out == ""
    else
      exists s: Spec, rest: string :: FieldThen(s, ds[0], ap, k, k, out, rest) && Fields(ds[1..], ap, k + 1, rest)
  }

  lemma PlainTakes(d: Parts)
    requires Plain(d)
    ensures WidthStars(d) == PrecStars(d) == 0 && Takes(d) == 1
  {
  }

  lemma PercentTakes(d: Parts)
    requires d.conv == '%' && !d.width.FromArg? && !d.prec.FromArg?
    ensures Takes(d) == 0
  {
  }

  lemma RendersHead(pieces: seq<Piece>, ap: Args, k: nat, out: string) returns (s: Spec, rest: string)
    requires pieces != [] && pieces[0].Conversion? && Renders(pieces, ap, k, out)
    ensures var d := pieces[0].d;
            FieldThen(s, d, ap, k, ValueAt(d, k), out, rest) && Renders(pieces[1..], ap, k + Takes(d), rest)
  {
    hide FieldThen, Takes, ValueAt;
    var d := pieces[0].d;
    s, rest :| FieldThen(s, d, ap, k, ValueAt(d, k), out, rest) && Renders(pieces[1..], ap, k + Takes(d), rest);
  }

  lemma FirstPlain(ds: seq<Parts>, ap: Args, k: nat, out: string) returns (s: Spec, rest: string)
    requires ds != [] && Plain(ds[0]) && Renders(AsPieces(ds), ap, k, out)
    ensures FieldThen(s, ds[0], ap, k, k, out, rest) && Renders(AsPieces(ds[1..]), ap, k + 1, rest)
  {
    hide FieldThen, Renders, Plain, Takes;
    PlainTakes(ds[0]);
    assert AsPieces(ds)[0] == Conversion(ds[0]) && AsPieces(ds)[1..] == AsPieces(ds[1..]);
    s, rest := RendersHead(AsPieces(ds), ap, k, out);
  }

  lemma FieldsCons(ds: seq<Parts>, ap: Args, k: nat, s: Spec, out: string, rest: string)
    requires ds != [] && FieldThen(s, ds[0], ap, k, k, out, rest) && Fields(ds[1..], ap, k + 1, rest)
    ensures Fields(ds, ap, k, out)
  {
    hide FieldThen;
  }

  lemma {:induction false} PlainRenders(ds: seq<Parts>, ap: Args, k: nat, out: string)
    requires (forall i :: 0 <= i < |ds| ==> Plain(ds[i])) && Renders(AsPieces(ds), ap, k, out)
    ensures Fields(ds, ap, k, out)
    decreases |ds|
  {
    if ds != [] {
      hide FieldThen, Plain, Renders, Fields, AsPieces;
      var s, rest := FirstPlain(ds, ap, k, out);
      PlainRenders(ds[1..], ap, k + 1, rest);
      FieldsCons(ds, ap, k, s, out, rest);
    }
  }

  lemma PlainOk(d: Parts)
    requires Plain(d)
    ensures WellFormed(d)
  {
  }

  lemma {:induction false} PlainPieces(ds: seq<Parts>)
    requires forall i :: 0 <= i < |ds| ==> Plain(ds[i])
    ensures PiecesOk(AsPieces(ds))
  {
    if ds != [] {
      PlainOk(ds[0]);
      PlainPieces(ds[1..]);
      assert AsPieces(ds)[1..] == AsPieces(ds[1..]);
    }
  }

  /** A format of `n` plain conversions prints the arguments 0 to `n - 1`, in order. */
  lemma ArgumentsInOrder(ds: seq<Parts>, ap: Args)
    requires forall i :: 0 <= i < |ds| ==> Plain(ds[i])
    ensures Fields(ds, ap, 0, Format(FormatText(AsPieces(ds)), 0, ap, 0))
  {
    hide Fields, Renders, Format, FormatText, Plain;
    PlainPieces(ds);
    FormatMeans(AsPieces(ds), ap);
    PlainRenders(ds, ap, 0, Format(FormatText(AsPieces(ds)), 0, ap, 0));
  }

  // ----- Texts, characters and the percent sign -----

  /** A text field: the text, cut to the precision, with blanks on the side that '-'
      leaves; the '0' flag does not count. */
  function TextField(s: Spec, text: string): string {
    var gap := s.width - |text|;
    if s.left then text + Rep(' ', gap) else Rep(' ', gap) + text
  }

  /** The text of a '%s', '%c' or '%%'. */
  function Shown(s: Spec, a: Arg): string {
    if s.conv == '%' then "%"
    else if s.conv == 'c' then [(ToInt(a.num) % 256) as char]
    else if a.str.Null? then ""
    else if s.precise && s.prec < |a.str.s| then a.str.s[..s.prec]
    else a.str.s
  }

  lemma TextLayout(s: Spec, a: Arg)
    requires IsTextual(s.conv) && s.width < 0x8000_0000 && |Shown(s, a)| < 0x8000_0000
    ensures Render(TextualItem(s, a)) == TextField(s, Shown(s, a))
  {
    var it, text := TextualItem(s, a), Shown(s, a);
    assert it.text == text && it.ind == 0 && it.zeros == 0 && it.spec.width == s.width && it.spec.left == s.left && !it.spec.zero;
    hide TextualItem, Shown;
    assert text[0..] == text && Middle(it) == "" && Last(it) == text;
    var gap := s.width - |text|;
    assert Gap(it) == gap;
    hide Rep, Middle, Last, Gap;
    if s.left {
      assert "" + "" + text + Rep(' ', gap) == text + Rep(' ', gap);
    } else {
      assert Rep(' ', gap) + "" + text + "" == Rep(' ', gap) + text;
    }
  }

  /** An unknown conversion prints its character. */
  lemma UnknownPrinted(s: Spec, c: char)
    ensures Render(UnknownItem(s, c)) == if c == NUL then "" else [c]
  {
    var it := UnknownItem(s, c);
    assert it.text[0..] == it.text && Rep(' ', -1) == "" && Rep(' ', 0) == "";
    assert it.text + "" == it.text && "" + it.text == it.text;
  }
}
