/** The portable vsnprintf of libopm: the loop that writes into a bounded buffer.

    Every piece of a field is written as far as the buffer reaches, while the
    length goes on counting. */
module SnprintfBuffer {
  import opened Buffers
  import opened CIntegers
  import opened Snprintf

  /** The buffer, of which `m` bytes may be written, holds as much of `out` as
      fits and is otherwise as it was. */
  ghost predicate Holds(cur: seq<char>, orig: seq<char>, m: nat, out: string) {
    && |cur| == |orig| && m <= |cur|
    && cur[..Min(|out|, m)] == out[..Min(|out|, m)]
    && cur[Min(|out|, m)..] == orig[Min(|out|, m)..]
  }

  /** Copies a piece of text, as much of it as there is room for. */
  method Emit(str: array<char>, m: nat, strL: nat, piece: string, ghost orig: seq<char>, ghost out: string) returns (newL: nat)
    requires strL == |out| && Holds(str[..], orig, m, out)
    modifies str
    ensures newL == |out + piece| && Holds(str[..], orig, m, out + piece)
  {
    if strL < m {
      var avail := m - strL;
      var n := if |piece| > avail then avail else |piece|;
      for i := 0 to n
        invariant str[..strL + i] == out + piece[..i]
        invariant str[strL + i..] == orig[strL + i..]
      {
        str[strL + i] := piece[i];
        assert str[..strL + i + 1] == str[..strL + i] + [piece[i]];
      }
      assert (out + piece)[..strL + n] == out + piece[..n];
    } else {
      assert (out + piece)[..m] == out[..m];
    }
    newL := strL + |piece|;
  }

  /** Decimal digits from position `p` on. */
  method ReadNumber(fmt: string, p: nat) returns (uj: nat, q: nat)
    requires p <= |fmt|
    ensures (uj, q) == Number(fmt, 0, p)
  {
    uj, q := 0, p;
    while IsDigit(At(fmt, q))
      invariant p <= q <= |fmt|
      invariant Number(fmt, 0, p) == Number(fmt, uj, q)
      decreases |fmt| - q
    {
      uj := ToUInt(10 * uj + (fmt[q] as int - '0' as int));
      q := q + 1;
    }
  }

  method ReadFlags(fmt: string, start: nat) returns (s: Spec, p: nat)
    requires start <= |fmt|
    ensures (s, p) == Flags(fmt, PLAIN, start)
  {
    s, p := PLAIN, start;
    while IsFlag(At(fmt, p))
      invariant start <= p <= |fmt|
      invariant Flags(fmt, PLAIN, start) == Flags(fmt, s, p)
      decreases |fmt| - p
    {
      s := SetFlag(s, fmt[p]);
      p := p + 1;
    }
  }

  method ReadWidth(fmt: string, c: Cursor, ap: Args) returns (r: Cursor)
    requires c.p <= |fmt|
    ensures r == Width(fmt, c, ap)
  {
    var s, p, k := c.spec, c.p, c.k;
    if At(fmt, p) == '*' {
      p := p + 1;
      var j := ToInt(ap(k).num);
      k := k + 1;
      if j >= 0 {
        s := s.(width := j);
      } else {
        s := s.(width := -j, left := true);
      }
    } else if IsDigit(At(fmt, p)) {
      var w;
      w, p := ReadNumber(fmt, p);
      s := s.(width := w);
    }
    r := Cursor(s, p, k);
  }

  method ReadPrecision(fmt: string, c: Cursor, ap: Args) returns (r: Cursor)
    requires c.p <= |fmt|
    ensures r == Precision(fmt, c, ap)
  {
    var s, p, k := c.spec, c.p, c.k;
    if At(fmt, p) == '.' {
      p := p + 1;
      s := s.(precise := true);
      if At(fmt, p) == '*' {
        var j := ToInt(ap(k).num);
        k := k + 1;
        p := p + 1;
        if j >= 0 {
          s := s.(prec := j);
        } else {
          s := s.(precise := false, prec := 0);
        }
      } else if IsDigit(At(fmt, p)) {
        var n;
        n, p := ReadNumber(fmt, p);
        s := s.(prec := n);
      }
    }
    r := Cursor(s, p, k);
  }

  method ReadModifier(fmt: string, c: Cursor) returns (r: Cursor)
    requires c.p <= |fmt|
    ensures r == Modifier(fmt, c)
  {
    var s, p := c.spec, c.p;
    if At(fmt, p) == 'h' || At(fmt, p) == 'l' {
      s := s.(mod := fmt[p]);
      p := p + 1;
      if s.mod == 'l' && At(fmt, p) == 'l' {
        p := p + 1;
      }
    }
    r := Cursor(s, p, c.k);
  }

  /** Reads a conversion specification up to its conversion character. */
  method ReadDirective(fmt: string, start: nat, ap: Args, k: nat) returns (c: Cursor)
    requires start < |fmt| && fmt[start] == '%'
    ensures c == Directive(fmt, start, ap, k)
  {
    var s, p := ReadFlags(fmt, start + 1);
    c := ReadWidth(fmt, Cursor(s, p, k), ap);
    c := ReadPrecision(fmt, c, ap);
    c := ReadModifier(fmt, c);
    c := c.(spec := Synonym(c.spec.(conv := At(fmt, c.p))));
  }

  /** Sign or base and digits of a numeric conversion, and where zeros go. */
  method WriteNumber(s: Spec, a: Arg) returns (text: string, ind: nat)
    ensures (text, ind) == NumberText(s, a)
  {
    hide HostText, Value;
    var argSign := Value(s, a);
    text := "";
    if s.conv == 'd' {
      if s.sign && argSign >= 0 {
        text := if s.space then " " else "+";
      }
    } else if s.alt {
      if argSign != 0 && (s.conv == 'x' || s.conv == 'X') {
        text := ['0', s.conv];
      }
    }
    ind := |text|;
    if !Vanishes(s, argSign) {
      text := text + HostText(s, a);
      if ind < |text| && text[ind] == '-' {
        ind := ind + 1;
      }
      if ind + 1 < |text| && text[ind] == '0' && (text[ind + 1] == 'x' || text[ind + 1] == 'X') {
        ind := ind + 2;
      }
    }
  }

  method CountZeros(s: Spec, text: string, ind: nat) returns (zeros: nat)
    requires ind <= |text|
    ensures zeros == ZeroCount(s, text, ind)
  {
    var precision := if s.precise then s.prec else 1;
    var digits := |text| - ind;
    if s.alt && s.conv == 'o' && !(ind < |text| && text[ind] == '0') {
      if !s.precise || precision < digits + 1 {
        precision := digits + 1;
      }
    }
    zeros := 0;
    if digits < precision {
      zeros := precision - digits;
    }
    if !s.left && s.zero {
      var n := ToInt(s.width - (|text| + zeros));
      if n > 0 {
        zeros := zeros + n;
      }
    }
  }

  /** Chooses the conversion. */
  method Convert(s: Spec, conv: char, a: Arg) returns (it: Item)
    ensures it == ItemOf(s, conv, a)
  {
    if IsTextual(s.conv) {
      it := TextualItem(s, a);
    } else if IsNumeric(s.conv) {
      var text, ind := WriteNumber(s, a);
      var zeros := CountZeros(ZeroOff(s), text, ind);
      it := Item(text, ind, zeros, ZeroOff(s));
    } else {
      it := UnknownItem(s, conv);
    }
  }

  method WriteLeft(str: array<char>, m: nat, strL: nat, it: Item, ghost orig: seq<char>, ghost out: string) returns (newL: nat)
    requires strL == |out| && Holds(str[..], orig, m, out)
    modifies str
    ensures newL == |out + Left(it)| && Holds(str[..], orig, m, out + Left(it))
  {
    hide Holds;
    newL := strL;
    if !it.spec.left {
      newL := Emit(str, m, newL, Rep(if it.spec.zero then '0' else ' ', Gap(it)), orig, out);
    } else {
      assert out + "" == out;
    }
  }

  method WriteMiddle(str: array<char>, m: nat, strL: nat, it: Item, ghost orig: seq<char>, ghost out: string) returns (newL: nat)
    requires it.ind <= |it.text|
    requires strL == |out| && Holds(str[..], orig, m, out)
    modifies str
    ensures newL == |out + Middle(it)| && Holds(str[..], orig, m, out + Middle(it))
  {
    hide Holds;
    newL := strL;
    if it.zeros != 0 {
      var first, zeros := Clip(it.text[..it.ind]), Rep('0', ToInt(it.zeros));
      newL := Emit(str, m, newL, first, orig, out);
      newL := Emit(str, m, newL, zeros, orig, out + first);
      assert out + first + zeros == out + (first + zeros);
    } else {
      assert out + "" == out;
    }
  }

  method WriteRight(str: array<char>, m: nat, strL: nat, it: Item, ghost orig: seq<char>, ghost out: string) returns (newL: nat)
    requires strL == |out| && Holds(str[..], orig, m, out)
    modifies str
    ensures newL == |out + Right(it)| && Holds(str[..], orig, m, out + Right(it))
  {
    hide Holds;
    newL := strL;
    if it.spec.left {
      newL := Emit(str, m, newL, Rep(' ', Gap(it)), orig, out);
    } else {
      assert out + "" == out;
    }
  }

  /** Writes a field: left padding, first part and zeros, the rest, right padding. */
  method WriteField(str: array<char>, m: nat, strL: nat, it: Item, ghost orig: seq<char>, ghost out: string) returns (newL: nat)
    requires it.ind <= |it.text|
    requires strL == |out| && Holds(str[..], orig, m, out)
    modifies str
    ensures newL == |out + Render(it)| && Holds(str[..], orig, m, out + Render(it))
  {
    hide Holds, Left, Middle, Right, Clip;
    newL := WriteLeft(str, m, strL, it, orig, out);
    newL := WriteMiddle(str, m, newL, it, orig, out + Left(it));
    newL := Emit(str, m, newL, Clip(it.text[if it.zeros == 0 then 0 else it.ind..]), orig, out + Left(it) + Middle(it));
    newL := WriteRight(str, m, newL, it, orig, out + Left(it) + Middle(it) + Last(it));
    assert out + Render(it) == out + Left(it) + Middle(it) + Last(it) + Right(it);
  }

  lemma Terminate(cur: seq<char>, orig: seq<char>, m: nat, out: string)
    requires m > 0 && Holds(cur, orig, m, out)
    ensures var n := Min(|out|, m - 1);
            && n < |cur| == |orig|
            && cur[n := NUL][..n] == out[..n]
            && cur[n := NUL][n + 1..] == orig[n + 1..]
  {
    var n := Min(|out|, m - 1);
    var w := Min(|out|, m);
    assert cur[n := NUL][..n] == cur[..w][..n];
    assert orig[n + 1..] == orig[w..][n + 1 - w..];
    assert cur[n := NUL][n + 1..] == cur[w..][n + 1 - w..];
  }

  lemma NoRoom(cur: seq<char>, orig: seq<char>, out: string)
    requires Holds(cur, orig, 0, out)
    ensures cur == orig
  {
    assert cur[0..] == cur && orig[0..] == orig;
  }

  lemma HoldsNothing(orig: seq<char>, m: nat)
    requires m <= |orig|
    ensures Holds(orig, orig, m, "")
  {
  }

  lemma FormatEnd(fmt: string, p: nat, ap: Args, k: nat)
    requires p <= |fmt| && At(fmt, p) == NUL
    ensures Format(fmt, p, ap, k) == ""
  {
  }

  /** Length of the run of ordinary characters from `p` on. */
  method LiteralRun(fmt: string, p: nat) returns (n: nat)
    requires p < |fmt| && fmt[p] != '%' && fmt[p] != NUL
    ensures 0 < n <= |fmt| - p
    ensures forall i :: p <= i < p + n ==> fmt[i] != '%' && fmt[i] != NUL
  {
    n := 1;
    while At(fmt, p + n) != NUL && At(fmt, p + n) != '%'
      invariant 0 < n <= |fmt| - p
      invariant forall i :: p <= i < p + n ==> fmt[i] != '%' && fmt[i] != NUL
      decreases |fmt| - p - n
    {
      n := n + 1;
    }
  }

  lemma FormatOne(fmt: string, p: nat, ap: Args, k: nat)
    requires p < |fmt| && fmt[p] != '%' && fmt[p] != NUL
    ensures Format(fmt, p, ap, k) == [fmt[p]] + Format(fmt, p + 1, ap, k)
  {
  }

  lemma {:induction false} FormatLiteral(fmt: string, p: nat, n: nat, ap: Args, k: nat)
    requires p + n <= |fmt|
    requires forall i :: p <= i < p + n ==> fmt[i] != '%' && fmt[i] != NUL
    ensures Format(fmt, p, ap, k) == fmt[p..p + n] + Format(fmt, p + n, ap, k)
    decreases n
  {
    hide Format;
    if n > 0 {
      FormatLiteral(fmt, p + 1, n - 1, ap, k);
      FormatOne(fmt, p, ap, k);
      assert fmt[p..p + n] == [fmt[p]] + fmt[p + 1..p + n];
    } else {
      assert fmt[p..p] == "" && "" + Format(fmt, p, ap, k) == Format(fmt, p, ap, k);
    }
  }

  /** The loop over the format. */
  method Write(str: array<char>, m: nat, fmt: string, ap: Args) returns (strL: nat)
    requires m <= str.Length
    modifies str
    ensures strL == |Format(fmt, 0, ap, 0)|
    ensures Holds(str[..], old(str[..]), m, Format(fmt, 0, ap, 0))
  {
    hide Render, ItemOf, Directive, Format, Holds;
    ghost var orig := str[..];
    ghost var out := "";
    var p: nat, k: nat := 0, 0;
    strL := 0;
    HoldsNothing(orig, m);
    assert "" + Format(fmt, 0, ap, 0) == Format(fmt, 0, ap, 0);
    while At(fmt, p) != NUL
      invariant p <= |fmt| && strL == |out|
      invariant Holds(str[..], orig, m, out)
      invariant Format(fmt, 0, ap, 0) == out + Format(fmt, p, ap, k)
      decreases |fmt| - p
    {
      if fmt[p] != '%' {
        var n := LiteralRun(fmt, p);
        FormatLiteral(fmt, p, n, ap, k);
        strL := Emit(str, m, strL, fmt[p..p + n], orig, out);
        assert out + (fmt[p..p + n] + Format(fmt, p + n, ap, k)) == (out + fmt[p..p + n]) + Format(fmt, p + n, ap, k);
        out := out + fmt[p..p + n];
        p := p + n;
      } else {
        var c := ReadDirective(fmt, p, ap, k);
        var conv := At(fmt, c.p);
        FormatDirective(fmt, p, ap, k);
        var it := Convert(c.spec, conv, ap(c.k));
        strL := WriteField(str, m, strL, it, orig, out);
        k := c.k + Taken(c.spec.conv);
        p := if conv != NUL then c.p + 1 else c.p;
        assert out + (Render(it) + Format(fmt, p, ap, k)) == (out + Render(it)) + Format(fmt, p, ap, k);
        out := out + Render(it);
      }
    }
    FormatEnd(fmt, p, ap, k);
    assert out + "" == out;
  }

  /** `portable_vsnprintf(str, str_m, fmt, ap)`: the result is the length of the
      unbounded text, as an int; if there is any room, the buffer holds the text
      cut to fit, then NUL; nothing behind the NUL is touched. */
  method Vsnprintf(str: array<char>, m: nat, fmt: string, ap: Args) returns (result: int)
    requires m <= str.Length
    modifies str
    ensures var out := Format(fmt, 0, ap, 0);
            && result == ToInt(|out|)
            && (m == 0 ==> str[..] == old(str[..]))
            && (m > 0 ==>
                  var n := Min(|out|, m - 1);
                  str[..n] == out[..n] && str[n] == NUL && str[n + 1..] == old(str[..])[n + 1..])
  {
    hide Format, Holds;
    ghost var out := Format(fmt, 0, ap, 0);
    var strL := Write(str, m, fmt, ap);
    if m > 0 {
      Terminate(str[..], old(str[..]), m, out);
      ghost var cur := str[..];
      var j := if strL <= m - 1 then strL else m - 1;
      str[j] := NUL;
      assert str[..] == cur[j := NUL];
    } else {
      NoRoom(str[..], old(str[..]), out);
    }
    result := ToInt(strL);
  }
}
