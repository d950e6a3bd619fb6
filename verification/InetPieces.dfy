/** How the IPv6 parser reads a text, piece by piece.

    A piece is what stands between two colons. The loop over the characters is a
    fold over the pieces, and the fold has a closed form: for every text, what is
    accepted and with which address. */
module InetPieces {
  import opened Wrappers
  import opened CStrings
  import opened Snprintf
  import opened SnprintfFields
  import opened Inet
  import opened InetQuads

  // ----- The pieces between colons -----

  /** Where the first `c` stands, or the length of the text. */
  function First(c: char, s: string): (k: nat)
    ensures k <= |s| && (k < |s| ==> s[k] == c)
  {
    if s == "" || s[0] == c then 0 else 1 + First(c, s[1..])
  }

  lemma {:induction false} FirstFree(c: char, s: string)
    ensures c !in s[..First(c, s)]
  {
    if s != "" && s[0] != c {
      FirstFree(c, s[1..]);
      var k := First(c, s[1..]);
      assert s[..k + 1] == [s[0]] + s[1..][..k];
    }
  }

  function Pieces(s: string): (ps: seq<string>)
    ensures ps != []
    decreases |s|
  {
    var k := First(':', s);
    if k == |s| then [s] else [s[..k]] + Pieces(s[k + 1..])
  }

  function Join(ps: seq<string>): string {
    if ps == [] then "" else if |ps| == 1 then ps[0] else ps[0] + ":" + Join(ps[1..])
  }

  predicate ColonFree(ps: seq<string>) {
    forall i :: 0 <= i < |ps| ==> ':' !in ps[i]
  }

  lemma {:induction false} PiecesJoin(s: string)
    ensures ColonFree(Pieces(s)) && Join(Pieces(s)) == s
    decreases |s|
  {
    var k := First(':', s);
    FirstFree(':', s);
    if k < |s| {
      PiecesJoin(s[k + 1..]);
      assert s == s[..k] + ":" + s[k + 1..];
      assert ([s[..k]] + Pieces(s[k + 1..]))[1..] == Pieces(s[k + 1..]);
    } else {
      assert s[..k] == s;
    }
  }

  lemma {:induction false} FirstIs(c: char, a: string, rest: string)
    requires c !in a && (rest != "" ==> rest[0] == c)
    ensures First(c, a + rest) == |a|
    decreases |a|
  {
    if a == "" {
      assert a + rest == rest;
    } else {
      assert (a + rest)[1..] == a[1..] + rest;
      FirstIs(c, a[1..], rest);
    }
  }

  lemma {:induction false} JoinPieces(ps: seq<string>)
    requires ps != [] && ColonFree(ps)
    ensures Pieces(Join(ps)) == ps
  {
    var p := ps[0];
    if |ps| == 1 {
      FirstIs(':', p, "");
      assert p + "" == p;
    } else {
      JoinPieces(ps[1..]);
      var tail := Join(ps[1..]);
      assert p + ":" + tail == p + (":" + tail);
      FirstIs(':', p, ":" + tail);
      var s := p + ":" + tail;
      assert s[..|p|] == p && s[|p| + 1..] == tail;
    }
  }

  // ----- What a piece stands for -----

  /** The hexadecimal digits of a piece, in lower case. */
  function Hexes(p: string): string {
    if p == "" then ""
    else
      var c := ToLower(p[|p| - 1]);
      Hexes(p[..|p| - 1]) + if IsXDigit(c) then [c] else ""
  }

  function HexValue(p: string): nat {
    DigitsValue(Hexes(p), Hex)
  }

  predicate IsGap(p: string) {
    '.' !in p && Hexes(p) == ""
  }

  predicate IsGroup(p: string) {
    '.' !in p && Hexes(p) != "" && HexValue(p) <= 0xffff
  }

  predicate AreGroups(ps: seq<string>) {
    forall i :: 0 <= i < |ps| ==> IsGroup(ps[i])
  }

  function GroupBytes(p: string): (b: seq<byte>)
    ensures IsGroup(p) ==> |b| == 2
  {
    if HexValue(p) <= 0xffff then [Hi(HexValue(p)), Lo(HexValue(p))] else []
  }

  function BytesIn(ps: seq<string>): seq<byte> {
    if ps == [] then [] else GroupBytes(ps[0]) + BytesIn(ps[1..])
  }

  /** The last piece without a dot at its end. */
  function Chop(p: string): string {
    if p != "" && p[|p| - 1] == '.' then p[..|p| - 1] else p
  }

  /** The last piece is a dotted quad if a dot stands in front of its end;
      otherwise it is a group or nothing. */
  function LastBytes(p: string): Option<seq<byte>> {
    var q := Chop(p);
    if '.' in q then Pton4(p)
    else if Hexes(q) == "" then Some([])
    else if HexValue(q) <= 0xffff then Some(GroupBytes(q))
    else None
  }

  /** Groups up to the last piece, which must not be missing behind a group. */
  predicate RestOk(ps: seq<string>)
    requires ps != []
  {
    var n := |ps| - 1;
    AreGroups(ps[..n]) && LastBytes(ps[n]).Some? && (ps[n] == "" ==> n == 0)
  }

  function RestBytes(ps: seq<string>): seq<byte>
    requires ps != [] && RestOk(ps)
  {
    BytesIn(ps[..|ps| - 1]) + LastBytes(ps[|ps| - 1]).value
  }

  /** Without a gap, the bytes behind `b` fill the address. */
  ghost predicate Full(b: seq<byte>, ps: seq<string>, a: seq<byte>)
    requires ps != []
  {
    RestOk(ps) && a == b + RestBytes(ps) && |a| == 16
  }

  /** A gap at piece `k` stands for at least one byte of zeros. */
  ghost predicate Gapped(b: seq<byte>, ps: seq<string>, k: nat, a: seq<byte>)
    requires ps != []
  {
    && k < |ps| - 1 && AreGroups(ps[..k]) && IsGap(ps[k]) && RestOk(ps[k + 1..])
    && var front, back := b + BytesIn(ps[..k]), RestBytes(ps[k + 1..]);
       |front| + |back| < 16 && a == front + Zeros(16 - |front| - |back|) + back
  }

  /** The text behind the first colon of a double colon at its start. */
  function WithoutLead(src: string): string {
    if src != "" && src[0] == ':' then src[1..] else src
  }

  predicate LoneColon(src: string) {
    src != "" && src[0] == ':' && (|src| == 1 || src[1] != ':')
  }

  // ----- The loop, piece by piece -----

  lemma HexesSnoc(p: string)
    requires p != ""
    ensures var q, c := p[..|p| - 1], ToLower(p[|p| - 1]);
            && (IsXDigit(c) ==> Hexes(p) != "" && HexValue(p) == 16 * HexValue(q) + XValue(c))
            && (!IsXDigit(c) ==> Hexes(p) == Hexes(q) && HexValue(p) == HexValue(q))
  {
    var q, c := p[..|p| - 1], ToLower(p[|p| - 1]);
    if IsXDigit(c) {
      var h := Hexes(p);
      assert h == Hexes(q) + [c] && h[..|h| - 1] == Hexes(q);
    }
  }

  /** A piece is read up to its end or to its first dot. */
  lemma {:induction false} RunPiece(b: seq<byte>, c: Option<nat>, tok: string, p: string, rest: string)
    requires Sound(State6(b, c, false, 0)) && ':' !in p && '.' !in p
    ensures Run6(State6(b, c, false, 0), tok, p + rest)
         == if HexValue(p) > 0xffff then None else Run6(State6(b, c, Hexes(p) != "", HexValue(p)), tok, rest)
    decreases |p|
  {
    if p == "" {
      assert p + rest == rest;
    } else {
      var q, x := p[..|p| - 1], p[|p| - 1];
      assert p + rest == q + ([x] + rest) && ([x] + rest)[1..] == rest;
      HexesSnoc(p);
      RunPiece(b, c, tok, q, [x] + rest);
      hide Hexes, HexValue;
    }
  }

  lemma {:induction false} Run4Chars(s: State4, src: string)
    requires Run4(s, src).Some?
    ensures forall c :: c in src ==> IsDigit(c) || c == '.'
    decreases |src|
  {
    if src != "" {
      Run4Chars(Step4(s, src[0]).value, src[1..]);
      assert src == [src[0]] + src[1..];
    }
  }

  lemma Pton4Chars(src: string)
    requires Pton4(src).Some?
    ensures forall c :: c in src ==> IsDigit(c) || c == '.'
  {
    Run4Chars(START4, src);
  }

  lemma NoColonInQuad(src: string)
    ensures ':' in src ==> Pton4(src).None?
  {
    hide Pton4;
    if Pton4(src).Some? {
      Pton4Chars(src);
    }
  }

  /** A run of decimal digits of small value is small in hexadecimal as well. */
  lemma {:induction false} DecimalIsSmall(d: string)
    requires AllDigits(d, Dec)
    ensures Hexes(d) == d
    ensures DigitsValue(d, Dec) <= 9 ==> DigitsValue(d, Hex) <= 0x9
    ensures DigitsValue(d, Dec) <= 99 ==> DigitsValue(d, Hex) <= 0x99
    ensures DigitsValue(d, Dec) <= 999 ==> DigitsValue(d, Hex) <= 0x999
    decreases |d|
  {
    if d != "" {
      DecimalIsSmall(d[..|d| - 1]);
      assert IsDigitOf(d[|d| - 1], Dec);
      assert ToLower(d[|d| - 1]) == d[|d| - 1];
    }
  }

  lemma FirstDot(src: string, k: nat)
    requires k < |src| && AllDigits(src[..k], Dec) && src[k] == '.'
    ensures First('.', src) == k
  {
    forall i | 0 <= i < k
      ensures src[..k][i] != '.'
    {
      assert IsDigitOf(src[..k][i], Dec);
    }
    assert src == src[..k] + src[k..];
    FirstIs('.', src[..k], src[k..]);
  }

  lemma QuadValue(d: string, v: byte)
    requires Octet(d, v)
    ensures HexValue(d) <= 0xffff
  {
    DecimalIsSmall(d);
  }

  /** In front of the first dot of a quad nothing overflows. */
  lemma QuadBegins(src: string)
    requires Pton4(src).Some?
    ensures HexValue(src[..First('.', src)]) <= 0xffff
  {
    hide Pton4, HexValue, AllDigits, DigitsValue;
    var v := Pton4(src).value;
    Pton4IsQuads(src, v);
    var k := Head(src);
    FirstDot(src, k);
    assert Octet(src[..k], v[0]);
    QuadValue(src[..k], v[0]);
  }

  lemma RunColon(b: seq<byte>, c: Option<nat>, saw: bool, val: word, tok: string, rest: string)
    requires Sound(State6(b, c, saw, val))
    ensures Run6(State6(b, c, saw, val), tok, ":" + rest)
         == if !saw then
              (if c.Some? then None else Run6(State6(b, Some(|b|), saw, val), rest, rest))
            else if rest == "" || |b| + 2 > 16 then None
            else Run6(State6(b + [Hi(val), Lo(val)], c, false, 0), rest, rest)
  {
    assert (":" + rest)[1..] == rest;
  }

  lemma RunDot(b: seq<byte>, c: Option<nat>, saw: bool, val: word, tok: string, rest: string)
    requires Sound(State6(b, c, saw, val))
    ensures After6(Run6(State6(b, c, saw, val), tok, "." + rest))
         == if rest == "" then Finish6(State6(b, c, saw, val))
            else if |b| + 4 > 16 then None
            else match Pton4(tok)
              case None => None
              case Some(quad) => Finish6(State6(b + quad, c, false, val))
  {
    assert ("." + rest)[1..] == rest;
    hide Finish6, Pton4;
  }

  lemma ValZero(p: string)
    requires Hexes(p) == ""
    ensures HexValue(p) == 0
  {
  }

  /** What the loop and the end make of the pieces. */
  function Fold(b: seq<byte>, c: Option<nat>, ps: seq<string>): Option<seq<byte>>
    requires ps != [] && Sound(State6(b, c, false, 0))
    decreases |ps|
  {
    if |ps| == 1 then
      match LastBytes(ps[0])
      case None => None
      case Some(x) => if |b| + |x| > 16 then None else Finish6(State6(b + x, c, false, 0))
    else if '.' in ps[0] || HexValue(ps[0]) > 0xffff then None
    else if Hexes(ps[0]) == "" then
      if c.Some? then None else Fold(b, Some(|b|), ps[1..])
    else if ps[1..] == [""] || |b| + 2 > 16 then None
    else Fold(b + GroupBytes(ps[0]), c, ps[1..])
  }

  lemma FinishGroup(b: seq<byte>, c: Option<nat>, v: word)
    requires Sound(State6(b, c, true, v))
    ensures Finish6(State6(b, c, true, v))
         == if |b| + 2 > 16 then None else Finish6(State6(b + [Hi(v), Lo(v)], c, false, 0))
  {
  }

  lemma FinishIgnores(b: seq<byte>, c: Option<nat>, v: word)
    requires Sound(State6(b, c, false, v))
    ensures Finish6(State6(b, c, false, v)) == Finish6(State6(b, c, false, 0))
  {
  }

  lemma SplitAt(c: char, s: string)
    ensures var k := First(c, s);
            s[..k] + s[k..] == s && (k < |s| ==> s[k..] == [c] + s[k + 1..])
  {
    hide First;
    var k := First(c, s);
    if k < |s| {
      assert s[k..] == [s[k]] + s[k + 1..];
    }
  }

  /** A dot with something behind it: the piece must be a quad and the last. */
  lemma RunQuad(b: seq<byte>, c: Option<nat>, s: string)
    requires Sound(State6(b, c, false, 0)) && First('.', s) < |s| - 1 && ':' !in s[..First('.', s)]
    ensures After6(Run6(State6(b, c, false, 0), s, s))
         == match Pton4(s)
            case None => None
            case Some(x) => if |b| + |x| > 16 then None else Finish6(State6(b + x, c, false, 0))
  {
    var k := First('.', s);
    SplitAt('.', s);
    FirstFree('.', s);
    RunPiece(b, c, s, s[..k], s[k..]);
    if Pton4(s).Some? {
      QuadBegins(s);
    }
    hide First, Finish6, Pton4, Hexes, HexValue, Run6;
    if HexValue(s[..k]) <= 0xffff {
      var saw, val := Hexes(s[..k]) != "", HexValue(s[..k]);
      RunDot(b, c, saw, val, s, s[k + 1..]);
      if |b| + 4 <= 16 && Pton4(s).Some? {
        FinishIgnores(b + Pton4(s).value, c, val);
      }
    }
  }

  /** The last piece, when it is no quad. */
  lemma RunLast(b: seq<byte>, c: Option<nat>, s: string)
    requires Sound(State6(b, c, false, 0)) && ':' !in s && '.' !in Chop(s)
    ensures After6(Run6(State6(b, c, false, 0), s, s)) == Fold(b, c, [s])
  {
    var q := Chop(s);
    var end := s[|q|..];
    assert s == q + end && (end == "" || end == "." + "");
    RunPiece(b, c, s, q, end);
    hide Finish6, Pton4, Hexes, Chop;
    if HexValue(q) <= 0xffff {
      var saw, val := Hexes(q) != "", HexValue(q);
      RunDot(b, c, saw, val, s, "");
      assert After6(Run6(State6(b, c, false, 0), s, s)) == Finish6(State6(b, c, saw, val));
      if saw {
        FinishGroup(b, c, val);
      } else {
        FinishIgnores(b, c, val);
        assert b + [] == b;
      }
    }
  }

  lemma ConsRest(p: string, more: seq<string>)
    ensures ([p] + more)[0] == p && ([p] + more)[1..] == more
  {
  }

  lemma OnePiece(s: string)
    requires First(':', s) == |s|
    ensures Pieces(s) == [s]
  {
  }

  lemma MorePieces(s: string)
    requires First(':', s) < |s|
    ensures var k := First(':', s);
            |Pieces(s)| >= 2 && Pieces(s)[0] == s[..k] && Pieces(s)[1..] == Pieces(s[k + 1..])
  {
    hide First;
    var p, more := s[..First(':', s)], Pieces(s[First(':', s) + 1..]);
    assert Pieces(s) == [p] + more;
    hide Pieces;
    ConsRest(p, more);
  }

  lemma ColonFreeText(s: string)
    requires First(':', s) == |s|
    ensures ':' !in s && forall k :: 0 <= k <= |s| ==> ':' !in s[..k]
  {
    FirstFree(':', s);
    assert s[..|s|] == s;
  }

  lemma EmptyPiece(s: string)
    ensures Pieces(s) == [""] <==> s == ""
  {
  }

  lemma DotInside(s: string)
    ensures '.' in Chop(s) <==> First('.', s) < |s| - 1
  {
    var k := First('.', s);
    var q := Chop(s);
    FirstFree('.', s);
    if k < |s| - 1 {
      assert q[k] == '.';
    } else if k < |s| {
      assert q == s[..k];
    } else {
      assert s[..k] == s;
    }
  }

  lemma FirstWithin(c: char, s: string, k: nat)
    requires k <= |s|
    ensures c in s[..k] ==> First(c, s) < k
  {
    if k <= First(c, s) {
      FirstFree(c, s);
      assert s[..k] == s[..First(c, s)][..k];
    }
  }

  lemma FoldQuad(b: seq<byte>, c: Option<nat>, s: string)
    requires Sound(State6(b, c, false, 0)) && '.' in Chop(s)
    ensures Fold(b, c, [s])
         == match Pton4(s)
            case None => None
            case Some(x) => if |b| + |x| > 16 then None else Finish6(State6(b + x, c, false, 0))
  {
    hide Finish6, Pton4, Chop;
  }

  lemma FoldFirst(b: seq<byte>, c: Option<nat>, ps: seq<string>)
    requires |ps| >= 2 && Sound(State6(b, c, false, 0))
    ensures var p := ps[0];
            Fold(b, c, ps) ==
            if '.' in p || HexValue(p) > 0xffff then None
            else if Hexes(p) == "" then
              (if c.Some? then None else Fold(b, Some(|b|), ps[1..]))
            else if ps[1..] == [""] || |b| + 2 > 16 then None
            else Fold(b + GroupBytes(p), c, ps[1..])
  {
    hide Finish6, Pton4, Chop, Hexes, HexValue;
  }

  /** The first of several pieces. */
  lemma RunFirst(b: seq<byte>, c: Option<nat>, s: string)
    requires Sound(State6(b, c, false, 0)) && First(':', s) < |s|
    ensures var k := First(':', s);
            var p, rest := s[..k], s[k + 1..];
            After6(Run6(State6(b, c, false, 0), s, s)) ==
            if '.' in p || HexValue(p) > 0xffff then None
            else if Hexes(p) == "" then
              (if c.Some? then None else After6(Run6(State6(b, Some(|b|), false, 0), rest, rest)))
            else if rest == "" || |b| + 2 > 16 then None
            else After6(Run6(State6(b + GroupBytes(p), c, false, 0), rest, rest))
  {
    hide Finish6, Pton4, Hexes, HexValue, First, Run6;
    var k := First(':', s);
    var p, rest := s[..k], s[k + 1..];
    SplitAt(':', s);
    FirstFree(':', s);
    if '.' in p {
      FirstWithin('.', s, k);
      var d := First('.', s);
      assert forall i :: 0 <= i < d ==> s[..d][i] == p[i];
      RunQuad(b, c, s);
      assert s[k] in s;
      NoColonInQuad(s);
    } else {
      RunPiece(b, c, s, p, s[k..]);
      if HexValue(p) <= 0xffff {
        RunColon(b, c, Hexes(p) != "", HexValue(p), s, rest);
        if Hexes(p) == "" {
          ValZero(p);
        }
      }
    }
  }

  /** The parser's loop over a text is the fold over its pieces. */
  lemma {:induction false} RunIsFold(b: seq<byte>, c: Option<nat>, s: string)
    requires Sound(State6(b, c, false, 0))
    ensures After6(Run6(State6(b, c, false, 0), s, s)) == Fold(b, c, Pieces(s))
    decreases |s|
  {
    hide First, Pieces, Finish6, Pton4, Hexes, HexValue, Chop, Run6, Fold;
    DotInside(s);
    var k := First(':', s);
    if k == |s| {
      OnePiece(s);
      ColonFreeText(s);
      if '.' in Chop(s) {
        RunQuad(b, c, s);
        FoldQuad(b, c, s);
      } else {
        RunLast(b, c, s);
      }
    } else {
      MorePieces(s);
      RunFirst(b, c, s);
      FoldFirst(b, c, Pieces(s));
      var p, rest := s[..k], s[k + 1..];
      EmptyPiece(rest);
      if '.' !in p && HexValue(p) <= 0xffff {
        if Hexes(p) == "" {
          if c.None? {
            RunIsFold(b, Some(|b|), rest);
          }
        } else if rest != "" && |b| + 2 <= 16 {
          RunIsFold(b + GroupBytes(p), c, rest);
        }
      }
    }
  }

  // ----- The fold in closed form -----

  lemma GroupsCons(ps: seq<string>)
    requires ps != []
    ensures AreGroups(ps) <==> IsGroup(ps[0]) && AreGroups(ps[1..])
    ensures BytesIn(ps) == GroupBytes(ps[0]) + BytesIn(ps[1..])
  {
    hide IsGroup, GroupBytes;
    if IsGroup(ps[0]) && AreGroups(ps[1..]) {
      forall i | 0 <= i < |ps|
        ensures IsGroup(ps[i])
      {
        assert i > 0 ==> ps[i] == ps[1..][i - 1];
      }
    }
  }

  lemma RestStep(ps: seq<string>)
    requires |ps| >= 2
    ensures RestOk(ps) <==> IsGroup(ps[0]) && ps[1..] != [""] && RestOk(ps[1..])
    ensures RestOk(ps) ==> RestBytes(ps) == GroupBytes(ps[0]) + RestBytes(ps[1..])
  {
    hide IsGroup, LastBytes, GroupBytes;
    var n := |ps| - 1;
    assert ps[1..] == [""] <==> n == 1 && ps[1] == "";
    GroupsCons(ps[..n]);
    assert ps[..n][1..] == ps[1..][..n - 1];
  }

  /** The bytes `b` with `x` behind them, and zeros at `j`. */
  function Spread(b: seq<byte>, j: nat, x: seq<byte>): seq<byte>
    requires j <= |b| && |b| + |x| < 16
  {
    b[..j] + Zeros(16 - |b| - |x|) + (b[j..] + x)
  }

  lemma SpreadStep(b: seq<byte>, g: seq<byte>, j: nat, x: seq<byte>)
    requires j <= |b| && |b| + |g| + |x| < 16
    ensures Spread(b + g, j, x) == Spread(b, j, g + x)
  {
    assert (b + g)[..j] == b[..j];
    assert (b + g)[j..] + x == b[j..] + (g + x);
  }

  lemma FinishSpread(b: seq<byte>, j: nat, x: seq<byte>)
    requires j <= |b| && |b| + |x| <= 16
    ensures Finish6(State6(b + x, Some(j), false, 0)) == if |b| + |x| < 16 then Some(Spread(b, j, x)) else None
  {
    assert (b + x)[..j] == b[..j] && (b + x)[j..] == b[j..] + x;
  }

  lemma RestOne(p: string)
    ensures RestOk([p]) <==> LastBytes(p).Some?
    ensures RestOk([p]) ==> RestBytes([p]) == LastBytes(p).value
  {
    hide LastBytes;
    assert [p][..0] == [] && BytesIn([]) == [];
    if LastBytes(p).Some? {
      assert [] + LastBytes(p).value == LastBytes(p).value;
    }
  }

  lemma {:induction false} FoldTail(b: seq<byte>, j: nat, ps: seq<string>, a: seq<byte>)
    requires ps != [] && j <= |b| <= 16
    ensures Fold(b, Some(j), ps) == Some(a) <==>
            RestOk(ps) && |b| + |RestBytes(ps)| < 16 && a == Spread(b, j, RestBytes(ps))
    decreases |ps|
  {
    hide LastBytes, RestOk, RestBytes, Hexes, HexValue, Finish6, Spread;
    if |ps| == 1 {
      RestOne(ps[0]);
      assert [ps[0]] == ps;
      if RestOk(ps) && |b| + |RestBytes(ps)| <= 16 {
        FinishSpread(b, j, RestBytes(ps));
      }
    } else {
      RestStep(ps);
      FoldFirst(b, Some(j), ps);
      hide Fold;
      if IsGroup(ps[0]) && ps[1..] != [""] && |b| + 2 <= 16 {
        var g := GroupBytes(ps[0]);
        FoldTail(b + g, j, ps[1..], a);
        if RestOk(ps) && |b| + |RestBytes(ps)| < 16 {
          SpreadStep(b, g, j, RestBytes(ps[1..]));
        }
      }
    }
  }

  lemma GappedFirst(b: seq<byte>, ps: seq<string>, a: seq<byte>)
    requires |ps| >= 2
    ensures Gapped(b, ps, 0, a) <==>
            && IsGap(ps[0]) && RestOk(ps[1..]) && |b| + |RestBytes(ps[1..])| < 16
            && a == b + Zeros(16 - |b| - |RestBytes(ps[1..])|) + RestBytes(ps[1..])
  {
    hide IsGap, IsGroup, RestOk, RestBytes, GroupBytes;
    assert ps[..0] == [] && b + BytesIn([]) == b;
  }

  lemma GappedLater(b: seq<byte>, ps: seq<string>, k: nat, a: seq<byte>)
    requires |ps| >= 2 && k > 0
    ensures Gapped(b, ps, k, a) <==> IsGroup(ps[0]) && Gapped(b + GroupBytes(ps[0]), ps[1..], k - 1, a)
  {
    hide IsGroup, IsGap, GroupBytes, RestOk, RestBytes;
    if k < |ps| - 1 {
      assert ps[k + 1..] == ps[1..][k..] && ps[k] == ps[1..][k - 1];
      GroupsCons(ps[..k]);
      assert ps[..k][1..] == ps[1..][..k - 1];
      assert BytesIn(ps[..k]) == GroupBytes(ps[0]) + BytesIn(ps[1..][..k - 1]);
      assert b + BytesIn(ps[..k]) == b + GroupBytes(ps[0]) + BytesIn(ps[1..][..k - 1]);
    }
  }

  ghost predicate HasGap(b: seq<byte>, ps: seq<string>, a: seq<byte>)
    requires ps != []
  {
    exists k: nat :: Gapped(b, ps, k, a)
  }

  ghost predicate Accepted(b: seq<byte>, ps: seq<string>, a: seq<byte>)
    requires ps != []
  {
    Full(b, ps, a) || HasGap(b, ps, a)
  }

  lemma AcceptedLast(b: seq<byte>, p: string, a: seq<byte>)
    requires |b| <= 16
    ensures Fold(b, None, [p]) == Some(a) <==> Accepted(b, [p], a)
  {
    hide LastBytes, RestOk, RestBytes;
    RestOne(p);
  }

  lemma GroupKeepsGap(b: seq<byte>, ps: seq<string>, a: seq<byte>)
    requires |ps| >= 2 && IsGroup(ps[0])
    ensures HasGap(b, ps, a) <==> HasGap(b + GroupBytes(ps[0]), ps[1..], a)
  {
    var c := b + GroupBytes(ps[0]);
    GappedFirst(b, ps, a);
    forall k: nat | k > 0
      ensures Gapped(b, ps, k, a) <==> Gapped(c, ps[1..], k - 1, a)
    {
      GappedLater(b, ps, k, a);
    }
    hide Gapped, IsGroup, IsGap, RestOk, RestBytes, GroupBytes;
    if k: nat :| Gapped(c, ps[1..], k, a) {
      assert Gapped(b, ps, k + 1, a);
    }
  }

  lemma GapNeedsTwo(b: seq<byte>, ps: seq<string>, a: seq<byte>)
    requires ps != [] && HasGap(b, ps, a)
    ensures |ps| >= 2
  {
  }

  /** A group in front. */
  lemma AcceptedGroup(b: seq<byte>, ps: seq<string>, a: seq<byte>)
    requires |ps| >= 2 && IsGroup(ps[0])
    ensures Accepted(b, ps, a) <==> ps[1..] != [""] && Accepted(b + GroupBytes(ps[0]), ps[1..], a)
  {
    var c := b + GroupBytes(ps[0]);
    RestStep(ps);
    GroupKeepsGap(b, ps, a);
    hide RestOk, RestBytes, HasGap, IsGroup, GroupBytes;
    if RestOk(ps) {
      assert c + RestBytes(ps[1..]) == b + RestBytes(ps);
    }
    if HasGap(c, ps[1..], a) {
      GapNeedsTwo(c, ps[1..], a);
    }
  }

  /** A gap in front. */
  lemma AcceptedGap(b: seq<byte>, ps: seq<string>, a: seq<byte>)
    requires |ps| >= 2 && !IsGroup(ps[0])
    ensures Accepted(b, ps, a) <==>
            && IsGap(ps[0]) && RestOk(ps[1..]) && |b| + |RestBytes(ps[1..])| < 16
            && a == b + Zeros(16 - |b| - |RestBytes(ps[1..])|) + RestBytes(ps[1..])
  {
    RestStep(ps);
    GappedFirst(b, ps, a);
    hide RestOk, RestBytes;
    forall k: nat | k > 0
      ensures !Gapped(b, ps, k, a)
    {
      GappedLater(b, ps, k, a);
    }
    hide Gapped;
  }

  lemma TooLong(b: seq<byte>, ps: seq<string>, a: seq<byte>)
    requires ps != [] && |b| > 16
    ensures !Accepted(b, ps, a)
  {
  }

  lemma {:induction false} FoldAccepts(b: seq<byte>, ps: seq<string>, a: seq<byte>)
    requires ps != [] && |b| <= 16
    ensures Fold(b, None, ps) == Some(a) <==> Accepted(b, ps, a)
    decreases |ps|
  {
    if |ps| == 1 {
      AcceptedLast(b, ps[0], a);
      assert [ps[0]] == ps;
    } else {
      FoldFirst(b, None, ps);
      hide Fold, Accepted, RestOk, RestBytes, Hexes, HexValue, GroupBytes;
      if IsGroup(ps[0]) {
        AcceptedGroup(b, ps, a);
        var c := b + GroupBytes(ps[0]);
        if |c| <= 16 {
          FoldAccepts(c, ps[1..], a);
        } else {
          TooLong(c, ps[1..], a);
        }
      } else {
        AcceptedGap(b, ps, a);
        FoldTail(b, |b|, ps[1..], a);
        if RestOk(ps[1..]) {
          assert b[..|b|] == b && b[|b|..] + RestBytes(ps[1..]) == RestBytes(ps[1..]);
        }
      }
    }
  }

  lemma PtonFold(src: string)
    ensures Pton6(src) == if LoneColon(src) then None else Fold([], None, Pieces(WithoutLead(src)))
  {
    hide Pieces, Fold, Run6, Finish6;
    if !LoneColon(src) {
      RunIsFold([], None, WithoutLead(src));
    }
  }

  /** For every text: `inet_pton6` answers `a` exactly if the text does not begin
      with a single colon and its pieces are groups, with at most one gap among
      them, and a group, a dotted quad or nothing at the end. A group may have any
      characters besides its digits, and a gap any that are no digits. */
  lemma Pton6IsPieces(src: string, a: seq<byte>)
    ensures Pton6(src) == Some(a) <==> !LoneColon(src) && Accepted([], Pieces(WithoutLead(src)), a)
  {
    hide Pton6, Pieces, Accepted, Fold;
    PtonFold(src);
    FoldAccepts([], Pieces(WithoutLead(src)), a);
  }
}
