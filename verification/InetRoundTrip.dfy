/** Parsing what the IPv6 printer writes gives the address back. */
module InetRoundTrip {
  import opened Wrappers
  import opened Buffers
  import opened CStrings
  import opened Snprintf
  import opened SnprintfFields
  import opened Inet
  import opened InetQuads

  // ----- The text in closed form -----

  /** Groups, each behind a colon. */
  function Groups(ws: seq<word>): string {
    if ws == [] then "" else ":" + (Digits(ws[0], Hex) + Groups(ws[1..]))
  }

  function Joined(ws: seq<word>): string {
    if ws == [] then "" else Digits(ws[0], Hex) + Groups(ws[1..])
  }

  /** What follows the first colon of the double colon. */
  function Behind(w: seq<word>, r: Run): string
    requires |w| == 8 && r.Run? && r.base + r.len <= 8
  {
    if r.base + r.len == 8 then ":" else Groups(w[r.base + r.len..])
  }

  lemma {:induction false} GroupsAppend(a: seq<word>, b: seq<word>)
    ensures Groups(a + b) == Groups(a) + Groups(b)
  {
    hide Digits;
    if a == [] {
      assert a + b == b;
    } else {
      assert (a + b)[1..] == a[1..] + b;
      GroupsAppend(a[1..], b);
    }
  }

  /** Behind the run there are only groups. */
  lemma {:induction false} TextAfter(w: seq<word>, r: Run, i: nat)
    requires |w| == 8 && 1 <= i <= 8
    requires r.Run? ==> r.base + r.len <= i
    requires !(i <= 6 && Embeds(w, r))
    ensures Text6(w, r, i) == Groups(w[i..]) + (if r.Run? && r.base + r.len == 8 then ":" else "")
    decreases 8 - i
  {
    hide Digits;
    if i < 8 {
      TextAfter(w, r, i + 1);
      assert w[i..][1..] == w[i + 1..];
    }
  }

  lemma {:induction false} TextInside(w: seq<word>, r: Run, i: nat)
    requires |w| == 8 && r.Run? && r.base < i <= r.base + r.len <= 8
    ensures Text6(w, r, i) == Text6(w, r, r.base + r.len)
    decreases 8 - i
  {
    hide Digits, Dotted, Embeds;
    if i < r.base + r.len {
      TextInside(w, r, i + 1);
      assert "" + Text6(w, r, i + 1) == Text6(w, r, i + 1);
    }
  }

  function Dots(w: seq<word>): string
    requires |w| == 8
  {
    Dotted(Hi(w[6]), Lo(w[6]), Hi(w[7]), Lo(w[7]))
  }

  lemma TextStep(w: seq<word>, r: Run, i: nat)
    requires |w| == 8
    ensures i < 8 && InRun(r, i) && i == r.base ==> Text6(w, r, i) == ":" + Text6(w, r, i + 1)
    ensures i == 0 && !InRun(r, i) ==> Text6(w, r, i) == Digits(w[i], Hex) + Text6(w, r, i + 1)
    ensures 0 < i < 8 && !InRun(r, i) && !(i == 6 && Embeds(w, r)) ==>
              Text6(w, r, i) == ":" + (Digits(w[i], Hex) + Text6(w, r, i + 1))
    ensures i == 6 && !InRun(r, i) && Embeds(w, r) ==> Text6(w, r, i) == ":" + Dots(w)
  {
    hide Digits, Dotted;
    if i == 0 && !InRun(r, i) {
      assert "" + (Digits(w[i], Hex) + Text6(w, r, i + 1)) == Digits(w[i], Hex) + Text6(w, r, i + 1);
    }
  }

  /** In front of the run there are groups. */
  lemma {:induction false} TextFront(w: seq<word>, r: Run, i: nat)
    requires |w| == 8 && r.Run? && 1 <= i <= r.base && r.len >= 1 && r.base + r.len <= 8
    ensures Text6(w, r, i) == Groups(w[i..r.base]) + Text6(w, r, r.base)
    decreases r.base - i
  {
    hide Digits, Text6;
    if i < r.base {
      TextFront(w, r, i + 1);
      TextStep(w, r, i);
      assert w[i..r.base][1..] == w[i + 1..r.base];
      assert Groups(w[i..r.base]) == ":" + (Digits(w[i], Hex) + Groups(w[i + 1..r.base]));
      hide Groups;
      Concat3(Digits(w[i], Hex), Groups(w[i + 1..r.base]), Text6(w, r, r.base));
    } else {
      assert Groups(w[i..i]) == "" && "" + Text6(w, r, i) == Text6(w, r, i);
    }
  }

  lemma TextNoRun(w: seq<word>)
    requires |w| == 8
    ensures Text6(w, NoRun, 0) == Joined(w)
  {
    hide Digits, Text6, Groups;
    TextStep(w, NoRun, 0);
    TextAfter(w, NoRun, 1);
    assert Groups(w[1..]) + "" == Groups(w[1..]);
  }

  lemma TextUpTo(w: seq<word>, r: Run)
    requires |w| == 8 && r.Run? && r.len >= 1 && r.base + r.len <= 8
    ensures Text6(w, r, 0) == Joined(w[..r.base]) + Text6(w, r, r.base)
  {
    if r.base > 0 {
      TextFront(w, r, 1);
      TextStep(w, r, 0);
      assert w[..r.base][1..] == w[1..r.base] && w[..r.base][0] == w[0];
      hide Digits, Text6, Groups;
      Concat3(Digits(w[0], Hex), Groups(w[1..r.base]), Text6(w, r, r.base));
    } else {
      assert w[..0] == [] && "" + Text6(w, r, 0) == Text6(w, r, 0);
    }
  }

  lemma TextBehind(w: seq<word>, r: Run)
    requires |w| == 8 && r.Run? && r.len >= 2 && r.base + r.len <= 8 && !Embeds(w, r)
    ensures Text6(w, r, r.base + r.len) == Behind(w, r)
  {
    hide Digits, Text6;
    var e := r.base + r.len;
    TextAfter(w, r, e);
    if e == 8 {
      assert w[8..] == [] && "" + ":" == ":";
    } else {
      assert Groups(w[e..]) + "" == Groups(w[e..]);
    }
  }

  lemma TextRun(w: seq<word>, r: Run)
    requires |w| == 8 && r.Run? && r.len >= 2 && r.base + r.len <= 8 && !Embeds(w, r)
    ensures Text6(w, r, 0) == Joined(w[..r.base]) + (":" + Behind(w, r))
  {
    hide Text6, Behind, Joined;
    TextBehind(w, r);
    TextStep(w, r, r.base);
    TextInside(w, r, r.base + 1);
    TextUpTo(w, r);
  }

  lemma TextEmbeds(w: seq<word>, r: Run)
    requires |w| == 8 && Embeds(w, r)
    ensures r.len == 6 ==> Text6(w, r, 0) == ":" + (":" + Dots(w))
    ensures r.len == 5 ==> Text6(w, r, 0) == ":" + (":" + (Digits(w[5], Hex) + (":" + Dots(w))))
  {
    hide Digits, Text6, Dots;
    TextStep(w, r, 0);
    TextInside(w, r, 1);
    TextStep(w, r, 5);
    TextStep(w, r, 6);
  }

  // ----- The parser over these texts -----

  lemma HexGrows(s: string)
    requires s != ""
    ensures DigitsValue(s, Hex) == 16 * DigitsValue(s[..|s| - 1], Hex) + DigitValue(s[|s| - 1])
  {
  }

  /** Hexadecimal digits are gathered. */
  lemma {:induction false} RunHex(s: State6, tok: string, h: string, rest: string)
    requires Sound(s) && !s.saw && s.val == 0
    requires AllDigits(h, Hex) && DigitsValue(h, Hex) <= 0xffff
    ensures Run6(s, tok, h + rest) == Run6(s.(saw := h != "", val := DigitsValue(h, Hex)), tok, rest)
    decreases |h|
  {
    if h == "" {
      assert h + rest == rest;
    } else {
      var h', c := h[..|h| - 1], h[|h| - 1];
      assert h + rest == h' + ([c] + rest) && ([c] + rest)[1..] == rest;
      HexGrows(h);
      RunHex(s, tok, h', [c] + rest);
      assert IsDigitOf(c, Hex);
      hide DigitsValue, AllDigits;
      assert ToLower(c) == c && XValue(c) == DigitValue(c);
    }
  }

  lemma RunGroup(s: State6, tok: string, w: word, rest: string)
    requires Sound(s) && !s.saw && s.val == 0
    ensures Run6(s, tok, Digits(w, Hex) + rest) == Run6(s.(saw := true, val := w), tok, rest)
  {
    DigitsShape(w, Hex);
    DigitsReadBack(w, Hex);
    hide Digits, DigitsValue, AllDigits, Run6;
    RunHex(s, tok, Digits(w, Hex), rest);
  }

  lemma RunColon(s: State6, tok: string, rest: string)
    requires Sound(s) && rest != "" && |s.bytes| + 2 <= 16 && s.saw
    ensures Run6(s, tok, ":" + rest)
         == Run6(State6(s.bytes + [Hi(s.val), Lo(s.val)], s.colon, false, 0), rest, rest)
  {
    assert (":" + rest)[1..] == rest;
  }

  lemma RunDouble(s: State6, tok: string, rest: string)
    requires Sound(s) && !s.saw && s.colon.None?
    ensures Run6(s, tok, ":" + rest) == Run6(s.(colon := Some(|s.bytes|)), rest, rest)
  {
    assert (":" + rest)[1..] == rest;
  }

  function BytesOf(ws: seq<word>): seq<byte> {
    if ws == [] then [] else [Hi(ws[0]), Lo(ws[0])] + BytesOf(ws[1..])
  }

  lemma {:induction false} BytesAppend(a: seq<word>, b: seq<word>)
    ensures BytesOf(a + b) == BytesOf(a) + BytesOf(b)
  {
    if a == [] {
      assert a + b == b;
    } else {
      assert (a + b)[1..] == a[1..] + b;
      BytesAppend(a[1..], b);
    }
  }

  lemma {:induction false} BytesLength(ws: seq<word>)
    ensures |BytesOf(ws)| == 2 * |ws|
  {
    if ws != [] {
      BytesLength(ws[1..]);
    }
  }

  /** What stands in front of a colon or the end is not looked at again. */
  predicate Fresh(src: string) {
    src == "" || src[0] == ':'
  }

  lemma TokenUnused(s: State6, tok: string, tok': string, src: string)
    requires Sound(s) && Fresh(src)
    ensures Run6(s, tok, src) == Run6(s, tok', src)
  {
  }

  lemma GroupBytes(bytes: seq<byte>, v: word, ws: seq<word>)
    requires ws != [] && |BytesOf([v] + ws)| == 2 * |ws| + 2 && |BytesOf([ws[0]] + ws[1..])| == 2 * |ws|
    ensures (bytes + [Hi(v), Lo(v)]) + BytesOf([ws[0]] + ws[1..])[..2 * |ws| - 2] == bytes + BytesOf([v] + ws)[..2 * |ws|]
    ensures ([ws[0]] + ws[1..])[|ws| - 1] == ([v] + ws)[|ws|]
  {
    assert [ws[0]] + ws[1..] == ws && ([v] + ws)[1..] == ws;
    assert BytesOf([v] + ws) == [Hi(v), Lo(v)] + BytesOf(ws);
  }

  /** After a group, a list of groups: all but the last are stored. */
  lemma {:induction false} RunGroups(bytes: seq<byte>, colon: Option<nat>, v: word, ws: seq<word>, tok: string, rest: string)
    requires Sound(State6(bytes, colon, true, v)) && |bytes| + 2 * |ws| <= 16 && Fresh(rest)
    ensures |BytesOf([v] + ws)| == 2 * |ws| + 2
    ensures Run6(State6(bytes, colon, true, v), tok, Groups(ws) + rest)
         == Run6(State6(bytes + BytesOf([v] + ws)[..2 * |ws|], colon, true, ([v] + ws)[|ws|]), "", rest)
    decreases |ws|
  {
    BytesLength([v] + ws);
    hide Digits, Run6;
    var s := State6(bytes, colon, true, v);
    if ws == [] {
      assert Groups(ws) + rest == rest;
      TokenUnused(s, tok, "", rest);
      assert bytes + BytesOf([v] + ws)[..0] == bytes;
    } else {
      var more := Digits(ws[0], Hex) + (Groups(ws[1..]) + rest);
      assert Groups(ws) + rest == ":" + more;
      RunColon(s, tok, more);
      var pushed := bytes + [Hi(v), Lo(v)];
      RunGroup(State6(pushed, colon, false, 0), more, ws[0], Groups(ws[1..]) + rest);
      RunGroups(pushed, colon, ws[0], ws[1..], more, rest);
      GroupBytes(bytes, v, ws);
    }
  }

  // ----- Putting an address together again -----

  lemma {:induction false} ZeroBytes(ws: seq<word>)
    requires AllZero(ws, 0, |ws|)
    ensures BytesOf(ws) == Zeros(2 * |ws|)
  {
    if ws != [] {
      ZeroBytes(ws[1..]);
      assert ws[0] == 0;
      assert Zeros(2 * |ws|) == [0, 0] + Zeros(2 * |ws| - 2);
    }
  }

  /** The groups of a text from its start, without a double colon so far. */
  lemma RunJoined(bytes: seq<byte>, colon: Option<nat>, ws: seq<word>, tok: string, rest: string)
    requires ws != [] && Fresh(rest)
    requires Sound(State6(bytes, colon, false, 0)) && |bytes| + 2 * |ws| <= 16
    ensures |BytesOf(ws)| == 2 * |ws|
    ensures Run6(State6(bytes, colon, false, 0), tok, Joined(ws) + rest)
         == Run6(State6(bytes + BytesOf(ws)[..2 * |ws| - 2], colon, true, ws[|ws| - 1]), "", rest)
  {
    hide Digits, Run6;
    BytesLength(ws);
    Concat3(Digits(ws[0], Hex), Groups(ws[1..]), rest);
    RunGroup(State6(bytes, colon, false, 0), tok, ws[0], Groups(ws[1..]) + rest);
    RunGroups(bytes, colon, ws[0], ws[1..], tok, rest);
    assert [ws[0]] + ws[1..] == ws;
  }

  lemma {:induction false} LastBytes(ws: seq<word>)
    requires ws != [] && |BytesOf(ws)| == 2 * |ws|
    ensures BytesOf(ws)[..2 * |ws| - 2] + [Hi(ws[|ws| - 1]), Lo(ws[|ws| - 1])] == BytesOf(ws)
  {
    hide Hi, Lo;
    if |ws| > 1 {
      BytesLength(ws[1..]);
      LastBytes(ws[1..]);
      var pair, more := [Hi(ws[0]), Lo(ws[0])], BytesOf(ws[1..]);
      hide BytesOf;
      assert (pair + more)[..2 * |ws| - 2] == pair + more[..2 * |ws| - 4];
      assert ws[1..][|ws| - 2] == ws[|ws| - 1];
    }
  }

  lemma RunEnd(s: State6, tok: string)
    requires Sound(s)
    ensures Run6(s, tok, "") == Some(s)
  {
  }

  lemma PtonPlain(src: string)
    requires src != "" && src[0] != ':'
    ensures Pton6(src) == After6(Run6(START6, src, src))
  {
  }

  lemma PtonColons(rest: string)
    requires rest != "" && rest[0] == ':'
    ensures Pton6(":" + rest) == After6(Run6(START6, rest, rest))
  {
    assert (":" + rest)[1..] == rest;
  }

  lemma FinishFull(t: State6, all: seq<byte>)
    requires Sound(t) && t.saw && t.colon == None && |all| == 16
    requires t.bytes + [Hi(t.val), Lo(t.val)] == all
    ensures Finish6(t) == Some(all)
  {
  }

  lemma JoinedStart(w: seq<word>)
    requires w != []
    ensures Joined(w) != "" && Joined(w)[0] != ':'
  {
    DigitsShape(w[0], Hex);
    hide Digits;
    assert Joined(w)[0] == Digits(w[0], Hex)[0];
    assert IsDigitOf(Digits(w[0], Hex)[0], Hex);
  }

  /** The state at the end of a text that ends with the groups `ws`. */
  function EndState(bytes: seq<byte>, colon: Option<nat>, ws: seq<word>): State6
    requires ws != [] && |BytesOf(ws)| == 2 * |ws|
  {
    State6(bytes + BytesOf(ws)[..2 * |ws| - 2], colon, true, ws[|ws| - 1])
  }

  lemma RunJoinedEnd(bytes: seq<byte>, colon: Option<nat>, ws: seq<word>, tok: string)
    requires ws != []
    requires Sound(State6(bytes, colon, false, 0)) && |bytes| + 2 * |ws| <= 16
    ensures |BytesOf(ws)| == 2 * |ws|
    ensures Run6(State6(bytes, colon, false, 0), tok, Joined(ws)) == Some(EndState(bytes, colon, ws))
  {
    hide Digits, Run6, BytesOf, Joined;
    assert Joined(ws) + "" == Joined(ws);
    RunJoined(bytes, colon, ws, tok, "");
    RunEnd(EndState(bytes, colon, ws), "");
  }

  lemma EndStateBytes(bytes: seq<byte>, colon: Option<nat>, ws: seq<word>)
    requires ws != [] && |BytesOf(ws)| == 2 * |ws|
    ensures var t := EndState(bytes, colon, ws);
            t.bytes + [Hi(t.val), Lo(t.val)] == bytes + BytesOf(ws)
  {
    hide BytesOf;
    LastBytes(ws);
  }

  /** The parser on the text of an address without a double colon. */
  lemma ParseNoRun(w: seq<word>)
    requires |w| == 8
    ensures Pton6(Joined(w)) == Some(BytesOf(w))
  {
    hide Digits, Run6, Joined, BytesOf, Pton6, Finish6;
    JoinedStart(w);
    PtonPlain(Joined(w));
    RunJoinedEnd([], None, w, Joined(w));
    EndStateBytes([], None, w);
    FinishFull(EndState([], None, w), BytesOf(w));
  }

  lemma GroupsJoined(ws: seq<word>)
    requires ws != []
    ensures Groups(ws) == ":" + Joined(ws)
  {
  }

  lemma EndStateShape(bytes: seq<byte>, colon: Option<nat>, ws: seq<word>)
    requires ws != [] && |BytesOf(ws)| == 2 * |ws|
    ensures var t := EndState(bytes, colon, ws); t.saw && t.colon == colon && |t.bytes| == |bytes| + 2 * |ws| - 2
  {
  }

  lemma FinishSpread(t: State6, front: seq<byte>, behind: seq<byte>)
    requires Sound(t) && t.saw && t.colon == Some(|front|)
    requires t.bytes + [Hi(t.val), Lo(t.val)] == front + behind && |front| + |behind| < 16
    ensures Finish6(t) == Some(front + Zeros(16 - (|front| + |behind|)) + behind)
  {
    assert (front + behind)[..|front|] == front && (front + behind)[|front|..] == behind;
  }

  /** The parser from the double colon on, with groups behind it. */
  lemma ParseGroupsBehind(front: seq<byte>, behind: seq<word>, tok: string)
    requires behind != [] && |front| + 2 * |behind| < 16
    ensures |BytesOf(behind)| == 2 * |behind|
    ensures After6(Run6(State6(front, None, false, 0), tok, Groups(behind)))
         == Some(front + Zeros(16 - (|front| + |BytesOf(behind)|)) + BytesOf(behind))
  {
    hide Run6, BytesOf, Joined, Groups, Finish6, EndState;
    BytesLength(behind);
    GroupsJoined(behind);
    RunDouble(State6(front, None, false, 0), tok, Joined(behind));
    RunJoinedEnd(front, Some(|front|), behind, Joined(behind));
    EndStateBytes(front, Some(|front|), behind);
    EndStateShape(front, Some(|front|), behind);
    FinishSpread(EndState(front, Some(|front|), behind), front, BytesOf(behind));
  }

  /** The same with nothing behind it. */
  lemma ParseNothingBehind(front: seq<byte>, tok: string)
    requires |front| < 16
    ensures After6(Run6(State6(front, None, false, 0), tok, ":")) == Some(front + Zeros(16 - |front|))
  {
    hide Run6;
    assert ":" + "" == ":";
    RunDouble(State6(front, None, false, 0), tok, "");
    RunEnd(State6(front, Some(|front|), false, 0), "");
    assert front[..|front|] + Zeros(16 - |front|) + front[|front|..] == front + Zeros(16 - |front|);
  }

  lemma BytesNone()
    ensures BytesOf([]) == []
  {
  }

  /** The bytes of an address with a run of zero groups. */
  lemma Spread(w: seq<word>, b: nat, e: nat)
    requires |w| == 8 && b <= e <= 8 && AllZero(w, b, e - b)
    ensures BytesOf(w) == BytesOf(w[..b]) + Zeros(2 * (e - b)) + BytesOf(w[e..])
  {
    hide BytesOf;
    assert w == w[..b] + (w[b..e] + w[e..]);
    BytesAppend(w[..b], w[b..e] + w[e..]);
    BytesAppend(w[b..e], w[e..]);
    ZeroBytes(w[b..e]);
  }

  lemma ParseBehind(w: seq<word>, r: Run, tok: string)
    requires |w| == 8 && r.Run? && r.len >= 2 && r.base + r.len <= 8 && AllZero(w, r.base, r.len)
    ensures Sound(State6(BytesOf(w[..r.base]), None, false, 0))
    ensures After6(Run6(State6(BytesOf(w[..r.base]), None, false, 0), tok, Behind(w, r))) == Some(BytesOf(w))
  {
    hide Digits, Run6, BytesOf, After6, Groups;
    var b, e := r.base, r.base + r.len;
    BytesLength(w[..b]);
    Spread(w, b, e);
    BytesNone();
    hide AllZero;
    if e == 8 {
      ParseNothingBehind(BytesOf(w[..b]), tok);
      assert w[8..] == [];
      assert BytesOf(w[..b]) + Zeros(2 * (8 - b)) + [] == BytesOf(w[..b]) + Zeros(2 * (8 - b));
    } else {
      ParseGroupsBehind(BytesOf(w[..b]), w[e..], tok);
    }
  }

  // ----- An address with a double colon -----

  /** Groups before the double colon are stored when its first colon is read. */
  lemma RunFront(front: seq<word>, tok: string, rest: string)
    requires front != [] && |front| <= 7 && rest != ""
    ensures |BytesOf(front)| == 2 * |front|
    ensures Run6(START6, tok, Joined(front) + (":" + rest)) == Run6(State6(BytesOf(front), None, false, 0), rest, rest)
  {
    hide Digits, Run6, BytesOf, Joined;
    RunJoined([], None, front, tok, ":" + rest);
    LastBytes(front);
    var t := State6([] + BytesOf(front)[..2 * |front| - 2], None, true, front[|front| - 1]);
    RunColon(t, "", rest);
    assert t.bytes + [Hi(t.val), Lo(t.val)] == BytesOf(front);
  }

  lemma BehindColon(w: seq<word>, r: Run)
    requires |w| == 8 && r.Run? && r.base + r.len <= 8
    ensures Behind(w, r) != "" && Behind(w, r)[0] == ':'
  {
    hide Digits;
  }

  lemma ParseRun(w: seq<word>, r: Run)
    requires |w| == 8 && r.Run? && r.len >= 2 && r.base + r.len <= 8 && AllZero(w, r.base, r.len)
    ensures Pton6(Joined(w[..r.base]) + (":" + Behind(w, r))) == Some(BytesOf(w))
  {
    var front, behind := w[..r.base], Behind(w, r);
    ParseBehind(w, r, behind);
    BehindColon(w, r);
    hide Digits, Run6, Behind, Pton6, After6, AllZero;
    if front == [] {
      assert Joined(front) + (":" + behind) == ":" + behind;
      PtonColons(behind);
      BytesNone();
    } else {
      JoinedStart(front);
      hide Joined;
      var all := Joined(front) + (":" + behind);
      assert all[0] == Joined(front)[0];
      PtonPlain(all);
      RunFront(front, all, behind);
    }
  }

  // ----- An embedded IPv4 address -----

  lemma {:induction false} DecimalIsHex(d: string)
    requires AllDigits(d, Dec) && |d| <= 3
    ensures AllDigits(d, Hex) && DigitsValue(d, Hex) <= (if |d| == 3 then 4095 else if |d| == 2 then 255 else if |d| == 1 then 15 else 0)
    decreases |d|
  {
    if d != "" {
      DecimalIsHex(d[..|d| - 1]);
      assert IsDigitOf(d[|d| - 1], Dec);
    }
  }

  lemma OctetText(b: byte)
    ensures Octet(Digits(b, Dec), b)
    ensures AllDigits(Digits(b, Dec), Hex) && DigitsValue(Digits(b, Dec), Hex) <= 0xffff
  {
    DigitsShape(b, Dec);
    DigitsReadBack(b, Dec);
    assert Power(Dec, 3) == 1000;
    DigitsLength(b, Dec, 3);
    hide Digits;
    DecimalIsHex(Digits(b, Dec));
  }

  lemma DottedTail(a: byte, b: byte, c: byte, d: byte)
    ensures var tail := Digits(b, Dec) + "." + Digits(c, Dec) + "." + Digits(d, Dec);
            tail != "" && Dotted(a, b, c, d) == Digits(a, Dec) + ("." + tail)
  {
    hide Digits;
  }

  lemma DottedParses(a: byte, b: byte, c: byte, d: byte)
    ensures Pton4(Dotted(a, b, c, d)) == Some([a, b, c, d])
  {
    OctetText(a);
    OctetText(b);
    OctetText(c);
    OctetText(d);
    hide Octet, AllDigits, DigitsValue, Digits, Pton4;
    Pton4Accepts(Digits(a, Dec), Digits(b, Dec), Digits(c, Dec), Digits(d, Dec), [a, b, c, d]);
  }

  lemma RunDot(s: State6, tok: string, tail: string, quad: seq<byte>)
    requires Sound(s) && tail != "" && |s.bytes| + 4 <= 16 && Pton4(tok) == Some(quad)
    ensures Run6(s, tok, "." + tail) == Some(s.(bytes := s.bytes + quad, saw := false))
  {
    hide Pton4;
  }

  /** The parser at the start of a dotted quad. */
  lemma RunDotted(s: State6, a: byte, b: byte, c: byte, d: byte)
    requires Sound(s) && !s.saw && s.val == 0 && |s.bytes| + 4 <= 16
    ensures var q := Dotted(a, b, c, d);
            var r := Run6(s, q, q);
            r.Some? && r.value.bytes == s.bytes + [a, b, c, d] && r.value.colon == s.colon && !r.value.saw
  {
    OctetText(a);
    DottedTail(a, b, c, d);
    DottedParses(a, b, c, d);
    hide Octet, AllDigits, DigitsValue, Digits, Dotted, Run6, Pton4;
    var q, first := Dotted(a, b, c, d), Digits(a, Dec);
    var tail := Digits(b, Dec) + "." + Digits(c, Dec) + "." + Digits(d, Dec);
    RunHex(s, q, first, "." + tail);
    RunDot(s.(saw := first != "", val := DigitsValue(first, Hex)), q, tail, [a, b, c, d]);
  }

  lemma FinishDots(front: seq<byte>, quad: seq<byte>, r: Option<State6>)
    requires |front| <= 2 && |quad| == 4
    requires r.Some? && Sound(r.value) && !r.value.saw && r.value.colon == Some(0) && r.value.bytes == front + quad
    ensures After6(r) == Some(Zeros(12 - |front|) + (front + quad))
  {
    var t := r.value;
    assert t.bytes[..0] + Zeros(16 - |t.bytes|) + t.bytes[0..] == Zeros(12 - |front|) + (front + quad);
  }

  /** `::` and a dotted quad. */
  lemma ParseQuad(a: byte, b: byte, c: byte, d: byte)
    ensures Pton6(":" + (":" + Dotted(a, b, c, d))) == Some(Zeros(12) + [a, b, c, d])
  {
    hide Run6, Pton6, Dotted, After6;
    var q := Dotted(a, b, c, d);
    PtonColons(":" + q);
    RunDouble(START6, ":" + q, q);
    RunDotted(State6([], Some(0), false, 0), a, b, c, d);
    FinishDots([], [a, b, c, d], Run6(START6, ":" + q, ":" + q));
    assert [] + [a, b, c, d] == [a, b, c, d];
  }

  /** `::`, a group and a dotted quad. */
  lemma ParseGroupQuad(g: word, a: byte, b: byte, c: byte, d: byte)
    ensures Pton6(":" + (":" + (Digits(g, Hex) + (":" + Dotted(a, b, c, d))))) == Some(Zeros(10) + ([Hi(g), Lo(g)] + [a, b, c, d]))
  {
    DottedTail(a, b, c, d);
    hide Run6, Pton6, Dotted, After6, Digits, Hi, Lo;
    var q := Dotted(a, b, c, d);
    assert q != "";
    var rest := Digits(g, Hex) + (":" + q);
    PtonColons(":" + rest);
    RunDouble(START6, ":" + rest, rest);
    RunGroup(State6([], Some(0), false, 0), rest, g, ":" + q);
    RunColon(State6([], Some(0), true, g), rest, q);
    assert [] + [Hi(g), Lo(g)] == [Hi(g), Lo(g)];
    RunDotted(State6([Hi(g), Lo(g)], Some(0), false, 0), a, b, c, d);
    FinishDots([Hi(g), Lo(g)], [a, b, c, d], Run6(START6, ":" + rest, ":" + rest));
  }

  lemma LastTwo(w: seq<word>)
    requires |w| == 8
    ensures BytesOf(w[6..]) == [Hi(w[6]), Lo(w[6]), Hi(w[7]), Lo(w[7])]
    ensures BytesOf(w[5..]) == [Hi(w[5]), Lo(w[5])] + [Hi(w[6]), Lo(w[6]), Hi(w[7]), Lo(w[7])]
  {
    hide Hi, Lo;
    assert w[6..] == [w[6], w[7]] && w[5..][1..] == w[6..];
    assert [w[6], w[7]][1..] == [w[7]];
    assert BytesOf([w[7]]) == [Hi(w[7]), Lo(w[7])] + [];
  }

  lemma ParseEmbeds(w: seq<word>, r: Run)
    requires |w| == 8 && r.Run? && Embeds(w, r) && AllZero(w, 0, r.len)
    ensures Pton6(Text6(w, r, 0)) == Some(BytesOf(w))
  {
    hide Digits, Pton6, Text6, Dotted, BytesOf, AllZero, Hi, Lo;
    TextEmbeds(w, r);
    Spread(w, 0, r.len);
    BytesNone();
    assert w[..0] == [];
    LastTwo(w);
    if r.len == 6 {
      ParseQuad(Hi(w[6]), Lo(w[6]), Hi(w[7]), Lo(w[7]));
      assert BytesOf(w) == Zeros(12) + BytesOf(w[6..]);
    } else {
      ParseGroupQuad(w[5], Hi(w[6]), Lo(w[6]), Hi(w[7]), Lo(w[7]));
      assert BytesOf(w) == Zeros(10) + BytesOf(w[5..]);
    }
  }

  // ----- The main result -----

  lemma {:induction false} PairsBytes(a: seq<byte>, n: nat)
    requires |a| == 16 && n <= 8
    ensures BytesOf(Words(a)[..n]) == a[..2 * n]
    decreases n
  {
    if n > 0 {
      PairsBytes(a, n - 1);
      var w := Words(a);
      BytesAppend(w[..n - 1], [w[n - 1]]);
      assert w[..n] == w[..n - 1] + [w[n - 1]];
      assert BytesOf([w[n - 1]]) == [Hi(w[n - 1]), Lo(w[n - 1])] + [];
      assert Hi(w[n - 1]) == a[2 * n - 2] && Lo(w[n - 1]) == a[2 * n - 1];
    }
  }

  lemma {:induction false} WordsBytes(a: seq<byte>)
    requires |a| == 16
    ensures BytesOf(Words(a)) == a
  {
    PairsBytes(a, 8);
    assert Words(a)[..8] == Words(a) && a[..16] == a;
  }

  /** For every address, whatever run of zero groups the printer compresses,
      parsing the printed text gives the address back. */
  lemma PrintThenParse(a: seq<byte>, r: Run)
    requires |a| == 16 && Compressed(Words(a), r)
    ensures Pton6(Text6(Words(a), r, 0)) == Some(a)
  {
    var w := Words(a);
    WordsBytes(a);
    hide Digits, Text6, Pton6, BytesOf, Joined, Behind, Words;
    if r == NoRun {
      TextNoRun(w);
      ParseNoRun(w);
    } else if Embeds(w, r) {
      ParseEmbeds(w, r);
    } else {
      TextRun(w, r);
      ParseRun(w, r);
    }
  }

  lemma BehindJoined(w: seq<word>, r: Run)
    requires |w| == 8 && r.Run? && r.base + r.len <= 8
    ensures Behind(w, r) == ":" + Joined(w[r.base + r.len..])
  {
    var ws := w[r.base + r.len..];
    if ws != [] {
      GroupsJoined(ws);
    }
    hide Digits;
  }

  lemma EmbeddedForm(w: seq<word>, r: Run)
    requires |w| == 8 && Embeds(w, r)
    ensures Text6(w, r, 0) == "::" + (if r.len == 5 then Digits(w[5], Hex) + ":" else "") + Dots(w)
  {
    hide Digits, Text6, Dots;
    TextEmbeds(w, r);
    var d, g := Dots(w), Digits(w[5], Hex);
    hide Embeds;
    if r.len == 5 {
      assert ":" + (":" + (g + (":" + d))) == "::" + (g + ":") + d;
    } else {
      assert ":" + (":" + d) == "::" + "" + d;
    }
  }

  lemma RunForm(w: seq<word>, r: Run)
    requires |w| == 8 && r.Run? && r.len >= 2 && r.base + r.len <= 8 && !Embeds(w, r)
    ensures Text6(w, r, 0) == Joined(w[..r.base]) + "::" + Joined(w[r.base + r.len..])
  {
    hide Text6, Embeds, Joined, Behind;
    TextRun(w, r);
    BehindJoined(w, r);
    var a, b := Joined(w[..r.base]), Joined(w[r.base + r.len..]);
    assert a + (":" + (":" + b)) == a + "::" + b;
  }

  /** The printed text: the eight groups in hexadecimal with colons between; with a
      run of zero groups, what is before and behind it on the two sides of a double
      colon; and for an address that carries an IPv4 address, that in dotted form. */
  lemma PrintedForm(w: seq<word>, r: Run)
    requires |w| == 8 && (r.Run? ==> r.len >= 2 && r.base + r.len <= 8)
    ensures Text6(w, r, 0) ==
            if r == NoRun then Joined(w)
            else if Embeds(w, r) then
              "::" + (if r.len == 5 then Digits(w[5], Hex) + ":" else "") + Dotted(Hi(w[6]), Lo(w[6]), Hi(w[7]), Lo(w[7]))
            else Joined(w[..r.base]) + "::" + Joined(w[r.base + r.len..])
  {
    hide Digits, Text6, Dotted, Joined, Embeds;
    if r == NoRun {
      TextNoRun(w);
    } else if Embeds(w, r) {
      EmbeddedForm(w, r);
    } else {
      RunForm(w, r);
    }
  }
}
