/** Which texts the IPv6 parser accepts, and what it passes over. */
module InetGrammar {
  import opened Wrappers
  import opened CStrings
  import opened Snprintf
  import opened SnprintfFields
  import opened Inet
  import opened InetQuads
  import opened InetPieces

  // ----- Texts without other characters -----

  predicate AddressChar(c: char) {
    IsXDigit(ToLower(c)) || c == ':' || c == '.'
  }

  /** Only digits, colons and dots, and no dot at the end. */
  predicate Clean(src: string) {
    && (forall i :: 0 <= i < |src| ==> AddressChar(src[i]))
    && (src != "" ==> src[|src| - 1] != '.')
  }

  /** A non-empty run of hexadecimal digits of value 65535 at most. */
  predicate HexGroup(p: string) {
    && p != "" && (forall i :: 0 <= i < |p| ==> IsXDigit(ToLower(p[i])))
    && DigitsValue(Lower(p), Hex) <= 0xffff
  }

  predicate HexGroups(ps: seq<string>) {
    forall i :: 0 <= i < |ps| ==> HexGroup(ps[i])
  }

  function WordBytes(p: string): seq<byte>
    requires HexGroup(p)
  {
    var v := DigitsValue(Lower(p), Hex);
    [Hi(v), Lo(v)]
  }

  function WordsBytes(ps: seq<string>): seq<byte>
    requires HexGroups(ps)
  {
    if ps == [] then [] else
      assert HexGroup(ps[0]) && forall i :: 0 < i < |ps| ==> HexGroup(ps[i]);
      WordBytes(ps[0]) + WordsBytes(ps[1..])
  }

  /** A dotted quad of octets `x`. */
  predicate Quad(p: string, x: seq<byte>) {
    |x| == 4 && Quads(p, x)
  }

  /** Groups, the last of which may be written as a dotted quad. */
  ghost predicate Sequence(ps: seq<string>, x: seq<byte>) {
    || (HexGroups(ps) && x == WordsBytes(ps))
    || (ps != [] && var n := |ps| - 1;
        HexGroups(ps[..n]) && var w := WordsBytes(ps[..n]); w <= x && Quad(ps[n], x[|w|..]))
  }

  /** Section 2.2 of RFC 1884, forms 1 and 3: sixteen bytes in full. */
  ghost predicate FullText(src: string, a: seq<byte>, ps: seq<string>) {
    src == Join(ps) && Sequence(ps, a) && |a| == 16
  }

  /** Forms 2 and 3: one double colon for at least one group of zeros. */
  ghost predicate GapText(src: string, a: seq<byte>, front: seq<string>, back: seq<string>, x: seq<byte>) {
    && src == Join(front) + "::" + Join(back) && HexGroups(front) && Sequence(back, x)
    && var w := WordsBytes(front);
       |w| + |x| < 16 && a == w + Zeros(16 - |w| - |x|) + x
  }

  ghost predicate Address(src: string, a: seq<byte>) {
    (exists ps :: FullText(src, a, ps)) || (exists front, back, x :: GapText(src, a, front, back, x))
  }

  // ----- Clean pieces -----

  predicate CleanPiece(p: string) {
    forall i :: 0 <= i < |p| ==> IsXDigit(ToLower(p[i])) || p[i] == '.'
  }

  predicate NoDotBehind(p: string) {
    p != "" ==> p[|p| - 1] != '.'
  }

  predicate CleanPieces(ps: seq<string>) {
    && (forall i :: 0 <= i < |ps| ==> CleanPiece(ps[i]))
    && (ps != [] ==> NoDotBehind(ps[|ps| - 1]))
  }

  lemma CleanParts(p: string, tail: string)
    requires ':' !in p
    ensures (forall i :: 0 <= i < |p + ":" + tail| ==> AddressChar((p + ":" + tail)[i]))
            <==> CleanPiece(p) && (forall i :: 0 <= i < |tail| ==> AddressChar(tail[i]))
  {
    var s := p + ":" + tail;
    assert forall i :: 0 <= i < |p| ==> s[i] == p[i] && p[i] in p;
    assert forall i :: 0 <= i < |tail| ==> tail[i] == s[|p| + 1 + i];
    assert s[|p|] == ':';
  }

  lemma CleanCons(p: string, tail: string)
    requires ':' !in p
    ensures Clean(p + ":" + tail) <==> CleanPiece(p) && Clean(tail)
  {
    CleanParts(p, tail);
    hide CleanPiece, AddressChar;
    var s := p + ":" + tail;
    assert s[|s| - 1] == if tail == "" then ':' else tail[|tail| - 1];
  }

  lemma CleanOne(p: string)
    requires ':' !in p
    ensures Clean(p) <==> CleanPiece(p) && NoDotBehind(p)
  {
    assert forall i :: 0 <= i < |p| ==> p[i] in p;
  }

  lemma CleanPiecesCons(ps: seq<string>)
    requires |ps| >= 2
    ensures CleanPieces(ps) <==> CleanPiece(ps[0]) && CleanPieces(ps[1..])
  {
    hide CleanPiece, NoDotBehind;
    assert ps[1..][|ps| - 2] == ps[|ps| - 1];
    if CleanPiece(ps[0]) && CleanPieces(ps[1..]) {
      forall i | 0 <= i < |ps|
        ensures CleanPiece(ps[i])
      {
        assert i > 0 ==> ps[i] == ps[1..][i - 1];
      }
    }
  }

  lemma {:induction false} JoinClean(ps: seq<string>)
    requires ps != [] && ColonFree(ps)
    ensures Clean(Join(ps)) <==> CleanPieces(ps)
  {
    hide Clean, CleanPiece, NoDotBehind;
    if |ps| == 1 {
      CleanOne(ps[0]);
    } else {
      JoinClean(ps[1..]);
      CleanCons(ps[0], Join(ps[1..]));
      CleanPiecesCons(ps);
    }
  }

  /** A text and what is behind its first colon are clean together. */
  lemma LeadClean(src: string)
    requires !LoneColon(src)
    ensures Clean(src) <==> Clean(WithoutLead(src))
  {
    if src != "" && src[0] == ':' {
      assert src == "" + ":" + WithoutLead(src);
      CleanCons("", WithoutLead(src));
    }
  }

  /** Where all characters are digits, a piece is its digits. */
  lemma {:induction false} HexesOfDigits(p: string)
    requires forall i :: 0 <= i < |p| ==> IsXDigit(ToLower(p[i]))
    ensures Hexes(p) == Lower(p)
    decreases |p|
  {
    if p != "" {
      var q := p[..|p| - 1];
      HexesOfDigits(q);
      assert Lower(p) == Lower(q) + [ToLower(p[|p| - 1])];
    }
  }

  lemma DotIsNoDigit(p: string)
    requires forall i :: 0 <= i < |p| ==> IsXDigit(ToLower(p[i]))
    ensures '.' !in p && ':' !in p && CleanPiece(p) && NoDotBehind(p)
  {
    assert !IsXDigit(ToLower('.')) && !IsXDigit(ToLower(':'));
  }

  lemma DigitsOnly(p: string)
    requires CleanPiece(p) && '.' !in p
    ensures forall i :: 0 <= i < |p| ==> IsXDigit(ToLower(p[i]))
  {
    assert forall i :: 0 <= i < |p| ==> p[i] in p;
  }

  /** A group of digits is read as its value. */
  lemma HexGroupReads(p: string)
    requires HexGroup(p)
    ensures IsGroup(p) && GroupBytes(p) == WordBytes(p)
    ensures ':' !in p && CleanPiece(p) && NoDotBehind(p)
    ensures LastBytes(p) == Some(WordBytes(p))
  {
    DotIsNoDigit(p);
    HexesOfDigits(p);
    hide Hexes, Lower, DigitsValue;
    assert Chop(p) == p;
  }

  /** A clean piece without a dot is a group of digits or empty. */
  lemma CleanReads(p: string)
    requires CleanPiece(p) && '.' !in p
    ensures IsGroup(p) <==> HexGroup(p)
    ensures IsGap(p) <==> p == ""
    ensures IsGroup(p) ==> HexGroup(p) && GroupBytes(p) == WordBytes(p)
  {
    DigitsOnly(p);
    HexesOfDigits(p);
    hide Hexes, DigitsValue;
  }

  lemma {:induction false} GroupsRead(ps: seq<string>)
    requires HexGroups(ps)
    ensures AreGroups(ps) && BytesIn(ps) == WordsBytes(ps) && ColonFree(ps)
    ensures forall i :: 0 <= i < |ps| ==> CleanPiece(ps[i]) && NoDotBehind(ps[i])
  {
    hide HexGroup, IsGroup, GroupBytes, WordBytes, CleanPiece, NoDotBehind;
    forall i | 0 <= i < |ps|
      ensures IsGroup(ps[i]) && ':' !in ps[i] && CleanPiece(ps[i]) && NoDotBehind(ps[i])
    {
      HexGroupReads(ps[i]);
    }
    if ps != [] {
      HexGroupReads(ps[0]);
      GroupsRead(ps[1..]);
    }
  }

  lemma GroupHasNoDot(p: string)
    requires IsGroup(p)
    ensures '.' !in p
  {
  }

  lemma {:induction false} CleanGroups(ps: seq<string>)
    requires AreGroups(ps) && forall i :: 0 <= i < |ps| ==> CleanPiece(ps[i])
    ensures HexGroups(ps) && WordsBytes(ps) == BytesIn(ps)
  {
    hide HexGroup, IsGroup, CleanPiece;
    forall i | 0 <= i < |ps|
      ensures HexGroup(ps[i])
    {
      GroupHasNoDot(ps[i]);
      CleanReads(ps[i]);
    }
    GroupsRead(ps);
  }

  lemma QuadEnds(p: string, x: seq<byte>)
    requires x != [] && Quads(p, x)
    ensures p != "" && IsDigit(p[|p| - 1]) && (|x| > 1 ==> '.' in p)
    decreases |x|
  {
    var k := Head(p);
    if |x| == 1 {
      assert IsDigitOf(p[..k][k - 1], Dec);
    } else {
      QuadEnds(p[k + 1..], x[1..]);
    }
  }

  /** A quad is read as its octets. */
  lemma QuadReads(p: string, x: seq<byte>)
    requires Quad(p, x)
    ensures LastBytes(p) == Some(x) && p != "" && ':' !in p && CleanPiece(p) && NoDotBehind(p)
  {
    QuadEnds(p, x);
    Pton4IsQuads(p, x);
    Pton4Chars(p);
    hide Pton4, Quads;
    NoColonInQuad(p);
    assert Chop(p) == p;
    assert forall i :: 0 <= i < |p| ==> p[i] in p;
  }

  lemma GroupNotEmpty(p: string)
    requires HexGroup(p)
    ensures p != ""
  {
  }

  lemma {:induction false} BytesSnoc(front: seq<string>, p: string)
    ensures BytesIn(front + [p]) == BytesIn(front) + GroupBytes(p)
  {
    hide GroupBytes;
    if front == [] {
      assert [] + [p] == [p] && BytesIn([]) == [];
      assert BytesIn([p]) == GroupBytes(p) + BytesIn([]);
    } else {
      BytesSnoc(front[1..], p);
      assert (front + [p])[1..] == front[1..] + [p];
    }
  }

  lemma SequenceReads(ps: seq<string>, x: seq<byte>)
    requires ps != [] && Sequence(ps, x)
    ensures RestOk(ps) && RestBytes(ps) == x && ColonFree(ps) && CleanPieces(ps)
  {
    hide IsGroup, LastBytes, CleanPiece, NoDotBehind, Quad, HexGroup, WordBytes, GroupBytes;
    var n := |ps| - 1;
    var front, p := ps[..n], ps[n];
    assert ps == front + [p];
    if HexGroups(ps) && x == WordsBytes(ps) {
      GroupsRead(ps);
      HexGroupReads(p);
      GroupNotEmpty(p);
      BytesSnoc(front, p);
      assert forall i :: 0 <= i < n ==> front[i] == ps[i];
      assert AreGroups(front);
    } else {
      GroupsRead(front);
      var w := WordsBytes(front);
      QuadReads(p, x[|w|..]);
      assert x == w + x[|w|..];
    }
  }

  lemma LastReads(p: string)
    requires p != "" && LastBytes(p).Some? && CleanPiece(p) && NoDotBehind(p)
    ensures HexGroup(p) || Quad(p, LastBytes(p).value)
  {
    hide Hexes, CleanPiece, HexGroup, Quads, Pton4;
    assert Chop(p) == p;
    if '.' in p {
      Pton4IsQuads(p, LastBytes(p).value);
    } else {
      CleanReads(p);
    }
  }

  /** Clean pieces that are read at all make such a sequence. */
  lemma RestIsSequence(ps: seq<string>)
    requires ps != [] && ps != [""] && RestOk(ps) && CleanPieces(ps)
    ensures Sequence(ps, RestBytes(ps))
  {
    hide CleanPiece, NoDotBehind, Quad, HexGroup, WordBytes, GroupBytes, IsGroup, LastBytes;
    var n := |ps| - 1;
    var front, p := ps[..n], ps[n];
    assert ps == front + [p];
    CleanGroups(front);
    LastReads(p);
    var w, x := WordsBytes(front), RestBytes(ps);
    assert x == w + LastBytes(p).value && x[|w|..] == LastBytes(p).value;
    if HexGroup(p) {
      HexGroupReads(p);
      assert HexGroups(ps);
      BytesSnoc(front, p);
      GroupsRead(ps);
    }
  }

  // ----- Texts and pieces -----

  lemma {:induction false} JoinAppend(f: seq<string>, g: seq<string>)
    requires f != [] && g != []
    ensures Join(f + g) == Join(f) + ":" + Join(g)
  {
    assert (f + g)[1..] == f[1..] + g;
    if |f| > 1 {
      JoinAppend(f[1..], g);
      var a, b, c := f[0], Join(f[1..]), Join(g);
      assert a + ":" + (b + ":" + c) == (a + ":" + b) + ":" + c;
    } else {
      assert f[1..] + g == g;
    }
  }

  /** The pieces of a text with a double colon. */
  function GapPieces(front: seq<string>, back: seq<string>): (ps: seq<string>)
    ensures |ps| >= 2
  {
    front + ([""] + if back == [] then [""] else back)
  }

  predicate Starts(front: seq<string>) {
    front != [] ==> front[0] != "" && front[0][0] != ':'
  }

  lemma JoinStarts(front: seq<string>)
    requires front != [] && Starts(front)
    ensures Join(front) != "" && Join(front)[0] == front[0][0]
  {
  }

  /** The empty piece of a double colon, and what follows. */
  lemma JoinBack(back: seq<string>)
    ensures var b := if back == [] then [""] else back;
            Join([""] + b) == ":" + Join(back)
  {
    var b := if back == [] then [""] else back;
    assert Join(b) == Join(back);
    assert ([""] + b)[1..] == b;
    hide Join;
    assert "" + ":" + Join(b) == ":" + Join(b);
  }

  lemma GapJoin(front: seq<string>, back: seq<string>)
    requires Starts(front)
    ensures var src := Join(front) + "::" + Join(back);
            && !LoneColon(src) && WithoutLead(src) == Join(GapPieces(front, back))
            && (src[0] == ':' <==> front == [])
  {
    var src, t := Join(front) + "::" + Join(back), Join(back);
    var b := if back == [] then [""] else back;
    JoinBack(back);
    if front == [] {
      assert src == "::" + t && GapPieces(front, back) == [""] + b;
      hide Join;
      assert src[1..] == ":" + t;
    } else {
      JoinStarts(front);
      JoinAppend(front, [""] + b);
      hide Join;
      assert src == Join(front) + ":" + (":" + t);
      assert src[0] == Join(front)[0];
    }
  }

  lemma GroupStarts(front: seq<string>)
    requires HexGroups(front)
    ensures Starts(front)
  {
    if front != [] {
      assert HexGroup(front[0]) && IsXDigit(ToLower(front[0][0]));
    }
  }

  // ----- The grammar and the parser -----

  lemma SequenceStarts(ps: seq<string>, x: seq<byte>)
    requires ps != [] && Sequence(ps, x)
    ensures Join(ps) != "" && Join(ps)[0] != ':'
  {
    hide Quad, WordsBytes;
    if HexGroups(ps) {
      GroupStarts(ps);
    } else {
      var n := |ps| - 1;
      var front := ps[..n];
      QuadReads(ps[n], x[|WordsBytes(front)|..]);
      assert ps[n][0] in ps[n];
      GroupStarts(front);
      assert n > 0 ==> front[0] == ps[0];
    }
    JoinStarts(ps);
  }

  lemma FullParses(src: string, a: seq<byte>, ps: seq<string>)
    requires FullText(src, a, ps)
    ensures Clean(src) && Pton6(src) == Some(a)
  {
    hide Clean, Join, Pieces, CleanPieces, LastBytes, AreGroups, Pton6;
    assert WordsBytes([]) == [];
    SequenceReads(ps, a);
    JoinPieces(ps);
    JoinClean(ps);
    SequenceStarts(ps, a);
    assert [] + RestBytes(ps) == a;
    Pton6IsPieces(src, a);
  }

  lemma BackReads(back: seq<string>, x: seq<byte>)
    requires Sequence(back, x)
    ensures var b := if back == [] then [""] else back;
            RestOk(b) && RestBytes(b) == x && ColonFree(b) && CleanPieces(b)
  {
    if back == [] {
      assert WordsBytes([]) == [] && [""][..0] == [] && BytesIn([]) == [];
      assert LastBytes("") == Some([]);
    } else {
      SequenceReads(back, x);
    }
  }

  lemma CleanEmpty()
    ensures CleanPiece("")
  {
  }

  lemma GapClean(front: seq<string>, b: seq<string>)
    requires b != [] && ColonFree(b) && CleanPieces(b) && ColonFree(front)
    requires forall i :: 0 <= i < |front| ==> CleanPiece(front[i])
    ensures ColonFree(front + ([""] + b)) && CleanPieces(front + ([""] + b))
  {
    hide CleanPiece, NoDotBehind;
    var ps := front + ([""] + b);
    assert CleanPiece("") by { CleanEmpty(); }
    forall i | 0 <= i < |ps|
      ensures CleanPiece(ps[i]) && ':' !in ps[i]
    {
      if i > |front| {
        assert ps[i] == b[i - |front| - 1];
      }
    }
    assert ps[|ps| - 1] == b[|b| - 1];
  }

  lemma GapPiecesRead(front: seq<string>, back: seq<string>, x: seq<byte>)
    requires HexGroups(front) && Sequence(back, x)
    ensures var ps, k := GapPieces(front, back), |front|;
            && ColonFree(ps) && CleanPieces(ps) && Pieces(Join(ps)) == ps
            && k < |ps| - 1 && ps[..k] == front && AreGroups(front) && IsGap(ps[k])
            && RestOk(ps[k + 1..]) && RestBytes(ps[k + 1..]) == x && BytesIn(front) == WordsBytes(front)
  {
    hide Join, Pieces, LastBytes, WordsBytes, BytesIn, CleanPiece, NoDotBehind, HexGroup, IsGroup, Sequence;
    var ps, k := GapPieces(front, back), |front|;
    GroupsRead(front);
    BackReads(back, x);
    var b := if back == [] then [""] else back;
    hide CleanPieces, RestOk, RestBytes;
    GapClean(front, b);
    assert ps == front + ([""] + b);
    assert ps[k + 1..] == b && ps[..k] == front && ps[k] == "";
    JoinPieces(ps);
  }

  lemma GappedParses(src: string, k: nat, a: seq<byte>)
    requires !LoneColon(src) && Gapped([], Pieces(WithoutLead(src)), k, a)
    ensures Pton6(src) == Some(a)
  {
    hide Gapped, Pieces, Pton6, LoneColon, WithoutLead;
    Pton6IsPieces(src, a);
  }

  lemma GapParses(src: string, a: seq<byte>, front: seq<string>, back: seq<string>, x: seq<byte>)
    requires GapText(src, a, front, back, x)
    ensures Clean(src) && Pton6(src) == Some(a)
  {
    hide Clean, CleanPieces, Join, Pieces, Pton6, LoneColon, WithoutLead, WordsBytes, BytesIn, GapPieces, HexGroups, Sequence;
    hide AreGroups, IsGap, RestOk, RestBytes, Starts;
    GroupStarts(front);
    GapJoin(front, back);
    GapPiecesRead(front, back, x);
    var ps, k := GapPieces(front, back), |front|;
    JoinClean(ps);
    LeadClean(src);
    assert [] + BytesIn(front) == BytesIn(front);
    GappedParses(src, k, a);
  }

  lemma CleanSlice(ps: seq<string>, i: nat, j: nat)
    requires CleanPieces(ps) && i <= j <= |ps|
    ensures forall m :: 0 <= m < j - i ==> CleanPiece(ps[i..j][m])
    ensures j == |ps| ==> CleanPieces(ps[i..j])
  {
    hide CleanPiece, NoDotBehind;
    forall m | 0 <= m < j - i
      ensures CleanPiece(ps[i..j][m])
    {
      assert ps[i..j][m] == ps[i + m];
    }
    if i < j == |ps| {
      assert ps[i..j][j - i - 1] == ps[|ps| - 1];
    }
  }

  lemma LastOfNothing()
    ensures LastBytes("") == Some([])
  {
  }

  lemma ParsedFull(src: string, a: seq<byte>)
    requires !LoneColon(src) && Clean(src) && Full([], Pieces(WithoutLead(src)), a)
    ensures FullText(src, a, Pieces(WithoutLead(src)))
  {
    hide Clean, Pieces, LastBytes;
    var s := WithoutLead(src);
    var ps := Pieces(s);
    PiecesJoin(s);
    LeadClean(src);
    JoinClean(ps);
    assert [] + RestBytes(ps) == RestBytes(ps);
    if ps == [""] {
      assert [""][..0] == [] && BytesIn([]) == [];
      LastOfNothing();
    }
    RestIsSequence(ps);
    SequenceStarts(ps, a);
  }

  lemma RestIsBack(b: seq<string>)
    requires b != [] && RestOk(b) && CleanPieces(b)
    ensures Sequence(if b == [""] then [] else b, RestBytes(b))
  {
    hide LastBytes, CleanPiece, NoDotBehind;
    if b == [""] {
      assert b[..0] == [] && BytesIn([]) == [];
      LastOfNothing();
      assert WordsBytes([]) == [];
    } else {
      RestIsSequence(b);
    }
  }

  lemma GapSides(ps: seq<string>, k: nat) returns (front: seq<string>, back: seq<string>)
    requires CleanPieces(ps) && k < |ps| - 1 && AreGroups(ps[..k]) && IsGap(ps[k]) && RestOk(ps[k + 1..])
    ensures front == ps[..k] && HexGroups(front) && WordsBytes(front) == BytesIn(front)
    ensures Sequence(back, RestBytes(ps[k + 1..])) && ps == GapPieces(front, back)
  {
    hide AreGroups, LastBytes, CleanPiece, NoDotBehind, HexGroups, BytesIn, WordsBytes;
    front := ps[..k];
    var b := ps[k + 1..];
    back := if b == [""] then [] else b;
    CleanSlice(ps, 0, k);
    assert ps[0..k] == front && ps[k + 1..|ps|] == b;
    CleanGroups(front);
    CleanReads(ps[k]);
    CleanSlice(ps, k + 1, |ps|);
    hide RestOk, RestBytes, Sequence, CleanPieces;
    RestIsBack(b);
    assert ps == front + ([ps[k]] + b);
  }

  lemma SameWithoutLead(src: string, text: string, s: string)
    requires !LoneColon(src) && !LoneColon(text) && WithoutLead(src) == WithoutLead(text) == s
    ensures src == text
  {
    assert src != "" && src[0] == ':' ==> src == ":" + s && s[0] == ':';
    assert text != "" && text[0] == ':' ==> text == ":" + s && s[0] == ':';
  }

  lemma ParsedGap(src: string, a: seq<byte>, k: nat) returns (front: seq<string>, back: seq<string>, x: seq<byte>)
    requires !LoneColon(src) && Clean(src) && Gapped([], Pieces(WithoutLead(src)), k, a)
    ensures GapText(src, a, front, back, x)
  {
    hide Clean, Pieces, Join, IsGap, AreGroups, RestOk, RestBytes, CleanPieces, LoneColon, WithoutLead;
    hide GapPieces, Sequence, HexGroups, WordsBytes, BytesIn;
    var s := WithoutLead(src);
    var ps := Pieces(s);
    PiecesJoin(s);
    LeadClean(src);
    JoinClean(ps);
    front, back := GapSides(ps, k);
    x := RestBytes(ps[k + 1..]);
    assert [] + BytesIn(front) == BytesIn(front);
    GroupStarts(front);
    GapJoin(front, back);
    SameWithoutLead(src, Join(front) + "::" + Join(back), s);
  }

  lemma CleanIsAddress(src: string, a: seq<byte>)
    requires Clean(src) && !LoneColon(src) && Accepted([], Pieces(WithoutLead(src)), a)
    ensures Address(src, a)
  {
    hide Clean, FullText, GapText, Pieces, LoneColon, WithoutLead, Full, Gapped;
    var ps := Pieces(WithoutLead(src));
    if Full([], ps, a) {
      ParsedFull(src, a);
    } else {
      var k: nat :| Gapped([], ps, k, a);
      var front, back, x := ParsedGap(src, a, k);
    }
  }

  /** An address written as section 2.2 of RFC 1884 says is accepted with its
      value, and of the texts without other characters nothing else is. */
  lemma AddressIffClean(src: string, a: seq<byte>)
    ensures Address(src, a) <==> Clean(src) && Pton6(src) == Some(a)
  {
    hide Clean, Pton6, FullText, GapText, Accepted, Pieces, LoneColon, WithoutLead;
    if ps :| FullText(src, a, ps) {
      FullParses(src, a, ps);
    }
    if front, back, x :| GapText(src, a, front, back, x) {
      GapParses(src, a, front, back, x);
    }
    if Clean(src) && Pton6(src) == Some(a) {
      Pton6IsPieces(src, a);
      CleanIsAddress(src, a);
    }
  }

  /** The parser keeps its promise, 1 for valid addresses only, on a text if and
      only if the text is clean or refused. */
  lemma ValidIffClean(src: string)
    ensures (Pton6(src).Some? ==> Address(src, Pton6(src).value)) <==> Clean(src) || Pton6(src).None?
  {
    if Pton6(src).Some? {
      AddressIffClean(src, Pton6(src).value);
    }
  }

  lemma JunkRuns()
    ensures Pton6("::1g") == Some(Zeros(15) + [1])
  {
    var s, t := State6([], Some(0), true, 1), State6([], Some(0), false, 0);
    assert WithoutLead("::1g") == ":1g" && "g"[1..] == "" && "1g"[1..] == "g";
    assert Run6(t, "1g", "1g") == Run6(s, "1g", "g") == Run6(s, "1g", "") == Some(s);
    assert Run6(START6, ":1g", ":1g") == Run6(t, "1g", "1g");
    hide Run6;
    assert [] + [Hi(1), Lo(1)] == [0, 1];
    assert Push(s) == Some(State6([0, 1], Some(0), false, 0));
    assert Finish6(s) == Some([0, 1][..0] + Zeros(14) + [0, 1][0..]);
    hide Finish6;
    assert [0, 1][..0] + Zeros(14) + [0, 1][0..] == Zeros(15) + [1];
  }

  /** It does not keep it on this text, which is no address. */
  lemma JunkIsAccepted(a: seq<byte>)
    ensures Pton6("::1g") == Some(Zeros(15) + [1]) && !Address("::1g", a)
  {
    JunkRuns();
    hide Pton6;
    AddressIffClean("::1g", a);
    assert !Clean("::1g") by {
      assert "::1g"[3] == 'g';
    }
  }

  // ----- What is passed over -----

  /** A piece without the characters that are passed over. What is handed to the
      IPv4 parser is kept as it is. */
  function Kept(p: string): string {
    if '.' in p then p else Hexes(p)
  }

  function KeptLast(p: string): string {
    if '.' in Chop(p) then p else Hexes(Chop(p))
  }

  function KeptPieces(ps: seq<string>): (r: seq<string>)
    requires ps != []
    ensures |r| == |ps|
  {
    if |ps| == 1 then [KeptLast(ps[0])] else [Kept(ps[0])] + KeptPieces(ps[1..])
  }

  /** The text without the characters that are passed over. */
  function KeptText(src: string): string {
    (if src != "" && src[0] == ':' then ":" else "") + Join(KeptPieces(Pieces(WithoutLead(src))))
  }

  /** No piece behind a group at the end is made only of characters that are
      passed over. */
  predicate EndOk(ps: seq<string>)
    requires ps != []
  {
    var n := |ps| - 1;
    n > 0 && KeptLast(ps[n]) == "" && Kept(ps[n - 1]) != "" ==> ps[n] == ""
  }

  /** Nor is one at the start, in front of others. */
  predicate EdgesOk(ps: seq<string>)
    requires ps != []
  {
    EndOk(ps) && (|ps| > 1 && Kept(ps[0]) == "" ==> ps[0] == "")
  }

  lemma {:induction false} HexesKept(p: string)
    ensures forall i :: 0 <= i < |Hexes(p)| ==> IsXDigit(ToLower(Hexes(p)[i])) && ToLower(Hexes(p)[i]) == Hexes(p)[i]
    decreases |p|
  {
    if p != "" {
      HexesKept(p[..|p| - 1]);
    }
  }

  lemma HexesTwice(p: string)
    ensures var h := Hexes(p);
            Hexes(h) == h && '.' !in h && ':' !in h && Chop(h) == h && HexValue(h) == HexValue(p)
  {
    var h := Hexes(p);
    HexesKept(p);
    HexesOfDigits(h);
    assert Lower(h) == h;
    DotIsNoDigit(h);
  }

  lemma KeptReads(p: string)
    requires ':' !in p
    ensures ':' !in Kept(p) && ('.' in Kept(p) <==> '.' in p)
    ensures '.' !in p ==> Hexes(Kept(p)) == Hexes(p) && HexValue(Kept(p)) == HexValue(p) && GroupBytes(Kept(p)) == GroupBytes(p)
  {
    HexesTwice(p);
    hide Hexes;
  }

  lemma KeptLastReads(p: string)
    requires ':' !in p
    ensures ':' !in KeptLast(p) && LastBytes(KeptLast(p)) == LastBytes(p)
  {
    HexesTwice(Chop(p));
    hide Hexes, Pton4;
  }

  lemma {:induction false} KeptColonFree(ps: seq<string>)
    requires ps != [] && ColonFree(ps)
    ensures ColonFree(KeptPieces(ps))
  {
    hide Kept, KeptLast;
    if |ps| == 1 {
      KeptLastReads(ps[0]);
    } else {
      KeptReads(ps[0]);
      KeptColonFree(ps[1..]);
    }
  }

  lemma KeptEnds(ps: seq<string>)
    requires |ps| >= 2 && EndOk(ps)
    ensures Kept(ps[0]) != "" ==> (KeptPieces(ps[1..]) == [""] <==> ps[1..] == [""])
    ensures EndOk(ps[1..])
  {
    hide Kept;
    assert KeptLast("") == "";
    assert |ps| > 2 ==> ps[1..][|ps| - 3] == ps[|ps| - 2];
  }

  lemma KeptSteps(ps: seq<string>)
    requires |ps| >= 2
    ensures KeptPieces(ps)[0] == Kept(ps[0]) && KeptPieces(ps)[1..] == KeptPieces(ps[1..])
  {
    assert ([Kept(ps[0])] + KeptPieces(ps[1..]))[1..] == KeptPieces(ps[1..]);
  }

  lemma {:induction false} FoldKept(b: seq<byte>, c: Option<nat>, ps: seq<string>)
    requires ps != [] && ColonFree(ps) && EndOk(ps) && Sound(State6(b, c, false, 0))
    ensures Fold(b, c, KeptPieces(ps)) == Fold(b, c, ps)
    decreases |ps|
  {
    if |ps| == 1 {
      KeptLastReads(ps[0]);
      hide LastBytes, KeptLast;
      assert KeptPieces(ps) == [KeptLast(ps[0])];
    } else {
      KeptReads(ps[0]);
      KeptEnds(ps);
      KeptSteps(ps);
      FoldFirst(b, c, ps);
      FoldFirst(b, c, KeptPieces(ps));
      assert '.' !in ps[0] ==> Kept(ps[0]) == Hexes(ps[0]);
      hide Fold, Kept, KeptPieces, Hexes, HexValue, EndOk;
      if '.' !in ps[0] && HexValue(ps[0]) <= 0xffff {
        if Hexes(ps[0]) == "" {
          if c.None? {
            FoldKept(b, Some(|b|), ps[1..]);
          }
        } else if |b| + 2 <= 16 {
          FoldKept(b + GroupBytes(ps[0]), c, ps[1..]);
        }
      }
    }
  }

  lemma JoinFirst(ps: seq<string>)
    requires |ps| >= 2 && ColonFree(ps)
    ensures Join(ps) != "" && (Join(ps)[0] == ':' <==> ps[0] == "")
  {
    assert ps[0] != "" ==> ps[0][0] in ps[0];
  }

  lemma LoneLead(src: string)
    ensures LoneColon(src) <==> src != "" && src[0] == ':' && (WithoutLead(src) == "" || WithoutLead(src)[0] != ':')
  {
  }

  lemma JoinOne(p: string)
    ensures Join([p]) == p
  {
  }

  lemma KeptStart(ps: seq<string>)
    requires ps != [] && ColonFree(ps) && EdgesOk(ps)
    ensures var s, t := Join(ps), Join(KeptPieces(ps));
            s != "" && s[0] == ':' <==> t != "" && t[0] == ':'
  {
    KeptColonFree(ps);
    hide Join, KeptLast;
    assert Kept("") == "";
    if |ps| == 1 {
      JoinOne(ps[0]);
      assert KeptPieces(ps) == [KeptLast(ps[0])];
      JoinOne(KeptLast(ps[0]));
      assert forall i :: 0 <= i < |ps[0]| ==> ps[0][i] in ps[0];
      var t := KeptPieces(ps)[0];
      assert forall i :: 0 <= i < |t| ==> t[i] in t;
    } else {
      JoinFirst(ps);
      JoinFirst(KeptPieces(ps));
      KeptSteps(ps);
    }
  }

  /** Apart from such pieces at its ends, a text is read as if the characters that
      are passed over were not there. */
  lemma SkippedAsIfAbsent(src: string)
    requires EdgesOk(Pieces(WithoutLead(src)))
    ensures Pton6(src) == Pton6(KeptText(src))
  {
    hide Pieces, Join, KeptPieces, Kept, KeptLast, Fold, Run6, Finish6, Pton4;
    var s, t := WithoutLead(src), KeptText(src);
    var ps := Pieces(s);
    PiecesJoin(s);
    KeptColonFree(ps);
    KeptStart(ps);
    var kept := KeptPieces(ps);
    JoinPieces(kept);
    LoneLead(src);
    LoneLead(t);
    if src != "" && src[0] == ':' {
      assert t == ":" + Join(kept) && WithoutLead(t) == Join(kept);
    } else {
      assert t == Join(kept) && WithoutLead(t) == t;
    }
    hide EdgesOk, KeptText, WithoutLead, LoneColon;
    PtonFold(src);
    PtonFold(t);
    FoldKept([], None, ps);
  }
}
