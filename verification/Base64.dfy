/** Base 64 as RFC 1521, section 5.2, describes it: the encoder and the decoder
    as functions, and what they mean for each other. */
module Base64 {
  import opened Arithmetic
  import opened Buffers
  import opened Wrappers

  const PAD: char := '='

  /** The alphabet. */
  function Code(v: bv8): char
    requires v < 64
  {
    var n := v as int;
    if n < 26 then (n + 'A' as int) as char
    else if n < 52 then (n - 26 + 'a' as int) as char
    else if n < 62 then (n - 52 + '0' as int) as char
    else if n == 62 then '+' else '/'
  }

  /** Place of a character in the alphabet, or -1. */
  function Place(c: char): (n: int)
    ensures -1 <= n < 64
  {
    if 'A' <= c <= 'Z' then c as int - 'A' as int
    else if 'a' <= c <= 'z' then c as int - 'a' as int + 26
    else if '0' <= c <= '9' then c as int - '0' as int + 52
    else if c == '+' then 62 else if c == '/' then 63 else -1
  }

  function Sextet(c: char): (v: bv8)
    requires Place(c) >= 0
    ensures v < 64
  {
    Place(c) as bv8
  }

  /** `isspace` of the C locale. */
  predicate IsSpace(c: char) {
    c == ' ' || '\t' <= c <= '\r'
  }

  lemma CodeSextet(v: bv8)
    requires v < 64
    ensures Place(Code(v)) >= 0 && Sextet(Code(v)) == v
    ensures !IsSpace(Code(v)) && Code(v) != PAD && Code(v) != '\0'
  {
    assert Place(Code(v)) == v as int;
  }

  lemma SextetInt(n: nat)
    requires n < 64
    ensures (n as bv8) as int == n
  {
  }

  lemma SextetCode(c: char)
    requires Place(c) >= 0
    ensures Code(Sextet(c)) == c
  {
    SextetInt(Place(c));
  }

  function Strip(s: string): string {
    if s == "" then "" else (if IsSpace(s[0]) then "" else [s[0]]) + Strip(s[1..])
  }

  // ----- Bits -----

  // Three bytes as four groups of six bits.

  function S0(a: bv8): (v: bv8) ensures v < 64 { a >> 2 }

  function S1(a: bv8, b: bv8): (v: bv8) ensures v < 64 { ((a & 0x03) << 4) + (b >> 4) }

  function S2(b: bv8, c: bv8): (v: bv8) ensures v < 64 { ((b & 0x0f) << 2) + (c >> 6) }

  function S3(c: bv8): (v: bv8) ensures v < 64 { c & 0x3f }

  // Four groups of six bits as three bytes; `High` and `Mid` leave bits over.

  function Top6(v: bv8): bv8 { v << 2 }

  function Low2(w: bv8): bv8 { w >> 4 }

  function High(v: bv8, w: bv8): bv8 { Top6(v) | Low2(w) }

  function Low4(x: bv8): bv8 { x >> 2 }

  function Over1(w: bv8): bv8 { (w & 0x0f) << 4 }

  function Mid(w: bv8, x: bv8): bv8 { Over1(w) | Low4(x) }

  function Over2(x: bv8): bv8 { (x & 0x03) << 6 }

  function Low(x: bv8, y: bv8): bv8 { Over2(x) | y }

  lemma BytesBack(a: bv8, b: bv8, c: bv8)
    ensures High(S0(a), S1(a, b)) == a && Mid(S1(a, b), S2(b, c)) == b && Low(S2(b, c), S3(c)) == c
    ensures b & 0x0f == 0 ==> Over1(S1(a, b)) == b
    ensures c & 0x3f == 0 ==> Over2(S2(b, c)) == c
  {
  }

  lemma SextetsBack(v: bv8, w: bv8, x: bv8, y: bv8)
    requires v < 64 && w < 64 && x < 64 && y < 64
    ensures S0(High(v, w)) == v && S3(Low(x, y)) == y
    ensures S1(High(v, w), Mid(w, x)) == w == S1(High(v, w), Over1(w))
    ensures S2(Mid(w, x), Low(x, y)) == x == S2(Mid(w, x), Over2(x))
    ensures Over1(w) & 0x0f == 0 && Over2(x) & 0x3f == 0
  {
  }

  // ----- Encoding -----

  /** The encoding of `x`, filled up with the bits of `fill`. */
  function EncodeWith(x: seq<bv8>, fill: bv8): string {
    if |x| >= 3 then
      [Code(S0(x[0])), Code(S1(x[0], x[1])), Code(S2(x[1], x[2])), Code(S3(x[2]))] + EncodeWith(x[3..], fill)
    else if |x| == 2 then [Code(S0(x[0])), Code(S1(x[0], x[1])), Code(S2(x[1], fill)), PAD]
    else if |x| == 1 then [Code(S0(x[0])), Code(S1(x[0], fill)), PAD, PAD]
    else ""
  }

  /** There is room for four bits after one byte, for two after two. */
  predicate Fills(x: seq<bv8>, fill: bv8) {
    if |x| % 3 == 1 then fill & 0x0f == 0 else if |x| % 3 == 2 then fill & 0x3f == 0 else fill == 0
  }

  function Encode(x: seq<bv8>): string {
    EncodeWith(x, 0)
  }

  // ----- Decoding -----

  /** Finished bytes, characters of the current group seen, and the byte begun. */
  datatype Progress = Progress(out: seq<bv8>, state: nat, part: bv8)

  /** Room for the byte at `index`; no target at all has room for everything. */
  predicate Fits(room: Option<nat>, index: nat) {
    room.Some? ==> index < room.value
  }

  function Step(room: Option<nat>, p: Progress, v: bv8): Option<Progress>
    requires v < 64
  {
    var n := |p.out|;
    match p.state
    case 0 => if Fits(room, n) then Some(Progress(p.out, 1, Top6(v))) else None
    case 1 => if Fits(room, n + 1) then Some(Progress(p.out + [p.part | Low2(v)], 2, Over1(v))) else None
    case 2 => if Fits(room, n + 1) then Some(Progress(p.out + [p.part | Low4(v)], 3, Over2(v))) else None
    case _ => if Fits(room, n) then Some(Progress(p.out + [p.part | v], 0, 0)) else None
  }

  function SkipSpace(s: string): (r: string)
    ensures |r| <= |s|
  {
    if s != "" && IsSpace(s[0]) then SkipSpace(s[1..]) else s
  }

  /** After the last pad: only white space, and no bits left over. */
  function Close(room: Option<nat>, p: Progress, rest: string): Option<seq<bv8>> {
    if SkipSpace(rest) == "" && (room.Some? ==> p.part == 0) then Some(p.out) else None
  }

  /** After the first pad. */
  function Tail(room: Option<nat>, p: Progress, rest: string): Option<seq<bv8>> {
    if p.state < 2 then None
    else if p.state == 3 then Close(room, p, rest)
    else
      var r := SkipSpace(rest);
      if r == "" || r[0] != PAD then None else Close(room, p, r[1..])
  }

  function Body(room: Option<nat>, p: Progress, src: string): Option<seq<bv8>>
    decreases |src|
  {
    if src == "" then if p.state == 0 then Some(p.out) else None
    else if IsSpace(src[0]) then Body(room, p, src[1..])
    else if src[0] == PAD then Tail(room, p, src[1..])
    else if Place(src[0]) < 0 then None
    else match Step(room, p, Sextet(src[0]))
      case None => None
      case Some(q) => Body(room, q, src[1..])
  }

  const START: Progress := Progress([], 0, 0)

  /** The decoded bytes, if the text is accepted. `room` is the size of the
      target, if there is one. */
  function Decode(room: Option<nat>, src: string): Option<seq<bv8>> {
    Body(room, START, src)
  }

  // ----- White space does not count -----

  lemma {:induction false} StripSkips(s: string)
    ensures SkipSpace(s) == "" <==> Strip(s) == ""
    ensures SkipSpace(s) != "" ==> Strip(s) == [SkipSpace(s)[0]] + Strip(SkipSpace(s)[1..]) && !IsSpace(SkipSpace(s)[0])
  {
    if s != "" && IsSpace(s[0]) {
      StripSkips(s[1..]);
      assert Strip(s) == Strip(s[1..]);
    }
  }

  lemma {:induction false} StripTwice(s: string)
    ensures Strip(Strip(s)) == Strip(s)
  {
    if s != "" {
      StripTwice(s[1..]);
      if IsSpace(s[0]) {
        assert Strip(s) == Strip(s[1..]);
      } else {
        assert Strip(s)[1..] == Strip(s[1..]);
      }
    }
  }

  lemma StripTail(room: Option<nat>, p: Progress, s: string)
    ensures Close(room, p, s) == Close(room, p, Strip(s))
    ensures Tail(room, p, s) == Tail(room, p, Strip(s))
  {
    StripSkips(s);
    StripSkips(Strip(s));
    StripTwice(s);
    var r := SkipSpace(s);
    if r != "" {
      var t := Strip(r[1..]);
      assert SkipSpace(Strip(s)) == [r[0]] + t && ([r[0]] + t)[1..] == t;
      StripSkips(r[1..]);
      StripSkips(t);
      StripTwice(r[1..]);
    }
  }

  lemma {:induction false} StripBody(room: Option<nat>, p: Progress, s: string)
    ensures Body(room, p, s) == Body(room, p, Strip(s))
    decreases |s|
  {
    if s != "" {
      var c, rest := s[0], s[1..];
      if IsSpace(c) {
        assert Strip(s) == Strip(rest);
        StripBody(room, p, rest);
      } else {
        assert Strip(s)[0] == c && Strip(s)[1..] == Strip(rest);
        hide Step, Tail;
        if c == PAD {
          StripTail(room, p, rest);
        } else if Place(c) >= 0 {
          var next := Step(room, p, Sextet(c));
          if next.Some? {
            StripBody(room, next.value, rest);
          }
        }
      }
    }
  }

  // ----- One group -----

  lemma BodyNext(room: Option<nat>, p: Progress, s: string, i: nat)
    requires i < |s| && Place(s[i]) >= 0
    ensures Body(room, p, s[i..]) == match Step(room, p, Sextet(s[i])) case None => None case Some(q) => Body(room, q, s[i + 1..])
  {
    assert s[i..][1..] == s[i + 1..];
  }

  lemma StepTwice(room: Option<nat>, out: seq<bv8>, v: bv8, w: bv8)
    requires v < 64 && w < 64
    ensures var p := Step(room, Progress(out, 0, 0), v);
            if Fits(room, |out| + 1)
            then p.Some? && Step(room, p.value, w) == Some(Progress(out + [High(v, w)], 2, Over1(w)))
            else p.None? || Step(room, p.value, w).None?
  {
    hide Over1, Top6, Low2;
  }

  /** Two characters complete a byte. */
  lemma BodyPair(room: Option<nat>, out: seq<bv8>, s: string)
    requires |s| >= 2 && Place(s[0]) >= 0 && Place(s[1]) >= 0
    ensures var v, w := Sextet(s[0]), Sextet(s[1]);
            Body(room, Progress(out, 0, 0), s)
            == if Fits(room, |out| + 1) then Body(room, Progress(out + [High(v, w)], 2, Over1(w)), s[2..]) else None
  {
    hide Body, Sextet, Place, High, Over1, Step;
    assert s[0..] == s;
    var p := Progress(out, 0, 0);
    BodyNext(room, p, s, 0);
    StepTwice(room, out, Sextet(s[0]), Sextet(s[1]));
    var q := Step(room, p, Sextet(s[0]));
    if q.Some? {
      BodyNext(room, q.value, s, 1);
    }
  }

  lemma StepMid(room: Option<nat>, out: seq<bv8>, a: bv8, w: bv8, x: bv8)
    requires w < 64 && x < 64
    ensures Step(room, Progress(out + [a], 2, Over1(w)), x)
            == if Fits(room, |out| + 2) then Some(Progress(out + [a, Mid(w, x)], 3, Over2(x))) else None
  {
    hide Over1, Over2, Low4;
    assert out + [a] + [Mid(w, x)] == out + [a, Mid(w, x)];
  }

  lemma BodyTriple(room: Option<nat>, out: seq<bv8>, s: string)
    requires |s| >= 3 && Place(s[0]) >= 0 && Place(s[1]) >= 0 && Place(s[2]) >= 0
    ensures var v, w, x := Sextet(s[0]), Sextet(s[1]), Sextet(s[2]);
            Body(room, Progress(out, 0, 0), s)
            == if Fits(room, |out| + 2) then Body(room, Progress(out + [High(v, w), Mid(w, x)], 3, Over2(x)), s[3..]) else None
  {
    hide Body, Sextet, Place, High, Mid, Over1, Over2, Step;
    BodyPair(room, out, s);
    var v, w, x := Sextet(s[0]), Sextet(s[1]), Sextet(s[2]);
    BodyNext(room, Progress(out + [High(v, w)], 2, Over1(w)), s, 2);
    StepMid(room, out, High(v, w), w, x);
  }

  lemma StepLow(room: Option<nat>, out: seq<bv8>, a: bv8, b: bv8, x: bv8, y: bv8)
    requires x < 64 && y < 64
    ensures Step(room, Progress(out + [a, b], 3, Over2(x)), y)
            == if Fits(room, |out| + 2) then Some(Progress(out + [a, b, Low(x, y)], 0, 0)) else None
  {
    hide Over2;
    assert out + [a, b] + [Low(x, y)] == out + [a, b, Low(x, y)];
  }

  /** Four characters are three bytes. */
  lemma BodyGroup(room: Option<nat>, out: seq<bv8>, s: string)
    requires |s| >= 4 && Place(s[0]) >= 0 && Place(s[1]) >= 0 && Place(s[2]) >= 0 && Place(s[3]) >= 0
    ensures var v, w, x, y := Sextet(s[0]), Sextet(s[1]), Sextet(s[2]), Sextet(s[3]);
            Body(room, Progress(out, 0, 0), s)
            == if Fits(room, |out| + 2) then Body(room, Progress(out + [High(v, w), Mid(w, x), Low(x, y)], 0, 0), s[4..]) else None
  {
    hide Body, Sextet, Place, High, Mid, Low, Over1, Over2, Step;
    BodyTriple(room, out, s);
    var v, w, x, y := Sextet(s[0]), Sextet(s[1]), Sextet(s[2]), Sextet(s[3]);
    BodyNext(room, Progress(out + [High(v, w), Mid(w, x)], 3, Over2(x)), s, 3);
    StepLow(room, out, High(v, w), Mid(w, x), x, y);
  }

  lemma BodyEnd(room: Option<nat>, p: Progress)
    ensures Body(room, p, "") == if p.state == 0 then Some(p.out) else None
  {
  }

  lemma BodyPads(room: Option<nat>, p: Progress)
    ensures p.state == 2 ==> Body(room, p, [PAD, PAD]) == if room.Some? && p.part != 0 then None else Some(p.out)
    ensures p.state == 3 ==> Body(room, p, [PAD]) == if room.Some? && p.part != 0 then None else Some(p.out)
  {
    assert [PAD, PAD][1..] == [PAD] && [PAD][1..] == "";
  }

  // ----- Decoding undoes encoding -----

  /** Room that decoding `n` bytes takes: a group cut short touches one more. */
  function Need(n: nat): nat {
    if n % 3 == 0 then n else n + 1
  }

  predicate Accepts(room: Option<nat>, n: nat, fill: bv8) {
    room.Some? ==> n <= room.value && fill == 0
  }

  lemma QuadDecodes(room: Option<nat>, out: seq<bv8>, x: seq<bv8>, fill: bv8)
    requires |x| >= 3
    ensures Body(room, Progress(out, 0, 0), EncodeWith(x, fill))
            == if Fits(room, |out| + 2) then Body(room, Progress(out + x[..3], 0, 0), EncodeWith(x[3..], fill)) else None
  {
    hide Body, Code, Sextet, Place, S0, S1, S2, S3, High, Mid, Low;
    var q := [Code(S0(x[0])), Code(S1(x[0], x[1])), Code(S2(x[1], x[2])), Code(S3(x[2]))];
    var s := EncodeWith(x, fill);
    CodeSextet(S0(x[0]));
    CodeSextet(S1(x[0], x[1]));
    CodeSextet(S2(x[1], x[2]));
    CodeSextet(S3(x[2]));
    BytesBack(x[0], x[1], x[2]);
    assert s == q + EncodeWith(x[3..], fill);
    hide EncodeWith;
    assert s[4..] == EncodeWith(x[3..], fill) && x[..3] == [x[0], x[1], x[2]];
    BodyGroup(room, out, s);
  }

  lemma Tail1Decodes(room: Option<nat>, out: seq<bv8>, a: bv8, fill: bv8)
    requires fill & 0x0f == 0
    ensures Body(room, Progress(out, 0, 0), EncodeWith([a], fill))
            == if Accepts(room, |out| + 2, fill) then Some(out + [a]) else None
  {
    hide Body, Code, Sextet, Place, S0, S1, High, Over1;
    var s := [Code(S0(a)), Code(S1(a, fill)), PAD, PAD];
    CodeSextet(S0(a));
    CodeSextet(S1(a, fill));
    BytesBack(a, fill, 0);
    BodyPair(room, out, s);
    assert s[2..] == [PAD, PAD];
    BodyPads(room, Progress(out + [a], 2, fill));
  }

  lemma Tail2Decodes(room: Option<nat>, out: seq<bv8>, a: bv8, b: bv8, fill: bv8)
    requires fill & 0x3f == 0
    ensures Body(room, Progress(out, 0, 0), EncodeWith([a, b], fill))
            == if Accepts(room, |out| + 3, fill) then Some(out + [a, b]) else None
  {
    hide Body, Code, Sextet, Place, S0, S1, S2, High, Mid, Over1, Over2;
    var s := [Code(S0(a)), Code(S1(a, b)), Code(S2(b, fill)), PAD];
    CodeSextet(S0(a));
    CodeSextet(S1(a, b));
    CodeSextet(S2(b, fill));
    BytesBack(a, b, fill);
    BodyTriple(room, out, s);
    assert s[3..] == [PAD];
    BodyPads(room, Progress(out + [a, b], 3, fill));
  }

  lemma {:induction false} DecodeEncoded(room: Option<nat>, out: seq<bv8>, x: seq<bv8>, fill: bv8)
    requires Fills(x, fill) && (room.Some? ==> |out| <= room.value)
    ensures Body(room, Progress(out, 0, 0), EncodeWith(x, fill))
            == if Accepts(room, |out| + Need(|x|), fill) then Some(out + x) else None
    decreases |x|
  {
    hide Body, Code, Sextet, Place;
    if |x| >= 3 {
      QuadDecodes(room, out, x, fill);
      if Fits(room, |out| + 2) {
        DecodeEncoded(room, out + x[..3], x[3..], fill);
        assert out + x[..3] + x[3..] == out + x;
      }
    } else if |x| == 2 {
      Tail2Decodes(room, out, x[0], x[1], fill);
      assert x == [x[0], x[1]];
    } else if |x| == 1 {
      Tail1Decodes(room, out, x[0], fill);
      assert x == [x[0]];
    } else {
      BodyEnd(room, Progress(out, 0, 0));
      assert out + x == out;
    }
  }

  // ----- Only encodings are decoded -----

  predicate NoSpace(s: string) {
    forall i :: 0 <= i < |s| ==> !IsSpace(s[i])
  }

  lemma {:induction false} StripClean(s: string)
    ensures NoSpace(Strip(s)) && |Strip(s)| <= |s|
  {
    if s != "" {
      StripClean(s[1..]);
    }
  }

  lemma {:induction false} StripId(s: string)
    requires NoSpace(s)
    ensures Strip(s) == s && SkipSpace(s) == s
  {
    if s != "" {
      StripId(s[1..]);
    }
  }

  /** What the characters of an accepted text can be. */
  lemma BodyHead(room: Option<nat>, p: Progress, s: string)
    requires NoSpace(s) && Body(room, p, s).Some?
    ensures s == "" ==> p.state == 0 && Body(room, p, s).value == p.out
    ensures s != "" && Place(s[0]) < 0 ==>
              && p.state >= 2 && (room.Some? ==> p.part == 0) && Body(room, p, s).value == p.out
              && s == if p.state == 3 then [PAD] else [PAD, PAD]
  {
    if s != "" && Place(s[0]) < 0 {
      StripId(s[1..]);
      assert s == [s[0]] + s[1..];
      if p.state == 2 {
        StripId(s[2..]);
        assert s[1..][1..] == s[2..] && s[1..] == [s[1]] + s[2..];
      }
    }
  }

  lemma BodyOne(room: Option<nat>, p: Progress, s: string)
    requires NoSpace(s) && s != "" && p.state == 0 && Body(room, p, s).Some?
    ensures |s| >= 2 && Place(s[0]) >= 0 && Place(s[1]) >= 0
  {
    BodyHead(room, p, s);
    assert s[0..] == s;
    hide Body, Place, Sextet;
    BodyNext(room, p, s, 0);
    BodyHead(room, Step(room, p, Sextet(s[0])).value, s[1..]);
  }

  /** An accepted text without white space encodes the bytes it decodes to. */
  lemma {:induction false} DecodedIsEncoded(room: Option<nat>, out: seq<bv8>, s: string) returns (x: seq<bv8>, fill: bv8)
    requires NoSpace(s) && Body(room, Progress(out, 0, 0), s).Some?
    ensures Fills(x, fill) && s == EncodeWith(x, fill)
    decreases |s|
  {
    hide Body, Code, Sextet, Place, S0, S1, S2, S3, High, Mid, Low, Over1, Over2, IsSpace;
    var p := Progress(out, 0, 0);
    BodyHead(room, p, s);
    if s == "" {
      return [], 0;
    }
    BodyOne(room, p, s);
    BodyPair(room, out, s);
    var v, w := Sextet(s[0]), Sextet(s[1]);
    var p2 := Progress(out + [High(v, w)], 2, Over1(w));
    BodyHead(room, p2, s[2..]);
    SextetsBack(v, w, 0, 0);
    SextetCode(s[0]);
    SextetCode(s[1]);
    if Place(s[2]) < 0 {
      x, fill := [High(v, w)], Over1(w);
      assert s == [s[0], s[1]] + s[2..];
      return;
    }
    BodyTriple(room, out, s);
    var y := Sextet(s[2]);
    var p3 := Progress(out + [High(v, w), Mid(w, y)], 3, Over2(y));
    BodyHead(room, p3, s[3..]);
    SextetsBack(v, w, y, 0);
    SextetCode(s[2]);
    if Place(s[3]) < 0 {
      x, fill := [High(v, w), Mid(w, y)], Over2(y);
      assert s == [s[0], s[1], s[2]] + s[3..];
      return;
    }
    x, fill := DecodedGroup(room, out, s);
  }

  lemma DecodedGroup(room: Option<nat>, out: seq<bv8>, s: string) returns (x: seq<bv8>, fill: bv8)
    requires NoSpace(s) && Body(room, Progress(out, 0, 0), s).Some?
    requires |s| >= 4 && Place(s[0]) >= 0 && Place(s[1]) >= 0 && Place(s[2]) >= 0 && Place(s[3]) >= 0
    ensures Fills(x, fill) && s == EncodeWith(x, fill)
    decreases |s|, 0
  {
    hide Body, Code, Sextet, Place, S0, S1, S2, S3, High, Mid, Low, IsSpace;
    BodyGroup(room, out, s);
    var v, w, y, z := Sextet(s[0]), Sextet(s[1]), Sextet(s[2]), Sextet(s[3]);
    var g := [High(v, w), Mid(w, y), Low(y, z)];
    var rest, f := DecodedIsEncoded(room, out + g, s[4..]);
    SextetsBack(v, w, y, z);
    SextetCode(s[0]);
    SextetCode(s[1]);
    SextetCode(s[2]);
    SextetCode(s[3]);
    x, fill := g + rest, f;
    assert x[3..] == rest && s == [s[0], s[1], s[2], s[3]] + s[4..];
  }

  // ----- The main results -----

  /** Decoding undoes encoding, wherever white space stands, when there is room
      for one byte more; and it accepts nothing else. */
  lemma DecodeExact(targsize: nat, src: string, x: seq<bv8>)
    ensures Decode(Some(targsize), src) == Some(x) <==> Strip(src) == Encode(x) && Need(|x|) <= targsize
  {
    hide Body;
    var room := Some(targsize);
    StripBody(room, START, src);
    StripClean(src);
    if Decode(room, src).Some? {
      var y, fill := DecodedIsEncoded(room, [], Strip(src));
      DecodeEncoded(room, [], y, fill);
      assert [] + y == y;
    }
    if Strip(src) == Encode(x) {
      DecodeEncoded(room, [], x, 0);
      assert [] + x == x;
    }
  }

  /** With no target the left-over bits are not looked at: every text that is an
      encoding but for these bits is accepted. */
  lemma DecodeWithoutTarget(src: string, x: seq<bv8>)
    ensures Decode(None, src) == Some(x) <==> exists fill :: Fills(x, fill) && Strip(src) == EncodeWith(x, fill)
  {
    hide Body;
    StripBody(None, START, src);
    StripClean(src);
    if Decode(None, src).Some? {
      var y, fill := DecodedIsEncoded(None, [], Strip(src));
      DecodeEncoded(None, [], y, fill);
      assert [] + y == y;
    }
    if fill :| Fills(x, fill) && Strip(src) == EncodeWith(x, fill) {
      DecodeEncoded(None, [], x, fill);
      assert [] + x == x;
    }
  }

  lemma {:induction false} EncodeLength(x: seq<bv8>, fill: bv8)
    ensures |EncodeWith(x, fill)| == (|x| + 2) / 3 * 4
  {
    hide Code;
    if |x| >= 3 {
      EncodeLength(x[3..], fill);
    }
  }

  lemma {:induction false} EncodeClean(x: seq<bv8>, fill: bv8)
    ensures NoSpace(EncodeWith(x, fill))
  {
    hide S0, S1, S2, S3, Code;
    if |x| >= 3 {
      EncodeClean(x[3..], fill);
      CodeSextet(S0(x[0]));
      CodeSextet(S1(x[0], x[1]));
      CodeSextet(S2(x[1], x[2]));
      CodeSextet(S3(x[2]));
    } else if |x| == 2 {
      CodeSextet(S0(x[0]));
      CodeSextet(S1(x[0], x[1]));
      CodeSextet(S2(x[1], fill));
    } else if |x| == 1 {
      CodeSextet(S0(x[0]));
      CodeSextet(S1(x[0], fill));
    }
  }

  lemma {:induction false} StripEncode(x: seq<bv8>)
    ensures Strip(Encode(x)) == Encode(x)
  {
    EncodeClean(x, 0);
    StripId(Encode(x));
  }

  /** Different bytes have different encodings. */
  lemma EncodeInjective(x: seq<bv8>, y: seq<bv8>)
    requires Encode(x) == Encode(y)
    ensures x == y
  {
    var n := Need(|x|) + Need(|y|);
    StripEncode(x);
    StripEncode(y);
    DecodeExact(n, Encode(x), x);
    DecodeExact(n, Encode(x), y);
  }

  // ----- The encoding in numbers -----

  const ALPHABET: string := Row('A', 26) + Row('a', 26) + Row('0', 10) + "+/"

  /** Digit `i` of a number of 24 bits, in base 64. */
  function Sixth(n: nat, i: nat): (d: nat)
    ensures d < 64
  {
    (if i == 0 then n / 262144 else if i == 1 then n / 4096 else if i == 2 then n / 64 else n) % 64
  }

  /** The four digits of a number of 24 bits. */
  function Letters(n: nat): (s: string)
    ensures |s| == 4
  {
    [ALPHABET[Sixth(n, 0)], ALPHABET[Sixth(n, 1)], ALPHABET[Sixth(n, 2)], ALPHABET[Sixth(n, 3)]]
  }

  /** Section 5.2 of RFC 1521: every 24 bits are a number whose four digits in base 64
      are written; what is missing of the last ones is zero, and padded. */
  function Reference(x: seq<bv8>): string {
    if x == [] then ""
    else if |x| == 1 then Letters(x[0] as int * 65536)[..2] + [PAD, PAD]
    else if |x| == 2 then Letters(x[0] as int * 65536 + x[1] as int * 256)[..3] + [PAD]
    else Letters(x[0] as int * 65536 + x[1] as int * 256 + x[2] as int) + Reference(x[3..])
  }

  lemma CodeIsLetter(v: bv8)
    requires v < 64
    ensures Code(v) == ALPHABET[v as int]
  {
  }

  lemma Shift2(b: bv8)
    ensures (b >> 2) as int == b as int / 4
  {
  }

  lemma Shift4(b: bv8)
    ensures (b >> 4) as int == b as int / 16
  {
  }

  lemma Shift6(b: bv8)
    ensures (b >> 6) as int == b as int / 64
  {
  }

  lemma And3(b: bv8)
    ensures (b & 0x03) as int == b as int % 4
  {
  }

  lemma And15(b: bv8)
    ensures (b & 0x0f) as int == b as int % 16
  {
  }

  lemma And63(b: bv8)
    ensures (b & 0x3f) as int == b as int % 64
  {
  }

  lemma Parts1(a: bv8, b: bv8)
    ensures S1(a, b) >> 4 == a & 0x03 && S1(a, b) & 0x0f == b >> 4
  {
  }

  lemma Parts2(b: bv8, c: bv8)
    ensures S2(b, c) >> 2 == b & 0x0f && S2(b, c) & 0x03 == c >> 6
  {
  }

  /** The groups of six bits as numbers. */
  lemma SextetsAre(a: bv8, b: bv8, c: bv8)
    ensures S0(a) as int == a as int / 4
    ensures S1(a, b) as int == a as int % 4 * 16 + b as int / 16
    ensures S2(b, c) as int == b as int % 16 * 4 + c as int / 64
    ensures S3(c) as int == c as int % 64
  {
    Shift2(a);
    And63(c);
    Parts1(a, b);
    Parts2(b, c);
    hide S1, S2;
    Shift4(S1(a, b));
    And15(S1(a, b));
    And3(a);
    Shift4(b);
    Shift2(S2(b, c));
    And3(S2(b, c));
    And15(b);
    Shift6(c);
  }

  lemma Quot64(a: nat, b: nat, c: nat)
    requires a < 256 && b < 256 && c < 256
    ensures (a * 65536 + b * 256 + c) / 64 == a * 1024 + b * 4 + c / 64
  {
    DivIs(a * 65536 + b * 256 + c, 64, a * 1024 + b * 4 + c / 64, c % 64);
  }

  lemma Quot4096(a: nat, b: nat, c: nat)
    requires a < 256 && b < 256 && c < 256
    ensures (a * 65536 + b * 256 + c) / 4096 == a * 16 + b / 16
  {
    DivIs(a * 65536 + b * 256 + c, 4096, a * 16 + b / 16, b % 16 * 256 + c);
  }

  lemma Quot262144(a: nat, b: nat, c: nat)
    requires a < 256 && b < 256 && c < 256
    ensures (a * 65536 + b * 256 + c) / 262144 == a / 4
  {
    DivIs(a * 65536 + b * 256 + c, 262144, a / 4, a % 4 * 65536 + b * 256 + c);
  }

  /** The four digits in terms of the three bytes. */
  lemma DigitsOf24(a: nat, b: nat, c: nat)
    requires a < 256 && b < 256 && c < 256
    ensures var n := a * 65536 + b * 256 + c;
            && Sixth(n, 0) == a / 4 && Sixth(n, 1) == a % 4 * 16 + b / 16
            && Sixth(n, 2) == b % 16 * 4 + c / 64 && Sixth(n, 3) == c % 64
  {
    Quot64(a, b, c);
    Quot4096(a, b, c);
    Quot262144(a, b, c);
    ModIs(a / 4, 64, 0, a / 4);
    ModIs(a * 16 + b / 16, 64, a / 4, a % 4 * 16 + b / 16);
    ModIs(a * 1024 + b * 4 + c / 64, 64, a * 16 + b / 16, b % 16 * 4 + c / 64);
    ModIs(a * 65536 + b * 256 + c, 64, a * 1024 + b * 4 + c / 64, c % 64);
  }

  /** The groups of six bits, with the bytes as numbers. */
  lemma SextetsOf(a: bv8, b: bv8, c: bv8, x: nat, y: nat, z: nat)
    requires x == a as int && y == b as int && z == c as int
    ensures x < 256 && y < 256 && z < 256
    ensures S0(a) as int == x / 4 && S1(a, b) as int == x % 4 * 16 + y / 16
    ensures S2(b, c) as int == y % 16 * 4 + z / 64 && S3(c) as int == z % 64
  {
    SextetsAre(a, b, c);
    hide S0, S1, S2, S3;
  }

  lemma SixthsAre(a: bv8, b: bv8, c: bv8, x: nat, y: nat, z: nat)
    requires x == a as int && y == b as int && z == c as int
    ensures var n := x * 65536 + y * 256 + z;
            && S0(a) as int == Sixth(n, 0) && S1(a, b) as int == Sixth(n, 1)
            && S2(b, c) as int == Sixth(n, 2) && S3(c) as int == Sixth(n, 3)
  {
    hide S0, S1, S2, S3, Sixth;
    SextetsOf(a, b, c, x, y, z);
    DigitsOf24(x, y, z);
  }

  /** Groups of six bits that are the digits of `n`. */
  lemma LettersFrom(n: nat, p: bv8, q: bv8, r: bv8, s: bv8)
    requires p < 64 && q < 64 && r < 64 && s < 64
    requires p as int == Sixth(n, 0) && q as int == Sixth(n, 1) && r as int == Sixth(n, 2) && s as int == Sixth(n, 3)
    ensures [Code(p), Code(q), Code(r), Code(s)] == Letters(n)
  {
    hide Code, Sixth;
    CodeIsLetter(p);
    CodeIsLetter(q);
    CodeIsLetter(r);
    CodeIsLetter(s);
  }

  lemma LettersAre(a: bv8, b: bv8, c: bv8, x: nat, y: nat, z: nat)
    requires x == a as int && y == b as int && z == c as int
    ensures [Code(S0(a)), Code(S1(a, b)), Code(S2(b, c)), Code(S3(c))] == Letters(x * 65536 + y * 256 + z)
  {
    hide Code, S0, S1, S2, S3, Sixth, Letters;
    SixthsAre(a, b, c, x, y, z);
    LettersFrom(x * 65536 + y * 256 + z, S0(a), S1(a, b), S2(b, c), S3(c));
  }

  /** The encoder writes what the standard says. */
  lemma {:induction false} EncodeIsReference(x: seq<bv8>)
    ensures Encode(x) == Reference(x)
  {
    hide Code, S0, S1, S2, S3, Letters;
    if |x| == 1 {
      LettersAre(x[0], 0, 0, x[0] as int, 0, 0);
    } else if |x| == 2 {
      LettersAre(x[0], x[1], 0, x[0] as int, x[1] as int, 0);
    } else if |x| >= 3 {
      LettersAre(x[0], x[1], x[2], x[0] as int, x[1] as int, x[2] as int);
      EncodeIsReference(x[3..]);
    }
  }
}
