/** The IPv4 and IPv6 codecs as they work on byte buffers: octets are gathered in a
    local array, the bytes behind a double colon are shifted by hand, and the
    destination is written only when the whole text is accepted, or when the whole
    text fits. */
module InetBuffers {
  import opened Wrappers
  import opened CStrings
  import opened Buffers
  import opened Snprintf
  import opened SnprintfFields
  import opened Inet
  import opened InetRoundTrip

  // ----- inet_pton4 -----

  lemma Run4Next(s: State4, src: string, i: nat)
    requires i < |src|
    ensures Run4(s, src[i..]) == match Step4(s, src[i]) case None => None case Some(t) => Run4(t, src[i + 1..])
  {
    assert src[i..][1..] == src[i + 1..];
  }

  lemma StepCases(s: State4, c: char)
    requires |s.done| < 4
    ensures IsDigit(c) ==>
              var n := s.cur * 10 + (c as int - '0' as int);
              Step4(s, c) == if n > 255 then None else Some(State4(s.done, n, true))
    ensures c == '.' && s.saw ==> Step4(s, c) == if |s.done| == 3 then None else Some(State4(s.done + [s.cur], 0, false))
    ensures !IsDigit(c) && !(c == '.' && s.saw) ==> Step4(s, c) == None
  {
  }

  lemma Run4End(s: State4)
    ensures Run4(s, "") == Some(s)
  {
  }

  /** `inet_pton4(src, dst + at)`: 1 if the text is a dotted quad, whose octets are
      then stored; otherwise nothing is. */
  method InetPton4(src: string, dst: array<byte>, at: nat) returns (ok: bool)
    requires at + 4 <= dst.Length
    modifies dst
    ensures ok == Pton4(src).Some?
    ensures dst[..] == old(dst[..at]) + (if ok then Pton4(src).value else old(dst[at..at + 4])) + old(dst[at + 4..])
  {
    hide Run4, Step4;
    ghost var orig := dst[..];
    assert orig == orig[..at] + orig[at..at + 4] + orig[at + 4..];
    var tmp := new byte[4](_ => 0);
    var tp, octets, sawDigit := 0, 0, false;
    assert src[0..] == src && tmp[..0] == [];
    for i := 0 to |src|
      invariant tp < 4 && octets == tp + if sawDigit then 1 else 0
      invariant !sawDigit ==> tmp[tp] == 0
      invariant Run4(START4, src) == Run4(State4(tmp[..tp], tmp[tp], sawDigit), src[i..])
      invariant dst[..] == orig
    {
      var ch := src[i];
      ghost var s := State4(tmp[..tp], tmp[tp], sawDigit);
      Run4Next(s, src, i);
      StepCases(s, ch);
      if '0' <= ch <= '9' {
        var new_ := tmp[tp] * 10 + (ch as int - '0' as int);
        if new_ > 255 {
          return false;
        }
        tmp[tp] := new_;
        assert tmp[..tp] == s.done;
        if !sawDigit {
          octets := octets + 1;
          if octets > 4 {
            return false;
          }
          sawDigit := true;
        }
      } else if ch == '.' && sawDigit {
        if octets == 4 {
          return false;
        }
        tp := tp + 1;
        tmp[tp] := 0;
        assert tmp[..tp] == s.done + [s.cur];
        sawDigit := false;
      } else {
        return false;
      }
    }
    Run4End(State4(tmp[..tp], tmp[tp], sawDigit));
    assert src[|src|..] == "";
    if octets < 4 {
      return false;
    }
    assert tmp[..tp] + [tmp[tp]] == tmp[..];
    Store(dst, at, tmp[..]);
    return true;
  }

  // ----- inet_pton6 -----

  /** One turn of the loop. */
  lemma Run6Next(s: State6, tok: string, src: string, i: nat)
    requires Sound(s) && i < |src|
    ensures var ch := ToLower(src[i]);
            var all := Run6(s, tok, src[i..]);
            if IsXDigit(ch) then
              all == var val := s.val * 16 + XValue(ch);
                     if val > 0xffff then None else Run6(s.(val := val, saw := true), tok, src[i + 1..])
            else if ch == ':' then
              if !s.saw then
                all == if s.colon.Some? then None else Run6(s.(colon := Some(|s.bytes|)), src[i + 1..], src[i + 1..])
              else if i + 1 == |src| || |s.bytes| + 2 > 16 then all == None
              else all == Run6(State6(s.bytes + [Hi(s.val), Lo(s.val)], s.colon, false, 0), src[i + 1..], src[i + 1..])
            else if ch == '.' && i + 1 < |src| then
              if |s.bytes| + 4 > 16 || Pton4(tok).None? then all == None
              else all == Some(s.(bytes := s.bytes + Pton4(tok).value, saw := false))
            else all == Run6(s, tok, src[i + 1..])
  {
    assert src[i..][1..] == src[i + 1..];
  }

  /** The state held by the buffer and the variables. */
  ghost function Held(tmp: seq<byte>, tp: nat, colonp: int, saw: bool, val: word): State6
    requires tp <= |tmp|
  {
    State6(tmp[..tp], if colonp < 0 then None else Some(colonp), saw, val)
  }

  ghost predicate TailZero(tmp: seq<byte>, tp: nat) {
    tp <= |tmp| && forall k :: tp <= k < |tmp| ==> tmp[k] == 0
  }

  lemma Run6End(s: State6, tok: string)
    requires Sound(s)
    ensures Run6(s, tok, "") == Some(s)
  {
  }

  /** The loop over the text, from `start` on; the bytes go to `tmp`. */
  method Scan6(src: string, start: nat, tmp: array<byte>)
    returns (ok: bool, tp: nat, colonp: int, saw: bool, val: word)
    requires start <= |src| && tmp.Length == 16 && TailZero(tmp[..], 0)
    modifies tmp
    ensures tp <= 16 && TailZero(tmp[..], tp) && colonp <= tp
    ensures Run6(START6, src[start..], src[start..]) == if ok then Some(Held(tmp[..], tp, colonp, saw, val)) else None
  {
    hide Run6, Pton4;
    ok, tp, colonp, saw, val := true, 0, -1, false, 0;
    var i: nat, curtok: nat := start, start;
    ghost var all := Run6(START6, src[start..], src[start..]);
    while i < |src|
      invariant curtok <= i <= |src|
      invariant tp <= 16 && TailZero(tmp[..], tp) && colonp <= tp
      invariant all == Run6(Held(tmp[..], tp, colonp, saw, val), src[curtok..], src[i..])
    {
      var ch := ToLower(src[i]);
      ghost var s := Held(tmp[..], tp, colonp, saw, val);
      Run6Next(s, src[curtok..], src, i);
      i := i + 1;
      if IsXDigit(ch) {
        var v: int := val * 16;
        v := v + XValue(ch);
        if v > 0xffff {
          ok := false;
          return;
        }
        val, saw := v, true;
        continue;
      }
      if ch == ':' {
        curtok := i;
        if !saw {
          if colonp >= 0 {
            ok := false;
            return;
          }
          colonp := tp;
          continue;
        } else if i == |src| {
          ok := false;
          return;
        }
        if tp + 2 > 16 {
          ok := false;
          return;
        }
        tmp[tp], tmp[tp + 1] := Hi(val), Lo(val);
        assert tmp[..tp + 2] == s.bytes + [Hi(val), Lo(val)];
        tp := tp + 2;
        saw, val := false, 0;
        continue;
      }
      if i < |src| && ch == '.' {
        if tp + 4 <= 16 {
          var quad := InetPton4(src[curtok..], tmp, tp);
          if quad {
            assert tmp[..tp + 4] == s.bytes + Pton4(src[curtok..]).value;
            tp := tp + 4;
            saw := false;
            return;
          }
        }
        ok := false;
        return;
      }
    }
    assert src[i..] == "";
    Run6End(Held(tmp[..], tp, colonp, saw, val), src[curtok..]);
  }

  /** The bytes behind the double colon move to the end, one by one. */
  method ShiftRight(tmp: array<byte>, colonp: nat, tp: nat)
    requires tmp.Length == 16 && colonp <= tp < 16 && TailZero(tmp[..], tp)
    modifies tmp
    ensures tmp[..] == old(tmp[..colonp]) + Zeros(16 - tp) + old(tmp[colonp..tp])
  {
    ghost var orig := tmp[..];
    var n := tp - colonp;
    for i := 0 to n
      invariant forall k :: 0 <= k < tp - i ==> tmp[k] == orig[k]
      invariant forall k :: tp - i <= k < 16 - i ==> tmp[k] == 0
      invariant forall k :: 16 - i <= k < 16 ==> tmp[k] == orig[k - (16 - tp)]
    {
      tmp[16 - (i + 1)] := tmp[colonp + n - (i + 1)];
      tmp[colonp + n - (i + 1)] := 0;
    }
    assert tmp[..] == orig[..colonp] + Zeros(16 - tp) + orig[colonp..tp];
  }

  /** Stores the last group and spreads the double colon. */
  method FinishBuffer(tmp: array<byte>, tp0: nat, colonp: int, saw: bool, val: word) returns (ok: bool)
    requires tmp.Length == 16 && TailZero(tmp[..], tp0) && tp0 <= 16 && colonp <= tp0
    modifies tmp
    ensures var r := Finish6(old(Held(tmp[..], tp0, colonp, saw, val)));
            ok == r.Some? && (ok ==> tmp[..] == r.value)
  {
    ghost var s := Held(tmp[..], tp0, colonp, saw, val);
    var tp := tp0;
    if saw {
      if tp + 2 > 16 {
        return false;
      }
      tmp[tp], tmp[tp + 1] := Hi(val), Lo(val);
      assert tmp[..tp + 2] == s.bytes + [Hi(val), Lo(val)];
      tp := tp + 2;
    }
    ghost var bytes := tmp[..tp];
    if colonp >= 0 {
      if tp == 16 {
        return false;
      }
      assert bytes[..colonp] == tmp[..colonp] && bytes[colonp..] == tmp[colonp..tp];
      ShiftRight(tmp, colonp, tp);
      tp := 16;
    }
    if tp != 16 {
      return false;
    }
    assert colonp < 0 ==> tmp[..] == bytes;
    return true;
  }

  lemma PtonBody(src: string, start: nat)
    requires start == if src != "" && src[0] == ':' then 1 else 0
    requires start == 1 ==> |src| > 1 && src[1] == ':'
    ensures Pton6(src) == match Run6(START6, src[start..], src[start..]) case None => None case Some(t) => Finish6(t)
  {
    assert src[0..] == src;
  }

  /** `inet_pton6(src, dst)`: 1 if the text is accepted, and then the address is
      stored; otherwise nothing is. */
  method InetPton6(src: string, dst: array<byte>) returns (ok: bool)
    requires dst.Length >= 16
    modifies dst
    ensures ok == Pton6(src).Some?
    ensures dst[..] == (if ok then Pton6(src).value else old(dst[..16])) + old(dst[16..])
  {
    ghost var orig := dst[..];
    assert orig == orig[..16] + orig[16..];
    var tmp := new byte[16](_ => 0);
    var start := 0;
    if |src| > 0 && src[0] == ':' {
      start := 1;
      if |src| == 1 || src[1] != ':' {
        return false;
      }
    }
    PtonBody(src, start);
    hide Run6, Pton6, Finish6;
    var good, tp, colonp, saw, val := Scan6(src, start, tmp);
    if !good {
      return false;
    }
    ok := FinishBuffer(tmp, tp, colonp, saw, val);
    if ok {
      Store(dst, 0, tmp[..]);
      assert dst[..] == tmp[..] + orig[16..];
    }
  }

  // ----- inet_ntop6 -----

  /** A run of zero groups steps around a nonzero one. */
  lemma RunAvoids(w: seq<word>, b: nat, l: nat, k: nat)
    requires AllZero(w, b, l) && k < |w| && w[k] != 0
    ensures k < b || b + l <= k
  {
  }

  lemma RunHead(w: seq<word>, b: nat, l: nat)
    requires AllZero(w, b, l) && l >= 1
    ensures w[b] == 0
  {
  }

  /** A nonzero group ends the runs before it. */
  lemma BestExtends(w: seq<word>, i: nat, r: Run)
    requires i < |w| && BestIn(w, i, r) && w[i] != 0
    ensures BestIn(w, i + 1, r)
  {
    if r.Run? {
      forall b: nat, l: nat | l >= 1 && b + l <= i + 1 && AllZero(w, b, l)
        ensures l < r.len || (l == r.len && b >= r.base)
      {
        RunAvoids(w, b, l, i);
      }
    }
  }

  /** The run that just ended is the best one if it is longer than all before. */
  lemma BestCloses(w: seq<word>, i: nat, base: nat, len: nat, r: Run)
    requires i <= |w| && base + len == i && len >= 1 && AllZero(w, base, len)
    requires base > 0 ==> w[base - 1] != 0
    requires BestIn(w, base, r)
    ensures BestIn(w, i, if r.NoRun? || len > r.len then Run(base, len) else r)
  {
    var best := if r.NoRun? || len > r.len then Run(base, len) else r;
    forall b: nat, l: nat | l >= 1 && b + l <= i && AllZero(w, b, l)
      ensures l < best.len || (l == best.len && b >= best.base)
    {
      RunHead(w, b, l);
      if b < base {
        RunAvoids(w, b, l, base - 1);
      }
    }
  }

  lemma NoRunYet(w: seq<word>)
    ensures BestIn(w, 0, NoRun)
  {
  }

  /** Finds the longest run of zero groups. */
  method FindRun(w: seq<word>) returns (best: Run)
    requires |w| == 8
    ensures BestIn(w, 8, best)
  {
    hide BestIn;
    best := NoRun;
    var curBase, curLen := -1, 0;
    NoRunYet(w);
    for i := 0 to 8
      invariant curBase < 0 ==> BestIn(w, i, best)
      invariant curBase >= 0 ==>
                  && curLen >= 1 && curBase + curLen == i && AllZero(w, curBase, curLen)
                  && (curBase > 0 ==> w[curBase - 1] != 0) && BestIn(w, curBase, best)
      invariant curBase < 0 && i > 0 ==> w[i - 1] != 0
    {
      if w[i] == 0 {
        if curBase == -1 {
          curBase, curLen := i, 1;
        } else if curBase >= 0 {
          curLen := curLen + 1;
        } else {
          curBase, curLen := i, 1;
        }
      } else {
        if curBase >= 0 {
          BestCloses(w, i, curBase, curLen, best);
          if best.NoRun? || curLen > best.len {
            best := Run(curBase, curLen);
          }
          curBase := -1;
        }
        BestExtends(w, i, best);
      }
    }
    if curBase >= 0 {
      BestCloses(w, 8, curBase, curLen, best);
      if best.NoRun? || curLen > best.len {
        best := Run(curBase, curLen);
      }
    }
  }

  /** A run of two groups at least contains one of two. */
  lemma SubRun(w: seq<word>, b: nat, l: nat)
    requires AllZero(w, b, l) && l >= 2
    ensures AllZero(w, b, 2)
  {
  }

  lemma PairHead(w: seq<word>, b: nat)
    requires b + 2 <= |w|
    ensures AllZero(w, b, 2) ==> w[b] == 0
  {
  }

  /** A single zero group is not compressed. */
  lemma BestCompressed(w: seq<word>, r: Run)
    requires |w| == 8 && BestIn(w, 8, r)
    ensures Compressed(w, if r.Run? && r.len < 2 then NoRun else r)
  {
    if r.NoRun? || r.len < 2 {
      forall b: nat | b + 2 <= |w|
        ensures !AllZero(w, b, 2)
      {
        PairHead(w, b);
      }
    }
  }

  /** The compressed run is determined by the address. */
  lemma CompressedUnique(w: seq<word>, r: Run, s: Run)
    requires Compressed(w, r) && Compressed(w, s)
    ensures r == s
  {
    if r.Run? {
      SubRun(w, r.base, r.len);
    }
    if s.Run? {
      SubRun(w, s.base, s.len);
    }
  }

  lemma GroupLength(v: word)
    ensures |Digits(v, Hex)| <= 4
  {
    assert Power(Hex, 4) == 0x1_0000;
    DigitsLength(v, Hex, 4);
  }

  lemma OctetLength(v: byte)
    ensures |Digits(v, Dec)| <= 3
  {
    assert Power(Dec, 3) == 1000;
    DigitsLength(v, Dec, 3);
  }

  lemma {:induction false} TextLength(w: seq<word>, r: Run, i: nat)
    requires |w| == 8 && i <= 8 && !Embeds(w, r)
    ensures |Text6(w, r, i)| <= 5 * (8 - i) + 1
    decreases 8 - i
  {
    if i < 8 {
      TextLength(w, r, i + 1);
      GroupLength(w[i]);
      hide Digits;
    }
  }

  /** The text always fits the local buffer, which has room for 45 characters
      and a NUL. */
  lemma TextFits(w: seq<word>, r: Run)
    requires |w| == 8
    ensures |Text6(w, r, 0)| <= 45
  {
    if Embeds(w, r) {
      TextEmbeds(w, r);
      GroupLength(w[5]);
      OctetLength(Hi(w[6]));
      OctetLength(Lo(w[6]));
      OctetLength(Hi(w[7]));
      OctetLength(Lo(w[7]));
      hide Digits, Text6;
    } else {
      TextLength(w, r, 0);
    }
  }

  lemma PrintStep(w: seq<word>, r: Run, i: nat)
    requires |w| == 8 && i < 8
    ensures InRun(r, i) && i != r.base ==> Text6(w, r, i) == Text6(w, r, i + 1)
    ensures InRun(r, i) && i == r.base ==> Text6(w, r, i) == ":" + Text6(w, r, i + 1)
    ensures i == 0 && !InRun(r, i) ==> Text6(w, r, i) == Digits(w[i], Hex) + Text6(w, r, i + 1)
    ensures 0 < i < 8 && !InRun(r, i) && !(i == 6 && Embeds(w, r)) ==>
              Text6(w, r, i) == ":" + (Digits(w[i], Hex) + Text6(w, r, i + 1))
    ensures i == 6 && !InRun(r, i) && Embeds(w, r) ==> Text6(w, r, i) == ":" + Dots(w)
  {
    TextStep(w, r, i);
    hide Digits, Dotted;
    assert "" + Text6(w, r, i + 1) == Text6(w, r, i + 1);
  }

  predicate ShapeOk(r: Run) {
    r.Run? ==> r.len >= 1 && r.base + r.len <= 8
  }

  /** One turn of the printing loop: the text written so far, and whether that
      was all of it. */
  method PrintGroup(w: seq<word>, best: Run, i: nat, tmp: string) returns (out: string, done: bool)
    requires |w| == 8 && i < 8 && ShapeOk(best)
    ensures done ==> best.Run? && best.base + best.len < 8
    ensures out + (if done then "" else Text6(w, best, i + 1)) == tmp + Text6(w, best, i)
  {
    hide Text6, Digits, Dotted;
    PrintStep(w, best, i);
    ghost var next := Text6(w, best, i + 1);
    if InRun(best, i) {
      out := if i == best.base then tmp + ":" else tmp;
      Concat3(tmp, ":", next);
      return out, false;
    }
    out := if i != 0 then tmp + ":" else tmp;
    if i == 6 && Embeds(w, best) {
      out := out + Dotted(Hi(w[6]), Lo(w[6]), Hi(w[7]), Lo(w[7]));
      Concat3(tmp, ":", Dots(w));
      assert out + "" == out;
      return out, true;
    }
    ghost var digits := Digits(w[i], Hex);
    Concat3(tmp, ":", digits + next);
    Concat3(tmp + ":", digits, next);
    Concat3(tmp, digits, next);
    return out + Digits(w[i], Hex), false;
  }

  lemma PrintEnd(w: seq<word>, r: Run)
    requires |w| == 8
    ensures Text6(w, r, 8) == if r.Run? && r.base + r.len == 8 then ":" else ""
  {
  }

  /** Writes the text of the groups. */
  method Print6(w: seq<word>, best: Run) returns (tmp: string)
    requires |w| == 8 && ShapeOk(best)
    ensures tmp == Text6(w, best, 0)
  {
    hide Text6;
    tmp := "";
    assert "" + Text6(w, best, 0) == Text6(w, best, 0);
    var i, done := 0, false;
    while i < 8 && !done
      invariant i <= 8 && (done ==> best.Run? && best.base + best.len < 8)
      invariant tmp + (if done then "" else Text6(w, best, i)) == Text6(w, best, 0)
      decreases 8 - i, !done
    {
      tmp, done := PrintGroup(w, best, i, tmp);
      i := i + 1;
    }
    PrintEnd(w, best);
    assert tmp + "" == tmp;
    if best.Run? && best.base + best.len == 8 {
      tmp := tmp + ":";
    }
  }

  lemma RunShape(w: seq<word>, r: Run)
    requires |w| == 8 && Compressed(w, r)
    ensures ShapeOk(r)
  {
  }

  /** The run of zero groups that is shortened. */
  method ChooseRun(w: seq<word>) returns (best: Run)
    requires |w| == 8
    ensures Compressed(w, best) && ShapeOk(best)
  {
    hide Compressed, BestIn;
    best := FindRun(w);
    BestCompressed(w, best);
    if best.Run? && best.len < 2 {
      best := NoRun;
    }
    RunShape(w, best);
  }

  /** `inet_ntop6(src, dst, size)`: writes the text of the address and a NUL if
      they fit, and nothing otherwise. */
  method InetNtop6(src: array<byte>, dst: array<char>, size: nat) returns (ok: bool, ghost r: Run)
    requires src.Length >= 16 && dst.Length >= size
    modifies dst
    ensures Compressed(Words(src[..16]), r)
    ensures var text := Text6(Words(src[..16]), r, 0);
            && ok == (|text| + 1 <= size)
            && (!ok ==> dst[..] == old(dst[..]))
            && (ok ==> dst[..] == text + [NUL] + old(dst[|text| + 1..]))
  {
    hide Text6, Compressed, Words;
    var words := Words(src[..16]);
    var best := ChooseRun(words);
    r := best;
    var tmp := Print6(words, best);
    ok := |tmp| + 1 <= size;
    if ok {
      Store(dst, 0, tmp + [NUL]);
    }
  }
}
