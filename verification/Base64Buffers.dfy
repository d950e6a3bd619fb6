/** The Base 64 encoder and decoder as they fill a caller's buffer.

    The encoder writes group after group as long as there is room; the decoder
    keeps the byte it has begun in the target. */
module Base64Buffers {
  import opened Wrappers
  import opened Buffers
  import opened Base64

  lemma EncodeGroup(src: seq<bv8>, i: nat)
    requires i + 3 <= |src|
    ensures Encode(src[i..])
            == [Code(S0(src[i])), Code(S1(src[i], src[i + 1])), Code(S2(src[i + 1], src[i + 2])), Code(S3(src[i + 2]))]
               + Encode(src[i + 3..])
  {
    hide S0, S1, S2, S3, Code;
    assert src[i..][3..] == src[i + 3..];
  }

  /** One group of three bytes, if there is room for it. */
  method EncodeOne(src: seq<bv8>, i: nat, target: array<char>, targsize: nat, at: nat) returns (ok: bool, ghost group: string)
    requires i + 3 <= |src| && at <= targsize <= target.Length
    modifies target
    ensures ok == (at + 4 <= targsize) && |group| == 4 && Encode(src[i..]) == group + Encode(src[i + 3..])
    ensures target[..] == if ok then old(target[..at]) + group + old(target[at + 4..]) else old(target[..])
  {
    hide Encode, Code, S0, S1, S2, S3;
    var in0, in1, in2 := src[i], src[i + 1], src[i + 2];
    var output := [Code(S0(in0)), Code(S1(in0, in1)), Code(S2(in1, in2)), Code(S3(in2))];
    EncodeGroup(src, i);
    ok, group := at + 4 <= targsize, output;
    if ok {
      Store(target, at, output);
    }
  }

  lemma Grown(done: string, group: string, orig: string, now: string)
    requires |done| + |group| <= |orig|
    requires var was := done + orig[|done|..];
             now == was[..|done|] + group + was[|done| + |group|..]
    ensures now == done + group + orig[|done + group|..]
  {
  }

  /** The groups of three bytes; `done` is the text so far. */
  method EncodeGroups(src: seq<bv8>, target: array<char>, targsize: nat) returns (ok: bool, i: nat, ghost done: string)
    requires targsize <= target.Length
    modifies target
    ensures !ok ==> targsize < |Encode(src)|
    ensures ok ==> i <= |src| <= i + 2 && |done| * 3 == i * 4 && done + Encode(src[i..]) == Encode(src)
    ensures |done| <= targsize && target[..] == done + old(target[|done|..])
  {
    hide Encode;
    var datalength := 0;
    ghost var orig := target[..];
    i, done := 0, "";
    assert src[0..] == src && done + Encode(src) == Encode(src) && done + orig == orig;
    while 2 < |src| - i
      invariant i <= |src| && |done| * 3 == i * 4 && datalength == |done| <= targsize
      invariant done + Encode(src[i..]) == Encode(src)
      invariant target[..] == done + orig[datalength..]
    {
      var fits, group := EncodeOne(src, i, target, targsize, datalength);
      Concat3(done, group, Encode(src[i + 3..]));
      if !fits {
        return false, i, done;
      }
      Grown(done, group, orig, target[..]);
      i, done, datalength := i + 3, done + group, datalength + 4;
    }
    ok := true;
  }

  lemma EncodeLast(src: seq<bv8>, i: nat)
    requires i < |src| <= i + 2
    ensures var b := if i + 2 == |src| then src[i + 1] else 0;
            Encode(src[i..])
            == [Code(S0(src[i])), Code(S1(src[i], b)), if i + 1 == |src| then PAD else Code(S2(b, 0)), PAD]
  {
    hide S0, S1, S2, Code;
  }

  /** What is left is padded. */
  method EncodeRest(src: seq<bv8>, i: nat, target: array<char>, targsize: nat, datalength: nat) returns (ok: bool)
    requires i < |src| <= i + 2 && datalength <= targsize <= target.Length
    modifies target
    ensures |Encode(src[i..])| == 4 && ok == (datalength + 4 <= targsize)
    ensures ok ==> target[..] == old(target[..datalength]) + Encode(src[i..]) + old(target[datalength + 4..])
    ensures !ok ==> target[..] == old(target[..])
  {
    hide Encode, Code, S0, S1, S2;
    var in0, in1 := src[i], if i + 2 == |src| then src[i + 1] else 0;
    EncodeLast(src, i);
    ok := datalength + 4 <= targsize;
    if ok {
      Store(target, datalength, [Code(S0(in0)), Code(S1(in0, in1)), if i + 1 == |src| then PAD else Code(S2(in1, 0)), PAD]);
    }
  }

  lemma EncodeNone()
    ensures Encode([]) == ""
  {
  }

  /** The whole encoding, without a NUL. */
  method EncodeAll(src: seq<bv8>, target: array<char>, targsize: nat) returns (ok: bool, datalength: nat, ghost done: string)
    requires targsize <= target.Length
    modifies target
    ensures ok == (|Encode(src)| <= targsize)
    ensures ok ==> done == Encode(src) && datalength == |done|
    ensures |done| <= targsize && target[..] == done + old(target[|done|..])
  {
    hide Encode;
    ghost var orig := target[..];
    var i;
    ok, i, done := EncodeGroups(src, target, targsize);
    datalength := i / 3 * 4;
    if !ok {
      return;
    }
    if i != |src| {
      ok := EncodeRest(src, i, target, targsize, datalength);
      if ok {
        done, datalength := Encode(src), datalength + 4;
      }
      assert orig[|done|..] == orig[datalength..];
    } else {
      EncodeNone();
      assert src[i..] == [] && done + "" == done;
    }
  }

  lemma Beyond(now: string, done: string, orig: string, k: nat)
    requires |done| <= k <= |orig| && now == done + orig[|done|..]
    ensures now[k..] == orig[k..]
  {
  }

  lemma EncodedSize(src: seq<bv8>)
    ensures |Encode(src)| == (|src| + 2) / 3 * 4
  {
    EncodeLength(src, 0);
  }

  /** `b64_encode(src, srclength, target, targsize)`: the length of the encoding,
      or -1 if the target cannot hold it and a NUL. */
  method B64Encode(src: seq<bv8>, target: array<char>, targsize: nat) returns (r: int)
    requires targsize <= target.Length
    modifies target
    ensures r == -1 <==> targsize <= (|src| + 2) / 3 * 4
    ensures r != -1 ==> r == |Encode(src)| < targsize
    ensures r != -1 ==> target[..] == Encode(src) + [NUL] + old(target[|Encode(src)| + 1..])
    ensures target[targsize..] == old(target[targsize..])
  {
    hide Encode;
    ghost var orig := target[..];
    EncodedSize(src);
    var ok, datalength, done := EncodeAll(src, target, targsize);
    Beyond(target[..], done, orig, targsize);
    if !ok || datalength >= targsize {
      return -1;
    }
    Store(target, datalength, [NUL]);
    assert orig[datalength..][1..] == orig[datalength + 1..];
    Beyond(target[..], done + [NUL], orig, targsize);
    return datalength;
  }

  // ----- Decoding -----

  /** The buffer holds the finished bytes and the one begun. */
  ghost predicate Holds(p: Progress, target: array?<bv8>, targsize: nat, tarindex: nat, state: nat)
    reads target
  {
    && state < 4 && p.state == state && |p.out| == tarindex
    && (target != null ==>
          && tarindex + (if state == 0 then 0 else 1) <= targsize <= target.Length && target[..tarindex] == p.out
          && (state != 0 ==> target[tarindex] == p.part))
  }

  ghost function Room(target: array?<bv8>, targsize: nat): Option<nat> {
    if target == null then None else Some(targsize)
  }

  /** `target[tarindex] |= bits`. */
  method OrInto(target: array?<bv8>, tarindex: nat, bits: bv8)
    requires target != null ==> tarindex < target.Length
    modifies target
    ensures target != null ==> target[..] == old(target[..])[tarindex := old(target[tarindex]) | bits]
  {
    if target != null {
      target[tarindex] := target[tarindex] | bits;
    }
  }

  /** Completes a byte and begins the next one. */
  method StoreOver(target: array?<bv8>, targsize: nat, tarindex: nat, bits: bv8, over: bv8, ghost p: Progress)
    returns (ok: bool)
    requires 0 < p.state < 3 && Holds(p, target, targsize, tarindex, p.state)
    modifies target
    ensures ok == Fits(Room(target, targsize), tarindex + 1)
    ensures ok ==> Holds(Progress(p.out + [p.part | bits], p.state + 1, over), target, targsize, tarindex + 1, p.state + 1)
    ensures target != null ==> target[targsize..] == old(target[targsize..])
  {
    if target != null && tarindex + 1 >= targsize {
      return false;
    }
    OrInto(target, tarindex, bits);
    if target != null {
      target[tarindex + 1] := over;
      assert target[..tarindex + 1] == target[..tarindex] + [target[tarindex]];
    }
    ok := true;
  }

  lemma StepEdges(room: Option<nat>, p: Progress, v: bv8)
    requires v < 64 && (p.state == 0 || p.state == 3)
    ensures p.state == 0 ==> Step(room, p, v) == if Fits(room, |p.out|) then Some(Progress(p.out, 1, Top6(v))) else None
    ensures p.state == 3 ==>
              Step(room, p, v) == if Fits(room, |p.out|) then Some(Progress(p.out + [p.part | v], 0, 0)) else None
  {
    hide Over1, Over2, Top6, Low2, Low4, Fits;
  }

  lemma StepMiddle(room: Option<nat>, p: Progress, v: bv8)
    requires v < 64 && 0 < p.state < 3
    ensures p.state == 1 ==>
              Step(room, p, v) == if Fits(room, |p.out| + 1) then Some(Progress(p.out + [p.part | Low2(v)], 2, Over1(v))) else None
    ensures p.state == 2 ==>
              Step(room, p, v) == if Fits(room, |p.out| + 1) then Some(Progress(p.out + [p.part | Low4(v)], 3, Over2(v))) else None
  {
    hide Over1, Over2, Top6, Low2, Low4, Fits;
  }

  /** Begins a byte. */
  method StoreFirst(target: array?<bv8>, targsize: nat, tarindex: nat, bits: bv8, ghost p: Progress) returns (ok: bool)
    requires p.state == 0 && Holds(p, target, targsize, tarindex, 0)
    modifies target
    ensures ok == Fits(Room(target, targsize), tarindex)
    ensures ok ==> Holds(Progress(p.out, 1, bits), target, targsize, tarindex, 1)
    ensures target != null ==> target[targsize..] == old(target[targsize..])
  {
    ok := target == null || tarindex < targsize;
    if target != null && ok {
      target[tarindex] := bits;
    }
  }

  /** Completes the last byte of a group, which has its place already. */
  method StoreLast(target: array?<bv8>, targsize: nat, tarindex: nat, bits: bv8, ghost p: Progress)
    requires p.state == 3 && Holds(p, target, targsize, tarindex, 3)
    modifies target
    ensures Fits(Room(target, targsize), tarindex)
    ensures Holds(Progress(p.out + [p.part | bits], 0, 0), target, targsize, tarindex + 1, 0)
    ensures target != null ==> target[targsize..] == old(target[targsize..])
  {
    OrInto(target, tarindex, bits);
    assert target != null ==> target[..tarindex + 1] == target[..tarindex] + [target[tarindex]];
  }

  lemma HoldsShape(p: Progress, target: array?<bv8>, targsize: nat, tarindex: nat, state: nat)
    requires Holds(p, target, targsize, tarindex, state)
    ensures state < 4 && p.state == state && |p.out| == tarindex
  {
  }

  /** The `switch` on the state: stores six bits. */
  method StoreSextet(target: array?<bv8>, targsize: nat, tarindex: nat, state: nat, v: bv8, ghost p: Progress)
    returns (ok: bool, index: nat, next: nat)
    requires v < 64 && Holds(p, target, targsize, tarindex, state)
    requires target != null ==> targsize <= target.Length
    modifies target
    ensures ok == Step(Room(target, targsize), p, v).Some?
    ensures ok ==> Holds(Step(Room(target, targsize), p, v).value, target, targsize, index, next)
    ensures target != null ==> target[targsize..] == old(target[targsize..])
  {
    hide Over1, Over2, Top6, Low2, Low4, Step, Holds, Fits, Room;
    HoldsShape(p, target, targsize, tarindex, state);
    if 0 < state < 3 {
      StepMiddle(Room(target, targsize), p, v);
    } else {
      StepEdges(Room(target, targsize), p, v);
    }
    ok, index, next := true, tarindex, state;
    if state == 0 {
      ok := StoreFirst(target, targsize, tarindex, Top6(v), p);
      next := 1;
    } else if state == 1 {
      ok := StoreOver(target, targsize, tarindex, Low2(v), Over1(v), p);
      index, next := tarindex + 1, 2;
    } else if state == 2 {
      ok := StoreOver(target, targsize, tarindex, Low4(v), Over2(v), p);
      index, next := tarindex + 1, 3;
    } else {
      StoreLast(target, targsize, tarindex, v, p);
      index, next := tarindex + 1, 0;
    }
  }

  lemma BodyTurn(room: Option<nat>, p: Progress, src: string, i: nat)
    requires i < |src|
    ensures var ch := src[i];
            Body(room, p, src[i..])
            == if IsSpace(ch) then Body(room, p, src[i + 1..])
               else if ch == PAD then Tail(room, p, src[i + 1..])
               else if Place(ch) < 0 then None
               else match Step(room, p, Sextet(ch))
                 case None => None
                 case Some(q) => Body(room, q, src[i + 1..])
  {
    assert src[i..][1..] == src[i + 1..];
  }

  /** Steps over white space. */
  method SkipSpaces(src: string, at: nat) returns (i: nat)
    requires at <= |src|
    ensures at <= i <= |src| && src[i..] == SkipSpace(src[at..])
  {
    i := at;
    while i < |src| && IsSpace(src[i])
      invariant at <= i <= |src| && SkipSpace(src[i..]) == SkipSpace(src[at..])
    {
      assert src[i..][1..] == src[i + 1..];
      i := i + 1;
    }
  }

  /** What is checked after a pad at `at - 1`. */
  method CheckTail(src: string, at: nat, target: array?<bv8>, targsize: nat, tarindex: nat, state: nat, ghost p: Progress)
    returns (ok: bool)
    requires at <= |src| && Holds(p, target, targsize, tarindex, state)
    ensures ok == Tail(Room(target, targsize), p, src[at..]).Some?
    ensures ok ==> Tail(Room(target, targsize), p, src[at..]).value == p.out
  {
    hide SkipSpace;
    if state < 2 {
      return false;
    }
    var i := at;
    if state == 2 {
      i := SkipSpaces(src, at);
      if i == |src| || src[i] != PAD {
        return false;
      }
      assert src[i..][1..] == src[i + 1..];
      i := i + 1;
    }
    var j := SkipSpaces(src, i);
    if j != |src| {
      return false;
    }
    ok := target == null || target[tarindex] == 0;
  }

  /** `b64_decode(src, target, targsize)`: the number of bytes, or -1. */
  method B64Decode(src: string, target: array?<bv8>, targsize: nat) returns (r: int)
    requires target != null ==> targsize <= target.Length
    modifies target
    ensures var room := if target == null then None else Some(targsize);
            match Decode(room, src)
            case None => r == -1
            case Some(x) => r == |x| && (target != null ==> |x| <= target.Length && target[..|x|] == x)
    ensures target != null ==> target[targsize..] == old(target[targsize..])
  {
    hide Body, Step, Tail, Sextet, Place, IsSpace;
    ghost var p, room := START, Room(target, targsize);
    var tarindex: nat, state: nat, i := 0, 0, 0;
    assert src[0..] == src;
    while i < |src|
      invariant i <= |src| && Holds(p, target, targsize, tarindex, state)
      invariant Body(room, p, src[i..]) == Decode(room, src)
      invariant target != null ==> target[targsize..] == old(target[targsize..])
    {
      var ch := src[i];
      BodyTurn(room, p, src, i);
      i := i + 1;
      if IsSpace(ch) {
        continue;
      }
      if ch == PAD {
        var ok := CheckTail(src, i, target, targsize, tarindex, state, p);
        return if ok then tarindex else -1;
      }
      if Place(ch) < 0 {
        return -1;
      }
      var ok;
      ghost var q := Step(room, p, Sextet(ch));
      ok, tarindex, state := StoreSextet(target, targsize, tarindex, state, Sextet(ch), p);
      if !ok {
        return -1;
      }
      p := q.value;
    }
    BodyEnd(room, p);
    assert src[i..] == "";
    return if state == 0 then tarindex else -1;
  }
}
