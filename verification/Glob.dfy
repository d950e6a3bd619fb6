/** The wildcard matcher, and what a glob pattern means. */
module Glob {
  import opened CStrings

  /** Characters are compared as they are, or without regard to case. */
  predicate Same(a: char, b: char, docase: bool) {
    if docase then a == b else ToLower(a) == ToLower(b)
  }

  predicate IsWild(c: char) {
    c == '*' || c == '?'
  }

  /** What a pattern means: `*` stands for any text and `?` for any character. */
  predicate Glob(p: string, s: string, docase: bool)
    decreases |p|, |s|
  {
    if p == "" then s == ""
    else if p[0] == '*' then Glob(p[1..], s, docase) || (s != "" && Glob(p, s[1..], docase))
    else s != "" && (p[0] == '?' || Same(s[0], p[0], docase)) && Glob(p[1..], s[1..], docase)
  }

  // ----- What the matcher does -----

  /** `match_wild(pattern, str, docase)`: nothing empty matches. */
  predicate Wild(p: string, s: string, docase: bool)
    decreases |p|, |s|, 2
  {
    p != "" && s != "" && Go(p, s, docase)
  }

  predicate Seek(p: string, s: string, docase: bool)
    requires p != ""
    decreases |p|, |s|, 3
  {
    s != "" && ((Same(s[0], p[0], docase) && Wild(p, s, docase)) || Seek(p, s[1..], docase))
  }

  /** The loop over pattern and text. After a `*` the rest of the pattern is tried
      where its first character occurs, and then right here. */
  predicate Go(p: string, s: string, docase: bool)
    decreases |p|, |s|, 1
  {
    if p == "" then s == ""
    else if p[0] == '?' then s != "" && Go(p[1..], s[1..], docase)
    else if p[0] == '*' then p[1..] == "" || Seek(p[1..], s, docase) || Go(p[1..], s, docase)
    else s != "" && Same(s[0], p[0], docase) && Go(p[1..], s[1..], docase)
  }

  lemma GoNext(p: string, i: nat, s: string, j: nat, docase: bool)
    requires i < |p| && j <= |s|
    ensures p[i] == '?' ==> (Go(p[i..], s[j..], docase) <==> j < |s| && Go(p[i + 1..], s[j + 1..], docase))
    ensures p[i] == '*' ==>
              (Go(p[i..], s[j..], docase)
               <==> i + 1 == |p| || Seek(p[i + 1..], s[j..], docase) || Go(p[i + 1..], s[j..], docase))
    ensures !IsWild(p[i]) ==>
              (Go(p[i..], s[j..], docase) <==> j < |s| && Same(s[j], p[i], docase) && Go(p[i + 1..], s[j + 1..], docase))
  {
    assert p[i..][1..] == p[i + 1..];
    if j < |s| {
      assert s[j..][1..] == s[j + 1..];
    }
  }

  lemma SeekNext(p: string, s: string, k: nat, docase: bool)
    requires p != "" && k < |s|
    ensures Seek(p, s[k..], docase)
            <==> (Same(s[k], p[0], docase) && Wild(p, s[k..], docase)) || Seek(p, s[k + 1..], docase)
  {
    assert s[k..][1..] == s[k + 1..];
  }

  lemma SeekNone(p: string, docase: bool)
    requires p != ""
    ensures !Seek(p, "", docase)
  {
  }

  lemma GoEnd(s: string, docase: bool)
    ensures Go("", s, docase) <==> s == ""
  {
  }

  /** `match_wild(pattern, str, docase)`. */
  method MatchWild(pattern: string, str: string, docase: bool) returns (r: bool)
    ensures r == Wild(pattern, str, docase)
    decreases |pattern|, 0
  {
    if str == "" || pattern == "" {
      return false;
    }
    hide Go, Seek;
    var i, j := 0, 0;
    assert pattern[0..] == pattern && str[0..] == str;
    while i < |pattern|
      invariant i <= |pattern| && j <= |str|
      invariant Go(pattern[i..], str[j..], docase) == Go(pattern, str, docase)
    {
      var c := pattern[i];
      GoNext(pattern, i, str, j, docase);
      i := i + 1;
      if c == '*' {
        if i == |pattern| {
          return true;
        }
        var found := SeekRest(pattern[i..], str[j..], docase);
        if found {
          return true;
        }
      } else {
        if j == |str| || (c != '?' && !Same(str[j], c, docase)) {
          return false;
        }
        j := j + 1;
      }
    }
    GoEnd(str[j..], docase);
    assert pattern[i..] == "";
    r := j == |str|;
  }

  /** The loop that looks for the rest of the pattern. */
  method SeekRest(p: string, s: string, docase: bool) returns (found: bool)
    requires p != ""
    ensures found == Seek(p, s, docase)
    decreases |p|, 1
  {
    hide Seek, Wild;
    var k := 0;
    assert s[0..] == s;
    while k < |s|
      invariant k <= |s| && Seek(p, s[k..], docase) == Seek(p, s, docase)
    {
      SeekNext(p, s, k, docase);
      if Same(s[k], p[0], docase) {
        var matches := MatchWild(p, s[k..], docase);
        if matches {
          return true;
        }
      }
      k := k + 1;
    }
    SeekNone(p, docase);
    assert s[|s|..] == "";
    found := false;
  }

  // ----- A match is a match -----

  lemma {:induction false} StarSuffix(p: string, s: string, k: nat, docase: bool)
    requires k <= |s| && Glob(p, s[k..], docase)
    ensures Glob(['*'] + p, s, docase)
    decreases k
  {
    assert (['*'] + p)[1..] == p;
    if k == 0 {
      assert s[0..] == s;
    } else {
      assert s[1..][k - 1..] == s[k..];
      StarSuffix(p, s[1..], k - 1, docase);
    }
  }

  lemma {:induction false} SeekFinds(p: string, s: string, docase: bool) returns (k: nat)
    requires p != "" && Seek(p, s, docase)
    ensures k < |s| && Same(s[k], p[0], docase) && Go(p, s[k..], docase)
    decreases |s|
  {
    if Same(s[0], p[0], docase) && Wild(p, s, docase) {
      assert s[0..] == s;
      k := 0;
    } else {
      k := SeekFinds(p, s[1..], docase);
      assert s[1..][k..] == s[k + 1..];
      k := k + 1;
    }
  }

  lemma {:induction false} GoSound(p: string, s: string, docase: bool)
    requires Go(p, s, docase)
    ensures Glob(p, s, docase)
    decreases |p|, |s|
  {
    hide Same;
    if p != "" {
      if p[0] == '*' {
        assert p == ['*'] + p[1..] && s[0..] == s && s[|s|..] == "";
        if p[1..] == "" {
          StarSuffix("", s, |s|, docase);
        } else if Seek(p[1..], s, docase) {
          var k := SeekFinds(p[1..], s, docase);
          GoSound(p[1..], s[k..], docase);
          StarSuffix(p[1..], s, k, docase);
        } else {
          GoSound(p[1..], s, docase);
        }
      } else {
        GoSound(p[1..], s[1..], docase);
      }
    }
  }

  /** Whatever the matcher accepts, the pattern means. */
  lemma WildSound(p: string, s: string, docase: bool)
    requires Wild(p, s, docase)
    ensures Glob(p, s, docase)
  {
    GoSound(p, s, docase);
  }

  // ----- Which patterns the matcher understands -----

  /** Question marks, then the end or a character that stands for itself. */
  predicate QuestionsOnly(p: string) {
    p == "" || if p[0] == '?' then QuestionsOnly(p[1..]) else p[0] != '*'
  }

  /** A star whose run of wildcards goes on with question marks to its end. */
  predicate BadAt(p: string) {
    |p| >= 2 && p[0] == '*' && p[1] == '?' && QuestionsOnly(p[1..])
  }

  /** Some run of wildcards has a star and ends in a question mark. */
  predicate Bad(p: string) {
    p != "" && (BadAt(p) || Bad(p[1..]))
  }

  /** Question marks and a star then: more text at the front does no harm. */
  lemma {:induction false} Absorbs(p: string, s: string, c: char, docase: bool)
    requires p != "" && IsWild(p[0]) && !QuestionsOnly(p) && Glob(p, s, docase)
    ensures Glob(p, [c] + s, docase)
    decreases |p|
  {
    assert ([c] + s)[1..] == s;
    if p[0] == '?' {
      Absorbs(p[1..], s[1..], s[0], docase);
      assert s == [s[0]] + s[1..];
    }
  }

  lemma {:induction false} StarAbsorbed(p: string, s: string, docase: bool)
    requires p != "" && p[0] == '*' && Glob(p, s, docase)
    requires |p| >= 2 && IsWild(p[1]) && !QuestionsOnly(p[1..])
    ensures Glob(p[1..], s, docase)
    decreases |s|
  {
    if s != "" && Glob(p, s[1..], docase) {
      StarAbsorbed(p, s[1..], docase);
      Absorbs(p[1..], s[1..], s[0], docase);
      assert s == [s[0]] + s[1..];
    }
  }

  lemma {:induction false} StarTaken(p: string, s: string, docase: bool) returns (k: nat)
    requires p != "" && p[0] == '*' && Glob(p, s, docase)
    ensures k <= |s| && Glob(p[1..], s[k..], docase)
    decreases |s|
  {
    if Glob(p[1..], s, docase) {
      assert s[0..] == s;
      k := 0;
    } else {
      k := StarTaken(p, s[1..], docase);
      assert s[1..][k..] == s[k + 1..];
      k := k + 1;
    }
  }

  lemma {:induction false} SeekAt(p: string, s: string, k: nat, docase: bool)
    requires p != "" && k < |s| && Same(s[k], p[0], docase) && Wild(p, s[k..], docase)
    ensures Seek(p, s, docase)
    decreases k
  {
    if k == 0 {
      assert s[0..] == s;
    } else {
      assert s[1..][k - 1..] == s[k..];
      SeekAt(p, s[1..], k - 1, docase);
    }
  }

  lemma {:induction false} GoComplete(p: string, s: string, docase: bool)
    requires !Bad(p) && Glob(p, s, docase)
    ensures Go(p, s, docase)
    decreases |p|, |s|
  {
    hide Same;
    if p != "" {
      if p[0] != '*' {
        GoComplete(p[1..], s[1..], docase);
      } else if |p| >= 2 {
        if IsWild(p[1]) {
          assert p[1] == '*' ==> !QuestionsOnly(p[1..]);
          StarAbsorbed(p, s, docase);
          GoComplete(p[1..], s, docase);
        } else {
          var k := StarTaken(p, s, docase);
          GoComplete(p[1..], s[k..], docase);
          SeekAt(p[1..], s, k, docase);
        }
      }
    }
  }

  // ----- A text that a bad pattern means but the matcher refuses -----

  /** The character `z` is not in the pattern, and it is no wildcard. */
  predicate Unused(p: string, z: char) {
    !IsWild(z) && forall i :: 0 <= i < |p| ==> ToLower(p[i]) != ToLower(z)
  }

  /** A text for the pattern: `z` for every question mark, and one for every bad
      star; other stars stand for nothing. */
  function Witness(p: string, z: char): string {
    if p == "" then ""
    else (if p[0] == '?' || BadAt(p) then [z] else if p[0] == '*' then "" else [p[0]]) + Witness(p[1..], z)
  }

  lemma {:induction false} WitnessMeant(p: string, z: char, docase: bool)
    ensures Glob(p, Witness(p, z), docase)
    decreases |p|
  {
    if p != "" {
      var rest := Witness(p[1..], z);
      WitnessMeant(p[1..], z, docase);
      hide BadAt;
      assert "" + rest == rest && ([z] + rest)[1..] == rest && ([p[0]] + rest)[1..] == rest;
    }
  }

  lemma {:induction false} WitnessPlain(p: string, z: char)
    requires Unused(p, z)
    ensures forall i :: 0 <= i < |Witness(p, z)| ==> !IsWild(Witness(p, z)[i])
    decreases |p|
  {
    if p != "" {
      WitnessPlain(p[1..], z);
      hide BadAt;
    }
  }

  /** The pattern as the matcher reads it where the text has no wildcards: a star
      before another wildcard stands for nothing. */
  function Drop(p: string): string {
    if p == "" then "" else (if |p| >= 2 && p[0] == '*' && IsWild(p[1]) then "" else [p[0]]) + Drop(p[1..])
  }

  predicate NoWild(s: string) {
    forall i :: 0 <= i < |s| ==> !IsWild(s[i])
  }

  lemma {:induction false} GoDrops(p: string, s: string, docase: bool)
    requires NoWild(s) && Go(p, s, docase)
    ensures Glob(Drop(p), s, docase)
    decreases |p|, |s|
  {
    if p != "" {
      var rest := Drop(p[1..]);
      assert ([p[0]] + rest)[1..] == rest && "" + rest == rest;
      if p[0] != '*' {
        GoDrops(p[1..], s[1..], docase);
      } else if |p| == 1 {
        assert s[|s|..] == "";
        StarSuffix("", s, |s|, docase);
      } else if Seek(p[1..], s, docase) {
        var k := SeekFinds(p[1..], s, docase);
        assert !IsWild(s[k]) && !IsWild(p[1]);
        GoDrops(p[1..], s[k..], docase);
        StarSuffix(rest, s, k, docase);
      } else {
        GoDrops(p[1..], s, docase);
      }
    }
  }

  /** Characters other than `z`; pattern characters that stand for themselves. */
  function Others(s: string, z: char): nat {
    if s == "" then 0 else (if s[0] == z then 0 else 1) + Others(s[1..], z)
  }

  function Literals(p: string): nat {
    if p == "" then 0 else (if IsWild(p[0]) then 0 else 1) + Literals(p[1..])
  }

  lemma {:induction false} LiteralsFit(p: string, s: string, z: char, docase: bool)
    requires Unused(p, z) && Glob(p, s, docase)
    ensures Literals(p) <= Others(s, z)
    decreases |p|, |s|
  {
    if p != "" {
      if p[0] == '*' && !Glob(p[1..], s, docase) {
        LiteralsFit(p, s[1..], z, docase);
      } else {
        LiteralsFit(p[1..], if p[0] == '*' then s else s[1..], z, docase);
      }
    }
  }

  lemma {:induction false} LiteralsCounted(p: string, z: char)
    requires Unused(p, z)
    ensures Literals(Drop(p)) == Literals(p) == Others(Witness(p, z), z)
    ensures Unused(Drop(p), z)
    decreases |p|
  {
    if p != "" {
      LiteralsCounted(p[1..], z);
      var d, w := Drop(p[1..]), Witness(p[1..], z);
      hide BadAt;
      assert "" + d == d && ([p[0]] + d)[1..] == d;
      assert "" + w == w && ([p[0]] + w)[1..] == w && ([z] + w)[1..] == w;
    }
  }

  /** Behind a bad star there is one `z` too many. */
  lemma {:induction false} QuestionsRefuse(p: string, z: char, docase: bool)
    requires Unused(p, z) && QuestionsOnly(p)
    ensures !Glob(Drop(p), [z] + Witness(p, z), docase)
    decreases |p|
  {
    var w := Witness(p, z);
    assert ([z] + w)[1..] == w;
    if p != "" {
      var rest := Drop(p[1..]);
      assert ([p[0]] + rest)[1..] == rest;
      if p[0] == '?' {
        QuestionsRefuse(p[1..], z, docase);
      }
    }
  }

  lemma {:induction false} OthersDrop(s: string, k: nat, z: char)
    requires k <= |s|
    ensures Others(s[k..], z) <= Others(s, z)
    ensures k > 0 && s[0] != z ==> Others(s[k..], z) < Others(s, z)
    decreases k
  {
    if k == 0 {
      assert s[0..] == s;
    } else {
      assert s[1..][k - 1..] == s[k..];
      OthersDrop(s[1..], k - 1, z);
    }
  }

  lemma {:induction false} BadRefused(p: string, z: char, docase: bool)
    requires Unused(p, z) && Bad(p)
    ensures !Glob(Drop(p), Witness(p, z), docase)
    decreases |p|
  {
    var d, w := Drop(p[1..]), Witness(p[1..], z);
    assert "" + d == d && ([p[0]] + d)[1..] == d;
    assert "" + w == w && ([p[0]] + w)[1..] == w && ([z] + w)[1..] == w;
    if BadAt(p) {
      QuestionsRefuse(p[1..], z, docase);
    } else {
      BadRefused(p[1..], z, docase);
      if p[0] == '*' && !IsWild(p[1]) {
        // the star stands for nothing: the text has no literal to spare
        LiteralsCounted(p[1..], z);
        assert w[0] == p[1] && Witness(p, z) == w;
        assert w[0..] == w;
        if Glob(Drop(p), w, docase) {
          var k := StarTaken(Drop(p), w, docase);
          OthersDrop(w, k, z);
          LiteralsFit(d, w[k..], z, docase);
        }
      }
    }
  }

  lemma {:induction false} BadNotEmpty(p: string, z: char)
    requires Bad(p)
    ensures Witness(p, z) != ""
    decreases |p|
  {
    if !BadAt(p) {
      BadNotEmpty(p[1..], z);
    }
  }

  /** For the other patterns, matching is meaning; for an empty text or pattern the
      matcher says no. */
  lemma WildIsGlob(p: string, s: string, docase: bool)
    requires !Bad(p)
    ensures Wild(p, s, docase) <==> p != "" && s != "" && Glob(p, s, docase)
  {
    if Wild(p, s, docase) {
      GoSound(p, s, docase);
    } else if p != "" && s != "" && Glob(p, s, docase) {
      GoComplete(p, s, docase);
    }
  }

  /** The matcher accepts exactly what a pattern means, for every text that is not
      empty, if and only if no run of wildcards has a star and ends in a question
      mark. */
  lemma WildExactIff(p: string, z: char, docase: bool)
    requires p != "" && Unused(p, z)
    ensures (forall s: string :: s != "" ==> (Wild(p, s, docase) <==> Glob(p, s, docase))) <==> !Bad(p)
  {
    if Bad(p) {
      var w := Witness(p, z);
      WitnessMeant(p, z, docase);
      WitnessPlain(p, z);
      BadRefused(p, z, docase);
      BadNotEmpty(p, z);
      if Go(p, w, docase) {
        GoDrops(p, w, docase);
      }
      assert w != "" && Glob(p, w, docase) && !Wild(p, w, docase);
    } else {
      forall s: string | s != ""
        ensures Wild(p, s, docase) <==> Glob(p, s, docase)
      {
        WildIsGlob(p, s, docase);
      }
    }
  }
}
