/** The splitting as it is done in the input buffer: spaces become NULs, and the
    parameter array points at what is between them.

    Pointers are indices into the buffer. */
module ParserBuffers {
  import opened Wrappers
  import opened Buffers
  import opened Parser

  /** The string `s` stands at `o` in the buffer, with its NUL before `bound`. */
  ghost predicate Item(buf: string, o: nat, s: string, bound: nat) {
    o + |s| < bound <= |buf| && buf[o..o + |s|] == s && buf[o + |s|] == NUL && NUL !in s
  }

  /** Entries `1` and following point at these strings. */
  ghost predicate Stored(buf: string, parv: seq<Option<nat>>, done: seq<string>, bound: nat) {
    |done| < |parv| && forall i :: 1 <= i <= |done| ==> parv[i].Some? && Item(buf, parv[i].value, done[i - 1], bound)
  }

  lemma ItemKept(buf: string, now: string, o: nat, s: string, bound: nat, bound': nat)
    requires Item(buf, o, s, bound) && bound <= bound' <= |now| && |now| == |buf| && now[..bound] == buf[..bound]
    ensures Item(now, o, s, bound')
  {
    assert now[o..o + |s|] == now[..bound][o..o + |s|] && buf[o..o + |s|] == buf[..bound][o..o + |s|];
    assert now[o + |s|] == now[..bound][o + |s|] && buf[o + |s|] == buf[..bound][o + |s|];
  }

  /** A NUL written further on, and one entry more. */
  lemma StoredMore(buf: string, parv: seq<Option<nat>>, done: seq<string>, bound: nat,
                   now: string, parv': seq<Option<nat>>, at: nat, s: string, bound': nat)
    requires Stored(buf, parv, done, bound) && bound <= bound' && Item(now, at, s, bound')
    requires |now| == |buf| && now[..bound] == buf[..bound]
    requires |parv'| == |parv| > |done| + 1 && (forall j :: 0 <= j <= |done| ==> parv'[j] == parv[j])
    requires parv'[|done| + 1] == Some(at)
    ensures Stored(now, parv', done + [s], bound')
  {
    forall i | 1 <= i <= |done|
      ensures parv'[i].Some? && Item(now, parv'[i].value, done[i - 1], bound')
    {
      assert parv[i].Some?;
      ItemKept(buf, now, parv[i].value, done[i - 1], bound, bound');
    }
  }

  /** `parv[x++] = buf; parv[x] = NULL;` */
  method Enter(parv: array<Option<nat>>, x: nat, at: nat)
    requires x + 1 < parv.Length
    modifies parv
    ensures parv[..] == old(parv[..])[x := Some(at)][x + 1 := None]
  {
    parv[x] := Some(at);
    parv[x + 1] := None;
  }

  /** `strchr(buf + from, c)`: where `c` is, or the end of the string. */
  method IndexOf(a: array<char>, from: nat, ghost end: nat, c: char) returns (k: nat)
    requires from <= end < a.Length && a[end] == NUL && NUL !in a[from..end] && c != NUL
    ensures from <= k <= end && k == from + Find(a[from..end], c) && (k < end ==> a[k] == c)
  {
    k := from;
    while a[k] != c && a[k] != NUL
      invariant from <= k <= end && c !in a[from..k]
      decreases end - k
    {
      assert k < end;
      assert a[from..k + 1] == a[from..k] + [a[k]];
      k := k + 1;
    }
    assert k < end ==> a[k] in a[from..end];
    assert a[from..end][..k - from] == a[from..k];
    FindIs(a[from..end], c, k - from);
  }

  method SkipBlanks(a: array<char>, from: nat, ghost end: nat) returns (b: nat)
    requires from <= end < a.Length && a[end] == NUL
    ensures from <= b <= end && a[b..end] == SkipSpaces(a[from..end])
  {
    b := from;
    while a[b] == ' '
      invariant from <= b <= end && SkipSpaces(a[b..end]) == SkipSpaces(a[from..end])
      decreases end - b
    {
      assert a[b..end][1..] == a[b + 1..end];
      b := b + 1;
    }
    assert b < end ==> a[b..end][0] == a[b];
  }

  lemma SplitCases(s: string, x: nat)
    requires s != "" && 1 <= x < MAXPARA
    ensures s[0] == ':' ==> Split(s, x) == [s[1..]]
    ensures s[0] != ':' && Find(s, ' ') == |s| ==> Split(s, x) == [s]
    ensures var k := Find(s, ' ');
            s[0] != ':' && k < |s| ==>
              var p := s[k + 1..];
              var rest := SkipSpaces(p);
              Split(s, x) == if rest == "" then [s[..k]]
                             else if x + 1 < MAXPARA then [s[..k]] + Split(rest, x + 1)
                             else [s[..k], if p[0] == ':' then p[1..] else p]
  {
  }

  /** The state of the loop: `done` is stored, and the rest stands at `b`. */
  ghost predicate Going(buf: string, parv: seq<Option<nat>>, done: seq<string>, b: nat, end: nat, x: nat, text: string) {
    && b < end < |buf| && buf[end] == NUL && NUL !in buf[b..end] && 1 <= x < MAXPARA
    && |parv| == MAXPARA + 2 && |done| == x - 1 && Stored(buf, parv, done, b)
    && Params(text) == done + Split(buf[b..end], x)
  }

  /** The result: all parameters are stored, and a NULL follows them. */
  ghost predicate Finished(buf: string, parv: seq<Option<nat>>, x: nat, end: nat, text: string) {
    && |parv| == MAXPARA + 2 && x == |Params(text)| + 1
    && Stored(buf, parv, Params(text), end + 1) && parv[x] == None
  }

  /** The rest of the buffer is the last parameter. */
  method Last(a: array<char>, parv: array<Option<nat>>, x: nat, at: nat, ghost bound: nat, ghost end: nat,
              ghost done: seq<string>, ghost text: string) returns (n: nat)
    requires parv.Length == MAXPARA + 2 && 1 <= x <= MAXPARA && |done| == x - 1 && Stored(a[..], parv[..], done, bound)
    requires bound <= end + 1 && at <= end < a.Length && a[end] == NUL && NUL !in a[at..end]
    requires Params(text) == done + [a[at..end]]
    modifies parv
    ensures n == x + 1 && Finished(a[..], parv[..], n, end, text) && parv[0] == old(parv[0])
  {
    ghost var before := parv[..];
    Enter(parv, x, at);
    assert a[..][at..end] == a[at..end];
    StoredMore(a[..], before, done, bound, a[..], parv[..], at, a[at..end], end + 1);
    n := x + 1;
  }

  /** A middle parameter ends at `k`, where a NUL is put. */
  method Word(a: array<char>, parv: array<Option<nat>>, x: nat, b: nat, k: nat, ghost end: nat, ghost done: seq<string>)
    requires parv.Length == MAXPARA + 2 && 1 <= x < MAXPARA && |done| == x - 1 && Stored(a[..], parv[..], done, b)
    requires b <= k < end < a.Length && NUL !in a[b..k]
    modifies a, parv
    ensures Stored(a[..], parv[..], done + [old(a[b..k])], k + 1) && parv[x + 1] == None && parv[0] == old(parv[0])
    ensures a[..] == old(a[..])[k := NUL]
  {
    ghost var before, buf := parv[..], a[..];
    Enter(parv, x, b);
    a[k] := NUL;
    assert a[..][b..k] == buf[b..k];
    StoredMore(buf, before, done, b, a[..], parv[..], b, buf[b..k], k + 1);
  }

  /** The last parameter after a word is all that is left, without one colon. */
  method LastAfterWord(a: array<char>, k: nat, parv: array<Option<nat>>, x: nat, ghost end: nat, ghost done: seq<string>,
                       ghost text: string) returns (n: nat)
    requires k + 1 < end < a.Length && a[end] == NUL && NUL !in a[k + 1..end]
    requires parv.Length == MAXPARA + 2 && x == MAXPARA && |done| == x - 1 && Stored(a[..], parv[..], done, k + 1)
    requires var p := a[k + 1..end]; Params(text) == done + [if p[0] == ':' then p[1..] else p]
    modifies parv
    ensures n == x + 1 && Finished(a[..], parv[..], n, end, text) && parv[0] == old(parv[0])
  {
    hide Params, Stored;
    var at := if a[k + 1] == ':' then k + 2 else k + 1;
    ghost var p := a[k + 1..end];
    assert p[0] == a[k + 1] && p[1..] == a[k + 2..end];
    n := Last(a, parv, x, at, k + 1, end, done, text);
  }

  /** A character before the end is no NUL. */
  lemma InText(a: array<char>, from: nat, k: nat, end: nat)
    requires from <= k <= end < a.Length && NUL !in a[from..end] && a[end] == NUL
    ensures k == end <==> a[k] == NUL
    ensures NUL !in a[k..end]
  {
    assert k < end ==> a[k] == a[from..end][k - from];
    assert a[k..end] == a[from..end][k - from..];
  }

  lemma StoredLater(buf: string, parv: seq<Option<nat>>, done: seq<string>, bound: nat, bound': nat)
    requires Stored(buf, parv, done, bound) && bound <= bound' <= |buf|
    ensures Stored(buf, parv, done, bound')
  {
  }

  /** After a word: more words, the end, or the last parameter. */
  method AfterWord(a: array<char>, k: nat, parv: array<Option<nat>>, have: nat, ghost end: nat, ghost sofar: seq<string>,
                   ghost text: string, ghost s: string, ghost word: string)
    returns (n: nat, b: nat, x: nat, ghost done: seq<string>)
    requires k < end < a.Length && a[end] == NUL && NUL !in a[k + 1..end] && 1 <= have < MAXPARA
    requires parv.Length == MAXPARA + 2 && parv[have + 1] == None
    requires |sofar| == have - 1 && Stored(a[..], parv[..], sofar + [word], k + 1)
    requires s != "" && Params(text) == sofar + Split(s, have)
    requires var p := a[k + 1..end];
             var rest := SkipSpaces(p);
             Split(s, have) == if rest == "" then [word]
                               else if have + 1 < MAXPARA then [word] + Split(rest, have + 1)
                               else [word, if p[0] == ':' then p[1..] else p]
    modifies parv
    ensures if n == 0 then k < b && Going(a[..], parv[..], done, b, end, x, text)
            else Finished(a[..], parv[..], n, end, text)
    ensures parv[0] == old(parv[0])
  {
    hide Split, Params, Stored, SkipSpaces, Item;
    n, b, x, done := 0, k, have + 1, sofar + [word];
    var next := SkipBlanks(a, k + 1, end);
    InText(a, k + 1, next, end);
    if a[next] == NUL {
      StoredLater(a[..], parv[..], done, k + 1, end + 1);
      n := x;
      return;
    }
    b := next;
    if x < MAXPARA {
      Concat3(sofar, [word], Split(a[next..end], x));
      assert a[..][next..end] == a[next..end];
      StoredLater(a[..], parv[..], done, k + 1, next);
      return;
    }
    ghost var p := a[k + 1..end];
    Concat3(sofar, [word], [if p[0] == ':' then p[1..] else p]);
    assert [word, if p[0] == ':' then p[1..] else p] == [word] + [if p[0] == ':' then p[1..] else p];
    n := LastAfterWord(a, k, parv, x, end, done, text);
  }

  /** A word that ends at the space at `k`, and what follows it. */
  method TurnWord(a: array<char>, from: nat, k: nat, parv: array<Option<nat>>, have: nat, ghost end: nat,
                  ghost sofar: seq<string>, ghost text: string)
    returns (n: nat, b: nat, x: nat, ghost done: seq<string>)
    requires Going(a[..], parv[..], sofar, from, end, have, text) && from <= k < end
    requires var s := a[from..end]; s[0] != ':' && k == from + Find(s, ' ')
    modifies a, parv
    ensures if n == 0 then from < b && Going(a[..], parv[..], done, b, end, x, text)
            else Finished(a[..], parv[..], n, end, text)
    ensures a[..from] == old(a[..from]) && parv[0] == old(parv[0])
  {
    hide Split, Params, Stored, SkipSpaces, Item, Find;
    ghost var s := a[from..end];
    ghost var word, p := a[from..k], a[k + 1..end];
    assert a[..][from..end] == s && s[..k - from] == word && s[k - from + 1..] == p;
    SplitCases(s, have);
    InText(a, from, k + 1, end);
    assert NUL !in word by { assert word == s[..k - from]; }
    Word(a, parv, have, from, k, end, sofar);
    assert a[k + 1..end] == p;
    n, b, x, done := AfterWord(a, k, parv, have, end, sofar, text, s, word);
  }

  /** One turn of the loop: the next parameter is stored; `n` is not 0 when it was the
      last one. */
  method Turn(a: array<char>, from: nat, parv: array<Option<nat>>, have: nat, ghost end: nat, ghost sofar: seq<string>,
              ghost text: string)
    returns (n: nat, b: nat, x: nat, ghost done: seq<string>)
    requires Going(a[..], parv[..], sofar, from, end, have, text)
    modifies a, parv
    ensures if n == 0 then from < b && Going(a[..], parv[..], done, b, end, x, text)
            else Finished(a[..], parv[..], n, end, text)
    ensures a[..from] == old(a[..from]) && parv[0] == old(parv[0])
  {
    hide Split, Params, Stored, SkipSpaces, Item, Find;
    ghost var s := a[from..end];
    assert a[..][from..end] == s;
    SplitCases(s, have);
    n, b, x, done := 0, from, have, sofar;
    if a[from] == ':' {
      assert s[1..] == a[from + 1..end];
      InText(a, from, from + 1, end);
      n := Last(a, parv, have, from + 1, from, end, sofar, text);
      return;
    }
    var k := IndexOf(a, from, end, ' ');
    InText(a, from, k, end);
    if a[k] == NUL {
      n := Last(a, parv, have, from, from, end, sofar, text);
    } else {
      n, b, x, done := TurnWord(a, from, k, parv, have, end, sofar, text);
    }
  }

  /** `string_to_array(string, parv)`: the entry after the last parameter, and there
      is room for it and for a NULL. */
  method StringToArray(a: array<char>, start: nat, parv: array<Option<nat>>, ghost end: nat) returns (n: nat)
    requires parv.Length == MAXPARA + 2 && start <= end < a.Length && a[end] == NUL && NUL !in a[start..end]
    requires parv[1] == None
    modifies a, parv
    ensures n <= MAXPARA + 1 && Finished(a[..], parv[..], n, end, old(a[start..end]))
    ensures a[..start] == old(a[..start]) && parv[0] == old(parv[0])
  {
    ghost var text := a[start..end];
    InText(a, start, start, end);
    if a[start] == NUL {
      return 1;
    }
    var b, x: nat := start, 1;
    ghost var done: seq<string>, orig := [], a[..start];
    ghost var source := parv[0];
    assert a[..][b..end] == text && [] + Split(text, 1) == Split(text, 1);
    n := 0;
    while n == 0
      invariant if n == 0 then start <= b && Going(a[..], parv[..], done, b, end, x, text) else Finished(a[..], parv[..], n, end, text)
      invariant a[..start] == orig && parv[0] == source
      decreases if n == 0 then end - b + 1 else 0
    {
      n, b, x, done := Turn(a, b, parv, x, end, done, text);
    }
  }

  // ----- parse -----

  /** Ends the word at `from` with a NUL where a space is; the end if there is none. */
  method CutWord(a: array<char>, from: nat, ghost end: nat) returns (k: nat, more: bool)
    requires from <= end < a.Length && a[end] == NUL && NUL !in a[from..end]
    modifies a
    ensures var s := old(a[from..end]);
            && k == from + Find(s, ' ') && from <= k <= end && (more <==> k < end)
            && Item(a[..], from, s[..k - from], k + 1)
            && (more ==> a[k + 1..end] == s[k - from + 1..] && NUL !in a[k + 1..end])
    ensures a[end] == NUL && a[..from] == old(a[..from])
  {
    ghost var s := a[from..end];
    k := IndexOf(a, from, end, ' ');
    InText(a, from, k, end);
    more := a[k] != NUL;
    if more {
      InText(a, from, k + 1, end);
      assert a[k + 1..end] == s[k - from + 1..];
      a[k] := NUL;
      assert a[k + 1..end] == s[k - from + 1..];
    }
    assert a[..][from..k] == s[..k - from];
  }

  lemma ItemTail(buf: string, o: nat, s: string, bound: nat)
    requires Item(buf, o, s, bound) && s != ""
    ensures Item(buf, o + 1, s[1..], bound)
  {
    assert buf[o..o + |s|][1..] == buf[o + 1..o + |s|];
  }

  /** What `parse` finds: where the prefix and the command stand, and where the rest
      begins if there is one. */
  datatype Found = Found(prefix: Option<nat>, command: nat, rest: Option<nat>)

  /** The pointers stand for the message, whose parameters are those of `tail`. */
  ghost predicate Shows(buf: string, f: Found, m: Message, tail: string, bound: nat) {
    && f.prefix.Some? == m.prefix.Some?
    && (f.prefix.Some? ==> Item(buf, f.prefix.value, m.prefix.value, bound))
    && Item(buf, f.command, m.command, bound)
    && m.params == (if f.rest.Some? then Params(tail) else [])
  }

  /** The first split of `parse`: prefix, command and the start of the rest. */
  method SplitCommand(a: array<char>, ghost end: nat) returns (f: Found)
    requires 0 < end < a.Length && a[end] == NUL && NUL !in a[..end]
    modifies a
    ensures f.rest.Some? ==> f.rest.value <= end && NUL !in a[f.rest.value..end]
    ensures a[end] == NUL && Parse(old(a[..end])).Some?
    ensures if f.rest.Some? then Shows(a[..], f, Parse(old(a[..end])).value, a[f.rest.value..end], f.rest.value)
            else Shows(a[..], f, Parse(old(a[..end])).value, "", end + 1)
  {
    hide Item, Parse, Params, Find;
    ghost var line := a[..end];
    assert a[0..end] == line;
    var colon := a[0] == ':';
    var pos, more := CutWord(a, 0, end);
    if !more {
      PlainLine(line);
      assert line[..end] == line;
      return Found(None, 0, None);
    }
    if colon {
      ColonLine(line);
      ghost var was, prefix := a[..], line[..pos];
      ItemTail(was, 0, prefix, pos + 1);
      var s, rest := CutWord(a, pos + 1, end);
      assert a[..][..pos + 1] == a[..pos + 1] && was[..pos + 1] == a[..pos + 1];
      ItemKept(was, a[..], 1, prefix[1..], pos + 1, s + 1);
      return Found(Some(1), pos + 1, if rest then Some(s + 1) else None);
    }
    PlainLine(line);
    return Found(None, 0, Some(pos + 1));
  }

  lemma StoredNone(buf: string, parv: seq<Option<nat>>, bound: nat)
    requires parv != []
    ensures Stored(buf, parv, [], bound)
  {
  }

  /** `parse(inbuf)` up to the dispatch: the pointers and the entries of the array
      stand for the message of the line. */
  method ParseLine(a: array<char>, parv: array<Option<nat>>, ghost end: nat) returns (f: Found, n: nat)
    requires end < a.Length && a[end] == NUL && NUL !in a[..end] && end > 0
    requires parv.Length == MAXPARA + 2 && forall i :: 0 <= i < parv.Length ==> parv[i] == None
    modifies a, parv
    ensures var m := Parse(old(a[..end])).value;
            && f.prefix.Some? == m.prefix.Some?
            && (f.prefix.Some? ==> Item(a[..], f.prefix.value, m.prefix.value, end + 1))
            && Item(a[..], f.command, m.command, end + 1)
            && (if f.rest.Some? then n == |m.params| + 1 else n == 0 && m.params == [])
            && Stored(a[..], parv[..], m.params, end + 1) && parv[0] == f.prefix && n <= MAXPARA + 1
  {
    hide Item, Params;
    f := SplitCommand(a, end);
    ghost var m := Parse(old(a[..end])).value;
    parv[0] := f.prefix;
    if f.rest.None? {
      StoredNone(a[..], parv[..], end + 1);
      return f, 0;
    }
    ghost var was := a[..];
    n := StringToArray(a, f.rest.value, parv, end);
    assert a[..][..f.rest.value] == was[..f.rest.value];
    ItemKept(was, a[..], f.command, m.command, f.rest.value, end + 1);
    if f.prefix.Some? {
      ItemKept(was, a[..], f.prefix.value, m.prefix.value, f.rest.value, end + 1);
    }
  }
}
