/** Splitting an IRC line (RFC 1459, section 2.3.1) into prefix, command and
    parameters. */
module Parser {
  import opened Wrappers

  // `parv[0]` is the source, and at most this many entries follow it.
  const MAXPARA: nat := 15

  /** `strchr(s, c)`: the first place of `c`, or the length. */
  function Find(s: string, c: char): (k: nat)
    ensures k <= |s| && (k < |s| ==> s[k] == c) && c !in s[..k]
  {
    if s == "" || s[0] == c then 0 else
      var k := Find(s[1..], c);
      assert s[..k + 1] == [s[0]] + s[1..][..k];
      k + 1
  }

  lemma FindIs(s: string, c: char, k: nat)
    requires k <= |s| && c !in s[..k] && (k < |s| ==> s[k] == c)
    ensures Find(s, c) == k
  {
    var f := Find(s, c);
    assert forall i :: 0 <= i < k ==> s[i] in s[..k];
    assert forall i :: 0 <= i < f ==> s[i] in s[..f];
  }

  function SkipSpaces(s: string): (r: string)
    ensures |r| <= |s| && (r != "" ==> r[0] != ' ')
  {
    if s != "" && s[0] == ' ' then SkipSpaces(s[1..]) else s
  }

  /** The parameters of `s`, of which `x - 1` came before. The last one takes all
      that is left, from the first space on. */
  function Split(s: string, x: nat): (r: seq<string>)
    requires s != "" && 1 <= x < MAXPARA
    ensures 1 <= |r| <= MAXPARA + 1 - x
    decreases |s|
  {
    if s[0] == ':' then [s[1..]]
    else
      var k := Find(s, ' ');
      if k == |s| then [s]
      else
        var p := s[k + 1..];
        var rest := SkipSpaces(p);
        if rest == "" then [s[..k]]
        else if x + 1 < MAXPARA then [s[..k]] + Split(rest, x + 1)
        else [s[..k], if p[0] == ':' then p[1..] else p]
  }

  /** `string_to_array(s, parv)`. */
  function Params(s: string): (r: seq<string>)
    ensures |r| <= MAXPARA
  {
    if s == "" then [] else Split(s, 1)
  }

  datatype Message = Message(prefix: Option<string>, command: string, params: seq<string>)

  /** The split that `parse` makes; an empty line is no message. */
  function Parse(line: string): Option<Message> {
    if line == "" then None
    else
      var k := Find(line, ' ');
      if k == |line| then Some(Message(None, line, []))
      else
        var first, pos := line[..k], line[k + 1..];
        if first != "" && first[0] == ':' then
          var m := Find(pos, ' ');
          if m == |pos| then Some(Message(Some(first[1..]), pos, []))
          else Some(Message(Some(first[1..]), pos[..m], Params(pos[m + 1..])))
        else Some(Message(None, first, Params(pos)))
  }

  // ----- Printing a message -----

  /** Middle parameters and a trailing one. */
  function Print(middles: seq<string>, trailing: Option<string>): string {
    if middles == [] then (if trailing.Some? then ":" + trailing.value else "")
    else if |middles| == 1 && trailing.None? then middles[0]
    else middles[0] + " " + Print(middles[1..], trailing)
  }

  function Count(middles: seq<string>, trailing: Option<string>): nat {
    |middles| + if trailing.Some? then 1 else 0
  }

  function PrintMessage(prefix: Option<string>, command: string, middles: seq<string>, trailing: Option<string>): string {
    (if prefix.Some? then ":" + prefix.value + " " else "") + command
    + (if Count(middles, trailing) > 0 then " " + Print(middles, trailing) else "")
  }

  predicate Middle(s: string) {
    s != "" && s[0] != ':' && ' ' !in s
  }

  function All(middles: seq<string>, trailing: Option<string>): seq<string> {
    middles + if trailing.Some? then [trailing.value] else []
  }

  lemma FindIn(word: string, c: char, rest: string)
    requires c !in word
    ensures Find(word + [c] + rest, c) == |word| && Find(word, c) == |word|
  {
    var s := word + [c] + rest;
    assert s[..|word|] == word && word[..|word|] == word;
    FindIs(s, c, |word|);
    FindIs(word, c, |word|);
  }

  lemma PrintHead(middles: seq<string>, trailing: Option<string>)
    requires Count(middles, trailing) > 0 && forall i :: 0 <= i < |middles| ==> Middle(middles[i])
    ensures Print(middles, trailing) != "" && Print(middles, trailing)[0] != ' '
    ensures SkipSpaces(Print(middles, trailing)) == Print(middles, trailing)
    ensures Print(middles, trailing)[0] == ':' <==> middles == []
  {
    if middles != [] {
      assert middles[0][0] in middles[0];
    }
  }

  /** A word, a space, and more. */
  lemma SplitWord(word: string, p: string, x: nat)
    requires Middle(word) && p != "" && SkipSpaces(p) == p && 1 <= x < MAXPARA
    ensures Split(word + " " + p, x)
            == [word] + if x + 1 < MAXPARA then Split(p, x + 1) else [if p[0] == ':' then p[1..] else p]
  {
    var s := word + " " + p;
    FindIn(word, ' ', p);
    assert s == word + [' '] + p && s[0] == word[0];
    assert s[..|word|] == word && s[|word| + 1..] == p;
    hide SkipSpaces, Find;
  }

  lemma SplitLast(middles: seq<string>, trailing: Option<string>, x: nat)
    requires forall i :: 0 <= i < |middles| ==> Middle(middles[i])
    requires Count(middles, trailing) == 1 && 1 <= x < MAXPARA
    ensures Print(middles, trailing) != "" && Split(Print(middles, trailing), x) == All(middles, trailing)
    ensures var p := Print(middles, trailing); [if p[0] == ':' then p[1..] else p] == All(middles, trailing)
  {
    var s := Print(middles, trailing);
    if middles == [] {
      assert s[1..] == trailing.value;
    } else {
      FindIn(s, ' ', "");
      assert middles == [middles[0]];
    }
  }

  lemma PrintMore(middles: seq<string>, trailing: Option<string>)
    requires Count(middles, trailing) > 1
    ensures middles != [] && Count(middles[1..], trailing) == Count(middles, trailing) - 1
    ensures Print(middles, trailing) == middles[0] + " " + Print(middles[1..], trailing)
    ensures All(middles, trailing) == [middles[0]] + All(middles[1..], trailing)
  {
  }

  /** Splitting gives back what was printed, as long as there is room for it. */
  lemma {:induction false} SplitPrinted(middles: seq<string>, trailing: Option<string>, x: nat)
    requires forall i :: 0 <= i < |middles| ==> Middle(middles[i])
    requires 1 <= x < MAXPARA && 0 < Count(middles, trailing) <= MAXPARA + 1 - x
    ensures var s := Print(middles, trailing); s != "" && Split(s, x) == All(middles, trailing)
    decreases |middles|
  {
    hide Print, Split, All, Middle;
    if Count(middles, trailing) == 1 {
      SplitLast(middles, trailing, x);
    } else {
      PrintMore(middles, trailing);
      PrintHead(middles, trailing);
      PrintHead(middles[1..], trailing);
      SplitWord(middles[0], Print(middles[1..], trailing), x);
      if x + 1 < MAXPARA {
        SplitPrinted(middles[1..], trailing, x + 1);
      } else {
        SplitLast(middles[1..], trailing, x);
      }
    }
  }

  /** A line that does not begin with a colon, or has no space. */
  lemma PlainLine(line: string)
    requires line != "" && (line[0] != ':' || Find(line, ' ') == |line|)
    ensures var k := Find(line, ' ');
            && (k == |line| ==> Parse(line) == Some(Message(None, line, [])))
            && (k < |line| ==> Parse(line) == Some(Message(None, line[..k], Params(line[k + 1..]))))
  {
    hide Params, Find;
  }

  lemma ColonLine(line: string)
    requires line != "" && line[0] == ':' && Find(line, ' ') < |line|
    ensures var k := Find(line, ' ');
            var pos := line[k + 1..];
            var m := Find(pos, ' ');
            Parse(line) == Some(Message(Some(line[..k][1..]), pos[..m], if m == |pos| then [] else Params(pos[m + 1..])))
  {
    hide Params, Find;
    var k := Find(line, ' ');
    var pos := line[k + 1..];
    assert pos[..|pos|] == pos && line[..k][0] == ':';
  }

  /** A word is cut off at the space behind it. */
  lemma WordBefore(word: string, rest: string)
    requires ' ' !in word
    ensures var s := word + " " + rest;
            s != "" && Find(s, ' ') == |word| < |s| && s[..|word|] == word && s[|word| + 1..] == rest
  {
    FindIn(word, ' ', rest);
    assert word + " " + rest == word + [' '] + rest;
    hide Find;
  }

  lemma WholeWord(word: string)
    requires ' ' !in word
    ensures Find(word, ' ') == |word|
  {
    FindIn(word, ' ', "");
  }

  /** Every line that is not empty: the first word is the command, and what follows
      the space behind it are the parameters; but behind a colon the first word is
      the prefix, and the command comes next. */
  lemma ParseExact(word: string, pos: string)
    requires ' ' !in word
    ensures word != "" ==> Parse(word) == Some(Message(None, word, []))
    ensures word == "" || word[0] != ':' ==> Parse(word + " " + pos) == Some(Message(None, word, Params(pos)))
    ensures ' ' !in pos ==> Parse(":" + word + " " + pos) == Some(Message(Some(word), pos, []))
  {
    hide Find, Params, Parse;
    WholeWord(word);
    if word != "" {
      PlainLine(word);
    }
    WordBefore(word, pos);
    if word == "" || word[0] != ':' {
      PlainLine(word + " " + pos);
    }
    if ' ' !in pos {
      WholeWord(pos);
      WordBefore(":" + word, pos);
      ColonLine(":" + word + " " + pos);
      assert (":" + word)[1..] == word && pos[..|pos|] == pos;
    }
  }

  lemma ParseWithPrefix(prefix: string, command: string, rest: string)
    requires ' ' !in prefix && ' ' !in command
    ensures Parse(":" + prefix + " " + (command + " " + rest)) == Some(Message(Some(prefix), command, Params(rest)))
  {
    hide Find, Params, Parse;
    WordBefore(":" + prefix, command + " " + rest);
    WordBefore(command, rest);
    ColonLine(":" + prefix + " " + (command + " " + rest));
    assert (":" + prefix)[1..] == prefix;
  }

  /** A command, and perhaps a space and what follows it. */
  lemma ParseCommand(command: string, tail: string, body: string)
    requires Middle(command) && (tail == "" || tail == " " + body)
    ensures Parse(command + tail) == Some(Message(None, command, if tail == "" then [] else Params(body)))
  {
    hide Find, Params, Parse;
    ParseExact(command, body);
    assert command + " " + body == command + (" " + body) && command + "" == command;
  }

  lemma ParsePrefixed(prefix: string, command: string, tail: string, body: string)
    requires ' ' !in prefix && Middle(command) && (tail == "" || tail == " " + body)
    ensures Parse(":" + prefix + " " + (command + tail))
            == Some(Message(Some(prefix), command, if tail == "" then [] else Params(body)))
  {
    hide Find, Params, Parse;
    if tail == "" {
      ParseExact(prefix, command);
      assert command + "" == command;
    } else {
      ParseWithPrefix(prefix, command, body);
      assert command + " " + body == command + (" " + body);
    }
  }

  lemma PrintedParams(middles: seq<string>, trailing: Option<string>)
    requires (forall i :: 0 <= i < |middles| ==> Middle(middles[i])) && Count(middles, trailing) <= MAXPARA
    ensures (if Count(middles, trailing) > 0 then Params(Print(middles, trailing)) else []) == All(middles, trailing)
  {
    hide Print, Split, Middle;
    if Count(middles, trailing) > 0 {
      SplitPrinted(middles, trailing, 1);
    }
  }

  /** What is printed is read back: prefix, command, middle parameters and the
      trailing one, fifteen at most. */
  lemma RoundTrip(prefix: Option<string>, command: string, middles: seq<string>, trailing: Option<string>)
    requires prefix.Some? ==> ' ' !in prefix.value
    requires Middle(command) && (forall i :: 0 <= i < |middles| ==> Middle(middles[i]))
    requires Count(middles, trailing) <= MAXPARA
    ensures Parse(PrintMessage(prefix, command, middles, trailing))
            == Some(Message(prefix, command, All(middles, trailing)))
  {
    hide Print, Params, Parse, All, Middle, Find, Split;
    var body := Print(middles, trailing);
    var tail := if Count(middles, trailing) > 0 then " " + body else "";
    PrintedParams(middles, trailing);
    if prefix.Some? {
      ParsePrefixed(prefix.value, command, tail, body);
      assert ":" + prefix.value + " " + command + tail == ":" + prefix.value + " " + (command + tail);
    } else {
      ParseCommand(command, tail, body);
      assert "" + command + tail == command + tail;
    }
  }

  // ----- Every text -----

  function Spaces(n: nat): (s: string)
    ensures |s| == n && forall i :: 0 <= i < n ==> s[i] == ' '
  {
    if n == 0 then "" else " " + Spaces(n - 1)
  }

  lemma {:induction false} SpacesSkipped(n: nat, rest: string)
    requires rest == "" || rest[0] != ' '
    ensures SkipSpaces(Spaces(n) + rest) == rest
  {
    if n > 0 {
      SpacesSkipped(n - 1, rest);
      assert (Spaces(n) + rest)[1..] == Spaces(n - 1) + rest;
    } else {
      assert Spaces(0) + rest == rest;
    }
  }

  /** Every text that does not begin with a colon is a word, some spaces, and the
      rest: the word is the first parameter, however many spaces follow, and the
      rest gives the others; but the fifteenth parameter is all that stands behind
      the first of the spaces, without a colon at its start. */
  lemma SplitSpaced(word: string, n: nat, rest: string, x: nat)
    requires ' ' !in word && (rest == "" || (n > 0 && rest[0] != ' ')) && 1 <= x < MAXPARA
    requires var s := word + Spaces(n) + rest; s != "" && s[0] != ':'
    ensures Split(word + Spaces(n) + rest, x) ==
            if rest == "" then [word]
            else if x + 1 < MAXPARA then [word] + Split(rest, x + 1)
            else if n == 1 && rest[0] == ':' then [word, rest[1..]]
            else [word, Spaces(n - 1) + rest]
  {
    var s := word + Spaces(n) + rest;
    if n == 0 {
      assert s == word;
      FindIs(s, ' ', |s|);
    } else {
      var p := Spaces(n - 1) + rest;
      assert s == word + [' '] + p;
      FindIn(word, ' ', p);
      SpacesSkipped(n - 1, rest);
      assert s[..|word|] == word && s[|word| + 1..] == p;
      assert n == 1 ==> p == rest;
      hide Find, SkipSpaces;
    }
  }

  /** A text that begins with a colon is one parameter, whatever it holds. */
  lemma SplitColon(text: string, x: nat)
    requires 1 <= x < MAXPARA
    ensures Split(":" + text, x) == [text]
  {
    assert (":" + text)[1..] == text;
  }
}
