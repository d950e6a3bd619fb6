/** The proxy reply reader of libopm: bytes are gathered into lines, and every line is searched for target strings. */
module ReplyReader {
  import opened Buffers
  import opened CIntegers

  // Size of the line buffer, without the terminating NUL.
  const READBUFLEN: nat := 128

  // `bytes_read` is an unsigned short.
  const USHORT: nat := 0x1_0000

  lemma UShortPlus(a: nat, b: nat)
    ensures ToUShort(ToUShort(a) + b) == ToUShort(a + b)
  {
  }

  const CR: char := '\r'
  const LF: char := '\n'

  /** What one connection remembers between two wakeups. */
  datatype Reader = Reader(bytesRead: nat, line: string)

  /** How the read loop of one wakeup stops when no byte stops it:
      end of file, EAGAIN, or any other error. */
  datatype Tail = Eof | WouldBlock | Failed

  /** Everything `read` hands out during one wakeup. */
  datatype Burst = Burst(data: string, tail: Tail)

  datatype Outcome = Open | FoundProxy | TooMuch | HungUp

  /** State and outcome after some bytes, and the lines that were searched. */
  datatype Progress = Progress(reader: Reader, outcome: Outcome, given: seq<string>) {
    function After(lines: seq<string>): Progress {
      this.(given := lines + given)
    }
  }

  /** `strstr(hay, needle) != NULL`. */
  predicate Contains(hay: string, needle: string) {
    exists i | 0 <= i <= |hay| :: needle <= hay[i..]
  }

  predicate Hits(line: string, targets: seq<string>) {
    exists t | t in targets :: Contains(line, t)
  }

  /** A byte that is neither a line feed nor skipped is kept while there is room. */
  function Push(line: string, c: char): (r: string)
    ensures |line| <= READBUFLEN ==> |r| <= READBUFLEN
  {
    if c == NUL || c == CR || |line| >= READBUFLEN then line else line + [c]
  }

  /** One byte. A byte that reaches the limit is not looked at. */
  function Byte(maxRead: int, targets: seq<string>, r: Reader, c: char): (p: Progress)
    ensures |r.line| <= READBUFLEN ==> |p.reader.line| <= READBUFLEN
  {
    var bytes := ToUShort(r.bytesRead + 1);
    if bytes >= maxRead then Progress(Reader(bytes, r.line), TooMuch, [])
    else if c == LF then
      Progress(Reader(bytes, ""), if Hits(r.line, targets) then FoundProxy else Open, [r.line])
    else Progress(Reader(bytes, Push(r.line, c)), Open, [])
  }

  /** The read loop over the bytes `data`. */
  function Feed(maxRead: int, targets: seq<string>, r: Reader, data: string): (p: Progress)
    ensures |r.line| <= READBUFLEN ==> |p.reader.line| <= READBUFLEN
    ensures p.outcome != HungUp
    decreases |data|
  {
    if data == [] then Progress(r, Open, [])
    else
      var p := Byte(maxRead, targets, r, data[0]);
      if p.outcome == Open then Feed(maxRead, targets, p.reader, data[1..]).After(p.given) else p
  }

  /** One wakeup. */
  function Wake(maxRead: int, targets: seq<string>, r: Reader, b: Burst): (p: Progress)
    ensures |r.line| <= READBUFLEN ==> |p.reader.line| <= READBUFLEN
  {
    var p := Feed(maxRead, targets, r, b.data);
    if p.outcome == Open && b.tail != WouldBlock then p.(outcome := HungUp) else p
  }

  // ----- What the loop is for -----

  /** The bytes of a line that has no line feed yet. */
  function Gather(line: string, s: string): string
    decreases |s|
  {
    if s == [] then line else Gather(Push(line, s[0]), s[1..])
  }

  /** Position of the first line feed, or the length. */
  function Cut(s: string): (k: nat)
    ensures k <= |s|
    ensures k < |s| ==> s[k] == LF
    ensures LF !in s[..k]
  {
    if s == [] then 0 else if s[0] == LF then 0 else
      var k := Cut(s[1..]);
      assert s[..1 + k] == [s[0]] + s[1..][..k];
      1 + k
  }

  /** The characters a line keeps: neither CR nor NUL ... */
  function Kept(s: string): string
  {
    if s == [] then ""
    else if s[0] == CR || s[0] == NUL then Kept(s[1..])
    else [s[0]] + Kept(s[1..])
  }

  /** ... cut to the size of the buffer. */
  function LineOf(s: string): string
  {
    var k := Kept(s);
    if |k| <= READBUFLEN then k else k[..READBUFLEN]
  }

  /** The LF-terminated lines of a byte string; an unfinished tail is no line. */
  function Lines(s: string): (ls: seq<string>)
    decreases |s|
  {
    var k := Cut(s);
    if k == |s| then [] else [LineOf(s[..k])] + Lines(s[k + 1..])
  }

  /** How many bytes may be looked at: the byte that reaches `maxRead` closes the
      connection unread; a limit beyond 16 bits is never reached. */
  function Window(maxRead: int, data: string): (w: string)
    ensures w <= data
  {
    if maxRead >= USHORT || |data| < maxRead then data
    else if maxRead <= 1 then ""
    else data[..maxRead - 1]
  }

  /** The byte count reaches the limit while `data` is read. */
  predicate Stops(maxRead: int, data: string) {
    data != [] && maxRead < USHORT && |data| >= maxRead
  }

  predicate HasHit(ls: seq<string>, targets: seq<string>) {
    exists i | 0 <= i < |ls| :: Hits(ls[i], targets)
  }

  // ----- Segmentation does not matter -----

  /** Feeding in two pieces is feeding the concatenation. */
  lemma {:induction false} FeedSplit(maxRead: int, targets: seq<string>, r: Reader, a: string, b: string)
    ensures Feed(maxRead, targets, r, a + b)
         == var p := Feed(maxRead, targets, r, a);
            if p.outcome == Open then Feed(maxRead, targets, p.reader, b).After(p.given) else p
    decreases |a|
  {
    if a == [] {
      assert a + b == b;
      assert [] + Feed(maxRead, targets, r, b).given == Feed(maxRead, targets, r, b).given;
    } else {
      assert (a + b)[1..] == a[1..] + b;
      hide Byte;
      var s := Byte(maxRead, targets, r, a[0]);
      FeedSplit(maxRead, targets, s.reader, a[1..], b);
      var p := Feed(maxRead, targets, s.reader, a[1..]);
      var q := Feed(maxRead, targets, p.reader, b);
      assert s.given + (p.given + q.given) == (s.given + p.given) + q.given;
    }
  }

  function Concat(chunks: seq<string>): string {
    if chunks == [] then "" else chunks[0] + Concat(chunks[1..])
  }

  /** A connection that stays up between wakeups. */
  function WakeAll(maxRead: int, targets: seq<string>, r: Reader, chunks: seq<string>): Progress
    decreases |chunks|
  {
    if chunks == [] then Progress(r, Open, [])
    else
      var p := Wake(maxRead, targets, r, Burst(chunks[0], WouldBlock));
      if p.outcome == Open then WakeAll(maxRead, targets, p.reader, chunks[1..]).After(p.given) else p
  }

  lemma {:induction false} WakeAllIsFeed(maxRead: int, targets: seq<string>, r: Reader, chunks: seq<string>)
    ensures WakeAll(maxRead, targets, r, chunks) == Feed(maxRead, targets, r, Concat(chunks))
    decreases |chunks|
  {
    if chunks != [] {
      FeedSplit(maxRead, targets, r, chunks[0], Concat(chunks[1..]));
      var p := Feed(maxRead, targets, r, chunks[0]);
      WakeAllIsFeed(maxRead, targets, p.reader, chunks[1..]);
    }
  }

  // ----- Lines -----

  lemma {:induction false} GatherKept(line: string, s: string)
    requires |line| <= READBUFLEN
    ensures Gather(line, s) == var k := line + Kept(s); if |k| <= READBUFLEN then k else k[..READBUFLEN]
    decreases |s|
  {
    if s == [] {
      assert line + Kept(s) == line;
    } else {
      GatherKept(Push(line, s[0]), s[1..]);
      if s[0] != CR && s[0] != NUL {
        assert line + Kept(s) == line + [s[0]] + Kept(s[1..]);
      }
    }
  }

  lemma GatherIsLine(s: string)
    ensures Gather("", s) == LineOf(s)
  {
    GatherKept("", s);
    assert "" + Kept(s) == Kept(s);
  }

  /** The limit is not reached within the next `n` bytes. */
  predicate Roomy(maxRead: int, bytesRead: nat, n: nat) {
    maxRead >= USHORT || bytesRead + n < maxRead
  }

  /** Bytes without a line feed only grow the current line, until the limit. */
  lemma {:induction false} FeedWithinLine(maxRead: int, targets: seq<string>, r: Reader, s: string)
    requires LF !in s && r.bytesRead < USHORT
    requires Roomy(maxRead, r.bytesRead, |s|)
    ensures Feed(maxRead, targets, r, s) == Progress(Reader(ToUShort(r.bytesRead + |s|), Gather(r.line, s)), Open, [])
    decreases |s|
  {
    if s != [] {
      hide Push;
      UShortPlus(r.bytesRead + 1, |s| - 1);
      var r' := Reader(ToUShort(r.bytesRead + 1), Push(r.line, s[0]));
      FeedWithinLine(maxRead, targets, r', s[1..]);
      assert Byte(maxRead, targets, r, s[0]) == Progress(r', Open, []);
    }
  }

  /** The lines searched are the lines of the stream, up to the first hit. */
  function UpToHit(ls: seq<string>, targets: seq<string>): (r: seq<string>)
    ensures r <= ls
    ensures !HasHit(ls, targets) ==> r == ls
  {
    if ls == [] then []
    else if Hits(ls[0], targets) then [ls[0]]
    else
      var rest := UpToHit(ls[1..], targets);
      assert HasHit(ls[1..], targets) ==> HasHit(ls, targets) by {
        if HasHit(ls[1..], targets) {
          var i :| 0 <= i < |ls[1..]| && Hits(ls[1..][i], targets);
          assert Hits(ls[i + 1], targets);
        }
      }
      [ls[0]] + rest
  }

  lemma HitsCons(line: string, rest: seq<string>, targets: seq<string>)
    ensures HasHit([line] + rest, targets) == (Hits(line, targets) || HasHit(rest, targets))
    ensures UpToHit([line] + rest, targets)
         == if Hits(line, targets) then [line] else [line] + UpToHit(rest, targets)
  {
    var ls := [line] + rest;
    assert ls[0] == line && ls[1..] == rest;
    if HasHit(ls, targets) {
      var i :| 0 <= i < |ls| && Hits(ls[i], targets);
      assert i == 0 || rest[i - 1] == ls[i];
    }
    if HasHit(rest, targets) {
      var i :| 0 <= i < |rest| && Hits(rest[i], targets);
      assert Hits(ls[i + 1], targets);
    }
  }

  /** A complete line has come; `bytes` are read and `rest` is still to come. */
  function AfterLine(maxRead: int, targets: seq<string>, bytes: nat, line: string, rest: string): Progress {
    if Hits(line, targets) then Progress(Reader(bytes, ""), FoundProxy, [line])
    else Feed(maxRead, targets, Reader(bytes, ""), rest).After([line])
  }

  lemma FeedNewline(maxRead: int, targets: seq<string>, r: Reader, s: string)
    requires s != [] && s[0] == LF
    requires r.bytesRead < USHORT && Roomy(maxRead, r.bytesRead, 1)
    ensures Feed(maxRead, targets, r, s) == AfterLine(maxRead, targets, ToUShort(r.bytesRead + 1), r.line, s[1..])
  {
  }

  /** The first complete line is searched, and the rest starts afresh. */
  lemma FeedFirstLine(maxRead: int, targets: seq<string>, bytesRead: nat, s: string)
    requires bytesRead < USHORT && Roomy(maxRead, bytesRead, |s|)
    requires Cut(s) < |s|
    ensures Feed(maxRead, targets, Reader(bytesRead, ""), s)
         == AfterLine(maxRead, targets, ToUShort(bytesRead + Cut(s) + 1), LineOf(s[..Cut(s)]), s[Cut(s) + 1..])
  {
    hide Feed, Gather, LineOf, AfterLine;
    var k := Cut(s);
    var a, b := s[..k], s[k..];
    var r := Reader(bytesRead, "");
    FeedWithinLine(maxRead, targets, r, a);
    GatherIsLine(a);
    assert s == a + b;
    FeedSplit(maxRead, targets, r, a, b);
    FeedNewline(maxRead, targets, Reader(ToUShort(bytesRead + k), LineOf(a)), b);
    UShortPlus(bytesRead + k, 1);
    assert b[1..] == s[k + 1..];
    var p := Feed(maxRead, targets, Reader(ToUShort(bytesRead + k), LineOf(a)), b);
    assert [] + p.given == p.given;
  }

  /** `p` has searched the lines `ls` in order, stopping at the first hit. */
  predicate Searched(p: Progress, ls: seq<string>, targets: seq<string>) {
    && p.outcome == (if HasHit(ls, targets) then FoundProxy else Open)
    && p.given == UpToHit(ls, targets)
  }

  lemma SearchedCons(p: Progress, line: string, rest: seq<string>, targets: seq<string>)
    requires Searched(p, rest, targets)
    ensures !Hits(line, targets) ==> Searched(p.After([line]), [line] + rest, targets)
    ensures Hits(line, targets) ==> forall r :: Searched(Progress(r, FoundProxy, [line]), [line] + rest, targets)
  {
    HitsCons(line, rest, targets);
  }

  lemma FeedNoLine(maxRead: int, targets: seq<string>, bytesRead: nat, s: string)
    requires bytesRead < USHORT && Roomy(maxRead, bytesRead, |s|)
    requires Cut(s) == |s|
    ensures Feed(maxRead, targets, Reader(bytesRead, ""), s)
         == Progress(Reader(ToUShort(bytesRead + |s|), LineOf(s)), Open, [])
    ensures Searched(Feed(maxRead, targets, Reader(bytesRead, ""), s), Lines(s), targets)
  {
    hide Feed, Kept, Hits, LineOf;
    assert s[..|s|] == s;
    FeedWithinLine(maxRead, targets, Reader(bytesRead, ""), s);
    GatherIsLine(s);
  }

  /** Line by line, while the limit stays out of sight. */
  lemma {:induction false} FeedLines(maxRead: int, targets: seq<string>, bytesRead: nat, s: string)
    requires bytesRead < USHORT && Roomy(maxRead, bytesRead, |s|)
    ensures var p := Feed(maxRead, targets, Reader(bytesRead, ""), s);
            && Searched(p, Lines(s), targets)
            && (p.outcome == Open ==> p.reader.bytesRead == ToUShort(bytesRead + |s|))
    decreases |s|
  {
    hide Feed, Hits, LineOf, Searched;
    var k := Cut(s);
    if k == |s| {
      FeedNoLine(maxRead, targets, bytesRead, s);
    } else {
      var line, rest := LineOf(s[..k]), s[k + 1..];
      var bytes := ToUShort(bytesRead + k + 1);
      FeedLines(maxRead, targets, bytes, rest);
      UShortPlus(bytesRead + k + 1, |rest|);
      SearchedCons(Feed(maxRead, targets, Reader(bytes, ""), rest), line, Lines(rest), targets);
      FeedFirstLine(maxRead, targets, bytesRead, s);
      assert Lines(s) == [line] + Lines(rest);
    }
  }

  /** The byte that reaches the limit ends the connection. */
  lemma FeedAtLimit(maxRead: int, targets: seq<string>, r: Reader, s: string)
    requires s != [] && ToUShort(r.bytesRead + 1) >= maxRead
    ensures Feed(maxRead, targets, r, s) == Progress(Reader(ToUShort(r.bytesRead + 1), r.line), TooMuch, [])
  {
  }

  lemma FeedIsItsLines(maxRead: int, targets: seq<string>, data: string)
    ensures var p := Feed(maxRead, targets, Reader(0, ""), data);
            var lines := Lines(Window(maxRead, data));
            && p.given == UpToHit(lines, targets)
            && (p.outcome == FoundProxy <==> HasHit(lines, targets))
            && (p.outcome == TooMuch <==> !HasHit(lines, targets) && Stops(maxRead, data))
  {
    var w := Window(maxRead, data);
    var rest := data[|w|..];
    var r := Reader(0, "");
    assert data == w + rest;
    if Roomy(maxRead, 0, |w|) {
      hide ToUShort, Lines, UpToHit, HasHit;
      FeedLines(maxRead, targets, 0, w);
      FeedSplit(maxRead, targets, r, w, rest);
      var p := Feed(maxRead, targets, r, w);
      if p.outcome == Open && rest != [] {
        FeedAtLimit(maxRead, targets, p.reader, rest);
      }
    } else {
      assert w == [] && Lines(w) == [];
    }
  }

  /** The main result. However the reply of a connection that stays up is cut
      into wakeups, the lines searched are the lines of the first `maxRead - 1`
      bytes, stripped of CR and NUL and cut to 128 characters, up to the first
      one that holds a target string; the proxy is reported open exactly when
      there is such a line, and otherwise the connection is dropped exactly when
      the limit is a 16-bit number and that many bytes have come. */
  lemma ReplyIsItsLines(maxRead: int, targets: seq<string>, chunks: seq<string>)
    ensures var p := WakeAll(maxRead, targets, Reader(0, ""), chunks);
            var data := Concat(chunks);
            var lines := Lines(Window(maxRead, data));
            && p.given == UpToHit(lines, targets)
            && (p.outcome == FoundProxy <==> HasHit(lines, targets))
            && (p.outcome == TooMuch <==> !HasHit(lines, targets) && Stops(maxRead, data))
            && p.outcome != HungUp
  {
    WakeAllIsFeed(maxRead, targets, Reader(0, ""), chunks);
    FeedIsItsLines(maxRead, targets, Concat(chunks));
  }
}
