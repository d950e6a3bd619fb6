/** Reading lines from a socket: bytes arrive in arbitrary chunks, lines are cut at
    carriage returns and line feeds. */
module LineReader {
  import opened Wrappers
  import opened Buffers
  import opened CStrings

  const MAXLEN: nat := 2048

  predicate Ends(c: char) {
    c == '\r' || c == '\n'
  }

  // ----- The lines of a stream -----

  /** The complete lines, and the beginning of the next one. */
  datatype Split = Split(lines: seq<string>, tail: string)

  /** Cuts `data`, of which `cur` came before. Empty lines do not count. */
  function Scan(cur: string, data: string): Split
    decreases |data|
  {
    if data == "" then Split([], cur)
    else if Ends(data[0]) then
      var r := Scan("", data[1..]);
      Split((if cur == "" then [] else [cur]) + r.lines, r.tail)
    else Scan(cur + [data[0]], data[1..])
  }

  /** How a stream is cut does not depend on where it is broken into chunks. */
  lemma {:induction false} ScanSplit(cur: string, a: string, b: string)
    ensures var p := Scan(cur, a);
            var q := Scan(p.tail, b);
            Scan(cur, a + b) == Split(p.lines + q.lines, q.tail)
    decreases |a|
  {
    if a == "" {
      assert a + b == b;
    } else {
      assert (a + b)[1..] == a[1..] + b;
      if Ends(a[0]) {
        ScanSplit("", a[1..], b);
        var p := Scan("", a[1..]);
        var first := if cur == "" then [] else [cur];
        assert first + (p.lines + Scan(p.tail, b).lines) == first + p.lines + Scan(p.tail, b).lines;
      } else {
        ScanSplit(cur + [a[0]], a[1..], b);
      }
    }
  }

  // An independent account: all pieces between terminators, the last one unfinished.

  function Pieces(data: string): (r: seq<string>)
    ensures r != []
  {
    if data == "" then [""]
    else
      var r := Pieces(data[1..]);
      if data[0] == '\r' || data[0] == '\n' then [""] + r else [[data[0]] + r[0]] + r[1..]
  }

  function NonEmpty(pieces: seq<string>): seq<string> {
    if pieces == [] then [] else (if pieces[0] == "" then [] else [pieces[0]]) + NonEmpty(pieces[1..])
  }

  /** The pieces, if `cur` came before. */
  function After(cur: string, ps: seq<string>): (qs: seq<string>)
    requires ps != []
    ensures qs != [] && |qs| == |ps|
  {
    [cur + ps[0]] + ps[1..]
  }

  lemma AfterNothing(ps: seq<string>)
    requires ps != []
    ensures After("", ps) == ps
  {
    assert "" + ps[0] == ps[0] && [ps[0]] + ps[1..] == ps;
  }

  lemma AfterMore(cur: string, c: char, ps: seq<string>)
    requires ps != []
    ensures After(cur + [c], ps) == After(cur, [[c] + ps[0]] + ps[1..])
  {
    assert cur + [c] + ps[0] == cur + ([c] + ps[0]);
  }

  /** All pieces but the last are complete. */
  function Cut(ps: seq<string>): Split
    requires ps != []
  {
    Split(NonEmpty(ps[..|ps| - 1]), ps[|ps| - 1])
  }

  lemma CutHead(cur: string, ps: seq<string>)
    requires ps != []
    ensures Cut([cur] + ps) == Split((if cur == "" then [] else [cur]) + Cut(ps).lines, Cut(ps).tail)
  {
    var qs := [cur] + ps;
    assert qs[..|qs| - 1][1..] == ps[..|ps| - 1];
  }

  lemma AfterEmpty(cur: string, ps: seq<string>)
    ensures After(cur, [""] + ps) == [cur] + ps
  {
    assert cur + "" == cur;
  }

  lemma CutOne(cur: string)
    ensures Cut([cur]) == Split([], cur)
  {
  }

  lemma {:induction false} ScanPieces(cur: string, data: string)
    ensures Scan(cur, data) == Cut(After(cur, Pieces(data)))
    decreases |data|
  {
    hide Cut;
    if data == "" {
      assert cur + "" == cur && [""][1..] == [] && [cur] + [] == [cur];
      CutOne(cur);
    } else {
      var rest := Pieces(data[1..]);
      hide After;
      if Ends(data[0]) {
        ScanPieces("", data[1..]);
        AfterNothing(rest);
        AfterEmpty(cur, rest);
        CutHead(cur, rest);
      } else {
        ScanPieces(cur + [data[0]], data[1..]);
        AfterMore(cur, data[0], rest);
      }
    }
  }

  /** The lines of a stream are its pieces that are complete and not empty. */
  lemma LinesOfStream(data: string)
    ensures var ps := Pieces(data);
            Scan("", data) == Split(NonEmpty(ps[..|ps| - 1]), ps[|ps| - 1])
  {
    ScanPieces("", data);
    AfterNothing(Pieces(data));
  }

  // ----- The socket -----

  /** What one `read` gives: some bytes; an error or the end, which kills the
      socket; or nothing, from a TLS session that has to wait and from the uplink
      when it fails, whose mark as dead `uplink_cleanup` takes back at once. */
  datatype Input = Data(bytes: string) | Broken | NotYet

  /** `read_buffer`, `mbuffer`, `fullLines`, and whether the socket is dead. */
  datatype Inbox = Inbox(tail: string, lines: seq<string>, full: int, dead: bool)

  /** No line gets longer than the buffers take. */
  predicate Short(cur: string, data: string)
    decreases |data|
  {
    |cur| < MAXLEN && (data == "" || if Ends(data[0]) then Short("", data[1..]) else Short(cur + [data[0]], data[1..]))
  }

  /** `sock_readline(s)`. */
  function Readline(box: Inbox, input: Input): Inbox {
    match input
    case NotYet => box
    case Broken => box.(tail := "", dead := true)
    case Data(bytes) =>
      var r := Scan(box.tail, CString(bytes));
      Inbox(r.tail, box.lines + r.lines, box.full + |r.lines|, box.dead)
  }

  /** `GetLine(s)`: the oldest line, if there is one. */
  function Take(box: Inbox): (Inbox, seq<string>) {
    if box.full == 0 || box.lines == [] then (box, [])
    else (box.(lines := box.lines[1..], full := box.full - 1), [box.lines[0]])
  }

  /** A wakeup of the socket, or a call of `GetLine`. */
  datatype Event = Wakeup(input: Input) | Pull

  function Do(box: Inbox, e: Event): (Inbox, seq<string>) {
    match e
    case Wakeup(input) => (Readline(box, input), [])
    case Pull => Take(box)
  }

  function Run(box: Inbox, es: seq<Event>): Inbox
    decreases |es|
  {
    if es == [] then box else Run(Do(box, es[0]).0, es[1..])
  }

  /** The lines that `GetLine` returned. */
  function Pulled(box: Inbox, es: seq<Event>): seq<string>
    decreases |es|
  {
    if es == [] then [] else Do(box, es[0]).1 + Pulled(Do(box, es[0]).0, es[1..])
  }

  /** The bytes that came in, chunk after chunk. */
  function Bytes(es: seq<Event>): string {
    if es == [] then ""
    else (if es[0].Wakeup? && es[0].input.Data? then CString(es[0].input.bytes) else "") + Bytes(es[1..])
  }

  predicate Unbroken(es: seq<Event>) {
    forall i :: 0 <= i < |es| ==> es[i] != Wakeup(Broken)
  }

  lemma {:induction false} ShortSplit(cur: string, a: string, b: string)
    requires Short(cur, a + b)
    ensures Short(cur, a) && Short(Scan(cur, a).tail, b)
    decreases |a|
  {
    if a == "" {
      assert a + b == b;
    } else {
      assert (a + b)[1..] == a[1..] + b && (a + b)[0] == a[0];
      ShortSplit(if Ends(a[0]) then "" else cur + [a[0]], a[1..], b);
    }
  }

  /** Every wakeup of the run finds a living socket and buffers that are large
      enough. */
  predicate Fits(box: Inbox, es: seq<Event>)
    decreases |es|
  {
    es == [] ||
    (!box.dead && |box.tail| < MAXLEN
     && (es[0].Wakeup? && es[0].input.Data? ==> Short(box.tail, CString(es[0].input.bytes)))
     && Fits(Do(box, es[0]).0, es[1..]))
  }

  /** That is so if no line of the stream is too long. */
  lemma {:induction false} ShortFits(box: Inbox, es: seq<Event>)
    requires Unbroken(es) && !box.dead && Short(box.tail, Bytes(es))
    ensures Fits(box, es)
    decreases |es|
  {
    hide CString;
    if es != [] {
      var next := Do(box, es[0]).0;
      if es[0].Wakeup? && es[0].input.Data? {
        ShortSplit(box.tail, CString(es[0].input.bytes), Bytes(es[1..]));
      } else {
        assert "" + Bytes(es[1..]) == Bytes(es[1..]) && next.tail == box.tail;
      }
      hide Scan;
      ShortFits(next, es[1..]);
    }
  }

  lemma {:induction false} RunDelivers(box: Inbox, es: seq<Event>)
    requires Unbroken(es) && box.full == |box.lines|
    ensures var end := Run(box, es);
            var r := Scan(box.tail, Bytes(es));
            && Pulled(box, es) + end.lines == box.lines + r.lines
            && end.tail == r.tail && end.full == |end.lines| && end.dead == box.dead
    decreases |es|
  {
    hide CString;
    if es == [] {
      assert [] + box.lines == box.lines == box.lines + [];
    } else {
      var (next, got) := Do(box, es[0]);
      var rest := es[1..];
      RunDelivers(next, rest);
      var pulled, end := Pulled(next, rest), Run(next, rest);
      Concat3(got, pulled, end.lines);
      if es[0].Wakeup? && es[0].input.Data? {
        var chunk := CString(es[0].input.bytes);
        ScanSplit(box.tail, chunk, Bytes(rest));
        Concat3(box.lines, Scan(box.tail, chunk).lines, Scan(next.tail, Bytes(rest)).lines);
        assert [] + pulled == pulled;
      } else {
        assert "" + Bytes(rest) == Bytes(rest);
        hide Scan;
        if got == [] {
          assert [] + pulled == pulled && next == box;
        } else {
          assert got + next.lines == box.lines;
          Concat3(got, next.lines, Scan(box.tail, Bytes(rest)).lines);
        }
      }
    }
  }

  /** For any chunks and any calls of `GetLine` between them, if no line is longer
      than the buffers: the lines returned, followed by those still waiting, are
      the lines of the stream in order, and the rest of the stream is kept. */
  lemma LinesDelivered(box: Inbox, es: seq<Event>)
    requires Unbroken(es) && !box.dead && box.full == |box.lines| && Short(box.tail, Bytes(es))
    ensures var end := Run(box, es);
            var r := Scan(box.tail, Bytes(es));
            && Fits(box, es)
            && Pulled(box, es) + end.lines == box.lines + r.lines
            && end.tail == r.tail && end.full == |end.lines| && !end.dead
  {
    hide Fits, Run, Scan, Pulled, Bytes, Short;
    ShortFits(box, es);
    RunDelivers(box, es);
  }

  function Pulls(n: nat): seq<Event> {
    if n == 0 then [] else [Pull] + Pulls(n - 1)
  }

  lemma PullStep(box: Inbox, n: nat)
    requires box.full == |box.lines|
    ensures var next := if box.lines == [] then box else box.(lines := box.lines[1..], full := box.full - 1);
            && Run(box, Pulls(n + 1)) == Run(next, Pulls(n))
            && Pulled(box, Pulls(n + 1)) == (if box.lines == [] then [] else [box.lines[0]]) + Pulled(next, Pulls(n))
  {
    assert Pulls(n + 1)[0] == Pull && Pulls(n + 1)[1..] == Pulls(n);
    hide Pulls;
  }

  lemma {:induction false} PullsRest(box: Inbox, n: nat)
    requires box.full == |box.lines| && n <= |box.lines|
    ensures Pulled(box, Pulls(n)) == box.lines[..n]
    ensures Run(box, Pulls(n)) == box.(lines := box.lines[n..], full := box.full - n)
    decreases n
  {
    if n == 0 {
      assert box.lines[..0] == [] && box.lines[0..] == box.lines;
    } else {
      hide Run, Pulled, Pulls;
      PullStep(box, n - 1);
      PullsRest(box.(lines := box.lines[1..], full := box.full - 1), n - 1);
      assert box.lines[..n] == [box.lines[0]] + box.lines[1..][..n - 1];
      assert box.lines[1..][n - 1..] == box.lines[n..];
    }
  }

  lemma {:induction false} PullsNothing(box: Inbox, n: nat)
    requires box.full == 0 && box.lines == []
    ensures Pulled(box, Pulls(n)) == [] && Run(box, Pulls(n)) == box
  {
    if n > 0 {
      hide Run, Pulled, Pulls;
      PullStep(box, n - 1);
      PullsNothing(box, n - 1);
    }
  }

  /** Calls of `GetLine` return the waiting lines, the oldest first; when none is left
      they return nothing. */
  lemma PullsInOrder(box: Inbox, n: nat)
    requires box.full == |box.lines|
    ensures n <= |box.lines| ==>
              Pulled(box, Pulls(n)) == box.lines[..n] && Run(box, Pulls(n)) == box.(lines := box.lines[n..], full := box.full - n)
    ensures box.lines == [] ==> Pulled(box, Pulls(n)) == [] && Run(box, Pulls(n)) == box
  {
    hide Run, Pulled, Pulls;
    if box.lines == [] {
      PullsNothing(box, n);
    }
    if n <= |box.lines| {
      PullsRest(box, n);
    }
  }

  /** A read that fails loses the unfinished line and no other, and nothing happens
      when nothing is read. */
  lemma BrokenEnds(box: Inbox)
    ensures var r := Readline(box, Broken);
            r.dead && r.tail == "" && r.lines == box.lines && r.full == box.full
    ensures Readline(box, NotYet) == box
  {
  }

  function Chunks(parts: seq<string>): seq<Event> {
    if parts == [] then [] else [Wakeup(Data(parts[0]))] + Chunks(parts[1..])
  }

  function Joined(parts: seq<string>): string {
    if parts == [] then "" else parts[0] + Joined(parts[1..])
  }

  lemma {:induction false} ChunksBytes(parts: seq<string>)
    requires forall i :: 0 <= i < |parts| ==> NUL !in parts[i]
    ensures Bytes(Chunks(parts)) == Joined(parts)
  {
    if parts != [] {
      ChunksBytes(parts[1..]);
      CStringUpTo(parts[0], |parts[0]|);
      assert Chunks(parts)[1..] == Chunks(parts[1..]) && parts[0][..|parts[0]|] == parts[0];
      hide CString;
    }
  }

  lemma {:induction false} ChunksPlain(box: Inbox, parts: seq<string>)
    ensures Pulled(box, Chunks(parts)) == [] && Unbroken(Chunks(parts))
    decreases |parts|
  {
    hide Readline;
    if parts != [] {
      assert Chunks(parts)[1..] == Chunks(parts[1..]);
      ChunksPlain(Readline(box, Data(parts[0])), parts[1..]);
    }
  }

  /** Two ways to break the same stream into reads leave the same lines and the same
      tail, if no line is longer than the buffers. */
  lemma ChunkingIrrelevant(a: seq<string>, b: seq<string>)
    requires forall i :: 0 <= i < |a| ==> NUL !in a[i]
    requires forall i :: 0 <= i < |b| ==> NUL !in b[i]
    requires Joined(a) == Joined(b) && Short("", Joined(a))
    ensures Run(Inbox("", [], 0, false), Chunks(a)) == Run(Inbox("", [], 0, false), Chunks(b))
  {
    hide Run, Pulled, Scan, Short, Fits;
    var empty := Inbox("", [], 0, false);
    ChunksBytes(a);
    ChunksBytes(b);
    ChunksPlain(empty, a);
    ChunksPlain(empty, b);
    LinesDelivered(empty, Chunks(a));
    LinesDelivered(empty, Chunks(b));
    assert [] + Run(empty, Chunks(a)).lines == Run(empty, Chunks(a)).lines;
    assert [] + Run(empty, Chunks(b)).lines == Run(empty, Chunks(b)).lines;
  }

  // ----- The socket as it is changed in place -----

  lemma ScanNext(cur: string, data: string)
    requires data != ""
    ensures Ends(data[0]) ==>
              Scan(cur, data) == Split((if cur == "" then [] else [cur]) + Scan("", data[1..]).lines, Scan("", data[1..]).tail)
    ensures !Ends(data[0]) ==> Scan(cur, data) == Scan(cur + [data[0]], data[1..])
  {
  }

  /** The lines of `r` are added to those that wait. */
  function Filled(lines: seq<string>, full: int, r: Split): Inbox {
    Inbox(r.tail, lines + r.lines, full + |r.lines|, false)
  }

  lemma FilledNone(lines: seq<string>, full: int, cur: string)
    ensures Filled(lines, full, Scan(cur, "")) == Inbox(cur, lines, full, false)
  {
    assert lines + [] == lines;
  }

  lemma ReadlineFills(box: Inbox, input: Input)
    requires !box.dead
    ensures input.Data? ==> Readline(box, input) == Filled(box.lines, box.full, Scan(box.tail, CString(input.bytes)))
  {
  }

  lemma ShortNext(cur: string, data: string)
    requires Short(cur, data)
    ensures |cur| < MAXLEN
    ensures data != "" ==> if Ends(data[0]) then Short("", data[1..]) else Short(cur + [data[0]], data[1..])
  {
  }

  class Reader {
    // the shared read buffer, its read position, and whether it holds data
    var readBuffer: string
    var c: nat
    var dataInBuffer: bool
    // the socket
    var readTail: string
    var mbuffer: seq<string>
    var fullLines: int
    var dead: bool

    ghost function View(): Inbox
      reads this
    {
      Inbox(readTail, mbuffer, fullLines, dead)
    }

    /** Data in the buffer ends at a NUL, and no data stays between two wakeups. */
    ghost predicate Valid()
      reads this
    {
      dataInBuffer ==> c < |readBuffer| && readBuffer[|readBuffer| - 1] == NUL
    }

    /** What is still to be read, if the next `read` gives `input`. */
    ghost function Unread(input: Input): (r: string)
      requires Valid()
      reads this
      ensures NUL !in r
    {
      if dataInBuffer then CString(readBuffer[c..]) else if input.Data? then CString(input.bytes) else ""
    }

    constructor ()
      ensures Valid() && View() == Inbox("", [], 0, false) && !dataInBuffer
    {
      readBuffer, c, dataInBuffer := "", 0, false;
      readTail, mbuffer, fullLines, dead := "", [], 0, false;
    }

    /** The buffer is filled by one `read`. */
    method Refill(input: Input)
      requires Valid() && !dataInBuffer
      modifies `readBuffer, `c, `dataInBuffer, `dead
      ensures Valid() && dataInBuffer == input.Data? && dead == (old(dead) || input.Broken?)
      ensures Unread(input) == old(Unread(input))
    {
      match input
      case NotYet =>
      case Broken => dead := true;
      case Data(bytes) =>
        readBuffer, c, dataInBuffer := bytes + [NUL], 0, true;
        CStringUpTo(bytes + [NUL], |CString(bytes)|);
        assert readBuffer[0..] == bytes + [NUL];
    }

    /** The next byte of the buffer; at its NUL the buffer is empty again. */
    method NextByte(input: Input) returns (rc: char)
      requires Valid() && dataInBuffer
      modifies `c, `dataInBuffer
      ensures Valid()
      ensures old(Unread(input)) == "" ==> rc == NUL && !dataInBuffer
      ensures old(Unread(input)) != "" ==>
                rc == old(Unread(input))[0] && dataInBuffer && Unread(input) == old(Unread(input))[1..]
    {
      rc := readBuffer[c];
      assert readBuffer[c..][1..] == readBuffer[c + 1..];
      if rc == NUL {
        dataInBuffer := false;
        return;
      }
      c := c + 1;
    }

    /** `sock_getbyte(s)`: the next byte, or NUL when there is none. */
    method GetByte(input: Input) returns (rc: char)
      requires Valid()
      modifies `readBuffer, `c, `dataInBuffer, `dead
      ensures Valid()
      ensures dead == (old(dead) || (!old(dataInBuffer) && input.Broken?))
      ensures old(Unread(input)) == "" ==> rc == NUL && !dataInBuffer
      ensures old(Unread(input)) != "" ==>
                rc == old(Unread(input))[0] && dataInBuffer && Unread(input) == old(Unread(input))[1..]
    {
      hide CString;
      if !dataInBuffer {
        Refill(input);
        if !dataInBuffer {
          return NUL;
        }
      }
      rc := NextByte(input);
    }

    /** One character that was read: it ends the line or is added to it. */
    method Gather(message: array<char>, i: nat, ch: char, ghost unread: string) returns (next: nat)
      requires message.Length == MAXLEN + 1 && i < MAXLEN && unread != "" && unread[0] == ch
      requires Short(message[..i], unread)
      modifies message, `mbuffer, `fullLines
      ensures next < MAXLEN && Short(message[..next], unread[1..])
      ensures Filled(mbuffer, fullLines, Scan(message[..next], unread[1..]))
              == old(Filled(mbuffer, fullLines, Scan(message[..i], unread)))
    {
      hide Scan, Short;
      ghost var cur, rest := message[..i], Scan("", unread[1..]).lines;
      ScanNext(cur, unread);
      ShortNext(cur, unread);
      if Ends(ch) {
        if i > 0 {
          Concat3(mbuffer, [cur], rest);
          mbuffer := mbuffer + [message[..i]];
          fullLines := fullLines + 1;
        } else {
          assert [] + rest == rest;
        }
        next := 0;
        assert message[..0] == "";
      } else {
        message[i] := ch;
        next := i + 1;
        assert message[..next] == cur + [ch];
        ShortNext(cur + [ch], unread[1..]);
      }
    }

    /** `sock_readline(s)`: one wakeup. */
    method SockReadline(input: Input) returns (rc: int)
      requires Valid() && !dataInBuffer && !dead && |readTail| < MAXLEN
      requires input.Data? ==> Short(readTail, CString(input.bytes))
      modifies this
      ensures Valid() && !dataInBuffer && View() == Readline(old(View()), input) && rc == if dead then 1 else 0
    {
      hide CString, Scan, Short, Filled;
      ghost var box, want := View(), Readline(View(), input);
      ReadlineFills(box, input);
      var message := new char[MAXLEN + 1](_ => NUL);
      var i: nat := 0;
      if readTail != "" {
        Store(message, 0, readTail);
        i := |readTail|;
        readTail := "";
      }
      assert message[..i] == box.tail;
      while true
        invariant fresh(message) && message.Length == MAXLEN + 1 && Valid() && !dead && readTail == "" && i < MAXLEN
        invariant input.Data? ==> Short(message[..i], Unread(input))
        invariant input.Data? ==> want == Filled(mbuffer, fullLines, Scan(message[..i], Unread(input)))
        invariant !input.Data? ==> !dataInBuffer && mbuffer == box.lines && message[..i] == box.tail && fullLines == box.full
        decreases |Unread(input)|
      {
        ghost var unread := Unread(input);
        var ch := GetByte(input);
        if dead {
          return 1;
        }
        if ch == NUL {
          FilledNone(mbuffer, fullLines, message[..i]);
          if i > 0 {
            readTail := message[..i];
          }
          break;
        }
        i := Gather(message, i, ch, unread);
      }
      rc := 0;
    }

    /** `GetLine(s)`. */
    method GetLine() returns (line: Option<string>)
      modifies `mbuffer, `fullLines
      ensures View() == Take(old(View())).0
      ensures Take(old(View())).1 == match line case None => [] case Some(s) => [s]
    {
      if fullLines == 0 || mbuffer == [] {
        return None;
      }
      line := Some(mbuffer[0]);
      mbuffer, fullLines := mbuffer[1..], fullLines - 1;
    }
  }
}
