/** One connection of a proxy scan: its record, and the handlers that change it. */
module Connections {
  import opened Buffers
  import opened CStrings
  import opened ReplyReader

  datatype ConnState = Unestablished | Established | NegSent | Closed

  /** The numeric order of the states. */
  function Rank(s: ConnState): nat {
    match s
    case Unestablished => 1
    case Established => 2
    case NegSent => 3
    case Closed => 4
  }

  /** The configuration variables the scanner reads. */
  datatype Config = Config(fdLimit: int, timeout: int, maxRead: int, targets: seq<string>, bindIp: bool)

  datatype ErrorCode = NoFd | Bind | MaxRead

  /** Client callbacks, in the order they are made; `scan` is the submission
      number of the scan the callback is about. */
  datatype Callback =
    | OnOpenProxy(scan: nat, port: nat)
    | OnNegFail(scan: nat, port: nat)
    | OnError(scan: nat, port: nat, code: ErrorCode)
    | OnTimeout(scan: nat, port: nat)
    | OnEnd(scan: nat)

  /** What `socket`, `bind` and `time` answer to one connection attempt. */
  datatype Attempt = Attempt(fd: int, bindFails: bool, at: int)

  /** The value of a connection record. `slot` is its position in the scan as
      it was created; nothing in the scanner depends on it. */
  datatype Conn = Conn(slot: nat, port: nat, fd: int, state: ConnState, creation: int, reader: Reader)

  /** A record as `calloc` and `libopm_connection_create` leave it. */
  function NewConn(slot: nat, port: nat): Conn {
    Conn(slot, port, 0, Unestablished, 0, Reader(0, ""))
  }

  datatype Effect = Effect(conn: Conn, calls: seq<Callback>)

  // ----- The handlers, on values -----

  function AfterConnect(cfg: Config, scan: nat, c: Conn, a: Attempt): Effect {
    if a.fd == -1 then
      Effect(c.(fd := a.fd, state := Closed), [OnError(scan, c.port, NoFd)])
    else if cfg.bindIp && a.bindFails then
      Effect(c.(fd := a.fd, state := Closed), [OnError(scan, c.port, Bind)])
    else
      Effect(c.(fd := a.fd, state := Established, creation := a.at), [])
  }

  function AfterHup(scan: nat, c: Conn): Effect {
    Effect(c.(state := Closed), [OnNegFail(scan, c.port)])
  }

  function AfterWrite(c: Conn): Conn {
    c.(state := NegSent)
  }

  function AfterRead(cfg: Config, scan: nat, c: Conn, b: Burst): Effect {
    var p := Wake(cfg.maxRead, cfg.targets, c.reader, b);
    var c' := c.(reader := p.reader);
    match p.outcome
    case Open => Effect(c', [])
    case FoundProxy => Effect(c'.(state := Closed), [OnOpenProxy(scan, c.port)])
    case TooMuch => Effect(c'.(state := Closed), [OnError(scan, c.port, MaxRead)])
    case HungUp => AfterHup(scan, c')
  }

  // ----- What a wakeup reports -----

  /** What a wakeup must report once `heard` has come before: the proxy if a line
      within the limit holds a target, else the limit if it is reached, else the
      failure if the peer is gone. */
  function Report(cfg: Config, scan: nat, port: nat, heard: string, b: Burst): seq<Callback> {
    var data := heard + b.data;
    if HasHit(Lines(Window(cfg.maxRead, data)), cfg.targets) then [OnOpenProxy(scan, port)]
    else if Stops(cfg.maxRead, data) then [OnError(scan, port, MaxRead)]
    else if b.tail != WouldBlock then [OnNegFail(scan, port)]
    else []
  }

  /** The reader of a connection that has read `heard` and goes on. */
  predicate Reading(cfg: Config, r: Reader, heard: string) {
    var p := Feed(cfg.maxRead, cfg.targets, Reader(0, ""), heard);
    p.outcome == Open && p.reader == r
  }

  lemma ReadingNothing(cfg: Config)
    ensures Reading(cfg, Reader(0, ""), "")
  {
  }

  /** The same read off the loop over all bytes. */
  function Verdict(scan: nat, port: nat, o: Outcome, tail: Tail): seq<Callback> {
    match o
    case FoundProxy => [OnOpenProxy(scan, port)]
    case TooMuch => [OnError(scan, port, MaxRead)]
    case _ => if tail != WouldBlock then [OnNegFail(scan, port)] else []
  }

  lemma ReportIsVerdict(cfg: Config, scan: nat, port: nat, heard: string, b: Burst)
    ensures Report(cfg, scan, port, heard, b)
         == Verdict(scan, port, Feed(cfg.maxRead, cfg.targets, Reader(0, ""), heard + b.data).outcome, b.tail)
  {
    hide HasHit, Lines, Window, Stops, Feed;
    FeedIsItsLines(cfg.maxRead, cfg.targets, heard + b.data);
  }

  /** A wakeup reports exactly that; the connection is closed by a report and reads
      on without one. */
  lemma ReadReports(cfg: Config, scan: nat, c: Conn, heard: string, b: Burst)
    requires Reading(cfg, c.reader, heard)
    ensures var e := AfterRead(cfg, scan, c, b);
            && e.calls == Report(cfg, scan, c.port, heard, b)
            && e.conn == c.(reader := e.conn.reader, state := if e.calls == [] then c.state else Closed)
            && (e.calls == [] ==> Reading(cfg, e.conn.reader, heard + b.data))
  {
    ReportIsVerdict(cfg, scan, c.port, heard, b);
    FeedSplit(cfg.maxRead, cfg.targets, Reader(0, ""), heard, b.data);
    hide Feed, Report;
  }

  class Connection {
    const slot: nat
    const port: nat
    var fd: int
    var bytesRead: nat
    var readbuf: seq<char>   // an array inside the record, of fixed size
    var readlen: nat
    var state: ConnState
    var creation: int

    ghost predicate Valid()
      reads this
    {
      && |readbuf| == READBUFLEN + 1
      && readlen <= READBUFLEN
      && bytesRead < USHORT
      && NUL !in readbuf[..readlen]
    }

    ghost function View(): Conn
      reads this
      requires Valid()
    {
      Conn(slot, port, fd, state, creation, Reader(bytesRead, readbuf[..readlen]))
    }

    constructor (slot: nat, port: nat)
      ensures Valid()
      ensures View() == NewConn(slot, port)
    {
      this.slot, this.port := slot, port;
      fd, bytesRead, readlen, creation := 0, 0, 0, 0;
      readbuf := seq(READBUFLEN + 1, _ => NUL);
      state := Unestablished;
    }

    method DoConnect(cfg: Config, ghost scan: nat, a: Attempt) returns (ghost calls: seq<Callback>)
      requires Valid()
      modifies this
      ensures Valid()
      ensures Effect(View(), calls) == AfterConnect(cfg, scan, old(View()), a)
    {
      fd := a.fd;
      if fd == -1 {
        calls := [OnError(scan, port, NoFd)];
        state := Closed;
        return;
      }
      if cfg.bindIp {
        if a.bindFails {
          calls := [OnError(scan, port, Bind)];
          state := Closed;
          return;
        }
      }
      state := Established;
      creation := a.at;
      calls := [];
    }

    method DoHup(ghost scan: nat) returns (ghost calls: seq<Callback>)
      requires Valid()
      modifies this
      ensures Valid()
      ensures Effect(View(), calls) == AfterHup(scan, old(View()))
    {
      state := Closed;
      calls := [OnNegFail(scan, port)];
    }

    method DoWriteReady()
      requires Valid()
      modifies this
      ensures Valid()
      ensures View() == AfterWrite(old(View()))
    {
      state := NegSent;
    }

    /** Looks for a target string in the C string held by the buffer. */
    method DoRead(targets: seq<string>) returns (hit: bool)
      ensures hit == Hits(CString(readbuf), targets)
    {
      var line := CString(readbuf);
      for k := 0 to |targets|
        invariant forall t :: t in targets[..k] ==> !Contains(line, t)
      {
        if Contains(line, targets[k]) {
          return true;
        }
      }
      assert targets[..|targets|] == targets;
      return false;
    }

    /** The handling of one byte that `read` returned. */
    method TakeByte(cfg: Config, ch: char) returns (outcome: Outcome)
      requires Valid()
      modifies this`bytesRead, this`readlen, this`readbuf
      ensures Valid()
      ensures var p := Byte(cfg.maxRead, cfg.targets, old(View().reader), ch);
              View().reader == p.reader && outcome == p.outcome
    {
      ghost var line := readbuf[..readlen];
      outcome := Open;
      bytesRead := (bytesRead + 1) % 0x1_0000;
      if bytesRead >= cfg.maxRead {
        return TooMuch;
      }
      if ch == NUL || ch == CR {
        return;
      }
      if ch == LF {
        readbuf := readbuf[readlen := NUL];
        assert readbuf == line + [NUL] + readbuf[readlen + 1..];
        CStringUpTo(line + [NUL] + readbuf[readlen + 1..], |line|);
        readlen := 0;
        var hit := DoRead(cfg.targets);
        return if hit then FoundProxy else Open;
      }
      if readlen < READBUFLEN {
        readlen := readlen + 1;
        readbuf := readbuf[readlen - 1 := ch];
        assert readbuf[..readlen] == line + [ch];
      }
    }

    method DoReadReady(cfg: Config, ghost scan: nat, b: Burst) returns (ghost calls: seq<Callback>)
      requires Valid()
      modifies this
      ensures Valid()
      ensures Effect(View(), calls) == AfterRead(cfg, scan, old(View()), b)
      ensures forall heard :: Reading(cfg, old(View().reader), heard) ==> calls == Report(cfg, scan, port, heard, b)
    {
      forall heard | Reading(cfg, View().reader, heard)
        ensures AfterRead(cfg, scan, View(), b).calls == Report(cfg, scan, port, heard, b)
      {
        ReadReports(cfg, scan, View(), heard, b);
      }
      hide Byte, Reading, Report;
      ghost var c := View();
      ghost var p := Feed(cfg.maxRead, cfg.targets, c.reader, b.data);
      var i := 0;
      while i < |b.data|
        invariant i <= |b.data| && Valid()
        invariant View() == c.(reader := View().reader)
        invariant var q := Feed(cfg.maxRead, cfg.targets, View().reader, b.data[i..]);
                  q.reader == p.reader && q.outcome == p.outcome
      {
        assert b.data[i..][1..] == b.data[i + 1..];
        var outcome := TakeByte(cfg, b.data[i]);
        i := i + 1;
        match outcome {
          case Open =>
          case TooMuch =>
            calls := [OnError(scan, port, MaxRead)];
            state := Closed;
            return;
          case FoundProxy =>
            state := Closed;
            calls := [OnOpenProxy(scan, port)];
            return;
          case HungUp =>
            assert false;
        }
      }
      if b.tail != WouldBlock {
        calls := DoHup(scan);
      } else {
        calls := [];
      }
    }
  }
}
