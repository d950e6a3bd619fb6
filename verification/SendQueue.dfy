/** Writing lines to a non-blocking socket; what the kernel does not take at once is queued. */
module SendQueue {
  import opened Buffers

  // Size of the buffer a line is formatted in.
  const LINEBUF: nat := 1024

  // The longest line `send_line` sends.
  const MAXLINE: nat := 512

  /** A queued text of which `len` characters from `pos` on are unsent. */
  datatype Entry = Entry(fd: int, buf: string, pos: nat, len: nat) {
    predicate Sound() { fd > 0 && len > 0 && pos + len == |buf| }

    function Unsent(): string
      requires Sound()
    {
      buf[pos..]
    }
  }

  /** What one `write` does: takes some characters, would block, or fails. */
  datatype Reply = Took(n: nat) | Again | Failed

  /** The replies of the kernel to the successive writes. */
  type Kernel = nat -> Reply

  /** A socket. `wire` is all that the kernel has taken, `clock` the number of
      writes. */
  datatype Link = Link(sd: int, dead: bool, queue: seq<Entry>, wire: string, clock: nat) {
    predicate Sound() {
      forall i :: 0 <= i < |queue| ==> queue[i].Sound()
    }
  }

  /** The unsent text, in order. */
  function Pending(q: seq<Entry>): string
    requires forall i :: 0 <= i < |q| ==> q[i].Sound()
  {
    if q == [] then "" else q[0].Unsent() + Pending(q[1..])
  }

  /** `write(fd, bytes, len)`: the kernel takes no more than it is given. */
  function Write(l: Link, k: Kernel, bytes: string): (r: (Link, Reply))
    ensures r.1.Took? ==> r.1.n <= |bytes| && r.0.wire == l.wire + bytes[..r.1.n]
  {
    match k(l.clock)
    case Took(n) =>
      var m := if n < |bytes| then n else |bytes|;
      (l.(wire := l.wire + bytes[..m], clock := l.clock + 1), Took(m))
    case other => (l.(clock := l.clock + 1), other)
  }

  /** `sendq_add(s, buf, len, pos)`. */
  function Add(l: Link, buf: string, pos: nat): Link
    requires pos <= |buf|
  {
    l.(queue := l.queue + [Entry(l.sd, buf, pos, |buf| - pos)])
  }

  /** Writes the oldest entry: 1 if it is gone, 0 if it has to wait, -1 if the
      kernel failed. */
  function FlushOne(l: Link, k: Kernel): (r: (Link, int))
    requires l.Sound() && l.queue != []
    ensures r.0.Sound() && r.0.sd == l.sd && r.0.dead == l.dead && r.1 in {-1, 0, 1}
    ensures r.1 == 1 ==> r.0.queue == l.queue[1..]
    ensures r.1 != 1 ==> |r.0.queue| == |l.queue|
  {
    var sq := l.queue[0];
    var (m, reply) := Write(l, k, sq.buf[sq.pos..]);
    match reply
    case Again => (m, 0)
    case Failed => (m, -1)
    case Took(n) =>
      if n == sq.len then (m.(queue := l.queue[1..]), 1)
      else (m.(queue := [sq.(pos := sq.pos + n, len := sq.len - n)] + l.queue[1..]), 0)
  }

  /** `sendq_flush(s)`: 1 if the queue is empty now, 0 if the kernel would block,
      -1 if it failed. */
  function Flush(l: Link, k: Kernel): (r: (Link, int))
    requires l.Sound()
    ensures r.0.Sound() && r.0.sd == l.sd && r.0.dead == l.dead && r.1 in {-1, 0, 1}
    ensures r.1 == 1 <==> r.0.queue == []
    decreases |l.queue|
  {
    if l.queue == [] then (l, 1)
    else
      var (m, r) := FlushOne(l, k);
      if r == 1 then Flush(m, k) else (m, r)
  }

  /** Writes a line, or as much of it as can be; the rest is queued. The result
      says whether the socket failed. */
  function Transmit(l: Link, k: Kernel, line: string): (r: (Link, bool))
    requires l.Sound() && l.sd > 0 && line != ""
    ensures r.0.Sound()
  {
    var (m, n) := Flush(l, k);
    if n == -1 then (m, false)
    else if n == 0 then (Add(m, line, 0), true)
    else
      var (w, reply) := Write(m, k, line);
      match reply
      case Failed => (w, false)
      case Again => (Add(w, line, 0), true)
      case Took(t) => (if t != |line| then Add(w, line, t) else w, true)
  }

  function Cut(text: string, n: nat): string {
    if |text| <= n then text else text[..n]
  }

  /** The line that `sendto_socket` sends: a line feed is added if there is none
      and there is room for it. */
  function WithLf(text: string): (line: string)
    ensures line != "" && |line| < LINEBUF
  {
    var tmp := Cut(text, LINEBUF - 1);
    if '\n' in tmp || |tmp| == LINEBUF - 1 then tmp else tmp + "\n"
  }

  /** The line that `send_line` sends. */
  function WithCrLf(text: string): (line: string)
    ensures '\r' in line && '\n' in line
  {
    var tmp := if '\r' in text then text else text + "\r";
    if '\n' in tmp then tmp else tmp + "\n"
  }

  /** `sendto_socket(sock, ...)`. */
  function SendTo(l: Link, k: Kernel, text: string): (r: (Link, int))
    requires l.Sound()
    ensures r.0.Sound()
  {
    if l.sd <= 0 then (l, 1)
    else
      var (m, ok) := Transmit(l, k, WithLf(text));
      if ok then (m, 0) else (m.(sd := -1, dead := true), 1)
  }

  /** `send_line(...)`; when the socket fails, it is closed by `uplink_cleanup`. */
  function SendLine(l: Link, k: Kernel, text: string): (r: (Link, int))
    requires l.Sound()
    ensures r.0.Sound()
  {
    if l.sd <= 0 || l.dead then (l, 0)
    else if |WithCrLf(text)| > MAXLINE then (l, -1)
    else
      var (m, ok) := Transmit(l, k, WithCrLf(text));
      if ok then (m, 0) else (m.(sd := -1, dead := false), 1)
  }

  // ----- Nothing is lost, repeated or reordered -----

  /** All that was ever accepted: what the kernel took, and what waits. */
  function Stream(l: Link): string
    requires l.Sound()
  {
    l.wire + Pending(l.queue)
  }

  lemma PendingHead(q: seq<Entry>)
    requires q != [] && forall i :: 0 <= i < |q| ==> q[i].Sound()
    ensures Pending(q) == q[0].Unsent() + Pending(q[1..])
  {
  }

  lemma {:induction false} PendingAppend(q: seq<Entry>, e: Entry)
    requires (forall i :: 0 <= i < |q| ==> q[i].Sound()) && e.Sound()
    ensures Pending(q + [e]) == Pending(q) + e.Unsent()
  {
    if q == [] {
      assert q + [e] == [e] && [e][1..] == [];
      assert e.Unsent() + "" == e.Unsent() && "" + e.Unsent() == e.Unsent();
    } else {
      PendingAppend(q[1..], e);
      assert (q + [e])[1..] == q[1..] + [e];
      Concat3(q[0].Unsent(), Pending(q[1..]), e.Unsent());
    }
  }

  lemma AddStream(l: Link, line: string, t: nat)
    requires l.Sound() && l.sd > 0 && t < |line|
    ensures Add(l, line, t).Sound() && Stream(Add(l, line, t)) == Stream(l) + line[t..]
  {
    PendingAppend(l.queue, Entry(l.sd, line, t, |line| - t));
    Concat3(l.wire, Pending(l.queue), line[t..]);
  }

  /** An entry taken in part. */
  lemma PartTaken(wire: string, sq: Entry, n: nat, q: seq<Entry>)
    requires sq.Sound() && n < sq.len && forall i :: 0 <= i < |q| ==> q[i].Sound()
    ensures var left := sq.(pos := sq.pos + n, len := sq.len - n);
            && left.Sound() && (forall i :: 0 <= i < |[left] + q| ==> ([left] + q)[i].Sound())
            && wire + sq.Unsent()[..n] + Pending([left] + q) == wire + (sq.Unsent() + Pending(q))
  {
    var left := sq.(pos := sq.pos + n, len := sq.len - n);
    var front, back, rest := sq.Unsent()[..n], sq.Unsent()[n..], Pending(q);
    assert left.Unsent() == back && front + back == sq.Unsent();
    assert ([left] + q)[1..] == q;
    assert wire + front + (back + rest) == wire + (front + back + rest);
  }

  lemma WriteFrame(l: Link, k: Kernel, bytes: string)
    requires l.Sound()
    ensures var (m, reply) := Write(l, k, bytes);
            m.Sound() && m.sd == l.sd && m.queue == l.queue && l.wire <= m.wire
            && (!reply.Took? ==> m.wire == l.wire)
  {
  }

  lemma FlushOneCases(l: Link, k: Kernel)
    requires l.Sound() && l.queue != []
    ensures var sq, f := l.queue[0], FlushOne(l, k).0;
            var (m, reply) := Write(l, k, sq.buf[sq.pos..]);
            && (!reply.Took? ==> f == m)
            && (reply.Took? && reply.n == sq.len ==> f == m.(queue := l.queue[1..]))
            && (reply.Took? && reply.n != sq.len ==>
                  f == m.(queue := [sq.(pos := sq.pos + reply.n, len := sq.len - reply.n)] + l.queue[1..]))
  {
    hide Write;
  }

  lemma FlushOneStream(l: Link, k: Kernel)
    requires l.Sound() && l.queue != []
    ensures var m := FlushOne(l, k).0; Stream(m) == Stream(l) && l.wire <= m.wire
  {
    hide Pending, Write, FlushOne;
    var sq := l.queue[0];
    var (m, reply) := Write(l, k, sq.buf[sq.pos..]);
    FlushOneCases(l, k);
    PendingHead(l.queue);
    WriteFrame(l, k, sq.buf[sq.pos..]);
    if reply.Took? {
      if reply.n == sq.len {
        assert sq.Unsent()[..reply.n] == sq.Unsent();
        Concat3(l.wire, sq.Unsent(), Pending(l.queue[1..]));
      } else {
        PartTaken(l.wire, sq, reply.n, l.queue[1..]);
      }
    }
  }

  lemma {:induction false} FlushStream(l: Link, k: Kernel)
    requires l.Sound()
    ensures var m := Flush(l, k).0; Stream(m) == Stream(l) && l.wire <= m.wire
    decreases |l.queue|
  {
    hide Stream, FlushOne;
    if l.queue != [] {
      FlushOneStream(l, k);
      var (m, r) := FlushOne(l, k);
      if r == 1 {
        FlushStream(m, k);
      }
    }
  }

  lemma WireStream(f: Link, w: Link)
    requires f.Sound() && f.queue == [] == w.queue
    ensures Stream(f) == f.wire && Stream(w) == w.wire
  {
    assert f.wire + "" == f.wire && w.wire + "" == w.wire;
  }

  lemma TransmitStream(l: Link, k: Kernel, line: string)
    requires l.Sound() && l.sd > 0 && line != ""
    ensures var (m, ok) := Transmit(l, k, line);
            && Stream(m) == Stream(l) + (if ok then line else "") && l.wire <= m.wire
            && m.sd == l.sd && m.dead == l.dead
  {
    hide Stream;
    FlushStream(l, k);
    var (f, n) := Flush(l, k);
    assert line[0..] == line && Stream(l) + "" == Stream(l);
    if n == 0 {
      AddStream(f, line, 0);
    } else if n == 1 {
      var (w, reply) := Write(f, k, line);
      WireStream(f, w);
      if reply.Again? {
        AddStream(w, line, 0);
      } else if reply.Took? {
        if reply.n < |line| {
          AddStream(w, line, reply.n);
        }
        assert line[..reply.n] + line[reply.n..] == line && line[..|line|] == line;
        Concat3(f.wire, line[..reply.n], line[reply.n..]);
      }
    }
  }

  /** A call of a client of the socket. */
  datatype Call = ToSocket(text: string) | ToUplink(text: string)

  function Do(l: Link, k: Kernel, c: Call): (r: (Link, int))
    requires l.Sound()
    ensures r.0.Sound()
  {
    match c
    case ToSocket(text) => SendTo(l, k, text)
    case ToUplink(text) => SendLine(l, k, text)
  }

  /** The socket is open for a call, and the line is not too long for it. */
  predicate Admits(l: Link, c: Call) {
    l.sd > 0 && (c.ToUplink? ==> !l.dead && |WithCrLf(c.text)| <= MAXLINE)
  }

  function LineOf(c: Call): string {
    if c.ToSocket? then WithLf(c.text) else WithCrLf(c.text)
  }

  lemma SameStream(l: Link, m: Link)
    requires l.Sound() && m.queue == l.queue && m.wire == l.wire
    ensures m.Sound() && Stream(m) == Stream(l)
  {
  }

  /** One call adds its whole line to the stream or nothing; it adds the line
      exactly when it is admitted and the socket does not fail. */
  lemma DoStream(l: Link, k: Kernel, c: Call)
    requires l.Sound()
    ensures var (m, rc) := Do(l, k, c);
            && Stream(m) == Stream(l) + (if Admits(l, c) && rc == 0 then LineOf(c) else "")
            && l.wire <= m.wire
            && (Admits(l, c) ==> rc in {0, 1} && (rc == 1 ==> m.sd == -1))
            && (!Admits(l, c) ==>
                  m == l && rc == (if c.ToSocket? then 1 else if l.sd <= 0 || l.dead then 0 else -1))
            && (rc == 0 && Admits(l, c) ==> m.sd == l.sd && m.dead == l.dead)
  {
    hide Stream, Transmit, WithLf, WithCrLf;
    assert Stream(l) + "" == Stream(l);
    if Admits(l, c) {
      TransmitStream(l, k, LineOf(c));
      var m := Transmit(l, k, LineOf(c)).0;
      SameStream(m, m.(sd := -1, dead := true));
      SameStream(m, m.(sd := -1, dead := false));
    }
  }

  function Run(l: Link, k: Kernel, calls: seq<Call>): (m: Link)
    requires l.Sound()
    ensures m.Sound()
    decreases |calls|
  {
    if calls == [] then l else Run(Do(l, k, calls[0]).0, k, calls[1..])
  }

  /** The accepted lines of a run, in the order of the calls. */
  function Accepted(l: Link, k: Kernel, calls: seq<Call>): string
    requires l.Sound()
    decreases |calls|
  {
    if calls == [] then "" else
      var (m, rc) := Do(l, k, calls[0]);
      (if Admits(l, calls[0]) && rc == 0 then LineOf(calls[0]) else "") + Accepted(m, k, calls[1..])
  }

  /** Whatever the kernel does, the wire and the queue together hold every accepted
      line exactly once and in order; the wire is never taken back. */
  lemma {:induction false} QueueConservation(l: Link, k: Kernel, calls: seq<Call>)
    requires l.Sound()
    ensures var m := Run(l, k, calls);
            m.wire + Pending(m.queue) == l.wire + Pending(l.queue) + Accepted(l, k, calls) && l.wire <= m.wire
    decreases |calls|
  {
    hide Do, Admits, LineOf, Pending;
    if calls == [] {
      assert Stream(l) + "" == Stream(l);
    } else {
      var (m, rc) := Do(l, k, calls[0]);
      DoStream(l, k, calls[0]);
      QueueConservation(m, k, calls[1..]);
      Concat3(Stream(l), if Admits(l, calls[0]) && rc == 0 then LineOf(calls[0]) else "", Accepted(m, k, calls[1..]));
    }
  }

  /** The kernel takes everything from some time on. */
  ghost predicate Willing(k: Kernel, from: nat, n: nat) {
    forall t: nat :: t >= from ==> k(t).Took? && k(t).n >= n
  }

  /** A willing kernel gets everything at the next flush. */
  lemma {:induction false} FlushDrains(l: Link, k: Kernel, n: nat)
    requires l.Sound() && Willing(k, l.clock, n)
    requires forall i :: 0 <= i < |l.queue| ==> l.queue[i].len <= n
    ensures var (m, r) := Flush(l, k); r == 1 && m.wire == l.wire + Pending(l.queue)
    decreases |l.queue|
  {
    if l.queue == [] {
      assert l.wire + "" == l.wire;
    } else {
      var sq := l.queue[0];
      var (m, reply) := Write(l, k, sq.buf[sq.pos..]);
      assert k(l.clock).Took? && sq.Unsent()[..sq.len] == sq.Unsent();
      Concat3(l.wire, sq.Unsent(), Pending(l.queue[1..]));
      FlushDrains(m.(queue := l.queue[1..]), k, n);
    }
  }

  // ----- Texts and terminators -----

  /** What of the text is sent: the first 1023 characters to a socket, all of it to
      the uplink. */
  function Shown(c: Call): string {
    if c.ToSocket? && |c.text| > 1023 then c.text[..1023] else c.text
  }

  /** What is added: a line feed to a socket, if there is none and there is room for
      it; to the uplink, whichever of CR and LF the text does not have. */
  function Terminator(c: Call): string {
    if c.ToSocket? then
      if '\n' in Shown(c) || |Shown(c)| == 1023 then "" else "\n"
    else if '\r' in c.text && '\n' in c.text then ""
    else if '\r' in c.text then "\n"
    else if '\n' in c.text then "\r"
    else "\r\n"
  }

  lemma LineIsText(c: Call)
    ensures LineOf(c) == Shown(c) + Terminator(c)
  {
    if c.ToUplink? {
      assert c.text + "\r" + "\n" == c.text + "\r\n" && c.text + "" == c.text;
      assert '\n' in c.text + "\r" <==> '\n' in c.text;
    } else {
      assert Shown(c) + "" == Shown(c);
    }
  }

  /** The call is made on an open socket, and the uplink takes 512 characters. */
  predicate Sends(l: Link, k: Kernel, c: Call)
    requires l.Sound()
  {
    && l.sd > 0 && (c.ToUplink? ==> !l.dead && |c.text| + |Terminator(c)| <= 512)
    && Do(l, k, c).1 == 0
  }

  /** The texts that are sent in a run, each with its terminator. */
  function Messages(l: Link, k: Kernel, calls: seq<Call>): string
    requires l.Sound()
    decreases |calls|
  {
    if calls == [] then ""
    else (if Sends(l, k, calls[0]) then Shown(calls[0]) + Terminator(calls[0]) else "")
         + Messages(Do(l, k, calls[0]).0, k, calls[1..])
  }

  lemma SendsIff(l: Link, k: Kernel, c: Call)
    requires l.Sound()
    ensures Sends(l, k, c) <==> Admits(l, c) && Do(l, k, c).1 == 0
  {
    LineIsText(c);
    hide Do, WithLf, WithCrLf, Terminator;
  }

  lemma {:induction false} MessagesAccepted(l: Link, k: Kernel, calls: seq<Call>)
    requires l.Sound()
    ensures Accepted(l, k, calls) == Messages(l, k, calls)
    decreases |calls|
  {
    hide Do, Terminator, Shown, LineOf, Sends, Admits;
    if calls != [] {
      LineIsText(calls[0]);
      SendsIff(l, k, calls[0]);
      MessagesAccepted(Do(l, k, calls[0]).0, k, calls[1..]);
    }
  }

  /** Whatever the kernel does, the wire and the queue together are what they were,
      followed by every text sent, in order, each with its terminator. */
  lemma TextsConserved(l: Link, k: Kernel, calls: seq<Call>)
    requires l.Sound()
    ensures var m := Run(l, k, calls);
            m.wire + Pending(m.queue) == l.wire + Pending(l.queue) + Messages(l, k, calls) && l.wire <= m.wire
  {
    hide Accepted, Messages, Run, Pending;
    QueueConservation(l, k, calls);
    MessagesAccepted(l, k, calls);
  }

  // ----- When a call fails, and when it sends at once -----

  /** The last write of a call was refused. */
  predicate Refused(l: Link, k: Kernel, m: Link) {
    m.clock > l.clock && k(m.clock - 1).Failed?
  }

  lemma {:induction false} FlushFails(l: Link, k: Kernel)
    requires l.Sound()
    ensures var (m, r) := Flush(l, k);
            m.clock >= l.clock && (r == -1 <==> Refused(l, k, m))
    decreases |l.queue|
  {
    if l.queue != [] {
      var (m, r) := FlushOne(l, k);
      assert m.clock == l.clock + 1 && (r == -1 <==> k(l.clock).Failed?);
      hide FlushOne;
      if r == 1 {
        FlushFails(m, k);
      }
    }
  }

  /** A call on an open socket fails exactly if the kernel refuses a write, which is
      then the last one. */
  lemma DoFails(l: Link, k: Kernel, c: Call)
    requires l.Sound() && Admits(l, c)
    ensures var (m, rc) := Do(l, k, c);
            rc == 1 <==> Refused(l, k, m)
  {
    hide Flush, WithLf, WithCrLf;
    FlushFails(l, k);
  }

  /** A willing kernel has everything after a call: the queue and the line. */
  lemma DoDrains(l: Link, k: Kernel, c: Call, n: nat)
    requires l.Sound() && Admits(l, c) && Willing(k, l.clock, n) && |LineOf(c)| <= n
    requires forall i :: 0 <= i < |l.queue| ==> l.queue[i].len <= n
    ensures var (m, rc) := Do(l, k, c);
            && rc == 0 && m.queue == []
            && m.wire == l.wire + Pending(l.queue) + (Shown(c) + Terminator(c))
  {
    hide Flush, WithLf, WithCrLf, Shown, Terminator, Pending;
    LineIsText(c);
    FlushDrains(l, k, n);
    FlushFails(l, k);
    var f, line := Flush(l, k).0, LineOf(c);
    assert k(f.clock).Took? && k(f.clock).n >= n && line[..|line|] == line;
  }

  // ----- The socket as it is changed in place -----

  class Socket {
    var sd: int
    var dead: bool
    var sendq: seq<Entry>
    // what the kernel has taken, and its replies
    var wire: string
    var clock: nat
    const kernel: Kernel

    ghost function View(): Link
      reads this
    {
      Link(sd, dead, sendq, wire, clock)
    }

    ghost predicate Valid()
      reads this
    {
      View().Sound()
    }

    constructor (sd: int, kernel: Kernel)
      ensures Valid() && View() == Link(sd, false, [], "", 0) && this.kernel == kernel
    {
      this.sd, this.dead, this.sendq, this.wire, this.clock := sd, false, [], "", 0;
      this.kernel := kernel;
    }

    /** -1 stands for an error; `again` says that it is EAGAIN. */
    method WriteTo(bytes: string) returns (n: int, again: bool)
      modifies `wire, `clock
      ensures View() == Write(old(View()), kernel, bytes).0
      ensures match Write(old(View()), kernel, bytes).1
              case Took(t) => n == t
              case Again => n == -1 && again
              case Failed => n == -1 && !again
    {
      var reply := kernel(clock);
      clock := clock + 1;
      match reply
      case Took(t) =>
        var m := if t < |bytes| then t else |bytes|;
        wire := wire + bytes[..m];
        n, again := m, false;
      case Again => n, again := -1, true;
      case Failed => n, again := -1, false;
    }

    method SendqAdd(buf: string, pos: nat)
      requires Valid() && sd > 0 && pos < |buf|
      modifies `sendq
      ensures Valid() && View() == Add(old(View()), buf, pos)
    {
      sendq := sendq + [Entry(sd, buf, pos, |buf| - pos)];
    }

    /** One turn of the flushing loop. Every entry has a valid descriptor: none is
        queued without one. */
    method FlushHead() returns (r: int)
      requires Valid() && sendq != []
      modifies `sendq, `wire, `clock
      ensures Valid() && (View(), r) == FlushOne(old(View()), kernel)
    {
      var sq := sendq[0];
      var n, again := WriteTo(sq.buf[sq.pos..]);
      if n == -1 {
        return if again then 0 else -1;
      }
      if n == sq.len {
        sendq := sendq[1..];
        r := 1;
      } else {
        sendq := [sq.(pos := sq.pos + n, len := sq.len - n)] + sendq[1..];
        r := 0;
      }
    }

    method SendqFlush() returns (r: int)
      requires Valid()
      modifies `sendq, `wire, `clock
      ensures Valid() && (View(), r) == Flush(old(View()), kernel)
    {
      hide FlushOne;
      r := 1;
      while r == 1 && sendq != []
        invariant Valid()
        invariant (if r == 1 then Flush(View(), kernel) else (View(), r)) == Flush(old(View()), kernel)
        decreases |sendq|, r == 1
      {
        r := FlushHead();
      }
    }

    /** What `sendto_socket` and `send_line` do once they have the line. */
    method TransmitLine(line: string) returns (ok: bool)
      requires Valid() && sd > 0 && line != ""
      modifies `sendq, `wire, `clock
      ensures Valid() && (View(), ok) == Transmit(old(View()), kernel, line)
    {
      hide Flush, Write;
      var n := SendqFlush();
      if n == -1 {
        return false;
      }
      if n == 0 {
        SendqAdd(line, 0);
        return true;
      }
      ghost var flushed := View();
      var again;
      n, again := WriteTo(line);
      WriteFrame(flushed, kernel, line);
      if n == -1 {
        if again {
          SendqAdd(line, 0);
        }
        return again;
      }
      if n != |line| {
        SendqAdd(line, n);
      }
      ok := true;
    }

    method SendToSocket(text: string) returns (rc: int)
      requires Valid()
      modifies this
      ensures Valid() && (View(), rc) == SendTo(old(View()), kernel, text)
    {
      hide Transmit, Cut;
      if sd <= 0 {
        return 1;
      }
      var tmp := Cut(text, LINEBUF - 1);
      if '\n' !in tmp && |tmp| + 1 < LINEBUF {
        tmp := tmp + "\n";
      }
      assert tmp == WithLf(text);
      var ok := TransmitLine(tmp);
      if !ok {
        sd, dead := -1, true;
        return 1;
      }
      return 0;
    }

    method SendLineToUplink(text: string) returns (rc: int)
      requires Valid() && |WithCrLf(text)| < LINEBUF
      modifies this
      ensures Valid() && (View(), rc) == SendLine(old(View()), kernel, text)
    {
      hide Transmit;
      if sd <= 0 {
        return 0;
      }
      if dead {
        return 0;
      }
      var tmp := text;
      if '\r' !in tmp {
        tmp := tmp + "\r";
      }
      if '\n' !in tmp {
        tmp := tmp + "\n";
      }
      if |tmp| > MAXLINE {
        return -1;
      }
      var ok := TransmitLine(tmp);
      if !ok {
        sd, dead := -1, false;
        return 1;
      }
      return 0;
    }
  }
}
