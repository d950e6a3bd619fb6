/** What the client of the proxy scanner is told: each callback stands for its own event. */
module ScanReports {
  import opened CIntegers
  import opened ReplyReader
  import opened Connections
  import opened ScanModel
  import opened ScanAccounting
  import opened ScanOrder
  import opened ScanStates

  // ----- One reply -----

  /** A connection that is read wakeup after wakeup until it is closed. */
  function ReadAll(cfg: Config, scan: nat, c: Conn, bursts: seq<Burst>): Effect
    decreases |bursts|
  {
    if bursts == [] || c.state == Closed then Effect(c, [])
    else
      var e := AfterRead(cfg, scan, c, bursts[0]);
      var r := ReadAll(cfg, scan, e.conn, bursts[1..]);
      Effect(r.conn, e.calls + r.calls)
  }

  /** All wakeups but the last end because nothing more has come yet. */
  function Wakeups(chunks: seq<string>, tail: Tail): seq<Burst>
    requires chunks != []
  {
    if |chunks| == 1 then [Burst(chunks[0], tail)]
    else [Burst(chunks[0], WouldBlock)] + Wakeups(chunks[1..], tail)
  }

  /** Once something is reported, more bytes would not have changed it. */
  lemma ReportStays(cfg: Config, scan: nat, port: nat, heard: string, chunk: string, more: string, tail: Tail)
    requires Report(cfg, scan, port, heard, Burst(chunk, WouldBlock)) != []
    ensures Report(cfg, scan, port, heard, Burst(chunk + more, tail)) == Report(cfg, scan, port, heard, Burst(chunk, WouldBlock))
  {
    ReportIsVerdict(cfg, scan, port, heard, Burst(chunk, WouldBlock));
    ReportIsVerdict(cfg, scan, port, heard, Burst(chunk + more, tail));
    hide Report, Feed;
    assert heard + (chunk + more) == heard + chunk + more;
    FeedSplit(cfg.maxRead, cfg.targets, Reader(0, ""), heard + chunk, more);
  }

  lemma ReportLater(cfg: Config, scan: nat, port: nat, heard: string, chunk: string, more: string, tail: Tail)
    ensures Report(cfg, scan, port, heard + chunk, Burst(more, tail)) == Report(cfg, scan, port, heard, Burst(chunk + more, tail))
  {
    assert heard + (chunk + more) == heard + chunk + more;
    hide HasHit, Lines, Window, Stops;
  }

  lemma {:induction false} ReadAllReports(cfg: Config, scan: nat, c: Conn, heard: string, chunks: seq<string>, tail: Tail)
    requires chunks != [] && c.state != Closed && Reading(cfg, c.reader, heard)
    ensures ReadAll(cfg, scan, c, Wakeups(chunks, tail)).calls
         == Report(cfg, scan, c.port, heard, Burst(Concat(chunks), tail))
    decreases |chunks|
  {
    var bs := Wakeups(chunks, tail);
    var e := AfterRead(cfg, scan, c, bs[0]);
    ReadReports(cfg, scan, c, heard, bs[0]);
    hide AfterRead, Reading, Report;
    assert e.calls + [] == e.calls;
    if |chunks| == 1 {
      assert bs[1..] == [];
      assert Concat(chunks[1..]) == "" && chunks[0] + "" == chunks[0];
    } else {
      assert bs[1..] == Wakeups(chunks[1..], tail);
      var more := Concat(chunks[1..]);
      if e.calls == [] {
        ReadAllReports(cfg, scan, e.conn, heard + chunks[0], chunks[1..], tail);
        ReportLater(cfg, scan, c.port, heard, chunks[0], more, tail);
        var r := ReadAll(cfg, scan, e.conn, bs[1..]);
        assert [] + r.calls == r.calls;
      } else {
        ReportStays(cfg, scan, c.port, heard, chunks[0], more, tail);
      }
    }
  }

  /** However a reply is cut into wakeups, the client is told once and for all: the
      open proxy if and only if one of the lines within the limit holds a target,
      the limit if and only if none does and the limit is reached, the failure if
      and only if the peer is gone with neither, and otherwise nothing. */
  lemma ReplyReported(cfg: Config, scan: nat, c: Conn, chunks: seq<string>, tail: Tail)
    requires chunks != [] && c.state != Closed && c.reader == Reader(0, "")
    ensures var calls := ReadAll(cfg, scan, c, Wakeups(chunks, tail)).calls;
            var data := Concat(chunks);
            var hit := HasHit(Lines(Window(cfg.maxRead, data)), cfg.targets);
            && (calls == [OnOpenProxy(scan, c.port)] <==> hit)
            && (calls == [OnError(scan, c.port, MaxRead)] <==> !hit && Stops(cfg.maxRead, data))
            && (calls == [OnNegFail(scan, c.port)] <==> !hit && !Stops(cfg.maxRead, data) && tail != WouldBlock)
            && (calls == [] <==> !hit && !Stops(cfg.maxRead, data) && tail == WouldBlock)
  {
    ReadingNothing(cfg);
    ReadAllReports(cfg, scan, c, "", chunks, tail);
    hide HasHit, Lines, Window, Stops, ReadAll;
    assert "" + Concat(chunks) == Concat(chunks);
  }

  // ----- What happens to connections -----

  /** What a connection meets: the answers to the attempt, bytes, readiness to write,
      a hang-up, a look at the clock, and the client ending the scan. */
  datatype Stimulus = Tried(a: Attempt) | Heard(b: Burst) | Writable | Hangup | Clock(now: int) | Dropped

  /** One stimulus of one connection, or the end of a scan. */
  datatype Event = Event(scan: nat, slot: nat, port: nat, what: Stimulus) | Over(scan: nat)

  /** What one connection has met. */
  function Own(log: seq<Event>, scan: nat, slot: nat): seq<Stimulus> {
    if log == [] then []
    else
      var e := log[0];
      (if e.Event? && e.scan == scan && e.slot == slot then [e.what] else []) + Own(log[1..], scan, slot)
  }

  /** All bytes that have come. */
  function Bytes(past: seq<Stimulus>): string {
    if past == [] then ""
    else
      var last := past[|past| - 1];
      Bytes(past[..|past| - 1]) + if last.Heard? then last.b.data else ""
  }

  /** The reply, the limit or the end of the peer is reported. */
  predicate Ends(cfg: Config, heard: string, b: Burst) {
    || HasHit(Lines(Window(cfg.maxRead, heard + b.data)), cfg.targets)
    || Stops(cfg.maxRead, heard + b.data) || b.tail != WouldBlock
  }

  predicate UpAfter(cfg: Config, before: seq<Stimulus>, s: Stimulus)
    decreases |before|, 1
  {
    match s
    case Tried(a) => a.fd != -1 && !(cfg.bindIp && a.bindFails)
    case Heard(b) => Up(cfg, before) && !Ends(cfg, Bytes(before), b)
    case Writable => Up(cfg, before)
    case Clock(_) => Up(cfg, before)
    case _ => false
  }

  /** The connection was made and nothing has ended it. */
  predicate Up(cfg: Config, past: seq<Stimulus>)
    decreases |past|, 0
  {
    past != [] && UpAfter(cfg, past[..|past| - 1], past[|past| - 1])
  }

  /** When the connection was made. */
  function Since(past: seq<Stimulus>): int {
    if past == [] then 0
    else if past[|past| - 1].Tried? then past[|past| - 1].a.at
    else Since(past[..|past| - 1])
  }

  /** The descriptor that `socket` gave. */
  function Descriptor(past: seq<Stimulus>): int {
    if past == [] then 0
    else if past[|past| - 1].Tried? then past[|past| - 1].a.fd
    else Descriptor(past[..|past| - 1])
  }

  /** What the client is to be told about a stimulus, given what came before. */
  function Told(cfg: Config, scan: nat, port: nat, past: seq<Stimulus>, s: Stimulus): seq<Callback> {
    match s
    case Tried(a) =>
      if a.fd == -1 then [OnError(scan, port, NoFd)]
      else if cfg.bindIp && a.bindFails then [OnError(scan, port, Bind)]
      else []
    case Heard(b) => Report(cfg, scan, port, Bytes(past), b)
    case Hangup => [OnNegFail(scan, port)]
    case Clock(now) => if Up(cfg, past) && now - Since(past) >= cfg.timeout then [OnTimeout(scan, port)] else []
    case _ => []
  }

  function ToldOne(cfg: Config, done: seq<Event>, e: Event): seq<Callback> {
    match e
    case Event(scan, slot, port, what) => Told(cfg, scan, port, Own(done, scan, slot), what)
    case Over(scan) => [OnEnd(scan)]
  }

  /** What the client is to be told about `more`, after `done`. */
  function ToldFrom(cfg: Config, done: seq<Event>, more: seq<Event>): seq<Callback>
    decreases |more|
  {
    if more == [] then [] else ToldOne(cfg, done, more[0]) + ToldFrom(cfg, done + [more[0]], more[1..])
  }

  // ----- The events of a run -----

  function ConnEvent(scan: nat, c: Conn, s: Stimulus): Event {
    Event(scan, c.slot, c.port, s)
  }

  /** Connections that wait are tried as far as the budget goes. */
  function EstablishConnsLog(cfg: Config, env: Env, scan: nat, fdUse: nat, conns: seq<Conn>): seq<Event>
    decreases |conns|
  {
    if conns == [] then []
    else if fdUse < Limit(cfg) && conns[0].state == Unestablished then
      [ConnEvent(scan, conns[0], Tried(env.attempt(scan, conns[0].slot)))]
      + EstablishConnsLog(cfg, env, scan, ToUInt(fdUse + 1), conns[1..])
    else EstablishConnsLog(cfg, env, scan, fdUse, conns[1..])
  }

  function EstablishScansLog(cfg: Config, env: Env, fdUse: nat, scans: seq<Scan>): seq<Event>
    decreases |scans|
  {
    if scans == [] then []
    else
      EstablishConnsLog(cfg, env, scans[0].id, fdUse, scans[0].conns)
      + EstablishScansLog(cfg, env, EstablishConns(cfg, env, scans[0].id, fdUse, scans[0].conns).fdUse, scans[1..])
  }

  /** A poll entry reaches the connections that hold its descriptor and are not
      closed. */
  function HandleLog(env: Env, scan: nat, c: Conn, ufds: seq<PollFd>, k: nat): seq<Event>
    requires k < |ufds|
  {
    if ufds[k].fd != c.fd || c.state == Closed then []
    else
      var r := env.revents(k);
      (if r.pollIn then [ConnEvent(scan, c, Heard(env.burst(scan, c.slot, k)))] else [])
      + (if r.pollOut then [ConnEvent(scan, c, Writable)] else [])
      + (if r.pollHup then [ConnEvent(scan, c, Hangup)] else [])
  }

  function HandleFromLog(cfg: Config, env: Env, scan: nat, c: Conn, ufds: seq<PollFd>, k: nat): seq<Event>
    decreases |ufds| - k
  {
    if k >= |ufds| then []
    else
      HandleLog(env, scan, c, ufds, k) + HandleFromLog(cfg, env, scan, Handle(cfg, env, scan, c, ufds, k).conn, ufds, k + 1)
  }

  function PollConnsLog(cfg: Config, env: Env, scan: nat, conns: seq<Conn>, ufds: seq<PollFd>): seq<Event> {
    if conns == [] then []
    else HandleFromLog(cfg, env, scan, conns[0], ufds, 0) + PollConnsLog(cfg, env, scan, conns[1..], ufds)
  }

  function PollScansLog(cfg: Config, env: Env, scans: seq<Scan>, ufds: seq<PollFd>): seq<Event> {
    if scans == [] then []
    else PollConnsLog(cfg, env, scans[0].id, scans[0].conns, ufds) + PollScansLog(cfg, env, scans[1..], ufds)
  }

  /** The clock is looked at for every connection. */
  function CloseConnsLog(now: int, scan: nat, conns: seq<Conn>): seq<Event> {
    if conns == [] then [] else [ConnEvent(scan, conns[0], Clock(now))] + CloseConnsLog(now, scan, conns[1..])
  }

  /** A scan is over when its last connection has left. */
  function CloseScansLog(cfg: Config, now: int, fdUse: nat, scans: seq<Scan>): seq<Event>
    decreases |scans|
  {
    if scans == [] then []
    else
      var e := CloseConns(cfg, now, scans[0].id, fdUse, scans[0].conns);
      CloseConnsLog(now, scans[0].id, scans[0].conns) + (if e.conns == [] then [Over(scans[0].id)] else [])
      + CloseScansLog(cfg, now, e.fdUse, scans[1..])
  }

  function DropConnsLog(scan: nat, conns: seq<Conn>): seq<Event> {
    if conns == [] then [] else [ConnEvent(scan, conns[0], Dropped)] + DropConnsLog(scan, conns[1..])
  }

  function EndLiveLog(remote: nat, scans: seq<Scan>): seq<Event> {
    if scans == [] then []
    else (if scans[0].remote == remote then DropConnsLog(scans[0].id, scans[0].conns) else []) + EndLiveLog(remote, scans[1..])
  }

  function EndQueuedLog(remote: nat, queue: seq<Scan>): seq<Event> {
    if queue == [] then []
    else (if queue[0].remote == remote then [Over(queue[0].id)] else []) + EndQueuedLog(remote, queue[1..])
  }

  function PollLog(cfg: Config, env: Env, cap: nat, s: State): seq<Event> {
    if env.pollResult == -1 || env.pollResult == 0 then [] else PollScansLog(cfg, env, s.live, Capped(cap, Entries(s.live)))
  }

  function CycleLog(cfg: Config, env: Env, cap: nat, s: State): seq<Event> {
    var q := CheckQueue(cfg, s);
    var e := CheckEstablish(cfg, env, q);
    var p := CheckPoll(cfg, env, cap, e);
    EstablishScansLog(cfg, env, q.fdUse, q.live) + (PollLog(cfg, env, cap, e) + CloseScansLog(cfg, env.now, p.fdUse, p.live))
  }

  function StepLog(cfg: Config, s: State, a: Action): seq<Event> {
    match a
    case DoScan(_, _, _) => []
    case DoCycle(env, cap) => CycleLog(cfg, env, cap, s)
    case DoEndScan(remote) => EndLiveLog(remote, s.live)
    case DoEnd(remote) => EndLiveLog(remote, s.live) + EndQueuedLog(remote, s.queue)
  }

  /** Everything that happens in a run. */
  function Log(cfg: Config, s: State, actions: seq<Action>): seq<Event>
    decreases |actions|
  {
    if actions == [] then [] else StepLog(cfg, s, actions[0]) + Log(cfg, Step(cfg, s, actions[0]), actions[1..])
  }

  // ----- Logs -----

  lemma {:induction false} OwnAppend(a: seq<Event>, b: seq<Event>, scan: nat, slot: nat)
    ensures Own(a + b, scan, slot) == Own(a, scan, slot) + Own(b, scan, slot)
  {
    if a == [] {
      assert a + b == b;
    } else {
      assert (a + b)[1..] == a[1..] + b;
      OwnAppend(a[1..], b, scan, slot);
    }
  }

  lemma {:induction false} ToldSplit(cfg: Config, done: seq<Event>, a: seq<Event>, b: seq<Event>)
    ensures ToldFrom(cfg, done, a + b) == ToldFrom(cfg, done, a) + ToldFrom(cfg, done + a, b)
    decreases |a|
  {
    hide ToldOne;
    if a == [] {
      assert a + b == b && done + a == done;
    } else {
      assert (a + b)[1..] == a[1..] + b;
      ToldSplit(cfg, done + [a[0]], a[1..], b);
      assert done + [a[0]] + a[1..] == done + a;
    }
  }

  lemma ToldNothing(cfg: Config, done: seq<Event>)
    ensures ToldFrom(cfg, done, []) == []
  {
  }

  lemma ToldSingle(cfg: Config, done: seq<Event>, e: Event)
    ensures ToldFrom(cfg, done, [e]) == ToldOne(cfg, done, e)
  {
    hide ToldOne;
    assert [e][1..] == [];
    ToldNothing(cfg, done + [e]);
  }

  /** The events are about these connections of the scan. */
  predicate About(log: seq<Event>, scan: nat, slots: set<nat>) {
    forall i :: 0 <= i < |log| ==> log[i].Event? && log[i].scan == scan && log[i].slot in slots
  }

  predicate AboutScans(log: seq<Event>, ids: set<nat>) {
    forall i :: 0 <= i < |log| ==> log[i].scan in ids
  }

  lemma {:induction false} OwnElsewhere(log: seq<Event>, scan: nat, slot: nat)
    requires forall i :: 0 <= i < |log| ==> !(log[i].Event? && log[i].scan == scan && log[i].slot == slot)
    ensures Own(log, scan, slot) == []
  {
    if log != [] {
      OwnElsewhere(log[1..], scan, slot);
    }
  }

  // ----- The record of a connection and what it has met -----

  predicate Tracks(cfg: Config, past: seq<Stimulus>, c: Conn) {
    && (c.state == Unestablished <==> past == [])
    && (c.state == Unestablished ==> c.reader == Reader(0, ""))
    && (Pollable(c) <==> Up(cfg, past))
    && (Up(cfg, past) ==>
          c.creation == Since(past) && c.fd == Descriptor(past) && (c.state == NegSent <==> Writable in past)
          && Reading(cfg, c.reader, Bytes(past)))
  }

  lemma PastSnoc(cfg: Config, past: seq<Stimulus>, s: Stimulus)
    ensures var now := past + [s];
            && Bytes(now) == Bytes(past) + (if s.Heard? then s.b.data else "")
            && Since(now) == (if s.Tried? then s.a.at else Since(past))
            && Descriptor(now) == (if s.Tried? then s.a.fd else Descriptor(past))
            && (Up(cfg, now) <==> UpAfter(cfg, past, s))
  {
    hide Ends;
    var now := past + [s];
    assert now[..|now| - 1] == past && now[|now| - 1] == s;
  }

  lemma EndsIsReport(cfg: Config, scan: nat, port: nat, heard: string, b: Burst)
    ensures Ends(cfg, heard, b) <==> Report(cfg, scan, port, heard, b) != []
  {
    hide HasHit, Stops, Lines, Window;
  }

  lemma TriedTracks(cfg: Config, scan: nat, c: Conn, a: Attempt)
    requires c.state == Unestablished && Tracks(cfg, [], c)
    ensures var e := AfterConnect(cfg, scan, c, a);
            && e.calls == Told(cfg, scan, c.port, [], Tried(a)) && Tracks(cfg, [Tried(a)], e.conn)
            && e.conn.slot == c.slot && e.conn.port == c.port
  {
    PastSnoc(cfg, [], Tried(a));
    assert [] + [Tried(a)] == [Tried(a)] && Bytes([]) + "" == "";
    ReadingNothing(cfg);
    hide Reading, Up, Bytes, Since, Descriptor;
  }

  lemma HeardTracks(cfg: Config, scan: nat, c: Conn, past: seq<Stimulus>, b: Burst)
    requires Pollable(c) && Tracks(cfg, past, c)
    ensures var e := AfterRead(cfg, scan, c, b);
            && e.calls == Told(cfg, scan, c.port, past, Heard(b)) && Tracks(cfg, past + [Heard(b)], e.conn)
            && e.conn == c.(reader := e.conn.reader, state := e.conn.state) && e.conn.state != Unestablished
  {
    hide Reading, Up, Bytes, Since, Descriptor, AfterRead, Report, Ends;
    ReadReports(cfg, scan, c, Bytes(past), b);
    PastSnoc(cfg, past, Heard(b));
    EndsIsReport(cfg, scan, c.port, Bytes(past), b);
  }

  lemma WritableTracks(cfg: Config, c: Conn, past: seq<Stimulus>)
    requires Pollable(c) && Tracks(cfg, past, c)
    ensures Tracks(cfg, past + [Writable], AfterWrite(c)) && Pollable(AfterWrite(c))
  {
    PastSnoc(cfg, past, Writable);
    assert Bytes(past) + "" == Bytes(past);
    hide Reading, Up, Bytes, Since, Descriptor;
  }

  /** After a hang-up, and after the client has ended the scan. */
  lemma ClosedTracks(cfg: Config, c: Conn, past: seq<Stimulus>, s: Stimulus)
    requires s == Hangup || s == Dropped
    ensures Tracks(cfg, past + [s], c.(state := Closed))
  {
    PastSnoc(cfg, past, s);
    hide Reading, Up, Bytes, Since, Descriptor;
  }

  lemma ClockTracks(cfg: Config, now: int, c: Conn, past: seq<Stimulus>)
    requires c.state != Unestablished && Tracks(cfg, past, c)
    ensures Tracks(cfg, past + [Clock(now)], c)
  {
    PastSnoc(cfg, past, Clock(now));
    assert Bytes(past) + "" == Bytes(past);
    hide Reading, Up, Bytes, Since, Descriptor;
  }

  // ----- Connections one after the other -----

  function Slots(conns: seq<Conn>): set<nat> {
    set j | 0 <= j < |conns| :: conns[j].slot
  }

  /** The connections have different slots. */
  predicate Apart(conns: seq<Conn>) {
    conns == [] || (conns[0].slot !in Slots(conns[1..]) && Apart(conns[1..]))
  }

  predicate TracksAll(cfg: Config, log: seq<Event>, scan: nat, conns: seq<Conn>) {
    forall j :: 0 <= j < |conns| ==> Tracks(cfg, Own(log, scan, conns[j].slot), conns[j])
  }

  /** The connections `b` are what becomes of `a` by the events `log`, of which the
      client is told what is to be told. */
  ghost predicate Moves(cfg: Config, done: seq<Event>, scan: nat, a: seq<Conn>, b: seq<Conn>,
                        log: seq<Event>, calls: seq<Callback>) {
    && calls == ToldFrom(cfg, done, log)
    && TracksAll(cfg, done + log, scan, b) && Apart(b) && Slots(b) <= Slots(a)
    && About(log, scan, Slots(a))
  }

  lemma SlotsCons(conns: seq<Conn>)
    requires conns != []
    ensures Slots(conns) == {conns[0].slot} + Slots(conns[1..])
  {
    assert forall j :: 0 < j < |conns| ==> conns[j] == conns[1..][j - 1];
  }

  lemma SlotsOne(c: Conn)
    ensures Slots([c]) == {c.slot} && Apart([c]) && Slots([]) == {} && Apart([])
  {
    assert [c][0].slot in Slots([c]);
    assert [c][1..] == [];
  }

  lemma {:induction false} SlotsAppend(a: seq<Conn>, b: seq<Conn>)
    ensures Slots(a + b) == Slots(a) + Slots(b)
  {
    forall x | x in Slots(b)
      ensures x in Slots(a + b)
    {
      var j :| 0 <= j < |b| && b[j].slot == x;
      assert (a + b)[|a| + j].slot == x;
    }
    assert forall j :: 0 <= j < |a| ==> (a + b)[j] == a[j];
  }

  /** What is not met by a connection does not disturb it. */
  lemma TracksStill(cfg: Config, log: seq<Event>, more: seq<Event>, scan: nat, conns: seq<Conn>)
    requires TracksAll(cfg, log, scan, conns)
    requires forall i :: 0 <= i < |more| ==> !(more[i].Event? && more[i].scan == scan && more[i].slot in Slots(conns))
    ensures TracksAll(cfg, log + more, scan, conns)
  {
    hide Tracks, Own;
    forall j | 0 <= j < |conns|
      ensures Tracks(cfg, Own(log + more, scan, conns[j].slot), conns[j])
    {
      var slot := conns[j].slot;
      assert slot in Slots(conns);
      OwnAppend(log, more, scan, slot);
      OwnElsewhere(more, scan, slot);
      assert Own(log, scan, slot) + [] == Own(log, scan, slot);
    }
  }

  lemma ApartAppend(a: seq<Conn>, b: seq<Conn>)
    requires |a| <= 1 && Apart(b) && Slots(a) !! Slots(b)
    ensures Apart(a + b)
  {
    if a == [] {
      assert a + b == b;
    } else {
      assert (a + b)[1..] == b && a[0].slot in Slots(a);
    }
  }

  lemma TracksAppend(cfg: Config, log: seq<Event>, scan: nat, a: seq<Conn>, b: seq<Conn>)
    requires TracksAll(cfg, log, scan, a) && TracksAll(cfg, log, scan, b)
    ensures TracksAll(cfg, log, scan, a + b)
  {
    hide Tracks, Own;
  }

  lemma AboutBoth(a: seq<Event>, b: seq<Event>, scan: nat, s: set<nat>, t: set<nat>)
    requires About(a, scan, s) && About(b, scan, t)
    ensures About(a + b, scan, s + t)
  {
  }

  /** One connection, then the others. */
  lemma MovesCons(cfg: Config, done: seq<Event>, scan: nat, conns: seq<Conn>,
                  x: seq<Conn>, log0: seq<Event>, calls0: seq<Callback>,
                  rest: seq<Conn>, log1: seq<Event>, calls1: seq<Callback>)
    requires conns != [] && Apart(conns) && |x| <= 1
    requires Moves(cfg, done, scan, [conns[0]], x, log0, calls0)
    requires Moves(cfg, done + log0, scan, conns[1..], rest, log1, calls1)
    ensures Moves(cfg, done, scan, conns, x + rest, log0 + log1, calls0 + calls1)
  {
    hide Tracks, TracksAll, ToldFrom;
    SlotsCons(conns);
    SlotsOne(conns[0]);
    hide Slots;
    ToldSplit(cfg, done, log0, log1);
    assert done + (log0 + log1) == done + log0 + log1;
    TracksStill(cfg, done + log0, log1, scan, x);
    TracksAppend(cfg, done + log0 + log1, scan, x, rest);
    SlotsAppend(x, rest);
    ApartAppend(x, rest);
    AboutBoth(log0, log1, scan, {conns[0].slot}, Slots(conns[1..]));
  }

  lemma MovesNone(cfg: Config, done: seq<Event>, scan: nat)
    ensures Moves(cfg, done, scan, [], [], [], [])
  {
    ToldNothing(cfg, done);
  }

  /** One connection that meets nothing. */
  lemma MovesStill(cfg: Config, done: seq<Event>, scan: nat, c: Conn)
    requires Tracks(cfg, Own(done, scan, c.slot), c)
    ensures Moves(cfg, done, scan, [c], [c], [], [])
  {
    ToldNothing(cfg, done);
    SlotsOne(c);
    hide Tracks, Own, Slots, Apart;
    assert done + [] == done;
  }

  lemma OwnSingle(e: Event)
    requires e.Event?
    ensures Own([e], e.scan, e.slot) == [e.what]
  {
    assert [e][1..] == [] && Own([], e.scan, e.slot) == [];
    assert [e.what] + [] == [e.what];
  }

  /** One connection that meets one thing, and stays as `d` or leaves. */
  lemma MovesOne(cfg: Config, done: seq<Event>, scan: nat, c: Conn, s: Stimulus, d: Conn, x: seq<Conn>, calls: seq<Callback>)
    requires d.slot == c.slot && (x == [d] || x == [])
    requires calls == Told(cfg, scan, c.port, Own(done, scan, c.slot), s)
    requires x == [d] ==> Tracks(cfg, Own(done, scan, c.slot) + [s], d)
    ensures Own(done + [ConnEvent(scan, c, s)], scan, c.slot) == Own(done, scan, c.slot) + [s]
    ensures Moves(cfg, done, scan, [c], x, [ConnEvent(scan, c, s)], calls)
  {
    hide Tracks, Told;
    var e := ConnEvent(scan, c, s);
    ToldSingle(cfg, done, e);
    OwnAppend(done, [e], scan, c.slot);
    OwnSingle(e);
    SlotsOne(c);
    SlotsOne(d);
    hide Own, ToldFrom, Slots, Apart;
  }

  // ----- Establishing -----

  lemma HeadTracks(cfg: Config, log: seq<Event>, scan: nat, conns: seq<Conn>)
    requires conns != [] && TracksAll(cfg, log, scan, conns)
    ensures Tracks(cfg, Own(log, scan, conns[0].slot), conns[0]) && TracksAll(cfg, log, scan, conns[1..])
  {
    hide Tracks, Own;
  }

  /** What the first connection meets does not disturb the others. */
  lemma RestTracks(cfg: Config, log: seq<Event>, more: seq<Event>, scan: nat, conns: seq<Conn>)
    requires conns != [] && Apart(conns) && TracksAll(cfg, log, scan, conns) && About(more, scan, {conns[0].slot})
    ensures TracksAll(cfg, log + more, scan, conns[1..])
  {
    hide Tracks, Own;
    HeadTracks(cfg, log, scan, conns);
    hide TracksAll;
    TracksStill(cfg, log, more, scan, conns[1..]);
  }

  lemma AboutFirst(log: seq<Event>, scan: nat, c: Conn)
    requires About(log, scan, Slots([c]))
    ensures About(log, scan, {c.slot})
  {
  }

  lemma UntouchedPast(cfg: Config, past: seq<Stimulus>, c: Conn)
    requires Tracks(cfg, past, c) && c.state == Unestablished
    ensures past == []
  {
  }

  /** The others, after what the first one has met. */
  lemma MovesRest(cfg: Config, done: seq<Event>, log0: seq<Event>, scan: nat, conns: seq<Conn>, x: seq<Conn>, calls0: seq<Callback>)
    requires conns != [] && Apart(conns) && TracksAll(cfg, done, scan, conns)
    requires Moves(cfg, done, scan, [conns[0]], x, log0, calls0)
    ensures Apart(conns[1..]) && TracksAll(cfg, done + log0, scan, conns[1..])
  {
    hide TracksAll, Slots, ToldFrom;
    AboutFirst(log0, scan, conns[0]);
    RestTracks(cfg, done, log0, scan, conns);
  }

  lemma {:induction false} EstablishConnsTold(cfg: Config, env: Env, scan: nat, fdUse: nat, conns: seq<Conn>, done: seq<Event>)
    requires TracksAll(cfg, done, scan, conns) && Apart(conns)
    ensures var r := EstablishConns(cfg, env, scan, fdUse, conns);
            Moves(cfg, done, scan, conns, r.conns, EstablishConnsLog(cfg, env, scan, fdUse, conns), r.calls)
    decreases |conns|
  {
    hide Tracks, TracksAll, Apart, Moves, Own, AfterConnect, Told;
    if conns == [] {
      MovesNone(cfg, done, scan);
    } else {
      var c := conns[0];
      HeadTracks(cfg, done, scan, conns);
      if fdUse < Limit(cfg) && c.state == Unestablished {
        var a := env.attempt(scan, c.slot);
        var e := AfterConnect(cfg, scan, c, a);
        UntouchedPast(cfg, Own(done, scan, c.slot), c);
        TriedTracks(cfg, scan, c, a);
        assert [] + [Tried(a)] == [Tried(a)];
        MovesOne(cfg, done, scan, c, Tried(a), e.conn, [e.conn], e.calls);
        var log0 := [ConnEvent(scan, c, Tried(a))];
        MovesRest(cfg, done, log0, scan, conns, [e.conn], e.calls);
        EstablishConnsTold(cfg, env, scan, ToUInt(fdUse + 1), conns[1..], done + log0);
        var r := EstablishConns(cfg, env, scan, ToUInt(fdUse + 1), conns[1..]);
        MovesCons(cfg, done, scan, conns, [e.conn], log0, e.calls,
                  r.conns, EstablishConnsLog(cfg, env, scan, ToUInt(fdUse + 1), conns[1..]), r.calls);
      } else {
        MovesStill(cfg, done, scan, c);
        MovesRest(cfg, done, [], scan, conns, [c], []);
        assert done + [] == done;
        EstablishConnsTold(cfg, env, scan, fdUse, conns[1..], done);
        var r := EstablishConns(cfg, env, scan, fdUse, conns[1..]);
        var log1 := EstablishConnsLog(cfg, env, scan, fdUse, conns[1..]);
        MovesCons(cfg, done, scan, conns, [c], [], [], r.conns, log1, r.calls);
        assert [] + log1 == log1 && [] + r.calls == r.calls;
      }
    }
  }

  // ----- Polling -----

  lemma Meets(cfg: Config, done: seq<Event>, scan: nat, c: Conn, s: Stimulus)
    ensures Own(done + [ConnEvent(scan, c, s)], scan, c.slot) == Own(done, scan, c.slot) + [s]
    ensures ToldFrom(cfg, done, [ConnEvent(scan, c, s)]) == Told(cfg, scan, c.port, Own(done, scan, c.slot), s)
  {
    var e := ConnEvent(scan, c, s);
    ToldSingle(cfg, done, e);
    OwnAppend(done, [e], scan, c.slot);
    OwnSingle(e);
    hide Own, Told, ToldFrom;
  }

  /** `d` is the connection `c` after the events `log`. */
  ghost predicate Became(cfg: Config, done: seq<Event>, scan: nat, c: Conn, d: Conn, log: seq<Event>, calls: seq<Callback>) {
    && calls == ToldFrom(cfg, done, log) && Tracks(cfg, Own(done + log, scan, c.slot), d)
    && d.slot == c.slot && d.port == c.port && d.fd == c.fd && d.state != Unestablished
    && About(log, scan, {c.slot})
  }

  lemma BecameThen(cfg: Config, done: seq<Event>, scan: nat, c: Conn, d: Conn, e: Conn,
                   log0: seq<Event>, calls0: seq<Callback>, log1: seq<Event>, calls1: seq<Callback>)
    requires Became(cfg, done, scan, c, d, log0, calls0) && Became(cfg, done + log0, scan, d, e, log1, calls1)
    ensures Became(cfg, done, scan, c, e, log0 + log1, calls0 + calls1)
  {
    hide Tracks, Own, ToldFrom;
    ToldSplit(cfg, done, log0, log1);
    assert done + (log0 + log1) == done + log0 + log1;
  }

  lemma BecameSame(cfg: Config, done: seq<Event>, scan: nat, c: Conn)
    requires Tracks(cfg, Own(done, scan, c.slot), c) && c.state != Unestablished
    ensures Became(cfg, done, scan, c, c, [], [])
  {
    hide Tracks, Own;
    ToldNothing(cfg, done);
    assert done + [] == done;
  }

  /** A readable connection. */
  lemma ReadBecomes(cfg: Config, env: Env, scan: nat, c: Conn, k: nat, done: seq<Event>)
    requires Tracks(cfg, Own(done, scan, c.slot), c) && Pollable(c)
    ensures var b := env.burst(scan, c.slot, k);
            var e := AfterRead(cfg, scan, c, b);
            Became(cfg, done, scan, c, e.conn, [ConnEvent(scan, c, Heard(b))], e.calls)
  {
    hide Tracks, Own, AfterRead, Told, ToldFrom;
    var b := env.burst(scan, c.slot, k);
    HeardTracks(cfg, scan, c, Own(done, scan, c.slot), b);
    Meets(cfg, done, scan, c, Heard(b));
  }

  lemma WriteBecomes(cfg: Config, scan: nat, c: Conn, done: seq<Event>)
    requires Tracks(cfg, Own(done, scan, c.slot), c) && Pollable(c)
    ensures Became(cfg, done, scan, c, AfterWrite(c), [ConnEvent(scan, c, Writable)], [])
  {
    hide Tracks, Own, ToldFrom;
    WritableTracks(cfg, c, Own(done, scan, c.slot));
    Meets(cfg, done, scan, c, Writable);
  }

  lemma HangupBecomes(cfg: Config, scan: nat, c: Conn, done: seq<Event>)
    ensures Became(cfg, done, scan, c, AfterHup(scan, c).conn, [ConnEvent(scan, c, Hangup)], AfterHup(scan, c).calls)
  {
    hide Tracks, Own, ToldFrom;
    ClosedTracks(cfg, c, Own(done, scan, c.slot), Hangup);
    Meets(cfg, done, scan, c, Hangup);
  }

  lemma OpenIsPollable(cfg: Config, past: seq<Stimulus>, c: Conn)
    requires c.state != Unestablished && c.state != Closed
    ensures Pollable(c)
  {
  }

  lemma BecameParts(cfg: Config, done: seq<Event>, scan: nat, c: Conn, d: Conn, log: seq<Event>, calls: seq<Callback>)
    requires Became(cfg, done, scan, c, d, log, calls)
    ensures Tracks(cfg, Own(done + log, scan, c.slot), d) && d.slot == c.slot && d.port == c.port && d.state != Unestablished
  {
  }

  lemma HandleTold(cfg: Config, env: Env, scan: nat, c: Conn, ufds: seq<PollFd>, k: nat, done: seq<Event>)
    requires Tracks(cfg, Own(done, scan, c.slot), c) && c.state != Unestablished
    requires k < |ufds| && Answers(env, ufds)
    ensures var e := Handle(cfg, env, scan, c, ufds, k);
            Became(cfg, done, scan, c, e.conn, HandleLog(env, scan, c, ufds, k), e.calls)
  {
    hide Tracks, Own, AfterRead, AfterWrite, AfterHup, Became;
    BecameSame(cfg, done, scan, c);
    if ufds[k].fd == c.fd && c.state != Closed {
      var r := env.revents(k);
      var b := env.burst(scan, c.slot, k);
      var e1 := if r.pollIn then AfterRead(cfg, scan, c, b) else Effect(c, []);
      var log1 := if r.pollIn then [ConnEvent(scan, c, Heard(b))] else [];
      var c2 := if r.pollOut then AfterWrite(e1.conn) else e1.conn;
      var log2 := if r.pollOut then [ConnEvent(scan, c, Writable)] else [];
      var e3 := if r.pollHup then AfterHup(scan, c2) else Effect(c2, []);
      var log3 := if r.pollHup then [ConnEvent(scan, c, Hangup)] else [];
      if r.pollIn {
        ReadBecomes(cfg, env, scan, c, k, done);
      }
      BecameParts(cfg, done, scan, c, e1.conn, log1, e1.calls);
      assert r.pollIn ==> !r.pollOut;
      if r.pollOut {
        WriteBecomes(cfg, scan, c, done);
        assert done + [] == done;
      } else {
        BecameSame(cfg, done + log1, scan, e1.conn);
      }
      BecameThen(cfg, done, scan, c, e1.conn, c2, log1, e1.calls, log2, []);
      assert e1.calls + [] == e1.calls;
      BecameParts(cfg, done, scan, c, c2, log1 + log2, e1.calls);
      if r.pollHup {
        HangupBecomes(cfg, scan, c2, done + (log1 + log2));
      } else {
        BecameSame(cfg, done + (log1 + log2), scan, c2);
      }
      BecameThen(cfg, done, scan, c, c2, e3.conn, log1 + log2, e1.calls, log3, e3.calls);
    }
  }

  lemma {:induction false} HandleFromTold(cfg: Config, env: Env, scan: nat, c: Conn, ufds: seq<PollFd>, k: nat, done: seq<Event>)
    requires Tracks(cfg, Own(done, scan, c.slot), c) && c.state != Unestablished && Answers(env, ufds)
    ensures var e := HandleFrom(cfg, env, scan, c, ufds, k);
            Became(cfg, done, scan, c, e.conn, HandleFromLog(cfg, env, scan, c, ufds, k), e.calls)
    decreases |ufds| - k
  {
    hide Tracks, Own, Handle, HandleLog, Became, Answers;
    if k >= |ufds| {
      BecameSame(cfg, done, scan, c);
    } else {
      var e, log0 := Handle(cfg, env, scan, c, ufds, k), HandleLog(env, scan, c, ufds, k);
      HandleTold(cfg, env, scan, c, ufds, k, done);
      BecameParts(cfg, done, scan, c, e.conn, log0, e.calls);
      HandleFromTold(cfg, env, scan, e.conn, ufds, k + 1, done + log0);
      var r := HandleFrom(cfg, env, scan, e.conn, ufds, k + 1);
      BecameThen(cfg, done, scan, c, e.conn, r.conn, log0, e.calls,
                 HandleFromLog(cfg, env, scan, e.conn, ufds, k + 1), r.calls);
    }
  }

  lemma BecameMoves(cfg: Config, done: seq<Event>, scan: nat, c: Conn, d: Conn, log: seq<Event>, calls: seq<Callback>)
    requires Became(cfg, done, scan, c, d, log, calls)
    ensures Moves(cfg, done, scan, [c], [d], log, calls)
  {
    SlotsOne(c);
    SlotsOne(d);
    hide Tracks, Own, ToldFrom, Slots, Apart;
  }

  lemma {:induction false} PollConnsTold(cfg: Config, env: Env, scan: nat, conns: seq<Conn>, ufds: seq<PollFd>, done: seq<Event>)
    requires TracksAll(cfg, done, scan, conns) && Apart(conns) && Answers(env, ufds)
    requires Attempted(conns) == |conns|
    ensures var r := PollConns(cfg, env, scan, conns, ufds);
            Moves(cfg, done, scan, conns, r.conns, PollConnsLog(cfg, env, scan, conns, ufds), r.calls)
  {
    hide Tracks, TracksAll, Apart, Moves, Own, Became, HandleFrom, HandleFromLog, Answers;
    if conns == [] {
      MovesNone(cfg, done, scan);
    } else {
      var c := conns[0];
      HeadTracks(cfg, done, scan, conns);
      var e, log0 := HandleFrom(cfg, env, scan, c, ufds, 0), HandleFromLog(cfg, env, scan, c, ufds, 0);
      HandleFromTold(cfg, env, scan, c, ufds, 0, done);
      BecameMoves(cfg, done, scan, c, e.conn, log0, e.calls);
      MovesRest(cfg, done, log0, scan, conns, [e.conn], e.calls);
      PollConnsTold(cfg, env, scan, conns[1..], ufds, done + log0);
      var r := PollConns(cfg, env, scan, conns[1..], ufds);
      MovesCons(cfg, done, scan, conns, [e.conn], log0, e.calls,
                r.conns, PollConnsLog(cfg, env, scan, conns[1..], ufds), r.calls);
    }
  }

  // ----- Reaping and ending -----

  lemma ClockTold(cfg: Config, now: int, scan: nat, c: Conn, past: seq<Stimulus>)
    requires Tracks(cfg, past, c) && c.state != Unestablished
    ensures Told(cfg, scan, c.port, past, Clock(now))
         == if c.state != Closed && TimedOut(cfg, now, c) then [OnTimeout(scan, c.port)] else []
  {
    hide Up, Since, Reading;
  }

  lemma {:induction false} CloseConnsTold(cfg: Config, now: int, scan: nat, fdUse: nat, conns: seq<Conn>, done: seq<Event>)
    requires TracksAll(cfg, done, scan, conns) && Apart(conns) && Attempted(conns) == |conns|
    ensures var r := CloseConns(cfg, now, scan, fdUse, conns);
            Moves(cfg, done, scan, conns, r.conns, CloseConnsLog(now, scan, conns), r.calls)
    decreases |conns|
  {
    hide Tracks, TracksAll, Apart, Moves, Own, Told, ToldFrom;
    if conns == [] {
      MovesNone(cfg, done, scan);
    } else {
      var c := conns[0];
      HeadTracks(cfg, done, scan, conns);
      ClockTold(cfg, now, scan, c, Own(done, scan, c.slot));
      ClockTracks(cfg, now, c, Own(done, scan, c.slot));
      var calls0 := if c.state != Closed && TimedOut(cfg, now, c) then [OnTimeout(scan, c.port)] else [];
      var x := if Reaped(cfg, now, c) then [] else [c];
      var log0 := [ConnEvent(scan, c, Clock(now))];
      MovesOne(cfg, done, scan, c, Clock(now), c, x, calls0);
      MovesRest(cfg, done, log0, scan, conns, x, calls0);
      var use := if Reaped(cfg, now, c) then ToUInt(fdUse - 1) else fdUse;
      CloseConnsTold(cfg, now, scan, use, conns[1..], done + log0);
      var r := CloseConns(cfg, now, scan, use, conns[1..]);
      MovesCons(cfg, done, scan, conns, x, log0, calls0, r.conns, CloseConnsLog(now, scan, conns[1..]), r.calls);
      assert [] + r.conns == r.conns && [] + r.calls == r.calls;
    }
  }

  lemma NoCalls()
    ensures var none: seq<Callback> := []; none + none == none
  {
  }

  lemma {:induction false} DropConnsTold(cfg: Config, scan: nat, conns: seq<Conn>, done: seq<Event>)
    requires TracksAll(cfg, done, scan, conns) && Apart(conns)
    ensures Moves(cfg, done, scan, conns, CloseAll(conns), DropConnsLog(scan, conns), [])
  {
    hide Tracks, TracksAll, Apart, Moves, Own, ToldFrom;
    if conns == [] {
      MovesNone(cfg, done, scan);
    } else {
      var c := conns[0];
      var d := c.(state := Closed);
      ClosedTracks(cfg, c, Own(done, scan, c.slot), Dropped);
      var log0 := [ConnEvent(scan, c, Dropped)];
      MovesOne(cfg, done, scan, c, Dropped, d, [d], []);
      MovesRest(cfg, done, log0, scan, conns, [d], []);
      DropConnsTold(cfg, scan, conns[1..], done + log0);
      MovesCons(cfg, done, scan, conns, [d], log0, [], CloseAll(conns[1..]), DropConnsLog(scan, conns[1..]), []);
      NoCalls();
    }
  }

  // ----- Scans one after the other -----

  function IdSet(scans: seq<Scan>): set<nat> {
    set i | 0 <= i < |scans| :: scans[i].id
  }

  predicate ApartScans(scans: seq<Scan>) {
    scans == [] || (scans[0].id !in IdSet(scans[1..]) && ApartScans(scans[1..]))
  }

  predicate ScanTracked(cfg: Config, log: seq<Event>, x: Scan) {
    TracksAll(cfg, log, x.id, x.conns) && Apart(x.conns)
  }

  predicate ScansTracked(cfg: Config, log: seq<Event>, scans: seq<Scan>) {
    forall i :: 0 <= i < |scans| ==> ScanTracked(cfg, log, scans[i])
  }

  /** The scans `b` are what becomes of `a` by the events `log`. */
  ghost predicate ScansMove(cfg: Config, done: seq<Event>, a: seq<Scan>, b: seq<Scan>, log: seq<Event>, calls: seq<Callback>) {
    && calls == ToldFrom(cfg, done, log) && ScansTracked(cfg, done + log, b)
    && IdSet(b) <= IdSet(a) && AboutScans(log, IdSet(a))
  }

  lemma IdSetCons(scans: seq<Scan>)
    requires scans != []
    ensures IdSet(scans) == {scans[0].id} + IdSet(scans[1..])
  {
    assert forall j :: 0 < j < |scans| ==> scans[j] == scans[1..][j - 1];
  }

  lemma IdSetOne(x: Scan)
    ensures IdSet([x]) == {x.id} && IdSet([]) == {}
  {
    assert [x][0].id in IdSet([x]);
  }

  lemma IdSetAppend(a: seq<Scan>, b: seq<Scan>)
    ensures IdSet(a + b) == IdSet(a) + IdSet(b)
  {
    forall x | x in IdSet(b)
      ensures x in IdSet(a + b)
    {
      var j :| 0 <= j < |b| && b[j].id == x;
      assert (a + b)[|a| + j].id == x;
    }
    assert forall j :: 0 <= j < |a| ==> (a + b)[j] == a[j];
  }

  lemma ScansStill(cfg: Config, log: seq<Event>, more: seq<Event>, scans: seq<Scan>, ids: set<nat>)
    requires ScansTracked(cfg, log, scans) && AboutScans(more, ids) && IdSet(scans) !! ids
    ensures ScansTracked(cfg, log + more, scans)
  {
    hide TracksAll;
    forall i | 0 <= i < |scans|
      ensures ScanTracked(cfg, log + more, scans[i])
    {
      assert scans[i].id in IdSet(scans) && ScanTracked(cfg, log, scans[i]);
      TracksStill(cfg, log, more, scans[i].id, scans[i].conns);
    }
  }

  lemma ScansTrackedBoth(cfg: Config, log: seq<Event>, a: seq<Scan>, b: seq<Scan>)
    ensures ScansTracked(cfg, log, a + b) <==> ScansTracked(cfg, log, a) && ScansTracked(cfg, log, b)
  {
    hide ScanTracked;
    assert forall i :: 0 <= i < |a| ==> a[i] == (a + b)[i];
    assert forall i :: 0 <= i < |b| ==> b[i] == (a + b)[|a| + i];
  }

  lemma AboutScansBoth(a: seq<Event>, b: seq<Event>, s: set<nat>, t: set<nat>)
    requires AboutScans(a, s) && AboutScans(b, t)
    ensures AboutScans(a + b, s + t)
  {
  }

  lemma ScansMoveCons(cfg: Config, done: seq<Event>, a: seq<Scan>, x: seq<Scan>, log0: seq<Event>, calls0: seq<Callback>,
                      rest: seq<Scan>, log1: seq<Event>, calls1: seq<Callback>)
    requires a != [] && ApartScans(a) && ScansMove(cfg, done, [a[0]], x, log0, calls0)
    requires ScansMove(cfg, done + log0, a[1..], rest, log1, calls1)
    ensures ScansMove(cfg, done, a, x + rest, log0 + log1, calls0 + calls1)
  {
    hide ScansTracked, ToldFrom;
    IdSetCons(a);
    IdSetOne(a[0]);
    IdSetAppend(x, rest);
    hide IdSet;
    ToldSplit(cfg, done, log0, log1);
    assert done + (log0 + log1) == done + log0 + log1;
    ScansStill(cfg, done + log0, log1, x, IdSet(a[1..]));
    ScansTrackedBoth(cfg, done + log0 + log1, x, rest);
    AboutScansBoth(log0, log1, {a[0].id}, IdSet(a[1..]));
  }

  lemma ScansRest(cfg: Config, done: seq<Event>, a: seq<Scan>, x: seq<Scan>, log0: seq<Event>, calls0: seq<Callback>)
    requires a != [] && ApartScans(a) && ScansTracked(cfg, done, a) && ScansMove(cfg, done, [a[0]], x, log0, calls0)
    ensures ApartScans(a[1..]) && ScansTracked(cfg, done + log0, a[1..])
  {
    hide ScanTracked, ToldFrom;
    IdSetOne(a[0]);
    assert a == [a[0]] + a[1..];
    ScansTrackedBoth(cfg, done, [a[0]], a[1..]);
    hide ScansTracked, IdSet;
    ScansStill(cfg, done, log0, a[1..], {a[0].id});
  }

  lemma HeadScan(cfg: Config, log: seq<Event>, scans: seq<Scan>)
    requires scans != [] && ScansTracked(cfg, log, scans)
    ensures TracksAll(cfg, log, scans[0].id, scans[0].conns) && Apart(scans[0].conns)
  {
    hide TracksAll, Apart;
    assert ScanTracked(cfg, log, scans[0]);
  }

  lemma ScansMoveNone(cfg: Config, done: seq<Event>)
    ensures ScansMove(cfg, done, [], [], [], [])
  {
    ToldNothing(cfg, done);
  }

  /** One scan whose connections have moved. */
  lemma MovesScan(cfg: Config, done: seq<Event>, x: Scan, conns: seq<Conn>, log: seq<Event>, calls: seq<Callback>)
    requires Moves(cfg, done, x.id, x.conns, conns, log, calls)
    ensures ScansMove(cfg, done, [x], [x.(conns := conns)], log, calls)
  {
    hide TracksAll, Apart, ToldFrom, Slots;
    IdSetOne(x);
    IdSetOne(x.(conns := conns));
  }

  /** One scan whose last connection has left. */
  lemma MovesOver(cfg: Config, done: seq<Event>, x: Scan, log: seq<Event>, calls: seq<Callback>)
    requires Moves(cfg, done, x.id, x.conns, [], log, calls)
    ensures ScansMove(cfg, done, [x], [], log + [Over(x.id)], calls + [OnEnd(x.id)])
  {
    hide TracksAll, Apart, ToldFrom, Slots;
    IdSetOne(x);
    ToldSplit(cfg, done, log, [Over(x.id)]);
    ToldSingle(cfg, done + log, Over(x.id));
  }

  lemma ScanKept(cfg: Config, done: seq<Event>, a: seq<Scan>)
    requires a != [] && ScansTracked(cfg, done, a)
    ensures ScansMove(cfg, done, [a[0]], [a[0]], [], [])
  {
    hide ScanTracked;
    ToldNothing(cfg, done);
    assert done + [] == done;
  }

  lemma {:induction false} EstablishScansTold(cfg: Config, env: Env, fdUse: nat, scans: seq<Scan>, done: seq<Event>)
    requires ScansTracked(cfg, done, scans) && ApartScans(scans)
    ensures var r := EstablishScans(cfg, env, fdUse, scans);
            ScansMove(cfg, done, scans, r.scans, EstablishScansLog(cfg, env, fdUse, scans), r.calls)
    decreases |scans|
  {
    hide ScansTracked, ApartScans, TracksAll, Apart, Moves, ScansMove, EstablishConns, EstablishConnsLog;
    if scans == [] {
      ScansMoveNone(cfg, done);
    } else {
      var x := scans[0];
      var e, log0 := EstablishConns(cfg, env, x.id, fdUse, x.conns), EstablishConnsLog(cfg, env, x.id, fdUse, x.conns);
      HeadScan(cfg, done, scans);
      EstablishConnsTold(cfg, env, x.id, fdUse, x.conns, done);
      MovesScan(cfg, done, x, e.conns, log0, e.calls);
      ScansRest(cfg, done, scans, [x.(conns := e.conns)], log0, e.calls);
      EstablishScansTold(cfg, env, e.fdUse, scans[1..], done + log0);
      var r := EstablishScans(cfg, env, e.fdUse, scans[1..]);
      ScansMoveCons(cfg, done, scans, [x.(conns := e.conns)], log0, e.calls,
                    r.scans, EstablishScansLog(cfg, env, e.fdUse, scans[1..]), r.calls);
    }
  }

  lemma {:induction false} PollScansTold(cfg: Config, env: Env, scans: seq<Scan>, ufds: seq<PollFd>, done: seq<Event>)
    requires ScansTracked(cfg, done, scans) && ApartScans(scans) && AllAttempted(scans) && Answers(env, ufds)
    ensures var r := PollScans(cfg, env, scans, ufds);
            ScansMove(cfg, done, scans, r.scans, PollScansLog(cfg, env, scans, ufds), r.calls)
  {
    hide ScansTracked, ApartScans, TracksAll, Apart, Moves, ScansMove, PollConns, PollConnsLog, Answers;
    if scans == [] {
      ScansMoveNone(cfg, done);
    } else {
      var x := scans[0];
      AttemptedAtMost(scans[1..]);
      var e, log0 := PollConns(cfg, env, x.id, x.conns, ufds), PollConnsLog(cfg, env, x.id, x.conns, ufds);
      HeadScan(cfg, done, scans);
      PollConnsTold(cfg, env, x.id, x.conns, ufds, done);
      MovesScan(cfg, done, x, e.conns, log0, e.calls);
      ScansRest(cfg, done, scans, [x.(conns := e.conns)], log0, e.calls);
      PollScansTold(cfg, env, scans[1..], ufds, done + log0);
      var r := PollScans(cfg, env, scans[1..], ufds);
      ScansMoveCons(cfg, done, scans, [x.(conns := e.conns)], log0, e.calls,
                    r.scans, PollScansLog(cfg, env, scans[1..], ufds), r.calls);
    }
  }

  lemma {:induction false} CloseScansTold(cfg: Config, now: int, fdUse: nat, scans: seq<Scan>, done: seq<Event>)
    requires ScansTracked(cfg, done, scans) && ApartScans(scans) && AllAttempted(scans)
    ensures var r := CloseScans(cfg, now, fdUse, scans);
            ScansMove(cfg, done, scans, r.scans, CloseScansLog(cfg, now, fdUse, scans), r.calls)
    decreases |scans|
  {
    hide ScansTracked, ApartScans, TracksAll, Apart, Moves, ScansMove, CloseConns, CloseConnsLog;
    if scans == [] {
      ScansMoveNone(cfg, done);
    } else {
      var x := scans[0];
      AttemptedAtMost(scans[1..]);
      var e, log0 := CloseConns(cfg, now, x.id, fdUse, x.conns), CloseConnsLog(now, x.id, x.conns);
      HeadScan(cfg, done, scans);
      CloseConnsTold(cfg, now, x.id, fdUse, x.conns, done);
      var left := if e.conns == [] then [] else [x.(conns := e.conns)];
      var over := if e.conns == [] then [Over(x.id)] else [];
      var calls0 := if e.conns == [] then e.calls + [OnEnd(x.id)] else e.calls;
      if e.conns == [] {
        MovesOver(cfg, done, x, log0, e.calls);
      } else {
        MovesScan(cfg, done, x, e.conns, log0, e.calls);
        assert log0 + [] == log0;
      }
      ScansRest(cfg, done, scans, left, log0 + over, calls0);
      CloseScansTold(cfg, now, e.fdUse, scans[1..], done + (log0 + over));
      var r := CloseScans(cfg, now, e.fdUse, scans[1..]);
      ScansMoveCons(cfg, done, scans, left, log0 + over, calls0,
                    r.scans, CloseScansLog(cfg, now, e.fdUse, scans[1..]), r.calls);
      assert [] + r.scans == r.scans;
    }
  }

  lemma {:induction false} EndLiveTold(cfg: Config, remote: nat, scans: seq<Scan>, done: seq<Event>)
    requires ScansTracked(cfg, done, scans) && ApartScans(scans)
    ensures ScansMove(cfg, done, scans, EndLive(remote, scans), EndLiveLog(remote, scans), [])
  {
    hide ScansTracked, ApartScans, TracksAll, Apart, Moves, ScansMove, CloseAll, DropConnsLog;
    if scans == [] {
      ScansMoveNone(cfg, done);
    } else {
      var x := scans[0];
      var y := if x.remote == remote then x.(conns := CloseAll(x.conns)) else x;
      var log0 := if x.remote == remote then DropConnsLog(x.id, x.conns) else [];
      if x.remote == remote {
        HeadScan(cfg, done, scans);
        DropConnsTold(cfg, x.id, x.conns, done);
        MovesScan(cfg, done, x, CloseAll(x.conns), log0, []);
      } else {
        ScanKept(cfg, done, scans);
      }
      ScansRest(cfg, done, scans, [y], log0, []);
      EndLiveTold(cfg, remote, scans[1..], done + log0);
      ScansMoveCons(cfg, done, scans, [y], log0, [], EndLive(remote, scans[1..]), EndLiveLog(remote, scans[1..]), []);
      NoCalls();
    }
  }

  /** A waiting scan is over at once. */
  lemma OverAlone(cfg: Config, done: seq<Event>, x: Scan)
    ensures ScansMove(cfg, done, [x], [], [Over(x.id)], [OnEnd(x.id)])
  {
    IdSetOne(x);
    ToldSingle(cfg, done, Over(x.id));
  }

  lemma {:induction false} EndQueuedTold(cfg: Config, remote: nat, queue: seq<Scan>, done: seq<Event>)
    requires ScansTracked(cfg, done, queue) && ApartScans(queue)
    ensures var r := EndQueued(remote, queue);
            ScansMove(cfg, done, queue, r.scans, EndQueuedLog(remote, queue), r.calls)
  {
    hide ScansTracked, ApartScans, ScansMove;
    if queue == [] {
      ScansMoveNone(cfg, done);
    } else {
      var x := queue[0];
      var gone := x.remote == remote;
      var left, log0, calls0 := if gone then [] else [x], if gone then [Over(x.id)] else [], if gone then [OnEnd(x.id)] else [];
      if gone {
        OverAlone(cfg, done, x);
      } else {
        ScanKept(cfg, done, queue);
      }
      ScansRest(cfg, done, queue, left, log0, calls0);
      EndQueuedTold(cfg, remote, queue[1..], done + log0);
      var r := EndQueued(remote, queue[1..]);
      ScansMoveCons(cfg, done, queue, left, log0, calls0, r.scans, EndQueuedLog(remote, queue[1..]), r.calls);
      assert [] + r.scans == r.scans && [] + r.calls == r.calls;
    }
  }

  // ----- Phases -----

  /** The trace is what the client is to be told about the log, and every connection
      is as its part of the log says. */
  ghost predicate Recorded(cfg: Config, s: State, log: seq<Event>) {
    && ScansTracked(cfg, log, s.live) && ScansTracked(cfg, log, s.queue)
    && (forall i :: 0 <= i < |log| ==> log[i].scan < s.accepted)
    && s.trace == ToldFrom(cfg, [], log)
  }

  /** Live and waiting scans are all different, and numbered below the count. */
  ghost predicate AllApart(s: State) {
    && ApartScans(s.live) && ApartScans(s.queue) && IdSet(s.live) !! IdSet(s.queue)
    && (forall id :: id in IdSet(s.live) || id in IdSet(s.queue) ==> id < s.accepted)
  }

  lemma {:induction false} IncreasingApart(scans: seq<Scan>)
    requires forall i, j :: 0 <= i < j < |scans| ==> scans[i].id < scans[j].id
    ensures ApartScans(scans)
  {
    if scans != [] {
      assert forall i :: 0 < i < |scans| ==> scans[i] == scans[1..][i - 1];
      IncreasingApart(scans[1..]);
    }
  }

  lemma ConservedOrder(s: State)
    requires Conserved(s)
    ensures forall i, j :: 0 <= i < j < |s.live| ==> s.live[i].id < s.live[j].id
    ensures forall i, j :: 0 <= i < j < |s.queue| ==> s.queue[i].id < s.queue[j].id
    ensures forall i, j :: 0 <= i < |s.live| && 0 <= j < |s.queue| ==> s.live[i].id < s.queue[j].id
    ensures forall i :: 0 <= i < |s.live| ==> s.live[i].id < s.accepted
    ensures forall i :: 0 <= i < |s.queue| ==> s.queue[i].id < s.accepted
  {
    IdsAre(s.live);
    IdsAre(s.queue);
    hide Ended, Ids, ScanOrder.Upto;
    var ids, n := ActiveIds(s), |s.live|;
    assert forall i :: 0 <= i < n ==> ids[i] == s.live[i].id;
    assert forall i :: 0 <= i < |s.queue| ==> ids[n + i] == s.queue[i].id;
  }

  lemma ConservedApart(s: State)
    requires Conserved(s)
    ensures AllApart(s)
  {
    hide Conserved;
    ConservedOrder(s);
    IncreasingApart(s.live);
    IncreasingApart(s.queue);
    hide ApartScans;
  }

  lemma BelowAppend(a: seq<Event>, b: seq<Event>, ids: set<nat>, n: nat)
    requires (forall i :: 0 <= i < |a| ==> a[i].scan < n) && AboutScans(b, ids) && (forall id :: id in ids ==> id < n)
    ensures forall i :: 0 <= i < |a + b| ==> (a + b)[i].scan < n
  {
  }

  /** The live scans move, and the others are not met. */
  lemma LiveMoves(cfg: Config, s: State, log: seq<Event>, t: State, more: seq<Event>, calls: seq<Callback>)
    requires Recorded(cfg, s, log) && AllApart(s) && ScansMove(cfg, log, s.live, t.live, more, calls)
    requires t.queue == s.queue && t.trace == s.trace + calls && t.accepted == s.accepted
    ensures Recorded(cfg, t, log + more)
  {
    hide ScansTracked, ToldFrom, IdSet, ApartScans;
    ScansStill(cfg, log, more, s.queue, IdSet(s.live));
    BelowAppend(log, more, IdSet(s.live), s.accepted);
    ToldSplit(cfg, [], log, more);
    assert [] + log == log;
  }

  lemma QueueMoves(cfg: Config, s: State, log: seq<Event>, t: State, more: seq<Event>, calls: seq<Callback>)
    requires Recorded(cfg, s, log) && AllApart(s) && ScansMove(cfg, log, s.queue, t.queue, more, calls)
    requires t.live == s.live && t.trace == s.trace + calls && t.accepted == s.accepted
    ensures Recorded(cfg, t, log + more)
  {
    hide ScansTracked, ToldFrom, IdSet, ApartScans;
    ScansStill(cfg, log, more, s.live, IdSet(s.queue));
    BelowAppend(log, more, IdSet(s.queue), s.accepted);
    ToldSplit(cfg, [], log, more);
    assert [] + log == log;
  }

  lemma CheckQueueRecorded(cfg: Config, s: State, log: seq<Event>)
    requires Recorded(cfg, s, log)
    ensures Recorded(cfg, CheckQueue(cfg, s), log)
  {
    hide ScansTracked, ToldFrom;
    var n := Admit(Limit(cfg), s.fdUse, s.queue);
    var a, b := s.queue[..n], s.queue[n..];
    assert s.queue == a + b;
    ScansTrackedBoth(cfg, log, a, b);
    ScansTrackedBoth(cfg, log, s.live, a);
  }

  lemma RecordedLive(cfg: Config, s: State, log: seq<Event>)
    requires Recorded(cfg, s, log) && AllApart(s)
    ensures ScansTracked(cfg, log, s.live) && ApartScans(s.live) && ScansTracked(cfg, log, s.queue) && ApartScans(s.queue)
  {
  }

  lemma EstablishRecorded(cfg: Config, env: Env, s: State, log: seq<Event>)
    requires Recorded(cfg, s, log) && Conserved(s)
    ensures var more := EstablishScansLog(cfg, env, s.fdUse, s.live);
            Recorded(cfg, CheckEstablish(cfg, env, s), log + more)
  {
    hide Recorded, ScansMove, ScansTracked, EstablishScans, EstablishScansLog, AllApart;
    ConservedApart(s);
    RecordedLive(cfg, s, log);
    EstablishScansTold(cfg, env, s.fdUse, s.live, log);
    var r := EstablishScans(cfg, env, s.fdUse, s.live);
    LiveMoves(cfg, s, log, CheckEstablish(cfg, env, s), EstablishScansLog(cfg, env, s.fdUse, s.live), r.calls);
  }

  lemma PollRecorded(cfg: Config, env: Env, cap: nat, s: State, log: seq<Event>)
    requires Recorded(cfg, s, log) && Conserved(s) && AllAttempted(s.live)
    requires Answers(env, Capped(cap, Entries(s.live)))
    ensures Recorded(cfg, CheckPoll(cfg, env, cap, s), log + PollLog(cfg, env, cap, s))
  {
    hide Recorded, ScansMove, ScansTracked, PollScans, PollScansLog, AllApart, Answers;
    assert log + [] == log;
    if env.pollResult != -1 && env.pollResult != 0 {
      var ufds := Capped(cap, Entries(s.live));
      ConservedApart(s);
      RecordedLive(cfg, s, log);
      PollScansTold(cfg, env, s.live, ufds, log);
      LiveMoves(cfg, s, log, CheckPoll(cfg, env, cap, s), PollScansLog(cfg, env, s.live, ufds), PollScans(cfg, env, s.live, ufds).calls);
    }
  }

  lemma CloseRecorded(cfg: Config, env: Env, s: State, log: seq<Event>)
    requires Recorded(cfg, s, log) && Conserved(s) && AllAttempted(s.live)
    ensures var more := CloseScansLog(cfg, env.now, s.fdUse, s.live);
            Recorded(cfg, CheckClosed(cfg, env, s), log + more)
  {
    hide Recorded, ScansMove, ScansTracked, CloseScans, CloseScansLog, AllApart;
    ConservedApart(s);
    RecordedLive(cfg, s, log);
    CloseScansTold(cfg, env.now, s.fdUse, s.live, log);
    var r := CloseScans(cfg, env.now, s.fdUse, s.live);
    LiveMoves(cfg, s, log, CheckClosed(cfg, env, s), CloseScansLog(cfg, env.now, s.fdUse, s.live), r.calls);
  }

  // ----- Steps and runs -----

  lemma CycleRecorded(cfg: Config, env: Env, cap: nat, s: State, log: seq<Event>)
    requires Recorded(cfg, s, log) && Conserved(s) && Settled(cfg, s) && ConfigOk(cfg)
    requires Obedient(cfg, s, DoCycle(env, cap))
    ensures Recorded(cfg, Cycle(cfg, env, cap, s), log + CycleLog(cfg, env, cap, s))
  {
    hide Recorded, Answers, EstablishScansLog, PollLog, CloseScansLog, CheckQueue, CheckEstablish, CheckPoll, CheckClosed;
    hide ActiveIds, Ended, Booked, Unused, Sized, Exact, AllAttempted;
    var q := CheckQueue(cfg, s);
    CheckQueueRecorded(cfg, s, log);
    CheckQueueBooks(cfg, s);
    CheckQueueKeeps(cfg, s);
    var e, log1 := CheckEstablish(cfg, env, q), EstablishScansLog(cfg, env, q.fdUse, q.live);
    EstablishRecorded(cfg, env, q, log);
    CheckEstablishBooks(cfg, env, q);
    CheckEstablishKeeps(cfg, env, q);
    var p, log2 := CheckPoll(cfg, env, cap, e), PollLog(cfg, env, cap, e);
    PollRecorded(cfg, env, cap, e, log + log1);
    CheckPollBooks(cfg, env, cap, e);
    CheckPollKeeps(cfg, env, cap, e);
    var log3 := CloseScansLog(cfg, env.now, p.fdUse, p.live);
    CloseRecorded(cfg, env, p, log + log1 + log2);
    assert log + log1 + log2 + log3 == log + (log1 + (log2 + log3));
  }

  lemma EndScanRecorded(cfg: Config, remote: nat, s: State, log: seq<Event>)
    requires Recorded(cfg, s, log) && Conserved(s)
    ensures Recorded(cfg, EndScan(remote, s), log + EndLiveLog(remote, s.live))
  {
    hide Recorded, ScansMove, ScansTracked, EndLive, EndLiveLog, AllApart;
    ConservedApart(s);
    RecordedLive(cfg, s, log);
    EndLiveTold(cfg, remote, s.live, log);
    assert s.trace + [] == s.trace;
    LiveMoves(cfg, s, log, EndScan(remote, s), EndLiveLog(remote, s.live), []);
  }

  lemma EndRecorded(cfg: Config, remote: nat, s: State, log: seq<Event>)
    requires Recorded(cfg, s, log) && Conserved(s)
    ensures Recorded(cfg, End(remote, s), log + (EndLiveLog(remote, s.live) + EndQueuedLog(remote, s.queue)))
  {
    hide Recorded, ScansMove, ScansTracked, EndLive, EndLiveLog, EndQueued, EndQueuedLog, AllApart, Conserved;
    var t, log0 := EndScan(remote, s), EndLiveLog(remote, s.live);
    EndScanRecorded(cfg, remote, s, log);
    StepConserves(cfg, s, DoEndScan(remote));
    ConservedApart(t);
    RecordedLive(cfg, t, log + log0);
    EndQueuedTold(cfg, remote, t.queue, log + log0);
    var r := EndQueued(remote, t.queue);
    QueueMoves(cfg, t, log + log0, End(remote, s), EndQueuedLog(remote, t.queue), r.calls);
    assert log + log0 + EndQueuedLog(remote, s.queue) == log + (log0 + EndQueuedLog(remote, s.queue));
  }

  lemma {:induction false} SlotsApart(conns: seq<Conn>)
    requires forall i, j :: 0 <= i < j < |conns| ==> conns[i].slot < conns[j].slot
    ensures Apart(conns)
  {
    if conns != [] {
      assert forall i :: 0 < i < |conns| ==> conns[i] == conns[1..][i - 1];
      SlotsApart(conns[1..]);
    }
  }

  lemma {:induction false} NewApart(ports: seq<nat>)
    ensures Apart(NewConns(ports))
  {
    SlotsApart(NewConns(ports));
  }

  lemma NewTracked(cfg: Config, log: seq<Event>, n: nat, remote: nat, ports: seq<nat>)
    requires forall i :: 0 <= i < |log| ==> log[i].scan < n
    ensures ScanTracked(cfg, log, Scan(n, remote, NewConns(ports)))
  {
    hide Own, Reading;
    var conns := NewConns(ports);
    NewApart(ports);
    forall j | 0 <= j < |conns|
      ensures Tracks(cfg, Own(log, n, conns[j].slot), conns[j])
    {
      OwnElsewhere(log, n, conns[j].slot);
    }
  }

  lemma SubmitRecorded(cfg: Config, s: State, remote: nat, protocols: seq<nat>, addrOk: bool, log: seq<Event>)
    requires Recorded(cfg, s, log)
    ensures Recorded(cfg, Submit(s, remote, protocols, addrOk), log)
  {
    hide ScanTracked, ToldFrom, NewConns;
    var x := Scan(s.accepted, remote, NewConns(protocols));
    NewTracked(cfg, log, s.accepted, remote, protocols);
    ScansTrackedBoth(cfg, log, s.queue, [x]);
  }

  lemma StepRecorded(cfg: Config, s: State, a: Action, log: seq<Event>)
    requires Recorded(cfg, s, log) && Conserved(s) && Settled(cfg, s) && ConfigOk(cfg) && Obedient(cfg, s, a)
    ensures Recorded(cfg, Step(cfg, s, a), log + StepLog(cfg, s, a))
  {
    hide Recorded, Conserved, Settled, Cycle, End, EndScan, Submit, Obedient, CycleLog, EndLiveLog, EndQueuedLog;
    match a
    case DoScan(remote, protocols, addrOk) =>
      SubmitRecorded(cfg, s, remote, protocols, addrOk, log);
      assert log + [] == log;
    case DoCycle(env, cap) => CycleRecorded(cfg, env, cap, s, log);
    case DoEndScan(remote) => EndScanRecorded(cfg, remote, s, log);
    case DoEnd(remote) => EndRecorded(cfg, remote, s, log);
  }

  lemma {:induction false} RunRecorded(cfg: Config, s: State, actions: seq<Action>, log: seq<Event>)
    requires Recorded(cfg, s, log) && Conserved(s) && Settled(cfg, s) && ConfigOk(cfg)
    requires ObedientRun(cfg, s, actions) && forall a :: a in actions ==> ActionOk(a)
    ensures Recorded(cfg, Run(cfg, s, actions), log + Log(cfg, s, actions))
    decreases |actions|
  {
    hide Recorded, Conserved, Settled, Step, StepLog, Obedient;
    if actions == [] {
      assert log + [] == log;
    } else {
      var a := actions[0];
      StepRecorded(cfg, s, a, log);
      StepConserves(cfg, s, a);
      StepKeeps(cfg, s, a);
      RunRecorded(cfg, Step(cfg, s, a), actions[1..], log + StepLog(cfg, s, a));
      assert log + StepLog(cfg, s, a) + Log(cfg, Step(cfg, s, a), actions[1..]) == log + Log(cfg, s, actions);
    }
  }

  lemma FreshRecorded(cfg: Config)
    ensures Recorded(cfg, FRESH, []) && Conserved(FRESH) && (ConfigOk(cfg) ==> Settled(cfg, FRESH))
  {
    assert ActiveIds(FRESH) == [] && Ended(FRESH.trace) == [];
    ToldNothing(cfg, []);
  }

  /** In every run in which poll answers only what it was asked, the callbacks are
      exactly those that the events of the run call for, in order. */
  lemma TraceIsTold(cfg: Config, actions: seq<Action>)
    requires ConfigOk(cfg) && ObedientRun(cfg, FRESH, actions)
    requires forall a :: a in actions ==> ActionOk(a)
    ensures Run(cfg, FRESH, actions).trace == ToldFrom(cfg, [], Log(cfg, FRESH, actions))
  {
    hide ToldFrom, Log, Run, ObedientRun, ActionOk, Conserved, Settled, ScansTracked;
    FreshRecorded(cfg);
    RunRecorded(cfg, FRESH, actions, []);
    assert [] + Log(cfg, FRESH, actions) == Log(cfg, FRESH, actions);
  }

  // ----- Each callback and its own event -----

  /** What the client is to be told about event `i`. */
  function At(cfg: Config, log: seq<Event>, i: nat): seq<Callback>
    requires i < |log|
  {
    ToldOne(cfg, log[..i], log[i])
  }

  lemma {:induction false} ToldSomewhere(cfg: Config, log: seq<Event>, k: nat, cb: Callback)
    requires k <= |log|
    ensures cb in ToldFrom(cfg, log[..k], log[k..]) <==> exists i :: k <= i < |log| && cb in At(cfg, log, i)
    decreases |log| - k
  {
    if k < |log| {
      ToldSomewhere(cfg, log, k + 1, cb);
      assert log[..k] + [log[k]] == log[..k + 1] && log[k..][1..] == log[k + 1..];
      hide ToldOne;
      var first, rest := At(cfg, log, k), ToldFrom(cfg, log[..k + 1], log[k + 1..]);
      assert ToldFrom(cfg, log[..k], log[k..]) == first + rest;
      assert cb in first + rest <==> cb in first || cb in rest;
    }
  }

  /** Event `i` is bytes for a connection of the scan on this port. */
  predicate HeardAt(log: seq<Event>, i: nat, scan: nat, port: nat) {
    i < |log| && log[i].Event? && log[i].scan == scan && log[i].port == port && log[i].what.Heard?
  }

  /** All bytes that the connection of event `i` has been sent by then. */
  function Reply(log: seq<Event>, i: nat): string
    requires i < |log| && log[i].Event? && log[i].what.Heard?
  {
    Bytes(Own(log[..i], log[i].scan, log[i].slot)) + log[i].what.b.data
  }

  predicate HitAt(cfg: Config, log: seq<Event>, i: nat, scan: nat, port: nat) {
    HeardAt(log, i, scan, port) && HasHit(Lines(Window(cfg.maxRead, Reply(log, i))), cfg.targets)
  }

  predicate LimitAt(cfg: Config, log: seq<Event>, i: nat, scan: nat, port: nat) {
    && HeardAt(log, i, scan, port) && !HasHit(Lines(Window(cfg.maxRead, Reply(log, i))), cfg.targets)
    && Stops(cfg.maxRead, Reply(log, i))
  }

  /** The peer hangs up, or is found gone with neither. */
  predicate FailAt(cfg: Config, log: seq<Event>, i: nat, scan: nat, port: nat) {
    || (i < |log| && log[i].Event? && log[i].scan == scan && log[i].port == port && log[i].what.Hangup?)
    || (HeardAt(log, i, scan, port) && !HasHit(Lines(Window(cfg.maxRead, Reply(log, i))), cfg.targets)
        && !Stops(cfg.maxRead, Reply(log, i)) && log[i].what.b.tail != WouldBlock)
  }

  /** `socket` fails, or else `bind` does. */
  predicate AttemptFails(cfg: Config, log: seq<Event>, i: nat, scan: nat, port: nat, code: ErrorCode) {
    && i < |log| && log[i].Event? && log[i].scan == scan && log[i].port == port && log[i].what.Tried?
    && var a := log[i].what.a;
       if code == NoFd then a.fd == -1 else code == Bind && a.fd != -1 && cfg.bindIp && a.bindFails
  }

  /** The connection is up and was made TIMEOUT ago or earlier. */
  predicate LateAt(cfg: Config, log: seq<Event>, i: nat, scan: nat, port: nat) {
    && i < |log| && log[i].Event? && log[i].scan == scan && log[i].port == port && log[i].what.Clock?
    && var past := Own(log[..i], scan, log[i].slot);
       Up(cfg, past) && log[i].what.now - Since(past) >= cfg.timeout
  }

  lemma AtIs(cfg: Config, log: seq<Event>, i: nat, scan: nat, port: nat)
    requires i < |log|
    ensures OnOpenProxy(scan, port) in At(cfg, log, i) <==> HitAt(cfg, log, i, scan, port)
    ensures OnError(scan, port, MaxRead) in At(cfg, log, i) <==> LimitAt(cfg, log, i, scan, port)
    ensures OnNegFail(scan, port) in At(cfg, log, i) <==> FailAt(cfg, log, i, scan, port)
    ensures OnError(scan, port, NoFd) in At(cfg, log, i) <==> AttemptFails(cfg, log, i, scan, port, NoFd)
    ensures OnError(scan, port, Bind) in At(cfg, log, i) <==> AttemptFails(cfg, log, i, scan, port, Bind)
    ensures OnTimeout(scan, port) in At(cfg, log, i) <==> LateAt(cfg, log, i, scan, port)
  {
    hide HasHit, Lines, Window, Stops, Up, Since, Own, Bytes;
  }

  lemma InTrace(cfg: Config, actions: seq<Action>, cb: Callback)
    requires ConfigOk(cfg) && ObedientRun(cfg, FRESH, actions)
    requires forall a :: a in actions ==> ActionOk(a)
    ensures var log := Log(cfg, FRESH, actions);
            cb in Run(cfg, FRESH, actions).trace <==> exists i :: 0 <= i < |log| && cb in At(cfg, log, i)
  {
    var log := Log(cfg, FRESH, actions);
    TraceIsTold(cfg, actions);
    hide ToldFrom, At, Log, Run;
    ToldSomewhere(cfg, log, 0, cb);
    assert log[..0] == [] && log[0..] == log;
  }

  lemma RepliesReported(cfg: Config, actions: seq<Action>, scan: nat, port: nat)
    requires ConfigOk(cfg) && ObedientRun(cfg, FRESH, actions)
    requires forall a :: a in actions ==> ActionOk(a)
    ensures var log, trace := Log(cfg, FRESH, actions), Run(cfg, FRESH, actions).trace;
            && (OnOpenProxy(scan, port) in trace <==> exists i :: HitAt(cfg, log, i, scan, port))
            && (OnError(scan, port, MaxRead) in trace <==> exists i :: LimitAt(cfg, log, i, scan, port))
            && (OnNegFail(scan, port) in trace <==> exists i :: FailAt(cfg, log, i, scan, port))
  {
    var log := Log(cfg, FRESH, actions);
    hide Log, Run, At, ActionOk, ObedientRun, HasHit, Stops, Lines, Window, Reply;
    InTrace(cfg, actions, OnOpenProxy(scan, port));
    InTrace(cfg, actions, OnError(scan, port, MaxRead));
    InTrace(cfg, actions, OnNegFail(scan, port));
    forall i: nat | i < |log|
      ensures OnOpenProxy(scan, port) in At(cfg, log, i) <==> HitAt(cfg, log, i, scan, port)
      ensures OnError(scan, port, MaxRead) in At(cfg, log, i) <==> LimitAt(cfg, log, i, scan, port)
      ensures OnNegFail(scan, port) in At(cfg, log, i) <==> FailAt(cfg, log, i, scan, port)
    {
      AtIs(cfg, log, i, scan, port);
    }
  }

  lemma ConnectionsReported(cfg: Config, actions: seq<Action>, scan: nat, port: nat)
    requires ConfigOk(cfg) && ObedientRun(cfg, FRESH, actions)
    requires forall a :: a in actions ==> ActionOk(a)
    ensures var log, trace := Log(cfg, FRESH, actions), Run(cfg, FRESH, actions).trace;
            && (OnError(scan, port, NoFd) in trace <==> exists i :: AttemptFails(cfg, log, i, scan, port, NoFd))
            && (OnError(scan, port, Bind) in trace <==> exists i :: AttemptFails(cfg, log, i, scan, port, Bind))
            && (OnTimeout(scan, port) in trace <==> exists i :: LateAt(cfg, log, i, scan, port))
  {
    var log := Log(cfg, FRESH, actions);
    hide Log, Run, At, ActionOk, ObedientRun, Up, Since, Own;
    InTrace(cfg, actions, OnError(scan, port, NoFd));
    InTrace(cfg, actions, OnError(scan, port, Bind));
    InTrace(cfg, actions, OnTimeout(scan, port));
    forall i: nat | i < |log|
      ensures OnError(scan, port, NoFd) in At(cfg, log, i) <==> AttemptFails(cfg, log, i, scan, port, NoFd)
      ensures OnError(scan, port, Bind) in At(cfg, log, i) <==> AttemptFails(cfg, log, i, scan, port, Bind)
      ensures OnTimeout(scan, port) in At(cfg, log, i) <==> LateAt(cfg, log, i, scan, port)
    {
      AtIs(cfg, log, i, scan, port);
    }
  }

  /** In every such run: an open proxy is reported if and only if a line within the
      limit of what the connection was sent holds a target; the limit, if and only
      if it was reached without one; a failure, if and only if the peer hung up or
      was found gone with neither; an error, if and only if `socket` or `bind`
      failed; and a timeout, if and only if a connection that was still up was seen
      TIMEOUT after it was made. */
  lemma ReportsIff(cfg: Config, actions: seq<Action>, scan: nat, port: nat)
    requires ConfigOk(cfg) && ObedientRun(cfg, FRESH, actions)
    requires forall a :: a in actions ==> ActionOk(a)
    ensures var log, trace := Log(cfg, FRESH, actions), Run(cfg, FRESH, actions).trace;
            && (OnOpenProxy(scan, port) in trace <==> exists i :: HitAt(cfg, log, i, scan, port))
            && (OnError(scan, port, MaxRead) in trace <==> exists i :: LimitAt(cfg, log, i, scan, port))
            && (OnNegFail(scan, port) in trace <==> exists i :: FailAt(cfg, log, i, scan, port))
            && (OnError(scan, port, NoFd) in trace <==> exists i :: AttemptFails(cfg, log, i, scan, port, NoFd))
            && (OnError(scan, port, Bind) in trace <==> exists i :: AttemptFails(cfg, log, i, scan, port, Bind))
            && (OnTimeout(scan, port) in trace <==> exists i :: LateAt(cfg, log, i, scan, port))
  {
    hide Log, Run, ActionOk, ObedientRun, HitAt, LimitAt, FailAt, AttemptFails, LateAt;
    RepliesReported(cfg, actions, scan, port);
    ConnectionsReported(cfg, actions, scan, port);
  }

  lemma ReportOne(cfg: Config, scan: nat, port: nat, heard: string, b: Burst)
    ensures |Report(cfg, scan, port, heard, b)| <= 1
  {
    hide HasHit, Lines, Window, Stops;
  }

  /** One poll entry makes one report at most, unless it answers with a hang-up as
      well as with bytes that end the connection: then the client is told twice, and
      an open proxy is followed by a failed negotiation. */
  lemma TwoReports(cfg: Config, env: Env, scan: nat, c: Conn, ufds: seq<PollFd>, k: nat, heard: string)
    requires k < |ufds| && ufds[k].fd == c.fd && Pollable(c) && Reading(cfg, c.reader, heard)
    ensures var r, b := env.revents(k), env.burst(scan, c.slot, k);
            var calls := Handle(cfg, env, scan, c, ufds, k).calls;
            && (|calls| <= 1 <==> !(r.pollIn && r.pollHup && Ends(cfg, heard, b)))
            && (r.pollIn && r.pollHup && Ends(cfg, heard, b) ==>
                  calls == Report(cfg, scan, c.port, heard, b) + [OnNegFail(scan, c.port)])
  {
    var b := env.burst(scan, c.slot, k);
    ReadReports(cfg, scan, c, heard, b);
    EndsIsReport(cfg, scan, c.port, heard, b);
    ReportOne(cfg, scan, c.port, heard, b);
    hide AfterRead, Report, Ends, Reading;
  }

  /** After any such run the record of every live connection is what it has met: not
      attempted exactly if it has met nothing, open exactly if it was made and
      nothing has ended it, with the descriptor and the time of the attempt, the
      request sent exactly if it was writable, and the reply read so far. */
  lemma RecordsAreHistories(cfg: Config, actions: seq<Action>, i: nat, j: nat)
    requires ConfigOk(cfg) && ObedientRun(cfg, FRESH, actions)
    requires forall a :: a in actions ==> ActionOk(a)
    requires var live := Run(cfg, FRESH, actions).live; i < |live| && j < |live[i].conns|
    ensures var x := Run(cfg, FRESH, actions).live[i];
            Tracks(cfg, Own(Log(cfg, FRESH, actions), x.id, x.conns[j].slot), x.conns[j])
  {
    hide Run, Log, ObedientRun, ActionOk, Conserved, Settled, Tracks;
    FreshRecorded(cfg);
    RunRecorded(cfg, FRESH, actions, []);
    var log := Log(cfg, FRESH, actions);
    assert [] + log == log;
    assert ScanTracked(cfg, log, Run(cfg, FRESH, actions).live[i]);
  }
}
