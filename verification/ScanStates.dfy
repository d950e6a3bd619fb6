/** The state of a connection never moves backwards. */
module ScanStates {
  import opened CIntegers
  import opened Connections
  import opened ScanModel

  /** `d` is the connection `c` some time later. */
  predicate ConnLater(c: Conn, d: Conn) {
    c.slot == d.slot && c.port == d.port && Rank(c.state) <= Rank(d.state)
  }

  /** The connections of `b` are some of those of `a`, in order, some time later. */
  predicate ConnsLater(a: seq<Conn>, b: seq<Conn>)
    decreases |a|
  {
    b == [] ||
    (a != [] && ((ConnLater(a[0], b[0]) && ConnsLater(a[1..], b[1..])) || ConnsLater(a[1..], b)))
  }

  predicate ScanLater(x: Scan, y: Scan) {
    x.id == y.id && x.remote == y.remote && ConnsLater(x.conns, y.conns)
  }

  predicate ScansLater(a: seq<Scan>, b: seq<Scan>)
    decreases |a|
  {
    b == [] ||
    (a != [] && ((ScanLater(a[0], b[0]) && ScansLater(a[1..], b[1..])) || ScansLater(a[1..], b)))
  }

  function Scans(s: State): seq<Scan> {
    s.live + s.queue
  }

  /** Poll answers only what it was asked for: readability where a reply is
      awaited, writability where a connection is being made. */
  ghost predicate Answers(env: Env, ufds: seq<PollFd>) {
    forall k: nat :: k < |ufds| ==>
      (env.revents(k).pollIn ==> !ufds[k].wantOut) && (env.revents(k).pollOut ==> ufds[k].wantOut)
  }

  /** The state that `check_poll` sees. */
  function Polled(cfg: Config, env: Env, s: State): State {
    CheckEstablish(cfg, env, CheckQueue(cfg, s))
  }

  ghost predicate Obedient(cfg: Config, s: State, a: Action) {
    a.DoCycle? ==> Answers(a.env, Capped(a.cap, Entries(Polled(cfg, a.env, s).live)))
  }

  ghost predicate ObedientRun(cfg: Config, s: State, actions: seq<Action>)
    decreases |actions|
  {
    actions == [] ||
    (Obedient(cfg, s, actions[0]) && ObedientRun(cfg, Step(cfg, s, actions[0]), actions[1..]))
  }

  // ----- The relations are preorders -----

  lemma {:induction false} ConnsLaterSame(a: seq<Conn>)
    ensures ConnsLater(a, a)
  {
    if a != [] {
      ConnsLaterSame(a[1..]);
    }
  }

  lemma {:induction false} ConnsLaterTrans(a: seq<Conn>, b: seq<Conn>, c: seq<Conn>)
    requires ConnsLater(a, b) && ConnsLater(b, c)
    ensures ConnsLater(a, c)
    decreases |a| + |b|
  {
    if c != [] {
      if ConnsLater(a[1..], b) {
        ConnsLaterTrans(a[1..], b, c);
      } else if ConnsLater(b[1..], c) {
        ConnsLaterTrans(a[1..], b[1..], c);
      } else {
        ConnsLaterTrans(a[1..], b[1..], c[1..]);
      }
    }
  }

  lemma {:induction false} ScansLaterSame(a: seq<Scan>)
    ensures ScansLater(a, a)
  {
    if a != [] {
      ConnsLaterSame(a[0].conns);
      ScansLaterSame(a[1..]);
    }
  }

  lemma {:induction false} ScansLaterTrans(a: seq<Scan>, b: seq<Scan>, c: seq<Scan>)
    requires ScansLater(a, b) && ScansLater(b, c)
    ensures ScansLater(a, c)
    decreases |a| + |b|
  {
    hide ConnsLater;
    if c != [] {
      if ScansLater(a[1..], b) {
        ScansLaterTrans(a[1..], b, c);
      } else if ScansLater(b[1..], c) {
        ScansLaterTrans(a[1..], b[1..], c);
      } else {
        ScansLaterTrans(a[1..], b[1..], c[1..]);
        ConnsLaterTrans(a[0].conns, b[0].conns, c[0].conns);
      }
    }
  }

  lemma {:induction false} ScansLaterJoin(a: seq<Scan>, a': seq<Scan>, b: seq<Scan>, b': seq<Scan>)
    requires ScansLater(a, a') && ScansLater(b, b')
    ensures ScansLater(a + b, a' + b')
    decreases |a|
  {
    hide ScanLater;
    if a == [] {
      assert a + b == b && a' + b' == b';
    } else {
      assert (a + b)[1..] == a[1..] + b;
      if ScansLater(a[1..], a') {
        ScansLaterJoin(a[1..], a', b, b');
      } else {
        ScansLaterJoin(a[1..], a'[1..], b, b');
        assert (a' + b')[1..] == a'[1..] + b';
      }
    }
  }

  // ----- The phases -----

  lemma {:induction false} EstablishConnsLater(cfg: Config, env: Env, scan: nat, fdUse: nat, conns: seq<Conn>)
    ensures ConnsLater(conns, EstablishConns(cfg, env, scan, fdUse, conns).conns)
    decreases |conns|
  {
    if conns != [] {
      var connect := fdUse < Limit(cfg) && conns[0].state == Unestablished;
      EstablishConnsLater(cfg, env, scan, if connect then ToUInt(fdUse + 1) else fdUse, conns[1..]);
    }
  }

  lemma {:induction false} EstablishScansLater(cfg: Config, env: Env, fdUse: nat, scans: seq<Scan>)
    ensures ScansLater(scans, EstablishScans(cfg, env, fdUse, scans).scans)
    decreases |scans|
  {
    hide ConnsLater, EstablishConns;
    if scans != [] {
      var e := EstablishConns(cfg, env, scans[0].id, fdUse, scans[0].conns);
      EstablishConnsLater(cfg, env, scans[0].id, fdUse, scans[0].conns);
      EstablishScansLater(cfg, env, e.fdUse, scans[1..]);
    }
  }

  lemma {:induction false} HandleFromLater(cfg: Config, env: Env, scan: nat, c: Conn, ufds: seq<PollFd>, k: nat)
    requires Answers(env, ufds)
    ensures ConnLater(c, HandleFrom(cfg, env, scan, c, ufds, k).conn)
    decreases |ufds| - k
  {
    if k < |ufds| {
      var e := Handle(cfg, env, scan, c, ufds, k);
      assert ConnLater(c, e.conn);
      HandleFromLater(cfg, env, scan, e.conn, ufds, k + 1);
    }
  }

  lemma {:induction false} PollConnsLater(cfg: Config, env: Env, scan: nat, conns: seq<Conn>, ufds: seq<PollFd>)
    requires Answers(env, ufds)
    ensures ConnsLater(conns, PollConns(cfg, env, scan, conns, ufds).conns)
  {
    hide HandleFrom, ConnLater, Answers;
    if conns != [] {
      HandleFromLater(cfg, env, scan, conns[0], ufds, 0);
      PollConnsLater(cfg, env, scan, conns[1..], ufds);
    }
  }

  lemma {:induction false} PollScansLater(cfg: Config, env: Env, scans: seq<Scan>, ufds: seq<PollFd>)
    requires Answers(env, ufds)
    ensures ScansLater(scans, PollScans(cfg, env, scans, ufds).scans)
  {
    hide ConnsLater, PollConns, Answers;
    if scans != [] {
      PollConnsLater(cfg, env, scans[0].id, scans[0].conns, ufds);
      PollScansLater(cfg, env, scans[1..], ufds);
    }
  }

  lemma {:induction false} CloseConnsLater(cfg: Config, now: int, scan: nat, fdUse: nat, conns: seq<Conn>)
    ensures ConnsLater(conns, CloseConns(cfg, now, scan, fdUse, conns).conns)
    decreases |conns|
  {
    if conns != [] {
      CloseConnsLater(cfg, now, scan, if Reaped(cfg, now, conns[0]) then ToUInt(fdUse - 1) else fdUse, conns[1..]);
    }
  }

  lemma {:induction false} CloseScansLater(cfg: Config, now: int, fdUse: nat, scans: seq<Scan>)
    ensures ScansLater(scans, CloseScans(cfg, now, fdUse, scans).scans)
    decreases |scans|
  {
    hide ConnsLater, CloseConns;
    if scans != [] {
      var e := CloseConns(cfg, now, scans[0].id, fdUse, scans[0].conns);
      CloseConnsLater(cfg, now, scans[0].id, fdUse, scans[0].conns);
      CloseScansLater(cfg, now, e.fdUse, scans[1..]);
    }
  }

  lemma {:induction false} CloseAllLater(conns: seq<Conn>)
    ensures ConnsLater(conns, CloseAll(conns))
  {
    if conns != [] {
      CloseAllLater(conns[1..]);
    }
  }

  lemma {:induction false} EndLiveLater(remote: nat, scans: seq<Scan>)
    ensures ScansLater(scans, EndLive(remote, scans))
  {
    hide ConnsLater, CloseAll;
    if scans != [] {
      EndLiveLater(remote, scans[1..]);
      CloseAllLater(scans[0].conns);
      ConnsLaterSame(scans[0].conns);
    }
  }

  lemma {:induction false} EndQueuedLater(remote: nat, queue: seq<Scan>)
    ensures ScansLater(queue, EndQueued(remote, queue).scans)
  {
    hide ConnsLater;
    if queue != [] {
      EndQueuedLater(remote, queue[1..]);
      ConnsLaterSame(queue[0].conns);
    }
  }

  // ----- Runs -----

  lemma CheckQueueScans(cfg: Config, s: State)
    ensures Scans(CheckQueue(cfg, s)) == Scans(s)
  {
    var n := Admit(Limit(cfg), s.fdUse, s.queue);
    assert s.live + s.queue[..n] + s.queue[n..] == s.live + s.queue;
  }

  lemma CycleLater(cfg: Config, env: Env, cap: nat, s: State)
    requires Obedient(cfg, s, DoCycle(env, cap))
    ensures ScansLater(Scans(s), Scans(Cycle(cfg, env, cap, s)))
  {
    hide CheckQueue, ScansLater, EstablishScans, PollScans, CloseScans, Entries, Answers;
    var q := CheckQueue(cfg, s);
    CheckQueueScans(cfg, s);
    ScansLaterSame(q.queue);
    var e := CheckEstablish(cfg, env, q);
    EstablishScansLater(cfg, env, q.fdUse, q.live);
    var p := CheckPoll(cfg, env, cap, e);
    PollScansLater(cfg, env, e.live, Capped(cap, Entries(e.live)));
    ScansLaterSame(e.live);
    var c := CheckClosed(cfg, env, p);
    CloseScansLater(cfg, env.now, p.fdUse, p.live);
    ScansLaterTrans(q.live, e.live, p.live);
    ScansLaterTrans(q.live, p.live, c.live);
    ScansLaterJoin(q.live, c.live, q.queue, q.queue);
  }

  /** The scans that existed when `n` scans had been accepted. */
  function Older(n: nat, scans: seq<Scan>): seq<Scan> {
    if scans == [] then []
    else if scans[0].id < n then [scans[0]] + Older(n, scans[1..])
    else Older(n, scans[1..])
  }

  lemma {:induction false} OlderLater(n: nat, a: seq<Scan>, b: seq<Scan>)
    requires ScansLater(a, b)
    ensures ScansLater(Older(n, a), Older(n, b))
    decreases |a|
  {
    hide ConnsLater;
    if a != [] && b != [] {
      if ScansLater(a[1..], b) {
        OlderLater(n, a[1..], b);
      } else {
        OlderLater(n, a[1..], b[1..]);
      }
    }
  }

  lemma {:induction false} OlderAppend(n: nat, scans: seq<Scan>, x: Scan)
    requires x.id >= n
    ensures Older(n, scans + [x]) == Older(n, scans)
  {
    if scans != [] {
      assert (scans + [x])[1..] == scans[1..] + [x];
      OlderAppend(n, scans[1..], x);
    }
  }

  lemma StepLater(cfg: Config, s: State, a: Action)
    requires Obedient(cfg, s, a)
    ensures Step(cfg, s, a).accepted >= s.accepted
    ensures ScansLater(Older(s.accepted, Scans(s)), Older(s.accepted, Scans(Step(cfg, s, a))))
  {
    hide ScansLater, Older, Obedient, EndLive, EndQueued, NewConns;
    var t := Step(cfg, s, a);
    match a
    case DoCycle(env, cap) =>
      CycleLater(cfg, env, cap, s);
      OlderLater(s.accepted, Scans(s), Scans(t));
    case DoEndScan(remote) =>
      EndLiveLater(remote, s.live);
      ScansLaterSame(s.queue);
      ScansLaterJoin(s.live, t.live, s.queue, s.queue);
      OlderLater(s.accepted, Scans(s), Scans(t));
    case DoEnd(remote) =>
      EndLiveLater(remote, s.live);
      EndQueuedLater(remote, s.queue);
      ScansLaterJoin(s.live, t.live, s.queue, t.queue);
      OlderLater(s.accepted, Scans(s), Scans(t));
    case DoScan(remote, protocols, addrOk) =>
      var x := Scan(s.accepted, remote, NewConns(protocols));
      assert s.live + (s.queue + [x]) == Scans(s) + [x];
      OlderAppend(s.accepted, Scans(s), x);
      ScansLaterSame(Older(s.accepted, Scans(s)));
  }

  lemma {:induction false} OlderOlder(m: nat, n: nat, scans: seq<Scan>)
    requires m <= n
    ensures Older(m, Older(n, scans)) == Older(m, scans)
  {
    if scans != [] {
      OlderOlder(m, n, scans[1..]);
    }
  }

  /** Over any run in which poll answers only what it was asked, every connection
      of a scan that was already accepted at the start is a connection the scan
      had then, on the same port, in the same or a later state; scans and
      connections keep their order. */
  lemma {:induction false} StatesOnlyAdvance(cfg: Config, s: State, actions: seq<Action>)
    requires ObedientRun(cfg, s, actions)
    ensures Run(cfg, s, actions).accepted >= s.accepted
    ensures ScansLater(Older(s.accepted, Scans(s)), Older(s.accepted, Scans(Run(cfg, s, actions))))
    decreases |actions|
  {
    hide ScansLater, Step, Obedient, Older;
    if actions == [] {
      ScansLaterSame(Older(s.accepted, Scans(s)));
    } else {
      var t := Step(cfg, s, actions[0]);
      StepLater(cfg, s, actions[0]);
      StatesOnlyAdvance(cfg, t, actions[1..]);
      var u := Run(cfg, t, actions[1..]);
      OlderLater(s.accepted, Older(t.accepted, Scans(t)), Older(t.accepted, Scans(u)));
      OlderOlder(s.accepted, t.accepted, Scans(t));
      OlderOlder(s.accepted, t.accepted, Scans(u));
      ScansLaterTrans(Older(s.accepted, Scans(s)), Older(s.accepted, Scans(t)), Older(s.accepted, Scans(u)));
    }
  }
}
