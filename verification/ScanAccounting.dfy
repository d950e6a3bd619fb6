/** Descriptor accounting of the proxy scanner over whole runs. */
module ScanAccounting {
  import opened Connections
  import opened ScanModel

  /** Connections waiting in the queue have not been attempted. */
  predicate Unused(scans: seq<Scan>) {
    forall i :: 0 <= i < |scans| ==> Attempted(scans[i].conns) == 0
  }

  /** List lengths are C ints. */
  ghost predicate ActionOk(a: Action) {
    a.DoScan? ==> |a.protocols| < 0x8000_0000
  }

  /** The counter is exact and within the limit. */
  predicate Exact(cfg: Config, s: State) {
    s.fdUse == AttemptedAll(s.live) && s.fdUse <= Limit(cfg)
  }

  /** Every connection has been attempted. */
  predicate AllAttempted(scans: seq<Scan>) {
    AttemptedAll(scans) == Total(scans)
  }

  /** List lengths are C ints. */
  predicate Sized(queue: seq<Scan>) {
    forall i :: 0 <= i < |queue| ==> |queue[i].conns| < 0x8000_0000
  }

  predicate ConfigOk(cfg: Config) {
    0 <= cfg.fdLimit < 0x8000_0000
  }

  /** What every reachable state satisfies between two calls. */
  predicate Settled(cfg: Config, s: State) {
    Unused(s.queue) && Sized(s.queue) && Exact(cfg, s) && AllAttempted(s.live)
  }

  // ----- Counting -----

  lemma {:induction false} AttemptedAllAppend(a: seq<Scan>, b: seq<Scan>)
    ensures AttemptedAll(a + b) == AttemptedAll(a) + AttemptedAll(b)
  {
    if a == [] {
      assert a + b == b;
    } else {
      assert (a + b)[1..] == a[1..] + b;
      AttemptedAllAppend(a[1..], b);
    }
  }

  lemma {:induction false} UnusedAttempted(scans: seq<Scan>)
    requires Unused(scans)
    ensures AttemptedAll(scans) == 0
  {
    if scans != [] {
      UnusedAttempted(scans[1..]);
    }
  }

  lemma {:induction false} NewConnsUnattempted(conns: seq<Conn>)
    requires forall j :: 0 <= j < |conns| ==> conns[j].state == Unestablished
    ensures Attempted(conns) == 0
  {
    if conns != [] {
      NewConnsUnattempted(conns[1..]);
    }
  }

  lemma {:induction false} TotalAppend(a: seq<Scan>, b: seq<Scan>)
    ensures Total(a + b) == Total(a) + Total(b)
  {
    if a == [] {
      assert a + b == b;
    } else {
      assert (a + b)[1..] == a[1..] + b;
      TotalAppend(a[1..], b);
    }
  }

  // ----- Admitting -----

  /** The admitted scans fit the limit. */
  lemma {:induction false} AdmitFits(limit: nat, projected: nat, queue: seq<Scan>)
    requires Sized(queue) && projected <= limit < 0x8000_0000
    ensures projected + Total(queue[..Admit(limit, projected, queue)]) <= limit
    decreases |queue|
  {
    if queue != [] {
      var p := |queue[0].conns| + projected;
      if p <= limit {
        AdmitFits(limit, p, queue[1..]);
        var n := Admit(limit, p, queue[1..]);
        assert queue[..1 + n][1..] == queue[1..][..n];
      }
    }
  }

  /** As many scans are admitted as fit: a prefix of the queue fits exactly if it is
      no longer than what is admitted. */
  lemma {:induction false} AdmitExact(limit: nat, projected: nat, queue: seq<Scan>, k: nat)
    requires Sized(queue) && projected <= limit < 0x8000_0000 && k <= |queue|
    ensures projected + Total(queue[..k]) <= limit <==> k <= Admit(limit, projected, queue)
    decreases |queue|
  {
    if k == 0 {
      assert queue[..0] == [];
    } else {
      var p := |queue[0].conns| + projected;
      assert queue[..k][0] == queue[0] && queue[..k][1..] == queue[1..][..k - 1];
      if p <= limit {
        AdmitExact(limit, p, queue[1..], k - 1);
      }
    }
  }

  // ----- Establishing -----

  lemma {:induction false} EstablishConnsCounts(cfg: Config, env: Env, scan: nat, fdUse: nat, conns: seq<Conn>)
    requires fdUse + |conns| - Attempted(conns) <= Limit(cfg)
    ensures var r := EstablishConns(cfg, env, scan, fdUse, conns);
            && r.fdUse == fdUse + |conns| - Attempted(conns)
            && Attempted(r.conns) == |r.conns| == |conns|
    decreases |conns|
  {
    if conns != [] {
      var connect := fdUse < Limit(cfg) && conns[0].state == Unestablished;
      EstablishConnsCounts(cfg, env, scan, if connect then fdUse + 1 else fdUse, conns[1..]);
    }
  }

  lemma {:induction false} AttemptedAtMost(scans: seq<Scan>)
    ensures AttemptedAll(scans) <= Total(scans)
  {
    if scans != [] {
      AttemptedAtMost(scans[1..]);
    }
  }

  lemma {:induction false} EstablishScansCounts(cfg: Config, env: Env, fdUse: nat, scans: seq<Scan>)
    requires fdUse + Total(scans) - AttemptedAll(scans) <= Limit(cfg)
    ensures var r := EstablishScans(cfg, env, fdUse, scans);
            && r.fdUse == fdUse + Total(scans) - AttemptedAll(scans)
            && AttemptedAll(r.scans) == Total(r.scans) == Total(scans)
    decreases |scans|
  {
    if scans != [] {
      AttemptedAtMost(scans[1..]);
      EstablishConnsCounts(cfg, env, scans[0].id, fdUse, scans[0].conns);
      var e := EstablishConns(cfg, env, scans[0].id, fdUse, scans[0].conns);
      EstablishScansCounts(cfg, env, e.fdUse, scans[1..]);
    }
  }

  // ----- Polling -----

  lemma {:induction false} ConnEntriesCount(conns: seq<Conn>)
    ensures |ConnEntries(conns)| <= Attempted(conns)
  {
    if conns != [] {
      ConnEntriesCount(conns[1..]);
    }
  }

  lemma {:induction false} EntriesCount(scans: seq<Scan>)
    ensures |Entries(scans)| <= AttemptedAll(scans)
  {
    if scans != [] {
      ConnEntriesCount(scans[0].conns);
      EntriesCount(scans[1..]);
    }
  }

  /** No handler brings an attempted connection back to UNESTABLISHED, whichever
      descriptor the entries and the connection hold. */
  lemma {:induction false} HandleFromKeeps(cfg: Config, env: Env, scan: nat, c: Conn, ufds: seq<PollFd>, k: nat)
    requires c.state != Unestablished
    ensures HandleFrom(cfg, env, scan, c, ufds, k).conn.state != Unestablished
    decreases |ufds| - k
  {
    if k < |ufds| {
      HandleFromKeeps(cfg, env, scan, Handle(cfg, env, scan, c, ufds, k).conn, ufds, k + 1);
    }
  }

  lemma {:induction false} PollConnsCounts(cfg: Config, env: Env, scan: nat, conns: seq<Conn>, ufds: seq<PollFd>)
    requires Attempted(conns) == |conns|
    ensures var r := PollConns(cfg, env, scan, conns, ufds);
            Attempted(r.conns) == |r.conns| == |conns|
  {
    if conns != [] {
      HandleFromKeeps(cfg, env, scan, conns[0], ufds, 0);
      PollConnsCounts(cfg, env, scan, conns[1..], ufds);
    }
  }

  lemma {:induction false} PollScansCounts(cfg: Config, env: Env, scans: seq<Scan>, ufds: seq<PollFd>)
    requires AllAttempted(scans)
    ensures var r := PollScans(cfg, env, scans, ufds);
            AllAttempted(r.scans) && Total(r.scans) == Total(scans)
  {
    if scans != [] {
      AttemptedAtMost(scans[1..]);
      PollConnsCounts(cfg, env, scans[0].id, scans[0].conns, ufds);
      PollScansCounts(cfg, env, scans[1..], ufds);
    }
  }

  // ----- Reaping -----

  /** Only attempted connections are reaped, and each gives back one descriptor. */
  lemma {:induction false} CloseConnsCounts(cfg: Config, now: int, scan: nat, fdUse: nat, conns: seq<Conn>)
    requires Attempted(conns) <= fdUse < 0x1_0000_0000
    ensures var r := CloseConns(cfg, now, scan, fdUse, conns);
            fdUse - r.fdUse == Attempted(conns) - Attempted(r.conns) == |conns| - |r.conns| >= 0
    decreases |conns|
  {
    if conns != [] {
      CloseConnsCounts(cfg, now, scan, if Reaped(cfg, now, conns[0]) then fdUse - 1 else fdUse, conns[1..]);
    }
  }

  lemma {:induction false} CloseScansCounts(cfg: Config, now: int, fdUse: nat, scans: seq<Scan>)
    requires AttemptedAll(scans) <= fdUse < 0x1_0000_0000
    ensures var r := CloseScans(cfg, now, fdUse, scans);
            fdUse - r.fdUse == AttemptedAll(scans) - AttemptedAll(r.scans) == Total(scans) - Total(r.scans) >= 0
    decreases |scans|
  {
    hide CloseConns;
    if scans != [] {
      CloseConnsCounts(cfg, now, scans[0].id, fdUse, scans[0].conns);
      var e := CloseConns(cfg, now, scans[0].id, fdUse, scans[0].conns);
      CloseScansCounts(cfg, now, e.fdUse, scans[1..]);
    }
  }

  // ----- Ending -----

  lemma {:induction false} CloseAllCounts(conns: seq<Conn>)
    ensures Attempted(CloseAll(conns)) == |conns|
  {
    if conns != [] {
      CloseAllCounts(conns[1..]);
    }
  }

  lemma {:induction false} EndLiveCounts(remote: nat, scans: seq<Scan>)
    ensures var r := EndLive(remote, scans);
            AttemptedAll(r) == AttemptedAll(scans) + Unattempted(remote, scans) && Total(r) == Total(scans)
  {
    if scans != [] {
      CloseAllCounts(scans[0].conns);
      EndLiveCounts(remote, scans[1..]);
    }
  }

  lemma {:induction false} EndQueuedUnused(remote: nat, queue: seq<Scan>)
    requires Unused(queue) && Sized(queue)
    ensures Unused(EndQueued(remote, queue).scans) && Sized(EndQueued(remote, queue).scans)
  {
    if queue != [] {
      EndQueuedUnused(remote, queue[1..]);
    }
  }

  // ----- The phases of a cycle -----

  lemma CheckQueueKeeps(cfg: Config, s: State)
    requires Settled(cfg, s) && ConfigOk(cfg)
    ensures var t := CheckQueue(cfg, s);
            && Unused(t.queue) && Sized(t.queue) && Exact(cfg, t)
            && Total(t.live) <= Limit(cfg)
  {
    var n := Admit(Limit(cfg), s.fdUse, s.queue);
    assert Unused(s.queue[..n]);
    UnusedAttempted(s.queue[..n]);
    AttemptedAllAppend(s.live, s.queue[..n]);
    TotalAppend(s.live, s.queue[..n]);
    AdmitFits(Limit(cfg), s.fdUse, s.queue);
  }

  lemma CheckEstablishKeeps(cfg: Config, env: Env, s: State)
    requires Unused(s.queue) && Sized(s.queue) && Exact(cfg, s) && Total(s.live) <= Limit(cfg)
    ensures var t := CheckEstablish(cfg, env, s);
            Settled(cfg, t) && Total(t.live) == Total(s.live)
  {
    EstablishScansCounts(cfg, env, s.fdUse, s.live);
  }

  lemma CheckPollKeeps(cfg: Config, env: Env, cap: nat, s: State)
    requires Settled(cfg, s)
    ensures var t := CheckPoll(cfg, env, cap, s);
            Settled(cfg, t) && Total(t.live) == Total(s.live)
  {
    EntriesCount(s.live);
    PollScansCounts(cfg, env, s.live, Capped(cap, Entries(s.live)));
  }

  lemma CheckClosedKeeps(cfg: Config, env: Env, s: State)
    requires Settled(cfg, s)
    ensures var t := CheckClosed(cfg, env, s);
            Settled(cfg, t) && Total(t.live) <= Total(s.live)
  {
    CloseScansCounts(cfg, env.now, s.fdUse, s.live);
  }

  lemma CycleKeeps(cfg: Config, env: Env, cap: nat, s: State)
    requires Settled(cfg, s) && ConfigOk(cfg)
    ensures Settled(cfg, Cycle(cfg, env, cap, s))
  {
    hide CheckQueue, CheckEstablish, CheckPoll, CheckClosed, Settled, Unused, Sized, Exact;
    CheckQueueKeeps(cfg, s);
    var q := CheckQueue(cfg, s);
    CheckEstablishKeeps(cfg, env, q);
    var e := CheckEstablish(cfg, env, q);
    CheckPollKeeps(cfg, env, cap, e);
    CheckClosedKeeps(cfg, env, CheckPoll(cfg, env, cap, e));
  }

  lemma SubmitKeeps(cfg: Config, s: State, remote: nat, protocols: seq<nat>, addrOk: bool)
    requires Settled(cfg, s) && |protocols| < 0x8000_0000
    ensures Settled(cfg, Submit(s, remote, protocols, addrOk))
  {
    NewConnsUnattempted(NewConns(protocols));
  }

  // ----- Main results -----

  /** Ending a scan keeps the counter exact if and only if none of the scan's
      live connections is still waiting to be attempted: those would be given
      back to the budget by the next reaping without ever having been taken. */
  lemma EndScanExactIff(cfg: Config, remote: nat, s: State)
    requires Exact(cfg, s)
    ensures Exact(cfg, EndScan(remote, s)) <==> Unattempted(remote, s.live) == 0
    ensures Exact(cfg, End(remote, s)) <==> Unattempted(remote, s.live) == 0
  {
    EndLiveCounts(remote, s.live);
  }

  lemma {:induction false} NoneUnattempted(remote: nat, scans: seq<Scan>)
    requires AllAttempted(scans)
    ensures Unattempted(remote, scans) == 0
  {
    if scans != [] {
      AttemptedAtMost(scans[1..]);
      NoneUnattempted(remote, scans[1..]);
    }
  }

  /** The client may end scans at any time between cycles. */
  lemma EndKeeps(cfg: Config, remote: nat, s: State)
    requires Settled(cfg, s)
    ensures Settled(cfg, EndScan(remote, s)) && Settled(cfg, End(remote, s))
  {
    NoneUnattempted(remote, s.live);
    EndLiveCounts(remote, s.live);
    EndQueuedUnused(remote, s.queue);
  }

  lemma StepKeeps(cfg: Config, s: State, a: Action)
    requires Settled(cfg, s) && ConfigOk(cfg) && ActionOk(a)
    ensures Settled(cfg, Step(cfg, s, a))
  {
    match a
    case DoScan(remote, protocols, addrOk) => SubmitKeeps(cfg, s, remote, protocols, addrOk);
    case DoCycle(env, cap) => CycleKeeps(cfg, env, cap, s);
    case DoEndScan(remote) => EndKeeps(cfg, remote, s);
    case DoEnd(remote) => EndKeeps(cfg, remote, s);
  }

  lemma {:induction false} RunKeeps(cfg: Config, s: State, actions: seq<Action>)
    requires Settled(cfg, s) && ConfigOk(cfg)
    requires forall a :: a in actions ==> ActionOk(a)
    ensures Settled(cfg, Run(cfg, s, actions))
    decreases |actions|
  {
    if actions != [] {
      StepKeeps(cfg, s, actions[0]);
      RunKeeps(cfg, Step(cfg, s, actions[0]), actions[1..]);
    }
  }

  /** In every run, whatever scans the client submits and ends and whatever
      `socket`, `bind`, `poll` and `read` answer, `fd_use` is between two calls
      the number of live connections that have left UNESTABLISHED, which are all
      of them, and stays within the limit. */
  lemma DescriptorAccounting(cfg: Config, actions: seq<Action>)
    requires ConfigOk(cfg)
    requires forall a :: a in actions ==> ActionOk(a)
    ensures var t := Run(cfg, FRESH, actions);
            t.fdUse == AttemptedAll(t.live) == Total(t.live) <= Limit(cfg)
  {
    RunKeeps(cfg, FRESH, actions);
  }

  /** A submitted scan waits behind all others, with one connection for each protocol,
      in order and not attempted yet; without a protocol, or with a bad address,
      nothing changes. */
  lemma SubmitQueues(s: State, remote: nat, protocols: seq<nat>, addrOk: bool)
    ensures var t := Submit(s, remote, protocols, addrOk);
            && (protocols == [] || !addrOk ==> t == s)
            && (protocols != [] && addrOk ==>
                  && |t.queue| == |s.queue| + 1 && t.queue[..|s.queue|] == s.queue && t.live == s.live && t.trace == s.trace
                  && t.accepted == s.accepted + 1
                  && var x := t.queue[|s.queue|];
                     && x.id == s.accepted && x.remote == remote && |x.conns| == |protocols|
                     && forall j :: 0 <= j < |protocols| ==>
                          x.conns[j].slot == j && x.conns[j].port == protocols[j] && x.conns[j].state == Unestablished)
  {
  }

  /** The poll array asks for exactly the open connections: to write where the
      request is still to be sent, and to read where the reply is awaited. */
  lemma {:induction false} ConnEntriesIff(conns: seq<Conn>, fd: int, out: bool)
    ensures PollFd(fd, out) in ConnEntries(conns) <==>
            exists c :: c in conns && c.fd == fd && c.state == if out then Established else NegSent
  {
    if conns != [] {
      ConnEntriesIff(conns[1..], fd, out);
      assert conns == [conns[0]] + conns[1..];
    }
  }

  /** The array of poll entries, which is grown to the limit, always has room for
      every pollable connection. */
  lemma NoPollEntryDropped(cfg: Config, env: Env, cap: nat, actions: seq<Action>)
    requires ConfigOk(cfg) && cap >= Limit(cfg)
    requires forall a :: a in actions ==> ActionOk(a)
    ensures var e := CheckEstablish(cfg, env, CheckQueue(cfg, Run(cfg, FRESH, actions)));
            Capped(cap, Entries(e.live)) == Entries(e.live)
  {
    RunKeeps(cfg, FRESH, actions);
    var s := Run(cfg, FRESH, actions);
    CheckQueueKeeps(cfg, s);
    var q := CheckQueue(cfg, s);
    CheckEstablishKeeps(cfg, env, q);
    EntriesCount(CheckEstablish(cfg, env, q).live);
  }
}
