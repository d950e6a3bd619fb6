/** Every accepted scan is active until its one END callback, in submission order. */
module ScanOrder {
  import opened CIntegers
  import opened Connections
  import opened ScanModel

  function Ids(scans: seq<Scan>): seq<nat> {
    if scans == [] then [] else [scans[0].id] + Ids(scans[1..])
  }

  /** The scans that got an END callback, in callback order. */
  function Ended(trace: seq<Callback>): seq<nat> {
    if trace == [] then []
    else if trace[0].OnEnd? then [trace[0].scan] + Ended(trace[1..])
    else Ended(trace[1..])
  }

  /** Each number below `n` once. */
  function Upto(n: nat): multiset<nat> {
    if n == 0 then multiset{} else Upto(n - 1) + multiset{n - 1}
  }

  predicate Increasing(ids: seq<nat>) {
    forall i, j :: 0 <= i < j < |ids| ==> ids[i] < ids[j]
  }

  function ActiveIds(s: State): seq<nat> {
    Ids(s.live) + Ids(s.queue)
  }

  /** `active` is in submission order, and each of the `n` accepted scans is
      either among the `active` or among the `ended`, once. */
  predicate Booked(active: seq<nat>, ended: seq<nat>, n: nat) {
    && Increasing(active)
    && (forall i :: 0 <= i < |active| ==> active[i] < n)
    && multiset(ended) + multiset(active) == Upto(n)
  }

  predicate Conserved(s: State) {
    Booked(ActiveIds(s), Ended(s.trace), s.accepted)
  }

  // ----- Traces -----

  lemma {:induction false} EndedAppend(a: seq<Callback>, b: seq<Callback>)
    ensures Ended(a + b) == Ended(a) + Ended(b)
  {
    if a == [] {
      assert a + b == b;
    } else {
      assert (a + b)[1..] == a[1..] + b;
      EndedAppend(a[1..], b);
    }
  }

  lemma {:induction false} EstablishConnsQuiet(cfg: Config, env: Env, scan: nat, fdUse: nat, conns: seq<Conn>)
    ensures Ended(EstablishConns(cfg, env, scan, fdUse, conns).calls) == []
    decreases |conns|
  {
    if conns != [] {
      var e := AfterConnect(cfg, scan, conns[0], env.attempt(scan, conns[0].slot));
      var next := if fdUse < Limit(cfg) && conns[0].state == Unestablished then ToUInt(fdUse + 1) else fdUse;
      EstablishConnsQuiet(cfg, env, scan, next, conns[1..]);
      EndedAppend(e.calls, EstablishConns(cfg, env, scan, next, conns[1..]).calls);
    }
  }

  lemma {:induction false} EstablishScansQuiet(cfg: Config, env: Env, fdUse: nat, scans: seq<Scan>)
    ensures var r := EstablishScans(cfg, env, fdUse, scans);
            Ended(r.calls) == [] && Ids(r.scans) == Ids(scans)
    decreases |scans|
  {
    if scans != [] {
      var e := EstablishConns(cfg, env, scans[0].id, fdUse, scans[0].conns);
      EstablishConnsQuiet(cfg, env, scans[0].id, fdUse, scans[0].conns);
      EstablishScansQuiet(cfg, env, e.fdUse, scans[1..]);
      EndedAppend(e.calls, EstablishScans(cfg, env, e.fdUse, scans[1..]).calls);
    }
  }

  lemma {:induction false} IdsAre(scans: seq<Scan>)
    ensures |Ids(scans)| == |scans|
    ensures forall i :: 0 <= i < |scans| ==> Ids(scans)[i] == scans[i].id
  {
    if scans != [] {
      IdsAre(scans[1..]);
    }
  }

  lemma {:induction false} IdsAppend(a: seq<Scan>, b: seq<Scan>)
    ensures Ids(a + b) == Ids(a) + Ids(b)
  {
    if a == [] {
      assert a + b == b;
    } else {
      assert (a + b)[1..] == a[1..] + b;
      IdsAppend(a[1..], b);
    }
  }

  lemma HandleQuiet(cfg: Config, env: Env, scan: nat, c: Conn, ufds: seq<PollFd>, k: nat)
    requires k < |ufds|
    ensures Ended(Handle(cfg, env, scan, c, ufds, k).calls) == []
  {
    if ufds[k].fd == c.fd && c.state != Closed {
      var r := env.revents(k);
      var e1 := if r.pollIn then AfterRead(cfg, scan, c, env.burst(scan, c.slot, k)) else Effect(c, []);
      var c2 := if r.pollOut then AfterWrite(e1.conn) else e1.conn;
      var e3 := if r.pollHup then AfterHup(scan, c2) else Effect(c2, []);
      EndedAppend(e1.calls, e3.calls);
    }
  }

  lemma {:induction false} HandleFromQuiet(cfg: Config, env: Env, scan: nat, c: Conn, ufds: seq<PollFd>, k: nat)
    ensures Ended(HandleFrom(cfg, env, scan, c, ufds, k).calls) == []
    decreases |ufds| - k
  {
    if k < |ufds| {
      HandleQuiet(cfg, env, scan, c, ufds, k);
      var e := Handle(cfg, env, scan, c, ufds, k);
      HandleFromQuiet(cfg, env, scan, e.conn, ufds, k + 1);
      EndedAppend(e.calls, HandleFrom(cfg, env, scan, e.conn, ufds, k + 1).calls);
    }
  }

  lemma {:induction false} PollConnsQuiet(cfg: Config, env: Env, scan: nat, conns: seq<Conn>, ufds: seq<PollFd>)
    ensures Ended(PollConns(cfg, env, scan, conns, ufds).calls) == []
  {
    if conns != [] {
      HandleFromQuiet(cfg, env, scan, conns[0], ufds, 0);
      PollConnsQuiet(cfg, env, scan, conns[1..], ufds);
      EndedAppend(HandleFrom(cfg, env, scan, conns[0], ufds, 0).calls, PollConns(cfg, env, scan, conns[1..], ufds).calls);
    }
  }

  lemma {:induction false} PollScansQuiet(cfg: Config, env: Env, scans: seq<Scan>, ufds: seq<PollFd>)
    ensures var r := PollScans(cfg, env, scans, ufds);
            Ended(r.calls) == [] && Ids(r.scans) == Ids(scans)
  {
    if scans != [] {
      PollConnsQuiet(cfg, env, scans[0].id, scans[0].conns, ufds);
      PollScansQuiet(cfg, env, scans[1..], ufds);
      EndedAppend(PollConns(cfg, env, scans[0].id, scans[0].conns, ufds).calls, PollScans(cfg, env, scans[1..], ufds).calls);
    }
  }

  // ----- Reaping: what leaves the list is what is reported -----

  /** `left` is `all` without some elements, which are those of `gone`. */
  predicate Splits(all: seq<nat>, left: seq<nat>, gone: seq<nat>)
    decreases |all|
  {
    if all == [] then left == [] && gone == []
    else
      || (left != [] && left[0] == all[0] && Splits(all[1..], left[1..], gone))
      || (gone != [] && gone[0] == all[0] && Splits(all[1..], left, gone[1..]))
  }

  lemma {:induction false} SplitsCounts(all: seq<nat>, left: seq<nat>, gone: seq<nat>)
    requires Splits(all, left, gone)
    ensures multiset(all) == multiset(left) + multiset(gone)
    ensures |all| == |left| + |gone|
    decreases |all|
  {
    if all != [] {
      assert all == [all[0]] + all[1..];
      if left != [] && left[0] == all[0] && Splits(all[1..], left[1..], gone) {
        assert left == [left[0]] + left[1..];
        SplitsCounts(all[1..], left[1..], gone);
      } else {
        assert gone == [gone[0]] + gone[1..];
        SplitsCounts(all[1..], left, gone[1..]);
      }
    }
  }

  lemma SplitsCons(x: nat, all: seq<nat>, left: seq<nat>, gone: seq<nat>)
    requires Splits(all, left, gone)
    ensures Splits([x] + all, [x] + left, gone)
    ensures Splits([x] + all, left, [x] + gone)
  {
    assert ([x] + all)[1..] == all && ([x] + left)[1..] == left && ([x] + gone)[1..] == gone;
  }

  /** Taking elements out keeps the order. */
  lemma {:induction false} SplitsIncreasing(all: seq<nat>, left: seq<nat>, gone: seq<nat>, rest: seq<nat>)
    requires Splits(all, left, gone)
    requires Increasing(all + rest)
    ensures Increasing(left + rest)
    ensures forall x :: x in left + rest ==> x in all + rest
    decreases |all|
  {
    if all != [] {
      var tail := all[1..] + rest;
      assert forall i :: 0 <= i < |tail| ==> tail[i] == (all + rest)[i + 1];
      if left != [] && left[0] == all[0] && Splits(all[1..], left[1..], gone) {
        SplitsIncreasing(all[1..], left[1..], gone, rest);
        assert left + rest == [left[0]] + (left[1..] + rest);
        var u := left[1..] + rest;
        forall k | 0 <= k < |u|
          ensures left[0] < u[k] && u[k] in all + rest
        {
          assert u[k] in tail;
          var i :| 0 <= i < |tail| && tail[i] == u[k];
          assert (all + rest)[0] < (all + rest)[i + 1];
        }
      } else {
        SplitsIncreasing(all[1..], left, gone[1..], rest);
        forall x | x in left + rest
          ensures x in all + rest
        {
          assert x in tail;
          var i :| 0 <= i < |tail| && tail[i] == x;
          assert (all + rest)[i + 1] == x;
        }
      }
    }
  }

  lemma {:induction false} CloseConnsQuiet(cfg: Config, now: int, scan: nat, fdUse: nat, conns: seq<Conn>)
    ensures Ended(CloseConns(cfg, now, scan, fdUse, conns).calls) == []
    decreases |conns|
  {
    if conns != [] {
      var next := if Reaped(cfg, now, conns[0]) then ToUInt(fdUse - 1) else fdUse;
      CloseConnsQuiet(cfg, now, scan, next, conns[1..]);
      EndedAppend(if conns[0].state == Closed then [] else [OnTimeout(scan, conns[0].port)],
                  CloseConns(cfg, now, scan, next, conns[1..]).calls);
    }
  }

  lemma EndedSkip(a: seq<Callback>, b: seq<Callback>)
    requires Ended(a) == []
    ensures Ended(a + b) == Ended(b)
  {
    EndedAppend(a, b);
  }

  lemma {:induction false} CloseScansSplits(cfg: Config, now: int, fdUse: nat, scans: seq<Scan>)
    ensures var r := CloseScans(cfg, now, fdUse, scans);
            Splits(Ids(scans), Ids(r.scans), Ended(r.calls))
    decreases |scans|
  {
    if scans != [] {
      var e := CloseConns(cfg, now, scans[0].id, fdUse, scans[0].conns);
      CloseConnsQuiet(cfg, now, scans[0].id, fdUse, scans[0].conns);
      CloseScansSplits(cfg, now, e.fdUse, scans[1..]);
      var r := CloseScans(cfg, now, e.fdUse, scans[1..]);
      SplitsCons(scans[0].id, Ids(scans[1..]), Ids(r.scans), Ended(r.calls));
      EndedSkip(e.calls, [OnEnd(scans[0].id)] + r.calls);
      EndedSkip(e.calls, r.calls);
      assert e.calls + [OnEnd(scans[0].id)] + r.calls == e.calls + ([OnEnd(scans[0].id)] + r.calls);
      assert ([OnEnd(scans[0].id)] + r.calls)[1..] == r.calls;
    }
  }

  lemma {:induction false} EndQueuedSplits(remote: nat, queue: seq<Scan>)
    ensures var r := EndQueued(remote, queue);
            Splits(Ids(queue), Ids(r.scans), Ended(r.calls))
  {
    if queue != [] {
      EndQueuedSplits(remote, queue[1..]);
      var r := EndQueued(remote, queue[1..]);
      EndedAppend([OnEnd(queue[0].id)], r.calls);
    }
  }

  lemma {:induction false} EndLiveIds(remote: nat, scans: seq<Scan>)
    ensures Ids(EndLive(remote, scans)) == Ids(scans)
  {
    if scans != [] {
      EndLiveIds(remote, scans[1..]);
    }
  }

  // ----- The actions -----

  /** A new scan is the youngest. */
  lemma BookNew(active: seq<nat>, ended: seq<nat>, n: nat)
    requires Booked(active, ended, n)
    ensures Booked(active + [n], ended, n + 1)
  {
  }

  /** The scans `gone` leave the front part of the list and are reported. */
  lemma BookGone(all: seq<nat>, left: seq<nat>, gone: seq<nat>, rest: seq<nat>, ended: seq<nat>, n: nat)
    requires Booked(all + rest, ended, n) && Splits(all, left, gone)
    ensures Booked(left + rest, ended + gone, n)
  {
    SplitsCounts(all, left, gone);
    SplitsIncreasing(all, left, gone, rest);
    forall i | 0 <= i < |left + rest|
      ensures (left + rest)[i] < n
    {
      assert (left + rest)[i] in all + rest;
    }
  }

  /** The same with the shortened list behind. */
  lemma {:induction false} SplitsPrefix(first: seq<nat>, all: seq<nat>, left: seq<nat>, gone: seq<nat>)
    requires Splits(all, left, gone)
    requires Increasing(first + all)
    ensures Increasing(first + left)
    ensures forall x :: x in first + left ==> x in first + all
    decreases |first|
  {
    if first == [] {
      assert all + [] == all && left + [] == left && first + all == all && first + left == left;
      SplitsIncreasing(all, left, gone, []);
    } else {
      hide Splits;
      var tail, kept := first[1..] + all, first[1..] + left;
      assert first + all == [first[0]] + tail && first + left == [first[0]] + kept;
      assert forall i :: 0 <= i < |tail| ==> tail[i] == (first + all)[i + 1];
      SplitsPrefix(first[1..], all, left, gone);
      forall k | 0 <= k < |kept|
        ensures first[0] < kept[k] && kept[k] in first + all
      {
        assert kept[k] in tail;
        var i :| 0 <= i < |tail| && tail[i] == kept[k];
        assert (first + all)[0] < (first + all)[i + 1];
      }
    }
  }

  /** The same for the part behind. */
  lemma BookGoneBehind(first: seq<nat>, all: seq<nat>, left: seq<nat>, gone: seq<nat>, ended: seq<nat>, n: nat)
    requires Booked(first + all, ended, n) && Splits(all, left, gone)
    ensures Booked(first + left, ended + gone, n)
  {
    SplitsCounts(all, left, gone);
    SplitsPrefix(first, all, left, gone);
    forall i | 0 <= i < |first + left|
      ensures (first + left)[i] < n
    {
      assert (first + left)[i] in first + all;
    }
  }

  /** The books of two states agree. */
  predicate SameBooks(s: State, t: State) {
    ActiveIds(s) == ActiveIds(t) && Ended(s.trace) == Ended(t.trace) && s.accepted == t.accepted
  }

  lemma CheckQueueBooks(cfg: Config, s: State)
    ensures SameBooks(s, CheckQueue(cfg, s))
  {
    var n := Admit(Limit(cfg), s.fdUse, s.queue);
    var a, b := s.queue[..n], s.queue[n..];
    hide Ids, Admit;
    assert s.queue == a + b;
    IdsAppend(a, b);
    IdsAppend(s.live, a);
    assert Ids(s.live) + (Ids(a) + Ids(b)) == (Ids(s.live) + Ids(a)) + Ids(b);
  }

  lemma CheckEstablishBooks(cfg: Config, env: Env, s: State)
    ensures SameBooks(s, CheckEstablish(cfg, env, s))
  {
    EstablishScansQuiet(cfg, env, s.fdUse, s.live);
    EndedAppend(s.trace, EstablishScans(cfg, env, s.fdUse, s.live).calls);
  }

  lemma CheckPollBooks(cfg: Config, env: Env, cap: nat, s: State)
    ensures SameBooks(s, CheckPoll(cfg, env, cap, s))
  {
    var ufds := Capped(cap, Entries(s.live));
    PollScansQuiet(cfg, env, s.live, ufds);
    EndedAppend(s.trace, PollScans(cfg, env, s.live, ufds).calls);
  }

  lemma CheckClosedConserves(cfg: Config, env: Env, s: State)
    requires Conserved(s)
    ensures Conserved(CheckClosed(cfg, env, s))
  {
    var r := CloseScans(cfg, env.now, s.fdUse, s.live);
    CloseScansSplits(cfg, env.now, s.fdUse, s.live);
    EndedAppend(s.trace, r.calls);
    BookGone(Ids(s.live), Ids(r.scans), Ended(r.calls), Ids(s.queue), Ended(s.trace), s.accepted);
  }

  lemma CycleConserves(cfg: Config, env: Env, cap: nat, s: State)
    requires Conserved(s)
    ensures Conserved(Cycle(cfg, env, cap, s))
  {
    hide CheckQueue, CheckEstablish, CheckPoll, CheckClosed, ActiveIds, Ended, Booked;
    var q := CheckQueue(cfg, s);
    CheckQueueBooks(cfg, s);
    var e := CheckEstablish(cfg, env, q);
    CheckEstablishBooks(cfg, env, q);
    var p := CheckPoll(cfg, env, cap, e);
    CheckPollBooks(cfg, env, cap, e);
    CheckClosedConserves(cfg, env, p);
  }

  lemma EndConserves(remote: nat, s: State)
    requires Conserved(s)
    ensures Conserved(End(remote, s))
  {
    EndLiveIds(remote, s.live);
    var r := EndQueued(remote, s.queue);
    EndQueuedSplits(remote, s.queue);
    EndedAppend(s.trace, r.calls);
    BookGoneBehind(Ids(s.live), Ids(s.queue), Ids(r.scans), Ended(r.calls), Ended(s.trace), s.accepted);
  }

  lemma IdsSnoc(scans: seq<Scan>, x: Scan)
    ensures Ids(scans + [x]) == Ids(scans) + [x.id]
  {
    IdsAppend(scans, [x]);
    assert Ids([x]) == [x.id];
  }

  lemma SubmitConserves(s: State, remote: nat, protocols: seq<nat>, addrOk: bool)
    requires Conserved(s)
    ensures Conserved(Submit(s, remote, protocols, addrOk))
  {
    hide Booked, NewConns, Ids, Ended;
    if SubmitResult(protocols, addrOk) == Success {
      IdsSnoc(s.queue, Scan(s.accepted, remote, NewConns(protocols)));
      BookNew(ActiveIds(s), Ended(s.trace), s.accepted);
      assert Ids(s.live) + (Ids(s.queue) + [s.accepted]) == ActiveIds(s) + [s.accepted];
    }
  }

  lemma StepConserves(cfg: Config, s: State, a: Action)
    requires Conserved(s)
    ensures Conserved(Step(cfg, s, a))
  {
    match a
    case DoScan(remote, protocols, addrOk) => SubmitConserves(s, remote, protocols, addrOk);
    case DoCycle(env, cap) => CycleConserves(cfg, env, cap, s);
    case DoEndScan(remote) => EndLiveIds(remote, s.live);
    case DoEnd(remote) => EndConserves(remote, s);
  }

  lemma {:induction false} RunConserves(cfg: Config, s: State, actions: seq<Action>)
    requires Conserved(s)
    ensures Conserved(Run(cfg, s, actions))
    decreases |actions|
  {
    if actions != [] {
      StepConserves(cfg, s, actions[0]);
      RunConserves(cfg, Step(cfg, s, actions[0]), actions[1..]);
    }
  }

  lemma {:induction false} UptoCounts(n: nat, x: nat)
    ensures Upto(n)[x] == (if x < n then 1 else 0) && |Upto(n)| == n
  {
    if n > 0 {
      UptoCounts(n - 1, x);
    }
  }

  lemma BookedCounts(active: seq<nat>, ended: seq<nat>, n: nat, id: nat)
    requires Booked(active, ended, n)
    ensures n == |ended| + |active|
    ensures multiset(ended)[id] == if id < n && id !in active then 1 else 0
  {
    UptoCounts(n, id);
    assert |multiset(ended) + multiset(active)| == n;
    assert (multiset(ended) + multiset(active))[id] == multiset(ended)[id] + multiset(active)[id];
    assert id in active <==> multiset(active)[id] > 0;
  }

  lemma {:induction false} IdsLength(scans: seq<Scan>)
    ensures |Ids(scans)| == |scans|
  {
    if scans != [] {
      IdsLength(scans[1..]);
    }
  }

  /** In every run: the accepted scans are as many as the END callbacks and the
      active scans together; a scan gets its END once, exactly when it was
      accepted and is no longer active; and live list followed by queue is in
      submission order. */
  lemma ScanConservation(cfg: Config, actions: seq<Action>, id: nat)
    ensures var t := Run(cfg, FRESH, actions);
            && t.accepted == |Ended(t.trace)| + Active(t)
            && (multiset(Ended(t.trace))[id] == if id < t.accepted && id !in ActiveIds(t) then 1 else 0)
            && Increasing(ActiveIds(t))
  {
    assert Conserved(FRESH) by {
      assert ActiveIds(FRESH) == [] && Ended(FRESH.trace) == [];
    }
    RunConserves(cfg, FRESH, actions);
    hide Ids, Ended, Run;
    var t := Run(cfg, FRESH, actions);
    BookedCounts(ActiveIds(t), Ended(t.trace), t.accepted, id);
    IdsLength(t.live);
    IdsLength(t.queue);
  }
}
