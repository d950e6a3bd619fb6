/** A scan ends exactly if neither it nor one before it is too big for the limit. */
module ScanProgress {
  import opened CIntegers
  import opened Connections
  import opened ScanModel
  import opened ScanAccounting
  import opened ScanOrder

  /** Connections of the scans numbered `id` at most. */
  function Load(id: nat, scans: seq<Scan>): nat {
    if scans == [] then 0 else (if scans[0].id <= id then |scans[0].conns| else 0) + Load(id, scans[1..])
  }

  function Left(id: nat, s: State): nat {
    Load(id, s.live) + Load(id, s.queue)
  }

  predicate Nonempty(scans: seq<Scan>) {
    forall i :: 0 <= i < |scans| ==> scans[i].conns != []
  }

  /** Every waiting scan numbered `id` at most can be admitted on its own. */
  predicate Fit(cfg: Config, id: nat, queue: seq<Scan>) {
    forall i :: 0 <= i < |queue| && queue[i].id <= id ==> |queue[i].conns| <= Limit(cfg)
  }

  /** Whatever waits for an event was connected no later than `t`. */
  predicate ConnsBy(t: int, conns: seq<Conn>) {
    forall j :: 0 <= j < |conns| && Pollable(conns[j]) ==> conns[j].creation <= t
  }

  predicate ScansBy(t: int, scans: seq<Scan>) {
    forall i :: 0 <= i < |scans| ==> ConnsBy(t, scans[i].conns)
  }

  predicate Ready(cfg: Config, s: State) {
    && Settled(cfg, s) && Conserved(s)
    && Nonempty(s.live) && Nonempty(s.queue)
    && ScansBy(s.clock, s.live)
  }

  /** The clock of a cycle: attempts are stamped no later than the reaping. */
  ghost predicate EnvBy(env: Env, clock: int) {
    && clock <= env.now
    && forall scan: nat, slot: nat :: env.attempt(scan, slot).at <= env.now
  }

  /** Attempted connections that will have timed out once the clock is at
      `t + timeout`, or are closed already. */
  function Aged(t: int, conns: seq<Conn>): nat {
    if conns == [] then 0
    else (if conns[0].state == Closed || (conns[0].state != Unestablished && conns[0].creation <= t) then 1 else 0)
         + Aged(t, conns[1..])
  }

  function AgedAll(t: int, id: nat, scans: seq<Scan>): nat {
    if scans == [] then 0 else (if scans[0].id <= id then Aged(t, scans[0].conns) else 0) + AgedAll(t, id, scans[1..])
  }

  // ----- Establishing -----

  lemma {:induction false} EstablishConnsAges(cfg: Config, env: Env, scan: nat, fdUse: nat, conns: seq<Conn>, t: int, clock: int)
    requires EnvBy(env, clock) && ConnsBy(clock, conns)
    ensures var r := EstablishConns(cfg, env, scan, fdUse, conns);
            && ConnsBy(env.now, r.conns) && |r.conns| == |conns|
            && Aged(t, r.conns) >= Aged(t, conns)
    decreases |conns|
  {
    if conns != [] {
      var connect := fdUse < Limit(cfg) && conns[0].state == Unestablished;
      EstablishConnsAges(cfg, env, scan, if connect then ToUInt(fdUse + 1) else fdUse, conns[1..], t, clock);
    }
  }

  lemma {:induction false} EstablishScansAges(cfg: Config, env: Env, fdUse: nat, scans: seq<Scan>, t: int, id: nat, clock: int)
    requires EnvBy(env, clock) && ScansBy(clock, scans) && Nonempty(scans)
    ensures var r := EstablishScans(cfg, env, fdUse, scans);
            && ScansBy(env.now, r.scans) && Nonempty(r.scans) && Load(id, r.scans) == Load(id, scans)
            && AgedAll(t, id, r.scans) >= AgedAll(t, id, scans)
    decreases |scans|
  {
    if scans != [] {
      EstablishConnsAges(cfg, env, scans[0].id, fdUse, scans[0].conns, t, clock);
      var e := EstablishConns(cfg, env, scans[0].id, fdUse, scans[0].conns);
      EstablishScansAges(cfg, env, e.fdUse, scans[1..], t, id, clock);
    }
  }

  // ----- Polling -----

  /** Handlers neither change the stamp nor bring a closed connection back. */
  lemma {:induction false} HandleFromAges(cfg: Config, env: Env, scan: nat, c: Conn, ufds: seq<PollFd>, k: nat)
    requires c.state != Unestablished
    ensures var d := HandleFrom(cfg, env, scan, c, ufds, k).conn;
            && d.creation == c.creation && d.state != Unestablished
            && (c.state == Closed ==> d.state == Closed)
            && (Pollable(d) ==> Pollable(c))
    decreases |ufds| - k
  {
    if k < |ufds| {
      HandleFromAges(cfg, env, scan, Handle(cfg, env, scan, c, ufds, k).conn, ufds, k + 1);
    }
  }

  lemma {:induction false} PollConnsAges(cfg: Config, env: Env, scan: nat, conns: seq<Conn>, ufds: seq<PollFd>, t: int, clock: int)
    requires Attempted(conns) == |conns| && ConnsBy(clock, conns)
    ensures var r := PollConns(cfg, env, scan, conns, ufds);
            && ConnsBy(clock, r.conns) && |r.conns| == |conns|
            && Aged(t, r.conns) >= Aged(t, conns)
  {
    if conns != [] {
      HandleFromAges(cfg, env, scan, conns[0], ufds, 0);
      PollConnsAges(cfg, env, scan, conns[1..], ufds, t, clock);
    }
  }

  lemma {:induction false} PollScansAges(cfg: Config, env: Env, scans: seq<Scan>, ufds: seq<PollFd>, t: int, id: nat, clock: int)
    requires AllAttempted(scans) && ScansBy(clock, scans) && Nonempty(scans)
    ensures var r := PollScans(cfg, env, scans, ufds);
            && ScansBy(clock, r.scans) && Nonempty(r.scans) && Load(id, r.scans) == Load(id, scans)
            && AgedAll(t, id, r.scans) >= AgedAll(t, id, scans)
  {
    if scans != [] {
      AttemptedAtMost(scans[1..]);
      PollConnsAges(cfg, env, scans[0].id, scans[0].conns, ufds, t, clock);
      PollScansAges(cfg, env, scans[1..], ufds, t, id, clock);
    }
  }

  // ----- Reaping -----

  lemma {:induction false} CloseConnsAges(cfg: Config, now: int, scan: nat, fdUse: nat, conns: seq<Conn>, t: int, clock: int)
    requires ConnsBy(clock, conns)
    ensures var r := CloseConns(cfg, now, scan, fdUse, conns);
            && ConnsBy(clock, r.conns) && |r.conns| <= |conns|
            && (|r.conns| == |conns| ==> Aged(t, r.conns) >= Aged(t, conns))
            && (now - t >= cfg.timeout && Aged(t, conns) > 0 ==> |r.conns| < |conns|)
    decreases |conns|
  {
    if conns != [] {
      CloseConnsAges(cfg, now, scan, if Reaped(cfg, now, conns[0]) then ToUInt(fdUse - 1) else fdUse, conns[1..], t, clock);
    }
  }

  lemma {:induction false} CloseScansAges(cfg: Config, now: int, fdUse: nat, scans: seq<Scan>, t: int, id: nat, clock: int)
    requires ScansBy(clock, scans) && Nonempty(scans)
    ensures var r := CloseScans(cfg, now, fdUse, scans);
            && ScansBy(clock, r.scans) && Nonempty(r.scans)
            && Load(id, r.scans) <= Load(id, scans)
            && (Load(id, r.scans) == Load(id, scans) ==> AgedAll(t, id, r.scans) >= AgedAll(t, id, scans))
            && (now - t >= cfg.timeout && AgedAll(t, id, scans) > 0 ==> Load(id, r.scans) < Load(id, scans))
    decreases |scans|
  {
    if scans != [] {
      CloseConnsAges(cfg, now, scans[0].id, fdUse, scans[0].conns, t, clock);
      var e := CloseConns(cfg, now, scans[0].id, fdUse, scans[0].conns);
      CloseScansAges(cfg, now, e.fdUse, scans[1..], t, id, clock);
    }
  }

  // ----- One cycle -----

  lemma {:induction false} LoadAppend(id: nat, a: seq<Scan>, b: seq<Scan>)
    ensures Load(id, a + b) == Load(id, a) + Load(id, b)
  {
    if a == [] {
      assert a + b == b;
    } else {
      assert (a + b)[1..] == a[1..] + b;
      LoadAppend(id, a[1..], b);
    }
  }

  lemma {:induction false} AgedAppend(t: int, id: nat, a: seq<Scan>, b: seq<Scan>)
    ensures AgedAll(t, id, a + b) == AgedAll(t, id, a) + AgedAll(t, id, b)
  {
    if a == [] {
      assert a + b == b;
    } else {
      assert (a + b)[1..] == a[1..] + b;
      AgedAppend(t, id, a[1..], b);
    }
  }

  lemma {:induction false} UnattemptedConns(conns: seq<Conn>)
    requires Attempted(conns) == 0
    ensures forall j :: 0 <= j < |conns| ==> conns[j].state == Unestablished
  {
    if conns != [] {
      UnattemptedConns(conns[1..]);
      assert forall j :: 1 <= j < |conns| ==> conns[j] == conns[1..][j - 1];
    }
  }

  lemma UnusedBy(t: int, scans: seq<Scan>)
    requires Unused(scans)
    ensures ScansBy(t, scans)
  {
    forall i | 0 <= i < |scans|
      ensures ConnsBy(t, scans[i].conns)
    {
      UnattemptedConns(scans[i].conns);
    }
  }

  lemma {:induction false} NoLoad(id: nat, scans: seq<Scan>)
    requires forall i :: 0 <= i < |scans| ==> scans[i].id > id
    ensures Load(id, scans) == 0
  {
    if scans != [] {
      NoLoad(id, scans[1..]);
    }
  }

  lemma {:induction false} LoadedHead(id: nat, scans: seq<Scan>)
    requires Load(id, scans) > 0
    requires forall i :: 0 < i < |scans| ==> scans[0].id < scans[i].id
    ensures scans[0].id <= id
  {
    if scans[0].id > id {
      NoLoad(id, scans);
    }
  }

  /** Scans stand in submission order, so the first one is numbered `id` at most
      if any is. */
  lemma FirstLoaded(id: nat, s: State)
    requires Conserved(s) && Left(id, s) > 0
    ensures s.live + s.queue != [] && (s.live + s.queue)[0].id <= id
  {
    var all := s.live + s.queue;
    LoadAppend(id, s.live, s.queue);
    IdsAppend(s.live, s.queue);
    IdsAre(all);
    assert all != [] && ActiveIds(s) == Ids(all);
    hide Load, Ids;
    forall i | 0 < i < |all|
      ensures all[0].id < all[i].id
    {
      assert Ids(all)[0] < Ids(all)[i];
    }
    LoadedHead(id, all);
  }

  lemma FirstAdmitted(cfg: Config, s: State, id: nat)
    requires Settled(cfg, s) && Conserved(s) && Left(id, s) > 0 && Fit(cfg, id, s.queue)
    ensures var q := CheckQueue(cfg, s);
            q.live != [] && q.live[0].id <= id
  {
    FirstLoaded(id, s);
    var n := Admit(Limit(cfg), s.fdUse, s.queue);
    if s.live == [] {
      assert |s.queue[0].conns| <= Limit(cfg);
      assert n >= 1 && (s.live + s.queue[..n])[0] == s.queue[0];
    } else {
      assert (s.live + s.queue[..n])[0] == s.live[0];
    }
  }

  lemma CheckQueueAges(cfg: Config, s: State, t: int, id: nat)
    requires Ready(cfg, s)
    ensures var q := CheckQueue(cfg, s);
            && Left(id, q) == Left(id, s) && Nonempty(q.live) && ScansBy(s.clock, q.live)
            && AgedAll(t, id, q.live) >= AgedAll(t, id, s.live)
  {
    var n := Admit(Limit(cfg), s.fdUse, s.queue);
    var a, b := s.queue[..n], s.queue[n..];
    assert s.queue == a + b;
    LoadAppend(id, s.live, a);
    LoadAppend(id, a, b);
    AgedAppend(t, id, s.live, a);
    UnusedBy(s.clock, a);
  }

  /** Once every live connection is attempted, all of them are aged at the time
      of the cycle. */
  lemma {:induction false} AllAged(t: int, conns: seq<Conn>)
    requires Attempted(conns) == |conns| && ConnsBy(t, conns)
    ensures Aged(t, conns) == |conns|
  {
    if conns != [] {
      AllAged(t, conns[1..]);
    }
  }

  lemma SomeAged(t: int, id: nat, scans: seq<Scan>)
    requires scans != [] && scans[0].id <= id
    requires Nonempty(scans) && ScansBy(t, scans) && AllAttempted(scans)
    ensures AgedAll(t, id, scans) > 0
  {
    AttemptedAtMost(scans[1..]);
    AllAged(t, scans[0].conns);
  }

  lemma CheckPollAges(cfg: Config, env: Env, cap: nat, s: State, t: int, id: nat, clock: int)
    requires AllAttempted(s.live) && ScansBy(clock, s.live) && Nonempty(s.live)
    ensures var p := CheckPoll(cfg, env, cap, s);
            && ScansBy(clock, p.live) && Nonempty(p.live) && Load(id, p.live) == Load(id, s.live)
            && AgedAll(t, id, p.live) >= AgedAll(t, id, s.live)
  {
    PollScansAges(cfg, env, s.live, Capped(cap, Entries(s.live)), t, id, clock);
  }

  lemma CheckPollQueue(cfg: Config, env: Env, cap: nat, s: State)
    ensures CheckPoll(cfg, env, cap, s).queue == s.queue
  {
  }

  /** What connecting and polling leave. */
  lemma FirstPhases(cfg: Config, env: Env, cap: nat, s: State, t: int, id: nat)
    requires Ready(cfg, s) && ConfigOk(cfg) && EnvBy(env, s.clock)
    ensures var q := CheckQueue(cfg, s);
            var p := CheckPoll(cfg, env, cap, CheckEstablish(cfg, env, q));
            && Settled(cfg, p) && p.queue == q.queue
            && Nonempty(p.live) && ScansBy(env.now, p.live)
            && Load(id, p.live) + Load(id, p.queue) == Left(id, s)
            && AgedAll(t, id, p.live) >= AgedAll(t, id, s.live)
            && (t == env.now && q.live != [] && q.live[0].id <= id ==> AgedAll(t, id, p.live) > 0)
  {
    var q := CheckQueue(cfg, s);
    CheckQueueKeeps(cfg, s);
    CheckQueueAges(cfg, s, t, id);
    var e := CheckEstablish(cfg, env, q);
    CheckEstablishKeeps(cfg, env, q);
    EstablishScansAges(cfg, env, q.fdUse, q.live, t, id, s.clock);
    assert q.live != [] ==> e.live != [] && e.live[0].id == q.live[0].id;
    hide CheckQueue, CheckPoll, Conserved, AgedAll, Load;
    if t == env.now && q.live != [] && q.live[0].id <= id {
      SomeAged(t, id, e.live);
    }
    CheckPollAges(cfg, env, cap, e, t, id, env.now);
    CheckPollKeeps(cfg, env, cap, e);
    CheckPollQueue(cfg, env, cap, e);
  }

  lemma CheckClosedAges(cfg: Config, env: Env, s: State, t: int, id: nat)
    requires Settled(cfg, s) && Nonempty(s.live) && ScansBy(env.now, s.live)
    ensures var c := CheckClosed(cfg, env, s);
            && Settled(cfg, c) && c.queue == s.queue && c.clock == env.now
            && Nonempty(c.live) && ScansBy(env.now, c.live)
            && Left(id, c) <= Left(id, s)
            && (Left(id, c) == Left(id, s) ==> AgedAll(t, id, c.live) >= AgedAll(t, id, s.live))
            && (env.now - t >= cfg.timeout && AgedAll(t, id, s.live) > 0 ==> Left(id, c) < Left(id, s))
  {
    CheckClosedKeeps(cfg, env, s);
    CloseScansAges(cfg, env.now, s.fdUse, s.live, t, id, env.now);
  }

  /** A cycle keeps the invariant. */
  lemma CycleReady(cfg: Config, env: Env, cap: nat, s: State)
    requires Ready(cfg, s) && ConfigOk(cfg) && EnvBy(env, s.clock)
    ensures Ready(cfg, Cycle(cfg, env, cap, s))
  {
    hide Settled, CheckEstablish, CheckPoll, CheckClosed, Conserved, AgedAll;
    FirstPhases(cfg, env, cap, s, 0, 0);
    CheckClosedAges(cfg, env, CheckPoll(cfg, env, cap, CheckEstablish(cfg, env, CheckQueue(cfg, s))), 0, 0);
    CycleConserves(cfg, env, cap, s);
  }

  lemma FitBehind(cfg: Config, s: State, id: nat)
    requires Fit(cfg, id, s.queue)
    ensures Fit(cfg, id, CheckQueue(cfg, s).queue)
  {
  }

  lemma CycleAccepts(cfg: Config, env: Env, cap: nat, s: State)
    ensures Cycle(cfg, env, cap, s).accepted == s.accepted
  {
  }

  // ----- One step -----

  /** What a step of the scanner does for the scans numbered `id` at most: their
      load never grows, and while it stays the same, what has aged stays aged. */
  ghost predicate Onward(cfg: Config, s: State, c: State, t: int, id: nat) {
    && Fit(cfg, id, c.queue) && id < c.accepted && s.clock <= c.clock
    && Left(id, c) <= Left(id, s)
    && (Left(id, c) == Left(id, s) ==> AgedAll(t, id, c.live) >= AgedAll(t, id, s.live))
  }

  /** A cycle removes connections that have timed out, and if it removes none, the
      connections aged at the time of the cycle are not none. */
  lemma CycleAges(cfg: Config, env: Env, cap: nat, s: State, t: int, id: nat)
    requires Ready(cfg, s) && ConfigOk(cfg) && EnvBy(env, s.clock)
    requires Fit(cfg, id, s.queue) && id < s.accepted
    ensures var c := Cycle(cfg, env, cap, s);
            && Onward(cfg, s, c, t, id) && c.clock == env.now
            && (Left(id, c) == Left(id, s) > 0 && t == env.now ==> cfg.timeout > 0 && AgedAll(t, id, c.live) > 0)
            && (env.now - t >= cfg.timeout && AgedAll(t, id, s.live) > 0 ==> Left(id, c) < Left(id, s))
  {
    hide Settled, CheckQueue, CheckEstablish, CheckPoll, CheckClosed, Conserved, AgedAll, Fit, Nonempty, ScansBy;
    FirstPhases(cfg, env, cap, s, t, id);
    var p := CheckPoll(cfg, env, cap, CheckEstablish(cfg, env, CheckQueue(cfg, s)));
    CheckClosedAges(cfg, env, p, t, id);
    FitBehind(cfg, s, id);
    CycleAccepts(cfg, env, cap, s);
    if Left(id, s) > 0 {
      FirstAdmitted(cfg, s, id);
    }
  }

  lemma {:induction false} AllClosedAged(t: int, conns: seq<Conn>)
    ensures Aged(t, CloseAll(conns)) >= Aged(t, conns)
  {
    if conns != [] {
      AllClosedAged(t, conns[1..]);
    }
  }

  lemma {:induction false} EndLiveAges(remote: nat, scans: seq<Scan>, t: int, id: nat, clock: int)
    requires Nonempty(scans) && ScansBy(clock, scans)
    ensures var r := EndLive(remote, scans);
            && Nonempty(r) && ScansBy(clock, r) && Load(id, r) == Load(id, scans)
            && AgedAll(t, id, r) >= AgedAll(t, id, scans)
  {
    if scans != [] {
      AllClosedAged(t, scans[0].conns);
      EndLiveAges(remote, scans[1..], t, id, clock);
    }
  }

  lemma {:induction false} EndQueuedAges(cfg: Config, remote: nat, queue: seq<Scan>, id: nat)
    requires Nonempty(queue)
    ensures var r := EndQueued(remote, queue).scans;
            && Nonempty(r) && Load(id, r) <= Load(id, queue) && (Fit(cfg, id, queue) ==> Fit(cfg, id, r))
  {
    if queue != [] {
      EndQueuedAges(cfg, remote, queue[1..], id);
    }
  }

  lemma EndAges(cfg: Config, remote: nat, s: State, t: int, id: nat)
    requires Ready(cfg, s)
    ensures Ready(cfg, EndScan(remote, s)) && Ready(cfg, End(remote, s))
    ensures Fit(cfg, id, s.queue) && id < s.accepted ==>
            Onward(cfg, s, EndScan(remote, s), t, id) && Onward(cfg, s, End(remote, s), t, id)
  {
    hide Settled, Conserved;
    EndKeeps(cfg, remote, s);
    StepConserves(cfg, s, DoEndScan(remote));
    StepConserves(cfg, s, DoEnd(remote));
    EndLiveAges(remote, s.live, t, id, s.clock);
    EndQueuedAges(cfg, remote, s.queue, id);
  }

  lemma SubmitAges(cfg: Config, s: State, remote: nat, protocols: seq<nat>, addrOk: bool, t: int, id: nat)
    requires Ready(cfg, s) && |protocols| < 0x8000_0000
    ensures Ready(cfg, Submit(s, remote, protocols, addrOk))
    ensures Fit(cfg, id, s.queue) && id < s.accepted ==> Onward(cfg, s, Submit(s, remote, protocols, addrOk), t, id)
  {
    hide Settled, Conserved;
    SubmitKeeps(cfg, s, remote, protocols, addrOk);
    SubmitConserves(s, remote, protocols, addrOk);
    LoadAppend(id, s.queue, [Scan(s.accepted, remote, NewConns(protocols))]);
  }

  /** Cycles come with a clock that advances by at least `tick` each. */
  ghost predicate ClockOk(tick: nat, clock: int, a: Action) {
    ActionOk(a) && (a.DoCycle? ==> EnvBy(a.env, clock + tick))
  }

  lemma CycleClock(cfg: Config, env: Env, cap: nat, s: State)
    ensures Cycle(cfg, env, cap, s).clock == env.now
  {
  }

  function ClockAfter(clock: int, a: Action): int {
    if a.DoCycle? then a.env.now else clock
  }

  lemma StepAges(cfg: Config, s: State, a: Action, t: int, id: nat, tick: nat)
    requires Ready(cfg, s) && ConfigOk(cfg) && ClockOk(tick, s.clock, a)
    ensures var c := Step(cfg, s, a);
            && Ready(cfg, c) && c.clock == ClockAfter(s.clock, a)
            && (Fit(cfg, id, s.queue) && id < s.accepted ==> Onward(cfg, s, c, t, id))
  {
    hide Ready, Fit, Cycle, Onward;
    match a
    case DoScan(remote, protocols, addrOk) => SubmitAges(cfg, s, remote, protocols, addrOk, t, id);
    case DoCycle(env, cap) =>
      CycleReady(cfg, env, cap, s);
      CycleClock(cfg, env, cap, s);
      if Fit(cfg, id, s.queue) && id < s.accepted {
        CycleAges(cfg, env, cap, s, t, id);
      }
    case DoEndScan(remote) => EndAges(cfg, remote, s, t, id);
    case DoEnd(remote) => EndAges(cfg, remote, s, t, id);
  }

  // ----- Runs -----

  /** Any calls of the library; the clock advances by at least `tick` from one
      cycle to the next, and never runs backwards within a cycle. */
  ghost predicate Clocked(tick: nat, clock: int, actions: seq<Action>)
    decreases |actions|
  {
    actions == [] || (ClockOk(tick, clock, actions[0]) && Clocked(tick, ClockAfter(clock, actions[0]), actions[1..]))
  }

  function Cycles(actions: seq<Action>): nat {
    if actions == [] then 0 else (if actions[0].DoCycle? then 1 else 0) + Cycles(actions[1..])
  }

  /** How many cycles surely remove a connection. */
  function Period(cfg: Config): nat {
    if cfg.timeout <= 0 then 1 else cfg.timeout + 1
  }

  lemma {:induction false} RunReady(cfg: Config, s: State, actions: seq<Action>, tick: nat)
    requires Ready(cfg, s) && ConfigOk(cfg) && Clocked(tick, s.clock, actions)
    ensures Ready(cfg, Run(cfg, s, actions))
    decreases |actions|
  {
    hide Ready, Step;
    if actions != [] {
      StepAges(cfg, s, actions[0], 0, 0, tick);
      RunReady(cfg, Step(cfg, s, actions[0]), actions[1..], tick);
    }
  }

  lemma {:induction false} RunOnward(cfg: Config, s: State, actions: seq<Action>, id: nat)
    requires Ready(cfg, s) && ConfigOk(cfg) && Clocked(1, s.clock, actions)
    requires Fit(cfg, id, s.queue) && id < s.accepted
    ensures var c := Run(cfg, s, actions);
            Ready(cfg, c) && Fit(cfg, id, c.queue) && id < c.accepted && Left(id, c) <= Left(id, s)
    decreases |actions|
  {
    hide Ready, Fit, Step;
    if actions != [] {
      StepAges(cfg, s, actions[0], 0, id, 1);
      RunOnward(cfg, Step(cfg, s, actions[0]), actions[1..], id);
    }
  }

  lemma StepCycle(cfg: Config, s: State, a: Action)
    requires a.DoCycle?
    ensures Step(cfg, s, a) == Cycle(cfg, a.env, a.cap, s)
  {
  }

  /** Connections aged at time `t` do not survive the timeout. */
  lemma {:induction false} AgedGo(cfg: Config, s: State, actions: seq<Action>, t: int, id: nat)
    requires Ready(cfg, s) && ConfigOk(cfg) && Clocked(1, s.clock, actions)
    requires Fit(cfg, id, s.queue) && id < s.accepted
    requires AgedAll(t, id, s.live) > 0 && Cycles(actions) > 0
    requires s.clock + Cycles(actions) - t >= cfg.timeout
    ensures Left(id, Run(cfg, s, actions)) < Left(id, s)
    decreases |actions|
  {
    hide Ready, Fit, Step, Left, AgedAll;
    var a, c := actions[0], Step(cfg, s, actions[0]);
    StepAges(cfg, s, a, t, id, 1);
    RunOnward(cfg, c, actions[1..], id);
    if a.DoCycle? {
      CycleAges(cfg, a.env, a.cap, s, t, id);
      StepCycle(cfg, s, a);
    }
    if Left(id, c) == Left(id, s) {
      if Cycles(actions[1..]) > 0 {
        AgedGo(cfg, c, actions[1..], t, id);
      }
    }
  }

  /** While scans numbered `id` at most have connections, each period of cycles
      removes some, whatever else is called between the cycles. */
  lemma {:induction false} PeriodRemoves(cfg: Config, s: State, actions: seq<Action>, id: nat)
    requires Ready(cfg, s) && ConfigOk(cfg) && Clocked(1, s.clock, actions)
    requires Fit(cfg, id, s.queue) && id < s.accepted
    requires Cycles(actions) >= Period(cfg) && Left(id, s) > 0
    ensures Left(id, Run(cfg, s, actions)) < Left(id, s)
    decreases |actions|
  {
    hide Ready, Fit, Step, Left, AgedAll;
    var a, c := actions[0], Step(cfg, s, actions[0]);
    var t := ClockAfter(s.clock, a);
    StepAges(cfg, s, a, t, id, 1);
    RunOnward(cfg, c, actions[1..], id);
    if a.DoCycle? {
      CycleAges(cfg, a.env, a.cap, s, t, id);
      StepCycle(cfg, s, a);
    }
    if Left(id, c) == Left(id, s) {
      if a.DoCycle? {
        AgedGo(cfg, c, actions[1..], t, id);
      } else {
        PeriodRemoves(cfg, c, actions[1..], id);
      }
    }
  }

  lemma {:induction false} RunSplit(cfg: Config, s: State, a: seq<Action>, b: seq<Action>)
    ensures Run(cfg, s, a + b) == Run(cfg, Run(cfg, s, a), b)
    decreases |a|
  {
    if a == [] {
      assert a + b == b;
    } else {
      assert (a + b)[1..] == a[1..] + b;
      RunSplit(cfg, Step(cfg, s, a[0]), a[1..], b);
    }
  }

  /** How many actions make up the first `n` cycles. */
  function Reach(actions: seq<Action>, n: nat): (k: nat)
    requires n <= Cycles(actions)
    ensures k <= |actions|
  {
    if n == 0 then 0
    else 1 + Reach(actions[1..], if actions[0].DoCycle? then n - 1 else n)
  }

  lemma {:induction false} ReachCycles(actions: seq<Action>, n: nat)
    requires n <= Cycles(actions)
    ensures var k := Reach(actions, n);
            Cycles(actions[..k]) == n && Cycles(actions[k..]) == Cycles(actions) - n
  {
    if n > 0 {
      var m := if actions[0].DoCycle? then n - 1 else n;
      ReachCycles(actions[1..], m);
      var k := Reach(actions[1..], m);
      assert actions[..1 + k][1..] == actions[1..][..k] && actions[1 + k..] == actions[1..][k..];
    }
  }

  lemma {:induction false} ClockedSplit(cfg: Config, s: State, a: seq<Action>, b: seq<Action>)
    requires Ready(cfg, s) && ConfigOk(cfg) && Clocked(1, s.clock, a + b)
    ensures Clocked(1, s.clock, a) && Clocked(1, Run(cfg, s, a).clock, b)
    decreases |a|
  {
    hide Ready, Step;
    if a == [] {
      assert a + b == b;
    } else {
      assert (a + b)[1..] == a[1..] + b && (a + b)[0] == a[0];
      StepAges(cfg, s, a[0], 0, 0, 1);
      ClockedSplit(cfg, Step(cfg, s, a[0]), a[1..], b);
    }
  }

  lemma Periods(n: nat, p: nat)
    requires n > 0
    ensures n * p == (n - 1) * p + p >= p
  {
  }

  lemma {:induction false} CyclesExhaust(cfg: Config, s: State, actions: seq<Action>, id: nat, n: nat)
    requires Ready(cfg, s) && ConfigOk(cfg) && Clocked(1, s.clock, actions)
    requires Fit(cfg, id, s.queue) && id < s.accepted
    requires Left(id, s) <= n && Cycles(actions) >= n * Period(cfg)
    ensures Left(id, Run(cfg, s, actions)) == 0
    decreases n
  {
    hide Ready, Period, Run, Left, Clocked, ConfigOk, Fit, Cycles, Reach;
    RunOnward(cfg, s, actions, id);
    if Left(id, s) > 0 {
      var p := Period(cfg);
      Periods(n, p);
      ReachCycles(actions, p);
      var k := Reach(actions, p);
      var a, b := actions[..k], actions[k..];
      assert actions == a + b;
      ClockedSplit(cfg, s, a, b);
      PeriodRemoves(cfg, s, a, id);
      RunOnward(cfg, s, a, id);
      RunSplit(cfg, s, a, b);
      CyclesExhaust(cfg, Run(cfg, s, a), b, id, n - 1);
    }
  }

  // ----- Whole runs -----

  lemma {:induction false} NoneLoaded(id: nat, scans: seq<Scan>)
    requires Nonempty(scans) && Load(id, scans) == 0
    ensures forall j: nat :: j <= id ==> j !in Ids(scans)
  {
    if scans != [] {
      assert scans[0].conns != [];
      NoneLoaded(id, scans[1..]);
    }
  }

  lemma FreshReady(cfg: Config)
    ensures Ready(cfg, FRESH)
  {
    assert ActiveIds(FRESH) == [] && Ended(FRESH.trace) == [];
  }

  lemma NothingLeft(cfg: Config, s: State, id: nat)
    requires Ready(cfg, s) && Left(id, s) == 0
    ensures forall j: nat :: j <= id ==> j !in ActiveIds(s)
  {
    NoneLoaded(id, s.live);
    NoneLoaded(id, s.queue);
  }

  /** After any history, a scan of which neither itself nor one before it is too
      big for the limit ends within TIMEOUT + 1 cycles for each connection of the
      active scans up to it, whatever the sockets do and whatever scans the client
      submits and ends between the cycles, whose clock advances by a second each.
      It has then had exactly one END callback, and so has every scan before it. */
  lemma EveryScanEnds(cfg: Config, history: seq<Action>, actions: seq<Action>, id: nat)
    requires ConfigOk(cfg) && Clocked(0, 0, history)
    requires var s := Run(cfg, FRESH, history);
             && id < s.accepted && Fit(cfg, id, s.queue) && Clocked(1, s.clock, actions)
             && Cycles(actions) >= Left(id, s) * Period(cfg)
    ensures var t := Run(cfg, FRESH, history + actions);
            forall j: nat :: j <= id ==> j !in ActiveIds(t) && multiset(Ended(t.trace))[j] == 1
  {
    FreshReady(cfg);
    RunReady(cfg, FRESH, history, 0);
    hide Run, Clocked, Ended, Ids, Cycles, Period, Fit, Left;
    var s := Run(cfg, FRESH, history);
    CyclesExhaust(cfg, s, actions, id, Left(id, s));
    RunOnward(cfg, s, actions, id);
    RunSplit(cfg, FRESH, history, actions);
    var t := Run(cfg, FRESH, history + actions);
    NothingLeft(cfg, t, id);
    forall j: nat | j <= id
      ensures multiset(Ended(t.trace))[j] == 1
    {
      ScanConservation(cfg, history + actions, j);
    }
  }

  // ----- Scans that are too big -----

  lemma {:induction false} AdmitStops(limit: nat, projected: nat, queue: seq<Scan>, k: nat)
    requires Sized(queue) && projected <= limit < 0x8000_0000
    requires k < |queue| && |queue[k].conns| > limit
    ensures Admit(limit, projected, queue) <= k
    decreases k
  {
    var p := |queue[0].conns| + projected;
    if k > 0 && p <= limit {
      AdmitStops(limit, p, queue[1..], k - 1);
    }
  }

  lemma CycleQueue(cfg: Config, env: Env, cap: nat, s: State)
    ensures Cycle(cfg, env, cap, s).queue == s.queue[Admit(Limit(cfg), s.fdUse, s.queue)..]
  {
  }

  /** How many scans a step takes from the head of the queue, if it ends none. */
  function Taken(cfg: Config, s: State, a: Action): (n: nat)
    ensures n <= |s.queue|
  {
    if a.DoCycle? then Admit(Limit(cfg), s.fdUse, s.queue) else 0
  }

  lemma StepQueue(cfg: Config, s: State, a: Action, i: nat)
    requires !a.DoEnd? && Taken(cfg, s, a) <= i < |s.queue|
    ensures var k := i - Taken(cfg, s, a);
            k < |Step(cfg, s, a).queue| && Step(cfg, s, a).queue[k] == s.queue[i]
  {
    hide Cycle, NewConns, Admit;
    if a.DoCycle? {
      CycleQueue(cfg, a.env, a.cap, s);
    }
  }

  lemma TakenBefore(cfg: Config, s: State, a: Action, k: nat)
    requires Settled(cfg, s) && ConfigOk(cfg) && k < |s.queue| && |s.queue[k].conns| > Limit(cfg)
    ensures Taken(cfg, s, a) <= k
  {
    AdmitStops(Limit(cfg), s.fdUse, s.queue, k);
  }

  /** `x` waits at `m`, at or behind a scan that is too big. */
  predicate Blocked(cfg: Config, queue: seq<Scan>, k: nat, m: nat, x: Scan) {
    k <= m < |queue| && |queue[k].conns| > Limit(cfg) && queue[m] == x
  }

  lemma BlockedStep(cfg: Config, s: State, a: Action, k: nat, m: nat, x: Scan)
    requires Settled(cfg, s) && ConfigOk(cfg) && !a.DoEnd? && Blocked(cfg, s.queue, k, m, x)
    ensures var n := Taken(cfg, s, a);
            n <= k <= m && Blocked(cfg, Step(cfg, s, a).queue, k - n, m - n, x)
  {
    TakenBefore(cfg, s, a, k);
    hide Step, Settled, Taken, Limit;
    StepQueue(cfg, s, a, k);
    StepQueue(cfg, s, a, m);
  }

  /** A scan that is too big, and every scan behind it, stays in the queue. */
  lemma {:induction false} BigScanBlocks(cfg: Config, s: State, actions: seq<Action>, k: nat, m: nat, x: Scan)
    requires Settled(cfg, s) && ConfigOk(cfg) && Blocked(cfg, s.queue, k, m, x)
    requires forall a :: a in actions ==> ActionOk(a) && !a.DoEnd?
    ensures x in Run(cfg, s, actions).queue
    decreases |actions|
  {
    hide Step, Settled, Taken;
    if actions != [] {
      var a := actions[0];
      StepKeeps(cfg, s, a);
      BlockedStep(cfg, s, a, k, m, x);
      var n := Taken(cfg, s, a);
      hide Blocked;
      BigScanBlocks(cfg, Step(cfg, s, a), actions[1..], k - n, m - n, x);
    }
  }

  lemma {:induction false} ClockedOk(tick: nat, clock: int, actions: seq<Action>)
    requires Clocked(tick, clock, actions)
    ensures forall a :: a in actions ==> ActionOk(a)
    decreases |actions|
  {
    if actions != [] {
      ClockedOk(tick, ClockAfter(clock, actions[0]), actions[1..]);
      assert forall a :: a in actions ==> a == actions[0] || a in actions[1..];
    }
  }

  lemma WaitsActive(s: State, x: Scan)
    requires x in s.queue
    ensures x.id in ActiveIds(s)
  {
    IdsAre(s.queue);
    var j: nat :| j < |s.queue| && s.queue[j] == x;
    assert ActiveIds(s)[|Ids(s.live)| + j] == x.id;
  }

  /** A scan waiting behind one that is too big, or too big itself, stays active. */
  lemma BlockedStays(cfg: Config, s: State, actions: seq<Action>, id: nat)
    requires Settled(cfg, s) && Conserved(s) && ConfigOk(cfg) && !Fit(cfg, id, s.queue) && id in ActiveIds(s)
    requires forall a :: a in actions ==> ActionOk(a) && !a.DoEnd?
    ensures id in ActiveIds(Run(cfg, s, actions))
  {
    hide Run, Settled, Ended;
    var k: nat :| k < |s.queue| && s.queue[k].id <= id && |s.queue[k].conns| > Limit(cfg);
    IdsAre(s.live);
    IdsAre(s.queue);
    var n := |s.live|;
    var m: nat :| m < |ActiveIds(s)| && ActiveIds(s)[m] == id;
    assert ActiveIds(s)[n + k] == s.queue[k].id;
    assert m >= n + k;
    var x := s.queue[m - n];
    assert x.id == id;
    BigScanBlocks(cfg, s, actions, k, m - n, x);
    WaitsActive(Run(cfg, s, actions), x);
  }

  lemma CycleTrace(cfg: Config, env: Env, cap: nat, s: State)
    ensures s.trace <= Cycle(cfg, env, cap, s).trace
  {
    assert s.trace <= CheckQueue(cfg, s).trace;
  }

  lemma {:induction false} TraceGrows(cfg: Config, s: State, actions: seq<Action>)
    ensures s.trace <= Run(cfg, s, actions).trace
    decreases |actions|
  {
    if actions != [] {
      if actions[0].DoCycle? {
        CycleTrace(cfg, actions[0].env, actions[0].cap, s);
      }
      hide Cycle;
      TraceGrows(cfg, Step(cfg, s, actions[0]), actions[1..]);
    }
  }

  lemma EndedStays(cfg: Config, s: State, actions: seq<Action>, id: nat)
    ensures multiset(Ended(Run(cfg, s, actions).trace))[id] >= multiset(Ended(s.trace))[id]
  {
    hide Run, Ended;
    TraceGrows(cfg, s, actions);
    var t := Run(cfg, s, actions).trace;
    assert t == s.trace + t[|s.trace|..];
    EndedAppend(s.trace, t[|s.trace|..]);
  }

  /** If the client does not take scans back meanwhile, that condition is exact: a
      scan has had its END after these cycles if and only if it had ended before or
      no scan in the queue, up to itself, is too big for the limit. */
  lemma EndsIffFits(cfg: Config, history: seq<Action>, actions: seq<Action>, id: nat)
    requires ConfigOk(cfg) && Clocked(0, 0, history)
    requires forall a :: a in actions ==> !a.DoEnd?
    requires var s := Run(cfg, FRESH, history);
             && id < s.accepted && Clocked(1, s.clock, actions)
             && Cycles(actions) >= Left(id, s) * Period(cfg)
    ensures var s := Run(cfg, FRESH, history);
            var t := Run(cfg, FRESH, history + actions);
            multiset(Ended(t.trace))[id] == 1 <==> id !in ActiveIds(s) || Fit(cfg, id, s.queue)
  {
    FreshReady(cfg);
    RunReady(cfg, FRESH, history, 0);
    hide Run, Clocked, Ended, Ids, Cycles, Period, Fit, Left;
    var s := Run(cfg, FRESH, history);
    RunSplit(cfg, FRESH, history, actions);
    ScanConservation(cfg, history, id);
    ScanConservation(cfg, history + actions, id);
    if Fit(cfg, id, s.queue) {
      EveryScanEnds(cfg, history, actions, id);
    } else if id in ActiveIds(s) {
      ClockedOk(1, s.clock, actions);
      BlockedStays(cfg, s, actions, id);
    } else {
      EndedStays(cfg, s, actions, id);
    }
  }
}
