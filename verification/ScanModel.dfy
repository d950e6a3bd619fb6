/** The proxy scan scheduler as a state machine over values: scans wait in a
    queue, are moved to the live list while they fit the descriptor limit, and
    every cycle connects, polls and reaps their connections. */
module ScanModel {
  import opened CIntegers
  import opened ReplyReader
  import opened Connections

  /** A scan; `id` is its submission number, `remote` the client's handle. */
  datatype Scan = Scan(id: nat, remote: nat, conns: seq<Conn>)

  /** The scanner. The last three fields are history: the callbacks made, the
      number of scans accepted and the last clock reading of a cycle. */
  datatype State = State(fdUse: nat, queue: seq<Scan>, live: seq<Scan>,
                         trace: seq<Callback>, accepted: nat, clock: int)

  datatype PollFd = PollFd(fd: int, wantOut: bool)

  datatype Revents = Revents(pollIn: bool, pollOut: bool, pollHup: bool)

  /** Everything the operating system answers during one cycle. Attempts are
      named by scan and slot, read bursts by scan, slot and poll entry. */
  datatype Env = Env(attempt: (nat, nat) -> Attempt,
                     pollResult: int,
                     revents: nat -> Revents,
                     burst: (nat, nat, nat) -> Burst,
                     now: int)

  function Limit(cfg: Config): nat {
    ToUInt(cfg.fdLimit)
  }

  const FRESH: State := State(0, [], [], [], 0, 0)

  // ----- Submitting -----

  function NewConns(ports: seq<nat>): (cs: seq<Conn>)
    ensures |cs| == |ports|
    ensures forall i :: 0 <= i < |cs| ==> cs[i] == NewConn(i, ports[i])
  {
    seq(|ports|, i requires 0 <= i < |ports| => NewConn(i, ports[i]))
  }

  datatype ScanResult = Success | NoProtocols | BadAddr

  /** `opm_scan`: one connection for each protocol of the scanner, then one for
      each protocol of the remote. */
  function SubmitResult(protocols: seq<nat>, addrOk: bool): ScanResult {
    if protocols == [] then NoProtocols else if !addrOk then BadAddr else Success
  }

  function Submit(s: State, remote: nat, protocols: seq<nat>, addrOk: bool): State {
    if SubmitResult(protocols, addrOk) != Success then s
    else s.(queue := s.queue + [Scan(s.accepted, remote, NewConns(protocols))], accepted := s.accepted + 1)
  }

  // ----- check_queue -----

  /** How many scans at the head of the queue fit. */
  function Admit(limit: nat, projected: nat, queue: seq<Scan>): (n: nat)
    ensures n <= |queue|
    decreases |queue|
  {
    if queue == [] then 0
    else
      var p := ToUInt(|queue[0].conns| + projected);
      if p > limit then 0 else 1 + Admit(limit, p, queue[1..])
  }

  function CheckQueue(cfg: Config, s: State): State {
    var n := Admit(Limit(cfg), s.fdUse, s.queue);
    s.(queue := s.queue[n..], live := s.live + s.queue[..n])
  }

  // ----- check_establish -----

  datatype ConnsEffect = ConnsEffect(fdUse: nat, conns: seq<Conn>, calls: seq<Callback>)

  datatype ScansEffect = ScansEffect(fdUse: nat, scans: seq<Scan>, calls: seq<Callback>)

  function EstablishConns(cfg: Config, env: Env, scan: nat, fdUse: nat, conns: seq<Conn>): ConnsEffect
    decreases |conns|
  {
    if conns == [] then ConnsEffect(fdUse, [], [])
    else if fdUse < Limit(cfg) && conns[0].state == Unestablished then
      var e := AfterConnect(cfg, scan, conns[0], env.attempt(scan, conns[0].slot));
      var r := EstablishConns(cfg, env, scan, ToUInt(fdUse + 1), conns[1..]);
      ConnsEffect(r.fdUse, [e.conn] + r.conns, e.calls + r.calls)
    else
      var r := EstablishConns(cfg, env, scan, fdUse, conns[1..]);
      r.(conns := [conns[0]] + r.conns)
  }

  function EstablishScans(cfg: Config, env: Env, fdUse: nat, scans: seq<Scan>): ScansEffect
    decreases |scans|
  {
    if scans == [] then ScansEffect(fdUse, [], [])
    else
      var e := EstablishConns(cfg, env, scans[0].id, fdUse, scans[0].conns);
      var r := EstablishScans(cfg, env, e.fdUse, scans[1..]);
      ScansEffect(r.fdUse, [scans[0].(conns := e.conns)] + r.scans, e.calls + r.calls)
  }

  function CheckEstablish(cfg: Config, env: Env, s: State): State {
    var r := EstablishScans(cfg, env, s.fdUse, s.live);
    s.(fdUse := r.fdUse, live := r.scans, trace := s.trace + r.calls)
  }

  // ----- check_poll -----

  predicate Pollable(c: Conn) {
    c.state == Established || c.state == NegSent
  }

  function Entry(c: Conn): PollFd {
    PollFd(c.fd, c.state == Established)
  }

  /** The poll entries of all pollable connections, in list order. */
  function ConnEntries(conns: seq<Conn>): seq<PollFd> {
    if conns == [] then []
    else if Pollable(conns[0]) then [Entry(conns[0])] + ConnEntries(conns[1..])
    else ConnEntries(conns[1..])
  }

  function Entries(scans: seq<Scan>): seq<PollFd> {
    if scans == [] then [] else ConnEntries(scans[0].conns) + Entries(scans[1..])
  }

  /** The array of poll entries has room for `cap` of them. */
  function Capped(cap: nat, entries: seq<PollFd>): seq<PollFd> {
    if |entries| <= cap then entries else entries[..cap]
  }

  /** One poll entry handed to one connection. The state is looked at once;
      then each ready event runs its handler. */
  function Handle(cfg: Config, env: Env, scan: nat, c: Conn, ufds: seq<PollFd>, k: nat): Effect
    requires k < |ufds|
  {
    if ufds[k].fd != c.fd || c.state == Closed then Effect(c, [])
    else
      var r := env.revents(k);
      var e1 := if r.pollIn then AfterRead(cfg, scan, c, env.burst(scan, c.slot, k)) else Effect(c, []);
      var c2 := if r.pollOut then AfterWrite(e1.conn) else e1.conn;
      var e3 := if r.pollHup then AfterHup(scan, c2) else Effect(c2, []);
      Effect(e3.conn, e1.calls + e3.calls)
  }

  function HandleFrom(cfg: Config, env: Env, scan: nat, c: Conn, ufds: seq<PollFd>, k: nat): Effect
    decreases |ufds| - k
  {
    if k >= |ufds| then Effect(c, [])
    else
      var e := Handle(cfg, env, scan, c, ufds, k);
      var r := HandleFrom(cfg, env, scan, e.conn, ufds, k + 1);
      Effect(r.conn, e.calls + r.calls)
  }

  function PollConns(cfg: Config, env: Env, scan: nat, conns: seq<Conn>, ufds: seq<PollFd>): ConnsEffect {
    if conns == [] then ConnsEffect(0, [], [])
    else
      var e := HandleFrom(cfg, env, scan, conns[0], ufds, 0);
      var r := PollConns(cfg, env, scan, conns[1..], ufds);
      ConnsEffect(0, [e.conn] + r.conns, e.calls + r.calls)
  }

  function PollScans(cfg: Config, env: Env, scans: seq<Scan>, ufds: seq<PollFd>): ScansEffect {
    if scans == [] then ScansEffect(0, [], [])
    else
      var e := PollConns(cfg, env, scans[0].id, scans[0].conns, ufds);
      var r := PollScans(cfg, env, scans[1..], ufds);
      ScansEffect(0, [scans[0].(conns := e.conns)] + r.scans, e.calls + r.calls)
  }

  /** `cap` is the size of the array of poll entries after it has been grown. */
  function CheckPoll(cfg: Config, env: Env, cap: nat, s: State): State {
    if env.pollResult == -1 || env.pollResult == 0 then s
    else
      var r := PollScans(cfg, env, s.live, Capped(cap, Entries(s.live)));
      s.(live := r.scans, trace := s.trace + r.calls)
  }

  // ----- check_closed -----

  predicate TimedOut(cfg: Config, now: int, c: Conn) {
    now - c.creation >= cfg.timeout && c.state != Unestablished
  }

  predicate Reaped(cfg: Config, now: int, c: Conn) {
    c.state == Closed || TimedOut(cfg, now, c)
  }

  function CloseConns(cfg: Config, now: int, scan: nat, fdUse: nat, conns: seq<Conn>): ConnsEffect
    decreases |conns|
  {
    if conns == [] then ConnsEffect(fdUse, [], [])
    else if Reaped(cfg, now, conns[0]) then
      var r := CloseConns(cfg, now, scan, ToUInt(fdUse - 1), conns[1..]);
      r.(calls := (if conns[0].state == Closed then [] else [OnTimeout(scan, conns[0].port)]) + r.calls)
    else
      var r := CloseConns(cfg, now, scan, fdUse, conns[1..]);
      r.(conns := [conns[0]] + r.conns)
  }

  function CloseScans(cfg: Config, now: int, fdUse: nat, scans: seq<Scan>): ScansEffect
    decreases |scans|
  {
    if scans == [] then ScansEffect(fdUse, [], [])
    else
      var e := CloseConns(cfg, now, scans[0].id, fdUse, scans[0].conns);
      var r := CloseScans(cfg, now, e.fdUse, scans[1..]);
      if e.conns == [] then r.(calls := e.calls + [OnEnd(scans[0].id)] + r.calls)
      else ScansEffect(r.fdUse, [scans[0].(conns := e.conns)] + r.scans, e.calls + r.calls)
  }

  function CheckClosed(cfg: Config, env: Env, s: State): State {
    var r := CloseScans(cfg, env.now, s.fdUse, s.live);
    s.(fdUse := r.fdUse, live := r.scans, trace := s.trace + r.calls, clock := env.now)
  }

  // ----- opm_cycle, opm_endscan, opm_end, opm_active -----

  function Cycle(cfg: Config, env: Env, cap: nat, s: State): State {
    CheckClosed(cfg, env, CheckPoll(cfg, env, cap, CheckEstablish(cfg, env, CheckQueue(cfg, s))))
  }

  function CloseAll(conns: seq<Conn>): (r: seq<Conn>)
    ensures |r| == |conns|
    ensures forall j :: 0 <= j < |r| ==> r[j] == conns[j].(state := Closed)
  {
    if conns == [] then [] else [conns[0].(state := Closed)] + CloseAll(conns[1..])
  }

  function EndLive(remote: nat, scans: seq<Scan>): seq<Scan> {
    if scans == [] then []
    else
      var x := if scans[0].remote == remote then scans[0].(conns := CloseAll(scans[0].conns)) else scans[0];
      [x] + EndLive(remote, scans[1..])
  }

  function EndScan(remote: nat, s: State): State {
    s.(live := EndLive(remote, s.live))
  }

  function EndQueued(remote: nat, queue: seq<Scan>): ScansEffect {
    if queue == [] then ScansEffect(0, [], [])
    else
      var r := EndQueued(remote, queue[1..]);
      if queue[0].remote == remote then r.(calls := [OnEnd(queue[0].id)] + r.calls)
      else r.(scans := [queue[0]] + r.scans)
  }

  function End(remote: nat, s: State): State {
    var t := EndScan(remote, s);
    var r := EndQueued(remote, t.queue);
    t.(queue := r.scans, trace := t.trace + r.calls)
  }

  function Active(s: State): nat {
    |s.queue| + |s.live|
  }

  // ----- Counting connections -----

  /** Connections that are not UNESTABLISHED. */
  function Attempted(conns: seq<Conn>): (n: nat)
    ensures n <= |conns|
  {
    if conns == [] then 0
    else (if conns[0].state == Unestablished then 0 else 1) + Attempted(conns[1..])
  }

  function AttemptedAll(scans: seq<Scan>): nat {
    if scans == [] then 0 else Attempted(scans[0].conns) + AttemptedAll(scans[1..])
  }

  /** Never attempted connections of the live scans of `remote`. */
  function Unattempted(remote: nat, scans: seq<Scan>): nat {
    if scans == [] then 0
    else (if scans[0].remote == remote then |scans[0].conns| - Attempted(scans[0].conns) else 0)
         + Unattempted(remote, scans[1..])
  }

  function Total(scans: seq<Scan>): nat {
    if scans == [] then 0 else |scans[0].conns| + Total(scans[1..])
  }

  // ----- Runs -----

  datatype Action =
    | DoScan(remote: nat, protocols: seq<nat>, addrOk: bool)
    | DoCycle(env: Env, cap: nat)
    | DoEndScan(remote: nat)
    | DoEnd(remote: nat)

  function Step(cfg: Config, s: State, a: Action): State {
    match a
    case DoScan(remote, protocols, addrOk) => Submit(s, remote, protocols, addrOk)
    case DoCycle(env, cap) => Cycle(cfg, env, cap, s)
    case DoEndScan(remote) => EndScan(remote, s)
    case DoEnd(remote) => End(remote, s)
  }

  function Run(cfg: Config, s: State, actions: seq<Action>): State
    decreases |actions|
  {
    if actions == [] then s else Run(cfg, Step(cfg, s, actions[0]), actions[1..])
  }
}
