/** The proxy scanner as libopm runs it: nested loops walk the lists and update
    the counter and the lists in place; a record that changes is stored back into
    its list. Every method is tied to the state machine of module ScanModel, about
    which everything else is proved; the lemmas in front take the loops apart. */
module Scanner {
  import Inet
  import InetBuffers
  import opened CIntegers
  import opened Connections
  import opened ScanModel

  // ----- Loops over a suffix: what is done plus what the rest gives is the whole -----

  predicate PendingConns(all: ConnsEffect, done: seq<Conn>, calls: seq<Callback>, rest: ConnsEffect) {
    all.fdUse == rest.fdUse && all.conns == done + rest.conns && all.calls == calls + rest.calls
  }

  predicate PendingScans(all: ScansEffect, done: seq<Scan>, calls: seq<Callback>, rest: ScansEffect) {
    all.fdUse == rest.fdUse && all.scans == done + rest.scans && all.calls == calls + rest.calls
  }

  lemma PendingConnsStart(all: ConnsEffect)
    ensures PendingConns(all, [], [], all)
  {
    assert [] + all.conns == all.conns && [] + all.calls == all.calls;
  }

  lemma PendingConnsEnd(all: ConnsEffect, done: seq<Conn>, calls: seq<Callback>, fdUse: nat)
    requires PendingConns(all, done, calls, ConnsEffect(fdUse, [], []))
    ensures all == ConnsEffect(fdUse, done, calls)
  {
    assert done + [] == done && calls + [] == calls;
  }

  lemma PendingScansStart(all: ScansEffect)
    ensures PendingScans(all, [], [], all)
  {
    assert [] + all.scans == all.scans && [] + all.calls == all.calls;
  }

  lemma PendingScansEnd(all: ScansEffect, done: seq<Scan>, calls: seq<Callback>, fdUse: nat)
    requires PendingScans(all, done, calls, ScansEffect(fdUse, [], []))
    ensures all == ScansEffect(fdUse, done, calls)
  {
    assert done + [] == done && calls + [] == calls;
  }

  lemma PendingConnsStep(all: ConnsEffect, done: seq<Conn>, calls: seq<Callback>, more: seq<Conn>, new_: seq<Callback>, next: ConnsEffect)
    requires PendingConns(all, done, calls, ConnsEffect(next.fdUse, more + next.conns, new_ + next.calls))
    ensures PendingConns(all, done + more, calls + new_, next)
  {
  }

  lemma PendingScansStep(all: ScansEffect, done: seq<Scan>, calls: seq<Callback>, more: seq<Scan>, new_: seq<Callback>, next: ScansEffect)
    requires PendingScans(all, done, calls, ScansEffect(next.fdUse, more + next.scans, new_ + next.calls))
    ensures PendingScans(all, done + more, calls + new_, next)
  {
  }

  lemma SuffixStep<T>(s: seq<T>, j: nat)
    requires j < |s|
    ensures s[j..] != [] && s[j..][0] == s[j] && s[j..][1..] == s[j + 1..]
  {
  }

  lemma {:induction false} EstablishFull(cfg: Config, env: Env, scan: nat, fdUse: nat, conns: seq<Conn>)
    requires fdUse >= Limit(cfg)
    ensures EstablishConns(cfg, env, scan, fdUse, conns) == ConnsEffect(fdUse, conns, [])
  {
    if conns != [] {
      EstablishFull(cfg, env, scan, fdUse, conns[1..]);
    }
  }

  lemma {:induction false} EstablishScansFull(cfg: Config, env: Env, fdUse: nat, scans: seq<Scan>)
    requires fdUse >= Limit(cfg)
    ensures EstablishScans(cfg, env, fdUse, scans) == ScansEffect(fdUse, scans, [])
  {
    if scans != [] {
      EstablishFull(cfg, env, scans[0].id, fdUse, scans[0].conns);
      EstablishScansFull(cfg, env, fdUse, scans[1..]);
    }
  }

  /** What becomes of one connection, and of the counter. */
  function EstablishOne(cfg: Config, env: Env, scan: nat, fdUse: nat, c: Conn): (nat, Effect) {
    if fdUse < Limit(cfg) && c.state == Unestablished then
      (ToUInt(fdUse + 1), AfterConnect(cfg, scan, c, env.attempt(scan, c.slot)))
    else (fdUse, Effect(c, []))
  }

  lemma EstablishNext(cfg: Config, env: Env, scan: nat, fdUse: nat, views: seq<Conn>, j: nat,
                      all: ConnsEffect, done: seq<Conn>, calls: seq<Callback>)
    requires j < |views|
    requires PendingConns(all, done, calls, EstablishConns(cfg, env, scan, fdUse, views[j..]))
    ensures var (n, e) := EstablishOne(cfg, env, scan, fdUse, views[j]);
            PendingConns(all, done + [e.conn], calls + e.calls, EstablishConns(cfg, env, scan, n, views[j + 1..]))
  {
    SuffixStep(views, j);
    var (n, e) := EstablishOne(cfg, env, scan, fdUse, views[j]);
    var next := EstablishConns(cfg, env, scan, n, views[j + 1..]);
    assert [] + next.calls == next.calls;
    PendingConnsStep(all, done, calls, [e.conn], e.calls, next);
  }

  lemma EstablishScansNext(cfg: Config, env: Env, fdUse: nat, views: seq<Scan>, i: nat,
                           all: ScansEffect, done: seq<Scan>, calls: seq<Callback>)
    requires i < |views|
    requires PendingScans(all, done, calls, EstablishScans(cfg, env, fdUse, views[i..]))
    ensures var e := EstablishConns(cfg, env, views[i].id, fdUse, views[i].conns);
            PendingScans(all, done + [views[i].(conns := e.conns)], calls + e.calls, EstablishScans(cfg, env, e.fdUse, views[i + 1..]))
  {
    SuffixStep(views, i);
    var e := EstablishConns(cfg, env, views[i].id, fdUse, views[i].conns);
    var next := EstablishScans(cfg, env, e.fdUse, views[i + 1..]);
    PendingScansStep(all, done, calls, [views[i].(conns := e.conns)], e.calls, next);
  }

  lemma PollNext(cfg: Config, env: Env, scan: nat, views: seq<Conn>, ufds: seq<PollFd>, j: nat,
                 all: ConnsEffect, done: seq<Conn>, calls: seq<Callback>)
    requires j < |views|
    requires PendingConns(all, done, calls, PollConns(cfg, env, scan, views[j..], ufds))
    ensures var e := HandleFrom(cfg, env, scan, views[j], ufds, 0);
            PendingConns(all, done + [e.conn], calls + e.calls, PollConns(cfg, env, scan, views[j + 1..], ufds))
  {
    SuffixStep(views, j);
    var e := HandleFrom(cfg, env, scan, views[j], ufds, 0);
    PendingConnsStep(all, done, calls, [e.conn], e.calls, PollConns(cfg, env, scan, views[j + 1..], ufds));
  }

  lemma PollScansNext(cfg: Config, env: Env, views: seq<Scan>, ufds: seq<PollFd>, i: nat,
                      all: ScansEffect, done: seq<Scan>, calls: seq<Callback>)
    requires i < |views|
    requires PendingScans(all, done, calls, PollScans(cfg, env, views[i..], ufds))
    ensures var e := PollConns(cfg, env, views[i].id, views[i].conns, ufds);
            PendingScans(all, done + [views[i].(conns := e.conns)], calls + e.calls, PollScans(cfg, env, views[i + 1..], ufds))
  {
    SuffixStep(views, i);
    var e := PollConns(cfg, env, views[i].id, views[i].conns, ufds);
    PendingScansStep(all, done, calls, [views[i].(conns := e.conns)], e.calls, PollScans(cfg, env, views[i + 1..], ufds));
  }

  lemma CloseNext(cfg: Config, now: int, scan: nat, fdUse: nat, views: seq<Conn>, j: nat,
                  all: ConnsEffect, done: seq<Conn>, calls: seq<Callback>)
    requires j < |views|
    requires PendingConns(all, done, calls, CloseConns(cfg, now, scan, fdUse, views[j..]))
    ensures !Reaped(cfg, now, views[j]) ==>
              PendingConns(all, done + [views[j]], calls, CloseConns(cfg, now, scan, fdUse, views[j + 1..]))
    ensures Reaped(cfg, now, views[j]) ==>
              var c := if views[j].state == Closed then [] else [OnTimeout(scan, views[j].port)];
              PendingConns(all, done, calls + c, CloseConns(cfg, now, scan, ToUInt(fdUse - 1), views[j + 1..]))
  {
    SuffixStep(views, j);
    if Reaped(cfg, now, views[j]) {
      var c := if views[j].state == Closed then [] else [OnTimeout(scan, views[j].port)];
      var next := CloseConns(cfg, now, scan, ToUInt(fdUse - 1), views[j + 1..]);
      assert [] + next.conns == next.conns && done + [] == done;
      PendingConnsStep(all, done, calls, [], c, next);
    } else {
      var next := CloseConns(cfg, now, scan, fdUse, views[j + 1..]);
      assert [] + next.calls == next.calls && calls + [] == calls;
      PendingConnsStep(all, done, calls, [views[j]], [], next);
    }
  }

  /** A live scan after its connections have been reaped. */
  function CloseOne(cfg: Config, now: int, fdUse: nat, x: Scan): ScansEffect {
    var e := CloseConns(cfg, now, x.id, fdUse, x.conns);
    if e.conns == [] then ScansEffect(e.fdUse, [], e.calls + [OnEnd(x.id)])
    else ScansEffect(e.fdUse, [x.(conns := e.conns)], e.calls)
  }

  lemma CloseScansNext(cfg: Config, now: int, fdUse: nat, rest: seq<Scan>,
                       all: ScansEffect, done: seq<Scan>, calls: seq<Callback>)
    requires rest != [] && PendingScans(all, done, calls, CloseScans(cfg, now, fdUse, rest))
    ensures var e := CloseOne(cfg, now, fdUse, rest[0]);
            PendingScans(all, done + e.scans, calls + e.calls, CloseScans(cfg, now, e.fdUse, rest[1..]))
  {
    var e := CloseOne(cfg, now, fdUse, rest[0]);
    var next := CloseScans(cfg, now, e.fdUse, rest[1..]);
    assert [] + next.scans == next.scans;
    PendingScansStep(all, done, calls, e.scans, e.calls, next);
  }

  /** The lists with one connection record rewritten. */
  function Put(scans: seq<Scan>, i: nat, j: nat, c: Conn): (r: seq<Scan>)
    requires i < |scans| && j < |scans[i].conns|
    ensures |r| == |scans| && |r[i].conns| == |scans[i].conns|
    ensures r[i].conns[j] == c && r[i].id == scans[i].id
  {
    scans[i := scans[i].(conns := scans[i].conns[j := c])]
  }

  lemma PutSame(scans: seq<Scan>, i: nat, j: nat)
    requires i < |scans| && j < |scans[i].conns|
    ensures Put(scans, i, j, scans[i].conns[j]) == scans
  {
    assert scans[i].conns[j := scans[i].conns[j]] == scans[i].conns;
  }

  lemma PutTwice(scans: seq<Scan>, i: nat, j: nat, c: Conn, d: Conn)
    requires i < |scans| && j < |scans[i].conns|
    ensures Put(Put(scans, i, j, c), i, j, d) == Put(scans, i, j, d)
  {
    assert scans[i].conns[j := c][j := d] == scans[i].conns[j := d];
  }

  /** Replacing the next element of what is done plus what is left. */
  lemma Splice<T>(done: seq<T>, views: seq<T>, j: nat, c: T)
    requires j == |done| < |views|
    ensures (done + views[j..])[j := c] == (done + [c]) + views[j + 1..]
  {
  }

  /** `libopm_list_remove` of the node at position `i`. */
  function Without<T>(s: seq<T>, i: nat): (r: seq<T>)
    requires i < |s|
    ensures |r| == |s| - 1
  {
    s[..i] + s[i + 1..]
  }

  /** Removing the element that comes next ... */
  lemma Unlink<T>(done: seq<T>, rest: seq<T>)
    requires rest != []
    ensures (done + rest)[|done|] == rest[0]
    ensures Without(done + rest, |done|) == done + rest[1..]
  {
  }

  /** ... and keeping it. */
  lemma Keep<T>(done: seq<T>, rest: seq<T>)
    requires rest != []
    ensures (done + rest)[|done|] == rest[0]
    ensures done + rest == (done + [rest[0]]) + rest[1..]
  {
  }

  lemma AdmitNext(limit: nat, projected: nat, queue: seq<Scan>)
    ensures queue == [] ==> Admit(limit, projected, queue) == 0
    ensures queue != [] ==>
              var p := ToUInt(|queue[0].conns| + projected);
              Admit(limit, projected, queue) == if p > limit then 0 else 1 + Admit(limit, p, queue[1..])
  {
  }

  lemma Endings(cfg: Config, env: Env, ufds: seq<PollFd>, scan: nat, fdUse: nat)
    ensures EstablishConns(cfg, env, scan, fdUse, []) == ConnsEffect(fdUse, [], [])
    ensures EstablishScans(cfg, env, fdUse, []) == ScansEffect(fdUse, [], [])
    ensures PollConns(cfg, env, scan, [], ufds) == ConnsEffect(0, [], [])
    ensures PollScans(cfg, env, [], ufds) == ScansEffect(0, [], [])
    ensures CloseConns(cfg, env.now, scan, fdUse, []) == ConnsEffect(fdUse, [], [])
    ensures CloseScans(cfg, env.now, fdUse, []) == ScansEffect(fdUse, [], [])
  {
  }

  lemma CloseNone(cfg: Config, now: int, scan: nat, fdUse: nat)
    ensures CloseConns(cfg, now, scan, fdUse, []) == ConnsEffect(fdUse, [], [])
  {
  }

  lemma CloseScansNone(cfg: Config, now: int, fdUse: nat)
    ensures CloseScans(cfg, now, fdUse, []) == ScansEffect(fdUse, [], [])
  {
  }

  lemma SpliceAny<T>(done: seq<T>, rest: seq<T>, c: T)
    requires rest != []
    ensures (done + rest)[|done| := c] == done + ([c] + rest[1..])
    ensures done + ([c] + rest[1..]) == (done + [c]) + rest[1..]
  {
  }

  lemma EndLiveNext(remote: nat, views: seq<Scan>, done: seq<Scan>)
    requires views != []
    ensures var x := if views[0].remote == remote then views[0].(conns := CloseAll(views[0].conns)) else views[0];
            done + EndLive(remote, views) == (done + [x]) + EndLive(remote, views[1..])
  {
  }

  lemma EndLiveNone(remote: nat)
    ensures EndLive(remote, []) == []
  {
  }

  lemma EndQueuedNext(remote: nat, views: seq<Scan>, n: nat, all: ScansEffect, done: seq<Scan>, calls: seq<Callback>)
    requires n < |views|
    requires PendingScans(all, done, calls, EndQueued(remote, views[n..]))
    ensures views[n].remote == remote ==>
              PendingScans(all, done, calls + [OnEnd(views[n].id)], EndQueued(remote, views[n + 1..]))
    ensures views[n].remote != remote ==>
              PendingScans(all, done + [views[n]], calls, EndQueued(remote, views[n + 1..]))
  {
    SuffixStep(views, n);
    var next := EndQueued(remote, views[n + 1..]);
    assert [] + next.scans == next.scans && [] + next.calls == next.calls && done + [] == done && calls + [] == calls;
    if views[n].remote == remote {
      PendingScansStep(all, done, calls, [], [OnEnd(views[n].id)], next);
    } else {
      PendingScansStep(all, done, calls, [views[n]], [], next);
    }
  }

  lemma EndQueuedNone(remote: nat)
    ensures EndQueued(remote, []) == ScansEffect(0, [], [])
  {
  }

  lemma CappedTwice(cap: nat, a: seq<PollFd>, b: seq<PollFd>, c: seq<PollFd>)
    requires |a| <= cap
    ensures Capped(cap, a + (b + c)) == Capped(cap, Capped(cap, a + b) + c)
  {
    assert a + (b + c) == (a + b) + c;
  }

  lemma EntriesNext(scans: seq<Scan>, i: nat)
    requires i <= |scans|
    ensures i == |scans| ==> Entries(scans[i..]) == []
    ensures i < |scans| ==> Entries(scans[i..]) == ConnEntries(scans[i].conns) + Entries(scans[i + 1..])
  {
    if i < |scans| {
      SuffixStep(scans, i);
    }
  }

  lemma ConnEntriesNext(conns: seq<Conn>, j: nat)
    requires j <= |conns|
    ensures j == |conns| ==> ConnEntries(conns[j..]) == []
    ensures j < |conns| ==> ConnEntries(conns[j..]) == (if Pollable(conns[j]) then [Entry(conns[j])] else []) + ConnEntries(conns[j + 1..])
  {
    if j < |conns| {
      SuffixStep(conns, j);
    }
  }

  class OpmScanner {
    const cfg: Config
    const protocols: seq<nat>
    var fdUse: nat
    var queue: seq<Scan>
    var scans: seq<Scan>
    var ufdsSize: nat
    var accepted: nat
    ghost var trace: seq<Callback>
    ghost var clock: int

    ghost function View(): State
      reads this
    {
      State(fdUse, queue, scans, trace, accepted, clock)
    }

    constructor (cfg: Config, protocols: seq<nat>)
      ensures View() == FRESH && this.cfg == cfg && this.protocols == protocols
    {
      this.cfg, this.protocols := cfg, protocols;
      fdUse, queue, scans, ufdsSize, accepted, trace, clock := 0, [], [], 0, 0, [], 0;
    }

    // ----- check_queue -----

    /** Scans move from the queue to the live list as long as there is room. */
    method CheckQueue()
      modifies this`queue, this`scans
      ensures View() == ScanModel.CheckQueue(cfg, old(View()))
    {
      hide Admit;
      ghost var n := 0;
      ghost var live0, queue0 := scans, queue;
      var projected := fdUse;
      assert queue0[0..] == queue0 && live0 + queue0[..0] == live0;
      while |queue| > 0
        invariant n <= |queue0| && queue == queue0[n..] && scans == live0 + queue0[..n]
        invariant Admit(Limit(cfg), fdUse, queue0) == n + Admit(Limit(cfg), projected, queue)
        decreases |queue|
      {
        var scan := queue[0];
        var protocols := |scan.conns|;
        AdmitNext(Limit(cfg), projected, queue);
        if ToUInt(protocols + projected) > Limit(cfg) {
          break;
        }
        SuffixStep(queue0, n);
        queue := queue[1..];
        scans := scans + [scan];
        projected := ToUInt(projected + protocols);
        n := n + 1;
        assert scans == live0 + queue0[..n];
      }
      AdmitNext(Limit(cfg), projected, queue);
    }

    // ----- check_establish -----

    /** Writes a connection record back into the live list. */
    method Store(i: nat, j: nat, c: Conn)
      requires i < |scans| && j < |scans[i].conns|
      modifies this`scans
      ensures scans == Put(old(scans), i, j, c)
    {
      scans := scans[i := scans[i].(conns := scans[i].conns[j := c])];
    }

    /** The connections of one live scan are connected as far as the budget goes. */
    method EstablishScan(env: Env, i: nat)
      requires i < |scans|
      modifies this`fdUse, this`scans, this`trace
      ensures var r := EstablishConns(cfg, env, old(scans[i].id), old(fdUse), old(scans[i].conns));
              && fdUse == r.fdUse && trace == old(trace) + r.calls
              && scans == old(scans)[i := old(scans[i]).(conns := r.conns)]
    {
      hide EstablishConns;
      ghost var views := scans[i].conns;
      var id := scans[i].id;
      ghost var all := EstablishConns(cfg, env, id, fdUse, views);
      ghost var done, calls := [], [];
      assert views[0..] == views && [] + views == views;
      var j := 0;
      while j < |scans[i].conns|
        invariant j == |done| <= |views|
        invariant scans == old(scans)[i := old(scans[i]).(conns := done + views[j..])]
        invariant trace == old(trace) + calls
        invariant PendingConns(all, done, calls, EstablishConns(cfg, env, id, fdUse, views[j..]))
        decreases |views| - j
      {
        if fdUse >= Limit(cfg) {
          EstablishFull(cfg, env, id, fdUse, views[j..]);
          return;
        }
        EstablishNext(cfg, env, id, fdUse, views, j, all, done, calls);
        SuffixStep(views, j);
        var conn := scans[i].conns[j];
        if conn.state == Unestablished {
          fdUse := ToUInt(fdUse + 1);
          var e := AfterConnect(cfg, id, conn, env.attempt(id, conn.slot));
          conn := e.conn;
          trace := trace + e.calls;
          calls := calls + e.calls;
        }
        Splice(done, views, j, conn);
        Store(i, j, conn);
        done := done + [conn];
        j := j + 1;
      }
      Endings(cfg, env, [], id, fdUse);
    }

    method CheckEstablish(env: Env)
      modifies this`fdUse, this`scans, this`trace
      ensures View() == ScanModel.CheckEstablish(cfg, env, old(View()))
    {
      hide EstablishConns, EstablishScans;
      ghost var views := scans;
      ghost var all := EstablishScans(cfg, env, fdUse, views);
      ghost var done, calls := [], [];
      assert views[0..] == views && [] + views == views;
      var i := 0;
      while i < |scans|
        invariant i == |done| <= |views|
        invariant scans == done + views[i..]
        invariant trace == old(trace) + calls
        invariant PendingScans(all, done, calls, EstablishScans(cfg, env, fdUse, views[i..]))
        decreases |views| - i
      {
        if fdUse >= Limit(cfg) {
          EstablishScansFull(cfg, env, fdUse, views[i..]);
          return;
        }
        EstablishScansNext(cfg, env, fdUse, views, i, all, done, calls);
        SuffixStep(views, i);
        ghost var e := EstablishConns(cfg, env, views[i].id, fdUse, views[i].conns);
        EstablishScan(env, i);
        Splice(done, views, i, views[i].(conns := e.conns));
        done, calls := done + [views[i].(conns := e.conns)], calls + e.calls;
        i := i + 1;
      }
      Endings(cfg, env, [], 0, fdUse);
    }

    // ----- check_poll -----

    /** Appends the poll entries of one scan while the array has room. */
    method CollectScan(conns: seq<Conn>, before: seq<PollFd>) returns (ufds: seq<PollFd>)
      requires |before| <= ufdsSize
      ensures ufds == Capped(ufdsSize, before + ConnEntries(conns))
    {
      hide ConnEntries;
      ufds := before;
      assert conns[0..] == conns;
      for j := 0 to |conns|
        invariant |ufds| <= ufdsSize
        invariant Capped(ufdsSize, before + ConnEntries(conns)) == Capped(ufdsSize, ufds + ConnEntries(conns[j..]))
      {
        if |ufds| >= ufdsSize {
          return;
        }
        ConnEntriesNext(conns, j);
        if !Pollable(conns[j]) {
          continue;
        }
        assert ufds + ([Entry(conns[j])] + ConnEntries(conns[j + 1..])) == ufds + [Entry(conns[j])] + ConnEntries(conns[j + 1..]);
        ufds := ufds + [Entry(conns[j])];
      }
      ConnEntriesNext(conns, |conns|);
    }

    /** Fills the array of poll entries, which never grows beyond its size. */
    method Collect() returns (ufds: seq<PollFd>)
      ensures ufds == Capped(ufdsSize, Entries(scans))
    {
      hide Entries, ConnEntries;
      ufds := [];
      assert scans[0..] == scans && [] + Entries(scans) == Entries(scans);
      for i := 0 to |scans|
        invariant |ufds| <= ufdsSize
        invariant Capped(ufdsSize, Entries(scans)) == Capped(ufdsSize, ufds + Entries(scans[i..]))
      {
        EntriesNext(scans, i);
        CappedTwice(ufdsSize, ufds, ConnEntries(scans[i].conns), Entries(scans[i + 1..]));
        ufds := CollectScan(scans[i].conns, ufds);
      }
      EntriesNext(scans, |scans|);
    }

    /** One poll entry is offered to one connection. */
    method HandleEntry(env: Env, i: nat, j: nat, ufds: seq<PollFd>, k: nat)
      requires i < |scans| && j < |scans[i].conns| && k < |ufds|
      modifies this`scans, this`trace
      ensures var e := Handle(cfg, env, old(scans[i].id), old(scans[i].conns[j]), ufds, k);
              trace == old(trace) + e.calls && scans == Put(old(scans), i, j, e.conn)
    {
      hide AfterRead;
      var id := scans[i].id;
      var conn := scans[i].conns[j];
      PutSame(scans, i, j);
      if ufds[k].fd == conn.fd && conn.state != Closed {
        var r := env.revents(k);
        if r.pollIn {
          var e := AfterRead(cfg, id, conn, env.burst(id, conn.slot, k));
          conn := e.conn;
          trace := trace + e.calls;
        }
        if r.pollOut {
          conn := AfterWrite(conn);
        }
        if r.pollHup {
          var e := AfterHup(id, conn);
          conn := e.conn;
          trace := trace + e.calls;
        }
        Store(i, j, conn);
      }
    }

    /** Every poll entry is offered to one connection. */
    method Dispatch(env: Env, i: nat, j: nat, ufds: seq<PollFd>)
      requires i < |scans| && j < |scans[i].conns|
      modifies this`scans, this`trace
      ensures var e := HandleFrom(cfg, env, old(scans[i].id), old(scans[i].conns[j]), ufds, 0);
              trace == old(trace) + e.calls && scans == Put(old(scans), i, j, e.conn)
    {
      hide Handle, Put;
      var id := scans[i].id;
      ghost var base, c := scans, scans[i].conns[j];
      ghost var all := HandleFrom(cfg, env, id, c, ufds, 0);
      PutSame(scans, i, j);
      ghost var calls := [];
      for k := 0 to |ufds|
        invariant scans == Put(base, i, j, c)
        invariant all.conn == HandleFrom(cfg, env, id, c, ufds, k).conn
        invariant trace == old(trace) + calls
        invariant all.calls == calls + HandleFrom(cfg, env, id, c, ufds, k).calls
      {
        ghost var e := Handle(cfg, env, id, c, ufds, k);
        HandleEntry(env, i, j, ufds, k);
        PutTwice(base, i, j, c, e.conn);
        c, calls := e.conn, calls + e.calls;
      }
    }

    method PollScan(env: Env, i: nat, ufds: seq<PollFd>)
      requires i < |scans|
      modifies this`scans, this`trace
      ensures var r := PollConns(cfg, env, old(scans[i].id), old(scans[i].conns), ufds);
              && trace == old(trace) + r.calls
              && scans == old(scans)[i := old(scans[i]).(conns := r.conns)]
    {
      hide PollConns, HandleFrom;
      ghost var views := scans[i].conns;
      var id := scans[i].id;
      ghost var all := PollConns(cfg, env, id, views, ufds);
      ghost var done, calls := [], [];
      assert views[0..] == views && [] + views == views;
      var j := 0;
      while j < |scans[i].conns|
        invariant j == |done| <= |views|
        invariant scans == old(scans)[i := old(scans[i]).(conns := done + views[j..])]
        invariant trace == old(trace) + calls
        invariant PendingConns(all, done, calls, PollConns(cfg, env, id, views[j..], ufds))
        decreases |views| - j
      {
        PollNext(cfg, env, id, views, ufds, j, all, done, calls);
        SuffixStep(views, j);
        ghost var e := HandleFrom(cfg, env, id, views[j], ufds, 0);
        Dispatch(env, i, j, ufds);
        Splice(done, views, j, e.conn);
        done, calls := done + [e.conn], calls + e.calls;
        j := j + 1;
      }
      Endings(cfg, env, ufds, id, 0);
    }

    method CheckPoll(env: Env)
      modifies this`scans, this`trace, this`ufdsSize
      ensures View() == ScanModel.CheckPoll(cfg, env, ufdsSize, old(View()))
      ensures ufdsSize == if old(ufdsSize) < Limit(cfg) then Limit(cfg) else old(ufdsSize)
    {
      hide PollScans, PollConns, Entries, Capped, PendingScans;
      if ufdsSize < Limit(cfg) {
        ufdsSize := Limit(cfg);
      }
      if |scans| == 0 {
        Endings(cfg, env, Capped(ufdsSize, Entries(scans)), 0, 0);
        return;
      }
      var ufds := Collect();
      if env.pollResult == -1 || env.pollResult == 0 {
        return;
      }
      ghost var views := scans;
      ghost var all := PollScans(cfg, env, views, ufds);
      ghost var done, calls := [], [];
      PendingScansStart(all);
      assert views[0..] == views && [] + views == views;
      var i := 0;
      while i < |scans|
        invariant i == |done| <= |views|
        invariant scans == done + views[i..]
        invariant trace == old(trace) + calls
        invariant PendingScans(all, done, calls, PollScans(cfg, env, views[i..], ufds))
        invariant ufdsSize == if old(ufdsSize) < Limit(cfg) then Limit(cfg) else old(ufdsSize)
        decreases |views| - i
      {
        PollScansNext(cfg, env, views, ufds, i, all, done, calls);
        SuffixStep(views, i);
        ghost var e := PollConns(cfg, env, views[i].id, views[i].conns, ufds);
        PollScan(env, i, ufds);
        Splice(done, views, i, views[i].(conns := e.conns));
        done, calls := done + [views[i].(conns := e.conns)], calls + e.calls;
        i := i + 1;
      }
      Endings(cfg, env, ufds, 0, 0);
      PendingScansEnd(all, done, calls, 0);
    }

    // ----- check_closed -----

    /** Connections that are closed or timed out leave the list of their scan. */
    method CloseScan(now: int, i: nat)
      requires i < |scans|
      modifies this`fdUse, this`scans, this`trace
      ensures var r := CloseConns(cfg, now, old(scans[i].id), old(fdUse), old(scans[i].conns));
              && fdUse == r.fdUse && trace == old(trace) + r.calls
              && scans == old(scans)[i := old(scans[i]).(conns := r.conns)]
    {
      hide CloseConns, Without, PendingConns;
      ghost var views := scans[i].conns;
      var id := scans[i].id;
      ghost var all := CloseConns(cfg, now, id, fdUse, views);
      ghost var done, calls, n := [], [], 0;
      PendingConnsStart(all);
      assert views[0..] == views && [] + views == views && scans[i := scans[i].(conns := views)] == scans;
      var j := 0;
      while j < |scans[i].conns|
        invariant j == |done| && n <= |views|
        invariant scans == old(scans)[i := old(scans[i]).(conns := done + views[n..])]
        invariant trace == old(trace) + calls
        invariant PendingConns(all, done, calls, CloseConns(cfg, now, id, fdUse, views[n..]))
        decreases |views| - n
      {
        CloseNext(cfg, now, id, fdUse, views, n, all, done, calls);
        SuffixStep(views, n);
        Unlink(done, views[n..]);
        Keep(done, views[n..]);
        n := n + 1;
        var conn := scans[i].conns[j];
        if conn.state == Closed {
          fdUse := ToUInt(fdUse - 1);
          scans := scans[i := scans[i].(conns := Without(scans[i].conns, j))];
          assert calls + [] == calls;
          continue;
        }
        if now - conn.creation >= cfg.timeout && conn.state != Unestablished {
          fdUse := ToUInt(fdUse - 1);
          trace := trace + [OnTimeout(id, conn.port)];
          scans := scans[i := scans[i].(conns := Without(scans[i].conns, j))];
          calls := calls + [OnTimeout(id, conn.port)];
          continue;
        }
        done := done + [conn];
        j := j + 1;
      }
      CloseNone(cfg, now, id, fdUse);
      PendingConnsEnd(all, done, calls, fdUse);
      assert views[n..] == [] && done + [] == done;
    }

    /** `opm_scan(scanner, remote)`: a scan is accepted if there is a protocol to scan
        for and the address is a dotted quad; it then waits at the end of the queue. */
    method Scan(remote: nat, remoteProtocols: seq<nat>, ip: string) returns (result: ScanResult)
      modifies this`queue, this`accepted
      ensures View() == Submit(old(View()), remote, protocols + remoteProtocols, Inet.Pton4(ip).Some?)
      ensures result == SubmitResult(protocols + remoteProtocols, Inet.Pton4(ip).Some?)
    {
      if |protocols| == 0 && |remoteProtocols| == 0 {
        return NoProtocols;
      }
      var ports := protocols + remoteProtocols;
      var addr := new Inet.byte[4](_ => 0);
      var addrOk := InetBuffers.InetPton4(ip, addr, 0);
      if !addrOk {
        return BadAddr;
      }
      queue := queue + [ScanModel.Scan(accepted, remote, NewConns(ports))];
      accepted := accepted + 1;
      return Success;
    }

    /** The connections of one scan are reaped; if none is left, the scan leaves
        the live list and the client is told. */
    method ReapScan(now: int, i: nat, ghost done: seq<Scan>, ghost rest: seq<Scan>) returns (kept: bool)
      requires rest != [] && scans == done + rest && i == |done|
      modifies this`fdUse, this`scans, this`trace
      ensures var e := CloseOne(cfg, now, old(fdUse), rest[0]);
              && fdUse == e.fdUse && trace == old(trace) + e.calls
              && scans == done + e.scans + rest[1..] && |e.scans| == if kept then 1 else 0
    {
      hide CloseConns, Without;
      ghost var r := CloseConns(cfg, now, rest[0].id, fdUse, rest[0].conns);
      ghost var x := rest[0].(conns := r.conns);
      assert scans[i] == rest[0];
      CloseScan(now, i);
      SpliceAny(done, rest, x);
      Unlink(done, [x] + rest[1..]);
      kept := |scans[i].conns| != 0;
      if !kept {
        trace := trace + [OnEnd(scans[i].id)];
        scans := Without(scans, i);
        assert done + [] + rest[1..] == done + rest[1..];
      }
    }

    method CheckClosed(env: Env)
      modifies this`fdUse, this`scans, this`trace, this`clock
      ensures View() == ScanModel.CheckClosed(cfg, env, old(View()))
    {
      hide CloseScans, CloseConns, CloseOne, PendingScans;
      clock := env.now;
      ghost var all := CloseScans(cfg, env.now, fdUse, scans);
      ghost var done, calls, rest := [], [], scans;
      PendingScansStart(all);
      assert [] + rest == rest;
      var i := 0;
      while i < |scans|
        invariant i == |done| && scans == done + rest && clock == env.now
        invariant trace == old(trace) + calls
        invariant PendingScans(all, done, calls, CloseScans(cfg, env.now, fdUse, rest))
        decreases |rest|
      {
        CloseScansNext(cfg, env.now, fdUse, rest, all, done, calls);
        ghost var e := CloseOne(cfg, env.now, fdUse, rest[0]);
        var kept := ReapScan(env.now, i, done, rest);
        calls, done, rest := calls + e.calls, done + e.scans, rest[1..];
        if kept {
          i := i + 1;
        }
      }
      assert done + [] == done;
      CloseScansNone(cfg, env.now, fdUse);
      PendingScansEnd(all, done, calls, fdUse);
    }

    /** One call of the client's main loop. */
    method Cycle(env: Env)
      modifies this
      ensures View() == ScanModel.Cycle(cfg, env, ufdsSize, old(View()))
      ensures ufdsSize >= Limit(cfg)
    {
      CheckQueue();
      CheckEstablish(env);
      CheckPoll(env);
      CheckClosed(env);
    }

    // ----- opm_scan, opm_endscan, opm_end, opm_active -----

    method EndScan(remote: nat)
      modifies this`scans
      ensures View() == ScanModel.EndScan(remote, old(View()))
    {
      hide EndLive;
      ghost var views := scans;
      ghost var done := [];
      assert views[0..] == views && [] + views == views && [] + EndLive(remote, views) == EndLive(remote, views);
      var i := 0;
      while i < |scans|
        invariant i == |done| <= |views|
        invariant scans == done + views[i..]
        invariant EndLive(remote, views) == done + EndLive(remote, views[i..])
        decreases |views| - i
      {
        SuffixStep(views, i);
        EndLiveNext(remote, views[i..], done);
        var x := scans[i];
        if x.remote == remote {
          x := x.(conns := CloseAll(x.conns));
          scans := scans[i := x];
        }
        Splice(done, views, i, x);
        done := done + [x];
        i := i + 1;
      }
      EndLiveNone(remote);
    }

    method End(remote: nat)
      modifies this`scans, this`queue, this`trace
      ensures View() == ScanModel.End(remote, old(View()))
    {
      hide EndQueued, EndLive, Without, PendingScans;
      EndScan(remote);
      ghost var views := queue;
      ghost var all := EndQueued(remote, views);
      ghost var done, calls, n := [], [], 0;
      PendingScansStart(all);
      assert views[0..] == views && [] + views == views;
      var i := 0;
      while i < |queue|
        invariant i == |done| && n <= |views|
        invariant queue == done + views[n..]
        invariant trace == old(trace) + calls
        invariant PendingScans(all, done, calls, EndQueued(remote, views[n..]))
        invariant scans == EndLive(remote, old(scans))
        decreases |views| - n
      {
        EndQueuedNext(remote, views, n, all, done, calls);
        SuffixStep(views, n);
        Unlink(done, views[n..]);
        Keep(done, views[n..]);
        n := n + 1;
        var x := queue[i];
        if x.remote == remote {
          trace := trace + [OnEnd(x.id)];
          queue := Without(queue, i);
          calls := calls + [OnEnd(x.id)];
        } else {
          done := done + [x];
          i := i + 1;
        }
      }
      EndQueuedNone(remote);
      PendingScansEnd(all, done, calls, 0);
    }

    method Active() returns (n: nat)
      ensures n == ScanModel.Active(View())
    {
      n := |queue| + |scans|;
    }
  }
}
