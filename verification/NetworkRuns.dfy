/** What holds after any run of operations on the network. */
module NetworkRuns {
  import opened Wrappers
  import opened CStrings
  import opened Network
  import opened Membership
  import opened Netsplit
  import opened NetworkState

  /** The network, and ranks that show that its servers form a forest. */
  datatype World = World(net: Net, rank: Ref -> nat)

  datatype Op =
    | UserConnects(at: Ref, nick: string)
    | UserPlaced(u: Ref, uid: string, s: Ref)
    | ChannelOpens(at: Ref, name: string)
    | Joins(u: Ref, c: Ref)
    | Parts(u: Ref, c: Ref)
    | IsKicked(u: Ref, c: Ref)
    | Renames(u: Ref, nick: string)
    | Exits(u: Ref)
    | ServerConnects(at: Ref, uplink: Option<Ref>, name: string)
    | ServerExits(s: Ref)

  /** Callers pass records that are there, and the allocator free addresses. */
  ghost predicate Allowed(net: Net, op: Op) {
    match op
    case UserConnects(at, _) => at !in net.usr
    case UserPlaced(u, _, s) => u in net.usr && s in net.srv
    case ChannelOpens(at, _) => at !in net.chn
    case Joins(u, c) => u in net.usr && c in net.chn
    case Parts(u, c) => u in net.usr && c in net.chn
    case IsKicked(u, c) => u in net.usr && c in net.chn
    case Renames(u, _) => u in net.usr
    case Exits(u) => u in net.usr
    case ServerConnects(at, uplink, _) => at !in net.srv && (uplink.Some? ==> uplink.value in net.srv)
    case ServerExits(s) => s in net.srv
  }

  ghost predicate Good(w: World) {
    Sound(w.net) && ServersNamed(w.net.srv) && Forest(w.net.srv, w.rank)
  }

  ghost function Do(w: World, op: Op): World
    requires Good(w) && Allowed(w.net, op)
  {
    var net := w.net;
    match op
    case UserConnects(at, nick) => w.(net := NewUser(net, at, nick))
    case UserPlaced(u, uid, s) => w.(net := net.(usr := net.usr[u := net.usr[u].(uid := uid, serv := Some(s))]))
    case ChannelOpens(at, name) => w.(net := NewChan(net, at, name))
    case Joins(u, c) => w.(net := Join(net, u, c))
    case Parts(u, c) => w.(net := Part(net, u, c))
    case IsKicked(u, c) => w.(net := Kick(net, u, c))
    case Renames(u, nick) => w.(net := NewNick(net, u, nick))
    case Exits(u) => w.(net := RemoveUsers(net, {u}))
    case ServerConnects(at, uplink, name) =>
      var after := NewServ(net, at, uplink, name);
      if after == net then w else World(after, Hang(w.rank, at, uplink))
    case ServerExits(s) => w.(net := Split(net, Subtree(net.srv, w.rank, s)))
  }

  lemma PlacedSound(net: Net, u: Ref, uid: string, s: Ref)
    requires Sound(net) && u in net.usr && s in net.srv
    ensures var after := net.(usr := net.usr[u := net.usr[u].(uid := uid, serv := Some(s))]);
            Sound(after) && (Exact(net) ==> Exact(after))
  {
    hide UserOk, ChanOk, Lists, SameName, Counted, Exact;
    var after := net.(usr := net.usr[u := net.usr[u].(uid := uid, serv := Some(s))]);
    assert after.usr.Keys == net.usr.Keys;
    GrownLinked(net, after);
    CountsKept(net, after);
    hide Linked;
  }

  /** Operations on users and channels leave the servers alone. */
  lemma ServersSame(w: World, op: Op)
    requires Good(w) && Allowed(w.net, op) && !op.ServerConnects? && !op.ServerExits?
    ensures Do(w, op).net.srv == w.net.srv && Do(w, op).rank == w.rank
  {
    hide Without, PruneAll, Closed, FindUser, FindChannelIn, Linked, Named, Counted, Rooted;
  }

  /** One operation. */
  lemma DoGood(w: World, op: Op)
    requires Good(w) && Allowed(w.net, op)
    ensures Good(Do(w, op))
    ensures Exact(w.net) && !op.IsKicked? ==> Exact(Do(w, op).net)
  {
    hide Linked, Named, Counted, Rooted, Exact, ServersNamed, Forest, Join, Part, Kick, NewUser, NewChan, NewNick, NewServ, RemoveUsers, Split;
    var net := w.net;
    match op
    case UserConnects(at, nick) => NewUserSound(net, at, nick); ServersSame(w, op);
    case UserPlaced(u, uid, s) => PlacedSound(net, u, uid, s);
    case ChannelOpens(at, name) => NewChanSound(net, at, name); ServersSame(w, op);
    case Joins(u, c) => JoinSound(net, u, c); ServersSame(w, op);
    case Parts(u, c) => PartSound(net, u, c); ServersSame(w, op);
    case IsKicked(u, c) => KickSound(net, u, c); ServersSame(w, op);
    case Renames(u, nick) => NewNickSound(net, u, nick); ServersSame(w, op);
    case Exits(u) => RemoveSound(net, {u}); ServersSame(w, op);
    case ServerConnects(at, uplink, name) => NewServSound(net, w.rank, at, uplink, name);
    case ServerExits(s) =>
      SubtreeDownward(net.srv, w.rank, s);
      SplitServersKept(net, w.rank, Subtree(net.srv, w.rank, s));
      SplitSound(net, Subtree(net.srv, w.rank, s));
  }

  /** Every operation of the run is allowed in the state it meets. */
  ghost predicate Runs(w: World, ops: seq<Op>)
    requires Good(w)
    decreases |ops|
  {
    ops == [] ||
    (Allowed(w.net, ops[0]) && (DoGood(w, ops[0]); Runs(Do(w, ops[0]), ops[1..])))
  }

  ghost function Run(w: World, ops: seq<Op>): (r: World)
    requires Good(w) && Runs(w, ops)
    decreases |ops|
  {
    if ops == [] then w else
      DoGood(w, ops[0]);
      Run(Do(w, ops[0]), ops[1..])
  }

  lemma {:induction false} RunGood(w: World, ops: seq<Op>)
    requires Good(w) && Runs(w, ops)
    ensures Good(Run(w, ops))
    ensures Exact(w.net) && (forall i :: 0 <= i < |ops| ==> !ops[i].IsKicked?) ==> Exact(Run(w, ops).net)
    decreases |ops|
  {
    hide Good, Exact, Do, Allowed;
    if ops != [] {
      DoGood(w, ops[0]);
      RunGood(Do(w, ops[0]), ops[1..]);
    }
  }

  lemma EmptyGood(rank: Ref -> nat)
    ensures Good(World(EMPTY, rank)) && Exact(EMPTY)
  {
  }

  /** In every state that can be reached from the empty network membership is
      symmetric, names are unique, no reference dangles and servers form a forest;
      and as long as nobody was kicked, every count is the number of users. */
  lemma Reachable(rank: Ref -> nat, ops: seq<Op>)
    requires Good(World(EMPTY, rank)) && Runs(World(EMPTY, rank), ops)
    ensures Good(Run(World(EMPTY, rank), ops))
    ensures (forall i :: 0 <= i < |ops| ==> !ops[i].IsKicked?) ==> Exact(Run(World(EMPTY, rank), ops).net)
  {
    EmptyGood(rank);
    RunGood(World(EMPTY, rank), ops);
  }

  // ----- Counts and kicks -----

  /** A kick that finds its user on the channel `c`. */
  ghost predicate Kicks(net: Net, op: Op, c: Ref) {
    op.IsKicked? && op.c == c && c in net.chn && op.u in net.chn[c].users
  }

  /** How many users were kicked from the channel at `c` since it was opened, if `n`
      were before. */
  ghost function KickedFrom(w: World, ops: seq<Op>, c: Ref, n: int): int
    requires Good(w) && Runs(w, ops)
    decreases |ops|
  {
    if ops == [] then n
    else
      DoGood(w, ops[0]);
      KickedFrom(Do(w, ops[0]), ops[1..], c, if c !in w.net.chn then 0 else if Kicks(w.net, ops[0], c) then n + 1 else n)
  }

  /** By how much a count is too large. */
  function Excess(net: Net, c: Ref): int {
    if c in net.chn then net.chn[c].usercnt - |net.chn[c].users| else 0
  }

  lemma JoinExcess(net: Net, u: Ref, d: Ref, c: Ref)
    requires Sound(net) && u in net.usr && d in net.chn
    ensures Excess(Join(net, u, d), c) == Excess(net, c)
  {
    JoinIsEnter(net, u, d);
    hide Linked, Named, Counted, Rooted, Join;
  }

  lemma LeaveExcess(net: Net, u: Ref, d: Ref, left: int, closes: bool, c: Ref)
    requires Sound(net) && u in net.usr && d in net.chn && u in net.chn[d].users && c in Leave(net, u, d, left, closes).chn
    ensures Excess(Leave(net, u, d, left, closes), c)
         == Excess(net, c) + if c == d then left - (net.chn[d].usercnt - 1) else 0
  {
    OkOf(net, u, d);
    hide Linked, Named, Counted, Rooted, UserOk, Without;
    WithoutOne(net.chn[d].users, u);
  }

  lemma PartExcess(net: Net, u: Ref, d: Ref, c: Ref)
    requires Sound(net) && u in net.usr && d in net.chn && c in Part(net, u, d).chn
    ensures Excess(Part(net, u, d), c) == Excess(net, c)
  {
    hide Linked, Named, Counted, Rooted, Leave;
    var left := net.chn[d].usercnt - 1;
    if u in net.chn[d].users {
      LeaveExcess(net, u, d, left, left <= 0, c);
    }
  }

  lemma KickExcess(net: Net, u: Ref, d: Ref, c: Ref)
    requires Sound(net) && u in net.usr && d in net.chn && c in Kick(net, u, d).chn
    ensures Excess(Kick(net, u, d), c) == Excess(net, c) + if c == d && u in net.chn[d].users then 1 else 0
  {
    hide Linked, Named, Counted, Rooted, Leave;
    var left := net.chn[d].usercnt;
    if u in net.chn[d].users {
      LeaveExcess(net, u, d, left, left == 0, c);
    }
  }

  lemma LeftExcess(net: Net, gone: set<Ref>, c: Ref)
    requires Linked(net) && Counted(net) && c in RemoveUsers(net, gone).chn
    ensures Excess(RemoveUsers(net, gone), c) == Excess(net, c)
  {
    hide Linked, Counted, Without, Closes, AllGone;
    assert c in net.chn;
    RemoveChannel(net, gone, c);
  }

  lemma SplitExcess(net: Net, gone: set<Ref>, c: Ref)
    requires Linked(net) && Counted(net) && c in Split(net, gone).chn
    ensures Excess(Split(net, gone), c) == Excess(net, c)
  {
    hide Linked, Counted, RemoveUsers, UsersOn, Without;
    LeftExcess(net, UsersOn(net.usr, gone), c);
  }

  /** One operation makes a count wrong by one more if it is a kick, and by nothing
      otherwise; a new channel starts right. */
  lemma DoExcess(w: World, op: Op, c: Ref)
    requires Good(w) && Allowed(w.net, op) && c in Do(w, op).net.chn
    ensures Excess(Do(w, op).net, c) == Excess(w.net, c) + if Kicks(w.net, op, c) then 1 else 0
  {
    hide Linked, Named, Counted, Rooted, ServersNamed, Forest, Join, Part, Kick, RemoveUsers, Split, Without;
    hide FindUser, FindChannelIn, FindServ, Subtree, Hang, UsersOn;
    var net := w.net;
    match op
    case Joins(u, d) => JoinExcess(net, u, d, c);
    case Parts(u, d) => PartExcess(net, u, d, c);
    case IsKicked(u, d) => KickExcess(net, u, d, c);
    case Exits(u) => LeftExcess(net, {u}, c);
    case ServerExits(s) => SplitExcess(net, Subtree(net.srv, w.rank, s), c);
    case _ =>
  }

  lemma NoKickElsewhere(net: Net, op: Op, c: Ref)
    ensures Kicks(net, op, c) ==> c in net.chn
  {
  }

  lemma {:induction false} RunExcess(w: World, ops: seq<Op>, c: Ref, n: int)
    requires Good(w) && Runs(w, ops) && c in Run(w, ops).net.chn
    requires c in w.net.chn ==> n == Excess(w.net, c)
    ensures Excess(Run(w, ops).net, c) == KickedFrom(w, ops, c, n)
    decreases |ops|
  {
    if ops != [] {
      hide Good, Do, Allowed, Kicks;
      DoGood(w, ops[0]);
      var after := Do(w, ops[0]);
      if c in after.net.chn {
        DoExcess(w, ops[0], c);
        NoKickElsewhere(w.net, ops[0], c);
      }
      RunExcess(after, ops[1..], c, if c !in w.net.chn then 0 else if Kicks(w.net, ops[0], c) then n + 1 else n);
    }
  }

  /** In every state that can be reached a count is the number of users plus the
      number of users ever kicked from the channel; so all counts are right if and
      only if nobody was kicked from a channel that is still there. */
  lemma CountsAreKicks(rank: Ref -> nat, ops: seq<Op>)
    requires Good(World(EMPTY, rank)) && Runs(World(EMPTY, rank), ops)
    ensures var w := World(EMPTY, rank);
            var net := Run(w, ops).net;
            && (forall c :: c in net.chn ==> net.chn[c].usercnt == |net.chn[c].users| + KickedFrom(w, ops, c, 0))
            && (Exact(net) <==> forall c :: c in net.chn ==> KickedFrom(w, ops, c, 0) == 0)
  {
    hide Good, Runs, Run, KickedFrom;
    var w := World(EMPTY, rank);
    var net := Run(w, ops).net;
    forall c | c in net.chn
      ensures net.chn[c].usercnt == |net.chn[c].users| + KickedFrom(w, ops, c, 0)
    {
      RunExcess(w, ops, c, 0);
    }
  }

  /** Not so after a kick: the channel outlives its only user. */
  lemma KickedChannelStays(net: Net, u: Ref, c: Ref)
    requires Sound(net) && Exact(net) && u in net.usr && c in net.chn && net.chn[c].users == [u]
    ensures c in Kick(net, u, c).chn && Kick(net, u, c).chn[c].users == [] && Kick(net, u, c).chn[c].usercnt == 1
    ensures c !in Part(net, u, c).chn
  {
    hide Linked, Named, Rooted, Counted;
    KickSound(net, u, c);
    PartCloses(net, u, c);
  }
}
