/** The network as it is changed in place.

    The global lists `servlist`, `userlist` and `channels` and the records at their
    addresses are fields; every method is tied to an operation on values. */
module NetworkState {
  import opened Wrappers
  import opened CStrings
  import opened Network
  import opened Membership
  import opened Netsplit

  /** Servers are found by name, and by identifiers that are nobody's name. */
  ghost predicate ServersNamed(srv: map<Ref, Server>) {
    forall a, b :: a in srv && b in srv && a != b ==>
                     && !SameName(srv[a].name, srv[b].name)
                     && !(srv[a].sid != "" && SameName(srv[a].sid, srv[b].name))
  }

  function FindServIn(srv: map<Ref, Server>, list: seq<Ref>, text: string): (r: Option<Ref>)
    requires forall s :: s in list ==> s in srv
    ensures r.Some? ==> r.value in list
    ensures r.None? ==> forall s :: s in list ==> !SameName(srv[s].name, text)
  {
    if list == [] then None
    else
      var s := srv[list[0]];
      if SameName(s.name, text) || (s.sid != "" && SameName(s.sid, text)) then Some(list[0])
      else FindServIn(srv, list[1..], text)
  }

  /** `find_serv(serv)`. */
  function FindServ(net: Net, text: string): Option<Ref>
    requires forall s :: s in net.servlist ==> s in net.srv
  {
    FindServIn(net.srv, net.servlist, text)
  }

  /** The name or the identifier of a server. */
  ghost predicate ServerCalled(s: Server, text: string) {
    SameName(s.name, text) || (s.sid != "" && SameName(s.sid, text))
  }

  /** The first of the list that is called so, if any is. */
  ghost predicate FirstServer(srv: map<Ref, Server>, list: seq<Ref>, text: string, r: Option<Ref>)
    requires forall s :: s in list ==> s in srv
  {
    match r
    case None => forall i :: 0 <= i < |list| ==> !ServerCalled(srv[list[i]], text)
    case Some(s) =>
      exists i :: 0 <= i < |list| && list[i] == s && ServerCalled(srv[s], text)
                  && forall j :: 0 <= j < i ==> !ServerCalled(srv[list[j]], text)
  }

  lemma {:induction false} FindServInFirst(srv: map<Ref, Server>, list: seq<Ref>, text: string)
    requires forall s :: s in list ==> s in srv
    ensures FirstServer(srv, list, text, FindServIn(srv, list, text))
  {
    if list != [] {
      FindServInFirst(srv, list[1..], text);
      hide SameName;
      var r := FindServIn(srv, list[1..], text);
      assert forall i :: 0 < i < |list| ==> list[i] == list[1..][i - 1];
      if r == FindServIn(srv, list, text) && r.Some? && !ServerCalled(srv[list[0]], text) {
        var i :| 0 <= i < |list| - 1 && list[1..][i] == r.value
                 && forall j :: 0 <= j < i ==> !ServerCalled(srv[list[1..][j]], text);
        assert list[i + 1] == r.value;
      }
    }
  }

  /** `find_serv` finds the first server whose name or identifier the text is, and
      none exactly if there is none. */
  lemma FindServFirst(net: Net, text: string)
    requires forall s :: s in net.servlist ==> s in net.srv
    ensures FirstServer(net.srv, net.servlist, text, FindServ(net, text))
    ensures FindServ(net, text).None? <==> forall s :: s in net.servlist ==> !ServerCalled(net.srv[s], text)
  {
    FindServInFirst(net.srv, net.servlist, text);
    hide ServerCalled;
  }

  lemma {:induction false} FindsServerIn(srv: map<Ref, Server>, list: seq<Ref>, s: Ref)
    requires ServersNamed(srv) && (forall t :: t in list ==> t in srv) && s in list
    ensures FindServIn(srv, list, srv[s].name) == Some(s)
  {
    if list[0] != s {
      FindsServerIn(srv, list[1..], s);
    }
  }

  lemma FindsServer(net: Net, s: Ref)
    requires Rooted(net) && ServersNamed(net.srv) && s in net.srv
    ensures FindServ(net, net.srv[s].name) == Some(s)
  {
    FindsServerIn(net.srv, net.servlist, s);
  }

  /** `new_serv(uplink, servername)`; `at` is the address of the new record. */
  function NewServ(net: Net, at: Ref, uplink: Option<Ref>, name: string): Net
    requires forall s :: s in net.servlist ==> s in net.srv
  {
    if FindServ(net, name).Some? then net
    else net.(servlist := net.servlist + [at], srv := net.srv[at := Server(name, "", uplink)])
  }

  /** A new server hangs below its uplink. */
  function Hang(rank: Ref -> nat, at: Ref, uplink: Option<Ref>): Ref -> nat {
    (r: Ref) => if r == at then (if uplink.Some? then rank(uplink.value) + 1 else 0) else rank(r)
  }

  lemma ListFacts(net: Net)
    requires Rooted(net)
    ensures Distinct(net.servlist) && Lists(net.servlist, net.srv.Keys) && forall s :: s in net.servlist <==> s in net.srv
  {
  }

  lemma NewServForest(net: Net, rank: Ref -> nat, at: Ref, uplink: Option<Ref>, name: string)
    requires Rooted(net) && Forest(net.srv, rank) && at !in net.srv && (uplink.Some? ==> uplink.value in net.srv)
    ensures Forest(net.srv[at := Server(name, "", uplink)], Hang(rank, at, uplink))
  {
    hide Lists;
  }

  lemma NamedGrows(srv: map<Ref, Server>, at: Ref, uplink: Option<Ref>, name: string)
    requires ServersNamed(srv) && at !in srv
    requires forall s :: s in srv ==> !SameName(srv[s].name, name) && !SameName(name, srv[s].name)
    requires forall s :: s in srv ==> !(srv[s].sid != "" && SameName(srv[s].sid, name))
    ensures ServersNamed(srv[at := Server(name, "", uplink)])
  {
    hide SameName;
  }

  lemma {:induction false} NotFound(srv: map<Ref, Server>, list: seq<Ref>, text: string)
    requires (forall s :: s in list ==> s in srv) && FindServIn(srv, list, text).None?
    ensures forall s :: s in list ==> !SameName(srv[s].name, text) && !(srv[s].sid != "" && SameName(srv[s].sid, text))
  {
    if list != [] {
      NotFound(srv, list[1..], text);
    }
  }

  lemma NewServNamed(net: Net, at: Ref, uplink: Option<Ref>, name: string)
    requires Rooted(net) && ServersNamed(net.srv) && at !in net.srv && FindServ(net, name).None?
    ensures ServersNamed(net.srv[at := Server(name, "", uplink)])
  {
    hide ServersNamed, Lists, Lower;
    ListFacts(net);
    NotFound(net.srv, net.servlist, name);
    assert forall s :: s in net.srv ==> s in net.servlist;
    NamedGrows(net.srv, at, uplink, name);
  }

  lemma NewServRooted(net: Net, at: Ref, uplink: Option<Ref>, name: string)
    requires Rooted(net) && at !in net.srv && (uplink.Some? ==> uplink.value in net.srv)
    ensures Rooted(net.(servlist := net.servlist + [at], srv := net.srv[at := Server(name, "", uplink)]))
  {
    hide Lists;
    AppendLists(net.servlist, net.srv.Keys, at);
    assert net.srv[at := Server(name, "", uplink)].Keys == net.srv.Keys + {at};
  }

  lemma NewServKeeps(net: Net, rank: Ref -> nat, at: Ref, uplink: Option<Ref>, name: string)
    requires Sound(net) && ServersNamed(net.srv) && Forest(net.srv, rank) && at !in net.srv
    requires uplink.Some? ==> uplink.value in net.srv
    ensures var after := NewServ(net, at, uplink, name);
            && Sound(after) && (Exact(net) ==> Exact(after)) && ServersNamed(after.srv)
            && (after != net ==> Forest(after.srv, Hang(rank, at, uplink)))
  {
    if FindServ(net, name).None? {
      var servlist, srv := net.servlist + [at], net.srv[at := Server(name, "", uplink)];
      hide Linked, Named, Counted, Exact, Rooted, ServersNamed, FindServ, Forest, Hang;
      SplitLinked(net, servlist, srv);
      NewServRooted(net, at, uplink, name);
      NewServNamed(net, at, uplink, name);
      NewServForest(net, rank, at, uplink, name);
    }
  }

  /** The new record is added, below its uplink; everything else is as before. */
  ghost predicate ServerAdded(net: Net, after: Net, at: Ref, uplink: Option<Ref>, name: string) {
    && after.servlist == net.servlist + [at] && after.srv.Keys == net.srv.Keys + {at}
    && after.srv[at].name == name && after.srv[at].sid == "" && after.srv[at].uplink == uplink
    && (forall s :: s in net.srv && s != at ==> after.srv[s] == net.srv[s])
    && after.userlist == net.userlist && after.usr == net.usr
    && after.chanlist == net.chanlist && after.chn == net.chn
  }

  lemma NewServAdds(net: Net, at: Ref, uplink: Option<Ref>, name: string)
    requires Rooted(net) && at !in net.srv
    ensures var after := NewServ(net, at, uplink, name);
            && (FindServ(net, name).Some? ==> after == net)
            && (FindServ(net, name).None? ==> ServerAdded(net, after, at, uplink, name))
  {
    hide FindServ, Rooted;
    ListFacts(net);
    assert net.srv[at := Server(name, "", uplink)].Keys == net.srv.Keys + {at};
  }

  /** A new server keeps everything in order: names stay unique and there is still
      no cycle. It hangs below its uplink and is found by its name; a server that is
      known already changes nothing. */
  lemma NewServSound(net: Net, rank: Ref -> nat, at: Ref, uplink: Option<Ref>, name: string)
    requires Sound(net) && ServersNamed(net.srv) && Forest(net.srv, rank) && at !in net.srv
    requires uplink.Some? ==> uplink.value in net.srv
    ensures var after := NewServ(net, at, uplink, name);
            && Sound(after) && (Exact(net) ==> Exact(after)) && ServersNamed(after.srv)
            && (FindServ(net, name).Some? ==> after == net)
            && (FindServ(net, name).None? ==>
                  && ServerAdded(net, after, at, uplink, name) && Forest(after.srv, Hang(rank, at, uplink))
                  && (forall s :: s in after.servlist ==> s in after.srv) && FindServ(after, name) == Some(at))
  {
    hide Linked, Named, Counted, Exact, Rooted, ServersNamed, FindServ, Forest, Hang, NewServ;
    ListFacts(net);
    NewServKeeps(net, rank, at, uplink, name);
    NewServAdds(net, at, uplink, name);
    var after := NewServ(net, at, uplink, name);
    ListFacts(after);
    if FindServ(net, name).None? {
      assert at in after.srv;
      FindsServer(after, at);
    }
  }

  lemma {:induction false} UnderHang(net: Net, rank: Ref -> nat, at: Ref, uplink: Option<Ref>, name: string, s: Ref, root: Ref)
    requires Rooted(net) && at !in net.srv && s in net.srv
    ensures var srv := net.srv[at := Server(name, "", uplink)];
            Under(srv, Hang(rank, at, uplink), s, root) <==> Under(net.srv, rank, s, root)
    decreases rank(s)
  {
    var up := net.srv[s].uplink;
    if s != root && up.Some? && rank(up.value) < rank(s) {
      UnderHang(net, rank, at, uplink, name, up.value, root);
    }
  }

  /** What a later netsplit takes along: the new server goes with `root` exactly if
      its uplink does, and all other servers as without it. */
  lemma NewServBelow(net: Net, rank: Ref -> nat, at: Ref, uplink: Option<Ref>, name: string, root: Ref)
    requires Rooted(net) && at !in net.srv && root in net.srv && FindServ(net, name).None?
    requires uplink.Some? ==> uplink.value in net.srv
    ensures Subtree(NewServ(net, at, uplink, name).srv, Hang(rank, at, uplink), root)
         == Subtree(net.srv, rank, root)
            + (if uplink.Some? && uplink.value in Subtree(net.srv, rank, root) then {at} else {})
  {
    hide FindServ, Rooted;
    var srv, hang := net.srv[at := Server(name, "", uplink)], Hang(rank, at, uplink);
    forall s | s in net.srv
      ensures Under(srv, hang, s, root) <==> Under(net.srv, rank, s, root)
    {
      UnderHang(net, rank, at, uplink, name, s, root);
    }
    assert Under(srv, hang, at, root) <==> uplink.Some? && Under(srv, hang, uplink.value, root);
    ListFacts(net);
  }

  lemma {:induction false} DeletedAt(list: seq<Ref>, i: nat)
    requires Distinct(list) && i < |list|
    ensures Without(list, {list[i]}) == list[..i] + list[i + 1..]
  {
    if i == 0 {
      WithoutNone(list[1..], {list[0]});
      assert list[..0] == [];
    } else {
      DeletedAt(list[1..], i - 1);
      assert list[1..][..i - 1] == list[1..i] && list[1..][i..] == list[i + 1..];
      assert list[..i] == [list[0]] + list[1..i];
    }
  }

  /** `dlink_find_delete`: the first occurrence goes. */
  method FindDelete(list: seq<Ref>, x: Ref) returns (r: seq<Ref>)
    requires Distinct(list)
    ensures r == Without(list, {x})
  {
    for i := 0 to |list|
      invariant x !in list[..i]
    {
      if list[i] == x {
        DeletedAt(list, i);
        return list[..i] + list[i + 1..];
      }
      assert list[..i + 1] == list[..i] + [list[i]];
    }
    assert list[..|list|] == list;
    WithoutNone(list, {x});
    r := list;
  }

  // ----- Leaving a channel, step by step -----

  /** The record of the channel is freed. */
  function Freed(net: Net, c: Ref): Net {
    net.(chanlist := Without(net.chanlist, {c}), chn := net.chn - {c})
  }

  /** `c->usercnt--`, and the channel is freed when nobody is left. */
  function CountedDown(net: Net, c: Ref): Net
    requires c in net.chn
  {
    var left := net.chn[c].usercnt - 1;
    if left <= 0 then Freed(net, c) else net.(chn := net.chn[c := net.chn[c].(usercnt := left)])
  }

  /** A user is taken off on both sides; nothing else changes. */
  function Detached(net: Net, u: Ref, c: Ref): (n: Net)
    requires u in net.usr && c in net.chn
    ensures c in n.chn && n.chn[c].usercnt == net.chn[c].usercnt && n.chanlist == net.chanlist
  {
    Leave(net, u, c, net.chn[c].usercnt, false)
  }

  lemma LeaveFreed(net: Net, u: Ref, c: Ref, left: int)
    requires u in net.usr && c in net.chn
    ensures Leave(net, u, c, left, true) == Freed(Detached(net, u, c), c)
    ensures left == net.chn[c].usercnt - 1 ==> Leave(net, u, c, left, left <= 0) == CountedDown(Detached(net, u, c), c)
  {
    hide Without;
    var n := Detached(net, u, c);
    MapOver(net.chn, c, n.chn[c], n.chn[c].(usercnt := left));
    assert n.chn - {c} == net.chn - {c};
  }

  lemma LeaveInSteps(net: Net, u: Ref, c: Ref)
    requires Live(net, u, c) && u in net.chn[c].users
    ensures Part(net, u, c) == CountedDown(Detached(net, u, c), c)
    ensures Kick(net, u, c) == if net.chn[c].usercnt == 0 then Freed(Detached(net, u, c), c) else Detached(net, u, c)
  {
    hide Linked, Leave, Part, Freed, CountedDown;
    PartIsLeave(net, u, c);
    LeaveFreed(net, u, c, net.chn[c].usercnt - 1);
    LeaveFreed(net, u, c, net.chn[c].usercnt);
  }

  /** The users who are not ours. */
  function RemoteUsers(usr: map<Ref, User>): set<Ref> {
    set u | u in usr && !usr[u].local
  }

  lemma BelowNone(net: Net, rank: Ref -> nat, root: Ref)
    ensures Split(net, Below(net.srv, rank, root, net.servlist[..0])) == net
  {
    assert Below(net.srv, rank, root, net.servlist[..0]) == {};
    SplitNone(net);
  }

  lemma LinkedLists(net: Net)
    requires Linked(net)
    ensures Lists(net.userlist, net.usr.Keys) && Lists(net.chanlist, net.chn.Keys)
  {
  }

  lemma OkLists(net: Net)
    requires Linked(net)
    ensures Distinct(net.userlist) && Distinct(net.chanlist)
    ensures (forall u :: u in net.userlist <==> u in net.usr) && forall c :: c in net.chanlist <==> c in net.chn
  {
  }

  /** The identifier of a user has no part in what is kept. */
  lemma MarkedSound(net: Net, u: Ref, uid: string)
    requires Sound(net) && u in net.usr
    ensures Sound(net.(usr := net.usr[u := net.usr[u].(uid := uid)]))
    ensures forall v :: v in net.userlist ==> v in net.usr
  {
    hide Linked, Lists, Named, Rooted, Counted, Exact, UserOk, ChanOk, Distinct;
    OkLists(net);
    LinkedLists(net);
    var after := net.(usr := net.usr[u := net.usr[u].(uid := uid)]);
    assert after.usr.Keys == net.usr.Keys;
    GrownLinked(net, after);
    CountsKept(net, after);
    SoundFrom(net, after);
  }

  lemma FoundIs(net: Net, text: string)
    requires Linked(net)
    ensures FindUser(net, text).Some? ==> FindUser(net, text).value in net.usr
  {
  }

  lemma PartialHas(net: Net, u: Ref, done: set<Ref>)
    requires u in net.usr
    ensures u in Partial(net, u, done).usr
  {
  }

  /** Those of the first `k` in the list who are `victims`. */
  ghost function Upto(list: seq<Ref>, k: nat, victims: set<Ref>): set<Ref>
    requires k <= |list|
  {
    set u | u in list[..k] && u in victims
  }

  lemma UptoNext(list: seq<Ref>, k: nat, victims: set<Ref>)
    requires Distinct(list) && k < |list|
    ensures list[k] !in Upto(list, k, victims)
    ensures Upto(list, k + 1, victims) == Upto(list, k, victims) + (if list[k] in victims then {list[k]} else {})
    ensures Upto(list, k, victims) + {} == Upto(list, k, victims)
  {
    assert list[..k + 1] == list[..k] + [list[k]];
  }

  lemma UptoAll(list: seq<Ref>, victims: set<Ref>, all: set<Ref>)
    requires victims <= all && forall u :: u in list <==> u in all
    ensures Upto(list, 0, victims) == {} && Upto(list, |list|, victims) == victims
  {
    assert list[..|list|] == list;
  }

  lemma RemoveNone(net: Net)
    ensures RemoveUsers(net, {}) == net
  {
    SplitNone(net);
    assert UsersOn(net.usr, {}) == {};
    WithoutNone(net.servlist, {});
    assert net.srv - {} == net.srv;
  }

  /** Who is not removed is as before. */
  lemma RemovedRest(net: Net, gone: set<Ref>)
    ensures RemoveUsers(net, gone).usr == net.usr - gone && RemoveUsers(net, gone).srv == net.srv
    ensures RemoveUsers(net, gone).servlist == net.servlist
  {
  }

  /** The name of the user's server tells whether it is `s`. */
  lemma UserServer(net: Net, u: Ref, s: Ref)
    requires Rooted(net) && ServersNamed(net.srv) && s in net.srv && u in net.usr
    ensures net.usr[u].serv.Some? ==> net.usr[u].serv.value in net.srv
    ensures u in UsersOn(net.usr, {s})
            <==> net.usr[u].serv.Some? && SameName(net.srv[s].name, net.srv[net.usr[u].serv.value].name)
  {
  }

  /** The name of the uplink tells whether it is `s`. */
  lemma ChildByName(net: Net, li: Ref, s: Ref)
    requires Rooted(net) && ServersNamed(net.srv) && s in net.srv && li in net.srv
    ensures net.srv[li].uplink.Some? ==> net.srv[li].uplink.value in net.srv
    ensures Child(net.srv, li, s)
            <==> net.srv[li].uplink.Some? && SameName(net.srv[net.srv[li].uplink.value].name, net.srv[s].name)
  {
  }

  /** What remains is named and ranked as before. */
  lemma SplitServersKept(net: Net, rank: Ref -> nat, gone: set<Ref>)
    requires Sound(net) && ServersNamed(net.srv) && Forest(net.srv, rank) && Downward(net.srv, gone)
    ensures var now := Split(net, gone);
            Sound(now) && now.srv == net.srv - gone && ServersNamed(now.srv) && Forest(now.srv, rank)
  {
    SplitSound(net, gone);
    hide Sound, SameName, RemoveUsers, Without;
  }

  lemma ChildStep(net: Net, rank: Ref -> nat, root: Ref, list: seq<Ref>, k: nat)
    requires Sound(net) && ServersNamed(net.srv) && Forest(net.srv, rank)
    requires Lists(list, net.srv.Keys) && k < |list| && Child(net.srv, list[k], root)
    ensures var gone := Below(net.srv, rank, root, list[..k]);
            var now := Split(net, gone);
            && Sound(now) && now.srv == net.srv - gone && ServersNamed(now.srv) && Forest(now.srv, rank)
            && list[k] in now.srv && now.srv[list[k]] == net.srv[list[k]] && now.srv[list[k]].uplink.Some?
            && FindServ(now, net.srv[list[k]].name) == Some(list[k]) && rank(root) < rank(list[k])
            && Split(now, Subtree(now.srv, rank, list[k])) == Split(net, gone + Subtree(net.srv, rank, list[k]))
            && Sound(Split(net, gone + Subtree(net.srv, rank, list[k])))
  {
    var gone := Below(net.srv, rank, root, list[..k]);
    BelowDownward(net.srv, rank, root, list[..k]);
    SplitServersKept(net, rank, gone);
    NextChild(net.srv, rank, root, list, k);
    hide Linked, Named, Counted, Split, Subtree, Below, FindServ, ServersNamed, Lists, Forest, Distinct;
    var now := Split(net, gone);
    FindsServer(now, list[k]);
    SplitTwice(net, gone, Subtree(net.srv, rank, list[k]));
    SubtreeDownward(now.srv, rank, list[k]);
    SplitSound(now, Subtree(now.srv, rank, list[k]));
  }

  lemma RootNotBelow(srv: map<Ref, Server>, rank: Ref -> nat, root: Ref, list: seq<Ref>)
    requires Forest(srv, rank) && root in srv
    ensures root !in Below(srv, rank, root, list)
  {
    if root in Below(srv, rank, root, list) {
      var c :| c in list && Child(srv, c, root) && Under(srv, rank, root, c);
      ChildUnder(srv, rank, root, c, root);
    }
  }

  /** After the children, the server itself. */
  lemma RootStep(net: Net, rank: Ref -> nat, root: Ref)
    requires Sound(net) && ServersNamed(net.srv) && Forest(net.srv, rank) && root in net.srv
    ensures var gone := Below(net.srv, rank, root, net.servlist);
            var now := Split(net, gone);
            && Sound(now) && ServersNamed(now.srv) && root in now.srv
            && Split(now, {root}) == Split(net, Subtree(net.srv, rank, root))
            && Split(now, {root}) == RemoveUsers(now, UsersOn(now.usr, {root})).(servlist := Without(now.servlist, {root}), srv := now.srv - {root})
            && RemoveUsers(now, UsersOn(now.usr, {root})).servlist == now.servlist
            && RemoveUsers(now, UsersOn(now.usr, {root})).srv == now.srv
            && Rooted(RemoveUsers(now, UsersOn(now.usr, {root})))
  {
    var gone := Below(net.srv, rank, root, net.servlist);
    BelowDownward(net.srv, rank, root, net.servlist);
    SplitServersKept(net, rank, gone);
    BelowAll(net.srv, rank, root, net.servlist);
    RootNotBelow(net.srv, rank, root, net.servlist);
    var now := Split(net, gone);
    RemovedRest(now, UsersOn(now.usr, {root}));
    RemoveSound(now, UsersOn(now.usr, {root}));
    hide Linked, Named, Counted, Subtree, Below, ServersNamed, Lists, Forest, Distinct, UsersOn, RemoveUsers, Without;
    SplitTwice(net, gone, {root});
    assert gone + {root} == {root} + gone;
  }

  class State {
    var servlist: seq<Ref>
    var srv: map<Ref, Server>
    var userlist: seq<Ref>
    var usr: map<Ref, User>
    var chanlist: seq<Ref>
    var chn: map<Ref, Channel>

    ghost function View(): Net
      reads this
    {
      Net(servlist, srv, userlist, usr, chanlist, chn)
    }

    constructor ()
      ensures View() == EMPTY
    {
      servlist, srv, userlist, usr, chanlist, chn := [], map[], [], map[], [], map[];
    }

    // ----- Searching -----

    method FindUserRef(text: string) returns (r: Option<Ref>)
      requires forall u :: u in userlist ==> u in usr
      ensures r == FindUser(View(), text)
    {
      assert userlist[0..] == userlist;
      for i := 0 to |userlist|
        invariant FindUserIn(View(), userlist[i..], text) == FindUser(View(), text)
      {
        var u := usr[userlist[i]];
        if SameName(u.nick, text) {
          return Some(userlist[i]);
        }
        if u.uid != "" && SameName(u.uid, text) {
          return Some(userlist[i]);
        }
        assert userlist[i..][1..] == userlist[i + 1..];
      }
      r := None;
    }

    method FindChannel(list: seq<Ref>, text: string) returns (r: Option<Ref>)
      requires forall c :: c in list ==> c in chn
      ensures r == FindChannelIn(View(), list, text)
    {
      assert list[0..] == list;
      for i := 0 to |list|
        invariant FindChannelIn(View(), list[i..], text) == FindChannelIn(View(), list, text)
      {
        if SameName(chn[list[i]].name, text) {
          return Some(list[i]);
        }
        assert list[i..][1..] == list[i + 1..];
      }
      r := None;
    }

    /** `find_chanuser(u, c)`. */
    method FindChanUser(u: Ref, c: Ref) returns (r: Option<Ref>)
      requires u in usr && c in chn && forall v :: v in chn[c].users ==> v in usr
      ensures r == FindMember(View(), chn[c].users, usr[u].nick)
    {
      var list := chn[c].users;
      assert list[0..] == list;
      for i := 0 to |list|
        invariant FindMember(View(), list[i..], usr[u].nick) == FindMember(View(), list, usr[u].nick)
      {
        if SameName(usr[list[i]].nick, usr[u].nick) {
          return Some(list[i]);
        }
        assert list[i..][1..] == list[i + 1..];
      }
      r := None;
    }

    method FindServer(text: string) returns (r: Option<Ref>)
      requires forall s :: s in servlist ==> s in srv
      ensures r == FindServ(View(), text)
    {
      assert servlist[0..] == servlist;
      for i := 0 to |servlist|
        invariant FindServIn(srv, servlist[i..], text) == FindServIn(srv, servlist, text)
      {
        var li := srv[servlist[i]];
        if SameName(li.name, text) {
          return Some(servlist[i]);
        }
        if li.sid != "" && SameName(li.sid, text) {
          return Some(servlist[i]);
        }
        assert servlist[i..][1..] == servlist[i + 1..];
      }
      r := None;
    }

    // ----- Users and channels -----

    /** `new_user(nick)`; `at` is the address the allocator gives. */
    method AddUser(nick: string, at: Ref) returns (ok: bool)
      requires Linked(View()) && at !in usr
      modifies `userlist, `usr
      ensures View() == NewUser(old(View()), at, nick)
      ensures ok == FindUser(old(View()), nick).None?
    {
      hide UserOk, ChanOk, Distinct;
      var tmp := FindUserRef(nick);
      if tmp.Some? {
        return false;
      }
      usr := usr[at := User(nick, "", None, false, [])];
      userlist := userlist + [at];
      ok := true;
    }

    /** `new_chan(chan)`. */
    method AddChannel(name: string, at: Ref) returns (c: Ref)
      requires Linked(View()) && at !in chn
      modifies `chanlist, `chn
      ensures View() == NewChan(old(View()), at, name)
      ensures c in chn && SameName(chn[c].name, name)
    {
      hide UserOk, ChanOk, Distinct;
      var tmp := FindChannel(chanlist, name);
      if tmp.Some? {
        return tmp.value;
      }
      chn := chn[at := Channel(name, [], 0)];
      chanlist := chanlist + [at];
      c := at;
    }

    /** `AddToChannelU(user, c)`. */
    method AddToChannel(u: Ref, c: Ref)
      requires Linked(View()) && u in usr && c in chn
      modifies `usr, `chn
      ensures View() == Join(old(View()), u, c)
    {
      OkOf(View(), u, c);
      hide Linked, ChanOk, Distinct;
      var known := FindChannel(usr[u].channels, chn[c].name);
      if known.Some? {
        return;
      }
      chn := chn[c := chn[c].(users := chn[c].users + [u], usercnt := chn[c].usercnt + 1)];
      usr := usr[u := usr[u].(channels := usr[u].channels + [c])];
    }

    /** Takes `u` off `c` on both sides. */
    method Detach(u: Ref, c: Ref)
      requires u in usr && c in chn && Distinct(chn[c].users) && Distinct(usr[u].channels)
      modifies `usr, `chn
      ensures View() == Detached(old(View()), u, c)
    {
      hide Without, Distinct;
      var users := FindDelete(chn[c].users, u);
      chn := chn[c := chn[c].(users := users)];
      var joined := FindDelete(usr[u].channels, c);
      usr := usr[u := usr[u].(channels := joined)];
    }

    method FreeChannel(c: Ref)
      requires Distinct(chanlist)
      modifies `chanlist, `chn
      ensures View() == Freed(old(View()), c)
    {
      chanlist := FindDelete(chanlist, c);
      chn := chn - {c};
    }

    method CountDown(c: Ref)
      requires c in chn && Distinct(chanlist)
      modifies `chanlist, `chn
      ensures View() == CountedDown(old(View()), c)
    {
      hide Distinct, Without;
      ghost var before := chn;
      chn := chn[c := chn[c].(usercnt := chn[c].usercnt - 1)];
      assert chn - {c} == before - {c};
      if chn[c].usercnt <= 0 {
        FreeChannel(c);
      }
    }

    lemma DetachFacts(u: Ref, c: Ref)
      requires Linked(View()) && Named(View()) && u in usr && c in chn
      ensures Distinct(chn[c].users) && Distinct(usr[u].channels) && Distinct(chanlist)
      ensures forall v :: v in chn[c].users ==> v in usr
      ensures FindMember(View(), chn[c].users, usr[u].nick) == if u in chn[c].users then Some(u) else None
    {
      OkOf(View(), u, c);
      FindsItself(View(), u, c);
    }

    /** `DelFromChannel(user, c)`. */
    method DelFromChannel(u: Ref, c: Ref)
      requires Linked(View()) && Named(View()) && u in usr && c in chn
      modifies `usr, `chanlist, `chn
      ensures View() == Part(old(View()), u, c)
    {
      DetachFacts(u, c);
      var cu := FindChanUser(u, c);
      if cu.None? {
        return;
      }
      LeaveInSteps(View(), u, c);
      hide Linked, Named, FindMember, Distinct, Detached, CountedDown, Part;
      Detach(u, c);
      CountDown(c);
    }

    /** `KickFromChannel(u, c, message)`. */
    method KickFromChannel(u: Ref, c: Ref)
      requires Linked(View()) && Named(View()) && u in usr && c in chn
      modifies `usr, `chanlist, `chn
      ensures View() == Kick(old(View()), u, c)
    {
      DetachFacts(u, c);
      var cu := FindChanUser(u, c);
      if cu.None? {
        return;
      }
      LeaveInSteps(View(), u, c);
      hide Linked, Named, FindMember, Distinct, Detached, Freed, Kick;
      Detach(u, c);
      if chn[c].usercnt == 0 {
        FreeChannel(c);
      }
    }

    /** `NewNick(u, nick)`. */
    method ChangeNick(u: Ref, nick: string)
      requires Linked(View()) && u in usr
      modifies `usr
      ensures View() == NewNick(old(View()), u, nick)
    {
      hide UserOk, ChanOk, Distinct;
      var user := FindUserRef(nick);
      if user.None? {
        usr := usr[u := usr[u].(nick := nick)];
      }
    }

    /** One more channel is left, after those that are `done`. */
    method LeaveNext(u: Ref, c: Ref, ghost before: Net, ghost done: set<Ref>)
      requires Sound(before) && u in before.usr && c in before.usr[u].channels && c !in done
      requires Sound(View()) && View() == Partial(before, u, done)
      modifies `usr, `chanlist, `chn
      ensures Sound(View()) && View() == Partial(before, u, done + {c}) && u in usr
    {
      PartialHas(before, u, done);
      PartialHas(before, u, done + {c});
      hide Linked, Named, Counted, Rooted, Partial, Part;
      PartialStep(before, u, done, c);
      PartSound(View(), u, c);
      DelFromChannel(u, c);
    }

    /** The record of the user is freed. */
    method ForgetUser(u: Ref)
      requires Linked(View())
      modifies `userlist, `usr
      ensures View() == DropUser(old(View()), u)
    {
      OkLists(View());
      userlist := FindDelete(userlist, u);
      usr := usr - {u};
    }

    /** `exit_one_user(u, message)`: the channels are left one after the other. */
    method ExitOneUser(u: Ref)
      requires Sound(View()) && u in usr
      modifies `userlist, `usr, `chanlist, `chn
      ensures View() == RemoveUsers(old(View()), {u})
    {
      ghost var before := View();
      var joined := usr[u].channels;
      ghost var all := set c | c in joined;
      OkOf(before, u, u);
      hide Linked, Named, Counted, Rooted, Partial, DropUser, RemoveUsers, Upto, Distinct;
      UptoAll(joined, all, all);
      PartialNone(before, u);
      for i := 0 to |joined|
        invariant Sound(View()) && View() == Partial(before, u, Upto(joined, i, all))
      {
        UptoNext(joined, i, all);
        LeaveNext(u, joined[i], before, Upto(joined, i, all));
      }
      PartialEnd(before, u, all);
      ForgetUser(u);
    }

    /** `exit_user(user)`. */
    method ExitUser(text: string)
      requires Sound(View())
      modifies `userlist, `usr, `chanlist, `chn
      ensures View() == match FindUser(old(View()), text)
                        case None => old(View())
                        case Some(u) => RemoveUsers(old(View()), {u})
    {
      OkLists(View());
      hide Linked, RemoveUsers, FindUser;
      var u := FindUserRef(text);
      if u.Some? {
        FoundIs(View(), text);
        ExitOneUser(u.value);
      }
    }

    // ----- Servers -----

    /** `new_serv(uplink, servername)`. */
    method AddServer(uplink: Option<Ref>, name: string, at: Ref) returns (s: Ref)
      requires Rooted(View()) && at !in srv
      modifies `servlist, `srv
      ensures View() == NewServ(old(View()), at, uplink, name)
      ensures s == match FindServ(old(View()), name) case None => at case Some(t) => t
    {
      hide Distinct;
      var tmp := FindServer(name);
      if tmp.Some? {
        return tmp.value;
      }
      srv := srv[at := Server(name, "", uplink)];
      servlist := servlist + [at];
      s := at;
    }

    /** One more user exits, after those who are `gone`. */
    method ExitNext(u: Ref, ghost before: Net, ghost gone: set<Ref>)
      requires Sound(View()) && u in usr && View() == RemoveUsers(before, gone)
      modifies `userlist, `usr, `chanlist, `chn
      ensures Sound(View()) && View() == RemoveUsers(before, gone + {u})
    {
      hide Linked, Named, Counted, Rooted, RemoveUsers;
      RemoveTwice(before, gone, {u});
      RemoveSound(View(), {u});
      ExitOneUser(u);
    }

    /** The identifier is stored under protocols that have them. */
    method Identify(u: Ref, p10: bool, ts6: bool, uid: Option<string>)
      requires u in usr && (p10 ==> uid.Some?)
      modifies `usr
      ensures var stored := if p10 || (ts6 && uid.Some?) then uid.value else old(usr[u].uid);
              usr == old(usr)[u := old(usr[u]).(uid := stored)]
    {
      if p10 || (ts6 && uid.Some?) {
        usr := usr[u := usr[u].(uid := uid.value)];
      }
    }

    /** A new user gets an identifier, if the protocol has them, and is put on the
        server named; without such a server the user exits again. */
    method PlaceUser(u: Ref, p10: bool, ts6: bool, uid: Option<string>, server: string) returns (ok: bool)
      requires Sound(View()) && u in usr && (p10 ==> uid.Some?)
      modifies `userlist, `usr, `chanlist, `chn
      ensures var stored := if p10 || (ts6 && uid.Some?) then uid.value else old(usr[u].uid);
              var marked := old(View()).(usr := old(usr)[u := old(usr[u]).(uid := stored)]);
              match FindServ(old(View()), server)
              case Some(s) => ok && View() == marked.(usr := old(usr)[u := old(usr[u]).(uid := stored, serv := Some(s))])
              case None =>
                && !ok
                && View() == match FindUser(marked, old(usr[u].nick))
                             case None => marked
                             case Some(v) => RemoveUsers(marked, {v})
    {
      ListFacts(View());
      OkLists(View());
      ghost var stored := if p10 || (ts6 && uid.Some?) then uid.value else usr[u].uid;
      MarkedSound(View(), u, stored);
      hide Linked, Named, Counted, Rooted, RemoveUsers, FindUser;
      ghost var before := usr;
      Identify(u, p10, ts6, uid);
      var li := FindServer(server);
      if li.None? {
        ExitUser(usr[u].nick);
        return false;
      }
      usr := usr[u := usr[u].(serv := Some(li.value))];
      MapOver(before, u, before[u].(uid := stored), usr[u]);
      ok := true;
    }

    /** The users on server `s` exit. */
    method ExitUsersOn(s: Ref)
      requires Sound(View()) && ServersNamed(srv) && s in srv
      modifies `userlist, `usr, `chanlist, `chn
      ensures View() == RemoveUsers(old(View()), UsersOn(old(usr), {s}))
    {
      ghost var before := View();
      ghost var victims := UsersOn(usr, {s});
      OkLists(before);
      var list := userlist;
      hide Linked, Named, Counted, Rooted, RemoveUsers, UsersOn, ServersNamed, Upto, Distinct;
      UptoAll(list, victims, before.usr.Keys);
      RemoveNone(before);
      for i := 0 to |list|
        invariant Sound(View()) && View() == RemoveUsers(before, Upto(list, i, victims))
      {
        var u := list[i];
        UptoNext(list, i, victims);
        RemovedRest(before, Upto(list, i, victims));
        UserServer(before, u, s);
        if usr[u].serv.Some? && SameName(srv[s].name, srv[usr[u].serv.value].name) {
          ExitNext(u, before, Upto(list, i, victims));
        }
      }
    }

    /** `exit_remote_users()`. */
    method ExitRemoteUsers()
      requires Sound(View())
      modifies `userlist, `usr, `chanlist, `chn
      ensures View() == RemoveUsers(old(View()), RemoteUsers(old(usr)))
    {
      ghost var before := View();
      ghost var victims := RemoteUsers(usr);
      OkLists(before);
      var list := userlist;
      hide Linked, Named, Counted, Rooted, RemoveUsers, Upto, Distinct;
      UptoAll(list, victims, before.usr.Keys);
      RemoveNone(before);
      for i := 0 to |list|
        invariant Sound(View()) && View() == RemoveUsers(before, Upto(list, i, victims))
      {
        var u := list[i];
        UptoNext(list, i, victims);
        RemovedRest(before, Upto(list, i, victims));
        if !usr[u].local {
          ExitNext(u, before, Upto(list, i, victims));
        }
      }
    }

    /** The record of the server is freed. */
    method ForgetServer(s: Ref)
      requires Rooted(View())
      modifies `servlist, `srv
      ensures View() == old(View()).(servlist := Without(old(servlist), {s}), srv := old(srv) - {s})
    {
      servlist := FindDelete(servlist, s);
      srv := srv - {s};
    }

    /** After everything behind it, the users on `s` and `s` itself. */
    method ExitRoot(s: Ref, ghost before: Net, ghost rank: Ref -> nat)
      requires Sound(before) && ServersNamed(before.srv) && Forest(before.srv, rank) && s in before.srv
      requires View() == Split(before, Below(before.srv, rank, s, before.servlist))
      modifies this
      ensures View() == Split(before, Subtree(before.srv, rank, s))
    {
      hide Linked, Named, Counted, Rooted, Split, Subtree, Below, ServersNamed, Forest, UsersOn, RemoveUsers, Without;
      RootStep(before, rank, s);
      ExitUsersOn(s);
      ForgetServer(s);
    }

    /** `exit_serv(serv)`. Only a server with an uplink can be split off. */
    method ExitServ(name: string, ghost rank: Ref -> nat, ghost top: nat)
      requires Sound(View()) && ServersNamed(srv) && Forest(srv, rank) && forall s :: s in srv ==> rank(s) <= top
      requires var s := FindServ(View(), name); s.Some? ==> s.value in srv && srv[s.value].uplink.Some?
      modifies this
      ensures View() == match FindServ(old(View()), name)
                        case None => old(View())
                        case Some(s) => Split(old(View()), Subtree(old(srv), rank, s))
      decreases match FindServ(View(), name) case None => 0 case Some(s) => top - rank(s) + 1, 0
    {
      ListFacts(View());
      hide Linked, Named, Counted, Rooted, Split, Subtree, FindServ, ServersNamed, Forest;
      var found := FindServer(name);
      if found.Some? {
        ExitFound(found.value, rank, top);
      }
    }

    /** One server of the list: if `s` is its uplink, it is split off before `s`. */
    method ExitIfChild(li: Ref, s: Ref, was: map<Ref, Server>, i: nat, ghost before: Net, ghost rank: Ref -> nat, ghost top: nat)
      requires Sound(before) && ServersNamed(before.srv) && Forest(before.srv, rank)
      requires forall r :: r in before.srv ==> rank(r) <= top
      requires was == before.srv && s in was && i < |before.servlist| && li == before.servlist[i]
      requires Sound(View()) && View() == Split(before, Below(was, rank, s, before.servlist[..i]))
      modifies this
      ensures Sound(View()) && View() == Split(before, Below(was, rank, s, before.servlist[..i + 1]))
      decreases top - rank(s), 1
    {
      ListFacts(before);
      hide Linked, Named, Counted, Rooted, Split, Subtree, Below, FindServ, ServersNamed, Lists, Forest, Child;
      BelowNext(was, rank, s, before.servlist, i);
      ChildByName(before, li, s);
      if was[li].uplink.Some? && SameName(was[was[li].uplink.value].name, was[s].name) {
        ChildStep(before, rank, s, before.servlist, i);
        ExitServ(was[li].name, rank, top);
      } else {
        assert Below(was, rank, s, before.servlist[..i]) + {} == Below(was, rank, s, before.servlist[..i]);
      }
    }

    /** `exit_serv` once the server is found. The list is walked as it was at the
        start, each server with the uplink it had; `SavedSuccessor` says when the
        source's walk, which saves a successor in the changing list, does the same. */
    method ExitFound(s: Ref, ghost rank: Ref -> nat, ghost top: nat)
      requires Sound(View()) && ServersNamed(srv) && Forest(srv, rank) && (forall r :: r in srv ==> rank(r) <= top) && s in srv
      modifies this
      ensures View() == Split(old(View()), Subtree(old(srv), rank, s))
      decreases top - rank(s), 2
    {
      ghost var before := View();
      var list, was := servlist, srv;
      hide Linked, Named, Counted, Rooted, Split, Subtree, Below, ServersNamed, Forest, UsersOn, RemoveUsers;
      BelowNone(before, rank, s);
      for i := 0 to |list|
        invariant Sound(View()) && View() == Split(before, Below(was, rank, s, list[..i]))
      {
        ExitIfChild(list[i], s, was, i, before, rank, top);
      }
      assert list[..|list|] == list;
      ExitRoot(s, before, rank);
    }
  }
}
