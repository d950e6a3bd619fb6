/** A server leaves with the servers whose uplinks lead to it and the users on all of them. */
module Netsplit {
  import opened Wrappers
  import opened CStrings
  import opened Network

  // ----- The forest of servers -----

  /** Uplinks lead to servers of lower rank: there is no cycle. */
  ghost predicate Forest(srv: map<Ref, Server>, rank: Ref -> nat) {
    forall s :: s in srv && srv[s].uplink.Some? ==> srv[s].uplink.value in srv && rank(srv[s].uplink.value) < rank(s)
  }

  /** The uplinks of `s` lead to `root`, or it is `root` itself. */
  predicate Under(srv: map<Ref, Server>, rank: Ref -> nat, s: Ref, root: Ref)
    decreases rank(s)
  {
    && s in srv
    && (s == root
        || (srv[s].uplink.Some? && rank(srv[s].uplink.value) < rank(s) && Under(srv, rank, srv[s].uplink.value, root)))
  }

  function Subtree(srv: map<Ref, Server>, rank: Ref -> nat, root: Ref): set<Ref> {
    set s | s in srv && Under(srv, rank, s, root)
  }

  predicate Child(srv: map<Ref, Server>, c: Ref, root: Ref) {
    c in srv && srv[c].uplink == Some(root)
  }

  lemma {:induction false} UnderRank(srv: map<Ref, Server>, rank: Ref -> nat, s: Ref, root: Ref)
    requires Under(srv, rank, s, root)
    ensures rank(root) <= rank(s)
    decreases rank(s)
  {
    if s != root {
      UnderRank(srv, rank, srv[s].uplink.value, root);
    }
  }

  /** Below `root` everything is below one of its children. */
  lemma {:induction false} UnderChild(srv: map<Ref, Server>, rank: Ref -> nat, s: Ref, root: Ref) returns (c: Ref)
    requires Under(srv, rank, s, root) && s != root
    ensures Child(srv, c, root) && Under(srv, rank, s, c)
    decreases rank(s)
  {
    var up := srv[s].uplink.value;
    if up == root {
      c := s;
    } else {
      c := UnderChild(srv, rank, up, root);
    }
  }

  /** What is below a child is below `root`. */
  lemma {:induction false} ChildUnder(srv: map<Ref, Server>, rank: Ref -> nat, s: Ref, c: Ref, root: Ref)
    requires Forest(srv, rank) && root in srv && Child(srv, c, root) && Under(srv, rank, s, c)
    ensures Under(srv, rank, s, root) && s != root
    decreases rank(s)
  {
    UnderRank(srv, rank, s, c);
    if s != c {
      ChildUnder(srv, rank, srv[s].uplink.value, c, root);
    } else {
      assert Under(srv, rank, root, root);
    }
  }

  /** Two servers that the same uplinks lead to lie on one line. */
  lemma {:induction false} OneLine(srv: map<Ref, Server>, rank: Ref -> nat, s: Ref, c: Ref, d: Ref)
    requires Under(srv, rank, s, c) && Under(srv, rank, s, d)
    ensures Under(srv, rank, c, d) || Under(srv, rank, d, c)
    decreases rank(s)
  {
    if s != c && s != d {
      OneLine(srv, rank, srv[s].uplink.value, c, d);
    }
  }

  /** The children of a server have nothing in common. */
  lemma ChildrenApart(srv: map<Ref, Server>, rank: Ref -> nat, root: Ref, c: Ref, d: Ref, s: Ref)
    requires Forest(srv, rank) && Child(srv, c, root) && Child(srv, d, root)
    requires Under(srv, rank, s, c) && Under(srv, rank, s, d)
    ensures c == d
  {
    OneLine(srv, rank, s, c, d);
    if c != d {
      if Under(srv, rank, c, d) {
        UnderRank(srv, rank, root, d);
      } else {
        UnderRank(srv, rank, root, c);
      }
    }
  }

  // ----- Taking servers away -----

  function UsersOn(usr: map<Ref, User>, gone: set<Ref>): set<Ref> {
    set u | u in usr && usr[u].serv.Some? && usr[u].serv.value in gone
  }

  function Split(net: Net, gone: set<Ref>): Net {
    RemoveUsers(net, UsersOn(net.usr, gone)).(servlist := Without(net.servlist, gone), srv := net.srv - gone)
  }

  /** Removing users does not look at the servers. */
  lemma SplitServers(net: Net, after: Net, users: set<Ref>, servlist: seq<Ref>, srv: map<Ref, Server>)
    ensures RemoveUsers(after.(servlist := servlist, srv := srv), users).(servlist := net.servlist, srv := net.srv)
            == RemoveUsers(after, users).(servlist := net.servlist, srv := net.srv)
  {
    hide Without, PruneAll, Closed;
  }

  lemma SplitTwice(net: Net, a: set<Ref>, b: set<Ref>)
    ensures Split(Split(net, a), b) == Split(net, a + b)
  {
    var ua := UsersOn(net.usr, a);
    var ub := UsersOn(net.usr - ua, b);
    assert ua + ub == UsersOn(net.usr, a + b);
    hide UsersOn;
    RemoveTwice(net, ua, ub);
    WithoutTwice(net.servlist, a, b);
    assert net.srv - a - b == net.srv - (a + b);
    SplitServers(net, RemoveUsers(net, ua), ub, Without(net.servlist, a), net.srv - a);
  }

  lemma SplitNone(net: Net)
    ensures Split(net, {}) == net
  {
    assert UsersOn(net.usr, {}) == {};
    WithoutNone(net.servlist, {});
    WithoutNone(net.userlist, {});
    forall c | c in net.chn
      ensures Prune(net.chn[c], {}) == net.chn[c] && !Closes(net.chn[c], {})
    {
      WithoutNone(net.chn[c].users, {});
    }
    hide UsersOn, Prune, Closes, Without;
    assert Closed(net.chn, {}) == {} && PruneAll(net.chn, {}) == net.chn;
    hide Closed, PruneAll;
    WithoutNone(net.chanlist, {});
    assert net.usr - {} == net.usr && net.srv - {} == net.srv;
  }

  /** What is below something that goes, goes too. */
  ghost predicate Downward(srv: map<Ref, Server>, gone: set<Ref>) {
    forall s :: s in srv && srv[s].uplink.Some? && srv[s].uplink.value in gone ==> s in gone
  }

  lemma SplitRooted(net: Net, gone: set<Ref>)
    requires Rooted(net) && Downward(net.srv, gone)
    ensures Rooted(Split(net, gone))
  {
    ListsWithout(net.servlist, net.srv.Keys, gone);
    var after := Split(net, gone);
    assert after.srv.Keys == net.srv.Keys - gone;
    hide Lists, Without, PruneAll, Closed;
  }

  lemma SplitLinked(net: Net, servlist: seq<Ref>, srv: map<Ref, Server>)
    ensures var after := net.(servlist := servlist, srv := srv);
            && (Linked(net) ==> Linked(after)) && (Named(net) ==> Named(after))
            && (Counted(net) ==> Counted(after)) && (Exact(net) ==> Exact(after))
  {
    var after := net.(servlist := servlist, srv := srv);
    hide Lists, Distinct;
    if Linked(net) {
      forall u | u in net.usr ensures UserOk(after, u) {
        assert UserOk(net, u);
      }
      forall c | c in net.chn ensures ChanOk(after, c) {
        assert ChanOk(net, c);
      }
    }
    hide UserOk, ChanOk, SameName;
  }

  /** A split keeps everything in order, if nothing below it stays. */
  lemma SplitSound(net: Net, gone: set<Ref>)
    requires Sound(net) && Downward(net.srv, gone)
    ensures Sound(Split(net, gone))
    ensures Exact(net) ==> Exact(Split(net, gone))
  {
    var users := RemoveUsers(net, UsersOn(net.usr, gone));
    RemoveSound(net, UsersOn(net.usr, gone));
    SplitRooted(net, gone);
    SplitLinked(users, Without(net.servlist, gone), net.srv - gone);
    hide Linked, Named, Counted, Rooted, Exact, Without, RemoveUsers, UsersOn;
  }

  lemma SplitChannels(net: Net, gone: set<Ref>)
    requires Linked(net) && Counted(net)
    ensures forall c :: c in net.chn ==> ChannelLeft(net, UsersOn(net.usr, gone), Split(net, gone), c)
  {
    hide Linked, Counted, RemoveUsers, UsersOn, AllGone, Without;
    RemoveChannels(net, UsersOn(net.usr, gone));
  }

  // ----- Child after child -----

  /** What is below those children of `root` that are in `list`. */
  ghost function Below(srv: map<Ref, Server>, rank: Ref -> nat, root: Ref, list: seq<Ref>): set<Ref> {
    set s | s in srv && exists c :: c in list && Child(srv, c, root) && Under(srv, rank, s, c)
  }

  lemma BelowNext(srv: map<Ref, Server>, rank: Ref -> nat, root: Ref, list: seq<Ref>, k: nat)
    requires k < |list|
    ensures Below(srv, rank, root, list[..k + 1])
            == Below(srv, rank, root, list[..k]) + (if Child(srv, list[k], root) then Subtree(srv, rank, list[k]) else {})
  {
    assert list[..k + 1] == list[..k] + [list[k]];
  }

  lemma BelowAll(srv: map<Ref, Server>, rank: Ref -> nat, root: Ref, list: seq<Ref>)
    requires Forest(srv, rank) && root in srv && Lists(list, srv.Keys)
    ensures {root} + Below(srv, rank, root, list) == Subtree(srv, rank, root)
  {
    hide Forest, Distinct;
    forall s | s in srv
      ensures s in Below(srv, rank, root, list) <==> Under(srv, rank, s, root) && s != root
    {
      if Under(srv, rank, s, root) && s != root {
        var c := UnderChild(srv, rank, s, root);
        assert c in list;
      }
      if s in Below(srv, rank, root, list) {
        var c :| c in list && Child(srv, c, root) && Under(srv, rank, s, c);
        ChildUnder(srv, rank, s, c, root);
      }
    }
  }

  lemma BelowDownward(srv: map<Ref, Server>, rank: Ref -> nat, root: Ref, list: seq<Ref>)
    requires Forest(srv, rank)
    ensures Downward(srv, Below(srv, rank, root, list))
  {
  }

  lemma SubtreeDownward(srv: map<Ref, Server>, rank: Ref -> nat, root: Ref)
    requires Forest(srv, rank)
    ensures Downward(srv, Subtree(srv, rank, root))
  {
  }

  lemma {:induction false} UnderKept(srv: map<Ref, Server>, rank: Ref -> nat, gone: set<Ref>, s: Ref, c: Ref)
    requires Subtree(srv, rank, c) !! gone
    ensures Under(srv - gone, rank, s, c) <==> Under(srv, rank, s, c)
    decreases rank(s)
  {
    if Under(srv, rank, s, c) {
      assert s in Subtree(srv, rank, c);
    }
    if s in srv && s != c && srv[s].uplink.Some? && rank(srv[s].uplink.value) < rank(s) {
      UnderKept(srv, rank, gone, srv[s].uplink.value, c);
    }
  }

  /** Where nothing below `c` has gone, the same is below it as before. */
  lemma SubtreeKept(srv: map<Ref, Server>, rank: Ref -> nat, gone: set<Ref>, c: Ref)
    requires Subtree(srv, rank, c) !! gone
    ensures Subtree(srv - gone, rank, c) == Subtree(srv, rank, c)
  {
    forall s | s in srv
      ensures Under(srv - gone, rank, s, c) <==> Under(srv, rank, s, c)
    {
      UnderKept(srv, rank, gone, s, c);
    }
  }

  /** The next child is still there, and all below it. */
  lemma NextChild(srv: map<Ref, Server>, rank: Ref -> nat, root: Ref, list: seq<Ref>, k: nat)
    requires Forest(srv, rank) && Distinct(list) && k < |list| && Child(srv, list[k], root)
    ensures Subtree(srv, rank, list[k]) !! Below(srv, rank, root, list[..k])
    ensures list[k] in srv - Below(srv, rank, root, list[..k])
    ensures Subtree(srv - Below(srv, rank, root, list[..k]), rank, list[k]) == Subtree(srv, rank, list[k])
  {
    var c, gone := list[k], Below(srv, rank, root, list[..k]);
    forall s | s in gone
      ensures !Under(srv, rank, s, c)
    {
      var d :| d in list[..k] && Child(srv, d, root) && Under(srv, rank, s, d);
      if Under(srv, rank, s, c) {
        ChildrenApart(srv, rank, root, c, d, s);
      }
    }
    assert Under(srv, rank, c, c);
    SubtreeKept(srv, rank, gone, c);
  }

  lemma {:induction false} BelowSkips(srv: map<Ref, Server>, rank: Ref -> nat, root: Ref, list: seq<Ref>, m: nat, j: nat)
    requires m <= j <= |list| && forall i :: m <= i < j ==> !Child(srv, list[i], root)
    ensures Below(srv, rank, root, list[..j]) == Below(srv, rank, root, list[..m])
    decreases j
  {
    hide Below, Child;
    if m < j {
      BelowSkips(srv, rank, root, list, m, j - 1);
      BelowNext(srv, rank, root, list, j - 1);
    }
  }

  /** A child of `root` that has gone, went with itself. */
  lemma GoneIsNoChild(srv: map<Ref, Server>, rank: Ref -> nat, root: Ref, list: seq<Ref>, k: nat, i: nat)
    requires Forest(srv, rank) && Distinct(list) && k <= i < |list| && list[i] in Below(srv, rank, root, list[..k])
    ensures !Child(srv, list[i], root)
  {
    var d :| d in list[..k] && Child(srv, d, root) && Under(srv, rank, list[i], d);
    if Child(srv, list[i], root) {
      ChildrenApart(srv, rank, root, list[i], d, list[i]);
    }
  }

  /** While the child at `k` is split off, the loop holds on to its successor at `j`,
      the next server that is still listed. The successor survives exactly if it is
      not below that child; and going on with it misses no child. */
  lemma SavedSuccessor(net: Net, rank: Ref -> nat, root: Ref, k: nat, j: nat)
    requires Rooted(net) && Forest(net.srv, rank)
    requires k < j < |net.servlist| && Child(net.srv, net.servlist[k], root)
    requires forall i :: k < i < j ==> net.servlist[i] in Below(net.srv, rank, root, net.servlist[..k])
    requires net.servlist[j] !in Below(net.srv, rank, root, net.servlist[..k])
    ensures var list := net.servlist;
            var now := Split(net, Below(net.srv, rank, root, list[..k]));
            && (list[j] in Split(now, Subtree(now.srv, rank, list[k])).srv <==> !Under(net.srv, rank, list[j], list[k]))
            && Below(net.srv, rank, root, list[..j]) == Below(net.srv, rank, root, list[..k + 1])
  {
    var list := net.servlist;
    NextChild(net.srv, rank, root, list, k);
    assert list[j] in net.srv;
    hide Below, Child;
    forall i | k < i < j
      ensures !Child(net.srv, list[i], root)
    {
      GoneIsNoChild(net.srv, rank, root, list, k, i);
    }
    BelowSkips(net.srv, rank, root, list, k + 1, j);
    hide RemoveUsers, UsersOn, Without;
  }

  // ----- What a netsplit does -----

  /** Exactly the servers below `root` and the users on them go; the others stay as
      they were, none of them left hanging; a channel goes exactly if it had users, all of
      them on these servers, and a right count, and keeps its other users otherwise. */
  lemma NetsplitExact(net: Net, rank: Ref -> nat, root: Ref)
    requires Sound(net) && Forest(net.srv, rank)
    ensures var after := Split(net, Subtree(net.srv, rank, root));
            && Sound(after) && Forest(after.srv, rank) && (Exact(net) ==> Exact(after))
            && (forall s :: s in after.srv <==> s in net.srv && !Under(net.srv, rank, s, root))
            && (forall s :: s in after.srv ==> after.srv[s] == net.srv[s])
            && (forall u :: u in after.usr <==>
                  u in net.usr && !(net.usr[u].serv.Some? && Under(net.srv, rank, net.usr[u].serv.value, root)))
            && (forall u :: u in after.usr ==> after.usr[u] == net.usr[u])
            && (forall c :: c in net.chn ==>
                  ChannelLeft(net, UsersOn(net.usr, Subtree(net.srv, rank, root)), after, c))
  {
    var gone := Subtree(net.srv, rank, root);
    SubtreeDownward(net.srv, rank, root);
    SplitSound(net, gone);
    SplitChannels(net, gone);
    hide ChannelLeft;
    hide Linked, Named, Counted, Exact, Closed, PruneAll, Without, Lists;
  }
}
