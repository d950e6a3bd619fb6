/** The network: a forest of servers, the users on them, and who is on which
    channel. Records live at addresses (`Ref`); the lists hold addresses. */
module Network {
  import opened Wrappers
  import opened CStrings

  type Ref = nat

  datatype Server = Server(name: string, sid: string, uplink: Option<Ref>)

  datatype User = User(nick: string, uid: string, serv: Option<Ref>, local: bool, channels: seq<Ref>)

  datatype Channel = Channel(name: string, users: seq<Ref>, usercnt: int)

  /** `servlist`, `userlist` and `channels`, and the records that are allocated. */
  datatype Net = Net(servlist: seq<Ref>, srv: map<Ref, Server>, userlist: seq<Ref>, usr: map<Ref, User>,
                     chanlist: seq<Ref>, chn: map<Ref, Channel>)

  const EMPTY: Net := Net([], map[], [], map[], [], map[])

  // ----- Lists of addresses -----

  predicate Distinct(s: seq<Ref>) {
    forall i, j :: 0 <= i < j < |s| ==> s[i] != s[j]
  }

  function Without(s: seq<Ref>, gone: set<Ref>): (r: seq<Ref>)
    ensures |r| <= |s|
  {
    if s == [] then [] else (if s[0] in gone then [] else [s[0]]) + Without(s[1..], gone)
  }

  lemma {:induction false} WithoutIn(s: seq<Ref>, gone: set<Ref>)
    ensures forall x :: x in Without(s, gone) <==> x in s && x !in gone
  {
    if s != [] {
      WithoutIn(s[1..], gone);
    }
  }

  lemma {:induction false} WithoutDistinct(s: seq<Ref>, gone: set<Ref>)
    requires Distinct(s)
    ensures Distinct(Without(s, gone))
  {
    if s != [] {
      WithoutIn(s[1..], gone);
      WithoutDistinct(s[1..], gone);
    }
  }

  lemma {:induction false} WithoutTwice(s: seq<Ref>, a: set<Ref>, b: set<Ref>)
    ensures Without(Without(s, a), b) == Without(s, a + b)
  {
    if s != [] {
      WithoutTwice(s[1..], a, b);
      if s[0] !in a {
        assert Without(s, a)[1..] == Without(s[1..], a);
      } else {
        assert Without(s, a) == Without(s[1..], a);
      }
    }
  }

  lemma {:induction false} WithoutNone(s: seq<Ref>, gone: set<Ref>)
    requires forall x :: x in s ==> x !in gone
    ensures Without(s, gone) == s
  {
    if s != [] {
      WithoutNone(s[1..], gone);
    }
  }

  lemma {:induction false} WithoutOne(s: seq<Ref>, x: Ref)
    requires Distinct(s) && x in s
    ensures |Without(s, {x})| == |s| - 1
  {
    if s[0] == x {
      WithoutNone(s[1..], {x});
      assert Without(s, {x}) == Without(s[1..], {x});
    } else {
      WithoutOne(s[1..], x);
    }
  }

  lemma {:induction false} WithoutFewer(s: seq<Ref>, gone: set<Ref>)
    ensures Without(s, gone) == s || |Without(s, gone)| < |s|
    ensures |Without(s, gone)| < |s| <==> exists x :: x in s && x in gone
  {
    if s != [] {
      WithoutFewer(s[1..], gone);
    }
  }

  // ----- What holds of every state -----

  /** The list holds exactly these addresses, each once. */
  ghost predicate Lists(list: seq<Ref>, keys: set<Ref>) {
    Distinct(list) && forall x :: x in list <==> x in keys
  }

  /** The user's channels are there and know the user. */
  ghost predicate UserOk(net: Net, u: Ref)
    requires u in net.usr
  {
    Distinct(net.usr[u].channels) && forall c :: c in net.usr[u].channels ==> c in net.chn && u in net.chn[c].users
  }

  /** The channel's users are there and know the channel. */
  ghost predicate ChanOk(net: Net, c: Ref)
    requires c in net.chn
  {
    Distinct(net.chn[c].users) && forall u :: u in net.chn[c].users ==> u in net.usr && c in net.usr[u].channels
  }

  /** Membership is the same on both sides, without repetition, and what is listed
      is allocated. */
  ghost predicate Linked(net: Net) {
    && Lists(net.userlist, net.usr.Keys) && Lists(net.chanlist, net.chn.Keys)
    && (forall u :: u in net.usr ==> UserOk(net, u))
    && (forall c :: c in net.chn ==> ChanOk(net, c))
  }

  /** Nicknames and channel names are unique. */
  ghost predicate Named(net: Net) {
    && (forall u, v :: u in net.usr && v in net.usr && u != v ==> !SameName(net.usr[u].nick, net.usr[v].nick))
    && (forall c, d :: c in net.chn && d in net.chn && c != d ==> !SameName(net.chn[c].name, net.chn[d].name))
  }

  /** `usercnt` is at least the number of users. */
  ghost predicate Counted(net: Net) {
    forall c :: c in net.chn ==> net.chn[c].usercnt >= |net.chn[c].users|
  }

  /** `usercnt` is the number of users. */
  ghost predicate Exact(net: Net) {
    forall c :: c in net.chn ==> net.chn[c].usercnt == |net.chn[c].users|
  }

  /** Servers are listed once; every uplink and every user's server is there. */
  ghost predicate Rooted(net: Net) {
    && Lists(net.servlist, net.srv.Keys)
    && (forall s :: s in net.srv && net.srv[s].uplink.Some? ==> net.srv[s].uplink.value in net.srv)
    && (forall u :: u in net.usr && net.usr[u].serv.Some? ==> net.usr[u].serv.value in net.srv)
  }

  ghost predicate Sound(net: Net) {
    Linked(net) && Named(net) && Counted(net) && Rooted(net)
  }

  // ----- Searching -----

  function FindUserIn(net: Net, list: seq<Ref>, text: string): (r: Option<Ref>)
    requires forall u :: u in list ==> u in net.usr
    ensures r.Some? ==> r.value in list
    ensures r.None? ==> forall u :: u in list ==> !SameName(net.usr[u].nick, text)
  {
    if list == [] then None
    else
      var u := net.usr[list[0]];
      if SameName(u.nick, text) || (u.uid != "" && SameName(u.uid, text)) then Some(list[0])
      else FindUserIn(net, list[1..], text)
  }

  /** `find_user(user)`: by nickname or identifier. */
  function FindUser(net: Net, text: string): Option<Ref>
    requires forall u :: u in net.userlist ==> u in net.usr
  {
    FindUserIn(net, net.userlist, text)
  }

  /** The nickname or the identifier of a user. */
  ghost predicate UserCalled(u: User, text: string) {
    SameName(u.nick, text) || (u.uid != "" && SameName(u.uid, text))
  }

  /** The first of the list that is called so, if any is. */
  ghost predicate FirstUser(net: Net, list: seq<Ref>, text: string, r: Option<Ref>)
    requires forall u :: u in list ==> u in net.usr
  {
    match r
    case None => forall i :: 0 <= i < |list| ==> !UserCalled(net.usr[list[i]], text)
    case Some(u) =>
      exists i :: 0 <= i < |list| && list[i] == u && UserCalled(net.usr[u], text)
                  && forall j :: 0 <= j < i ==> !UserCalled(net.usr[list[j]], text)
  }

  lemma {:induction false} FindUserInFirst(net: Net, list: seq<Ref>, text: string)
    requires forall u :: u in list ==> u in net.usr
    ensures FirstUser(net, list, text, FindUserIn(net, list, text))
  {
    if list != [] {
      FindUserInFirst(net, list[1..], text);
      hide SameName;
      var r := FindUserIn(net, list[1..], text);
      assert forall i :: 0 < i < |list| ==> list[i] == list[1..][i - 1];
      if r == FindUserIn(net, list, text) && r.Some? && !UserCalled(net.usr[list[0]], text) {
        var i :| 0 <= i < |list| - 1 && list[1..][i] == r.value
                 && forall j :: 0 <= j < i ==> !UserCalled(net.usr[list[1..][j]], text);
        assert list[i + 1] == r.value;
      }
    }
  }

  /** `find_user` finds the first user whose nickname or identifier the text is, and
      nobody exactly if there is none. */
  lemma FindUserFirst(net: Net, text: string)
    requires forall u :: u in net.userlist ==> u in net.usr
    ensures FirstUser(net, net.userlist, text, FindUser(net, text))
    ensures FindUser(net, text).None? <==> forall u :: u in net.userlist ==> !UserCalled(net.usr[u], text)
  {
    FindUserInFirst(net, net.userlist, text);
    hide UserCalled;
  }

  function FindChannelIn(net: Net, list: seq<Ref>, text: string): (r: Option<Ref>)
    requires forall c :: c in list ==> c in net.chn
    ensures r.Some? ==> r.value in list && SameName(net.chn[r.value].name, text)
    ensures r.None? ==> forall c :: c in list ==> !SameName(net.chn[c].name, text)
  {
    if list == [] then None
    else if SameName(net.chn[list[0]].name, text) then Some(list[0])
    else FindChannelIn(net, list[1..], text)
  }

  /** `find_chanuser(u, c)`: by nickname. */
  function FindMember(net: Net, list: seq<Ref>, nick: string): (r: Option<Ref>)
    requires forall u :: u in list ==> u in net.usr
    ensures r.Some? ==> r.value in list && SameName(net.usr[r.value].nick, nick)
    ensures r.None? ==> forall u :: u in list ==> !SameName(net.usr[u].nick, nick)
  {
    if list == [] then None
    else if SameName(net.usr[list[0]].nick, nick) then Some(list[0])
    else FindMember(net, list[1..], nick)
  }

  /** With unique names a search by name finds the very record. */
  lemma FindsItself(net: Net, u: Ref, c: Ref)
    requires Linked(net) && Named(net) && u in net.usr && c in net.chn
    ensures FindMember(net, net.chn[c].users, net.usr[u].nick) == if u in net.chn[c].users then Some(u) else None
    ensures FindChannelIn(net, net.usr[u].channels, net.chn[c].name) == if c in net.usr[u].channels then Some(c) else None
  {
  }

  // ----- Operations on membership -----

  /** `new_user(nick)`; `r` is the address of the new record. */
  function NewUser(net: Net, r: Ref, nick: string): Net
    requires forall u :: u in net.userlist ==> u in net.usr
  {
    if FindUser(net, nick).Some? then net
    else net.(userlist := net.userlist + [r], usr := net.usr[r := User(nick, "", None, false, [])])
  }

  /** `new_chan(chan)`. */
  function NewChan(net: Net, r: Ref, name: string): Net
    requires forall c :: c in net.chanlist ==> c in net.chn
  {
    if FindChannelIn(net, net.chanlist, name).Some? then net
    else net.(chanlist := net.chanlist + [r], chn := net.chn[r := Channel(name, [], 0)])
  }

  ghost predicate Live(net: Net, u: Ref, c: Ref) {
    Linked(net) && u in net.usr && c in net.chn
  }

  /** `AddToChannelU(user, c)`. */
  ghost function Join(net: Net, u: Ref, c: Ref): Net
    requires Live(net, u, c)
  {
    var user, chan := net.usr[u], net.chn[c];
    if FindChannelIn(net, user.channels, chan.name).Some? then net
    else net.(usr := net.usr[u := user.(channels := user.channels + [c])],
              chn := net.chn[c := chan.(users := chan.users + [u], usercnt := chan.usercnt + 1)])
  }

  /** Takes a user off a channel, whose record then has `left` as count; the channel
      goes if `closes`. */
  function Leave(net: Net, u: Ref, c: Ref, left: int, closes: bool): Net
    requires u in net.usr && c in net.chn
  {
    var user, chan := net.usr[u], net.chn[c];
    var n := net.(usr := net.usr[u := user.(channels := Without(user.channels, {c}))]);
    if closes then n.(chanlist := Without(n.chanlist, {c}), chn := n.chn - {c})
    else n.(chn := n.chn[c := chan.(users := Without(chan.users, {u}), usercnt := left)])
  }

  /** `DelFromChannel(user, c)`: the channel goes when the count reaches zero. */
  ghost function Part(net: Net, u: Ref, c: Ref): Net
    requires Live(net, u, c)
  {
    if u !in net.chn[c].users then net
    else var left := net.chn[c].usercnt - 1; Leave(net, u, c, left, left <= 0)
  }

  /** `KickFromChannel(u, c, message)`: the count stays as it is. */
  ghost function Kick(net: Net, u: Ref, c: Ref): Net
    requires Live(net, u, c)
  {
    if u !in net.chn[c].users then net
    else var left := net.chn[c].usercnt; Leave(net, u, c, left, left == 0)
  }

  /** `NewNick(u, nick)`: refused if a user has this nickname or identifier. */
  function NewNick(net: Net, u: Ref, nick: string): Net
    requires u in net.usr && forall v :: v in net.userlist ==> v in net.usr
  {
    if FindUser(net, nick).Some? then net
    else net.(usr := net.usr[u := net.usr[u].(nick := nick)])
  }

  // ----- Removing users -----

  /** A channel without the users that are gone. */
  function Prune(c: Channel, gone: set<Ref>): Channel {
    var left := Without(c.users, gone);
    c.(users := left, usercnt := c.usercnt - (|c.users| - |left|))
  }

  /** The last of its users goes, as far as the count tells. */
  predicate Closes(c: Channel, gone: set<Ref>) {
    Prune(c, gone) != c && Prune(c, gone).usercnt <= 0
  }

  function Closed(chn: map<Ref, Channel>, gone: set<Ref>): set<Ref> {
    set c | c in chn && Closes(chn[c], gone)
  }

  function PruneAll(chn: map<Ref, Channel>, gone: set<Ref>): map<Ref, Channel> {
    map c | c in chn && !Closes(chn[c], gone) :: Prune(chn[c], gone)
  }

  function RemoveUsers(net: Net, gone: set<Ref>): Net {
    net.(userlist := Without(net.userlist, gone), usr := net.usr - gone,
         chanlist := Without(net.chanlist, Closed(net.chn, gone)), chn := PruneAll(net.chn, gone))
  }

  lemma PruneTwice(c: Channel, a: set<Ref>, b: set<Ref>)
    ensures Prune(Prune(c, a), b) == Prune(c, a + b)
    ensures Closes(c, a + b) <==> Closes(c, a) || Closes(Prune(c, a), b)
  {
    WithoutTwice(c.users, a, b);
    WithoutFewer(c.users, a);
    WithoutFewer(Without(c.users, a), b);
  }

  lemma PruneAllTwice(chn: map<Ref, Channel>, a: set<Ref>, b: set<Ref>)
    ensures PruneAll(PruneAll(chn, a), b) == PruneAll(chn, a + b)
    ensures Closed(chn, a) + Closed(PruneAll(chn, a), b) == Closed(chn, a + b)
  {
    forall c | c in chn
      ensures Prune(Prune(chn[c], a), b) == Prune(chn[c], a + b)
      ensures Closes(chn[c], a + b) <==> Closes(chn[c], a) || Closes(Prune(chn[c], a), b)
    {
      PruneTwice(chn[c], a, b);
    }
    hide Prune, Closes, Without;
    assert forall c :: c in PruneAll(chn, a) <==> c in chn && !Closes(chn[c], a);
  }

  /** Removing users in two steps is removing them at once. */
  lemma RemoveTwice(net: Net, a: set<Ref>, b: set<Ref>)
    ensures RemoveUsers(RemoveUsers(net, a), b) == RemoveUsers(net, a + b)
  {
    hide Prune, Closes, Without, Closed, PruneAll;
    WithoutTwice(net.userlist, a, b);
    WithoutTwice(net.chanlist, Closed(net.chn, a), Closed(PruneAll(net.chn, a), b));
    PruneAllTwice(net.chn, a, b);
    assert net.usr - a - b == net.usr - (a + b);
  }

  lemma PruneSound(c: Channel, gone: set<Ref>)
    requires Distinct(c.users) && c.usercnt >= |c.users|
    ensures Distinct(Prune(c, gone).users) && Prune(c, gone).usercnt >= |Prune(c, gone).users|
    ensures Closes(c, gone) ==> Prune(c, gone).users == []
    ensures c.usercnt == |c.users| ==> Prune(c, gone).usercnt == |Prune(c, gone).users|
    ensures c.usercnt == |c.users| ==> (Closes(c, gone) <==> c.users != [] && Prune(c, gone).users == [])
  {
    WithoutIn(c.users, gone);
    WithoutDistinct(c.users, gone);
    WithoutFewer(c.users, gone);
  }

  lemma ListsWithout(list: seq<Ref>, keys: set<Ref>, gone: set<Ref>)
    requires Lists(list, keys)
    ensures Lists(Without(list, gone), keys - gone)
  {
    WithoutIn(list, gone);
    WithoutDistinct(list, gone);
  }

  lemma UserOkAfter(net: Net, gone: set<Ref>, u: Ref)
    requires Linked(net) && Counted(net) && u in net.usr && u !in gone
    ensures UserOk(RemoveUsers(net, gone), u)
  {
    hide Without, Closes, Distinct, Closed;
    var after := RemoveUsers(net, gone);
    assert UserOk(net, u) && after.usr[u] == net.usr[u];
    forall c | c in net.usr[u].channels
      ensures c in after.chn && u in after.chn[c].users
    {
      assert ChanOk(net, c);
      PruneSound(net.chn[c], gone);
      WithoutIn(net.chn[c].users, gone);
    }
  }

  lemma ChanOkAfter(net: Net, gone: set<Ref>, c: Ref)
    requires Linked(net) && Counted(net) && c in net.chn && !Closes(net.chn[c], gone)
    ensures ChanOk(RemoveUsers(net, gone), c)
  {
    hide Without, Closes, Distinct, Closed, UserOk;
    assert ChanOk(net, c);
    PruneSound(net.chn[c], gone);
    WithoutIn(net.chn[c].users, gone);
  }

  lemma RemoveLinked(net: Net, gone: set<Ref>)
    requires Linked(net) && Counted(net)
    ensures Linked(RemoveUsers(net, gone))
  {
    hide UserOk, ChanOk, Without, Closes, Prune, Lists, Counted;
    var after := RemoveUsers(net, gone);
    ListsWithout(net.userlist, net.usr.Keys, gone);
    ListsWithout(net.chanlist, net.chn.Keys, Closed(net.chn, gone));
    assert after.usr.Keys == net.usr.Keys - gone && after.chn.Keys == net.chn.Keys - Closed(net.chn, gone);
    forall u | u in after.usr ensures UserOk(after, u) {
      UserOkAfter(net, gone, u);
    }
    forall c | c in after.chn ensures ChanOk(after, c) {
      ChanOkAfter(net, gone, c);
    }
  }

  lemma RemoveCounted(net: Net, gone: set<Ref>)
    requires Linked(net) && Counted(net)
    ensures Counted(RemoveUsers(net, gone))
    ensures Exact(net) ==> Exact(RemoveUsers(net, gone))
  {
    hide Without, Closes, Prune, Lists, UserOk;
    forall c | c in net.chn
      ensures Prune(net.chn[c], gone).usercnt >= |Prune(net.chn[c], gone).users|
      ensures Exact(net) ==> Prune(net.chn[c], gone).usercnt == |Prune(net.chn[c], gone).users|
    {
      assert ChanOk(net, c);
      PruneSound(net.chn[c], gone);
    }
  }

  lemma RemoveNamed(net: Net, gone: set<Ref>)
    requires Named(net)
    ensures Named(RemoveUsers(net, gone))
  {
    hide Without, Closes, SameName, Closed;
    var after := RemoveUsers(net, gone);
    assert forall c :: c in after.chn ==> c in net.chn && after.chn[c].name == net.chn[c].name;
    assert forall u :: u in after.usr ==> u in net.usr && after.usr[u].nick == net.usr[u].nick;
    hide RemoveUsers, PruneAll, Prune;
  }

  /** Every user of the channel goes. */
  predicate AllGone(c: Channel, gone: set<Ref>) {
    forall u :: u in c.users ==> u in gone
  }

  lemma ClosesIff(c: Channel, gone: set<Ref>)
    requires Distinct(c.users) && c.usercnt >= |c.users|
    ensures Closes(c, gone) <==> c.users != [] && AllGone(c, gone) && c.usercnt == |c.users|
  {
    WithoutIn(c.users, gone);
    WithoutFewer(c.users, gone);
    var left := Without(c.users, gone);
    assert left != [] ==> left[0] in left;
    assert forall u :: u in c.users ==> u in left || u in gone;
  }

  /** What becomes of a channel when users go: it goes exactly if it had users, all
      of them go and its count was right; otherwise it keeps its name and its other
      users, and the count goes down by those who left. */
  ghost predicate ChannelLeft(net: Net, gone: set<Ref>, after: Net, c: Ref)
    requires c in net.chn
  {
    var chan := net.chn[c];
    && (c !in after.chn <==> chan.users != [] && AllGone(chan, gone) && chan.usercnt == |chan.users|)
    && (c in after.chn ==>
          var left := Without(chan.users, gone);
          after.chn[c] == Channel(chan.name, left, chan.usercnt - (|chan.users| - |left|)))
  }

  lemma RemoveChannel(net: Net, gone: set<Ref>, c: Ref)
    requires Linked(net) && Counted(net) && c in net.chn
    ensures ChannelLeft(net, gone, RemoveUsers(net, gone), c)
  {
    hide Closes, Without, AllGone, Distinct, Closed;
    assert ChanOk(net, c);
    ClosesIff(net.chn[c], gone);
  }

  lemma RemoveChannels(net: Net, gone: set<Ref>)
    requires Linked(net) && Counted(net)
    ensures forall c :: c in net.chn ==> ChannelLeft(net, gone, RemoveUsers(net, gone), c)
  {
    forall c | c in net.chn
      ensures ChannelLeft(net, gone, RemoveUsers(net, gone), c)
    {
      RemoveChannel(net, gone, c);
    }
  }

  /** Removing users keeps everything in order. */
  lemma RemoveSound(net: Net, gone: set<Ref>)
    requires Sound(net)
    ensures Sound(RemoveUsers(net, gone))
    ensures Exact(net) ==> Exact(RemoveUsers(net, gone))
    ensures forall u :: u in RemoveUsers(net, gone).usr <==> u in net.usr && u !in gone
    ensures forall u :: u in RemoveUsers(net, gone).usr ==> RemoveUsers(net, gone).usr[u] == net.usr[u]
    ensures forall c :: c in net.chn ==> ChannelLeft(net, gone, RemoveUsers(net, gone), c)
  {
    RemoveLinked(net, gone);
    RemoveCounted(net, gone);
    RemoveNamed(net, gone);
    RemoveChannels(net, gone);
    hide Without, Closed, PruneAll, Lists, Linked, Counted, Exact, Named, ChannelLeft;
  }
}
