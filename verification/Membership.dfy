/** What each operation on users and channels keeps and changes.

    Membership is a relation between users and channels, which both sides record;
    each operation changes it for exactly the user and channel it is about. */
module Membership {
  import opened Wrappers
  import opened CStrings
  import opened Network

  // ----- What most operations leave alone -----

  /** The user is on the channel. */
  ghost predicate On(net: Net, u: Ref, c: Ref) {
    c in net.chn && u in net.chn[c].users
  }

  /** Only memberships, counts and the list of channels may differ. */
  ghost predicate OnlyMembers(net: Net, after: Net) {
    && after.servlist == net.servlist && after.srv == net.srv && after.userlist == net.userlist
    && after.usr.Keys == net.usr.Keys
    && (forall u :: u in net.usr ==> after.usr[u] == net.usr[u].(channels := after.usr[u].channels))
    && (forall c :: c in after.chn ==> c in net.chn && after.chn[c].name == net.chn[c].name)
  }

  /** Names, servers and the users' servers are as they were. */
  ghost predicate Kept(net: Net, after: Net) {
    && after.servlist == net.servlist && after.srv == net.srv
    && (forall u :: u in after.usr ==> u in net.usr && after.usr[u].nick == net.usr[u].nick && after.usr[u].serv == net.usr[u].serv)
    && (forall c :: c in after.chn ==> c in net.chn && after.chn[c].name == net.chn[c].name)
  }

  lemma KeptNames(net: Net, after: Net)
    requires Kept(net, after)
    ensures Named(net) ==> Named(after)
    ensures Rooted(net) ==> Rooted(after)
  {
    hide SameName, Lists;
  }

  /** Membership, names and counts make a sound state. */
  lemma SoundFrom(net: Net, after: Net)
    requires Sound(net) && Kept(net, after) && Linked(after) && Counted(after)
    ensures Sound(after)
  {
    hide Linked, Named, Rooted, Counted, Kept;
    KeptNames(net, after);
  }

  lemma OkOf(net: Net, u: Ref, c: Ref)
    requires Linked(net)
    ensures u in net.usr ==> UserOk(net, u)
    ensures c in net.chn ==> ChanOk(net, c)
  {
  }

  // ----- Joining -----

  lemma AppendDistinct(s: seq<Ref>, x: Ref)
    requires Distinct(s) && x !in s
    ensures Distinct(s + [x])
  {
  }

  lemma AppendLists(list: seq<Ref>, keys: set<Ref>, x: Ref)
    requires Lists(list, keys) && x !in keys
    ensures Lists(list + [x], keys + {x})
  {
  }

  /** A user who was not on the channel is added to it. */
  function Enter(net: Net, u: Ref, c: Ref): Net
    requires u in net.usr && c in net.chn
  {
    var user, chan := net.usr[u], net.chn[c];
    net.(usr := net.usr[u := user.(channels := user.channels + [c])],
         chn := net.chn[c := chan.(users := chan.users + [u], usercnt := chan.usercnt + 1)])
  }

  lemma EnterUserOk(net: Net, u: Ref, c: Ref, v: Ref)
    requires u in net.usr && c in net.chn && c !in net.usr[u].channels && v in net.usr && UserOk(net, v)
    ensures UserOk(Enter(net, u, c), v)
  {
    if v == u {
      AppendDistinct(net.usr[u].channels, c);
    }
    hide Distinct;
  }

  lemma EnterChanOk(net: Net, u: Ref, c: Ref, d: Ref)
    requires u in net.usr && c in net.chn && u !in net.chn[c].users && d in net.chn && ChanOk(net, d)
    ensures ChanOk(Enter(net, u, c), d)
  {
    if d == c {
      AppendDistinct(net.chn[c].users, u);
    }
    hide Distinct;
  }

  lemma EnterLinked(net: Net, u: Ref, c: Ref)
    requires Linked(net) && u in net.usr && c in net.chn && c !in net.usr[u].channels
    ensures Linked(Enter(net, u, c))
  {
    var after := Enter(net, u, c);
    OkOf(net, u, c);
    assert u !in net.chn[c].users;
    assert after.usr.Keys == net.usr.Keys && after.chn.Keys == net.chn.Keys;
    hide UserOk, ChanOk, Lists;
    forall v | v in after.usr ensures UserOk(after, v) {
      EnterUserOk(net, u, c, v);
    }
    forall d | d in after.chn ensures ChanOk(after, d) {
      EnterChanOk(net, u, c, d);
    }
    hide Enter;
  }

  lemma JoinIsEnter(net: Net, u: Ref, c: Ref)
    requires Linked(net) && Named(net) && u in net.usr && c in net.chn
    ensures Join(net, u, c) == if c in net.usr[u].channels then net else Enter(net, u, c)
    ensures c in net.usr[u].channels <==> u in net.chn[c].users
  {
    FindsItself(net, u, c);
    OkOf(net, u, c);
    hide Linked, Named;
  }

  lemma EnterKept(net: Net, u: Ref, c: Ref)
    requires u in net.usr && c in net.chn
    ensures Kept(net, Enter(net, u, c))
    ensures Counted(net) ==> Counted(Enter(net, u, c))
    ensures Exact(net) ==> Exact(Enter(net, u, c))
    ensures c in Enter(net, u, c).chn && u in Enter(net, u, c).chn[c].users
  {
  }

  /** A join keeps everything in order. */
  lemma JoinSound(net: Net, u: Ref, c: Ref)
    requires Sound(net) && u in net.usr && c in net.chn
    ensures Sound(Join(net, u, c)) && (Exact(net) ==> Exact(Join(net, u, c)))
    ensures u in Join(net, u, c).chn[c].users
  {
    JoinIsEnter(net, u, c);
    hide Linked, Named, Rooted, Join, Kept, Counted, Exact, Enter;
    if c !in net.usr[u].channels {
      EnterLinked(net, u, c);
      EnterKept(net, u, c);
      SoundFrom(net, Enter(net, u, c));
    }
  }

  lemma EnterExact(net: Net, u: Ref, c: Ref)
    requires u in net.usr && c in net.chn
    ensures var after := Enter(net, u, c);
            && OnlyMembers(net, after) && after.chanlist == net.chanlist && after.chn.Keys == net.chn.Keys
            && (forall v, d :: On(after, v, d) <==> On(net, v, d) || (v == u && d == c))
            && (forall d :: d in net.chn ==> after.chn[d].usercnt == net.chn[d].usercnt + if d == c then 1 else 0)
  {
    assert Enter(net, u, c).usr.Keys == net.usr.Keys && Enter(net, u, c).chn.Keys == net.chn.Keys;
  }

  /** A join puts exactly this user on exactly this channel, and counts one more if
      the user was not on it. */
  lemma JoinExact(net: Net, u: Ref, c: Ref)
    requires Sound(net) && u in net.usr && c in net.chn
    ensures var after := Join(net, u, c);
            && OnlyMembers(net, after) && after.chanlist == net.chanlist && after.chn.Keys == net.chn.Keys
            && (forall v, d :: On(after, v, d) <==> On(net, v, d) || (v == u && d == c))
            && (forall d :: d in net.chn ==>
                  after.chn[d].usercnt == net.chn[d].usercnt + if d == c && !On(net, u, c) then 1 else 0)
  {
    hide Linked, Named, Rooted, Counted, Join, Enter;
    JoinIsEnter(net, u, c);
    EnterExact(net, u, c);
  }

  // ----- Leaving -----

  lemma LeaveUserOk(net: Net, u: Ref, c: Ref, left: int, closes: bool, v: Ref)
    requires Linked(net) && u in net.usr && c in net.chn && v in net.usr
    requires closes ==> Without(net.chn[c].users, {u}) == []
    ensures UserOk(Leave(net, u, c, left, closes), v)
  {
    OkOf(net, u, c);
    OkOf(net, v, c);
    WithoutDistinct(net.usr[u].channels, {c});
    WithoutIn(net.usr[u].channels, {c});
    WithoutIn(net.chn[c].users, {u});
    hide Distinct, Lists, Without, ChanOk, Linked;
    if v != u && c in net.usr[v].channels {
      assert v in Without(net.chn[c].users, {u});
    }
  }

  lemma LeaveChanOk(net: Net, u: Ref, c: Ref, left: int, closes: bool, d: Ref)
    requires Linked(net) && u in net.usr && c in net.chn && d in net.chn && !(d == c && closes)
    ensures ChanOk(Leave(net, u, c, left, closes), d)
  {
    OkOf(net, u, c);
    OkOf(net, u, d);
    WithoutDistinct(net.chn[c].users, {u});
    WithoutIn(net.chn[c].users, {u});
    WithoutIn(net.usr[u].channels, {c});
    hide Distinct, Lists, Without, UserOk, Linked;
  }

  lemma LeaveLinked(net: Net, u: Ref, c: Ref, left: int, closes: bool)
    requires Linked(net) && u in net.usr && c in net.chn
    requires closes ==> Without(net.chn[c].users, {u}) == []
    ensures Linked(Leave(net, u, c, left, closes))
  {
    var after := Leave(net, u, c, left, closes);
    ListsWithout(net.chanlist, net.chn.Keys, {c});
    hide UserOk, ChanOk, Lists, Without;
    assert after.usr.Keys == net.usr.Keys;
    assert after.chn.Keys == if closes then net.chn.Keys - {c} else net.chn.Keys;
    forall v | v in after.usr ensures UserOk(after, v) {
      LeaveUserOk(net, u, c, left, closes, v);
    }
    forall d | d in after.chn ensures ChanOk(after, d) {
      LeaveChanOk(net, u, c, left, closes, d);
    }
    hide Leave;
  }

  lemma LeaveKept(net: Net, u: Ref, c: Ref, left: int, closes: bool)
    requires u in net.usr && c in net.chn
    ensures Kept(net, Leave(net, u, c, left, closes))
  {
    hide Without;
  }

  lemma LeaveCounted(net: Net, u: Ref, c: Ref, left: int, closes: bool)
    requires u in net.usr && c in net.chn && left >= |Without(net.chn[c].users, {u})|
    ensures Counted(net) ==> Counted(Leave(net, u, c, left, closes))
    ensures Exact(net) && left == |Without(net.chn[c].users, {u})| ==> Exact(Leave(net, u, c, left, closes))
  {
    hide Without;
  }

  /** A departure that leaves a count that is large enough. */
  lemma LeaveSound(net: Net, u: Ref, c: Ref, left: int, closes: bool)
    requires Sound(net) && u in net.usr && c in net.chn && u in net.chn[c].users
    requires left >= |net.chn[c].users| - 1 && (closes ==> left <= 0)
    ensures Sound(Leave(net, u, c, left, closes))
    ensures Exact(net) && left == |net.chn[c].users| - 1 ==> Exact(Leave(net, u, c, left, closes))
    ensures |Without(net.chn[c].users, {u})| == |net.chn[c].users| - 1
  {
    OkOf(net, u, c);
    WithoutOne(net.chn[c].users, u);
    hide Linked, UserOk, ChanOk, Named, Rooted, Counted, Exact, Without, Kept, Leave;
    LeaveLinked(net, u, c, left, closes);
    LeaveKept(net, u, c, left, closes);
    LeaveCounted(net, u, c, left, closes);
    SoundFrom(net, Leave(net, u, c, left, closes));
  }

  lemma LeaveResult(net: Net, u: Ref, c: Ref, left: int, closes: bool)
    requires u in net.usr && c in net.chn
    ensures var after := Leave(net, u, c, left, closes);
            && (c in after.chn <==> !closes)
            && (c in after.chn ==> after.chn[c] == net.chn[c].(users := Without(net.chn[c].users, {u}), usercnt := left))
            && u !in Without(net.chn[c].users, {u})
  {
    WithoutIn(net.chn[c].users, {u});
    hide Without;
  }

  lemma CountAt(net: Net, c: Ref)
    requires c in net.chn
    ensures Counted(net) ==> net.chn[c].usercnt >= |net.chn[c].users|
    ensures Exact(net) ==> net.chn[c].usercnt == |net.chn[c].users|
  {
  }

  lemma Single(s: seq<Ref>, u: Ref)
    requires u in s
    ensures s == [u] <==> |s| == 1
  {
  }

  lemma PartIsLeave(net: Net, u: Ref, c: Ref)
    requires Live(net, u, c)
    ensures var left := net.chn[c].usercnt - 1;
            Part(net, u, c) == if u in net.chn[c].users then Leave(net, u, c, left, left <= 0) else net
  {
  }

  /** A part keeps everything in order, and the user is off the channel. */
  lemma PartSound(net: Net, u: Ref, c: Ref)
    requires Sound(net) && u in net.usr && c in net.chn
    ensures Sound(Part(net, u, c)) && (Exact(net) ==> Exact(Part(net, u, c)))
    ensures c in Part(net, u, c).chn ==> u !in Part(net, u, c).chn[c].users
  {
    CountAt(net, c);
    PartIsLeave(net, u, c);
    hide Linked, Named, Rooted, Counted, Exact, Without, Leave, Part;
    var left := net.chn[c].usercnt - 1;
    LeaveResult(net, u, c, left, left <= 0);
    if u in net.chn[c].users {
      LeaveSound(net, u, c, left, left <= 0);
    }
  }

  /** Exactly this user is off exactly this channel, and nothing else has changed
      but counts and the list of channels. */
  ghost predicate TakenOff(net: Net, after: Net, u: Ref, c: Ref) {
    OnlyMembers(net, after) && forall v, d :: On(after, v, d) <==> On(net, v, d) && !(v == u && d == c)
  }

  lemma NobodyElse(s: seq<Ref>, u: Ref)
    requires u in s && |s| <= 1
    ensures forall v :: v in s ==> v == u
  {
  }

  lemma LeaveOn(net: Net, u: Ref, c: Ref, left: int, closes: bool, v: Ref, d: Ref)
    requires u in net.usr && c in net.chn && (closes ==> forall w :: w in net.chn[c].users ==> w == u)
    ensures On(Leave(net, u, c, left, closes), v, d) <==> On(net, v, d) && !(v == u && d == c)
  {
    WithoutIn(net.chn[c].users, {u});
    hide Without;
  }

  lemma LeaveOnly(net: Net, u: Ref, c: Ref, left: int, closes: bool)
    requires u in net.usr && c in net.chn
    ensures var after := Leave(net, u, c, left, closes);
            && OnlyMembers(net, after) && after.chn.Keys == net.chn.Keys - (if closes then {c} else {})
            && (forall d :: d in after.chn ==> after.chn[d].usercnt == if d == c then left else net.chn[d].usercnt)
  {
    hide Without;
    assert Leave(net, u, c, left, closes).usr.Keys == net.usr.Keys;
  }

  lemma LeaveExact(net: Net, u: Ref, c: Ref, left: int, closes: bool)
    requires u in net.usr && c in net.chn && u in net.chn[c].users && (closes ==> |net.chn[c].users| <= 1)
    ensures var after := Leave(net, u, c, left, closes);
            && TakenOff(net, after, u, c) && after.chn.Keys == net.chn.Keys - (if closes then {c} else {})
            && (forall d :: d in after.chn ==> after.chn[d].usercnt == if d == c then left else net.chn[d].usercnt)
  {
    if closes {
      NobodyElse(net.chn[c].users, u);
    }
    LeaveOnly(net, u, c, left, closes);
    hide Leave, OnlyMembers;
    forall v, d
      ensures On(Leave(net, u, c, left, closes), v, d) <==> On(net, v, d) && !(v == u && d == c)
    {
      LeaveOn(net, u, c, left, closes, v, d);
    }
  }

  lemma NobodyTaken(net: Net, u: Ref, c: Ref)
    requires c in net.chn && u !in net.chn[c].users
    ensures TakenOff(net, net, u, c)
  {
  }

  /** A part, with the count one lower; nothing changes for a user who is not on the
      channel. */
  lemma PartExact(net: Net, u: Ref, c: Ref)
    requires Sound(net) && u in net.usr && c in net.chn
    ensures var after := Part(net, u, c);
            && TakenOff(net, after, u, c)
            && (forall d :: d in after.chn <==> d in net.chn && !(d == c && On(net, u, c) && net.chn[c].usercnt <= 1))
            && (forall d :: d in after.chn ==>
                  after.chn[d].usercnt == net.chn[d].usercnt - if d == c && On(net, u, c) then 1 else 0)
  {
    hide Linked, Named, Rooted, Counted, Leave, Part, TakenOff;
    CountAt(net, c);
    PartIsLeave(net, u, c);
    if u in net.chn[c].users {
      var left := net.chn[c].usercnt - 1;
      LeaveExact(net, u, c, left, left <= 0);
    } else {
      NobodyTaken(net, u, c);
    }
  }

  lemma KickIsLeave(net: Net, u: Ref, c: Ref)
    requires Live(net, u, c)
    ensures var left := net.chn[c].usercnt;
            Kick(net, u, c) == if u in net.chn[c].users then Leave(net, u, c, left, left == 0) else net
  {
  }

  /** A kick, with all counts as they were. */
  lemma KickExact(net: Net, u: Ref, c: Ref)
    requires Sound(net) && u in net.usr && c in net.chn
    ensures var after := Kick(net, u, c);
            && TakenOff(net, after, u, c) && after.chn.Keys == net.chn.Keys
            && (forall d :: d in net.chn ==> after.chn[d].usercnt == net.chn[d].usercnt)
  {
    hide Linked, Named, Rooted, Counted, Leave, Kick, TakenOff;
    CountAt(net, c);
    KickIsLeave(net, u, c);
    if u in net.chn[c].users {
      LeaveExact(net, u, c, net.chn[c].usercnt, false);
    } else {
      NobodyTaken(net, u, c);
    }
  }

  /** The channel goes when the count says so; if the count is right, exactly when
      its last user leaves. */
  lemma PartCloses(net: Net, u: Ref, c: Ref)
    requires Sound(net) && u in net.usr && c in net.chn && u in net.chn[c].users
    ensures c !in Part(net, u, c).chn <==> net.chn[c].usercnt <= 1
    ensures net.chn[c].usercnt == |net.chn[c].users| ==> (c !in Part(net, u, c).chn <==> net.chn[c].users == [u])
  {
    PartIsLeave(net, u, c);
    hide Linked, Named, Rooted, Counted, Without, Leave, Part;
    var left := net.chn[c].usercnt - 1;
    LeaveResult(net, u, c, left, left <= 0);
    Single(net.chn[c].users, u);
  }

  /** A kick keeps membership in order but not the count, which is too large by one
      more from then on; so the channel stays even when its last user is kicked. */
  lemma KickSound(net: Net, u: Ref, c: Ref)
    requires Sound(net) && u in net.usr && c in net.chn
    ensures var after := Kick(net, u, c);
            && Sound(after) && c in after.chn && u !in after.chn[c].users
            && after.chn[c].usercnt == net.chn[c].usercnt
            && |after.chn[c].users| == |net.chn[c].users| - (if u in net.chn[c].users then 1 else 0)
  {
    CountAt(net, c);
    hide Linked, Named, Rooted, Counted, Exact, Without, Leave;
    if u in net.chn[c].users {
      LeaveSound(net, u, c, net.chn[c].usercnt, false);
      LeaveResult(net, u, c, net.chn[c].usercnt, false);
    }
  }

  /** The count survives a kick exactly when there was nobody to kick. */
  lemma KickCountsIff(net: Net, u: Ref, c: Ref)
    requires Sound(net) && Exact(net) && u in net.usr && c in net.chn
    ensures Exact(Kick(net, u, c)) <==> u !in net.chn[c].users
  {
    KickSound(net, u, c);
    hide Linked, Named, Rooted, Leave;
  }

  // ----- New records and new names -----

  /** Only records at `us` and `cs` are new or changed. */
  lemma SameOk(net: Net, after: Net, v: Ref)
    requires v in net.usr && v in after.usr && UserOk(net, v) && after.usr[v].channels == net.usr[v].channels
    requires forall c :: c in net.chn ==> c in after.chn && after.chn[c] == net.chn[c]
    ensures UserOk(after, v)
  {
    hide Distinct;
  }

  lemma SameChanOk(net: Net, after: Net, d: Ref)
    requires d in net.chn && d in after.chn && ChanOk(net, d) && after.chn[d] == net.chn[d]
    requires forall u :: u in net.usr ==> u in after.usr && after.usr[u].channels == net.usr[u].channels
    ensures ChanOk(after, d)
  {
    hide Distinct;
  }

  lemma NoneDistinct()
    ensures Distinct([])
  {
  }

  /** A new user or channel, or a new nickname: old members stay members. */
  lemma GrownLinked(net: Net, after: Net)
    requires Linked(net) && Lists(after.userlist, after.usr.Keys) && Lists(after.chanlist, after.chn.Keys)
    requires forall u :: u in net.usr ==> u in after.usr && after.usr[u].channels == net.usr[u].channels
    requires forall c :: c in net.chn ==> c in after.chn && after.chn[c] == net.chn[c]
    requires forall u :: u in after.usr && u !in net.usr ==> after.usr[u].channels == []
    requires forall c :: c in after.chn && c !in net.chn ==> after.chn[c].users == []
    ensures Linked(after)
  {
    hide Lists, Distinct;
    forall v | v in after.usr ensures UserOk(after, v) {
      OkOf(net, v, v);
      if v in net.usr {
        SameOk(net, after, v);
      } else {
        NoneDistinct();
      }
    }
    forall d | d in after.chn ensures ChanOk(after, d) {
      OkOf(net, d, d);
      if d in net.chn {
        SameChanOk(net, after, d);
      } else {
        NoneDistinct();
      }
    }
  }

  lemma Listed(net: Net)
    requires Linked(net)
    ensures (forall u :: u in net.userlist <==> u in net.usr) && forall c :: c in net.chanlist <==> c in net.chn
  {
  }

  /** Where old records are as they were, so are the counts. */
  lemma CountsKept(net: Net, after: Net)
    requires forall c :: c in after.chn ==> (c in net.chn && after.chn[c] == net.chn[c]) || after.chn[c].usercnt == 0 == |after.chn[c].users|
    ensures Counted(net) ==> Counted(after)
    ensures Exact(net) ==> Exact(after)
  {
  }

  lemma {:induction false} Unknown(net: Net, list: seq<Ref>, text: string, u: Ref)
    requires (forall v :: v in list ==> v in net.usr) && FindUserIn(net, list, text).None? && u in list
    ensures !SameName(net.usr[u].nick, text) && !(net.usr[u].uid != "" && SameName(net.usr[u].uid, text))
  {
    if list[0] != u {
      Unknown(net, list[1..], text, u);
    }
  }

  /** What nobody is called by is found at the record that gets it as nickname. */
  lemma {:induction false} NewlyFound(net: Net, after: Net, list: seq<Ref>, list': seq<Ref>, u: Ref, nick: string)
    requires (forall v :: v in list ==> v in net.usr) && (forall v :: v in list' ==> v in after.usr)
    requires (forall v :: v in list' && v != u ==> v in list && after.usr[v] == net.usr[v])
    requires FindUserIn(net, list, nick).None? && u in list' && SameName(after.usr[u].nick, nick)
    ensures FindUserIn(after, list', nick) == Some(u)
  {
    if list'[0] != u {
      Unknown(net, list, nick, list'[0]);
      NewlyFound(net, after, list, list'[1..], u, nick);
    }
  }

  lemma NickSame(nick: string)
    ensures SameName(nick, nick)
  {
  }

  lemma NewUserNamed(net: Net, r: Ref, nick: string)
    requires Linked(net) && Named(net) && r !in net.usr && FindUser(net, nick).None?
    ensures Named(NewUser(net, r, nick))
  {
    hide UserOk, ChanOk, Distinct;
    assert forall u :: u in net.usr ==> u in net.userlist;
  }

  lemma NewUserKeeps(net: Net, r: Ref, nick: string)
    requires Sound(net) && r !in net.usr
    ensures Sound(NewUser(net, r, nick)) && (Exact(net) ==> Exact(NewUser(net, r, nick)))
  {
    hide SameName, Lists, UserOk, ChanOk, FindUser, Counted, Exact, Distinct;
    Listed(net);
    var after := NewUser(net, r, nick);
    if FindUser(net, nick).None? {
      AppendLists(net.userlist, net.usr.Keys, r);
      assert after.usr.Keys == net.usr.Keys + {r};
      GrownLinked(net, after);
      NewUserNamed(net, r, nick);
      CountsKept(net, after);
      hide Linked, Named;
    }
  }

  lemma NewUserChanges(net: Net, r: Ref, nick: string)
    requires Linked(net) && r !in net.usr
    ensures FindUser(net, nick).Some? <==> NewUser(net, r, nick) == net
  {
    Listed(net);
    hide Linked, FindUser;
    assert FindUser(net, nick).None? ==> r in NewUser(net, r, nick).usr;
  }

  lemma NewUserListed(net: Net, r: Ref, nick: string)
    requires Linked(net) && r !in net.usr
    ensures var after := NewUser(net, r, nick);
            && (forall u :: u in after.userlist <==> u in after.usr)
            && (FindUser(net, nick).None? ==> FindUser(after, nick) == Some(r))
  {
    Listed(net);
    NickSame(nick);
    hide Linked, SameName;
    if FindUser(net, nick).None? {
      var after := NewUser(net, r, nick);
      NewlyFound(net, after, net.userlist, after.userlist, r, nick);
    }
  }

  /** A new user is on no channel and on no server; nobody else changes. */
  lemma NewUserAdds(net: Net, r: Ref, nick: string)
    requires Linked(net) && r !in net.usr && FindUser(net, nick).None?
    ensures var after := NewUser(net, r, nick);
            && after.usr.Keys == net.usr.Keys + {r} && after.usr[r].nick == nick && after.usr[r].uid == ""
            && after.usr[r].serv.None? && after.usr[r].channels == []
            && (forall u :: u in net.usr ==> after.usr[u] == net.usr[u])
            && after.chanlist == net.chanlist && after.chn == net.chn && after.servlist == net.servlist && after.srv == net.srv
  {
    Listed(net);
    hide FindUser, Linked;
  }

  /** A new channel has its name and nobody on it; nothing else changes. */
  lemma NewChanAdds(net: Net, r: Ref, name: string)
    requires Linked(net) && r !in net.chn && FindChannelIn(net, net.chanlist, name).None?
    ensures var after := NewChan(net, r, name);
            && after.chn.Keys == net.chn.Keys + {r} && after.chn[r].name == name
            && after.chn[r].users == [] && after.chn[r].usercnt == 0
            && (forall c :: c in net.chn ==> after.chn[c] == net.chn[c])
            && after.userlist == net.userlist && after.usr == net.usr && after.servlist == net.servlist && after.srv == net.srv
  {
    Listed(net);
    hide FindChannelIn, Linked;
  }

  /** A new user keeps everything in order and is found under the nickname; if the
      nickname or identifier is in use, nothing changes. */
  lemma NewUserSound(net: Net, r: Ref, nick: string)
    requires Sound(net) && r !in net.usr
    ensures var after := NewUser(net, r, nick);
            && Sound(after) && (Exact(net) ==> Exact(after))
            && (FindUser(net, nick).Some? <==> after == net)
            && (forall u :: u in after.userlist <==> u in after.usr)
            && (FindUser(net, nick).None? ==> FindUser(after, nick) == Some(r))
  {
    hide Linked, Named, Rooted, Counted, Exact, FindUser, NewUser;
    NewUserKeeps(net, r, nick);
    NewUserChanges(net, r, nick);
    NewUserListed(net, r, nick);
  }

  lemma NewChanNamed(net: Net, r: Ref, name: string)
    requires Linked(net) && Named(net) && r !in net.chn && FindChannelIn(net, net.chanlist, name).None?
    ensures Named(NewChan(net, r, name))
  {
    hide UserOk, ChanOk, Distinct;
    assert forall c :: c in net.chn ==> c in net.chanlist;
  }

  lemma NewChanKeeps(net: Net, r: Ref, name: string)
    requires Sound(net) && r !in net.chn
    ensures Sound(NewChan(net, r, name)) && (Exact(net) ==> Exact(NewChan(net, r, name)))
  {
    hide SameName, Lists, UserOk, ChanOk, FindChannelIn, Counted, Exact, Distinct;
    Listed(net);
    var after := NewChan(net, r, name);
    if FindChannelIn(net, net.chanlist, name).None? {
      AppendLists(net.chanlist, net.chn.Keys, r);
      assert after.chn.Keys == net.chn.Keys + {r};
      GrownLinked(net, after);
      NewChanNamed(net, r, name);
      CountsKept(net, after);
      hide Linked, Named;
    }
  }

  lemma NewChanChanges(net: Net, r: Ref, name: string)
    requires Linked(net) && r !in net.chn
    ensures FindChannelIn(net, net.chanlist, name).Some? <==> NewChan(net, r, name) == net
  {
    Listed(net);
    hide Linked, FindChannelIn;
    assert FindChannelIn(net, net.chanlist, name).None? ==> r in NewChan(net, r, name).chn;
  }

  /** A new channel keeps everything in order; if the name is in use, nothing
      changes. */
  lemma NewChanSound(net: Net, r: Ref, name: string)
    requires Sound(net) && r !in net.chn
    ensures Sound(NewChan(net, r, name)) && (Exact(net) ==> Exact(NewChan(net, r, name)))
    ensures FindChannelIn(net, net.chanlist, name).Some? <==> NewChan(net, r, name) == net
  {
    hide Linked, Named, Rooted, Counted, Exact, FindChannelIn, NewChan;
    NewChanKeeps(net, r, name);
    NewChanChanges(net, r, name);
  }

  lemma NewNickNamed(net: Net, u: Ref, nick: string)
    requires Linked(net) && Named(net) && u in net.usr && FindUser(net, nick).None?
    ensures Named(NewNick(net, u, nick))
  {
    hide UserOk, ChanOk, Distinct;
    assert forall v :: v in net.usr ==> v in net.userlist;
  }

  lemma NewNickKeeps(net: Net, u: Ref, nick: string)
    requires Sound(net) && u in net.usr
    ensures Sound(NewNick(net, u, nick)) && (Exact(net) ==> Exact(NewNick(net, u, nick)))
  {
    hide SameName, Lists, UserOk, ChanOk, FindUser, Counted, Exact, Distinct;
    Listed(net);
    var after := NewNick(net, u, nick);
    if FindUser(net, nick).None? {
      assert after.usr.Keys == net.usr.Keys;
      GrownLinked(net, after);
      NewNickNamed(net, u, nick);
      CountsKept(net, after);
      hide Linked, Named;
    }
  }

  lemma NewNickFound(net: Net, u: Ref, nick: string)
    requires Linked(net) && u in net.usr
    ensures var after := NewNick(net, u, nick);
            && (FindUser(net, nick).Some? ==> after == net)
            && (forall v :: v in after.userlist <==> v in after.usr)
            && (FindUser(net, nick).None? ==> after.usr[u].nick == nick && FindUser(after, nick) == Some(u))
  {
    Listed(net);
    NickSame(nick);
    hide Linked, SameName;
    if FindUser(net, nick).None? {
      var after := NewNick(net, u, nick);
      NewlyFound(net, after, net.userlist, after.userlist, u, nick);
    }
  }

  /** Only the nickname of this user changes. */
  lemma NewNickOnly(net: Net, u: Ref, nick: string)
    requires Linked(net) && u in net.usr && FindUser(net, nick).None?
    ensures var after := NewNick(net, u, nick);
            && after.usr.Keys == net.usr.Keys && after.usr[u] == net.usr[u].(nick := nick)
            && (forall v :: v in net.usr && v != u ==> after.usr[v] == net.usr[v])
            && after == net.(usr := after.usr)
  {
    Listed(net);
    hide FindUser, Linked;
    assert NewNick(net, u, nick).usr.Keys == net.usr.Keys;
  }

  /** A new nickname keeps nicknames unique, and so everybody in place, and the user
      is found under it; if it is in use, nothing changes. */
  lemma NewNickSound(net: Net, u: Ref, nick: string)
    requires Sound(net) && u in net.usr
    ensures var after := NewNick(net, u, nick);
            && Sound(after) && (Exact(net) ==> Exact(after))
            && (FindUser(net, nick).Some? ==> after == net)
            && (forall v :: v in after.userlist <==> v in after.usr)
            && (FindUser(net, nick).None? ==> after.usr[u].nick == nick && FindUser(after, nick) == Some(u))
  {
    hide Linked, Named, Rooted, Counted, Exact, FindUser, NewNick;
    NewNickKeeps(net, u, nick);
    NewNickFound(net, u, nick);
  }

  // ----- A user who leaves all channels -----

  /** The records of the channels once `done` are left. */
  function LeftChannels(chn: map<Ref, Channel>, u: Ref, done: set<Ref>): map<Ref, Channel> {
    map c | c in chn && !(c in done && Closes(chn[c], {u})) :: if c in done then Prune(chn[c], {u}) else chn[c]
  }

  /** The user `u` has left the channels `done`. */
  function Partial(net: Net, u: Ref, done: set<Ref>): Net
    requires u in net.usr
  {
    net.(usr := net.usr[u := net.usr[u].(channels := Without(net.usr[u].channels, done))],
         chanlist := Without(net.chanlist, done * Closed(net.chn, {u})),
         chn := LeftChannels(net.chn, u, done))
  }

  lemma PruneOne(c: Channel, u: Ref)
    requires Distinct(c.users)
    ensures u in c.users ==>
              Prune(c, {u}) == c.(users := Without(c.users, {u}), usercnt := c.usercnt - 1)
              && (Closes(c, {u}) <==> c.usercnt - 1 <= 0)
    ensures u !in c.users ==> Prune(c, {u}) == c && !Closes(c, {u})
  {
    if u in c.users {
      WithoutOne(c.users, u);
    } else {
      WithoutNone(c.users, {u});
    }
  }

  lemma LeftStep(chn: map<Ref, Channel>, u: Ref, done: set<Ref>, c: Ref)
    requires c in chn && c !in done && u in chn[c].users && Distinct(chn[c].users)
    ensures var now := LeftChannels(chn, u, done);
            var left := chn[c].usercnt - 1;
            && c in now && now[c] == chn[c] && (Closes(chn[c], {u}) <==> left <= 0)
            && LeftChannels(chn, u, done + {c})
               == if left <= 0 then now - {c}
                  else now[c := chn[c].(users := Without(chn[c].users, {u}), usercnt := left)]
  {
    PruneOne(chn[c], u);
    hide Prune, Closes, Without;
  }

  lemma MemberFacts(net: Net, u: Ref, c: Ref)
    requires Linked(net) && u in net.usr && c in net.usr[u].channels
    ensures c in net.chn && u in net.chn[c].users && Distinct(net.chn[c].users)
  {
    OkOf(net, u, c);
    OkOf(net, c, c);
  }

  lemma MapOver<V>(m: map<Ref, V>, k: Ref, v: V, w: V)
    ensures m[k := v][k := w] == m[k := w]
  {
  }

  lemma ClosedStep(net: Net, u: Ref, done: set<Ref>, c: Ref)
    requires c in net.chn && c !in done
    ensures var all := Closed(net.chn, {u});
            Without(net.chanlist, (done + {c}) * all)
            == if Closes(net.chn[c], {u}) then Without(Without(net.chanlist, done * all), {c})
               else Without(net.chanlist, done * all)
  {
    var all := Closed(net.chn, {u});
    assert c in all <==> Closes(net.chn[c], {u});
    hide Closes;
    if c in all {
      WithoutTwice(net.chanlist, done * all, {c});
      assert (done + {c}) * all == done * all + {c};
    } else {
      assert (done + {c}) * all == done * all;
    }
  }

  lemma LeavePartial(net: Net, u: Ref, done: set<Ref>, c: Ref)
    requires u in net.usr && c in net.chn && c !in done && u in net.chn[c].users && Distinct(net.chn[c].users)
    ensures c in Partial(net, u, done).chn && Partial(net, u, done).chn[c] == net.chn[c]
    ensures var left := net.chn[c].usercnt - 1;
            Leave(Partial(net, u, done), u, c, left, left <= 0) == Partial(net, u, done + {c})
  {
    hide LeftChannels, Without, Closed, Closes, Distinct;
    LeftStep(net.chn, u, done, c);
    WithoutTwice(net.usr[u].channels, done, {c});
    ClosedStep(net, u, done, c);
    var user, left := net.usr[u], net.chn[c].usercnt - 1;
    MapOver(net.usr, u, user.(channels := Without(user.channels, done)), user.(channels := Without(user.channels, done + {c})));
  }

  /** One more channel. */
  lemma PartialStep(net: Net, u: Ref, done: set<Ref>, c: Ref)
    requires Linked(net) && u in net.usr && c in net.usr[u].channels && c !in done
    requires Linked(Partial(net, u, done))
    ensures c in Partial(net, u, done).chn
    ensures Part(Partial(net, u, done), u, c) == Partial(net, u, done + {c})
  {
    hide Linked, UserOk, ChanOk, Part, Leave, Distinct;
    MemberFacts(net, u, c);
    LeavePartial(net, u, done, c);
    PartIsLeave(Partial(net, u, done), u, c);
    hide Partial;
  }

  /** `dlink_find_delete(u, &userlist)` and `free(u)`. */
  function DropUser(net: Net, u: Ref): Net {
    net.(userlist := Without(net.userlist, {u}), usr := net.usr - {u})
  }

  lemma LeftAll(net: Net, u: Ref, done: set<Ref>)
    requires Linked(net) && u in net.usr && forall c :: c in net.usr[u].channels <==> c in done
    ensures LeftChannels(net.chn, u, done) == PruneAll(net.chn, {u})
    ensures done * Closed(net.chn, {u}) == Closed(net.chn, {u})
  {
    OkOf(net, u, u);
    forall c | c in net.chn
      ensures c !in done ==> Prune(net.chn[c], {u}) == net.chn[c] && !Closes(net.chn[c], {u})
    {
      OkOf(net, u, c);
      PruneOne(net.chn[c], u);
    }
    hide Prune, Closes, Without, Linked, UserOk, ChanOk;
  }

  /** Leaving every channel and the list is being removed. */
  lemma PartialEnd(net: Net, u: Ref, done: set<Ref>)
    requires Linked(net) && u in net.usr && forall c :: c in net.usr[u].channels <==> c in done
    ensures DropUser(Partial(net, u, done), u) == RemoveUsers(net, {u})
  {
    LeftAll(net, u, done);
    hide LeftChannels, PruneAll, Closed, Without, Linked;
  }

  lemma PartialNone(net: Net, u: Ref)
    requires u in net.usr
    ensures Partial(net, u, {}) == net
  {
    WithoutNone(net.usr[u].channels, {});
    WithoutNone(net.chanlist, {});
    hide Closes, Prune, Without;
    assert {} * Closed(net.chn, {u}) == {};
    assert LeftChannels(net.chn, u, {}) == net.chn;
  }
}
