/** Epoll items under three indexes, and epoll instances closed only when their last
    member socket goes (vcl-ldpreload, vcom_socket.c). */
module Epoll {
  import opened Vppinfra

  datatype FdType = SocketFd | EpollFd

  datatype Op = Add | Mod | Del | OtherOp

  datatype Item = Item(epfd: nat, fd: nat, fdType: FdType, event: nat, revent: nat)

  datatype Vsock = Vsock(fd: nat, sid: nat)

  datatype Vepoll = Vepoll(epfd: nat, vepIdx: nat, count: int, close: bool)

  const EEXIST: int := -17
  const ENOENT: int := -2
  const EINVAL: int := -22
  const EBADF: int := -9

  /** (epfd, fd) */
  type Pair = (nat, nat)

  ghost predicate NoDup(v: seq<nat>) {
    forall i, j :: 0 <= i < j < |v| ==> v[i] != v[j]
  }

  /** vec_del1: the last element takes the place of the deleted one. */
  function Del1(v: seq<nat>, k: nat): (r: seq<nat>)
    requires k < |v|
    ensures |r| == |v| - 1
  {
    v[k := v[|v| - 1]][..|v| - 1]
  }

  lemma Del1Elements(v: seq<nat>, k: nat)
    requires k < |v| && NoDup(v)
    ensures NoDup(Del1(v, k))
    ensures forall x :: x in Del1(v, k) <==> x in v && x != v[k]
  {
    var r := Del1(v, k);
    forall i | 0 <= i < |r| ensures r[i] == v[if i == k then |v| - 1 else i] {
    }
    forall x | x in v && x != v[k] ensures x in r {
      var i :| 0 <= i < |v| && v[i] == x;
      assert r[if i == |v| - 1 then k else i] == x;
    }
    forall x | x in r ensures x in v && x != v[k] {
      var i :| 0 <= i < |r| && r[i] == x;
      assert x == v[if i == k then |v| - 1 else i];
    }
  }

  // ---------- the three indexes ----------

  /** Item i is the one registered for its own pair. */
  ghost predicate Live(items: map<nat, Item>, byPair: map<Pair, nat>, i: nat) {
    && i in items
    && (items[i].epfd, items[i].fd) in byPair
    && byPair[(items[i].epfd, items[i].fd)] == i
  }

  ghost predicate PairsOk(items: map<nat, Item>, byPair: map<Pair, nat>) {
    forall k :: k in byPair ==> byPair[k] in items && items[byPair[k]].epfd == k.0 && items[byPair[k]].fd == k.1
  }

  /** v lists, without repetition, the live items that contain x. */
  ghost predicate ListsEpfd(v: seq<nat>, items: map<nat, Item>, byPair: map<Pair, nat>, epfd: nat) {
    && v != [] && NoDup(v)
    && forall i :: i in v <==> Live(items, byPair, i) && items[i].epfd == epfd
  }

  ghost predicate ListsFd(v: seq<nat>, items: map<nat, Item>, byPair: map<Pair, nat>, fd: nat) {
    && v != [] && NoDup(v)
    && forall i :: i in v <==> Live(items, byPair, i) && items[i].fd == fd
  }

  ghost predicate EpfdsOk(items: map<nat, Item>, byPair: map<Pair, nat>, byEpfd: map<nat, seq<nat>>) {
    && (forall e :: e in byEpfd ==> ListsEpfd(byEpfd[e], items, byPair, e))
    && (forall k :: k in byPair ==> k.0 in byEpfd)
  }

  ghost predicate FdsOk(items: map<nat, Item>, byPair: map<Pair, nat>, byFd: map<nat, seq<nat>>) {
    && (forall f :: f in byFd ==> ListsFd(byFd[f], items, byPair, f))
    && (forall k :: k in byPair ==> k.1 in byFd)
  }

  ghost predicate IndexOk(items: map<nat, Item>, byPair: map<Pair, nat>, byEpfd: map<nat, seq<nat>>,
                          byFd: map<nat, seq<nat>>) {
    PairsOk(items, byPair) && EpfdsOk(items, byPair, byEpfd) && FdsOk(items, byPair, byFd)
  }

  /** The three indexes agree on every item, and no list is stored empty. */
  lemma IndexesAgree(items: map<nat, Item>, byPair: map<Pair, nat>, byEpfd: map<nat, seq<nat>>,
                     byFd: map<nat, seq<nat>>, epfd: nat, fd: nat, i: nat)
    requires IndexOk(items, byPair, byEpfd, byFd)
    ensures (epfd, fd) in byPair && byPair[(epfd, fd)] == i <==>
            i in items && items[i].epfd == epfd && items[i].fd == fd && epfd in byEpfd && i in byEpfd[epfd]
    ensures (epfd, fd) in byPair && byPair[(epfd, fd)] == i <==>
            i in items && items[i].epfd == epfd && items[i].fd == fd && fd in byFd && i in byFd[fd]
    ensures epfd in byEpfd ==> byEpfd[epfd] != []
    ensures fd in byFd ==> byFd[fd] != []
  {
    assert (epfd, fd) in byPair && byPair[(epfd, fd)] == i ==> Live(items, byPair, i);
    assert epfd in byEpfd ==> ListsEpfd(byEpfd[epfd], items, byPair, epfd);
    assert fd in byFd ==> ListsFd(byFd[fd], items, byPair, fd);
  }

  // ---------- adding ----------

  function Appended(lists: map<nat, seq<nat>>, x: nat, i: nat): map<nat, seq<nat>> {
    lists[x := (if x in lists then lists[x] else []) + [i]]
  }

  lemma LiveAdd(items: map<nat, Item>, byPair: map<Pair, nat>, i: nat, item: Item, j: nat)
    requires PairsOk(items, byPair) && i !in items && (item.epfd, item.fd) !in byPair
    ensures Live(items[i := item], byPair[(item.epfd, item.fd) := i], j) <==> j == i || Live(items, byPair, j)
  {
  }

  lemma IndexAdd(items: map<nat, Item>, byPair: map<Pair, nat>, byEpfd: map<nat, seq<nat>>, byFd: map<nat, seq<nat>>,
                 i: nat, item: Item)
    requires IndexOk(items, byPair, byEpfd, byFd) && i !in items && (item.epfd, item.fd) !in byPair
    ensures IndexOk(items[i := item], byPair[(item.epfd, item.fd) := i],
                    Appended(byEpfd, item.epfd, i), Appended(byFd, item.fd, i))
  {
    var items', byPair' := items[i := item], byPair[(item.epfd, item.fd) := i];
    EpfdsAdd(items, byPair, byEpfd, i, item);
    FdsAdd(items, byPair, byFd, i, item);
    hide EpfdsOk;
    hide FdsOk;
    assert PairsOk(items', byPair');
  }

  lemma EpfdsAdd(items: map<nat, Item>, byPair: map<Pair, nat>, byEpfd: map<nat, seq<nat>>, i: nat, item: Item)
    requires PairsOk(items, byPair) && EpfdsOk(items, byPair, byEpfd) && i !in items && (item.epfd, item.fd) !in byPair
    ensures EpfdsOk(items[i := item], byPair[(item.epfd, item.fd) := i], Appended(byEpfd, item.epfd, i))
  {
    var items', byPair', lists' := items[i := item], byPair[(item.epfd, item.fd) := i], Appended(byEpfd, item.epfd, i);
    forall e | e in lists' ensures ListsEpfd(lists'[e], items', byPair', e) {
      if e in byEpfd {
        assert ListsEpfd(byEpfd[e], items, byPair, e) && i !in byEpfd[e];
      }
      forall j ensures j in lists'[e] <==> Live(items', byPair', j) && items'[j].epfd == e {
        LiveAdd(items, byPair, i, item, j);
      }
    }
  }

  lemma FdsAdd(items: map<nat, Item>, byPair: map<Pair, nat>, byFd: map<nat, seq<nat>>, i: nat, item: Item)
    requires PairsOk(items, byPair) && FdsOk(items, byPair, byFd) && i !in items && (item.epfd, item.fd) !in byPair
    ensures FdsOk(items[i := item], byPair[(item.epfd, item.fd) := i], Appended(byFd, item.fd, i))
  {
    var items', byPair', lists' := items[i := item], byPair[(item.epfd, item.fd) := i], Appended(byFd, item.fd, i);
    forall f | f in lists' ensures ListsFd(lists'[f], items', byPair', f) {
      if f in byFd {
        assert ListsFd(byFd[f], items, byPair, f) && i !in byFd[f];
      }
      forall j ensures j in lists'[f] <==> Live(items', byPair', j) && items'[j].fd == f {
        LiveAdd(items, byPair, i, item, j);
      }
    }
  }

  // ---------- deleting ----------

  /** The item leaves the list at x, and the list goes when it becomes empty. */
  ghost predicate Dropped(lists: map<nat, seq<nat>>, lists': map<nat, seq<nat>>, x: nat, i: nat) {
    && x in lists
    && exists k :: 0 <= k < |lists[x]| && lists[x][k] == i
         && lists' == if |lists[x]| == 1 then lists - {x} else lists[x := Del1(lists[x], k)]
  }

  lemma LiveDel(items: map<nat, Item>, items': map<nat, Item>, byPair: map<Pair, nat>, p: Pair, j: nat)
    requires PairsOk(items, byPair) && p in byPair && (items' == items || items' == items - {byPair[p]})
    ensures Live(items', byPair - {p}, j) <==> j != byPair[p] && Live(items, byPair, j)
  {
  }

  lemma EpfdsDel(items: map<nat, Item>, items': map<nat, Item>, byPair: map<Pair, nat>, p: Pair,
                 byEpfd: map<nat, seq<nat>>, byEpfd': map<nat, seq<nat>>)
    requires PairsOk(items, byPair) && EpfdsOk(items, byPair, byEpfd)
    requires p in byPair && (items' == items || items' == items - {byPair[p]})
    requires Dropped(byEpfd, byEpfd', p.0, byPair[p])
    ensures EpfdsOk(items', byPair - {p}, byEpfd')
  {
    var v, i := byEpfd[p.0], byPair[p];
    var k :| 0 <= k < |v| && v[k] == i && byEpfd' == if |v| == 1 then byEpfd - {p.0} else byEpfd[p.0 := Del1(v, k)];
    assert ListsEpfd(v, items, byPair, p.0);
    Del1Elements(v, k);
    forall e | e in byEpfd' ensures ListsEpfd(byEpfd'[e], items', byPair - {p}, e) {
      assert ListsEpfd(byEpfd[e], items, byPair, e);
      forall j ensures j in byEpfd'[e] <==> Live(items', byPair - {p}, j) && items'[j].epfd == e {
        LiveDel(items, items', byPair, p, j);
      }
    }
    forall q | q in byPair && q != p ensures q.0 in byEpfd' {
      assert Live(items, byPair, byPair[q]);
      assert q.0 == p.0 ==> byPair[q] in v;
    }
  }

  lemma FdsDel(items: map<nat, Item>, items': map<nat, Item>, byPair: map<Pair, nat>, p: Pair,
               byFd: map<nat, seq<nat>>, byFd': map<nat, seq<nat>>)
    requires PairsOk(items, byPair) && FdsOk(items, byPair, byFd)
    requires p in byPair && (items' == items || items' == items - {byPair[p]}) && Dropped(byFd, byFd', p.1, byPair[p])
    ensures FdsOk(items', byPair - {p}, byFd')
  {
    var v, i := byFd[p.1], byPair[p];
    var k :| 0 <= k < |v| && v[k] == i && byFd' == if |v| == 1 then byFd - {p.1} else byFd[p.1 := Del1(v, k)];
    assert ListsFd(v, items, byPair, p.1);
    Del1Elements(v, k);
    forall f | f in byFd' ensures ListsFd(byFd'[f], items', byPair - {p}, f) {
      assert ListsFd(byFd[f], items, byPair, f);
      forall j ensures j in byFd'[f] <==> Live(items', byPair - {p}, j) && items'[j].fd == f {
        LiveDel(items, items', byPair, p, j);
      }
    }
    forall q | q in byPair && q != p ensures q.1 in byFd' {
      assert Live(items, byPair, byPair[q]);
      assert q.1 == p.1 ==> byPair[q] in v;
    }
  }

  lemma IndexDel(items: map<nat, Item>, items': map<nat, Item>, byPair: map<Pair, nat>, p: Pair,
                 byEpfd: map<nat, seq<nat>>, byEpfd': map<nat, seq<nat>>, byFd: map<nat, seq<nat>>,
                 byFd': map<nat, seq<nat>>)
    requires IndexOk(items, byPair, byEpfd, byFd) && p in byPair
    requires items' == items || items' == items - {byPair[p]}
    requires Dropped(byEpfd, byEpfd', p.0, byPair[p]) && Dropped(byFd, byFd', p.1, byPair[p])
    ensures IndexOk(items', byPair - {p}, byEpfd', byFd')
  {
    EpfdsDel(items, items', byPair, p, byEpfd, byEpfd');
    FdsDel(items, items', byPair, p, byFd, byFd');
    hide EpfdsOk;
    hide FdsOk;
    hide Dropped;
    assert PairsOk(items', byPair - {p});
  }

  /** The lists that EPOLL_CTL_DEL looks up are there and contain the item. */
  lemma DelFinds(items: map<nat, Item>, byPair: map<Pair, nat>, byEpfd: map<nat, seq<nat>>, byFd: map<nat, seq<nat>>,
                 p: Pair)
    requires IndexOk(items, byPair, byEpfd, byFd) && p in byPair
    ensures byPair[p] in items
    ensures p.0 in byEpfd && byPair[p] in byEpfd[p.0]
    ensures p.1 in byFd && byPair[p] in byFd[p.1]
  {
    assert Live(items, byPair, byPair[p]);
    assert ListsEpfd(byEpfd[p.0], items, byPair, p.0);
    assert ListsFd(byFd[p.1], items, byPair, p.1);
  }

  // ---------- what users see: registrations and instances ----------

  type Registry = map<Pair, (FdType, nat, nat)>

  /** The registrations: which fd in which instance, with its events. */
  function Registered(items: map<nat, Item>, byPair: map<Pair, nat>): Registry {
    map p | p in byPair && byPair[p] in items ::
      (items[byPair[p]].fdType, items[byPair[p]].event, items[byPair[p]].revent)
  }

  function Members(pairs: set<Pair>, epfd: nat): set<nat> {
    set p | p in pairs && p.0 == epfd :: p.1
  }

  datatype Poll = Poll(count: int, close: bool)

  ghost predicate PollsOk(epollidx: map<nat, nat>, vepolls: map<nat, Vepoll>) {
    forall e :: e in epollidx ==> epollidx[e] in vepolls && vepolls[epollidx[e]].epfd == e
  }

  /** The epoll instances by epfd. */
  function Polls(epollidx: map<nat, nat>, vepolls: map<nat, Vepoll>): map<nat, Poll>
    requires PollsOk(epollidx, vepolls)
  {
    map e | e in epollidx :: Poll(vepolls[epollidx[e]].count, vepolls[epollidx[e]].close)
  }

  /** Every count is the number of registrations, and no registration outlives its instance. */
  ghost predicate Counted(polls: map<nat, Poll>, pairs: set<Pair>) {
    && (forall e :: e in polls ==> polls[e].count == |Members(pairs, e)|)
    && (forall p :: p in pairs ==> p.0 in polls)
  }

  lemma CountedAdd(polls: map<nat, Poll>, pairs: set<Pair>, p: Pair)
    requires Counted(polls, pairs) && p !in pairs && p.0 in polls
    ensures Counted(polls[p.0 := polls[p.0].(count := polls[p.0].count + 1)], pairs + {p})
  {
    forall e | e in polls
      ensures |Members(pairs + {p}, e)| == |Members(pairs, e)| + if e == p.0 then 1 else 0
    {
      if e == p.0 {
        assert Members(pairs + {p}, e) == Members(pairs, e) + {p.1};
        assert p.1 !in Members(pairs, e);
      } else {
        assert Members(pairs + {p}, e) == Members(pairs, e);
      }
    }
  }

  lemma CountedDel(polls: map<nat, Poll>, pairs: set<Pair>, p: Pair)
    requires Counted(polls, pairs) && p in pairs
    ensures p.0 in polls
    ensures Counted(polls[p.0 := polls[p.0].(count := polls[p.0].count - 1)], pairs - {p})
  {
    forall e | e in polls
      ensures |Members(pairs - {p}, e)| == |Members(pairs, e)| - if e == p.0 then 1 else 0
    {
      if e == p.0 {
        assert Members(pairs - {p}, e) == Members(pairs, e) - {p.1};
        assert p.1 in Members(pairs, e);
      } else {
        assert Members(pairs - {p}, e) == Members(pairs, e);
      }
    }
  }

  lemma NoPolls()
    ensures Polls(map[], map[]) == map[]
  {
  }

  lemma NothingRegistered()
    ensures Registered(map[], map[]) == map[]
  {
  }

  lemma NothingCounted(polls: map<nat, Poll>, regs: Registry)
    requires polls == map[] && regs == map[]
    ensures Counted(polls, regs.Keys)
  {
  }

  /** An instance without registrations comes or goes. */
  lemma CountedCreate(polls: map<nat, Poll>, pairs: set<Pair>, epfd: nat)
    requires Counted(polls, pairs) && epfd !in polls
    ensures Counted(polls[epfd := Poll(0, false)], pairs)
  {
    assert Members(pairs, epfd) == {};
  }

  lemma CountedRelease(polls: map<nat, Poll>, pairs: set<Pair>, epfd: nat)
    requires Counted(polls, pairs) && epfd in polls && polls[epfd].count == 0
    ensures Counted(polls - {epfd}, pairs)
  {
    forall p | p in pairs ensures p.0 != epfd {
      assert p.0 == epfd ==> p.1 in Members(pairs, epfd);
    }
  }

  // ---------- closing member sockets ----------

  /** Closing a socket registered in the instances es: those already marked for closing
      lose a member, and go with their last. */
  function AfterClose(polls: map<nat, Poll>, es: set<nat>): map<nat, Poll> {
    map e | e in polls && !(e in es && polls[e].close && polls[e].count == 1) ::
      if e in es && polls[e].close then polls[e].(count := polls[e].count - 1) else polls[e]
  }

  function EpfdsOf(pairs: set<Pair>, fd: nat): set<nat> {
    set p | p in pairs && p.1 == fd :: p.0
  }

  /** The sockets fds closed one after the other; registrations are left in place. */
  function CloseAll(polls: map<nat, Poll>, pairs: set<Pair>, fds: seq<nat>): map<nat, Poll> {
    if fds == [] then polls
    else AfterClose(CloseAll(polls, pairs, fds[..|fds| - 1]), EpfdsOf(pairs, fds[|fds| - 1]))
  }

  function Elements(s: seq<nat>): set<nat> {
    set x | x in s
  }

  /** The marked instance e is there just while something is left to be counted off. */
  ghost predicate KeptFor(polls: map<nat, Poll>, e: nat, left: int) {
    && (e in polls <==> left > 0)
    && (e in polls ==> polls[e] == Poll(left, true))
  }

  /** How many of the sockets are members. */
  function Closes(pairs: set<Pair>, e: nat, fds: seq<nat>): nat {
    |Members(pairs, e) * Elements(fds)|
  }

  lemma OneClose(polls: map<nat, Poll>, e: nat, left: int, es: set<nat>)
    requires KeptFor(polls, e, left)
    ensures KeptFor(AfterClose(polls, es), e, if e in es then left - 1 else left)
  {
  }

  lemma ClosesMore(pairs: set<Pair>, e: nat, fds: seq<nat>)
    requires fds != [] && NoDup(fds)
    ensures var rest, fd := fds[..|fds| - 1], fds[|fds| - 1];
      && NoDup(rest)
      && Closes(pairs, e, fds) == Closes(pairs, e, rest) + if e in EpfdsOf(pairs, fd) then 1 else 0
  {
    var members, rest, fd := Members(pairs, e), fds[..|fds| - 1], fds[|fds| - 1];
    assert fds == rest + [fd];
    assert Elements(fds) == Elements(rest) + {fd};
    assert fd !in Elements(rest) by {
      assert forall i :: 0 <= i < |rest| ==> rest[i] == fds[i];
    }
    assert e in EpfdsOf(pairs, fd) <==> fd in members by {
      assert (e, fd) in pairs <==> fd in members;
    }
    if fd in members {
      assert members * Elements(fds) == members * Elements(rest) + {fd};
    } else {
      assert members * Elements(fds) == members * Elements(rest);
    }
  }

  /** An instance marked for closing is released exactly when as many of its members as it
      counts have been closed: after any distinct sockets have been closed, in any order and
      whatever other instances they belong to, it counts what it did less those of its
      members. One whose members were closed before it was marked is therefore never
      released by closing the others. */
  lemma {:induction false} ReleasedByCount(polls: map<nat, Poll>, pairs: set<Pair>, e: nat, fds: seq<nat>)
    requires e in polls && polls[e].close && polls[e].count >= 1 && NoDup(fds)
    ensures KeptFor(CloseAll(polls, pairs, fds), e, polls[e].count - Closes(pairs, e, fds))
  {
    if fds == [] {
      assert Members(pairs, e) * Elements(fds) == {};
    } else {
      var rest, fd := fds[..|fds| - 1], fds[|fds| - 1];
      ClosesMore(pairs, e, fds);
      ReleasedByCount(polls, pairs, e, rest);
      hide AfterClose;
      hide Closes;
      OneClose(CloseAll(polls, pairs, rest), e, polls[e].count - Closes(pairs, e, rest), EpfdsOf(pairs, fd));
    }
  }

  /** In particular, one marked with n members, all of them open and counted, is released
      exactly by the n-th of their closes, and counts the members still open. */
  lemma ReleasedWithLastMember(polls: map<nat, Poll>, pairs: set<Pair>, e: nat, fds: seq<nat>)
    requires e in polls && polls[e] == Poll(|Members(pairs, e)|, true) && Members(pairs, e) != {}
    requires NoDup(fds)
    ensures e in CloseAll(polls, pairs, fds) <==> Members(pairs, e) - Elements(fds) != {}
    ensures e in CloseAll(polls, pairs, fds) ==>
              CloseAll(polls, pairs, fds)[e] == Poll(|Members(pairs, e) - Elements(fds)|, true)
  {
    ReleasedByCount(polls, pairs, e, fds);
    var left := Members(pairs, e) - Elements(fds);
    assert |left| == |Members(pairs, e)| - Closes(pairs, e, fds);
    assert left != {} <==> |left| > 0;
  }

  /** An instance not marked for closing is not touched by closing its members. */
  lemma {:induction false} UnmarkedStays(polls: map<nat, Poll>, pairs: set<Pair>, e: nat, fds: seq<nat>)
    requires e in polls && !polls[e].close
    ensures e in CloseAll(polls, pairs, fds) && CloseAll(polls, pairs, fds)[e] == polls[e]
  {
    if fds != [] {
      UnmarkedStays(polls, pairs, e, fds[..|fds| - 1]);
    }
  }

  lemma RegisteredAdd(items: map<nat, Item>, byPair: map<Pair, nat>, byEpfd: map<nat, seq<nat>>,
                      byFd: map<nat, seq<nat>>, i: nat, item: Item)
    requires IndexOk(items, byPair, byEpfd, byFd) && i !in items && (item.epfd, item.fd) !in byPair
    ensures IndexOk(items[i := item], byPair[(item.epfd, item.fd) := i],
                    Appended(byEpfd, item.epfd, i), Appended(byFd, item.fd, i))
    ensures Registered(items[i := item], byPair[(item.epfd, item.fd) := i]) ==
            Registered(items, byPair)[(item.epfd, item.fd) := (item.fdType, item.event, item.revent)]
  {
    hide EpfdsOk;
    hide FdsOk;
    IndexAdd(items, byPair, byEpfd, byFd, i, item);
  }

  lemma RegisteredSet(items: map<nat, Item>, byPair: map<Pair, nat>, byEpfd: map<nat, seq<nat>>,
                      byFd: map<nat, seq<nat>>, p: Pair, item: Item)
    requires IndexOk(items, byPair, byEpfd, byFd) && p in byPair && item.epfd == p.0 && item.fd == p.1
    ensures byPair[p] in items
    ensures IndexOk(items[byPair[p] := item], byPair, byEpfd, byFd)
    ensures Registered(items[byPair[p] := item], byPair) ==
            Registered(items, byPair)[p := (item.fdType, item.event, item.revent)]
  {
    IndexSet(items, byPair, byEpfd, byFd, byPair[p], item);
    hide EpfdsOk;
    hide FdsOk;
  }

  lemma RegisteredDel(items: map<nat, Item>, items': map<nat, Item>, byPair: map<Pair, nat>, p: Pair,
                      byEpfd: map<nat, seq<nat>>, byEpfd': map<nat, seq<nat>>, byFd: map<nat, seq<nat>>,
                      byFd': map<nat, seq<nat>>)
    requires IndexOk(items, byPair, byEpfd, byFd) && p in byPair
    requires items' == items || items' == items - {byPair[p]}
    requires Dropped(byEpfd, byEpfd', p.0, byPair[p]) && Dropped(byFd, byFd', p.1, byPair[p])
    ensures IndexOk(items', byPair - {p}, byEpfd', byFd')
    ensures Registered(items', byPair - {p}) == Registered(items, byPair) - {p}
  {
    hide EpfdsOk;
    hide FdsOk;
    hide Dropped;
    IndexDel(items, items', byPair, p, byEpfd, byEpfd', byFd, byFd');
  }

  lemma RegisteredKeys(items: map<nat, Item>, byPair: map<Pair, nat>, byEpfd: map<nat, seq<nat>>,
                       byFd: map<nat, seq<nat>>, p: Pair)
    requires IndexOk(items, byPair, byEpfd, byFd)
    ensures PairsOk(items, byPair)
    ensures p in Registered(items, byPair) <==> p in byPair
    ensures p in byPair ==> byPair[p] in items && items[byPair[p]].epfd == p.0 && items[byPair[p]].fd == p.1
    ensures p in byPair ==>
              Registered(items, byPair)[p] == (items[byPair[p]].fdType, items[byPair[p]].event, items[byPair[p]].revent)
  {
    hide EpfdsOk;
    hide FdsOk;
  }

  lemma PollsAt(epollidx: map<nat, nat>, vepolls: map<nat, Vepoll>, e: nat)
    requires PollsOk(epollidx, vepolls)
    ensures e in Polls(epollidx, vepolls) <==> e in epollidx
    ensures e in epollidx ==> epollidx[e] in vepolls && vepolls[epollidx[e]].epfd == e
    ensures e in epollidx ==>
              Polls(epollidx, vepolls)[e] == Poll(vepolls[epollidx[e]].count, vepolls[epollidx[e]].close)
  {
  }

  /** Changing the record of one instance. */
  lemma PollsSet(epollidx: map<nat, nat>, vepolls: map<nat, Vepoll>, e: nat, count: int, close: bool)
    requires PollsOk(epollidx, vepolls) && e in epollidx
    ensures epollidx[e] in vepolls && vepolls[epollidx[e]].epfd == e
    ensures e in Polls(epollidx, vepolls)
    ensures Polls(epollidx, vepolls)[e] == Poll(vepolls[epollidx[e]].count, vepolls[epollidx[e]].close)
    ensures var v := vepolls[epollidx[e] := vepolls[epollidx[e]].(count := count, close := close)];
      PollsOk(epollidx, v) && Polls(epollidx, v) == Polls(epollidx, vepolls)[e := Poll(count, close)]
  {
  }

  lemma PollsDel(epollidx: map<nat, nat>, vepolls: map<nat, Vepoll>, e: nat)
    requires PollsOk(epollidx, vepolls) && e in epollidx
    ensures PollsOk(epollidx - {e}, vepolls - {epollidx[e]})
    ensures Polls(epollidx - {e}, vepolls - {epollidx[e]}) == Polls(epollidx, vepolls) - {e}
  {
  }

  lemma PollsNew(epollidx: map<nat, nat>, vepolls: map<nat, Vepoll>, e: nat, i: nat, v: Vepoll)
    requires PollsOk(epollidx, vepolls) && e !in epollidx && i !in vepolls && v.epfd == e
    ensures PollsOk(epollidx[e := i], vepolls[i := v])
    ensures Polls(epollidx[e := i], vepolls[i := v]) == Polls(epollidx, vepolls)[e := Poll(v.count, v.close)]
  {
  }

  /** The registrations of sockets, as opposed to nested epoll instances. */
  function SocketPairs(items: map<nat, Item>, byPair: map<Pair, nat>): set<Pair> {
    set p | p in byPair && byPair[p] in items && items[byPair[p]].fdType == SocketFd
  }

  /** The sockets among fds that are registered in the instance e. */
  lemma MembersClosed(items: map<nat, Item>, byPair: map<Pair, nat>, e: nat, fds: seq<nat>)
    ensures var regs := Registered(items, byPair);
      Closes(SocketPairs(items, byPair), e, fds) ==
        |set fd | fd in fds && (e, fd) in regs && regs[(e, fd)].0 == SocketFd|
  {
    var regs, pairs := Registered(items, byPair), SocketPairs(items, byPair);
    var closed := set fd | fd in fds && (e, fd) in regs && regs[(e, fd)].0 == SocketFd;
    forall fd ensures fd in closed <==> fd in Members(pairs, e) * Elements(fds) {
      assert fd in Members(pairs, e) <==> (e, fd) in pairs;
    }
    assert closed == Members(pairs, e) * Elements(fds);
  }

  /** The instances of the first k items of a list that are sockets. */
  function SocketEpfds(items: map<nat, Item>, v: seq<nat>, k: nat): set<nat>
    requires k <= |v|
  {
    set i | i in v[..k] && i in items && items[i].fdType == SocketFd :: items[i].epfd
  }

  lemma SocketEpfdsMore(items: map<nat, Item>, v: seq<nat>, k: nat)
    requires k < |v| && v[k] in items
    ensures SocketEpfds(items, v, k + 1) ==
            SocketEpfds(items, v, k) + if items[v[k]].fdType == SocketFd then {items[v[k]].epfd} else {}
  {
    assert v[..k + 1] == v[..k] + [v[k]];
  }

  /** The list of an fd visits every instance it is in, each once. */
  lemma FdList(items: map<nat, Item>, byPair: map<Pair, nat>, byEpfd: map<nat, seq<nat>>, byFd: map<nat, seq<nat>>,
               fd: nat)
    requires IndexOk(items, byPair, byEpfd, byFd)
    ensures fd !in byFd ==> EpfdsOf(SocketPairs(items, byPair), fd) == {}
    ensures fd in byFd ==> EpfdsOf(SocketPairs(items, byPair), fd) == SocketEpfds(items, byFd[fd], |byFd[fd]|)
    ensures fd in byFd ==> forall i :: i in byFd[fd] ==> i in items && items[i].fd == fd
    ensures fd in byFd ==>
              forall k :: 0 <= k < |byFd[fd]| ==>
                  byFd[fd][k] in items && items[byFd[fd][k]].epfd !in SocketEpfds(items, byFd[fd], k)
  {
    hide EpfdsOk;
    if fd in byFd {
      var v := byFd[fd];
      assert ListsFd(v, items, byPair, fd);
      assert v[..|v|] == v;
      forall e | e in EpfdsOf(SocketPairs(items, byPair), fd) ensures e in SocketEpfds(items, v, |v|) {
        assert Live(items, byPair, byPair[(e, fd)]);
      }
      forall i | i in v ensures i in items {
        assert Live(items, byPair, i);
      }
      forall k | 0 <= k < |v| ensures v[k] in items && items[v[k]].epfd !in SocketEpfds(items, v, k) {
        assert v[k] in v && Live(items, byPair, v[k]);
        forall i | i in v[..k] ensures i in items && items[i].epfd != items[v[k]].epfd {
          assert i in v && Live(items, byPair, i);
        }
      }
    }
  }

  lemma AfterCloseMore(polls: map<nat, Poll>, es: set<nat>, e: nat)
    requires e !in es
    ensures var p := AfterClose(polls, es);
      AfterClose(polls, es + {e}) ==
        if e in p && p[e].close then (if p[e].count == 1 then p - {e} else p[e := p[e].(count := p[e].count - 1)])
        else p
  {
  }

  lemma AfterCloseNone(polls: map<nat, Poll>)
    ensures AfterClose(polls, {}) == polls
  {
  }

  // ---------- the code ----------

  ghost predicate SocksOk(sockidx: map<nat, nat>, vsockets: map<nat, Vsock>) {
    forall fd :: fd in sockidx ==> sockidx[fd] in vsockets && vsockets[sockidx[fd]].fd == fd
  }

  /** The position of an element of a list. */
  method VecSearch(v: seq<nat>, x: nat) returns (k: nat)
    requires x in v
    ensures k < |v| && v[k] == x
  {
    k := 0;
    while v[k] != x
      invariant k < |v| && x !in v[..k]
      decreases |v| - k
    {
      assert v == v[..k] + [v[k]] + v[k + 1..];
      k := k + 1;
    }
  }

  class VcomSocketMain {
    var vsockets: map<nat, Vsock>
    var sockidxByFd: map<nat, nat>
    var vepolls: map<nat, Vepoll>
    var epollidxByEpfd: map<nat, nat>
    var vepitems: map<nat, Item>
    var epitemidxByPair: map<Pair, nat>
    var epitemidxsByEpfd: map<nat, seq<nat>>
    var epitemidxsByFd: map<nat, seq<nat>>

    ghost predicate Valid()
      reads this
    {
      && IndexOk(vepitems, epitemidxByPair, epitemidxsByEpfd, epitemidxsByFd)
      && PollsOk(epollidxByEpfd, vepolls)
      && SocksOk(sockidxByFd, vsockets)
    }

    ghost function Instances(): map<nat, Poll>
      requires PollsOk(epollidxByEpfd, vepolls)
      reads this
    {
      Polls(epollidxByEpfd, vepolls)
    }

    ghost function Registrations(): Registry
      reads this
    {
      Registered(vepitems, epitemidxByPair)
    }

    /** vcom_socket_main_init. */
    constructor ()
      ensures Valid() && sockidxByFd == map[]
      ensures Instances() == map[]
      ensures Registrations() == map[]
      ensures Counted(Instances(), Registrations().Keys)
    {
      vsockets, sockidxByFd := map[], map[];
      vepolls, epollidxByEpfd := map[], map[];
      vepitems, epitemidxByPair, epitemidxsByEpfd, epitemidxsByFd := map[], map[], map[], map[];
      new;
      hide Counted;
      hide Polls;
      hide Registered;
      NoPolls();
      NothingRegistered();
      NothingCounted(Instances(), Registrations());
    }

    /** Removes index i from one of the two list indexes. */
    method DropFrom(lists: map<nat, seq<nat>>, x: nat, i: nat) returns (lists': map<nat, seq<nat>>)
      requires x in lists && i in lists[x]
      ensures Dropped(lists, lists', x, i)
    {
      var k := VecSearch(lists[x], i);
      var v := Del1(lists[x], k);
      if |v| == 0 {
        lists' := lists - {x};
      } else {
        lists' := lists[x := v];
      }
    }

    /** EPOLL_CTL_ADD in vcom_socket_ctl_vepitem. */
    method AddItem(epfd: nat, fd: nat, event: nat, fdType: FdType, vepollIdx: nat) returns (rv: int)
      requires Valid() && epfd in epollidxByEpfd && epollidxByEpfd[epfd] == vepollIdx
      modifies `vepitems, `epitemidxByPair, `epitemidxsByEpfd, `epitemidxsByFd, `vepolls
      ensures Valid()
      ensures rv == (if (epfd, fd) in old(Registrations()) then -17 else 0)
      ensures Registrations() == if rv == 0 then old(Registrations())[(epfd, fd) := (fdType, event, 0)]
                                 else old(Registrations())
      ensures var polls := old(Instances());
        Instances() == if rv != 0 then polls else polls[epfd := polls[epfd].(count := polls[epfd].count + 1)]
    {
      hide IndexOk;
      hide PollsOk;
      hide Registered;
      hide Polls;
      hide Appended;
      var p := (epfd, fd);
      RegisteredKeys(vepitems, epitemidxByPair, epitemidxsByEpfd, epitemidxsByFd, p);
      if p in epitemidxByPair {
        return EEXIST;
      }
      var i := PoolGet(vepitems.Keys);
      var item := Item(epfd, fd, fdType, event, 0);
      RegisteredAdd(vepitems, epitemidxByPair, epitemidxsByEpfd, epitemidxsByFd, i, item);
      PollsAt(epollidxByEpfd, vepolls, epfd);
      PollsSet(epollidxByEpfd, vepolls, epfd, vepolls[vepollIdx].count + 1, vepolls[vepollIdx].close);
      vepitems := vepitems[i := item];
      epitemidxByPair := epitemidxByPair[p := i];
      epitemidxsByEpfd := Appended(epitemidxsByEpfd, epfd, i);
      epitemidxsByFd := Appended(epitemidxsByFd, fd, i);
      vepolls := vepolls[vepollIdx := vepolls[vepollIdx].(count := vepolls[vepollIdx].count + 1)];
      rv := 0;
    }

    /** EPOLL_CTL_MOD. */
    method ModItem(epfd: nat, fd: nat, event: nat) returns (rv: int)
      requires Valid()
      modifies `vepitems
      ensures Valid()
      ensures rv == (if (epfd, fd) in old(Registrations()) then 0 else -2)
      ensures Registrations() ==
              var regs, p := old(Registrations()), (epfd, fd);
              if rv == 0 then regs[p := (regs[p].0, event, 0)] else regs
    {
      hide IndexOk;
      hide Registered;
      var p := (epfd, fd);
      RegisteredKeys(vepitems, epitemidxByPair, epitemidxsByEpfd, epitemidxsByFd, p);
      if p !in epitemidxByPair {
        return ENOENT;
      }
      var i := epitemidxByPair[p];
      var item := vepitems[i].(event := event, revent := 0);
      RegisteredSet(vepitems, epitemidxByPair, epitemidxsByEpfd, epitemidxsByFd, p, item);
      vepitems := vepitems[i := item];
      rv := 0;
    }

    /** EPOLL_CTL_DEL: the lookups after the first cannot fail. */
    method DelItem(epfd: nat, fd: nat, vepollIdx: nat, free: bool) returns (rv: int)
      requires Valid() && epfd in epollidxByEpfd && epollidxByEpfd[epfd] == vepollIdx
      modifies `vepitems, `epitemidxByPair, `epitemidxsByEpfd, `epitemidxsByFd, `vepolls
      ensures Valid()
      ensures rv == (if (epfd, fd) in old(Registrations()) then 0 else -2)
      ensures Registrations() == if rv == 0 then old(Registrations()) - {(epfd, fd)} else old(Registrations())
      ensures var polls := old(Instances());
        Instances() == if rv != 0 then polls else polls[epfd := polls[epfd].(count := polls[epfd].count - 1)]
    {
      hide IndexOk;
      hide PollsOk;
      hide Registered;
      hide Polls;
      hide Dropped;
      var p := (epfd, fd);
      RegisteredKeys(vepitems, epitemidxByPair, epitemidxsByEpfd, epitemidxsByFd, p);
      if p !in epitemidxByPair {
        return ENOENT;
      }
      var i := epitemidxByPair[p];
      DelFinds(vepitems, epitemidxByPair, epitemidxsByEpfd, epitemidxsByFd, p);
      var byEpfd := DropFrom(epitemidxsByEpfd, epfd, i);
      var byFd := DropFrom(epitemidxsByFd, fd, i);
      var items := if free then vepitems - {i} else vepitems;
      RegisteredDel(vepitems, items, epitemidxByPair, p, epitemidxsByEpfd, byEpfd, epitemidxsByFd, byFd);
      PollsAt(epollidxByEpfd, vepolls, epfd);
      PollsSet(epollidxByEpfd, vepolls, epfd, vepolls[vepollIdx].count - 1, vepolls[vepollIdx].close);
      epitemidxByPair := epitemidxByPair - {p};
      epitemidxsByEpfd := byEpfd;
      epitemidxsByFd := byFd;
      vepitems := items;
      vepolls := vepolls[vepollIdx := vepolls[vepollIdx].(count := vepolls[vepollIdx].count - 1)];
      rv := 0;
    }

    /** vcom_socket_epoll_ctl; vppcomRv is the answer of vppcom_epoll_ctl. */
    method EpollCtl(epfd: nat, op: Op, fd: nat, event: nat, vppcomRv: int, free: bool) returns (rv: int)
      requires Valid()
      modifies `vepitems, `epitemidxByPair, `epitemidxsByEpfd, `epitemidxsByFd, `vepolls
      ensures Valid()
      ensures Counted(old(Instances()), old(Registrations()).Keys) ==> Counted(Instances(), Registrations().Keys)
      ensures rv < 0 ==> Registrations() == old(Registrations()) && Instances() == old(Instances())
      ensures epfd !in old(Instances()) || (fd !in sockidxByFd && fd !in old(Instances())) ==> rv == -9
      ensures epfd in old(Instances()) && (fd in sockidxByFd || fd in old(Instances())) ==>
        var polls, regs, p := old(Instances()), old(Registrations()), (epfd, fd);
        if vppcomRv < 0 then rv == vppcomRv
        else if op == OtherOp then rv == -22
        else if op == Add && p in regs then rv == -17
        else if op != Add && p !in regs then rv == -2
        else
          && rv == 0
          && (op == Add ==>
                && Registrations() == regs[p := (if fd in sockidxByFd then SocketFd else EpollFd, event, 0)]
                && Instances() == polls[epfd := Poll(polls[epfd].count + 1, polls[epfd].close)])
          && (op == Mod ==> Registrations() == regs[p := (regs[p].0, event, 0)] && Instances() == polls)
          && (op == Del ==>
                && Registrations() == regs - {p}
                && Instances() == polls[epfd := Poll(polls[epfd].count - 1, polls[epfd].close)])
    {
      hide IndexOk;
      hide PollsOk;
      hide SocksOk;
      hide Registered;
      hide Polls;
      hide Counted;
      ghost var polls, pairs := Instances(), Registrations().Keys;
      PollsAt(epollidxByEpfd, vepolls, epfd);
      PollsAt(epollidxByEpfd, vepolls, fd);
      if epfd !in epollidxByEpfd {
        return EBADF;
      }
      var vepollIdx := epollidxByEpfd[epfd];
      var fdType := EpollFd;
      if fd in sockidxByFd {
        fdType := SocketFd;
      } else if fd !in epollidxByEpfd {
        return EBADF;
      }
      if vppcomRv < 0 {
        return vppcomRv;
      }
      match op {
        case Add =>
          rv := AddItem(epfd, fd, event, fdType, vepollIdx);
          if rv == 0 && Counted(polls, pairs) {
            CountedAdd(polls, pairs, (epfd, fd));
            assert Registrations().Keys == pairs + {(epfd, fd)};
          }
        case Mod =>
          rv := ModItem(epfd, fd, event);
          assert Registrations().Keys == pairs;
        case Del =>
          rv := DelItem(epfd, fd, vepollIdx, free);
          if rv == 0 && Counted(polls, pairs) {
            CountedDel(polls, pairs, (epfd, fd));
            assert Registrations().Keys == pairs - {(epfd, fd)};
          }
        case OtherOp => rv := EINVAL;
      }
    }

    /** vcom_socket_epoll_create1, once the kernel and vppcom have given descriptors; an
        fd the kernel hands out is not in use. */
    method EpollCreate(epfd: nat, vepIdx: nat)
      requires Valid() && epfd !in epollidxByEpfd
      modifies `vepolls, `epollidxByEpfd
      ensures Valid() && Instances() == old(Instances())[epfd := Poll(0, false)]
      ensures Counted(old(Instances()), Registrations().Keys) ==> Counted(Instances(), Registrations().Keys)
    {
      hide IndexOk;
      hide PollsOk;
      hide SocksOk;
      hide Registered;
      hide Polls;
      hide Counted;
      var i := PoolGet(vepolls.Keys);
      PollsAt(epollidxByEpfd, vepolls, epfd);
      PollsNew(epollidxByEpfd, vepolls, epfd, i, Vepoll(epfd, vepIdx, 0, false));
      if Counted(Instances(), Registrations().Keys) {
        CountedCreate(Instances(), Registrations().Keys, epfd);
      }
      epollidxByEpfd := epollidxByEpfd[epfd := i];
      vepolls := vepolls[i := Vepoll(epfd, vepIdx, 0, false)];
    }

    /** vcom_socket_socket, once the kernel and vppcom have given a descriptor and a session. */
    method SocketCreate(fd: nat, sid: nat)
      requires Valid() && fd !in sockidxByFd
      modifies `vsockets, `sockidxByFd
      ensures Valid() && sockidxByFd.Keys == old(sockidxByFd).Keys + {fd}
    {
      hide IndexOk;
      hide PollsOk;
      var i := PoolGet(vsockets.Keys);
      sockidxByFd := sockidxByFd[fd := i];
      vsockets := vsockets[i := Vsock(fd, sid)];
    }

    /** vcom_socket_close_vepoll: an instance with members is only marked; libcRv is the
        answer of close(2). */
    method CloseVepoll(epfd: nat, libcRv: int) returns (rv: int)
      requires Valid()
      modifies `vepolls, `epollidxByEpfd
      ensures Valid()
      ensures Counted(old(Instances()), Registrations().Keys) ==> Counted(Instances(), Registrations().Keys)
      ensures epfd !in old(Instances()) ==> rv == -9 && Instances() == old(Instances())
      ensures epfd in old(Instances()) ==> var p := old(Instances())[epfd];
        if p.count == 0 then rv == libcRv && Instances() == old(Instances()) - {epfd}
        else if p.close then rv == -9 && Instances() == old(Instances())
        else rv == 0 && Instances() == old(Instances())[epfd := Poll(p.count, true)]
    {
      hide IndexOk;
      hide PollsOk;
      hide SocksOk;
      hide Registered;
      hide Polls;
      hide Counted;
      PollsAt(epollidxByEpfd, vepolls, epfd);
      if epfd !in epollidxByEpfd {
        return EBADF;
      }
      var i := epollidxByEpfd[epfd];
      ghost var polls, pairs := Instances(), Registrations().Keys;
      if vepolls[i].count != 0 {
        if vepolls[i].close {
          return EBADF;
        }
        PollsSet(epollidxByEpfd, vepolls, epfd, vepolls[i].count, true);
        CountedMark(polls, pairs, epfd);
        vepolls := vepolls[i := vepolls[i].(close := true)];
        return 0;
      }
      PollsDel(epollidxByEpfd, vepolls, epfd);
      if Counted(polls, pairs) {
        CountedRelease(polls, pairs, epfd);
      }
      epollidxByEpfd := epollidxByEpfd - {epfd};
      vepolls := vepolls - {i};
      rv := libcRv;
    }

    /** The body of the loop over the items of a closed socket. */
    method ReleaseMember(epfd: nat, libcRv: int)
      requires Valid()
      modifies `vepolls, `epollidxByEpfd
      ensures Valid()
      ensures var p := old(Instances());
        Instances() == if epfd in p && p[epfd].close
                       then (if p[epfd].count == 1 then p - {epfd} else p[epfd := p[epfd].(count := p[epfd].count - 1)])
                       else p
    {
      hide IndexOk;
      hide PollsOk;
      hide SocksOk;
      hide Polls;
      PollsAt(epollidxByEpfd, vepolls, epfd);
      if epfd in epollidxByEpfd {
        var i := epollidxByEpfd[epfd];
        if vepolls[i].close {
          ghost var polls := Instances();
          PollsSet(epollidxByEpfd, vepolls, epfd, vepolls[i].count - 1, true);
          if vepolls[i].count == 1 {
            vepolls := vepolls[i := vepolls[i].(count := 0)];
            var rv := CloseVepoll(epfd, libcRv);
            assert polls[epfd := Poll(0, true)] - {epfd} == polls - {epfd};
          } else {
            vepolls := vepolls[i := vepolls[i].(count := vepolls[i].count - 1)];
          }
        }
      }
    }

    /** The loop over the items of a closed socket. */
    method ReleaseMembers(fd: nat, libcRv: int)
      requires Valid()
      modifies `vepolls, `epollidxByEpfd
      ensures Valid()
      ensures Instances() == AfterClose(old(Instances()), EpfdsOf(SocketPairs(vepitems, epitemidxByPair), fd))
    {
      hide IndexOk;
      hide PollsOk;
      hide SocksOk;
      hide Polls;
      hide AfterClose;
      ghost var polls := Instances();
      FdList(vepitems, epitemidxByPair, epitemidxsByEpfd, epitemidxsByFd, fd);
      AfterCloseNone(polls);
      if fd in epitemidxsByFd {
        var v := epitemidxsByFd[fd];
        var k := 0;
        assert SocketEpfds(vepitems, v, 0) == {};
        while k < |v|
          invariant k <= |v| && Valid()
          invariant Instances() == AfterClose(polls, SocketEpfds(vepitems, v, k))
          modifies `vepolls, `epollidxByEpfd
        {
          assert v[k] in v;
          var item := vepitems[v[k]];
          SocketEpfdsMore(vepitems, v, k);
          if item.fd == fd && item.fdType == SocketFd {
            AfterCloseMore(polls, SocketEpfds(vepitems, v, k), item.epfd);
            ReleaseMember(item.epfd, libcRv);
          } else {
            assert SocketEpfds(vepitems, v, k + 1) == SocketEpfds(vepitems, v, k);
          }
          k := k + 1;
        }
      }
    }

    /** vcom_socket_close_vsock: the socket goes, its registrations stay, and the marked
        instances it is in lose a member. */
    method CloseVsock(fd: nat, libcRv: int) returns (rv: int)
      requires Valid()
      modifies `vsockets, `sockidxByFd, `vepolls, `epollidxByEpfd
      ensures Valid()
      ensures fd !in old(sockidxByFd) ==>
                rv == -9 && sockidxByFd == old(sockidxByFd) && Instances() == old(Instances())
      ensures fd in old(sockidxByFd) ==>
        && rv == libcRv && sockidxByFd == old(sockidxByFd) - {fd}
        && Instances() == AfterClose(old(Instances()), EpfdsOf(SocketPairs(vepitems, epitemidxByPair), fd))
      ensures EpfdsOf(SocketPairs(vepitems, epitemidxByPair), fd) == {} ==> Instances() == old(Instances())
    {
      hide IndexOk;
      hide PollsOk;
      hide Polls;
      hide AfterClose;
      if fd !in sockidxByFd {
        return EBADF;
      }
      vsockets := vsockets - {sockidxByFd[fd]};
      sockidxByFd := sockidxByFd - {fd};
      AfterCloseNone(Instances());
      ReleaseMembers(fd, libcRv);
      rv := libcRv;
    }

    /** A caller closes distinct open sockets one after the other, with no epoll_ctl in
        between: every instance that was marked for closing counts off those of its members
        and goes when nothing is left. */
    method CloseSockets(fds: seq<nat>, libcRv: int)
      requires Valid() && NoDup(fds) && Elements(fds) <= sockidxByFd.Keys
      modifies `vsockets, `sockidxByFd, `vepolls, `epollidxByEpfd
      ensures Valid() && sockidxByFd.Keys == old(sockidxByFd.Keys) - Elements(fds)
      ensures Instances() == CloseAll(old(Instances()), SocketPairs(vepitems, epitemidxByPair), fds)
      ensures var polls, regs := old(Instances()), Registrations();
        && (forall e :: e in polls && polls[e].close && polls[e].count >= 1 ==>
              KeptFor(Instances(), e,
                      polls[e].count - |set fd | fd in fds && (e, fd) in regs && regs[(e, fd)].0 == SocketFd|))
        && (forall e :: e in polls && !polls[e].close ==> e in Instances() && Instances()[e] == polls[e])
    {
      hide IndexOk;
      hide PollsOk;
      hide Polls;
      hide AfterClose;
      hide SocksOk;
      ghost var polls, pairs := Instances(), SocketPairs(vepitems, epitemidxByPair);
      ghost var socks := sockidxByFd.Keys;
      var k := 0;
      while k < |fds|
        invariant k <= |fds| && Valid()
        invariant sockidxByFd.Keys == socks - Elements(fds[..k])
        invariant Instances() == CloseAll(polls, pairs, fds[..k])
      {
        NextClosed(fds, k);
        assert fds[k] in Elements(fds);
        var rv := CloseVsock(fds[k], libcRv);
        k := k + 1;
      }
      assert fds[..k] == fds;
      forall e | e in polls && polls[e].close && polls[e].count >= 1
        ensures KeptFor(Instances(), e, polls[e].count - Closes(pairs, e, fds))
        ensures Closes(pairs, e, fds) ==
                |set fd | fd in fds && (e, fd) in Registrations() && Registrations()[(e, fd)].0 == SocketFd| {
        ReleasedByCount(polls, pairs, e, fds);
        MembersClosed(vepitems, epitemidxByPair, e, fds);
      }
      forall e | e in polls && !polls[e].close ensures e in Instances() && Instances()[e] == polls[e] {
        UnmarkedStays(polls, pairs, e, fds);
      }
    }

    /** vcom_socket_close. */
    method Close(fd: nat, libcRv: int) returns (rv: int)
      requires Valid()
      modifies `vsockets, `sockidxByFd, `vepolls, `epollidxByEpfd
      ensures Valid()
      ensures fd !in old(sockidxByFd) && fd !in old(epollidxByEpfd) ==> rv == -9 && Instances() == old(Instances())
      ensures sockidxByFd.Keys == old(sockidxByFd.Keys) - {fd}
      ensures fd in old(sockidxByFd) ==>
        && rv == libcRv
        && Instances() == AfterClose(old(Instances()), EpfdsOf(SocketPairs(vepitems, epitemidxByPair), fd))
      ensures fd !in old(sockidxByFd) && fd in old(Instances()) ==>
        var p := old(Instances())[fd];
        if p.count == 0 then rv == libcRv && Instances() == old(Instances()) - {fd}
        else if p.close then rv == -9 && Instances() == old(Instances())
        else rv == 0 && Instances() == old(Instances())[fd := Poll(p.count, true)]
      ensures Counted(old(Instances()), Registrations().Keys) &&
              (fd in old(sockidxByFd) ==> EpfdsOf(SocketPairs(vepitems, epitemidxByPair), fd) == {}) ==>
                Counted(Instances(), Registrations().Keys)
    {
      hide IndexOk;
      hide PollsOk;
      hide Polls;
      hide Counted;
      hide AfterClose;
      PollsAt(epollidxByEpfd, vepolls, fd);
      if fd in sockidxByFd {
        rv := CloseVsock(fd, libcRv);
      } else if fd in epollidxByEpfd {
        rv := CloseVepoll(fd, libcRv);
      } else {
        rv := EBADF;
      }
    }
  }

  lemma NextClosed(fds: seq<nat>, k: nat)
    requires k < |fds| && NoDup(fds)
    ensures fds[..k + 1] == fds[..k] + [fds[k]] && Elements(fds[..k + 1]) == Elements(fds[..k]) + {fds[k]}
    ensures fds[k] !in Elements(fds[..k])
  {
    assert fds[..k + 1] == fds[..k] + [fds[k]];
  }

  lemma CountedMark(polls: map<nat, Poll>, pairs: set<Pair>, e: nat)
    requires e in polls
    ensures Counted(polls, pairs) <==> Counted(polls[e := Poll(polls[e].count, true)], pairs)
  {
  }

  lemma IndexSet(items: map<nat, Item>, byPair: map<Pair, nat>, byEpfd: map<nat, seq<nat>>, byFd: map<nat, seq<nat>>,
                 i: nat, item: Item)
    requires IndexOk(items, byPair, byEpfd, byFd) && i in items
    requires item.epfd == items[i].epfd && item.fd == items[i].fd
    ensures IndexOk(items[i := item], byPair, byEpfd, byFd)
  {
    var items' := items[i := item];
    assert forall j :: Live(items', byPair, j) <==> Live(items, byPair, j);
    forall e | e in byEpfd ensures ListsEpfd(byEpfd[e], items', byPair, e) {
      assert ListsEpfd(byEpfd[e], items, byPair, e);
    }
    forall f | f in byFd ensures ListsFd(byFd[f], items', byPair, f) {
      assert ListsFd(byFd[f], items, byPair, f);
    }
  }
}
