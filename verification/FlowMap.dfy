/** The flow table as a finite map from signature to entry, and how many pool
    elements it uses. */
module FlowMap {
  import opened Vppinfra
  import opened Dlist
  import opened FlowState
  import opened FlowTimers

  /** A flow as its users see it: without the indexes. */
  datatype Entry = Entry(straight: nat, reverse: nat, expire: nat, lifetime: nat, info: Info)

  function Abs(f: Flow): Entry {
    Entry(f.straight, f.reverse, f.expire, f.lifetime, f.info)
  }

  ghost predicate UniqueSigs(flows: Flows) {
    forall fi, gi :: fi in flows && gi in flows && flows[fi].sig == flows[gi].sig ==> fi == gi
  }

  /** The finite map that the table stands for. */
  ghost function Table(flows: Flows): map<Signature, Entry>
    requires UniqueSigs(flows)
  {
    map fi | fi in flows :: flows[fi].sig := Abs(flows[fi])
  }

  lemma ChainPositions(flows: Flows, ht: map<nat, nat>, p: Pool, sh: Shape, hash: Signature -> nat, fi: nat)
    returns (h: nat, i: nat)
    requires ChainsOk(flows, ht, p, sh, hash, NIL) && fi in flows
    ensures h == flows[fi].htLineIndex && hash(flows[fi].sig) in ht && ht[hash(flows[fi].sig)] == h
    ensures h in sh.rings && Unshadowed(sh.rings[h], p, flows)
    ensures i < |sh.rings[h]| && sh.rings[h][i] in p && p[sh.rings[h][i]].value == fi
  {
    hide AllLinked;
    hide Unshadowed;
    assert OnChain(fi, flows[fi], ht, p, sh, hash);
    h := flows[fi].htLineIndex;
    assert Covers(sh.rings[h], sh.own, h);
    i :| 0 <= i < |sh.rings[h]| && sh.rings[h][i] == flows[fi].htIndex;
  }

  /** Two live flows never have the same signature. */
  lemma SignaturesUnique(flows: Flows, ht: map<nat, nat>, p: Pool, sh: Shape, hash: Signature -> nat)
    requires ChainsOk(flows, ht, p, sh, hash, NIL)
    ensures UniqueSigs(flows)
  {
    hide ChainsOk;
    forall fi, gi | fi in flows && gi in flows && flows[fi].sig == flows[gi].sig ensures fi == gi {
      var h, i := ChainPositions(flows, ht, p, sh, hash, fi);
      var h', j := ChainPositions(flows, ht, p, sh, hash, gi);
      MatchesSameLength(flows[fi].sig, flows[gi].sig);
    }
  }

  lemma TableAt(flows: Flows, fi: nat)
    requires UniqueSigs(flows) && fi in flows
    ensures flows[fi].sig in Table(flows) && Table(flows)[flows[fi].sig] == Abs(flows[fi])
  {
  }

  lemma TableFrom(flows: Flows, s: Signature) returns (fi: nat)
    requires UniqueSigs(flows) && s in Table(flows)
    ensures fi in flows && flows[fi].sig == s && Table(flows)[s] == Abs(flows[fi])
  {
    fi :| fi in flows && flows[fi].sig == s;
  }

  /** u is t with s set to e, checked flow by flow. */
  lemma TableUpdated(flows: Flows, flows': Flows, fi: nat, f: Flow)
    requires UniqueSigs(flows) && UniqueSigs(flows') && flows' == flows[fi := f]
    requires fi in flows ==> flows[fi].sig == f.sig
    ensures Table(flows') == Table(flows)[f.sig := Abs(f)]
  {
    hide Table;
    hide UniqueSigs;
    var t, u := Table(flows), Table(flows');
    TableAt(flows', fi);
    forall s | s in t ensures s in u && u[s] == t[f.sig := Abs(f)][s] {
      var gi := TableFrom(flows, s);
      TableAt(flows', gi);
    }
    forall s | s in u ensures s in t[f.sig := Abs(f)] {
      var gi := TableFrom(flows', s);
      if gi != fi {
        TableAt(flows, gi);
      }
    }
  }

  lemma TableAdd(flows: Flows, fi: nat, f: Flow)
    requires UniqueSigs(flows) && fi !in flows && UniqueSigs(flows[fi := f])
    ensures f.sig !in Table(flows)
    ensures Table(flows[fi := f]) == Table(flows)[f.sig := Abs(f)]
  {
    TableUpdated(flows, flows[fi := f], fi, f);
    var flows' := flows[fi := f];
    assert flows'[fi] == f;
    forall gi | gi in flows ensures flows[gi].sig != f.sig {
      assert flows'[gi] == flows[gi];
    }
  }

  lemma TableSet(flows: Flows, fi: nat, f: Flow)
    requires UniqueSigs(flows) && fi in flows && flows[fi].sig == f.sig
    ensures UniqueSigs(flows[fi := f])
    ensures f.sig in Table(flows)
    ensures Table(flows[fi := f]) == Table(flows)[f.sig := Abs(f)]
  {
    hide Table;
    TableAt(flows, fi);
    TableUpdated(flows, flows[fi := f], fi, f);
  }

  function SigsOf(flows: Flows, gone: set<nat>): set<Signature> {
    set fi | fi in gone && fi in flows :: flows[fi].sig
  }

  lemma TableRemove(flows: Flows, gone: set<nat>)
    requires UniqueSigs(flows)
    ensures UniqueSigs(flows - gone)
    ensures Table(flows - gone) == Table(flows) - SigsOf(flows, gone)
  {
    hide Table;
    var t, u := Table(flows), Table(flows - gone);
    forall s | s in t - SigsOf(flows, gone) ensures s in u && u[s] == t[s] {
      var fi := TableFrom(flows, s);
      TableAt(flows - gone, fi);
    }
    forall s | s in u ensures s in t - SigsOf(flows, gone) {
      var fi := TableFrom(flows - gone, s);
      TableAt(flows, fi);
    }
  }

  // ---------- counting pool elements ----------

  /** A function on a finite set has no more values than arguments, and as many
      when it is injective. */
  lemma {:induction false} ImageCard<T>(dom: set<nat>, a: map<nat, T>, img: set<T>)
    requires dom <= a.Keys
    requires forall y :: y in img ==> exists x :: x in dom && a[x] == y
    requires forall x :: x in dom ==> a[x] in img
    ensures |img| <= |dom|
    ensures (forall x, y :: x in dom && y in dom && a[x] == a[y] ==> x == y) ==> |img| == |dom|
  {
    if dom == {} {
      assert img == {};
    } else {
      var x :| x in dom;
      var rest := set z | z in dom && a[z] != a[x];
      ImageCard(rest, a, img - {a[x]});
      SubsetCard(rest, dom - {x});
      if forall x, y :: x in dom && y in dom && a[x] == a[y] ==> x == y {
        assert rest == dom - {x};
      }
    }
  }

  lemma {:induction false} DistinctCount(s: seq<nat>, elts: set<nat>)
    requires forall i, j :: 0 <= i < j < |s| ==> s[i] != s[j]
    requires forall x :: x in elts <==> x in s
    ensures |elts| == |s|
  {
    if s == [] {
      assert elts == {};
    } else {
      forall x ensures x in elts - {s[0]} <==> x in s[1..] {
      }
      DistinctCount(s[1..], elts - {s[0]});
    }
  }

  lemma PoolCount(p: Pool, sh: Shape)
    requires WellFormed(p, sh)
    ensures |p| == |sh.rings| + |sh.own|
  {
    hide AllLinked;
    assert p.Keys == sh.rings.Keys + sh.own.Keys;
    assert sh.rings.Keys !! sh.own.Keys;
    assert |p| == |p.Keys| && |sh.rings| == |sh.rings.Keys| && |sh.own| == |sh.own.Keys|;
  }

  /** The timers pool holds the 300 slot heads and one element per live flow. */
  lemma TimersCount(flows: Flows, p: Pool, sh: Shape, wheel: seq<nat>)
    requires TimersOk(flows, p, sh, wheel)
    ensures |p| == TIMER_MAX_LIFETIME + |flows|
  {
    PoolCount(p, sh);
    DistinctCount(wheel, sh.rings.Keys);
    TimerCount(flows, p, sh);
    assert |sh.rings| == |sh.rings.Keys|;
  }

  lemma TimerCount(flows: Flows, p: Pool, sh: Shape)
    requires Timed(flows, p, sh)
    ensures |sh.own| == |flows|
  {
    var index := map fi | fi in flows :: flows[fi].timerIndex;
    forall x | x in flows ensures index[x] in sh.own && p[index[x]].value == x {
      assert OnTimer(x, flows[x], p, sh);
    }
    forall e | e in sh.own ensures exists x :: x in flows.Keys && index[x] == e {
      assert TimerElt(e, p, flows);
      assert index[p[e].value] == e;
    }
    ImageCard(flows.Keys, index, sh.own.Keys);
    assert |sh.own| == |sh.own.Keys| && |flows| == |flows.Keys|;
  }

  /** The chain pool holds one head per hash value in use and one element per live flow. */
  lemma LinesCount(flows: Flows, ht: map<nat, nat>, p: Pool, sh: Shape, hash: Signature -> nat)
    requires ChainsOk(flows, ht, p, sh, hash, NIL)
    ensures |p| == |ht| + |flows|
    ensures |ht| <= |flows|
  {
    PoolCount(p, sh);
    ChainEltCount(flows, ht, p, sh, hash);
    HeadsCount(flows, ht, p, sh, hash);
  }

  lemma ChainEltCount(flows: Flows, ht: map<nat, nat>, p: Pool, sh: Shape, hash: Signature -> nat)
    requires Chained(flows, ht, p, sh, hash, NIL)
    ensures |sh.own| == |flows|
  {
    var index := map fi | fi in flows :: flows[fi].htIndex;
    forall x | x in flows ensures index[x] in sh.own && p[index[x]].value == x {
      assert OnChain(x, flows[x], ht, p, sh, hash);
    }
    forall e | e in sh.own ensures exists x :: x in flows.Keys && index[x] == e {
      assert ChainElt(e, p, flows);
      assert index[p[e].value] == e;
    }
    ImageCard(flows.Keys, index, sh.own.Keys);
    assert |sh.own| == |sh.own.Keys| && |flows| == |flows.Keys|;
  }

  lemma ChainFlow(flows: Flows, ht: map<nat, nat>, p: Pool, sh: Shape, hash: Signature -> nat, h: nat) returns (fi: nat)
    requires Owned(sh) && Chained(flows, ht, p, sh, hash, NIL) && h in sh.rings
    ensures fi in flows && flows[fi].sigHash in ht && ht[flows[fi].sigHash] == h
  {
    var e := sh.rings[h][0];
    assert e in sh.rings[h] && Covers(sh.rings[h], sh.own, h);
    assert ChainElt(e, p, flows);
    fi := p[e].value;
    assert OnChain(fi, flows[fi], ht, p, sh, hash);
  }

  lemma HeadsCount(flows: Flows, ht: map<nat, nat>, p: Pool, sh: Shape, hash: Signature -> nat)
    requires Owned(sh) && Chained(flows, ht, p, sh, hash, NIL)
    ensures |sh.rings| == |ht| <= |flows|
  {
    forall h | h in sh.rings ensures exists k :: k in ht.Keys && ht[k] == h {
      var fi := ChainFlow(flows, ht, p, sh, hash, h);
      assert ht[flows[fi].sigHash] == h;
    }
    ImageCard(ht.Keys, ht, sh.rings.Keys);
    var used := map fi | fi in flows :: flows[fi].sigHash;
    forall k | k in ht ensures exists fi :: fi in flows.Keys && used[fi] == k {
      var fi := ChainFlow(flows, ht, p, sh, hash, ht[k]);
      assert used[fi] == k;
    }
    forall fi | fi in flows ensures used[fi] in ht {
      assert OnChain(fi, flows[fi], ht, p, sh, hash);
    }
    ImageCard(flows.Keys, used, ht.Keys);
    assert |sh.rings| == |sh.rings.Keys| && |ht| == |ht.Keys| && |flows| == |flows.Keys|;
  }

  // ---------- what a packet does to the map ----------

  /** A packet as the node sees it after parsing. */
  datatype Packet = Ip(sig: Signature, isReverse: bool, swIfIndex: nat) | Other

  const U32: nat := 0x1_0000_0000

  /** The context fields of a zeroed flow. */
  function NoInfo(): Info {
    Info(0, seq(27, _ => 0 as bv8), 0)
  }

  function NewEntry(now: nat): Entry {
    Entry(0, 0, now + TIMER_DEFAULT_LIFETIME, TIMER_DEFAULT_LIFETIME, NoInfo())
  }

  /** The counters and the receiving interface, unless the flow is offloaded. */
  function Counted(e: Entry, pkt: Packet): Entry
    requires pkt.Ip?
  {
    var e1 := if pkt.isReverse then e.(reverse := (e.reverse + 1) % U32) else e.(straight := (e.straight + 1) % U32);
    if e1.info.offloaded != 0 then e1 else e1.(info := e1.info.(swIfIndex := pkt.swIfIndex))
  }

  /** A known signature is refreshed, an unknown one gets a default entry; then the
      packet is counted. Nothing else changes. */
  function Touch(t: map<Signature, Entry>, pkt: Packet, now: nat): map<Signature, Entry> {
    if pkt.Other? then t
    else
      var e := if pkt.sig in t then t[pkt.sig].(expire := now + t[pkt.sig].lifetime) else NewEntry(now);
      t[pkt.sig := Counted(e, pkt)]
  }

  function TouchAll(t: map<Signature, Entry>, packets: seq<Packet>, now: nat): map<Signature, Entry> {
    if packets == [] then t
    else Touch(TouchAll(t, packets[..|packets| - 1], now), packets[|packets| - 1], now)
  }

  // ---------- what a frame does to one key, in numbers ----------

  /** The packets with signature s that go in one direction. */
  function Going(packets: seq<Packet>, s: Signature, isReverse: bool): set<nat> {
    set i: nat | i < |packets| && packets[i].Ip? && packets[i].sig == s && packets[i].isReverse == isReverse
  }

  /** x is y with n added to it in 32 bits. */
  predicate AddedTo(x: nat, y: nat, n: nat) {
    x == if n == 0 then y else (y + n) % 0x1_0000_0000
  }

  /** i is the last packet with signature s. */
  predicate LastOf(packets: seq<Packet>, s: Signature, i: nat) {
    && i < |packets| && packets[i].Ip? && packets[i].sig == s
    && forall j :: i < j < |packets| ==> packets[j].Other? || packets[j].sig != s
  }

  /** e is the entry of a flow first seen in this frame, but for its counters and interface. */
  predicate FirstSeen(e: Entry, now: nat) {
    && e.expire == now + 60 && e.lifetime == 60 && e.info.offloaded == 0
    && |e.info.context| == 27 && forall i :: 0 <= i < 27 ==> e.info.context[i] == 0
  }

  /** The entry of s in t has become e by n packets forwards, r backwards and the last one
      of them on interface last. */
  ghost predicate EntryAfter(t: map<Signature, Entry>, s: Signature, e: Entry, n: nat, r: nat, last: nat, now: nat) {
    if s in t then
      && AddedTo(e.straight, t[s].straight, n) && AddedTo(e.reverse, t[s].reverse, r)
      && e.expire == now + t[s].lifetime && e.lifetime == t[s].lifetime
      && e.info.offloaded == t[s].info.offloaded && e.info.context == t[s].info.context
      && e.info.swIfIndex == (if t[s].info.offloaded != 0 then t[s].info.swIfIndex else last)
    else
      AddedTo(e.straight, 0, n) && AddedTo(e.reverse, 0, r) && e.info.swIfIndex == last && FirstSeen(e, now)
  }

  /** What the packets of a frame have done to the key s: its counters count the packets of
      each direction, its deadline is its lifetime away, and unless it is offloaded it has the
      interface of its last packet; without a packet nothing has happened to it. */
  ghost predicate FrameEntry(t: map<Signature, Entry>, t': map<Signature, Entry>, packets: seq<Packet>, s: Signature,
                             now: nat) {
    var n, r := |Going(packets, s, false)|, |Going(packets, s, true)|;
    if n + r == 0 then (s in t' <==> s in t) && (s in t ==> t'[s] == t[s])
    else s in t' && exists i: nat :: LastOf(packets, s, i) && EntryAfter(t, s, t'[s], n, r, packets[i].swIfIndex, now)
  }

  lemma AddedOnce(x: nat, y: nat, n: nat)
    requires AddedTo(x, y, n)
    ensures AddedTo((x + 1) % 0x1_0000_0000, y, n + 1)
  {
    if n > 0 {
      ModSuccessor(y + n);
    }
  }

  lemma ModSuccessor(x: nat)
    ensures (x % 0x1_0000_0000 + 1) % 0x1_0000_0000 == (x + 1) % 0x1_0000_0000
  {
  }

  lemma GoingMore(packets: seq<Packet>, s: Signature, isReverse: bool)
    requires packets != []
    ensures var last := packets[|packets| - 1];
            |Going(packets, s, isReverse)| == |Going(packets[..|packets| - 1], s, isReverse)| +
              if last.Ip? && last.sig == s && last.isReverse == isReverse then 1 else 0
  {
    var k := |packets| - 1;
    var more, less := Going(packets, s, isReverse), Going(packets[..k], s, isReverse);
    var pkt := packets[k];
    var added: set<nat> := if pkt.Ip? && pkt.sig == s && pkt.isReverse == isReverse then {k} else {};
    forall i: nat ensures i in more <==> i in less + added {
      assert i < k ==> packets[..k][i] == packets[i];
    }
    assert more == less + added && less !! added;
  }

  lemma TouchOther(t: map<Signature, Entry>, pkt: Packet, now: nat, s: Signature)
    ensures pkt.Other? || pkt.sig != s ==>
              (s in Touch(t, pkt, now) <==> s in t) && (s in t ==> Touch(t, pkt, now)[s] == t[s])
  {
  }

  /** One packet more of the key that it touches. */
  lemma EntryTouched(t: map<Signature, Entry>, t1: map<Signature, Entry>, pkt: Packet, n: nat, r: nat, last: nat,
                     now: nat)
    requires pkt.Ip? && (n + r > 0 ==> pkt.sig in t1 && EntryAfter(t, pkt.sig, t1[pkt.sig], n, r, last, now))
    requires n + r == 0 ==> (pkt.sig in t1 <==> pkt.sig in t) && (pkt.sig in t ==> t1[pkt.sig] == t[pkt.sig])
    ensures pkt.sig in Touch(t1, pkt, now)
    ensures EntryAfter(t, pkt.sig, Touch(t1, pkt, now)[pkt.sig], n + if pkt.isReverse then 0 else 1,
                       r + if pkt.isReverse then 1 else 0, pkt.swIfIndex, now)
  {
    hide AddedTo;
    var s, e := pkt.sig, Touch(t1, pkt, now)[pkt.sig];
    var y, z := if s in t then t[s].straight else 0, if s in t then t[s].reverse else 0;
    var x, w := if s in t1 then t1[s].straight else 0, if s in t1 then t1[s].reverse else 0;
    AddedNone(y);
    AddedNone(z);
    AddedOnce(x, y, n);
    AddedOnce(w, z, r);
    assert e == Counted(if s in t1 then t1[s].(expire := now + t1[s].lifetime) else NewEntry(now), pkt);
  }

  lemma AddedNone(y: nat)
    ensures AddedTo(y, y, 0)
  {
  }

  lemma LastOfMore(packets: seq<Packet>, s: Signature, i: nat)
    requires packets != [] && LastOf(packets[..|packets| - 1], s, i)
    ensures packets[..|packets| - 1][i] == packets[i]
    ensures var pkt := packets[|packets| - 1]; pkt.Other? || pkt.sig != s ==> LastOf(packets, s, i)
  {
    assert forall j :: 0 <= j < |packets| - 1 ==> packets[..|packets| - 1][j] == packets[j];
  }

  /** One packet more of the frame, seen at the key s. */
  lemma EntryStep(t: map<Signature, Entry>, t1: map<Signature, Entry>, packets: seq<Packet>, now: nat, s: Signature)
    requires packets != [] && FrameEntry(t, t1, packets[..|packets| - 1], s, now)
    ensures FrameEntry(t, Touch(t1, packets[|packets| - 1], now), packets, s, now)
  {
    hide Touch;
    hide EntryAfter;
    hide Going;
    var k := |packets| - 1;
    var rest, pkt := packets[..k], packets[k];
    GoingMore(packets, s, false);
    GoingMore(packets, s, true);
    var n, r := |Going(rest, s, false)|, |Going(rest, s, true)|;
    TouchOther(t1, pkt, now, s);
    var last := 0;
    if n + r > 0 {
      var i: nat :| LastOf(rest, s, i) && EntryAfter(t, s, t1[s], n, r, rest[i].swIfIndex, now);
      last := rest[i].swIfIndex;
      LastOfMore(packets, s, i);
    }
    if pkt.Ip? && pkt.sig == s {
      assert LastOf(packets, s, k);
      EntryTouched(t, t1, pkt, n, r, last, now);
    }
  }

  /** The meaning of TouchAll for every key of the table and of the frame. */
  lemma {:induction false} TouchAllEntry(t: map<Signature, Entry>, packets: seq<Packet>, now: nat, s: Signature)
    ensures FrameEntry(t, TouchAll(t, packets, now), packets, s, now)
  {
    if packets == [] {
      assert Going(packets, s, false) == {} == Going(packets, s, true);
    } else {
      hide FrameEntry;
      hide Touch;
      TouchAllEntry(t, packets[..|packets| - 1], now, s);
      EntryStep(t, TouchAll(t, packets[..|packets| - 1], now), packets, now, s);
    }
  }

  /** No two of the signatures are taken for each other by the search. */
  ghost predicate Separate(sigs: set<Signature>, hash: Signature -> nat) {
    forall a, b :: a in sigs && b in sigs && hash(a) == hash(b) && Matches(a, b) ==> a == b
  }

  function PacketSigs(packets: seq<Packet>): set<Signature> {
    set pkt | pkt in packets && pkt.Ip? :: pkt.sig
  }

  /** Some other signature in keys is taken for sig by the search. */
  ghost predicate Confused(keys: set<Signature>, hash: Signature -> nat, sig: Signature) {
    exists a :: a in keys && a != sig && hash(a) == hash(sig) && Matches(a, sig)
  }

  function Keys(flows: Flows): set<Signature> {
    set fi | fi in flows :: flows[fi].sig
  }

  ghost predicate HashesOk(flows: Flows, hash: Signature -> nat) {
    forall fi :: fi in flows ==> flows[fi].sigHash == hash(flows[fi].sig)
  }

  lemma TableKeys(flows: Flows)
    requires UniqueSigs(flows)
    ensures Table(flows).Keys == Keys(flows)
  {
  }

  /** A signature is aliased by the live flows just when one of their keys is confused with it. */
  lemma AliasedIsConfused(flows: Flows, hash: Signature -> nat, sig: Signature)
    requires HashesOk(flows, hash)
    ensures Aliased(flows, hash, sig) <==> Confused(Keys(flows), hash, sig)
  {
    hide Matches;
    if Confused(Keys(flows), hash, sig) {
      var a :| a in Keys(flows) && a != sig && hash(a) == hash(sig) && Matches(a, sig);
      var fi :| fi in flows && flows[fi].sig == a;
      assert Candidate(flows, hash, sig, fi);
    }
  }

  // ---------- flowtable_update ----------

  const KEEP_LIFETIME: nat := 0xFFFF

  function Updated(f: Flow, lifetime: nat, offloaded: nat, context: seq<bv8>): Flow {
    f.(lifetime := if lifetime != KEEP_LIFETIME then lifetime else f.lifetime,
       info := f.info.(offloaded := offloaded, context := context))
  }

  predicate SamePlaces(f: Flow, g: Flow) {
    && f.sig == g.sig && f.sigHash == g.sigHash && f.htLineIndex == g.htLineIndex && f.htIndex == g.htIndex
    && f.timerIndex == g.timerIndex
  }

  /** The update has changed the flow fi alone: 0xFFFF keeps its lifetime, and its counters,
      deadline and interface stay. */
  ghost predicate UpdatedAt(flows: Flows, flows': Flows, fi: nat, lifetime: nat, offloaded: nat, context: seq<bv8>) {
    && fi in flows && fi in flows' && flows' == flows[fi := flows'[fi]]
    && SamePlaces(flows[fi], flows'[fi])
    && flows'[fi].straight == flows[fi].straight && flows'[fi].reverse == flows[fi].reverse
    && flows'[fi].expire == flows[fi].expire
    && flows'[fi].lifetime == (if lifetime == 0xFFFF then flows[fi].lifetime else lifetime)
    && flows'[fi].info.offloaded == offloaded && flows'[fi].info.context == context
    && flows'[fi].info.swIfIndex == flows[fi].info.swIfIndex
  }

  lemma UpdatedSets(flows: Flows, fi: nat, lifetime: nat, offloaded: nat, context: seq<bv8>)
    requires fi in flows
    ensures UpdatedAt(flows, flows[fi := Updated(flows[fi], lifetime, offloaded, context)], fi, lifetime, offloaded,
                      context)
  {
  }

  /** The search for a signature comes out the same after an update. */
  lemma UpdatedSearch(flows: Flows, flows': Flows, hash: Signature -> nat, sig: Signature, fi: nat, lifetime: nat,
                      offloaded: nat, context: seq<bv8>)
    requires UpdatedAt(flows, flows', fi, lifetime, offloaded, context)
    ensures Hit(flows', hash, sig) <==> Hit(flows, hash, sig)
    ensures Aliased(flows', hash, sig) <==> Aliased(flows, hash, sig)
  {
    hide Matches;
    assert forall gi :: Candidate(flows', hash, sig, gi) <==> Candidate(flows, hash, sig, gi);
    assert forall gi :: gi in flows ==> flows'[gi].sig == flows[gi].sig;
  }

  ghost predicate Present(flows: Flows, sig: Signature) {
    exists fi :: fi in flows && flows[fi].sig == sig
  }

  /** What flowtable_update is for: the flow with the signature is updated, or -1 when there
      is none. */
  ghost predicate UpdatePromise(flows: Flows, flows': Flows, sig: Signature,
                                lifetime: nat, offloaded: nat, context: seq<bv8>, rv: int, touched: nat) {
    if Present(flows, sig) then
      && rv == 0 && touched in flows && flows[touched].sig == sig
      && UpdatedAt(flows, flows', touched, lifetime, offloaded, context)
    else
      rv == -1 && flows' == flows
  }

  /** What flowtable_update does instead when its search ends at another flow of the chain:
      that one is updated and success reported. */
  ghost predicate WrongUpdate(flows: Flows, flows': Flows, hash: Signature -> nat, sig: Signature,
                              lifetime: nat, offloaded: nat, context: seq<bv8>, rv: int, touched: nat) {
    && rv == 0
    && touched in flows && flows[touched].sigHash == hash(sig) && flows[touched].sig != sig
    && UpdatedAt(flows, flows', touched, lifetime, offloaded, context)
  }

  /** A flow with the signature is one that the search would take. */
  lemma PresentIsHit(flows: Flows, hash: Signature -> nat, sig: Signature)
    requires HashesOk(flows, hash)
    ensures Present(flows, sig) ==> Hit(flows, hash, sig)
    ensures Hit(flows, hash, sig) && !Aliased(flows, hash, sig) ==> Present(flows, sig)
  {
    MatchesSameLength(sig, sig);
    if fi :| fi in flows && flows[fi].sig == sig {
      assert Candidate(flows, hash, sig, fi);
    }
  }

  /** The promise met for a flow that the search takes. */
  lemma UpdatedPresent(flows: Flows, flows': Flows, hash: Signature -> nat, sig: Signature, lifetime: nat,
                       offloaded: nat, context: seq<bv8>, rv: int, touched: nat)
    requires HashesOk(flows, hash) && Hit(flows, hash, sig) && !Aliased(flows, hash, sig)
    requires UpdatePromise(flows, flows', sig, lifetime, offloaded, context, rv, touched)
    ensures rv == 0 && UpdatedAt(flows, flows', touched, lifetime, offloaded, context) && flows[touched].sig == sig
    ensures Hit(flows', hash, sig) && !Aliased(flows', hash, sig)
  {
    hide Hit;
    hide Aliased;
    PresentIsHit(flows, hash, sig);
    hide HashesOk;
    UpdatedSearch(flows, flows', hash, sig, touched, lifetime, offloaded, context);
  }

  /** Which of the two happens when the search ends at the flow fi. */
  lemma UpdateFound(flows: Flows, flows': Flows, hash: Signature -> nat, sig: Signature,
                    lifetime: nat, offloaded: nat, context: seq<bv8>, fi: nat)
    requires HashesOk(flows, hash) && fi in flows && flows[fi].sigHash == hash(sig)
    requires flows[fi].sig == sig <==> Hit(flows, hash, sig) && !Aliased(flows, hash, sig)
    requires flows' == flows[fi := Updated(flows[fi], lifetime, offloaded, context)]
    ensures UpdatePromise(flows, flows', sig, lifetime, offloaded, context, 0, fi) <==>
            Hit(flows, hash, sig) && !Aliased(flows, hash, sig)
    ensures Aliased(flows, hash, sig) || !Hit(flows, hash, sig) ==>
              WrongUpdate(flows, flows', hash, sig, lifetime, offloaded, context, 0, fi)
  {
    hide Hit;
    hide Aliased;
    UpdatedSets(flows, fi, lifetime, offloaded, context);
    hide Updated;
    hide UpdatedAt;
    hide HashesOk;
    PresentIsHit(flows, hash, sig);
  }

  lemma UpdateNone(flows: Flows, hash: Signature -> nat, sig: Signature,
                   lifetime: nat, offloaded: nat, context: seq<bv8>, touched: nat)
    requires HashesOk(flows, hash) && !Hit(flows, hash, sig)
    ensures UpdatePromise(flows, flows, sig, lifetime, offloaded, context, -1, touched)
    ensures !Aliased(flows, hash, sig)
  {
    PresentIsHit(flows, hash, sig);
  }

  // ---------- a frame ----------

  lemma HashesStored(flows: Flows, ht: map<nat, nat>, p: Pool, sh: Shape, hash: Signature -> nat)
    requires ChainsOk(flows, ht, p, sh, hash, NIL)
    ensures forall fi :: fi in flows ==> flows[fi].sigHash == hash(flows[fi].sig)
  {
    hide WellFormed;
    hide AllUnshadowed;
    forall fi | fi in flows ensures flows[fi].sigHash == hash(flows[fi].sig) {
      assert OnChain(fi, flows[fi], ht, p, sh, hash);
    }
  }

  /** The flow of a packet after the lookup, before it is counted. */
  function Seen(f: Flow, created: bool, now: nat): Flow {
    if created then f else f.(expire := now + f.lifetime)
  }

  function CountedFlow(f: Flow, pkt: Packet): Flow
    requires pkt.Ip?
  {
    var f1 := if pkt.isReverse then f.(reverse := (f.reverse + 1) % U32) else f.(straight := (f.straight + 1) % U32);
    if f1.info.offloaded != 0 then f1 else f1.(info := f1.info.(swIfIndex := pkt.swIfIndex))
  }

  /** Lookup, refresh and counting together are Touch on the map. */
  lemma TouchTable(flows0: Flows, flows1: Flows, flows2: Flows, pkt: Packet, now: nat, fi: nat, created: bool)
    requires pkt.Ip? && UniqueSigs(flows0) && UniqueSigs(flows1) && fi in flows1 && flows1[fi].sig == pkt.sig
    requires created <==> !(exists gi :: gi in flows0 && flows0[gi].sig == pkt.sig)
    requires !created ==> flows1 == flows0
    requires created ==> fi !in flows0 && flows1 == flows0[fi := flows1[fi]] && Abs(flows1[fi]) == NewEntry(now)
    requires flows2 == flows1[fi := CountedFlow(Seen(flows1[fi], created, now), pkt)]
    ensures UniqueSigs(flows2) && Table(flows2) == Touch(Table(flows0), pkt, now)
  {
    hide Table;
    hide UniqueSigs;
    var f := flows1[fi];
    TableAt(flows1, fi);
    TableSet(flows1, fi, CountedFlow(Seen(f, created, now), pkt));
    if created {
      TableAdd(flows0, fi, f);
    }
  }

  /** Between the two states one packet was handled: it touched its key exactly when no flow
      of the other address family is taken for it, and it made a key exactly when the search
      found nothing. */
  ghost predicate TouchedBy(flows: Flows, flows': Flows, hash: Signature -> nat, pkt: Packet, now: nat)
    requires pkt.Ip?
  {
    && UniqueSigs(flows) && UniqueSigs(flows')
    && (Table(flows') == Touch(Table(flows), pkt, now) <==> !Aliased(flows, hash, pkt.sig))
    && (Hit(flows, hash, pkt.sig) ==> Keys(flows') == Keys(flows))
    && (!Hit(flows, hash, pkt.sig) ==> pkt.sig !in Keys(flows) && Keys(flows') == Keys(flows) + {pkt.sig})
  }

  /** The flow returned by the lookup: it is the one with that very signature exactly
      when no flow of the other address family is taken for it; it is created exactly
      when the search has no candidate, and then nothing else changes. */
  ghost predicate LookedUp(flows: Flows, flows': Flows, hash: Signature -> nat, sig: Signature, now: nat, fi: nat,
                           created: bool) {
    && fi in flows'
    && (created <==> !Hit(flows, hash, sig))
    && (!created ==> flows' == flows && Candidate(flows, hash, sig, fi))
    && (created ==> fi !in flows && flows' == flows[fi := flows'[fi]] && Abs(flows'[fi]) == NewEntry(now))
    && (flows'[fi].sig == sig <==> !Aliased(flows, hash, sig))
  }

  lemma TouchAt(t: map<Signature, Entry>, pkt: Packet, now: nat)
    requires pkt.Ip?
    ensures pkt.sig in Touch(t, pkt, now)
    ensures pkt.sig in t ==> Touch(t, pkt, now)[pkt.sig] != t[pkt.sig]
  {
  }

  /** When the lookup takes another flow for the packet's, the map is not touched as meant:
      the packet's own key is missing, or has not been counted. */
  lemma PacketAliased(flows0: Flows, flows2: Flows, pkt: Packet, now: nat, fi: nat, g: Flow)
    requires pkt.Ip? && UniqueSigs(flows0) && UniqueSigs(flows2)
    requires fi in flows0 && flows0[fi].sig != pkt.sig && flows2 == flows0[fi := g] && g.sig == flows0[fi].sig
    ensures Table(flows2) != Touch(Table(flows0), pkt, now)
  {
    var t := Table(flows0);
    TouchAt(t, pkt, now);
    if gi :| gi in flows0 && flows0[gi].sig == pkt.sig {
      TableAt(flows0, gi);
      TableAt(flows2, gi);
    } else {
      assert pkt.sig !in Table(flows2);
    }
  }

  /** One packet is one touch of its key exactly when its signature is not aliased. */
  lemma PacketExact(flows0: Flows, flows1: Flows, flows2: Flows, hash: Signature -> nat, pkt: Packet, now: nat,
                    fi: nat, created: bool)
    requires pkt.Ip? && UniqueSigs(flows0) && UniqueSigs(flows1) && UniqueSigs(flows2)
    requires forall gi :: gi in flows0 ==> flows0[gi].sigHash == hash(flows0[gi].sig)
    requires LookedUp(flows0, flows1, hash, pkt.sig, now, fi, created)
    requires flows2 == flows1[fi := CountedFlow(Seen(flows1[fi], created, now), pkt)]
    ensures Table(flows2) == Touch(Table(flows0), pkt, now) <==> !Aliased(flows0, hash, pkt.sig)
  {
    hide Table;
    hide UniqueSigs;
    hide Touch;
    MatchesSameLength(pkt.sig, pkt.sig);
    hide Matches;
    if Aliased(flows0, hash, pkt.sig) {
      assert !created;
      PacketAliased(flows0, flows2, pkt, now, fi, flows2[fi]);
    } else {
      assert forall gi :: gi in flows0 && flows0[gi].sig == pkt.sig ==> Candidate(flows0, hash, pkt.sig, gi);
      TouchTable(flows0, flows1, flows2, pkt, now, fi, created);
    }
  }

  lemma KeysAdd(flows: Flows, flows': Flows, fi: nat)
    requires fi !in flows && fi in flows' && flows' == flows[fi := flows'[fi]]
    ensures Keys(flows') == Keys(flows) + {flows'[fi].sig} && |flows'| == |flows| + 1
  {
    assert flows'.Keys == flows.Keys + {fi};
    assert |flows'.Keys| == |flows'| && |flows.Keys| == |flows|;
    forall gi | gi in flows ensures flows'[gi] == flows[gi] {
    }
  }

  lemma KeysSet(flows: Flows, fi: nat, f: Flow)
    requires fi in flows && f.sig == flows[fi].sig
    ensures Keys(flows[fi := f]) == Keys(flows) && |flows[fi := f]| == |flows|
  {
    var flows' := flows[fi := f];
    assert flows'.Keys == flows.Keys;
    assert |flows'.Keys| == |flows'| && |flows.Keys| == |flows|;
    assert forall gi :: gi in flows ==> flows'[gi].sig == flows[gi].sig;
  }

  lemma PacketKeys(flows0: Flows, flows1: Flows, flows2: Flows, hash: Signature -> nat, pkt: Packet, now: nat,
                   fi: nat, created: bool)
    requires pkt.Ip? && HashesOk(flows0, hash)
    requires LookedUp(flows0, flows1, hash, pkt.sig, now, fi, created)
    requires flows2 == flows1[fi := CountedFlow(Seen(flows1[fi], created, now), pkt)]
    ensures !created ==> Keys(flows2) == Keys(flows0)
    ensures created ==> pkt.sig !in Keys(flows0) && Keys(flows2) == Keys(flows0) + {pkt.sig}
    ensures |flows2| == |flows0| + if created then 1 else 0
  {
    KeysSet(flows1, fi, CountedFlow(Seen(flows1[fi], created, now), pkt));
    PresentIsHit(flows0, hash, pkt.sig);
    hide Matches;
    hide CountedFlow;
    if created {
      assert flows1[fi].sig == pkt.sig;
      KeysAdd(flows0, flows1, fi);
    }
  }

  /** The packet has been counted on the flow fi of flows', and nothing else has changed. */
  ghost predicate PacketOn(flows: Flows, flows': Flows, pkt: Packet, now: nat, fi: nat)
    requires pkt.Ip?
  {
    && fi in flows' && flows' == flows[fi := flows'[fi]]
    && var n, r := if pkt.isReverse then 0 else 1, if pkt.isReverse then 1 else 0;
       if fi in flows then
         && SamePlaces(flows[fi], flows'[fi])
         && AddedTo(flows'[fi].straight, flows[fi].straight, n) && AddedTo(flows'[fi].reverse, flows[fi].reverse, r)
         && flows'[fi].expire == now + flows[fi].lifetime && flows'[fi].lifetime == flows[fi].lifetime
         && flows'[fi].info.offloaded == flows[fi].info.offloaded && flows'[fi].info.context == flows[fi].info.context
         && flows'[fi].info.swIfIndex == (if flows[fi].info.offloaded != 0 then flows[fi].info.swIfIndex
                                          else pkt.swIfIndex)
       else
         && flows'[fi].sig == pkt.sig && flows'[fi].straight == n && flows'[fi].reverse == r
         && flows'[fi].info.swIfIndex == pkt.swIfIndex && FirstSeen(Abs(flows'[fi]), now)
  }

  /** A packet is counted on the only flow with its signature. */
  lemma SameFlow(flows: Flows, flows': Flows, pkt: Packet, now: nat, fi: nat, gi: nat)
    requires pkt.Ip? && PacketOn(flows, flows', pkt, now, fi) && UniqueSigs(flows') && flows'[fi].sig == pkt.sig
    requires gi in flows && flows[gi].sig == pkt.sig
    ensures fi == gi
  {
    assert gi in flows';
  }

  lemma PacketCounted(flows0: Flows, flows1: Flows, flows2: Flows, hash: Signature -> nat, pkt: Packet, now: nat,
                      fi: nat, created: bool)
    requires pkt.Ip? && LookedUp(flows0, flows1, hash, pkt.sig, now, fi, created)
    requires flows2 == flows1[fi := CountedFlow(Seen(flows1[fi], created, now), pkt)]
    ensures PacketOn(flows0, flows2, pkt, now, fi)
    ensures flows2[fi].sig == pkt.sig <==> !Aliased(flows0, hash, pkt.sig)
  {
    hide Matches;
    assert flows2 == flows0[fi := flows2[fi]];
    if created {
      assert flows1[fi].straight == 0 == flows1[fi].reverse && flows1[fi].info == NoInfo();
      assert FirstSeen(Abs(flows2[fi]), now);
    }
  }

  /** The entry of a flow in the map is made of its own fields. */
  lemma TableFields(flows: Flows, fi: nat)
    requires UniqueSigs(flows) && fi in flows
    ensures flows[fi].sig in Table(flows)
    ensures Table(flows)[flows[fi].sig].straight == flows[fi].straight
    ensures Table(flows)[flows[fi].sig].reverse == flows[fi].reverse
    ensures Table(flows)[flows[fi].sig].expire == flows[fi].expire
    ensures Table(flows)[flows[fi].sig].lifetime == flows[fi].lifetime
    ensures Table(flows)[flows[fi].sig].info == flows[fi].info
  {
    TableAt(flows, fi);
    hide Table;
  }

  lemma PacketHandled(flows0: Flows, flows1: Flows, flows2: Flows, hash: Signature -> nat, pkt: Packet, now: nat,
                      fi: nat, created: bool)
    requires pkt.Ip? && UniqueSigs(flows0) && UniqueSigs(flows1) && UniqueSigs(flows2) && HashesOk(flows0, hash)
    requires LookedUp(flows0, flows1, hash, pkt.sig, now, fi, created)
    requires flows2 == flows1[fi := CountedFlow(Seen(flows1[fi], created, now), pkt)]
    ensures TouchedBy(flows0, flows2, hash, pkt, now)
    ensures |flows2| == |flows0| + if Hit(flows0, hash, pkt.sig) then 0 else 1
  {
    hide Table;
    hide UniqueSigs;
    hide Touch;
    hide Aliased;
    hide Keys;
    hide CountedFlow;
    PacketExact(flows0, flows1, flows2, hash, pkt, now, fi, created);
    PacketKeys(flows0, flows1, flows2, hash, pkt, now, fi, created);
  }

  // ---------- the packets of a frame ----------

  /** ts are the maps before, between and after the packets: each packet touches its key
      exactly when no key that is there is confused with it. */
  ghost predicate Touches(ts: seq<map<Signature, Entry>>, hash: Signature -> nat, packets: seq<Packet>, now: nat) {
    && |ts| == |packets| + 1
    && forall i :: 0 <= i < |packets| ==>
         if packets[i].Ip? then ts[i + 1] == Touch(ts[i], packets[i], now) <==>
             !Confused(ts[i].Keys, hash, packets[i].sig)
         else ts[i + 1] == ts[i]
  }

  /** No packet is confused with a key of the table or of an earlier packet. */
  ghost predicate Clear(keys: set<Signature>, hash: Signature -> nat, packets: seq<Packet>) {
    forall i :: 0 <= i < |packets| && packets[i].Ip? ==>
      !Confused(keys + PacketSigs(packets[..i]), hash, packets[i].sig)
  }

  /** Every packet has done to the map what is meant. */
  ghost predicate AsMeant(ts: seq<map<Signature, Entry>>, packets: seq<Packet>, now: nat)
    requires |ts| == |packets| + 1
  {
    forall i :: 0 <= i <= |packets| ==> ts[i] == TouchAll(ts[0], packets[..i], now)
  }

  lemma {:induction false} TouchAllKeys(t: map<Signature, Entry>, packets: seq<Packet>, now: nat)
    ensures TouchAll(t, packets, now).Keys == t.Keys + PacketSigs(packets)
  {
    if packets != [] {
      var rest, last := packets[..|packets| - 1], packets[|packets| - 1];
      TouchAllKeys(t, rest, now);
      assert packets == rest + [last];
    }
  }

  lemma TouchAllStep(t: map<Signature, Entry>, packets: seq<Packet>, i: nat, now: nat)
    requires i < |packets|
    ensures TouchAll(t, packets[..i + 1], now) == Touch(TouchAll(t, packets[..i], now), packets[i], now)
  {
    var done := packets[..i + 1];
    assert done[..|done| - 1] == packets[..i] && done[|done| - 1] == packets[i];
  }

  /** The packets of a frame do to the map what is meant, each of them, exactly when none is
      confused with a key of the old table or of an earlier packet. */
  lemma FrameExact(ts: seq<map<Signature, Entry>>, hash: Signature -> nat, packets: seq<Packet>, now: nat)
    requires Touches(ts, hash, packets, now)
    ensures AsMeant(ts, packets, now) <==> Clear(ts[0].Keys, hash, packets)
  {
    hide Confused;
    hide Touch;
    hide PacketSigs;
    assert packets[..0] == [];
    if AsMeant(ts, packets, now) {
      forall i | 0 <= i < |packets| && packets[i].Ip?
        ensures !Confused(ts[0].Keys + PacketSigs(packets[..i]), hash, packets[i].sig) {
        TouchAllKeys(ts[0], packets[..i], now);
        TouchAllStep(ts[0], packets, i, now);
      }
    }
    if Clear(ts[0].Keys, hash, packets) {
      FrameMeant(ts, hash, packets, now, |packets|);
    }
  }

  lemma {:induction false} FrameMeant(ts: seq<map<Signature, Entry>>, hash: Signature -> nat, packets: seq<Packet>,
                                      now: nat, n: nat)
    requires Touches(ts, hash, packets, now) && Clear(ts[0].Keys, hash, packets) && n <= |packets|
    ensures forall i :: 0 <= i <= n ==> ts[i] == TouchAll(ts[0], packets[..i], now)
  {
    hide Confused;
    hide PacketSigs;
    if n == 0 {
      assert packets[..0] == [];
    } else {
      FrameMeant(ts, hash, packets, now, n - 1);
      TouchAllKeys(ts[0], packets[..n - 1], now);
      TouchAllStep(ts[0], packets, n - 1, now);
    }
  }

  /** In particular when all signatures in play are never taken for each other. */
  lemma SeparateIsClear(sigs: set<Signature>, keys: set<Signature>, hash: Signature -> nat, packets: seq<Packet>)
    requires Separate(sigs, hash) && keys <= sigs && PacketSigs(packets) <= sigs
    ensures Clear(keys, hash, packets)
  {
    hide Matches;
    forall i | 0 <= i < |packets| && packets[i].Ip?
      ensures !Confused(keys + PacketSigs(packets[..i]), hash, packets[i].sig) {
      assert packets[i] in packets && packets[i].sig in PacketSigs(packets);
      assert forall pkt :: pkt in packets[..i] ==> pkt in packets;
    }
  }

  /** The first i packets of the frame have been handled. */
  ghost predicate FrameSoFar(flows0: Flows, flows: Flows, hash: Signature -> nat, packets: seq<Packet>, i: nat,
                             now: nat, ts: seq<map<Signature, Entry>>)
    requires i <= |packets|
  {
    && UniqueSigs(flows0) && UniqueSigs(flows)
    && Touches(ts, hash, packets[..i], now) && ts[0] == Table(flows0) && ts[i] == Table(flows)
  }

  lemma FrameStart(flows: Flows, hash: Signature -> nat, packets: seq<Packet>, now: nat)
    requires UniqueSigs(flows)
    ensures FrameSoFar(flows, flows, hash, packets, 0, now, [Table(flows)])
  {
    hide Table;
    hide UniqueSigs;
  }

  lemma FrameStep(flows0: Flows, flows: Flows, flows': Flows, hash: Signature -> nat, packets: seq<Packet>, i: nat,
                  now: nat, ts: seq<map<Signature, Entry>>)
    requires i < |packets| && FrameSoFar(flows0, flows, hash, packets, i, now, ts) && HashesOk(flows, hash)
    requires if packets[i].Ip? then TouchedBy(flows, flows', hash, packets[i], now) else flows' == flows
    ensures UniqueSigs(flows')
    ensures FrameSoFar(flows0, flows', hash, packets, i + 1, now, ts + [Table(flows')])
  {
    assert |ts| == i + 1;
    hide Touches;
    hide UniqueSigs;
    hide Confused;
    hide Aliased;
    hide Hit;
    hide Keys;
    hide Touch;
    hide Table;
    if packets[i].Ip? {
      AliasedIsConfused(flows, hash, packets[i].sig);
      TableKeys(flows);
    }
    TouchesMore(ts, hash, packets, i, now, Table(flows'));
  }

  lemma TouchesMore(ts: seq<map<Signature, Entry>>, hash: Signature -> nat, packets: seq<Packet>, i: nat, now: nat,
                    t: map<Signature, Entry>)
    requires i < |packets| && Touches(ts, hash, packets[..i], now)
    requires if packets[i].Ip? then t == Touch(ts[i], packets[i], now) <==> !Confused(ts[i].Keys, hash, packets[i].sig)
             else t == ts[i]
    ensures Touches(ts + [t], hash, packets[..i + 1], now)
  {
    hide Confused;
    hide Touch;
    var done, done', ts' := packets[..i], packets[..i + 1], ts + [t];
    forall j | 0 <= j < |done'|
      ensures if done'[j].Ip? then ts'[j + 1] == Touch(ts'[j], done'[j], now) <==>
                !Confused(ts'[j].Keys, hash, done'[j].sig)
              else ts'[j + 1] == ts'[j] {
      assert j < i ==> done'[j] == done[j];
    }
  }

  /** How many keys the packets from i on may still make. */
  function NewKeys(keys: set<Signature>, packets: seq<Packet>, i: nat): set<Signature>
    requires i <= |packets|
  {
    PacketSigs(packets[i..]) - keys
  }

  lemma NewKeysStep(keys: set<Signature>, packets: seq<Packet>, i: nat)
    requires i < |packets|
    ensures |NewKeys(keys, packets, i + 1)| <= |NewKeys(keys, packets, i)|
    ensures packets[i].Ip? && packets[i].sig !in keys ==>
              |NewKeys(keys + {packets[i].sig}, packets, i + 1)| + 1 <= |NewKeys(keys, packets, i)|
  {
    var all, rest := NewKeys(keys, packets, i), NewKeys(keys, packets, i + 1);
    assert packets[i..] == [packets[i]] + packets[i + 1..];
    SubsetCard(rest, all);
    if packets[i].Ip? && packets[i].sig !in keys {
      var sig := packets[i].sig;
      assert sig in all;
      SubsetCard(NewKeys(keys + {sig}, packets, i + 1), all - {sig});
    }
  }

  /** The table can take every flow that the packets from i on may add. */
  ghost predicate HasRoom(cpt: nat, keys: set<Signature>, packets: seq<Packet>, i: nat)
    requires i <= |packets|
  {
    NewKeys(keys, packets, i) == {} || cpt + |NewKeys(keys, packets, i)| <= 0x10_0001
  }

  lemma RoomForOne(flows: Flows, hash: Signature -> nat, cpt: nat, packets: seq<Packet>, i: nat)
    requires i < |packets| && HasRoom(cpt, Keys(flows), packets, i) && packets[i].Ip? && HashesOk(flows, hash)
    ensures Hit(flows, hash, packets[i].sig) || cpt <= FM_POOL_COUNT
  {
    var sig := packets[i].sig;
    PresentIsHit(flows, hash, sig);
    if !Present(flows, sig) {
      NewKeysStep(Keys(flows), packets, i);
      assert sig !in Keys(flows);
    }
  }

  lemma RoomStep(flows: Flows, flows': Flows, hash: Signature -> nat, cpt: nat, cpt': nat, packets: seq<Packet>, i: nat,
                 now: nat)
    requires i < |packets| && HasRoom(cpt, Keys(flows), packets, i)
    requires if packets[i].Ip?
             then TouchedBy(flows, flows', hash, packets[i], now)
                  && cpt' == cpt + if Hit(flows, hash, packets[i].sig) then 0 else 1
             else flows' == flows && cpt' == cpt
    ensures HasRoom(cpt', Keys(flows'), packets, i + 1)
  {
    NewKeysStep(Keys(flows), packets, i);
    hide NewKeys;
    hide Keys;
    hide Hit;
    hide Table;
    hide UniqueSigs;
  }

  /** The end of a frame on the map: t has lost exactly gone, nothing before its deadline
      and at most 256; and with an up-to-date wheel either nothing overdue is left or
      exactly 256 went, those with the earliest deadlines. */
  ghost predicate FrameDone(t: map<Signature, Entry>, t': map<Signature, Entry>, gone: set<Signature>, now: nat,
                            prompt: bool) {
    && gone <= t.Keys && t' == t - gone && |gone| <= 256
    && (forall s :: s in gone ==> t[s].expire <= now)
    && (prompt ==> |gone| == 256 || forall s :: s in t' ==> t'[s].expire > now)
    && (prompt ==> forall g, s :: g in gone && s in t' ==> t[g].expire <= t'[s].expire)
  }

  ghost predicate Expired(flows: Flows, flows': Flows, gone: set<nat>, now: nat, prompt: bool) {
    && gone <= flows.Keys && flows' == flows - gone && |gone| <= 256
    && (forall fi :: fi in gone ==> flows[fi].expire <= now)
    && (prompt ==> |gone| == 256 || forall fi :: fi in flows' ==> flows'[fi].expire > now)
    && (prompt ==> forall g, fi :: g in gone && fi in flows' ==> flows[g].expire <= flows'[fi].expire)
  }

  /** The expiry loop so far. */
  ghost predicate Expiring(flows: Flows, flows': Flows, gone: set<nat>, now: nat, prompt: bool) {
    && gone <= flows.Keys && flows' == flows - gone && |gone| <= 256
    && (forall fi :: fi in gone ==> flows[fi].expire <= now)
    && (prompt ==> forall g, fi :: g in gone && fi in flows' ==> flows[g].expire <= flows'[fi].expire)
  }

  lemma ExpiringNone(flows: Flows, now: nat, prompt: bool)
    ensures Expiring(flows, flows, {}, now, prompt)
  {
  }

  lemma ExpiringMore(flows0: Flows, flows: Flows, flows': Flows, gone: set<nat>, fi: nat, now: nat, prompt: bool)
    requires Expiring(flows0, flows, gone, now, prompt) && |gone| < 256
    requires fi in flows && flows' == flows - {fi} && flows[fi].expire <= now
    requires prompt ==> forall gi :: gi in flows' ==> flows[fi].expire <= flows'[gi].expire
    ensures Expiring(flows0, flows', gone + {fi}, now, prompt) && |gone + {fi}| == |gone| + 1
  {
    assert flows' == flows0 - (gone + {fi});
  }

  lemma ExpiringDone(flows: Flows, flows': Flows, gone: set<nat>, now: nat, prompt: bool)
    requires Expiring(flows, flows', gone, now, prompt)
    requires prompt && |gone| < 256 ==> forall fi :: fi in flows' ==> flows'[fi].expire > now
    ensures Expired(flows, flows', gone, now, prompt)
  {
  }

  lemma SigsCount(flows: Flows, gone: set<nat>)
    requires UniqueSigs(flows) && gone <= flows.Keys
    ensures |SigsOf(flows, gone)| == |gone|
  {
    var sig := map fi | fi in flows :: flows[fi].sig;
    forall s | s in SigsOf(flows, gone) ensures exists fi :: fi in gone && sig[fi] == s {
      var fi :| fi in gone && fi in flows && flows[fi].sig == s;
      assert sig[fi] == s;
    }
    ImageCard(gone, sig, SigsOf(flows, gone));
  }

  lemma ExpiredTable(flows: Flows, flows': Flows, gone: set<nat>, now: nat, prompt: bool)
    requires UniqueSigs(flows) && Expired(flows, flows', gone, now, prompt)
    ensures UniqueSigs(flows')
    ensures FrameDone(Table(flows), Table(flows'), SigsOf(flows, gone), now, prompt)
  {
    hide Table;
    hide UniqueSigs;
    TableRemove(flows, gone);
    var t, t', sigs := Table(flows), Table(flows'), SigsOf(flows, gone);
    SigsCount(flows, gone);
    forall s | s in sigs ensures s in t && exists fi :: fi in gone && t[s].expire == flows[fi].expire {
      var fi :| fi in gone && fi in flows && flows[fi].sig == s;
      TableAt(flows, fi);
    }
    forall s | s in t' ensures exists fi :: fi in flows' && t'[s].expire == flows'[fi].expire {
      var fi := TableFrom(flows', s);
    }
  }

  /** A whole frame: the packets one by one, then the removals. */
  ghost predicate FrameRun(ts: seq<map<Signature, Entry>>, t': map<Signature, Entry>, hash: Signature -> nat,
                           packets: seq<Packet>, gone: set<Signature>, now: nat, prompt: bool) {
    && Touches(ts, hash, packets, now)
    && (AsMeant(ts, packets, now) <==> Clear(ts[0].Keys, hash, packets))
    && (Clear(ts[0].Keys, hash, packets) ==> forall s :: FrameEntry(ts[0], ts[|packets|], packets, s, now))
    && FrameDone(ts[|packets|], t', gone, now, prompt)
  }

  /** A frame clear of confusion, in numbers. */
  lemma FrameCounts(ts: seq<map<Signature, Entry>>, packets: seq<Packet>, now: nat)
    requires |ts| == |packets| + 1 && AsMeant(ts, packets, now)
    ensures forall s :: FrameEntry(ts[0], ts[|packets|], packets, s, now)
  {
    hide FrameEntry;
    assert packets[..|packets|] == packets;
    forall s ensures FrameEntry(ts[0], ts[|packets|], packets, s, now) {
      TouchAllEntry(ts[0], packets, now, s);
    }
  }

  lemma FrameEnd(flows0: Flows, flows: Flows, flows': Flows, hash: Signature -> nat, packets: seq<Packet>, now: nat,
                 ts: seq<map<Signature, Entry>>, gone: set<nat>, upToDate: bool, prompt: bool)
    requires FrameSoFar(flows0, flows, hash, packets, |packets|, now, ts)
    requires Expired(flows, flows', gone, now, upToDate) && (prompt ==> upToDate)
    ensures UniqueSigs(flows0) && UniqueSigs(flows')
    ensures ts != [] && ts[0] == Table(flows0)
    ensures FrameRun(ts, Table(flows'), hash, packets, SigsOf(flows, gone), now, prompt)
    ensures |SigsOf(flows, gone)| == |gone|
  {
    hide Table;
    hide UniqueSigs;
    assert |ts| == |packets[..|packets|]| + 1;
    hide Touches;
    assert Expired(flows, flows', gone, now, prompt);
    assert packets[..|packets|] == packets;
    SigsCount(flows, gone);
    ExpiredTable(flows, flows', gone, now, prompt);
    FrameExact(ts, hash, packets, now);
    hide Expired;
    hide FrameDone;
    hide FrameEntry;
    hide Clear;
    if AsMeant(ts, packets, now) {
      FrameCounts(ts, packets, now);
    }
    hide AsMeant;
  }
}
