/** hash_signature itself: which signatures share a chain, and which are taken for each
    other. The flow table is proved for any hash; this one shows its exceptions occur. */
module FlowHash {
  import opened FlowState
  import opened FlowMap
  import FlowTable

  /** n bytes from position i, the first one lowest. */
  function Load(s: seq<bv8>, i: nat, n: nat): bv64
    requires i + n <= |s|
    decreases n
  {
    if n == 0 then 0 else (s[i] as bv64) | (Load(s, i + 1, n - 1) << 8)
  }

  function Xor(a: bv64, b: bv64): bv64 {
    a ^ b
  }

  /** The hash of an IPv4 signature: addresses, protocol and ports. */
  function Hash4(s: seq<bv8>): bv64
    requires |s| == IP4_SIG_LEN
  {
    Xor(Xor(Xor(Xor(Load(s, 0, 4), Load(s, 4, 4)), Load(s, 8, 1)), Load(s, 9, 2)), Load(s, 11, 2))
  }

  /** The hash of an IPv6 signature: the addresses, and the bytes where an IPv4 signature
      has its ports, which here belong to the source address. */
  function Hash6(s: seq<bv8>): bv64
    requires |s| == IP6_SIG_LEN
  {
    Xor(Xor(Xor(Xor(Xor(Load(s, 16, 8), Load(s, 24, 8)), Load(s, 0, 8)), Load(s, 8, 8)), Load(s, 9, 2)), Load(s, 11, 2))
  }

  function HashSignature(s: Signature): nat {
    if |s| == IP4_SIG_LEN then Hash4(s) as nat else Hash6(s) as nat
  }

  lemma {:induction false} LoadSame(s: seq<bv8>, t: seq<bv8>, i: nat, n: nat)
    requires i + n <= |s| && i + n <= |t| && forall k :: i <= k < i + n ==> s[k] == t[k]
    ensures Load(s, i, n) == Load(t, i, n)
    decreases n
  {
    if n > 0 {
      LoadSame(s, t, i + 1, n - 1);
    }
  }

  lemma Loads(s: seq<bv8>, i: nat)
    ensures i + 1 <= |s| ==> Load(s, i, 1) == s[i] as bv64
    ensures i + 2 <= |s| ==> Load(s, i, 2) == (s[i] as bv64) | ((s[i + 1] as bv64) << 8)
    ensures i + 4 <= |s| ==>
              Load(s, i, 4) == (s[i] as bv64) | (((s[i + 1] as bv64) | (((s[i + 2] as bv64) |
                                 ((s[i + 3] as bv64) << 8)) << 8)) << 8)
  {
  }

  function Shifted(b: bv8, rest: bv64): bv64 {
    (b as bv64) | (rest << 8)
  }

  lemma Loads8(s: seq<bv8>, i: nat)
    requires i + 8 <= |s|
    ensures Load(s, i, 8) ==
            Shifted(s[i], Shifted(s[i + 1], Shifted(s[i + 2], Shifted(s[i + 3],
              Shifted(s[i + 4], Shifted(s[i + 5], Shifted(s[i + 6], Shifted(s[i + 7], 0))))))))
  {
    hide Shifted;
    LoadNext(s, i, 8);
    LoadNext(s, i + 1, 7);
    LoadNext(s, i + 2, 6);
    LoadNext(s, i + 3, 5);
    LoadNext(s, i + 4, 4);
    LoadNext(s, i + 5, 3);
    LoadNext(s, i + 6, 2);
    LoadNext(s, i + 7, 1);
    hide Load;
  }

  lemma LoadNext(s: seq<bv8>, i: nat, n: nat)
    requires n > 0 && i + n <= |s|
    ensures Load(s, i, n) == Shifted(s[i], if n == 1 then 0 else Load(s, i + 1, n - 1))
  {
  }

  const TCP_4: Signature := [1, 0, 0, 0, 2, 0, 0, 0, 6, 0, 80, 0x1f, 0x90]

  const SOME_6: Signature := seq(37, i => if i == 0 then 1 else if i == 9 then 3 else if i == 12 then 4
                                        else if i == 16 then 5 else if i == 31 then 0x20 else 0)

  lemma Words4()
    ensures Load(TCP_4, 0, 4) == 1 && Load(TCP_4, 4, 4) == 2 && Load(TCP_4, 8, 1) == 6
    ensures Load(TCP_4, 9, 2) == 0x5000 && Load(TCP_4, 11, 2) == 0x901F
  {
    Loads(TCP_4, 0);
    Loads(TCP_4, 4);
    Loads(TCP_4, 8);
    Loads(TCP_4, 9);
    Loads(TCP_4, 11);
    hide Load;
  }

  /** The hash of TCP from 1.0.0.0 port 80 to 2.0.0.0 port 8080. */
  lemma HashOfTcp4()
    ensures HashSignature(TCP_4) == 0xC01A
  {
    Words4();
    hide Load;
  }

  /** The hash of an IPv6 signature. */
  lemma HashOfSome6()
    ensures HashSignature(SOME_6) == 0x2000_0004_0000_0707
  {
    SourceWords();
    DestinationWords();
    OverlaidPorts();
    hide Load;
  }

  lemma SourceWords()
    ensures Load(SOME_6, 0, 8) == 1 && Load(SOME_6, 8, 8) == 0x4_0000_0300
  {
    hide Load;
    Word(SOME_6, 0, 1, 0, 0, 0);
    Word(SOME_6, 8, 0, 3, 4, 0);
    ShiftedZeros();
    hide Shifted;
  }

  lemma DestinationWords()
    ensures Load(SOME_6, 16, 8) == 5 && Load(SOME_6, 24, 8) == 0x2000_0000_0000_0000
  {
    hide Load;
    Word(SOME_6, 16, 5, 0, 0, 0);
    Word(SOME_6, 24, 0, 0, 0, 0x20);
    ShiftedZeros();
    hide Shifted;
  }

  lemma OverlaidPorts()
    ensures Load(SOME_6, 9, 2) == 3 && Load(SOME_6, 11, 2) == 0x400
  {
    hide Load;
    Loads(SOME_6, 9);
    Loads(SOME_6, 11);
  }

  lemma Word(s: seq<bv8>, i: nat, b0: bv8, b1: bv8, b4: bv8, b7: bv8)
    requires i + 8 <= |s| && s[i] == b0 && s[i + 1] == b1 && s[i + 2] == 0 && s[i + 3] == 0
    requires s[i + 4] == b4 && s[i + 5] == 0 && s[i + 6] == 0 && s[i + 7] == b7
    ensures Load(s, i, 8) ==
            Shifted(b0, Shifted(b1, Shifted(0, Shifted(0, Shifted(b4, Shifted(0, Shifted(0, Shifted(b7, 0))))))))
  {
    Loads8(s, i);
    hide Load;
    hide Shifted;
  }

  lemma ShiftedZeros()
    ensures Shifted(0, 0) == 0 && Shifted(1, 0) == 1 && Shifted(5, 0) == 5 && Shifted(4, 0) == 4
    ensures Shifted(0, 4) == 0x400 && Shifted(0, 0x400) == 0x4_0000 && Shifted(3, 0x4_0000) == 0x400_0003
    ensures Shifted(0, 0x400_0003) == 0x4_0000_0300
    ensures Shifted(0x20, 0) == 0x20 && Shifted(0, 0x20) == 0x2000 && Shifted(0, 0x2000) == 0x20_0000
    ensures Shifted(0, 0x20_0000) == 0x2000_0000 && Shifted(0, 0x2000_0000) == 0x20_0000_0000
    ensures Shifted(0, 0x20_0000_0000) == 0x2000_0000_0000 && Shifted(0, 0x2000_0000_0000) == 0x20_0000_0000_0000
    ensures Shifted(0, 0x20_0000_0000_0000) == 0x2000_0000_0000_0000
  {
  }

  /** All flows between the same two IPv6 hosts share one chain, whatever their protocol
      and ports. */
  lemma PortsNotHashed(s: Signature, t: Signature)
    requires |s| == IP6_SIG_LEN == |t| && s[..32] == t[..32]
    ensures HashSignature(s) == HashSignature(t)
  {
    hide Load;
    hide Xor;
    assert forall k :: 0 <= k < 32 ==> s[k] == s[..32][k] && t[k] == t[..32][k];
    LoadSame(s, t, 16, 8);
    LoadSame(s, t, 24, 8);
    LoadSame(s, t, 0, 8);
    LoadSame(s, t, 8, 8);
    LoadSame(s, t, 9, 2);
    LoadSame(s, t, 11, 2);
  }

  /** So flowtable_update breaks its promise for every absent IPv6 flow between two hosts
      that already have a flow: its signature is not found, and its chain is not empty. */
  lemma SecondFlowNotFound(flows: Flows, sig: Signature)
    requires |sig| == IP6_SIG_LEN && forall fi :: fi in flows ==> |flows[fi].sig| == IP6_SIG_LEN && flows[fi].sig != sig
    requires exists fi ::
               fi in flows && flows[fi].sigHash == HashSignature(flows[fi].sig) && flows[fi].sig[..32] == sig[..32]
    ensures !Hit(flows, HashSignature, sig)
    ensures exists fi :: fi in flows && flows[fi].sigHash == HashSignature(sig)
  {
    var fi :| fi in flows && flows[fi].sigHash == HashSignature(flows[fi].sig) && flows[fi].sig[..32] == sig[..32];
    PortsNotHashed(flows[fi].sig, sig);
    forall gi | gi in flows ensures !Matches(flows[gi].sig, sig) {
      MatchesSameLength(flows[gi].sig, sig);
    }
  }

  lemma {:induction false} LoadZero(s: seq<bv8>, i: nat, n: nat)
    requires i + n <= |s| && forall k :: i <= k < i + n ==> s[k] == 0
    ensures Load(s, i, n) == 0
    decreases n
  {
    if n > 0 {
      LoadZero(s, i + 1, n - 1);
    }
  }

  /** Flows of one address family are never taken for each other, whatever the hash. */
  lemma OneFamilySeparate(sigs: set<Signature>, hash: Signature -> nat)
    requires forall a, b :: a in sigs && b in sigs ==> |a| == |b|
    ensures Separate(sigs, hash)
  {
    forall a, b | a in sigs && b in sigs && hash(a) == hash(b) && Matches(a, b) ensures a == b {
      MatchesSameLength(a, b);
    }
  }

  const NO_HOST_6: Signature := seq(IP6_SIG_LEN, i => if i == 32 then 6 else 0)
  const NO_HOST_4: Signature := seq(IP4_SIG_LEN, _ => 0)

  /** Across families they can be: a TCP flow between unspecified IPv6 addresses is taken
      for the all-zero IPv4 flow. */
  lemma FamiliesAlias()
    ensures HashSignature(NO_HOST_6) == HashSignature(NO_HOST_4)
    ensures Matches(NO_HOST_6, NO_HOST_4) && NO_HOST_6 != NO_HOST_4
    ensures !Separate({NO_HOST_6, NO_HOST_4}, HashSignature)
  {
    hide Load;
    LoadZero(NO_HOST_6, 16, 8);
    LoadZero(NO_HOST_6, 24, 8);
    LoadZero(NO_HOST_6, 0, 8);
    LoadZero(NO_HOST_6, 8, 8);
    LoadZero(NO_HOST_6, 9, 2);
    LoadZero(NO_HOST_6, 11, 2);
    LoadZero(NO_HOST_4, 0, 4);
    LoadZero(NO_HOST_4, 4, 4);
    LoadZero(NO_HOST_4, 8, 1);
    LoadZero(NO_HOST_4, 9, 2);
    LoadZero(NO_HOST_4, 11, 2);
    assert Stored(NO_HOST_6)[..13] == NO_HOST_4;
  }

  /** And so flowtable_update, asked for that IPv4 flow while only the IPv6 flow lives,
      changes the IPv6 flow instead of failing: its signature is aliased and absent. */
  lemma OtherFamilyUpdated(flows: Flows)
    requires exists fi :: fi in flows && flows[fi].sig == NO_HOST_6 && flows[fi].sigHash == HashSignature(NO_HOST_6)
    requires forall fi :: fi in flows ==> |flows[fi].sig| == IP6_SIG_LEN
    ensures Aliased(flows, HashSignature, NO_HOST_4) && !Present(flows, NO_HOST_4)
  {
    hide Matches;
    hide HashSignature;
    FamiliesAlias();
    var fi :| fi in flows && flows[fi].sig == NO_HOST_6 && flows[fi].sigHash == HashSignature(NO_HOST_6);
    assert Candidate(flows, HashSignature, NO_HOST_4, fi);
  }

  /** One flow is the whole table after the first packet of a new table. */
  lemma FirstPacket(flows: Flows, ts: seq<map<Signature, Entry>>, hash: Signature -> nat, pkt: Packet,
                    gone: set<Signature>)
    requires pkt.Ip? && UniqueSigs(flows) && ts != [] && ts[0] == map[]
    requires FrameRun(ts, Table(flows), hash, [pkt], gone, 0, true)
    ensures Keys(flows) == {pkt.sig}
  {
    hide FrameEntry;
    hide AsMeant;
    hide Clear;
    assert |ts| == 2;
    assert !Confused({}, hash, pkt.sig);
    assert ts[1] == Touch(ts[0], pkt, 0) && ts[1].Keys == {pkt.sig};
    assert ts[1][pkt.sig].expire > 0;
    assert gone == {};
    TableKeys(flows);
  }

  lemma OneRoom(keys: set<Signature>, pkt: Packet)
    requires pkt.Ip?
    ensures HasRoom(0, keys, [pkt], 0)
  {
    assert [pkt][0..] == [pkt];
    assert PacketSigs([pkt]) == {pkt.sig};
    assert NewKeys(keys, [pkt], 0) <= {pkt.sig};
    assert NewKeys(keys, [pkt], 0) == {} || NewKeys(keys, [pkt], 0) == {pkt.sig};
  }

  /** For any two different signatures with one hash: a new table sees one packet of the first,
      and an update for the second, which has no flow, changes the flow of the first and
      reports success. */
  method UpdateAfterOne(hash: Signature -> nat, sig: Signature, other: Signature,
                        lifetime: nat, offloaded: nat, context: seq<bv8>)
    returns (table: FlowTable.FlowTable, rv: int, ghost touched: nat)
    requires sig != other && hash(sig) == hash(other)
    requires lifetime == 0xFFFF || lifetime < 300
    ensures fresh(table) && table.Valid() && table.hash == hash && rv == 0
    ensures Keys(table.flows) == {sig}
    ensures touched in table.flows && table.flows[touched].sig == sig
    ensures table.flows[touched].info.offloaded == offloaded && table.flows[touched].info.context == context
    ensures lifetime != 0xFFFF ==> table.flows[touched].lifetime == lifetime
  {
    hide FlowTable.FlowTable.Valid;
    hide UpdatePromise;
    hide UpdatedAt;
    hide HashesOk;
    hide UniqueSigs;
    hide Keys;
    hide Hit;
    hide Aliased;
    table := TableOfOne(hash, sig);
    table.Unique();
    NotUpdated(table, sig, other);
    ghost var flows := table.flows;
    rv, touched := table.Update(other, lifetime, offloaded, context);
    UpdatedIs(flows, table.flows, sig, lifetime, offloaded, context, touched);
  }

  lemma UpdatedIs(flows: Flows, flows': Flows, sig: Signature, lifetime: nat, offloaded: nat, context: seq<bv8>,
                  fi: nat)
    requires Keys(flows) == {sig} && fi in flows
    requires UpdatedAt(flows, flows', fi, lifetime, offloaded, context)
    ensures Keys(flows') == {sig} && fi in flows' && flows'[fi].sig == sig
    ensures flows'[fi].info.offloaded == offloaded && flows'[fi].info.context == context
    ensures lifetime != 0xFFFF ==> flows'[fi].lifetime == lifetime
  {
    OnlyKey(flows, fi, sig);
    KeysSet(flows, fi, flows'[fi]);
  }

  /** A new table after one packet. */
  method TableOfOne(hash: Signature -> nat, sig: Signature) returns (table: FlowTable.FlowTable)
    ensures fresh(table) && table.Valid() && table.hash == hash && Keys(table.flows) == {sig}
  {
    hide FlowTable.FlowTable.Valid;
    hide FlowTable.FlowTable.Steady;
    hide FlowTable.FlowTable.UpToDate;
    hide FrameRun;
    hide UniqueSigs;
    hide Table;
    hide Keys;
    hide HasRoom;
    table := new FlowTable.FlowTable(hash);
    var pkt := Ip(sig, false, 0);
    NoKeys();
    OneRoom({}, pkt);
    NoFlowsYet(table);
    var expired;
    ghost var ts, gone;
    expired, ts, gone := table.Process([pkt], 0);
    FirstPacket(table.flows, ts, hash, pkt, gone);
  }

  lemma NoFlowsYet(table: FlowTable.FlowTable)
    requires table.Valid() && table.flows == map[]
    ensures table.flowsCpt == 0
  {
    table.Census();
  }

  lemma NoKeys()
    ensures Keys(map[]) == {} && UniqueSigs(map[]) && Table(map[]) == map[]
  {
  }

  lemma OnlyKey(flows: Flows, fi: nat, sig: Signature)
    requires Keys(flows) == {sig} && fi in flows
    ensures flows[fi].sig == sig
  {
    assert flows[fi].sig in Keys(flows);
  }

  /** The update for the other signature meets neither of its good cases. */
  lemma NotUpdated(table: FlowTable.FlowTable, sig: Signature, other: Signature)
    requires table.Valid() && Keys(table.flows) == {sig} && HashesOk(table.flows, table.hash)
    requires sig != other && table.hash(sig) == table.hash(other)
    ensures Aliased(table.flows, table.hash, other) || !Hit(table.flows, table.hash, other)
    ensures table.hash(other) in table.flowsHt
  {
    assert sig in Keys(table.flows);
    var fi :| fi in table.flows && table.flows[fi].sig == sig;
    table.Places(fi);
    forall gi | Candidate(table.flows, table.hash, other, gi) ensures Aliased(table.flows, table.hash, other) {
      OnlyKey(table.flows, gi, sig);
    }
  }
}
