/** The flow table's records and what their indexes mean: every live flow on one
    hash chain and one timer slot. Stated on values; FlowTable.dfy has the code. */
module FlowState {
  import opened Dlist

  const TIMER_DEFAULT_LIFETIME: nat := 60
  const TIMER_MAX_LIFETIME: nat := 300
  const TIMER_MAX_EXPIRE: nat := 256
  const FM_POOL_COUNT: nat := 0x10_0000

  const IP4_SIG_LEN: nat := 13
  const IP6_SIG_LEN: nat := 37

  /** The packed bytes of an ip4_sig or an ip6_sig. */
  type Signature = s: seq<bv8> | |s| == 13 || |s| == 37
    witness [0, 0, 0, 0, 0, 0, 0, 0, 0, 0, 0, 0, 0]

  /** What the table keeps of a flow for its users. */
  datatype Info = Info(offloaded: nat, context: seq<bv8>, swIfIndex: nat)

  datatype Flow = Flow(
    sig: Signature, sigHash: nat,
    htLineIndex: nat, htIndex: nat,
    straight: nat, reverse: nat,
    expire: nat, lifetime: nat, timerIndex: nat,
    info: Info)

  type Flows = map<nat, Flow>

  /** A stored signature: the union is zeroed before sig_len bytes are copied in. */
  function Stored(s: Signature): (r: seq<bv8>)
    ensures |r| == IP6_SIG_LEN && r[..|s|] == s
  {
    s + seq(IP6_SIG_LEN - |s|, _ => 0 as bv8)
  }

  /** memcmp over the sig_len bytes of the signature looked for. */
  predicate Matches(stored: Signature, query: Signature) {
    Stored(stored)[..|query|] == query
  }

  lemma MatchesSameLength(a: Signature, b: Signature)
    requires |a| == |b|
    ensures Matches(a, b) <==> a == b
  {
  }

  // ---------- hash chains ----------

  ghost predicate OnChain(fi: nat, f: Flow, ht: map<nat, nat>, p: Pool, sh: Shape, hash: Signature -> nat) {
    && f.sigHash == hash(f.sig)
    && f.sigHash in ht && ht[f.sigHash] == f.htLineIndex
    && f.htIndex in sh.own && sh.own[f.htIndex] == f.htLineIndex
    && f.htIndex in p && p[f.htIndex].value == fi
  }

  ghost predicate ChainElt(e: nat, p: Pool, flows: Flows) {
    e in p && p[e].value in flows && flows[p[e].value].htIndex == e
  }

  /** Chains and flows name each other; no chain is empty, but for spare while a
      flow is being added; a chain holds flows of one hash only. */
  ghost predicate Chained(flows: Flows, ht: map<nat, nat>, p: Pool, sh: Shape, hash: Signature -> nat, spare: nat) {
    && (forall fi :: fi in flows ==> OnChain(fi, flows[fi], ht, p, sh, hash))
    && (forall e :: e in sh.own ==> ChainElt(e, p, flows))
    && (forall k :: k in ht ==> ht[k] in sh.rings)
    && (forall h :: h in sh.rings && h != spare ==> sh.rings[h] != [])
    && (forall k, l :: k in ht && l in ht && ht[k] == ht[l] ==> k == l)
    && NIL !in sh.rings
  }

  function SigAt(e: nat, p: Pool, flows: Flows): Signature
    requires e in p && p[e].value in flows
  {
    flows[p[e].value].sig
  }

  /** No flow of a chain is hidden from a search by a later-created one in front. */
  ghost predicate Unshadowed(s: seq<nat>, p: Pool, flows: Flows) {
    && (forall i :: 0 <= i < |s| ==> s[i] in p && p[s[i]].value in flows)
    && (forall i, j :: 0 <= i < j < |s| ==> !Matches(SigAt(s[j], p, flows), SigAt(s[i], p, flows)))
  }

  ghost predicate AllUnshadowed(flows: Flows, p: Pool, sh: Shape) {
    forall h :: h in sh.rings ==> Unshadowed(sh.rings[h], p, flows)
  }

  /** The complete condition on the hash side of the table. */
  ghost predicate ChainsOk(flows: Flows, ht: map<nat, nat>, p: Pool, sh: Shape, hash: Signature -> nat, spare: nat) {
    && WellFormed(p, sh)
    && Chained(flows, ht, p, sh, hash, spare)
    && AllUnshadowed(flows, p, sh)
  }

  ghost predicate SameValues(p: Pool, q: Pool, keep: set<nat>) {
    forall e :: e in keep ==> e in p && e in q && q[e].value == p[e].value
  }

  predicate SameChainFields(f: Flow, g: Flow) {
    f.sig == g.sig && f.sigHash == g.sigHash && f.htLineIndex == g.htLineIndex && f.htIndex == g.htIndex
  }

  /** Every flow of flows' was in flows, with the same place on the chains. */
  ghost predicate SameChainsOf(flows: Flows, flows': Flows) {
    forall fi :: fi in flows' ==> fi in flows && SameChainFields(flows[fi], flows'[fi])
  }

  lemma UnshadowedFrame(s: seq<nat>, p: Pool, flows: Flows, q: Pool, flows': Flows)
    requires Unshadowed(s, p, flows)
    requires forall i :: 0 <= i < |s| ==> s[i] in q && q[s[i]].value in flows'
    requires forall i :: 0 <= i < |s| ==> SigAt(s[i], q, flows') == SigAt(s[i], p, flows)
    ensures Unshadowed(s, q, flows')
  {
    hide Matches;
  }

  /** Changes to the other fields of flows do not concern the chains. */
  lemma ChainsSame(flows: Flows, flows': Flows, ht: map<nat, nat>, p: Pool, sh: Shape, hash: Signature -> nat)
    requires ChainsOk(flows, ht, p, sh, hash, NIL)
    requires flows'.Keys == flows.Keys && SameChainsOf(flows, flows')
    ensures ChainsOk(flows', ht, p, sh, hash, NIL)
  {
    hide WellFormed;
    hide Matches;
    assert AllUnshadowed(flows', p, sh) by {
      forall h | h in sh.rings ensures Unshadowed(sh.rings[h], p, flows') {
        UnshadowedFrame(sh.rings[h], p, flows, p, flows');
      }
    }
    assert Chained(flows', ht, p, sh, hash, NIL) by {
      forall fi | fi in flows' ensures OnChain(fi, flows'[fi], ht, p, sh, hash) {
        assert OnChain(fi, flows[fi], ht, p, sh, hash);
      }
      forall e | e in sh.own ensures ChainElt(e, p, flows') {
        assert ChainElt(e, p, flows);
      }
    }
  }

  lemma ChainedOpen(flows: Flows, ht: map<nat, nat>, p: Pool, sh: Shape, hash: Signature -> nat, k: nat, h: nat,
                    ht': map<nat, nat>, q: Pool, sh': Shape)
    requires Chained(flows, ht, p, sh, hash, NIL)
    requires k !in ht && h !in sh.rings && h != NIL && SameValues(p, q, sh.own.Keys)
    requires ht' == ht[k := h] && sh'.rings == sh.rings[h := []] && sh'.own == sh.own
    ensures Chained(flows, ht', q, sh', hash, h)
  {
    forall fi | fi in flows ensures OnChain(fi, flows[fi], ht', q, sh', hash) {
      assert OnChain(fi, flows[fi], ht, p, sh, hash);
    }
    forall e | e in sh.own ensures ChainElt(e, q, flows) {
      assert ChainElt(e, p, flows);
    }
  }

  lemma UnshadowedOpen(flows: Flows, p: Pool, sh: Shape, h: nat, q: Pool, sh': Shape)
    requires AllUnshadowed(flows, p, sh)
    requires h !in p && q == Init(p, h) && sh'.rings == sh.rings[h := []]
    ensures AllUnshadowed(flows, q, sh')
  {
    hide Matches;
    forall g | g in sh'.rings ensures Unshadowed(sh'.rings[g], q, flows) {
      if g != h {
        UnshadowedFrame(sh.rings[g], p, flows, q, flows);
      }
    }
  }

  /** Opening an empty chain for a hash value that has none. */
  lemma ChainOpen(flows: Flows, ht: map<nat, nat>, p: Pool, sh: Shape, hash: Signature -> nat, k: nat, h: nat)
    requires ChainsOk(flows, ht, p, sh, hash, NIL)
    requires k !in ht && h !in p && h < NIL
    ensures ChainsOk(flows, ht[k := h], Init(p, h), Shape(sh.rings[h := []], sh.own), hash, h)
  {
    hide Chained;
    hide AllUnshadowed;
    hide AllLinked;
    hide Owned;
    var ht', q, sh' := ht[k := h], Init(p, h), Shape(sh.rings[h := []], sh.own);
    InitPool(p, sh, h);
    UnshadowedOpen(flows, p, sh, h, q, sh');
    ChainedOpen(flows, ht, p, sh, hash, k, h, ht', q, sh');
  }

  lemma ChainedAdd(flows: Flows, ht: map<nat, nat>, p: Pool, sh: Shape, hash: Signature -> nat, spare: nat,
                   fi: nat, f: Flow, q: Pool, flows': Flows, sh': Shape)
    requires Chained(flows, ht, p, sh, hash, spare)
    requires fi !in flows && flows' == flows[fi := f]
    requires f.sigHash == hash(f.sig) && f.sigHash in ht && ht[f.sigHash] == f.htLineIndex
    requires spare == NIL || spare == f.htLineIndex
    requires f.htIndex !in sh.own && SameValues(p, q, sh.own.Keys)
    requires f.htIndex in q && q[f.htIndex].value == fi
    requires sh' == HeadShape(sh, f.htLineIndex, f.htIndex)
    ensures Chained(flows', ht, q, sh', hash, NIL)
  {
    forall gi | gi in flows' ensures OnChain(gi, flows'[gi], ht, q, sh', hash) {
      if gi != fi {
        assert OnChain(gi, flows[gi], ht, p, sh, hash);
      }
    }
    hide OnChain;
    ElementsAdd(flows, p, sh, fi, f, q, flows', sh');
    hide ChainElt;
  }

  lemma ElementsAdd(flows: Flows, p: Pool, sh: Shape, fi: nat, f: Flow, q: Pool, flows': Flows, sh': Shape)
    requires forall e :: e in sh.own ==> ChainElt(e, p, flows)
    requires fi !in flows && flows' == flows[fi := f]
    requires f.htIndex !in sh.own && SameValues(p, q, sh.own.Keys)
    requires f.htIndex in q && q[f.htIndex].value == fi
    requires f.htLineIndex in sh.rings && sh' == HeadShape(sh, f.htLineIndex, f.htIndex)
    ensures forall e :: e in sh'.own ==> ChainElt(e, q, flows')
  {
    forall e | e in sh'.own ensures ChainElt(e, q, flows') {
      if e != f.htIndex {
        assert ChainElt(e, p, flows);
      }
    }
  }

  /** None of the first n elements of the chain matches. */
  ghost predicate NoMatch(s: seq<nat>, n: nat, p: Pool, flows: Flows, sig: Signature)
    requires n <= |s|
  {
    forall i :: 0 <= i < n ==> s[i] in p && p[s[i]].value in flows && !Matches(SigAt(s[i], p, flows), sig)
  }

  lemma UnshadowedAdd(flows: Flows, p: Pool, sh: Shape, fi: nat, f: Flow, q: Pool, flows': Flows, sh': Shape)
    requires AllUnshadowed(flows, p, sh)
    requires fi !in flows && flows' == flows[fi := f]
    requires forall e :: e in p ==> e in q && q[e].value == p[e].value
    requires f.htIndex !in p && f.htIndex in q && q[f.htIndex].value == fi
    requires f.htLineIndex in sh.rings && sh' == HeadShape(sh, f.htLineIndex, f.htIndex)
    requires NoMatch(sh.rings[f.htLineIndex], |sh.rings[f.htLineIndex]|, p, flows, f.sig)
    ensures AllUnshadowed(flows', q, sh')
  {
    hide Matches;
    forall g | g in sh'.rings ensures Unshadowed(sh'.rings[g], q, flows') {
      UnshadowedFrame(sh.rings[g], p, flows, q, flows');
      if g == f.htLineIndex {
        var s, r := sh.rings[g], sh'.rings[g];
        forall i, j | 0 <= i < j < |r| ensures !Matches(SigAt(r[j], q, flows'), SigAt(r[i], q, flows')) {
          assert r[j] == s[j - 1] && s[j - 1] in s;
        }
      }
    }
  }

  /** Adding a flow at the head of its chain, once the search has found no match there. */
  lemma ChainAdd(flows: Flows, ht: map<nat, nat>, p: Pool, sh: Shape, hash: Signature -> nat, spare: nat,
                 fi: nat, f: Flow, elt: Elt)
    requires ChainsOk(flows, ht, p, sh, hash, spare)
    requires fi !in flows && fi < NIL
    requires f.sigHash == hash(f.sig) && f.sigHash in ht && ht[f.sigHash] == f.htLineIndex
    requires spare == NIL || spare == f.htLineIndex
    requires f.htIndex !in p && f.htIndex < NIL && elt.value == fi
    requires f.htLineIndex in sh.rings
    requires NoMatch(sh.rings[f.htLineIndex], |sh.rings[f.htLineIndex]|, p, flows, f.sig)
    ensures f.htLineIndex in p && f.htLineIndex != f.htIndex
    ensures p[f.htLineIndex].next != NIL ==> p[f.htLineIndex].next in p
    ensures ChainsOk(flows[fi := f], ht, AddHead(p[f.htIndex := elt], f.htLineIndex, f.htIndex),
                     HeadShape(sh, f.htLineIndex, f.htIndex), hash, NIL)
  {
    hide AllLinked;
    hide Owned;
    hide Chained;
    hide AllUnshadowed;
    hide AddHead;
    hide NoMatch;
    var h, n := f.htLineIndex, f.htIndex;
    AddHeadPool(p, sh, h, n, elt);
    var q, sh', flows' := AddHead(p[n := elt], h, n), HeadShape(sh, h, n), flows[fi := f];
    ChainedAdd(flows, ht, p, sh, hash, spare, fi, f, q, flows', sh');
    UnshadowedAdd(flows, p, sh, fi, f, q, flows', sh');
  }

  lemma ChainedRemove(flows: Flows, ht: map<nat, nat>, p: Pool, sh: Shape, hash: Signature -> nat, fi: nat,
                      q: Pool, flows': Flows, sh': Shape)
    requires Chained(flows, ht, p, sh, hash, NIL)
    requires fi in flows && flows[fi].htIndex in sh.own && sh.own[flows[fi].htIndex] in sh.rings
    requires flows' == flows - {fi} && sh' == DropShape(sh, flows[fi].htIndex)
    requires SameValues(p, q, sh'.own.Keys)
    ensures Chained(flows', ht, q, sh', hash, flows[fi].htLineIndex)
  {
    var f := flows[fi];
    assert OnChain(fi, f, ht, p, sh, hash);
    forall gi | gi in flows' ensures OnChain(gi, flows'[gi], ht, q, sh', hash) {
      assert OnChain(gi, flows[gi], ht, p, sh, hash);
    }
    forall e | e in sh'.own ensures ChainElt(e, q, flows') {
      assert ChainElt(e, p, flows);
    }
  }

  lemma {:induction false} WithoutOrder(s: seq<nat>, e: nat, i: nat, j: nat) returns (a: nat, b: nat)
    requires i < j < |Without(s, e)|
    ensures a < b < |s| && s[a] == Without(s, e)[i] && s[b] == Without(s, e)[j]
  {
    if s[0] == e {
      a, b := WithoutOrder(s[1..], e, i, j);
      a, b := a + 1, b + 1;
    } else if i == 0 {
      var x := Without(s, e)[j];
      assert x in s[1..];
      b :| 0 <= b < |s[1..]| && s[1..][b] == x;
      a, b := 0, b + 1;
    } else {
      a, b := WithoutOrder(s[1..], e, i - 1, j - 1);
      a, b := a + 1, b + 1;
    }
  }

  lemma UnshadowedWithout(s: seq<nat>, e: nat, p: Pool, flows: Flows)
    requires Unshadowed(s, p, flows)
    ensures Unshadowed(Without(s, e), p, flows)
  {
    hide Matches;
    var r := Without(s, e);
    forall i | 0 <= i < |r| ensures r[i] in p && p[r[i]].value in flows {
      assert r[i] in r;
    }
    forall i, j | 0 <= i < j < |r| ensures !Matches(SigAt(r[j], p, flows), SigAt(r[i], p, flows)) {
      var a, b := WithoutOrder(s, e, i, j);
    }
  }

  lemma UnshadowedRemove(flows: Flows, p: Pool, sh: Shape, fi: nat, q: Pool, flows': Flows, sh': Shape)
    requires AllUnshadowed(flows, p, sh)
    requires fi in flows && flows[fi].htIndex in sh.own && sh.own[flows[fi].htIndex] in sh.rings
    requires flows' == flows - {fi} && sh' == DropShape(sh, flows[fi].htIndex)
    requires Owned(sh') && SameValues(p, q, sh'.own.Keys)
    requires forall e :: e in sh'.own && e in q ==> q[e].value in flows'
    ensures AllUnshadowed(flows', q, sh')
  {
    hide Matches;
    forall g | g in sh'.rings ensures Unshadowed(sh'.rings[g], q, flows') {
      var r := sh'.rings[g];
      assert Covers(r, sh'.own, g);
      assert Unshadowed(r, p, flows) by {
        UnshadowedWithout(sh.rings[g], flows[fi].htIndex, p, flows);
      }
      forall i | 0 <= i < |r| ensures r[i] in sh'.own {
        assert r[i] in r;
      }
      UnshadowedFrame(r, p, flows, q, flows');
    }
  }

  /** flowtable_entry_remove up to the empty test: the chain has lost exactly the flow. */
  lemma ChainRemove(flows: Flows, ht: map<nat, nat>, p: Pool, sh: Shape, hash: Signature -> nat, fi: nat)
    requires ChainsOk(flows, ht, p, sh, hash, NIL) && fi in flows
    ensures flows[fi].htIndex in sh.own && sh.own[flows[fi].htIndex] == flows[fi].htLineIndex
    ensures flows[fi].htLineIndex in sh.rings
    ensures flows[fi].htIndex in p && p[flows[fi].htIndex].next in p && p[flows[fi].htIndex].prev in p
    ensures ChainsOk(flows - {fi}, ht, Remove(p, flows[fi].htIndex) - {flows[fi].htIndex},
                     DropShape(sh, flows[fi].htIndex), hash, flows[fi].htLineIndex)
  {
    hide AllLinked;
    hide AllUnshadowed;
    hide Remove;
    hide Matches;
    var e := flows[fi].htIndex;
    assert OnChain(fi, flows[fi], ht, p, sh, hash);
    assert flows[fi].htLineIndex in sh.rings;
    RemovePool(p, sh, e);
    var q, sh', flows' := Remove(p, e) - {e}, DropShape(sh, e), flows - {fi};
    assert SameValues(p, q, sh'.own.Keys);
    ChainedRemove(flows, ht, p, sh, hash, fi, q, flows', sh');
    forall e | e in sh'.own ensures q[e].value in flows' {
      assert ChainElt(e, q, flows');
    }
    UnshadowedRemove(flows, p, sh, fi, q, flows', sh');
  }

  /** The chain is still in use: nothing to clean up. */
  lemma ChainKeep(flows: Flows, ht: map<nat, nat>, p: Pool, sh: Shape, hash: Signature -> nat, h: nat)
    requires ChainsOk(flows, ht, p, sh, hash, h) && h in sh.rings && sh.rings[h] != []
    ensures ChainsOk(flows, ht, p, sh, hash, NIL)
  {
    hide WellFormed;
    hide AllUnshadowed;
  }

  lemma ChainedClose(flows: Flows, ht: map<nat, nat>, p: Pool, sh: Shape, hash: Signature -> nat, k: nat, h: nat,
                     ht': map<nat, nat>, q: Pool, sh': Shape)
    requires Chained(flows, ht, p, sh, hash, h) && Owned(sh)
    requires h in sh.rings && sh.rings[h] == [] && k in ht && ht[k] == h
    requires SameValues(p, q, sh.own.Keys)
    requires ht' == ht - {k} && sh'.rings == sh.rings - {h} && sh'.own == sh.own
    ensures Chained(flows, ht', q, sh', hash, NIL)
  {
    hide ChainElt;
    forall fi | fi in flows ensures OnChain(fi, flows[fi], ht', q, sh', hash) {
      FlowStays(flows, ht, p, sh, hash, k, h, ht', q, sh', fi);
    }
    hide OnChain;
    forall e | e in sh.own ensures ChainElt(e, q, flows) {
      ElementStays(flows, p, q, sh, e);
    }
  }

  lemma FlowStays(flows: Flows, ht: map<nat, nat>, p: Pool, sh: Shape, hash: Signature -> nat, k: nat, h: nat,
                  ht': map<nat, nat>, q: Pool, sh': Shape, fi: nat)
    requires fi in flows && OnChain(fi, flows[fi], ht, p, sh, hash) && Owned(sh)
    requires h in sh.rings && sh.rings[h] == [] && k in ht && ht[k] == h
    requires SameValues(p, q, sh.own.Keys) && ht' == ht - {k} && sh'.own == sh.own
    ensures OnChain(fi, flows[fi], ht', q, sh', hash)
  {
    assert Covers(sh.rings[h], sh.own, h);
  }

  lemma ElementStays(flows: Flows, p: Pool, q: Pool, sh: Shape, e: nat)
    requires e in sh.own && ChainElt(e, p, flows) && SameValues(p, q, sh.own.Keys)
    ensures ChainElt(e, q, flows)
  {
  }

  lemma UnshadowedClose(flows: Flows, p: Pool, sh: Shape, h: nat, q: Pool, sh': Shape)
    requires AllUnshadowed(flows, p, sh) && Owned(sh)
    requires h in sh.rings && sh'.rings == sh.rings - {h} && q == p - {h}
    ensures AllUnshadowed(flows, q, sh')
  {
    hide Matches;
    forall g | g in sh'.rings ensures Unshadowed(sh'.rings[g], q, flows) {
      var s := sh.rings[g];
      assert Covers(s, sh.own, g);
      assert Unshadowed(s, p, flows);
      forall i | 0 <= i < |s| ensures s[i] != h {
        assert s[i] in s;
      }
      UnshadowedFrame(s, p, flows, q, flows);
    }
  }

  /** The chain became empty: its head and its hash entry go. */
  lemma ChainClose(flows: Flows, ht: map<nat, nat>, p: Pool, sh: Shape, hash: Signature -> nat, k: nat, h: nat)
    requires ChainsOk(flows, ht, p, sh, hash, h) && h in sh.rings && sh.rings[h] == []
    requires k in ht && ht[k] == h
    ensures ChainsOk(flows, ht - {k}, p - {h}, Shape(sh.rings - {h}, sh.own), hash, NIL)
  {
    hide AllLinked;
    hide Chained;
    hide AllUnshadowed;
    hide Matches;
    DropHeadPool(p, sh, h);
    var ht', q, sh' := ht - {k}, p - {h}, Shape(sh.rings - {h}, sh.own);
    assert SameValues(p, q, sh.own.Keys);
    hide Owned;
    ChainedClose(flows, ht, p, sh, hash, k, h, ht', q, sh');
    UnshadowedClose(flows, p, sh, h, q, sh');
  }

  lemma NoChains(hash: Signature -> nat)
    ensures ChainsOk(map[], map[], map[], Shape(map[], map[]), hash, NIL)
  {
  }

  lemma ChainHead(flows: Flows, ht: map<nat, nat>, p: Pool, sh: Shape, hash: Signature -> nat, h: nat)
    requires ChainsOk(flows, ht, p, sh, hash, h) && h in sh.rings
    ensures h in p && (IsEmpty(p, h) <==> sh.rings[h] == [])
  {
    hide Chained;
    hide Unshadowed;
    hide Covers;
    EmptyExact(p, sh, h);
  }

  lemma ChainKey(flows: Flows, ht: map<nat, nat>, p: Pool, sh: Shape, hash: Signature -> nat, fi: nat)
    requires ChainsOk(flows, ht, p, sh, hash, NIL) && fi in flows
    ensures flows[fi].sigHash == hash(flows[fi].sig)
    ensures flows[fi].sigHash in ht && ht[flows[fi].sigHash] == flows[fi].htLineIndex
    ensures forall k :: k in ht && ht[k] == flows[fi].htLineIndex ==> k == flows[fi].sigHash
  {
    hide WellFormed;
    hide AllUnshadowed;
    assert OnChain(fi, flows[fi], ht, p, sh, hash);
  }

  // ---------- searching a chain ----------

  /** e is the i-th element of the chain at h, or the head once i has passed the last. */
  ghost predicate SearchPos(p: Pool, sh: Shape, h: nat, e: nat, i: nat) {
    && h in sh.rings && i <= |sh.rings[h]|
    && e == (if i < |sh.rings[h]| then sh.rings[h][i] else h)
    && e in p
    && (IsHead(p[e]) <==> i == |sh.rings[h]|)
  }

  lemma SearchPlace(p: Pool, sh: Shape, h: nat, i: nat)
    requires WellFormed(p, sh) && h in sh.rings && i <= |sh.rings[h]|
    ensures h in p
    ensures SearchPos(p, sh, h, if i < |sh.rings[h]| then sh.rings[h][i] else h, i)
  {
    assert Linked(p, h, sh.rings[h]);
    assert i < |sh.rings[h]| ==> LinkAt(p, h, sh.rings[h], i);
  }

  lemma SearchStart(flows: Flows, ht: map<nat, nat>, p: Pool, sh: Shape, hash: Signature -> nat, k: nat)
    requires ChainsOk(flows, ht, p, sh, hash, NIL) && k in ht
    ensures ht[k] in p && !IsEmpty(p, ht[k]) && ht[k] in sh.rings && sh.rings[ht[k]] != []
    ensures SearchPos(p, sh, ht[k], p[ht[k]].next, 0)
  {
    hide AllUnshadowed;
    hide Covers;
    assert Linked(p, ht[k], sh.rings[ht[k]]);
    EmptyExact(p, sh, ht[k]);
    hide AllLinked;
    SearchPlace(p, sh, ht[k], 0);
  }

  lemma SearchNext(flows: Flows, ht: map<nat, nat>, p: Pool, sh: Shape, hash: Signature -> nat, h: nat, e: nat, i: nat)
    requires ChainsOk(flows, ht, p, sh, hash, NIL)
    requires SearchPos(p, sh, h, e, i) && !IsHead(p[e])
    ensures i < |sh.rings[h]| && p[e].value in flows && e == sh.rings[h][i]
    ensures flows[p[e].value].htLineIndex == h
    ensures p[e].next in p && SearchPos(p, sh, h, p[e].next, i + 1)
  {
    hide AllUnshadowed;
    assert e in sh.rings[h] && Covers(sh.rings[h], sh.own, h);
    assert ChainElt(e, p, flows);
    assert OnChain(p[e].value, flows[p[e].value], ht, p, sh, hash);
    hide Chained;
    hide Covers;
    NextOf(p, sh, h, i);
    hide AllLinked;
    SearchPlace(p, sh, h, i + 1);
  }

  /** A live flow that a search for sig would take. */
  ghost predicate Candidate(flows: Flows, hash: Signature -> nat, sig: Signature, fi: nat) {
    fi in flows && flows[fi].sigHash == hash(sig) && Matches(flows[fi].sig, sig)
  }

  ghost predicate Hit(flows: Flows, hash: Signature -> nat, sig: Signature) {
    exists fi :: Candidate(flows, hash, sig, fi)
  }

  /** Some live flow with another signature agrees with sig on its hash and on all the
      bytes that are compared: a flow of the other address family. */
  ghost predicate Aliased(flows: Flows, hash: Signature -> nat, sig: Signature) {
    exists fi :: Candidate(flows, hash, sig, fi) && flows[fi].sig != sig
  }

  /** A whole chain without a match means no candidate anywhere. */
  lemma ChainExhausted(flows: Flows, ht: map<nat, nat>, p: Pool, sh: Shape, hash: Signature -> nat, sig: Signature)
    requires ChainsOk(flows, ht, p, sh, hash, NIL)
    requires hash(sig) in ht ==>
              ht[hash(sig)] in sh.rings && NoMatch(sh.rings[ht[hash(sig)]], |sh.rings[ht[hash(sig)]]|, p, flows, sig)
    ensures !Hit(flows, hash, sig)
  {
    hide AllUnshadowed;
    hide Matches;
    forall fi | fi in flows && flows[fi].sigHash == hash(sig) ensures !Matches(flows[fi].sig, sig) {
      assert OnChain(fi, flows[fi], ht, p, sh, hash);
      var h := flows[fi].htLineIndex;
      assert Covers(sh.rings[h], sh.own, h);
      var i :| 0 <= i < |sh.rings[h]| && sh.rings[h][i] == flows[fi].htIndex;
      assert SigAt(sh.rings[h][i], p, flows) == flows[fi].sig;
    }
  }

  /** The first match of a chain is the flow with that very signature exactly when no
      flow of the other family aliases it. */
  lemma FirstMatch(flows: Flows, ht: map<nat, nat>, p: Pool, sh: Shape, hash: Signature -> nat, sig: Signature, i: nat,
                   fi: nat)
    requires ChainsOk(flows, ht, p, sh, hash, NIL)
    requires hash(sig) in ht && ht[hash(sig)] in sh.rings && i < |sh.rings[ht[hash(sig)]]|
    requires NoMatch(sh.rings[ht[hash(sig)]], i, p, flows, sig)
    requires sh.rings[ht[hash(sig)]][i] in p && fi == p[sh.rings[ht[hash(sig)]][i]].value
    requires fi in flows && Matches(flows[fi].sig, sig) && flows[fi].htLineIndex == ht[hash(sig)]
    ensures Candidate(flows, hash, sig, fi)
    ensures flows[fi].sig == sig <==> !Aliased(flows, hash, sig)
  {
    hide WellFormed;
    hide AllUnshadowed;
    hide Matches;
    var h := ht[hash(sig)];
    assert OnChain(fi, flows[fi], ht, p, sh, hash);
    if flows[fi].sig == sig {
      forall gi | Candidate(flows, hash, sig, gi) ensures flows[gi].sig == sig {
        LaterMatch(flows, ht, p, sh, hash, sig, i, fi, gi);
      }
    }
  }

  lemma LaterMatch(flows: Flows, ht: map<nat, nat>, p: Pool, sh: Shape, hash: Signature -> nat, sig: Signature,
                   i: nat, fi: nat, gi: nat)
    requires ChainsOk(flows, ht, p, sh, hash, NIL)
    requires hash(sig) in ht && ht[hash(sig)] in sh.rings && i < |sh.rings[ht[hash(sig)]]|
    requires NoMatch(sh.rings[ht[hash(sig)]], i, p, flows, sig)
    requires sh.rings[ht[hash(sig)]][i] in p && fi == p[sh.rings[ht[hash(sig)]][i]].value
    requires fi in flows && flows[fi].sig == sig && Candidate(flows, hash, sig, gi)
    ensures fi == gi
  {
    hide AllLinked;
    hide Matches;
    var h := ht[hash(sig)];
    var s := sh.rings[h];
    assert OnChain(gi, flows[gi], ht, p, sh, hash);
    assert Covers(s, sh.own, h);
    var j :| 0 <= j < |s| && s[j] == flows[gi].htIndex;
    hide Chained;
    hide Covers;
    assert Unshadowed(s, p, flows);
    assert SigAt(s[j], p, flows) == flows[gi].sig && SigAt(s[i], p, flows) == sig;
  }

  /** Setting other fields of one flow. */
  lemma ChainsSet(flows: Flows, fi: nat, f: Flow, flows': Flows, ht: map<nat, nat>, p: Pool, sh: Shape,
                  hash: Signature -> nat)
    requires ChainsOk(flows, ht, p, sh, hash, NIL)
    requires fi in flows && flows' == flows[fi := f] && SameChainFields(flows[fi], f)
    ensures ChainsOk(flows', ht, p, sh, hash, NIL)
    ensures |flows'| == |flows|
  {
    hide ChainsOk;
    ChainsSame(flows, flows', ht, p, sh, hash);
    assert flows'.Keys == flows.Keys;
    assert |flows'.Keys| == |flows'| && |flows.Keys| == |flows|;
  }
}
