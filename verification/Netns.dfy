/** The mirror of kernel links, routes, addresses and neighbours that netlink messages
    keep up to date (netlink/librtnl/netns.c). */
module Netns {
  import opened Vppinfra
  import opened Octets
  import opened RtAttr

  // ---------- families of objects ----------

  /** One row of a mapping table; the field is the one with the row's own index. */
  datatype Mapping = Mapping(kind: nat, unique: bool, size: nat)

  /** The size of the fixed header, the bytes of it that are part of the key, and the
      mapping table. */
  datatype Family = Family(hdrSize: nat, mask: Bytes, rows: seq<Mapping>)

  datatype Kind = Link | Route | Addr | Neigh

  const RTA_ENCAP: nat := 22

  /** Links are looked up by ifi_index alone, bytes 4 to 7 of struct ifinfomsg. */
  const LINK_FAMILY := Family(16, [0, 0, 0, 0, 0xff, 0xff, 0xff, 0xff],
    [Mapping(1, false, 6), Mapping(2, false, 6), Mapping(3, false, 16), Mapping(10, false, 4),
     Mapping(4, false, 4), Mapping(6, false, 16)])

  const ROUTE_FAMILY := Family(12, [0xff, 0xff, 0xff, 0, 0xff, 0xff, 0, 0xff, 0, 0, 0, 0],
    [Mapping(1, true, 16), Mapping(2, true, 16), Mapping(18, true, 16), Mapping(5, true, 16),
     Mapping(3, true, 4), Mapping(4, true, 4), Mapping(7, false, 16), Mapping(15, false, 4),
     Mapping(6, false, 4), Mapping(12, false, 32), Mapping(RTA_ENCAP, true, 28)])

  const ADDR_FAMILY := Family(8, [0xff, 0xff, 0, 0, 0, 0, 0, 0],
    [Mapping(1, true, 16), Mapping(2, true, 16), Mapping(3, false, 16), Mapping(4, false, 16),
     Mapping(5, false, 16), Mapping(6, false, 16)])

  /** The mask is 8 bytes long, the size of a pointer, and 0xff in an int covers only the
      low byte of the interface index. */
  const NEIGH_FAMILY := Family(12, [0xff, 0, 0, 0, 0xff, 0, 0, 0],
    [Mapping(1, true, 16), Mapping(2, false, 6), Mapping(4, false, 4), Mapping(3, false, 16)])

  /** RTA_ENCAP, if mapped, is the last row, and its field is 28 bytes. */
  predicate FamilyOk(f: Family) {
    && |f.mask| <= f.hdrSize && f.hdrSize % 4 == 0
    && forall i :: 0 <= i < |f.rows| && f.rows[i].kind == RTA_ENCAP ==>
        i == |f.rows| - 1 && f.rows[i].unique && f.rows[i].size == 28
  }

  function FamilyOf(kind: Kind): (f: Family)
    ensures FamilyOk(f)
    ensures forall i :: 0 <= i < |f.rows| ==> f.rows[i].kind <= 22
  {
    match kind
    case Link => LINK_FAMILY
    case Route => ROUTE_FAMILY
    case Addr => ADDR_FAMILY
    case Neigh => NEIGH_FAMILY
  }

  // ---------- entries and keys ----------

  /** An entry of a pool: the header and the fields of the mapping table. */
  datatype Entry = Entry(hdr: Bytes, fields: seq<Bytes>)

  ghost predicate Shaped(f: Family, e: Entry) {
    && |f.mask| <= f.hdrSize && |e.hdr| == f.hdrSize && |e.fields| == |f.rows|
    && forall i :: 0 <= i < |f.rows| ==> |e.fields[i]| == f.rows[i].size
  }

  /** The masked header and the unique fields. */
  datatype Key = Key(hdr: Bytes, fields: seq<Bytes>)

  function Keep(a: bv8, m: bv8): bv8 {
    a & m
  }

  predicate Differ(a: bv8, b: bv8, m: bv8) {
    (a ^ b) & m != 0
  }

  function Masked(mask: Bytes, hdr: Bytes): (r: Bytes)
    requires |mask| <= |hdr|
    ensures |r| == |mask|
  {
    seq(|mask|, i requires 0 <= i < |mask| => Keep(hdr[i], mask[i]))
  }

  function KeyOf(f: Family, e: Entry): Key
    requires Shaped(f, e)
  {
    Key(Masked(f.mask, e.hdr),
        seq(|f.rows|, i requires 0 <= i < |f.rows| => if f.rows[i].unique then e.fields[i] else []))
  }

  /** A value padded with zeros; one that is too long stays as it is. */
  function Pad(b: Bytes, n: nat): Bytes {
    if |b| < n then b + Zeros(n - |b|) else b
  }

  /** The table of attributes covers the mapping table. */
  predicate Covered(f: Family, rtas: seq<Option<Bytes>>) {
    forall i :: 0 <= i < |f.rows| ==> f.rows[i].kind < |rtas|
  }

  /** The value a message gives to a row: no attribute means no bytes. */
  function Value(m: Mapping, rtas: seq<Option<Bytes>>): Bytes
    requires m.kind < |rtas|
  {
    if rtas[m.kind].Some? then rtas[m.kind].value else []
  }

  /** The key a message means. */
  function MsgKey(f: Family, hdr: Bytes, rtas: seq<Option<Bytes>>): Key
    requires |f.mask| <= |hdr| && Covered(f, rtas)
  {
    Key(Masked(f.mask, hdr),
        seq(|f.rows|, i requires 0 <= i < |f.rows| =>
          if f.rows[i].unique then Pad(Value(f.rows[i], rtas), f.rows[i].size) else []))
  }

  // ---------- matching ----------

  /** A unique row agrees with the entry. */
  predicate Agrees(f: Family, e: Entry, rtas: seq<Option<Bytes>>, i: nat)
    requires Covered(f, rtas) && i < |f.rows| && i < |e.fields|
  {
    f.rows[i].unique ==> e.fields[i] == Pad(Value(f.rows[i], rtas), f.rows[i].size)
  }

  predicate UniqueFit(f: Family, rtas: seq<Option<Bytes>>)
    requires Covered(f, rtas)
  {
    forall i :: 0 <= i < |f.rows| && f.rows[i].unique ==> |Value(f.rows[i], rtas)| <= f.rows[i].size
  }

  /** The answer of rtnl_entry_match from row i on: the first row that does not agree
      decides, with -1 when its attribute is too long. */
  function MatchFrom(f: Family, e: Entry, rtas: seq<Option<Bytes>>, i: nat): int
    requires Covered(f, rtas) && i <= |f.rows| && |e.fields| == |f.rows|
    decreases |f.rows| - i
  {
    if i == |f.rows| then 1
    else if Agrees(f, e, rtas, i) then MatchFrom(f, e, rtas, i + 1)
    else if |Value(f.rows[i], rtas)| > f.rows[i].size then -1
    else 0
  }

  predicate Matches(f: Family, e: Entry, hdr: Bytes, rtas: seq<Option<Bytes>>)
    requires Covered(f, rtas) && |f.mask| <= |hdr| && |f.mask| <= |e.hdr| && |e.fields| == |f.rows|
  {
    Masked(f.mask, e.hdr) == Masked(f.mask, hdr) && MatchFrom(f, e, rtas, 0) != 0
  }

  lemma {:induction false} MatchMeans(f: Family, e: Entry, rtas: seq<Option<Bytes>>, i: nat)
    requires Shaped(f, e) && Covered(f, rtas) && i <= |f.rows|
    ensures MatchFrom(f, e, rtas, i) == 1 <==> forall j :: i <= j < |f.rows| ==> Agrees(f, e, rtas, j)
    ensures UniqueFit(f, rtas) ==> MatchFrom(f, e, rtas, i) != -1
    decreases |f.rows| - i
  {
    if i < |f.rows| {
      MatchMeans(f, e, rtas, i + 1);
    }
  }

  lemma SameKeyMeans(f: Family, e: Entry, hdr: Bytes, rtas: seq<Option<Bytes>>)
    requires Shaped(f, e) && Covered(f, rtas) && |f.mask| <= |hdr|
    ensures KeyOf(f, e) == MsgKey(f, hdr, rtas) <==>
            Masked(f.mask, e.hdr) == Masked(f.mask, hdr) && forall j :: 0 <= j < |f.rows| ==> Agrees(f, e, rtas, j)
  {
    var a, b := KeyOf(f, e), MsgKey(f, hdr, rtas);
    if a == b {
      forall j | 0 <= j < |f.rows| ensures Agrees(f, e, rtas, j) {
        assert a.fields[j] == b.fields[j];
      }
    } else if Masked(f.mask, e.hdr) == Masked(f.mask, hdr) {
      assert a.fields != b.fields;
      var j :| 0 <= j < |f.rows| && a.fields[j] != b.fields[j];
      assert !Agrees(f, e, rtas, j);
    }
  }

  /** When the unique attributes fit, an entry matches just when it has the message's key. */
  lemma MatchIsKey(f: Family, e: Entry, hdr: Bytes, rtas: seq<Option<Bytes>>)
    requires Shaped(f, e) && Covered(f, rtas) && |f.mask| <= |hdr| && UniqueFit(f, rtas)
    ensures Matches(f, e, hdr, rtas) <==> KeyOf(f, e) == MsgKey(f, hdr, rtas)
  {
    MatchMeans(f, e, rtas, 0);
    SameKeyMeans(f, e, hdr, rtas);
    MatchValues(f, e, rtas, 0);
  }

  lemma {:induction false} MatchValues(f: Family, e: Entry, rtas: seq<Option<Bytes>>, i: nat)
    requires |e.fields| == |f.rows| && Covered(f, rtas) && i <= |f.rows|
    ensures MatchFrom(f, e, rtas, i) in {-1, 0, 1}
    decreases |f.rows| - i
  {
    if i < |f.rows| {
      MatchValues(f, e, rtas, i + 1);
    }
  }

  /** The entry that agrees with a message up to row i and is zero elsewhere. */
  function Lookalike(f: Family, hdr: Bytes, rtas: seq<Option<Bytes>>): (e: Entry)
    requires Covered(f, rtas) && |f.mask| <= f.hdrSize == |hdr|
    ensures Shaped(f, e)
  {
    Entry(hdr, seq(|f.rows|, i requires 0 <= i < |f.rows| =>
      if |Value(f.rows[i], rtas)| <= f.rows[i].size then Pad(Value(f.rows[i], rtas), f.rows[i].size)
      else Zeros(f.rows[i].size)))
  }

  lemma {:induction false} LookalikeMatches(f: Family, hdr: Bytes, rtas: seq<Option<Bytes>>, i: nat)
    requires Covered(f, rtas) && |f.mask| <= f.hdrSize == |hdr| && i <= |f.rows|
    ensures MatchFrom(f, Lookalike(f, hdr, rtas), rtas, i) != 0
    decreases |f.rows| - i
  {
    if i < |f.rows| {
      LookalikeMatches(f, hdr, rtas, i + 1);
    }
  }

  /** Matching is equality of keys for every entry exactly when every unique attribute
      fits its field: rtnl_entry_match answers -1 for one that does not, and its callers
      take that for a match. */
  lemma MatchExact(f: Family, hdr: Bytes, rtas: seq<Option<Bytes>>)
    requires Covered(f, rtas) && |f.mask| <= f.hdrSize == |hdr|
    ensures (forall e :: Shaped(f, e) ==> (Matches(f, e, hdr, rtas) <==> KeyOf(f, e) == MsgKey(f, hdr, rtas)))
            <==> UniqueFit(f, rtas)
  {
    if UniqueFit(f, rtas) {
      forall e | Shaped(f, e) ensures Matches(f, e, hdr, rtas) <==> KeyOf(f, e) == MsgKey(f, hdr, rtas) {
        MatchIsKey(f, e, hdr, rtas);
      }
    } else {
      var e := Lookalike(f, hdr, rtas);
      LookalikeMatches(f, hdr, rtas, 0);
      SameKeyMeans(f, e, hdr, rtas);
      var i :| 0 <= i < |f.rows| && f.rows[i].unique && |Value(f.rows[i], rtas)| > f.rows[i].size;
      assert !Agrees(f, e, rtas, i);
      assert Matches(f, e, hdr, rtas) && KeyOf(f, e) != MsgKey(f, hdr, rtas);
    }
  }

  // ---------- filling ----------

  /** What memcpy takes for RTA_ENCAP: its payload is itself an attribute, and 28 bytes
      are copied from behind the inner header whatever its length; stale is what lies in
      memory after the payload. */
  function EncapMemory(payload: Bytes, stale: Bytes): (b: Bytes)
    requires |stale| >= 32
    ensures |b| >= 32
  {
    payload + stale
  }

  predicate EncapFits(payload: Bytes, stale: Bytes)
    requires |stale| >= 32
  {
    4 <= Le16(EncapMemory(payload, stale), 0) <= 32
  }

  function EncapStored(payload: Bytes, stale: Bytes): (b: Bytes)
    requires |stale| >= 32
    ensures |b| == 28
  {
    EncapMemory(payload, stale)[4..32]
  }

  /** The attribute of a row stops rtnl_entry_set. */
  predicate Stops(m: Mapping, rtas: seq<Option<Bytes>>, stale: Bytes)
    requires m.kind < |rtas| && |stale| >= 32
  {
    && rtas[m.kind].Some?
    && if m.kind == RTA_ENCAP then !EncapFits(rtas[m.kind].value, stale)
       else |rtas[m.kind].value| > m.size
  }

  /** The new value of a field whose row is reached and does not stop. */
  function NewField(m: Mapping, was: Bytes, rtas: seq<Option<Bytes>>, stale: Bytes, init: bool): Bytes
    requires m.kind < |rtas| && |stale| >= 32
  {
    if rtas[m.kind].None? then (if init then Zeros(m.size) else was)
    else if m.kind == RTA_ENCAP then EncapStored(rtas[m.kind].value, stale)
    else Pad(rtas[m.kind].value, m.size)
  }

  /** The first row from i on that stops. */
  function StopRow(f: Family, rtas: seq<Option<Bytes>>, stale: Bytes, i: nat): (r: nat)
    requires Covered(f, rtas) && |stale| >= 32 && i <= |f.rows|
    ensures i <= r <= |f.rows|
    ensures forall j :: i <= j < r ==> !Stops(f.rows[j], rtas, stale)
    ensures r < |f.rows| ==> Stops(f.rows[r], rtas, stale)
    decreases |f.rows| - i
  {
    if i == |f.rows| || Stops(f.rows[i], rtas, stale) then i else StopRow(f, rtas, stale, i + 1)
  }

  /** The fields after rtnl_entry_set. */
  function SetFields(f: Family, fields: seq<Bytes>, rtas: seq<Option<Bytes>>, stale: Bytes, init: bool): (r: seq<Bytes>)
    requires Covered(f, rtas) && |stale| >= 32 && |fields| == |f.rows|
    ensures |r| == |fields|
  {
    seq(|fields|, i requires 0 <= i < |fields| =>
      if i < StopRow(f, rtas, stale, 0) then NewField(f.rows[i], fields[i], rtas, stale, init) else fields[i])
  }

  lemma SetShaped(f: Family, e: Entry, hdr: Bytes, rtas: seq<Option<Bytes>>, stale: Bytes, init: bool)
    requires FamilyOk(f) && Shaped(f, e) && |hdr| == f.hdrSize && Covered(f, rtas) && |stale| >= 32
    ensures Shaped(f, Entry(hdr, SetFields(f, e.fields, rtas, stale, init)))
  {
  }

  /** Every mapped attribute fits its field. */
  predicate Fits(f: Family, rtas: seq<Option<Bytes>>)
    requires Covered(f, rtas)
  {
    forall i :: 0 <= i < |f.rows| ==> |Value(f.rows[i], rtas)| <= f.rows[i].size
  }

  /** RTA_ENCAP is absent, or is stored in the very form in which it will be compared. */
  predicate EncapAgrees(rtas: seq<Option<Bytes>>, stale: Bytes)
    requires |stale| >= 32
  {
    RTA_ENCAP < |rtas| && rtas[RTA_ENCAP].Some? ==>
      var p := rtas[RTA_ENCAP].value;
      Pad(p, 28) == if EncapFits(p, stale) then EncapStored(p, stale) else Zeros(28)
  }

  predicate HasEncap(f: Family) {
    exists i :: 0 <= i < |f.rows| && f.rows[i].kind == RTA_ENCAP
  }

  /** A message that the mirror can represent. */
  predicate Clean(f: Family, rtas: seq<Option<Bytes>>, stale: Bytes)
    requires Covered(f, rtas) && |stale| >= 32
  {
    Fits(f, rtas) && (HasEncap(f) ==> EncapAgrees(rtas, stale))
  }

  /** The meaning of a NEW message for the fields: attributes in the message replace
      values, the others stay, or are zero in a new entry. */
  function Merge(f: Family, fields: seq<Bytes>, rtas: seq<Option<Bytes>>, init: bool): (r: seq<Bytes>)
    requires Covered(f, rtas) && |fields| == |f.rows|
    ensures |r| == |fields|
  {
    seq(|fields|, i requires 0 <= i < |fields| =>
      if rtas[f.rows[i].kind].Some? then Pad(rtas[f.rows[i].kind].value, f.rows[i].size)
      else if init then Zeros(f.rows[i].size) else fields[i])
  }

  /** The field of RTA_ENCAP before a set: zero in a new entry, and the padded value in
      one that matched. */
  predicate EncapReady(f: Family, fields: seq<Bytes>, rtas: seq<Option<Bytes>>, init: bool)
    requires Covered(f, rtas) && |fields| == |f.rows|
  {
    forall i :: 0 <= i < |f.rows| && f.rows[i].kind == RTA_ENCAP ==>
      fields[i] == if init then Zeros(28) else Pad(Value(f.rows[i], rtas), 28)
  }

  /** For a clean message rtnl_entry_set does what is meant. */
  lemma SetIsMerge(f: Family, fields: seq<Bytes>, rtas: seq<Option<Bytes>>, stale: Bytes, init: bool)
    requires FamilyOk(f) && Covered(f, rtas) && |stale| >= 32 && |fields| == |f.rows|
    requires Clean(f, rtas, stale) && EncapReady(f, fields, rtas, init)
    ensures SetFields(f, fields, rtas, stale, init) == Merge(f, fields, rtas, init)
  {
    var stop := StopRow(f, rtas, stale, 0);
    assert stop < |f.rows| ==> f.rows[stop].kind == RTA_ENCAP && stop == |f.rows| - 1;
    forall i | 0 <= i < |f.rows|
      ensures SetFields(f, fields, rtas, stale, init)[i] == Merge(f, fields, rtas, init)[i] {
      if f.rows[i].kind == RTA_ENCAP && rtas[RTA_ENCAP].Some? {
        assert HasEncap(f) && i == |f.rows| - 1;
      }
    }
  }

  /** The key of the entry is the key the message means, before and after. */
  lemma MergeKey(f: Family, e: Entry, hdr: Bytes, rtas: seq<Option<Bytes>>, init: bool)
    requires FamilyOk(f) && Shaped(f, e) && |hdr| == f.hdrSize && Covered(f, rtas) && Fits(f, rtas)
    requires init || KeyOf(f, e) == MsgKey(f, hdr, rtas)
    ensures Shaped(f, Entry(hdr, Merge(f, e.fields, rtas, init)))
    ensures KeyOf(f, Entry(hdr, Merge(f, e.fields, rtas, init))) == MsgKey(f, hdr, rtas)
  {
    var e' := Entry(hdr, Merge(f, e.fields, rtas, init));
    if !init {
      SameKeyMeans(f, e, hdr, rtas);
    }
    forall i | 0 <= i < |f.rows| ensures Agrees(f, e', rtas, i) {
      assert Pad([], f.rows[i].size) == Zeros(f.rows[i].size);
      assert !init ==> Agrees(f, e, rtas, i);
    }
    SameKeyMeans(f, e', hdr, rtas);
  }

  /** An entry all of whose fields are zero. */
  function Blank(f: Family): (e: Entry)
    requires |f.mask| <= f.hdrSize
    ensures Shaped(f, e)
  {
    Entry(Zeros(f.hdrSize), seq(|f.rows|, i requires 0 <= i < |f.rows| => Zeros(f.rows[i].size)))
  }

  /** A message whose attributes fit creates an entry with its own key exactly when it
      carries no RTA_ENCAP or one that is stored as it is compared. */
  lemma EncapExact(f: Family, hdr: Bytes, rtas: seq<Option<Bytes>>, stale: Bytes)
    requires FamilyOk(f) && |hdr| == f.hdrSize && Covered(f, rtas) && |stale| >= 32 && Fits(f, rtas)
    ensures var e := Entry(hdr, SetFields(f, Blank(f).fields, rtas, stale, true));
      Shaped(f, e) && (KeyOf(f, e) == MsgKey(f, hdr, rtas) <==> Clean(f, rtas, stale))
  {
    var blank := Blank(f);
    var e := Entry(hdr, SetFields(f, blank.fields, rtas, stale, true));
    SetShaped(f, blank, hdr, rtas, stale, true);
    if Clean(f, rtas, stale) {
      SetIsMerge(f, blank.fields, rtas, stale, true);
      MergeKey(f, blank, hdr, rtas, true);
    } else {
      var i :| 0 <= i < |f.rows| && f.rows[i].kind == RTA_ENCAP;
      SameKeyMeans(f, e, hdr, rtas);
      assert !Agrees(f, e, rtas, i);
    }
  }

  // ---------- the table that a pool stands for ----------

  type Pool = seq<Option<Entry>>

  ghost predicate PoolShaped(f: Family, pool: Pool) {
    forall i :: 0 <= i < |pool| && pool[i].Some? ==> Shaped(f, pool[i].value)
  }

  /** No two entries have the same key. */
  ghost predicate UniqueKeys(f: Family, pool: Pool)
    requires PoolShaped(f, pool)
  {
    forall i, j :: 0 <= i < j < |pool| && pool[i].Some? && pool[j].Some? ==>
        KeyOf(f, pool[i].value) != KeyOf(f, pool[j].value)
  }

  type Table = map<Key, Entry>

  ghost function TableOf(f: Family, pool: Pool): Table
    requires PoolShaped(f, pool) && UniqueKeys(f, pool)
  {
    map i | 0 <= i < |pool| && pool[i].Some? :: KeyOf(f, pool[i].value) := pool[i].value
  }

  lemma TableAt(f: Family, pool: Pool, i: nat)
    requires PoolShaped(f, pool) && UniqueKeys(f, pool) && i < |pool| && pool[i].Some?
    ensures KeyOf(f, pool[i].value) in TableOf(f, pool) && TableOf(f, pool)[KeyOf(f, pool[i].value)] == pool[i].value
  {
  }

  /** A new entry in a free slot, or at the end. */
  ghost predicate Placed(pool: Pool, pool': Pool, s: nat, e: Entry) {
    && s <= |pool|
    && (s < |pool| ==> pool[s].None?)
    && pool' == if s < |pool| then pool[s := Some(e)] else pool + [Some(e)]
  }

  ghost predicate Holds(f: Family, pool: Pool, k: Key, e: Entry)
    requires PoolShaped(f, pool)
  {
    exists i :: 0 <= i < |pool| && pool[i] == Some(e) && KeyOf(f, e) == k
  }

  predicate At(t: Table, k: Key, e: Entry) {
    k in t && t[k] == e
  }

  lemma TableEqual(t: Table, t': Table)
    requires forall k, e :: At(t, k, e) <==> At(t', k, e)
    ensures t == t'
  {
    assert forall k :: k in t ==> At(t, k, t[k]);
    assert forall k :: k in t' ==> At(t', k, t'[k]);
  }

  lemma TableMeans(f: Family, pool: Pool, k: Key, e: Entry)
    requires PoolShaped(f, pool) && UniqueKeys(f, pool)
    ensures At(TableOf(f, pool), k, e) <==> Holds(f, pool, k, e)
  {
    hide KeyOf;
    hide Shaped;
    if k in TableOf(f, pool) {
      var i :| 0 <= i < |pool| && pool[i].Some? && KeyOf(f, pool[i].value) == k;
      TableAt(f, pool, i);
    }
  }

  lemma TableIs(f: Family, pool: Pool, t: Table)
    requires PoolShaped(f, pool) && UniqueKeys(f, pool)
    requires forall k, e :: At(t, k, e) <==> Holds(f, pool, k, e)
    ensures TableOf(f, pool) == t
  {
    hide TableOf;
    hide UniqueKeys;
    hide Holds;
    var t' := TableOf(f, pool);
    forall k, e ensures At(t', k, e) <==> At(t, k, e) {
      TableMeans(f, pool, k, e);
    }
    TableEqual(t', t);
  }

  lemma HoldsAdd(f: Family, pool: Pool, pool': Pool, s: nat, e: Entry, k: Key, e': Entry)
    requires PoolShaped(f, pool) && Placed(pool, pool', s, e) && Shaped(f, e)
    ensures PoolShaped(f, pool')
    ensures Holds(f, pool', k, e') <==> Holds(f, pool, k, e') || (k == KeyOf(f, e) && e' == e)
  {
    hide KeyOf;
    hide Shaped;
    assert forall i :: 0 <= i < |pool| && pool[i].Some? ==> pool'[i] == pool[i];
    assert pool'[s] == Some(e);
  }

  lemma TableAdd(f: Family, pool: Pool, pool': Pool, s: nat, e: Entry)
    requires PoolShaped(f, pool) && UniqueKeys(f, pool) && Placed(pool, pool', s, e)
    requires Shaped(f, e) && KeyOf(f, e) !in TableOf(f, pool)
    ensures PoolShaped(f, pool') && UniqueKeys(f, pool')
    ensures TableOf(f, pool') == TableOf(f, pool)[KeyOf(f, e) := e]
  {
    hide KeyOf;
    hide Shaped;
    hide Holds;
    var key := KeyOf(f, e);
    HoldsAdd(f, pool, pool', s, e, key, e);
    forall i | 0 <= i < |pool| && pool[i].Some? ensures KeyOf(f, pool[i].value) != key {
      TableAt(f, pool, i);
    }
    forall i | 0 <= i < |pool'| && i != s && pool'[i].Some? ensures i < |pool| && pool'[i] == pool[i] {
    }
    hide TableOf;
    forall k, e' ensures At(TableOf(f, pool)[key := e], k, e') <==> Holds(f, pool', k, e') {
      TableMeans(f, pool, k, e');
      HoldsAdd(f, pool, pool', s, e, k, e');
    }
    TableIs(f, pool', TableOf(f, pool)[key := e]);
  }

  lemma HoldsRemove(f: Family, pool: Pool, s: nat, k: Key, e: Entry)
    requires PoolShaped(f, pool) && UniqueKeys(f, pool) && s < |pool| && pool[s].Some?
    ensures PoolShaped(f, pool[s := None]) && UniqueKeys(f, pool[s := None])
    ensures Holds(f, pool[s := None], k, e) <==> Holds(f, pool, k, e) && k != KeyOf(f, pool[s].value)
  {
    hide KeyOf;
    hide Shaped;
    var pool' := pool[s := None];
    assert forall i :: 0 <= i < |pool| && i != s ==> pool'[i] == pool[i];
  }

  lemma TableRemove(f: Family, pool: Pool, s: nat)
    requires PoolShaped(f, pool) && UniqueKeys(f, pool) && s < |pool| && pool[s].Some?
    ensures PoolShaped(f, pool[s := None]) && UniqueKeys(f, pool[s := None])
    ensures TableOf(f, pool[s := None]) == TableOf(f, pool) - {KeyOf(f, pool[s].value)}
  {
    hide KeyOf;
    hide TableOf;
    hide Holds;
    hide Shaped;
    hide UniqueKeys;
    var key := KeyOf(f, pool[s].value);
    HoldsRemove(f, pool, s, key, pool[s].value);
    forall k, e ensures At(TableOf(f, pool) - {key}, k, e) <==> Holds(f, pool[s := None], k, e) {
      TableMeans(f, pool, k, e);
      HoldsRemove(f, pool, s, k, e);
    }
    TableIs(f, pool[s := None], TableOf(f, pool) - {key});
  }

  /** Writing an entry over one with the same key. */
  lemma TableSet(f: Family, pool: Pool, s: nat, e: Entry)
    requires PoolShaped(f, pool) && UniqueKeys(f, pool) && s < |pool| && pool[s].Some?
    requires Shaped(f, e) && KeyOf(f, e) == KeyOf(f, pool[s].value)
    ensures PoolShaped(f, pool[s := Some(e)]) && UniqueKeys(f, pool[s := Some(e)])
    ensures TableOf(f, pool[s := Some(e)]) == TableOf(f, pool)[KeyOf(f, e) := e]
  {
    hide TableOf;
    hide KeyOf;
    hide Shaped;
    hide UniqueKeys;
    TableRemove(f, pool, s);
    assert pool[s := None][s := Some(e)] == pool[s := Some(e)];
    TableAdd(f, pool[s := None], pool[s := Some(e)], s, e);
    assert (TableOf(f, pool) - {KeyOf(f, e)})[KeyOf(f, e) := e] == TableOf(f, pool)[KeyOf(f, e) := e];
  }

  // ---------- one message ----------

  /** A parsed message. */
  datatype Msg = Msg(del: bool, hdr: Bytes, rtas: seq<Option<Bytes>>)

  ghost predicate MsgOk(f: Family, m: Msg) {
    |f.mask| <= f.hdrSize && |m.hdr| == f.hdrSize && Covered(f, m.rtas)
  }

  /** The lowest index from i on that matches, as pool_foreach finds it. */
  function FindFrom(f: Family, pool: Pool, m: Msg, i: nat): (r: Option<nat>)
    requires MsgOk(f, m) && PoolShaped(f, pool) && i <= |pool|
    ensures r.Some? ==> i <= r.value < |pool| && pool[r.value].Some? && Matches(f, pool[r.value].value, m.hdr, m.rtas)
    ensures forall j :: i <= j < |pool| && (r.Some? ==> j < r.value) && pool[j].Some? ==>
              !Matches(f, pool[j].value, m.hdr, m.rtas)
    decreases |pool| - i
  {
    if i == |pool| then None
    else if pool[i].Some? && Matches(f, pool[i].value, m.hdr, m.rtas) then Some(i)
    else FindFrom(f, pool, m, i + 1)
  }

  /** What one message does to a pool: rv, and the entry reported to the subscribers; base
      is what the new slot holds before it is filled. */
  ghost predicate Stepped(f: Family, pool: Pool, pool': Pool, m: Msg, stale: Bytes, base: Entry, rv: int,
                          told: Option<Entry>)
    requires FamilyOk(f) && MsgOk(f, m) && PoolShaped(f, pool) && |stale| >= 32 && Shaped(f, base)
  {
    match FindFrom(f, pool, m, 0)
    case None =>
      if m.del then rv == -1 && pool' == pool && told == None
      else
        var e := Entry(m.hdr, SetFields(f, base.fields, m.rtas, stale, true));
        rv == 0 && told == Some(e) && exists s: nat :: Placed(pool, pool', s, e)
    case Some(i) =>
      && rv == 0
      && told == (if m.del then pool[i]
                  else Some(Entry(m.hdr, SetFields(f, pool[i].value.fields, m.rtas, stale, false))))
      && pool' == pool[i := if m.del then None else told]
  }

  /** A message that means one key, and when NEW, can be represented. */
  predicate Proper(f: Family, m: Msg, stale: Bytes)
    requires MsgOk(f, m) && |stale| >= 32
  {
    UniqueFit(f, m.rtas) && (!m.del ==> Clean(f, m.rtas, stale))
  }

  ghost predicate TableShaped(f: Family, t: Table) {
    forall k :: k in t ==> Shaped(f, t[k])
  }

  /** What a message means for the table. */
  ghost function Applied(f: Family, t: Table, m: Msg): Table
    requires MsgOk(f, m) && TableShaped(f, t)
  {
    var k := MsgKey(f, m.hdr, m.rtas);
    if m.del then t - {k}
    else if k in t then t[k := Entry(m.hdr, Merge(f, t[k].fields, m.rtas, false))]
    else t[k := Entry(m.hdr, Merge(f, Blank(f).fields, m.rtas, true))]
  }

  /** With unique keys the search finds the entry of the message's key. */
  lemma FindIsLookup(f: Family, pool: Pool, m: Msg)
    requires MsgOk(f, m) && PoolShaped(f, pool) && UniqueKeys(f, pool) && UniqueFit(f, m.rtas)
    ensures var (r, k) := (FindFrom(f, pool, m, 0), MsgKey(f, m.hdr, m.rtas));
      && (r.Some? <==> k in TableOf(f, pool))
      && (r.Some? ==> KeyOf(f, pool[r.value].value) == k && TableOf(f, pool)[k] == pool[r.value].value)
  {
    hide KeyOf;
    hide MsgKey;
    hide Matches;
    var r, k := FindFrom(f, pool, m, 0), MsgKey(f, m.hdr, m.rtas);
    forall i | 0 <= i < |pool| && pool[i].Some?
      ensures Matches(f, pool[i].value, m.hdr, m.rtas) <==> KeyOf(f, pool[i].value) == k {
      MatchIsKey(f, pool[i].value, m.hdr, m.rtas);
    }
    if r.Some? {
      TableAt(f, pool, r.value);
    }
  }

  lemma TableIsShaped(f: Family, pool: Pool)
    requires PoolShaped(f, pool) && UniqueKeys(f, pool)
    ensures TableShaped(f, TableOf(f, pool))
  {
    hide KeyOf;
    hide Shaped;
  }

  /** What the subscribers are told of a message that changes the table. */
  ghost function Told(f: Family, t: Table, m: Msg): Option<Entry>
    requires MsgOk(f, m) && TableShaped(f, t)
  {
    var k := MsgKey(f, m.hdr, m.rtas);
    if !m.del then Some(Applied(f, t, m)[k])
    else if k in t then Some(t[k])
    else None
  }

  ghost predicate BaseOk(f: Family, base: Entry) {
    Shaped(f, base) && (HasEncap(f) ==> base == Blank(f))
  }

  lemma SetNew(f: Family, base: Entry, m: Msg, stale: Bytes)
    requires FamilyOk(f) && MsgOk(f, m) && |stale| >= 32 && BaseOk(f, base) && Clean(f, m.rtas, stale)
    ensures SetFields(f, base.fields, m.rtas, stale, true) == Merge(f, Blank(f).fields, m.rtas, true)
  {
    forall i | 0 <= i < |f.rows| && f.rows[i].kind == RTA_ENCAP ensures base.fields[i] == Zeros(28) {
      assert HasEncap(f);
    }
    SetIsMerge(f, base.fields, m.rtas, stale, true);
    assert Merge(f, base.fields, m.rtas, true) == Merge(f, Blank(f).fields, m.rtas, true);
  }

  lemma SetOld(f: Family, e: Entry, m: Msg, stale: Bytes)
    requires FamilyOk(f) && MsgOk(f, m) && |stale| >= 32 && Shaped(f, e) && Clean(f, m.rtas, stale)
    requires KeyOf(f, e) == MsgKey(f, m.hdr, m.rtas)
    ensures SetFields(f, e.fields, m.rtas, stale, false) == Merge(f, e.fields, m.rtas, false)
  {
    SameKeyMeans(f, e, m.hdr, m.rtas);
    forall i | 0 <= i < |f.rows| && f.rows[i].kind == RTA_ENCAP
      ensures e.fields[i] == Pad(Value(f.rows[i], m.rtas), 28) {
      assert Agrees(f, e, m.rtas, i);
    }
    SetIsMerge(f, e.fields, m.rtas, stale, false);
  }

  /** One proper message changes the table as it means, and tells the subscribers so. */
  lemma StepRefines(f: Family, pool: Pool, pool': Pool, m: Msg, stale: Bytes, base: Entry, rv: int, told: Option<Entry>)
    requires FamilyOk(f) && MsgOk(f, m) && PoolShaped(f, pool) && UniqueKeys(f, pool) && |stale| >= 32
    requires BaseOk(f, base)
    requires Stepped(f, pool, pool', m, stale, base, rv, told) && Proper(f, m, stale)
    ensures PoolShaped(f, pool') && UniqueKeys(f, pool')
    ensures TableShaped(f, TableOf(f, pool))
    ensures TableOf(f, pool') == Applied(f, TableOf(f, pool), m)
    ensures told == Told(f, TableOf(f, pool), m)
    ensures rv == if told.Some? then 0 else -1
  {
    TableIsShaped(f, pool);
    FindIsLookup(f, pool, m);
    var k := MsgKey(f, m.hdr, m.rtas);
    hide TableOf;
    hide KeyOf;
    hide MsgKey;
    hide Shaped;
    hide SetFields;
    hide Merge;
    hide Clean;
    hide UniqueFit;
    hide UniqueKeys;
    match FindFrom(f, pool, m, 0)
    case None =>
      if !m.del {
        SetNew(f, base, m, stale);
        CleanFits(f, m.rtas, stale);
        MergeKey(f, Blank(f), m.hdr, m.rtas, true);
        var e := told.value;
        var s: nat :| Placed(pool, pool', s, e);
        TableAdd(f, pool, pool', s, e);
      } else {
        assert TableOf(f, pool) - {k} == TableOf(f, pool);
      }
    case Some(i) =>
      if m.del {
        TableRemove(f, pool, i);
      } else {
        SetOld(f, pool[i].value, m, stale);
        CleanFits(f, m.rtas, stale);
        MergeKey(f, pool[i].value, m.hdr, m.rtas, false);
        TableSet(f, pool, i, told.value);
      }
  }

  lemma CleanFits(f: Family, rtas: seq<Option<Bytes>>, stale: Bytes)
    requires Covered(f, rtas) && |stale| >= 32 && Clean(f, rtas, stale)
    ensures Fits(f, rtas)
  {
  }

  // ---------- notifications ----------

  /** What netns_notify hands to every subscriber of the namespace. */
  datatype Notice = Notice(kind: Kind, add: bool, entry: Entry)

  ghost predicate LogShaped(log: seq<Notice>) {
    forall n :: n in log ==> Shaped(FamilyOf(n.kind), n.entry)
  }

  ghost function Noted(t: Table, n: Notice): Table
    requires Shaped(FamilyOf(n.kind), n.entry)
  {
    var k := KeyOf(FamilyOf(n.kind), n.entry);
    if n.add then t[k := n.entry] else t - {k}
  }

  /** The table a subscriber builds from its notifications about one kind. */
  ghost function Fold(kind: Kind, log: seq<Notice>): Table
    requires LogShaped(log)
  {
    if log == [] then map[]
    else
      var t := Fold(kind, log[..|log| - 1]);
      if log[|log| - 1].kind == kind then Noted(t, log[|log| - 1]) else t
  }

  lemma FoldMore(kind: Kind, log: seq<Notice>, n: Notice)
    requires LogShaped(log) && Shaped(FamilyOf(n.kind), n.entry)
    ensures LogShaped(log + [n])
    ensures Fold(kind, log + [n]) == if n.kind == kind then Noted(Fold(kind, log), n) else Fold(kind, log)
  {
    assert (log + [n])[..|log|] == log;
  }

  /** A notification says what the message does. */
  lemma ToldIsApplied(kind: Kind, t: Table, m: Msg)
    requires var f := FamilyOf(kind);
      && MsgOk(f, m) && TableShaped(f, t) && (m.del || Fits(f, m.rtas))
      && forall k :: k in t ==> KeyOf(f, t[k]) == k
    ensures var (f, told) := (FamilyOf(kind), Told(FamilyOf(kind), t, m));
      && (told.Some? ==> Shaped(f, told.value) && Noted(t, Notice(kind, !m.del, told.value)) == Applied(f, t, m))
      && (told.None? ==> Applied(f, t, m) == t)
  {
    var f := FamilyOf(kind);
    var k := MsgKey(f, m.hdr, m.rtas);
    hide FamilyOf;
    if !m.del {
      if k in t {
        MergeKey(f, t[k], m.hdr, m.rtas, false);
      } else {
        MergeKey(f, Blank(f), m.hdr, m.rtas, true);
      }
    }
  }

  /** Whatever the message, entries keep their shape. */
  lemma StepShaped(f: Family, pool: Pool, pool': Pool, m: Msg, stale: Bytes, base: Entry, rv: int, told: Option<Entry>)
    requires FamilyOk(f) && MsgOk(f, m) && PoolShaped(f, pool) && |stale| >= 32 && Shaped(f, base)
    requires Stepped(f, pool, pool', m, stale, base, rv, told)
    ensures PoolShaped(f, pool')
    ensures told.Some? ==> Shaped(f, told.value)
  {
    SetShaped(f, base, m.hdr, m.rtas, stale, true);
    var r := FindFrom(f, pool, m, 0);
    if r.Some? {
      SetShaped(f, pool[r.value].value, m.hdr, m.rtas, stale, false);
    }
    hide Shaped;
    hide FindFrom;
    hide SetFields;
  }

  lemma TableKeyed(f: Family, pool: Pool)
    requires PoolShaped(f, pool) && UniqueKeys(f, pool)
    ensures TableShaped(f, TableOf(f, pool))
    ensures forall k :: k in TableOf(f, pool) ==> KeyOf(f, TableOf(f, pool)[k]) == k
  {
    hide KeyOf;
    hide Shaped;
  }

  /** The table, the answer and the log after a message. */
  ghost predicate Handled(kind: Kind, t: Table, log: seq<Notice>, m: Msg, rv: int, t': Table, log': seq<Notice>)
    requires MsgOk(FamilyOf(kind), m)
  {
    var f := FamilyOf(kind);
    && TableShaped(f, t)
    && t' == Applied(f, t, m)
    && rv == (if m.del && MsgKey(f, m.hdr, m.rtas) !in t then -1 else 0)
    && log' == log + if rv == 0 then [Notice(kind, !m.del, Told(f, t, m).value)] else []
  }

  /** Links are the only entries not zeroed when they are made. */
  function Base(kind: Kind, junk: Entry): Entry {
    if kind == Link then junk else Blank(FamilyOf(kind))
  }

  lemma BaseIsOk(kind: Kind, junk: Entry)
    requires Shaped(FamilyOf(kind), junk)
    ensures BaseOk(FamilyOf(kind), Base(kind, junk))
  {
  }

  function Report(kind: Kind, del: bool, told: Option<Entry>): seq<Notice> {
    if told.Some? then [Notice(kind, !del, told.value)] else []
  }

  /** What any message does, proper or not. */
  ghost predicate Acted(kind: Kind, pool: Pool, pool': Pool, log: seq<Notice>, log': seq<Notice>,
                        m: Msg, stale: Bytes, junk: Entry, rv: int)
    requires var f := FamilyOf(kind);
      MsgOk(f, m) && PoolShaped(f, pool) && |stale| >= 32 && Shaped(f, junk)
  {
    && Shaped(FamilyOf(kind), Base(kind, junk))
    && exists told :: Stepped(FamilyOf(kind), pool, pool', m, stale, Base(kind, junk), rv, told)
                      && log' == log + Report(kind, m.del, told)
  }

  /** One proper message and the subscribers' view of it. */
  lemma MirrorStep(kind: Kind, pool: Pool, pool': Pool, log: seq<Notice>, m: Msg, stale: Bytes, junk: Entry, rv: int,
                   told: Option<Entry>)
    requires var f := FamilyOf(kind);
      && MsgOk(f, m) && PoolShaped(f, pool) && UniqueKeys(f, pool) && |stale| >= 32 && Shaped(f, junk)
      && Shaped(f, Base(kind, junk))
      && Stepped(f, pool, pool', m, stale, Base(kind, junk), rv, told) && Proper(f, m, stale)
      && LogShaped(log) && Fold(kind, log) == TableOf(f, pool)
    ensures var (f, log') := (FamilyOf(kind), log + Report(kind, m.del, told));
      && PoolShaped(f, pool') && UniqueKeys(f, pool') && LogShaped(log')
      && Fold(kind, log') == TableOf(f, pool')
      && Handled(kind, TableOf(f, pool), log, m, rv, TableOf(f, pool'), log')
  {
    var f, t := FamilyOf(kind), TableOf(FamilyOf(kind), pool);
    BaseIsOk(kind, junk);
    hide FamilyOf;
    hide Base;
    hide TableOf;
    hide UniqueKeys;
    hide Stepped;
    hide Shaped;
    hide KeyOf;
    hide MsgKey;
    hide Clean;
    hide UniqueFit;
    hide Applied;
    StepRefines(f, pool, pool', m, stale, Base(kind, junk), rv, told);
    TableKeyed(f, pool);
    if !m.del {
      CleanFits(f, m.rtas, stale);
    }
    ToldIsApplied(kind, t, m);
    if told.Some? {
      FoldMore(kind, log, Notice(kind, !m.del, told.value));
    } else {
      assert log + [] == log;
    }
  }

  /** The other kinds do not notice. */
  lemma OtherFold(kind: Kind, other: Kind, log: seq<Notice>, del: bool, told: Option<Entry>)
    requires other != kind && LogShaped(log) && (told.Some? ==> Shaped(FamilyOf(kind), told.value))
    ensures LogShaped(log + Report(kind, del, told))
    ensures Fold(other, log + Report(kind, del, told)) == Fold(other, log)
  {
    if told.Some? {
      FoldMore(other, log, Notice(kind, !del, told.value));
    } else {
      assert log + [] == log;
    }
  }

  // ---------- the four pools ----------

  type Pools = map<Kind, Pool>

  ghost predicate PoolsOk(pools: Pools, log: seq<Notice>) {
    && LogShaped(log)
    && forall kind :: kind in pools && PoolShaped(FamilyOf(kind), pools[kind])
  }

  /** Keys are unique, and whoever folds the notifications has the same tables. */
  ghost predicate MirrorOk(pools: Pools, log: seq<Notice>)
    requires PoolsOk(pools, log)
  {
    forall kind :: UniqueKeys(FamilyOf(kind), pools[kind]) && Fold(kind, log) == TableOf(FamilyOf(kind), pools[kind])
  }

  /** A handler's whole effect. A malformed message does nothing; other kinds of objects are
      not touched; and a proper message does to tables and log what it means. */
  ghost predicate Outcome(kind: Kind, parsed: Option<Msg>, stale: Bytes, junk: Entry,
                          pools: Pools, log: seq<Notice>, pools': Pools, log': seq<Notice>, rv: int)
    requires PoolsOk(pools, log) && PoolsOk(pools', log') && |stale| >= 32 && Shaped(FamilyOf(kind), junk)
  {
    var f := FamilyOf(kind);
    if parsed.None? then rv == -1 && pools' == pools && log' == log
    else
      && MsgOk(f, parsed.value)
      && (forall other :: other != kind ==> pools'[other] == pools[other])
      && Acted(kind, pools[kind], pools'[kind], log, log', parsed.value, stale, junk, rv)
      && (MirrorOk(pools, log) && Proper(f, parsed.value, stale) ==>
           && MirrorOk(pools', log')
           && Handled(kind, TableOf(f, pools[kind]), log, parsed.value, rv, TableOf(f, pools'[kind]), log'))
  }

  lemma MirrorMore(kind: Kind, m: Msg, stale: Bytes, junk: Entry, pools: Pools, log: seq<Notice>, pools': Pools,
                   log': seq<Notice>, rv: int, told: Option<Entry>)
    requires PoolsOk(pools, log) && PoolsOk(pools', log') && |stale| >= 32 && Shaped(FamilyOf(kind), junk)
    requires MsgOk(FamilyOf(kind), m)
    requires Shaped(FamilyOf(kind), Base(kind, junk))
    requires forall other :: other != kind ==> pools'[other] == pools[other]
    requires Stepped(FamilyOf(kind), pools[kind], pools'[kind], m, stale, Base(kind, junk), rv, told)
    requires log' == log + Report(kind, m.del, told) && (told.Some? ==> Shaped(FamilyOf(kind), told.value))
    requires MirrorOk(pools, log) && Proper(FamilyOf(kind), m, stale)
    ensures MirrorOk(pools', log')
    ensures Handled(kind, TableOf(FamilyOf(kind), pools[kind]), log, m, rv, TableOf(FamilyOf(kind), pools'[kind]), log')
  {
    hide FamilyOf;
    hide Stepped;
    hide TableOf;
    hide UniqueKeys;
    hide Shaped;
    hide Base;
    hide Handled;
    hide Proper;
    hide Report;
    hide Fold;
    MirrorStep(kind, pools[kind], pools'[kind], log, m, stale, junk, rv, told);
    forall other: Kind | other != kind ensures Fold(other, log') == Fold(other, log) {
      OtherFold(kind, other, log, m.del, told);
    }
  }

  lemma StepPoolsOk(kind: Kind, m: Msg, stale: Bytes, junk: Entry, pools: Pools, log: seq<Notice>, pools': Pools,
                    log': seq<Notice>, rv: int, told: Option<Entry>)
    requires PoolsOk(pools, log) && |stale| >= 32 && MsgOk(FamilyOf(kind), m)
    requires Shaped(FamilyOf(kind), Base(kind, junk))
    requires kind in pools' && pools' == pools[kind := pools'[kind]]
    requires Stepped(FamilyOf(kind), pools[kind], pools'[kind], m, stale, Base(kind, junk), rv, told)
    requires log' == log + Report(kind, m.del, told)
    ensures PoolsOk(pools', log') && (told.Some? ==> Shaped(FamilyOf(kind), told.value))
    ensures forall other :: other != kind ==> pools'[other] == pools[other]
  {
    var f := FamilyOf(kind);
    hide FamilyOf;
    hide Base;
    hide LogShaped;
    hide Report;
    StepShaped(f, pools[kind], pools'[kind], m, stale, Base(kind, junk), rv, told);
    hide Stepped;
    hide Shaped;
    FoldShaped(kind, log, m.del, told);
    forall other: Kind ensures other in pools' && PoolShaped(FamilyOf(other), pools'[other]) {
      assert other != kind ==> pools'[other] == pools[other];
    }
  }

  lemma StepOutcome(kind: Kind, m: Msg, stale: Bytes, junk: Entry, pools: Pools, log: seq<Notice>, pools': Pools,
                    log': seq<Notice>, rv: int, told: Option<Entry>)
    requires PoolsOk(pools, log) && |stale| >= 32 && Shaped(FamilyOf(kind), junk) && MsgOk(FamilyOf(kind), m)
    requires Shaped(FamilyOf(kind), Base(kind, junk))
    requires kind in pools' && pools' == pools[kind := pools'[kind]]
    requires Stepped(FamilyOf(kind), pools[kind], pools'[kind], m, stale, Base(kind, junk), rv, told)
    requires log' == log + Report(kind, m.del, told)
    ensures PoolsOk(pools', log')
    ensures Outcome(kind, Some(m), stale, junk, pools, log, pools', log', rv)
  {
    StepPoolsOk(kind, m, stale, junk, pools, log, pools', log', rv, told);
    hide FamilyOf;
    hide Stepped;
    hide TableOf;
    hide UniqueKeys;
    hide Shaped;
    hide Base;
    hide Handled;
    hide Proper;
    hide MirrorOk;
    hide LogShaped;
    hide Report;
    hide Fold;
    assert Acted(kind, pools[kind], pools'[kind], log, log', m, stale, junk, rv);
    hide Acted;
    if MirrorOk(pools, log) && Proper(FamilyOf(kind), m, stale) {
      MirrorMore(kind, m, stale, junk, pools, log, pools', log', rv, told);
    }
  }

  lemma FoldShaped(kind: Kind, log: seq<Notice>, del: bool, told: Option<Entry>)
    requires LogShaped(log) && (told.Some? ==> Shaped(FamilyOf(kind), told.value))
    ensures LogShaped(log + Report(kind, del, told))
  {
  }

  // ---------- whole runs ----------

  ghost predicate RunOk(f: Family, msgs: seq<Msg>) {
    FamilyOk(f) && forall m :: m in msgs ==> MsgOk(f, m) && (m.del || Fits(f, m.rtas))
  }

  lemma AppliedShaped(f: Family, t: Table, m: Msg)
    requires FamilyOk(f) && MsgOk(f, m) && (m.del || Fits(f, m.rtas)) && TableShaped(f, t)
    ensures TableShaped(f, Applied(f, t, m))
  {
  }

  /** The table after a run of messages. */
  ghost function After(f: Family, msgs: seq<Msg>): (t: Table)
    requires RunOk(f, msgs)
    ensures TableShaped(f, t)
  {
    if msgs == [] then map[]
    else
      var t, m := After(f, msgs[..|msgs| - 1]), msgs[|msgs| - 1];
      AppliedShaped(f, t, m);
      Applied(f, t, m)
  }

  ghost predicate Names(f: Family, m: Msg, k: Key) {
    MsgOk(f, m) && MsgKey(f, m.hdr, m.rtas) == k
  }

  ghost predicate Carries(f: Family, m: Msg, i: nat) {
    MsgOk(f, m) && i < |f.rows| && m.rtas[f.rows[i].kind].Some?
  }

  /** Message n is a NEW for k with no DEL for k after it. */
  ghost predicate Alive(f: Family, msgs: seq<Msg>, k: Key, n: nat) {
    && n < |msgs| && Names(f, msgs[n], k) && !msgs[n].del
    && forall j :: n < j < |msgs| && Names(f, msgs[j], k) ==> !msgs[j].del
  }

  /** And it is the last of those that carry the attribute of row i. */
  ghost predicate LastToSet(f: Family, msgs: seq<Msg>, k: Key, i: nat, n: nat) {
    && Alive(f, msgs, k, n) && Carries(f, msgs[n], i)
    && forall j :: n < j < |msgs| && Names(f, msgs[j], k) ==> !Carries(f, msgs[j], i)
  }

  /** One message more. */
  lemma AliveMore(f: Family, msgs: seq<Msg>, m: Msg, k: Key, i: nat, n: nat)
    requires MsgOk(f, m) && i < |f.rows|
    ensures Alive(f, msgs + [m], k, n) <==>
            if n == |msgs| then Names(f, m, k) && !m.del else Alive(f, msgs, k, n) && (Names(f, m, k) ==> !m.del)
    ensures LastToSet(f, msgs + [m], k, i, n) <==>
            if n == |msgs| then Names(f, m, k) && !m.del && Carries(f, m, i)
            else LastToSet(f, msgs, k, i, n) && (Names(f, m, k) ==> !m.del && !Carries(f, m, i))
  {
    var msgs' := msgs + [m];
    assert msgs'[|msgs|] == m;
    assert forall j :: 0 <= j < |msgs| ==> msgs'[j] == msgs[j];
  }

  lemma AppliedAt(f: Family, t: Table, m: Msg, k: Key, i: nat)
    requires FamilyOk(f) && MsgOk(f, m) && TableShaped(f, t) && i < |f.rows|
    ensures var t' := Applied(f, t, m);
      if !Names(f, m, k) then (k in t' <==> k in t) && (k in t ==> t'[k] == t[k])
      else if m.del then k !in t'
      else k in t' && t'[k].hdr == m.hdr && |t'[k].fields| == |f.rows|
           && t'[k].fields[i] == if Carries(f, m, i) then Pad(Value(f.rows[i], m.rtas), f.rows[i].size)
                                 else if k in t then t[k].fields[i] else Zeros(f.rows[i].size)
  {
  }

  /** Messages applied in order: a key is there just when a NEW for it has not been followed
      by a DEL. */
  lemma {:induction false} HistoryOfKey(f: Family, msgs: seq<Msg>, k: Key)
    requires RunOk(f, msgs) && f.rows != []
    ensures k in After(f, msgs) <==> exists n: nat :: Alive(f, msgs, k, n)
  {
    if msgs != [] {
      var rest, m := msgs[..|msgs| - 1], msgs[|msgs| - 1];
      assert msgs == rest + [m];
      HistoryOfKey(f, rest, k);
      AppliedAt(f, After(f, rest), m, k, 0);
      AliveMore(f, rest, m, k, 0, |rest|);
      hide Alive;
      hide Applied;
      if n: nat :| Alive(f, msgs, k, n) {
        AliveMore(f, rest, m, k, 0, n);
      }
      if n: nat :| Alive(f, rest, k, n) && !(Names(f, m, k) && m.del) {
        AliveBefore(f, rest, k, n);
        AliveMore(f, rest, m, k, 0, n);
      }
    }
  }

  lemma AliveBefore(f: Family, msgs: seq<Msg>, k: Key, n: nat)
    requires Alive(f, msgs, k, n)
    ensures n < |msgs|
  {
  }

  /** And each field has the value that the last NEW carrying it gave. */
  lemma {:induction false} HistoryOfField(f: Family, msgs: seq<Msg>, k: Key, i: nat, n: nat)
    requires RunOk(f, msgs) && i < |f.rows| && LastToSet(f, msgs, k, i, n)
    ensures k in After(f, msgs) && After(f, msgs)[k].fields[i] == Pad(Value(f.rows[i], msgs[n].rtas), f.rows[i].size)
  {
    var rest, m := msgs[..|msgs| - 1], msgs[|msgs| - 1];
    assert msgs == rest + [m];
    AliveMore(f, rest, m, k, i, n);
    AppliedAt(f, After(f, rest), m, k, i);
    if n < |rest| {
      HistoryOfField(f, rest, k, i, n);
    }
  }

  /** Or zeros when none has since the entry was made. */
  lemma {:induction false} HistoryOfUnset(f: Family, msgs: seq<Msg>, k: Key, i: nat)
    requires RunOk(f, msgs) && i < |f.rows| && k in After(f, msgs)
    requires forall n: nat :: !LastToSet(f, msgs, k, i, n)
    ensures After(f, msgs)[k].fields[i] == Zeros(f.rows[i].size)
  {
    var rest, m := msgs[..|msgs| - 1], msgs[|msgs| - 1];
    assert msgs == rest + [m];
    AliveMore(f, rest, m, k, i, |rest|);
    AppliedAt(f, After(f, rest), m, k, i);
    if k in After(f, rest) {
      forall n: nat ensures !LastToSet(f, rest, k, i, n) {
        AliveMore(f, rest, m, k, i, n);
      }
      HistoryOfUnset(f, rest, k, i);
    }
  }

  // ---------- runs of the handlers ----------

  /** A message for a handler: data is what follows the netlink header, stale and junk are
      what happens to lie in memory. */
  datatype Input = Input(kind: Kind, del: bool, data: Bytes, stale: Bytes, junk: Entry)

  /** What a namespace holds, and what its subscribers have been told. */
  datatype Memory = Memory(pools: Pools, log: seq<Notice>)

  ghost predicate InputOk(input: Input) {
    |input.data| % 4 == 0 && |input.stale| >= 32 && Shaped(FamilyOf(input.kind), input.junk)
  }

  function Parsed(input: Input, max: Maxes): Option<Msg> {
    Parse(FamilyOf(input.kind), max(input.kind), input.del, input.data)
  }

  /** One handler was called: a malformed message does nothing, and any other acts on the
      pool of its own kind. */
  ghost predicate Ran(s: Memory, input: Input, s': Memory, max: Maxes) {
    && InputOk(input) && PoolsOk(s.pools, s.log) && PoolsOk(s'.pools, s'.log)
    && match Parsed(input, max)
       case None => s' == s
       case Some(m) =>
         && MsgOk(FamilyOf(input.kind), m)
         && (forall other :: other != input.kind ==> s'.pools[other] == s.pools[other])
         && exists rv ::
              Acted(input.kind, s.pools[input.kind], s'.pools[input.kind], s.log, s'.log, m,
                    input.stale, input.junk, rv)
  }

  ghost predicate Fresh(s: Memory) {
    s.log == [] && forall kind :: kind in s.pools && s.pools[kind] == []
  }

  /** The states of a namespace from its opening, through messages of any kind. */
  ghost predicate Run(states: seq<Memory>, inputs: seq<Input>, max: Maxes) {
    && |states| == |inputs| + 1 && Fresh(states[0])
    && forall i :: 0 <= i < |inputs| ==> Ran(states[i], inputs[i], states[i + 1], max)
  }

  /** The messages about one kind of object that could be parsed. */
  function MsgsOf(inputs: seq<Input>, kind: Kind, max: Maxes): seq<Msg> {
    if inputs == [] then []
    else
      var rest, last := MsgsOf(inputs[..|inputs| - 1], kind, max), inputs[|inputs| - 1];
      if last.kind == kind && Parsed(last, max).Some? then rest + [Parsed(last, max).value] else rest
  }

  /** The mirror can represent the message, if it can be parsed. */
  ghost predicate ProperInput(input: Input, max: Maxes) {
    Parsed(input, max).Some? ==>
      && |input.stale| >= 32
      && MsgOk(FamilyOf(input.kind), Parsed(input, max).value)
      && Proper(FamilyOf(input.kind), Parsed(input, max).value, input.stale)
  }

  lemma FreshTables(s: Memory, kind: Kind)
    requires Fresh(s)
    ensures PoolsOk(s.pools, s.log) && MirrorOk(s.pools, s.log) && TableOf(FamilyOf(kind), s.pools[kind]) == map[]
  {
  }

  lemma RunOkMore(f: Family, msgs: seq<Msg>, m: Msg, stale: Bytes)
    requires RunOk(f, msgs) && MsgOk(f, m) && |stale| >= 32 && Proper(f, m, stale)
    ensures RunOk(f, msgs + [m])
    ensures After(f, msgs + [m]) == Applied(f, After(f, msgs), m)
  {
    assert (msgs + [m])[..|msgs|] == msgs;
  }

  /** What a handler does is a whole outcome, table and notifications included. */
  lemma RanOutcome(s: Memory, input: Input, s': Memory, max: Maxes) returns (rv: int)
    requires Ran(s, input, s', max) && Parsed(input, max).Some?
    ensures Outcome(input.kind, Parsed(input, max), input.stale, input.junk, s.pools, s.log, s'.pools, s'.log, rv)
  {
    hide FamilyOf;
    hide Stepped;
    hide Shaped;
    hide Base;
    hide Parse;
    hide LogShaped;
    var kind, m := input.kind, Parsed(input, max).value;
    ParsedOk(kind, max, input.del, input.data);
    BaseIsOk(kind, input.junk);
    rv :| Acted(kind, s.pools[kind], s'.pools[kind], s.log, s'.log, m, input.stale, input.junk, rv);
    var told :| Stepped(FamilyOf(kind), s.pools[kind], s'.pools[kind], m, input.stale, Base(kind, input.junk), rv, told)
                && s'.log == s.log + Report(kind, m.del, told);
    hide Report;
    hide Outcome;
    assert s'.pools == s.pools[kind := s'.pools[kind]];
    StepOutcome(kind, m, input.stale, input.junk, s.pools, s.log, s'.pools, s'.log, rv, told);
  }

  /** What one handler does to the table of each kind. */
  lemma RanApplies(s: Memory, input: Input, s': Memory, max: Maxes, kind: Kind)
    requires Ran(s, input, s', max) && MirrorOk(s.pools, s.log) && ProperInput(input, max)
    ensures MirrorOk(s'.pools, s'.log)
    ensures var (t, t') := (TableOf(FamilyOf(kind), s.pools[kind]), TableOf(FamilyOf(kind), s'.pools[kind]));
      if input.kind == kind && Parsed(input, max).Some?
      then MsgOk(FamilyOf(kind), Parsed(input, max).value) && TableShaped(FamilyOf(kind), t)
           && t' == Applied(FamilyOf(kind), t, Parsed(input, max).value)
      else t' == t
  {
    hide FamilyOf;
    hide TableOf;
    hide UniqueKeys;
    hide Shaped;
    hide Proper;
    hide Applied;
    hide Acted;
    hide Fold;
    hide Parse;
    if Parsed(input, max).Some? {
      var rv := RanOutcome(s, input, s', max);
    }
  }

  /** Over any run of messages that the mirror can represent, each table is exactly what its
      messages mean, applied in order, and the subscribers have the same tables. */
  lemma {:induction false} RunIsAfter(states: seq<Memory>, inputs: seq<Input>, max: Maxes, kind: Kind)
    requires Run(states, inputs, max) && forall input :: input in inputs ==> ProperInput(input, max)
    ensures var s := states[|inputs|];
      && PoolsOk(s.pools, s.log) && MirrorOk(s.pools, s.log)
      && RunOk(FamilyOf(kind), MsgsOf(inputs, kind, max))
      && TableOf(FamilyOf(kind), s.pools[kind]) == After(FamilyOf(kind), MsgsOf(inputs, kind, max))
    decreases |inputs|
  {
    if inputs == [] {
      FreshTables(states[0], kind);
    } else {
      var n := |inputs| - 1;
      var rest, last := inputs[..n], inputs[n];
      assert last in inputs;
      RunIsAfter(states[..|inputs|], rest, max, kind);
      assert states[..|inputs|][n] == states[n];
      assert Ran(states[n], last, states[n + 1], max);
      hide Ran;
      RanApplies(states[n], last, states[n + 1], max, kind);
      if last.kind == kind && Parsed(last, max).Some? {
        RunOkMore(FamilyOf(kind), MsgsOf(rest, kind, max), Parsed(last, max).value, last.stale);
      }
      hide TableOf;
      hide Applied;
      hide FamilyOf;
      hide MirrorOk;
      hide RunOk;
    }
  }

  /** After any such run of the handlers a key is in the mirror just when a NEW for it has
      not been followed by a DEL. */
  lemma KeyAfterRun(states: seq<Memory>, inputs: seq<Input>, max: Maxes, kind: Kind, k: Key)
    requires Run(states, inputs, max) && forall input :: input in inputs ==> ProperInput(input, max)
    ensures var s := states[|inputs|];
      && PoolsOk(s.pools, s.log) && MirrorOk(s.pools, s.log)
      && (k in TableOf(FamilyOf(kind), s.pools[kind]) <==>
            exists n: nat :: Alive(FamilyOf(kind), MsgsOf(inputs, kind, max), k, n))
  {
    RunIsAfter(states, inputs, max, kind);
    assert FamilyOf(kind).rows != [];
    HistoryOfKey(FamilyOf(kind), MsgsOf(inputs, kind, max), k);
  }

  /** And each field has the value that the last NEW carrying it gave. */
  lemma FieldAfterRun(states: seq<Memory>, inputs: seq<Input>, max: Maxes, kind: Kind, k: Key, i: nat, n: nat)
    requires Run(states, inputs, max) && forall input :: input in inputs ==> ProperInput(input, max)
    requires LastToSet(FamilyOf(kind), MsgsOf(inputs, kind, max), k, i, n)
    ensures var (s, f, msgs) := (states[|inputs|], FamilyOf(kind), MsgsOf(inputs, kind, max));
      && PoolsOk(s.pools, s.log) && MirrorOk(s.pools, s.log) && RunOk(f, msgs)
      && k in TableOf(f, s.pools[kind]) && Shaped(f, TableOf(f, s.pools[kind])[k])
      && TableOf(f, s.pools[kind])[k].fields[i] == Pad(Value(f.rows[i], msgs[n].rtas), f.rows[i].size)
  {
    RunIsAfter(states, inputs, max, kind);
    HistoryOfField(FamilyOf(kind), MsgsOf(inputs, kind, max), k, i, n);
  }

  /** Or zeros when none has since the entry was made. */
  lemma UnsetAfterRun(states: seq<Memory>, inputs: seq<Input>, max: Maxes, kind: Kind, k: Key, i: nat)
    requires Run(states, inputs, max) && forall input :: input in inputs ==> ProperInput(input, max)
    requires i < |FamilyOf(kind).rows|
    requires forall n: nat :: !LastToSet(FamilyOf(kind), MsgsOf(inputs, kind, max), k, i, n)
    ensures var (s, f) := (states[|inputs|], FamilyOf(kind));
      && PoolsOk(s.pools, s.log) && MirrorOk(s.pools, s.log)
      && (k in TableOf(f, s.pools[kind]) ==>
            && Shaped(f, TableOf(f, s.pools[kind])[k])
            && TableOf(f, s.pools[kind])[k].fields[i] == Zeros(f.rows[i].size))
  {
    RunIsAfter(states, inputs, max, kind);
    if k in After(FamilyOf(kind), MsgsOf(inputs, kind, max)) {
      HistoryOfUnset(FamilyOf(kind), MsgsOf(inputs, kind, max), k, i);
    }
  }

  // ---------- what the four kinds are made of ----------

  /** The bytes of an attribute of a message: none when it is not there. */
  function Payload(rta: Option<Bytes>): Bytes {
    if rta.Some? then rta.value else []
  }

  /** An attribute is the same in two messages once padded with zeros to n bytes. */
  predicate Alike(rtas: seq<Option<Bytes>>, rtas': seq<Option<Bytes>>, kind: nat, n: nat)
    requires kind < |rtas| && kind < |rtas'|
  {
    Pad(Payload(rtas[kind]), n) == Pad(Payload(rtas'[kind]), n)
  }

  /** A padded value is the value and then zeros. */
  lemma PadMeans(b: Bytes, n: nat)
    requires |b| <= n
    ensures |Pad(b, n)| == n && Pad(b, n)[..|b|] == b && forall i :: |b| <= i < n ==> Pad(b, n)[i] == 0
  {
  }

  lemma KeepAll(a: bv8)
    ensures Keep(a, 0xff) == a && Keep(a, 0) == 0
  {
  }

  /** The masked headers agree just when they agree on the bytes under the mask. */
  lemma MaskedAlike(mask: Bytes, h: Bytes, h': Bytes)
    requires |mask| <= |h| && |mask| <= |h'| && forall i :: 0 <= i < |mask| ==> mask[i] == 0 || mask[i] == 0xff
    ensures Masked(mask, h) == Masked(mask, h') <==>
            forall i :: 0 <= i < |mask| && mask[i] == 0xff ==> h[i] == h'[i]
  {
    hide Keep;
    var a, b := Masked(mask, h), Masked(mask, h');
    forall i | 0 <= i < |mask| ensures a[i] == b[i] <==> mask[i] == 0xff ==> h[i] == h'[i] {
      KeepAll(h[i]);
      KeepAll(h'[i]);
    }
    if a == b {
      forall i | 0 <= i < |mask| && mask[i] == 0xff ensures h[i] == h'[i] {
        assert a[i] == b[i];
      }
    }
  }

  /** Two messages mean the same key just when their masked headers and their padded unique
      attributes agree. */
  lemma SameMsgKey(f: Family, h: Bytes, h': Bytes, rtas: seq<Option<Bytes>>, rtas': seq<Option<Bytes>>)
    requires |f.mask| <= |h| && |f.mask| <= |h'| && Covered(f, rtas) && Covered(f, rtas')
    ensures MsgKey(f, h, rtas) == MsgKey(f, h', rtas') <==>
            && Masked(f.mask, h) == Masked(f.mask, h')
            && forall i :: 0 <= i < |f.rows| && f.rows[i].unique ==> Alike(rtas, rtas', f.rows[i].kind, f.rows[i].size)
  {
    hide Pad;
    hide Masked;
    var k, k' := MsgKey(f, h, rtas), MsgKey(f, h', rtas');
    if k == k' {
      forall i | 0 <= i < |f.rows| && f.rows[i].unique
        ensures Alike(rtas, rtas', f.rows[i].kind, f.rows[i].size) {
        assert k.fields[i] == k'.fields[i];
      }
    }
  }

  /** Routes: the key is family, both prefix lengths, table, protocol and type of struct rtmsg,
      and RTA_DST, RTA_SRC, RTA_VIA, RTA_GATEWAY, RTA_IIF, RTA_OIF and RTA_ENCAP. */
  lemma RouteKey(h: Bytes, h': Bytes, rtas: seq<Option<Bytes>>, rtas': seq<Option<Bytes>>)
    requires |h| == 12 == |h'| && |rtas| > 22 && |rtas'| > 22
    ensures MsgKey(FamilyOf(Route), h, rtas) == MsgKey(FamilyOf(Route), h', rtas') <==>
            && h[0] == h'[0] && h[1] == h'[1] && h[2] == h'[2] && h[4] == h'[4] && h[5] == h'[5] && h[7] == h'[7]
            && Alike(rtas, rtas', 1, 16) && Alike(rtas, rtas', 2, 16) && Alike(rtas, rtas', 18, 16)
            && Alike(rtas, rtas', 5, 16) && Alike(rtas, rtas', 3, 4) && Alike(rtas, rtas', 4, 4)
            && Alike(rtas, rtas', 22, 28)
  {
    var f := FamilyOf(Route);
    SameMsgKey(f, h, h', rtas, rtas');
    MaskedAlike(f.mask, h, h');
    hide Alike;
    hide MsgKey;
    hide Masked;
    RouteRows(rtas, rtas');
    RouteMask(h, h');
  }

  lemma RouteMask(h: Bytes, h': Bytes)
    requires |h| == 12 == |h'|
    ensures var mask := FamilyOf(Route).mask;
            (forall i :: 0 <= i < |mask| && mask[i] == 0xff ==> h[i] == h'[i]) <==>
            h[0] == h'[0] && h[1] == h'[1] && h[2] == h'[2] && h[4] == h'[4] && h[5] == h'[5] && h[7] == h'[7]
  {
    var mask := FamilyOf(Route).mask;
    assert mask[0] == mask[1] == mask[2] == mask[4] == mask[5] == mask[7] == 0xff;
  }

  lemma RouteRows(rtas: seq<Option<Bytes>>, rtas': seq<Option<Bytes>>)
    requires |rtas| > 22 && |rtas'| > 22
    ensures var rows := FamilyOf(Route).rows;
            (forall i :: 0 <= i < |rows| && rows[i].unique ==> Alike(rtas, rtas', rows[i].kind, rows[i].size)) <==>
            && Alike(rtas, rtas', 1, 16) && Alike(rtas, rtas', 2, 16) && Alike(rtas, rtas', 18, 16)
            && Alike(rtas, rtas', 5, 16) && Alike(rtas, rtas', 3, 4) && Alike(rtas, rtas', 4, 4)
            && Alike(rtas, rtas', 22, 28)
  {
    hide Alike;
    var rows := FamilyOf(Route).rows;
    assert rows[0].unique && rows[1].unique && rows[2].unique && rows[3].unique && rows[4].unique && rows[5].unique
        && rows[10].unique;
  }

  /** Addresses: family and prefix length, IFA_ADDRESS and IFA_LOCAL. */
  lemma AddrKey(h: Bytes, h': Bytes, rtas: seq<Option<Bytes>>, rtas': seq<Option<Bytes>>)
    requires |h| == 8 == |h'| && |rtas| > 6 && |rtas'| > 6
    ensures MsgKey(FamilyOf(Addr), h, rtas) == MsgKey(FamilyOf(Addr), h', rtas') <==>
            && h[0] == h'[0] && h[1] == h'[1] && Alike(rtas, rtas', 1, 16) && Alike(rtas, rtas', 2, 16)
  {
    var f := FamilyOf(Addr);
    SameMsgKey(f, h, h', rtas, rtas');
    MaskedAlike(f.mask, h, h');
    hide Alike;
    hide MsgKey;
    hide Masked;
    AddrMask(h, h');
    AddrRows(rtas, rtas');
  }

  lemma AddrRows(rtas: seq<Option<Bytes>>, rtas': seq<Option<Bytes>>)
    requires |rtas| > 6 && |rtas'| > 6
    ensures var rows := FamilyOf(Addr).rows;
            (forall i :: 0 <= i < |rows| && rows[i].unique ==> Alike(rtas, rtas', rows[i].kind, rows[i].size)) <==>
            Alike(rtas, rtas', 1, 16) && Alike(rtas, rtas', 2, 16)
  {
    hide Alike;
    var rows := FamilyOf(Addr).rows;
    assert rows[0].unique && rows[1].unique;
  }

  lemma AddrMask(h: Bytes, h': Bytes)
    requires |h| == 8 == |h'|
    ensures var mask := FamilyOf(Addr).mask;
            (forall i :: 0 <= i < |mask| && mask[i] == 0xff ==> h[i] == h'[i]) <==> h[0] == h'[0] && h[1] == h'[1]
  {
    var mask := FamilyOf(Addr).mask;
    assert mask[0] == mask[1] == 0xff;
  }

  /** Links: the interface index alone. */
  lemma LinkKey(h: Bytes, h': Bytes, rtas: seq<Option<Bytes>>, rtas': seq<Option<Bytes>>)
    requires |h| == 16 == |h'| && |rtas| > 10 && |rtas'| > 10
    ensures MsgKey(FamilyOf(Link), h, rtas) == MsgKey(FamilyOf(Link), h', rtas') <==>
            h[4] == h'[4] && h[5] == h'[5] && h[6] == h'[6] && h[7] == h'[7]
  {
    var f := FamilyOf(Link);
    SameMsgKey(f, h, h', rtas, rtas');
    MaskedAlike(f.mask, h, h');
    hide Alike;
    hide MsgKey;
    hide Masked;
    LinkMask(h, h');
  }

  lemma LinkMask(h: Bytes, h': Bytes)
    requires |h| == 16 == |h'|
    ensures var mask := FamilyOf(Link).mask;
            (forall i :: 0 <= i < |mask| && mask[i] == 0xff ==> h[i] == h'[i]) <==>
            h[4] == h'[4] && h[5] == h'[5] && h[6] == h'[6] && h[7] == h'[7]
  {
    var mask := FamilyOf(Link).mask;
    assert mask[4] == mask[5] == mask[6] == mask[7] == 0xff;
  }

  /** Neighbours: family, the low byte of the interface index, as the mask takes no more of it,
      and NDA_DST. */
  lemma NeighKey(h: Bytes, h': Bytes, rtas: seq<Option<Bytes>>, rtas': seq<Option<Bytes>>)
    requires |h| == 12 == |h'| && |rtas| > 4 && |rtas'| > 4
    ensures MsgKey(FamilyOf(Neigh), h, rtas) == MsgKey(FamilyOf(Neigh), h', rtas') <==>
            h[0] == h'[0] && h[4] == h'[4] && Alike(rtas, rtas', 1, 16)
  {
    var f := FamilyOf(Neigh);
    SameMsgKey(f, h, h', rtas, rtas');
    MaskedAlike(f.mask, h, h');
    hide Alike;
    hide MsgKey;
    hide Masked;
    NeighMask(h, h');
    NeighRows(rtas, rtas');
  }

  lemma NeighRows(rtas: seq<Option<Bytes>>, rtas': seq<Option<Bytes>>)
    requires |rtas| > 4 && |rtas'| > 4
    ensures var rows := FamilyOf(Neigh).rows;
            (forall i :: 0 <= i < |rows| && rows[i].unique ==> Alike(rtas, rtas', rows[i].kind, rows[i].size)) <==>
            Alike(rtas, rtas', 1, 16)
  {
    hide Alike;
    var rows := FamilyOf(Neigh).rows;
    assert rows[0].unique;
  }

  lemma NeighMask(h: Bytes, h': Bytes)
    requires |h| == 12 == |h'|
    ensures var mask := FamilyOf(Neigh).mask;
            (forall i :: 0 <= i < |mask| && mask[i] == 0xff ==> h[i] == h'[i]) <==> h[0] == h'[0] && h[4] == h'[4]
  {
    var mask := FamilyOf(Neigh).mask;
    assert mask[0] == mask[4] == 0xff;
  }

  /** A NEW message leaves the attribute in a field of n bytes, padded; without it a new entry
      has zeros there and an old one keeps what it had. */
  predicate Filled(field: Bytes, was: Bytes, rta: Option<Bytes>, n: nat, init: bool) {
    field == if rta.Some? then Pad(rta.value, n) else if init then Zeros(n) else was
  }

  lemma MergeFills(f: Family, was: seq<Bytes>, rtas: seq<Option<Bytes>>, init: bool)
    requires Covered(f, rtas) && |was| == |f.rows|
    ensures forall i :: 0 <= i < |f.rows| ==>
              Filled(Merge(f, was, rtas, init)[i], was[i], rtas[f.rows[i].kind], f.rows[i].size, init)
  {
    hide Pad;
  }

  /** Which attribute fills which field of a route, and at what width: dst, src, via, gateway,
      iif, oif, prefsrc, table, priority, cacheinfo and encap. */
  lemma RouteFields(was: seq<Bytes>, rtas: seq<Option<Bytes>>, init: bool)
    requires |was| == 11 && |rtas| > 22
    ensures |FamilyOf(Route).rows| == 11
    ensures var fields := Merge(FamilyOf(Route), was, rtas, init);
      && Filled(fields[0], was[0], rtas[1], 16, init) && Filled(fields[1], was[1], rtas[2], 16, init)
      && Filled(fields[2], was[2], rtas[18], 16, init) && Filled(fields[3], was[3], rtas[5], 16, init)
      && Filled(fields[4], was[4], rtas[3], 4, init) && Filled(fields[5], was[5], rtas[4], 4, init)
      && Filled(fields[6], was[6], rtas[7], 16, init) && Filled(fields[7], was[7], rtas[15], 4, init)
      && Filled(fields[8], was[8], rtas[6], 4, init) && Filled(fields[9], was[9], rtas[12], 32, init)
      && Filled(fields[10], was[10], rtas[22], 28, init)
  {
    MergeFills(FamilyOf(Route), was, rtas, init);
    hide Merge;
    hide Filled;
  }

  /** Of an address: addr, local, label, broadcast, anycast and cacheinfo. */
  lemma AddrFields(was: seq<Bytes>, rtas: seq<Option<Bytes>>, init: bool)
    requires |was| == 6 && |rtas| > 6
    ensures |FamilyOf(Addr).rows| == 6
    ensures var fields := Merge(FamilyOf(Addr), was, rtas, init);
      && Filled(fields[0], was[0], rtas[1], 16, init) && Filled(fields[1], was[1], rtas[2], 16, init)
      && Filled(fields[2], was[2], rtas[3], 16, init) && Filled(fields[3], was[3], rtas[4], 16, init)
      && Filled(fields[4], was[4], rtas[5], 16, init) && Filled(fields[5], was[5], rtas[6], 16, init)
  {
    MergeFills(FamilyOf(Addr), was, rtas, init);
    hide Merge;
    hide Filled;
  }

  /** Of a link: hwaddr, broadcast, ifname, master, mtu and qdisc. */
  lemma LinkFields(was: seq<Bytes>, rtas: seq<Option<Bytes>>, init: bool)
    requires |was| == 6 && |rtas| > 10
    ensures |FamilyOf(Link).rows| == 6
    ensures var fields := Merge(FamilyOf(Link), was, rtas, init);
      && Filled(fields[0], was[0], rtas[1], 6, init) && Filled(fields[1], was[1], rtas[2], 6, init)
      && Filled(fields[2], was[2], rtas[3], 16, init) && Filled(fields[3], was[3], rtas[10], 4, init)
      && Filled(fields[4], was[4], rtas[4], 4, init) && Filled(fields[5], was[5], rtas[6], 16, init)
  {
    MergeFills(FamilyOf(Link), was, rtas, init);
    hide Merge;
    hide Filled;
  }

  /** Of a neighbour: dst, lladdr, probes and cacheinfo. */
  lemma NeighFields(was: seq<Bytes>, rtas: seq<Option<Bytes>>, init: bool)
    requires |was| == 4 && |rtas| > 4
    ensures |FamilyOf(Neigh).rows| == 4
    ensures var fields := Merge(FamilyOf(Neigh), was, rtas, init);
      && Filled(fields[0], was[0], rtas[1], 16, init) && Filled(fields[1], was[1], rtas[2], 6, init)
      && Filled(fields[2], was[2], rtas[4], 4, init) && Filled(fields[3], was[3], rtas[3], 16, init)
  {
    MergeFills(FamilyOf(Neigh), was, rtas, init);
    hide Merge;
    hide Filled;
  }

  /** RTA_ENCAP holds an attribute: its length must leave a payload of at most 28 bytes, and
      the field takes the 28 bytes behind its header. */
  lemma EncapMeans(payload: Bytes, stale: Bytes)
    requires |stale| >= 32 && |payload| >= 4
    ensures EncapFits(payload, stale) <==> 4 <= payload[0] as nat + 256 * (payload[1] as nat) <= 32
    ensures forall i :: 0 <= i < 28 ==>
              EncapStored(payload, stale)[i] ==
                if i + 4 < |payload| then payload[i + 4] else stale[i + 4 - |payload|]
  {
  }

  // ---------- the code ----------

  /** How a message reads, or None when it is malformed: data is what follows the netlink
      header. */
  function Parse(f: Family, max: nat, del: bool, data: Bytes): (r: Option<Msg>)
    ensures r.Some? ==> |r.value.hdr| == f.hdrSize && |r.value.rtas| == max + 1
  {
    if |data| < f.hdrSize then None
    else match Split(data[f.hdrSize..])
      case None => None
      case Some(attrs) => Some(Msg(del, data[..f.hdrSize], Rtas(attrs, max)))
  }

  /** mask_match. */
  method MaskMatch(va: Bytes, vb: Bytes, mask: Bytes) returns (r: bool)
    requires |mask| <= |va| && |mask| <= |vb|
    ensures r <==> Masked(mask, va) == Masked(mask, vb)
  {
    hide Keep;
    hide Differ;
    var len: nat := |mask|;
    while len > 0
      invariant len <= |mask|
      invariant forall i :: len <= i < |mask| ==> Keep(va[i], mask[i]) == Keep(vb[i], mask[i])
    {
      len := len - 1;
      XorMask(va[len], vb[len], mask[len]);
      if Differ(va[len], vb[len], mask[len]) {
        assert Masked(mask, va)[len] != Masked(mask, vb)[len];
        return false;
      }
    }
    return true;
  }

  lemma XorMask(a: bv8, b: bv8, m: bv8)
    ensures Differ(a, b, m) <==> Keep(a, m) != Keep(b, m)
  {
  }

  lemma PadSplit(field: Bytes, b: Bytes, n: nat)
    requires |field| == n && |b| <= n
    ensures field == Pad(b, n) <==> field[..|b|] == b && field[|b|..] == Zeros(n - |b|)
  {
    assert field == field[..|b|] + field[|b|..];
  }

  /** rtnl_entry_match. */
  method EntryMatch(f: Family, e: Entry, rtas: seq<Option<Bytes>>) returns (rv: int)
    requires Shaped(f, e) && Covered(f, rtas)
    ensures rv == MatchFrom(f, e, rtas, 0)
  {
    for i := 0 to |f.rows|
      invariant MatchFrom(f, e, rtas, 0) == MatchFrom(f, e, rtas, i)
    {
      var m := f.rows[i];
      var data := Value(m, rtas);
      if m.unique {
        if rtas[m.kind].Some? && |data| > m.size {
          return -1;
        }
        PadSplit(e.fields[i], data, m.size);
        if (rtas[m.kind].Some? && data != e.fields[i][..|data|]) || e.fields[i][|data|..] != Zeros(m.size - |data|) {
          return 0;
        }
      }
    }
    return 1;
  }

  /** rtnl_entry_set; fields is the entry's memory. */
  method EntrySet(f: Family, fields: array<Bytes>, rtas: seq<Option<Bytes>>, stale: Bytes, init: bool) returns (rv: int)
    requires FamilyOk(f) && fields.Length == |f.rows| && Covered(f, rtas) && |stale| >= 32
    requires forall i :: 0 <= i < |f.rows| ==> |fields[i]| == f.rows[i].size
    modifies fields
    ensures fields[..] == SetFields(f, old(fields[..]), rtas, stale, init)
    ensures rv == if StopRow(f, rtas, stale, 0) == |f.rows| then 0 else -1
  {
    for i := 0 to |f.rows|
      invariant StopRow(f, rtas, stale, 0) == StopRow(f, rtas, stale, i)
      invariant forall j :: i <= j < |f.rows| ==> fields[j] == old(fields[j])
      invariant forall j :: 0 <= j < i ==> fields[j] == NewField(f.rows[j], old(fields[j]), rtas, stale, init)
    {
      var m := f.rows[i];
      var rta := rtas[m.kind];
      if m.kind == RTA_ENCAP && rta.Some? {
        if !EncapFits(rta.value, stale) {
          return -1;
        }
        fields[i] := EncapStored(rta.value, stale);
      } else if rta.Some? {
        if |rta.value| > m.size {
          return -1;
        }
        fields[i] := rta.value + fields[i][|rta.value|..];
        fields[i] := fields[i][..|rta.value|] + Zeros(m.size - |rta.value|);
      } else if init {
        fields[i] := Zeros(m.size);
      }
    }
    return 0;
  }

  /** The largest attribute types of the kernel headers. */
  type Maxes = max: Kind -> nat | forall kind, i :: 0 <= i < |FamilyOf(kind).rows| ==>
      FamilyOf(kind).rows[i].kind <= max(kind)
    witness _ => 22

  class Netns {
    const max: Maxes
    var pools: map<Kind, Pool>
    var log: seq<Notice>

    ghost predicate Valid()
      reads this
    {
      PoolsOk(pools, log)
    }

    ghost predicate Mirrored()
      requires Valid()
      reads this
    {
      MirrorOk(pools, log)
    }

    ghost function TableFor(kind: Kind): Table
      requires Valid() && Mirrored()
      reads this
    {
      TableOf(FamilyOf(kind), pools[kind])
    }

    constructor (max: Maxes)
      ensures Valid() && Mirrored() && this.max == max && Fresh(Memory(pools, log))
      ensures forall kind :: TableFor(kind) == map[]
    {
      this.max := max;
      pools := map[Link := [], Route := [], Addr := [], Neigh := []];
      log := [];
      new;
      forall kind: Kind ensures kind in pools && pools[kind] == [] {
        match kind
        case Link =>
        case Route =>
        case Addr =>
        case Neigh =>
      }
    }

    /** The length check and rtnl_parse_rtattr at the start of every handler. */
    method ParseMsg(f: Family, max: nat, del: bool, data: Bytes) returns (m: Option<Msg>)
      requires FamilyOk(f) && |data| % 4 == 0
      ensures m == Parse(f, max, del, data)
    {
      if |data| < f.hdrSize {
        return None;
      }
      var db := new Option<Bytes>[max + 1](_ => None);
      if |data| > f.hdrSize {
        var rv := ParseRtattr(db, max, data[f.hdrSize..]);
        if rv != 0 {
          return None;
        }
      }
      m := Some(Msg(del, data[..f.hdrSize], db[..]));
      assert db[..] == Rtas(Split(data[f.hdrSize..]).value, max);
    }

    /** ns_get_link, ns_get_route, ns_get_addr and ns_get_neigh. */
    method GetEntry(f: Family, pool: Pool, m: Msg) returns (r: Option<nat>)
      requires MsgOk(f, m) && PoolShaped(f, pool)
      ensures r == FindFrom(f, pool, m, 0)
    {
      for i := 0 to |pool|
        invariant FindFrom(f, pool, m, 0) == FindFrom(f, pool, m, i)
      {
        if pool[i].Some? {
          var same := MaskMatch(pool[i].value.hdr, m.hdr, f.mask);
          if same {
            var matched := EntryMatch(f, pool[i].value, m.rtas);
            if matched != 0 {
              return Some(i);
            }
          }
        }
      }
      return None;
    }

    /** pool_get, and filling the new entry: links start from whatever the slot holds. */
    method NewEntry(kind: Kind, m: Msg, stale: Bytes, junk: Entry) returns (e: Entry)
      requires MsgOk(FamilyOf(kind), m) && |stale| >= 32 && Shaped(FamilyOf(kind), junk)
      ensures e == Entry(m.hdr, SetFields(FamilyOf(kind), Base(kind, junk).fields, m.rtas, stale, true))
    {
      var base := Base(kind, junk);
      var fields := new Bytes[|base.fields|](i requires 0 <= i < |base.fields| => base.fields[i]);
      assert fields[..] == base.fields;
      var rv := EntrySet(FamilyOf(kind), fields, m.rtas, stale, true);
      e := Entry(m.hdr, fields[..]);
    }

    method UpdatedEntry(kind: Kind, was: Entry, m: Msg, stale: Bytes) returns (e: Entry)
      requires MsgOk(FamilyOf(kind), m) && |stale| >= 32 && Shaped(FamilyOf(kind), was)
      ensures e == Entry(m.hdr, SetFields(FamilyOf(kind), was.fields, m.rtas, stale, false))
    {
      var fields := new Bytes[|was.fields|](i requires 0 <= i < |was.fields| => was.fields[i]);
      assert fields[..] == was.fields;
      var rv := EntrySet(FamilyOf(kind), fields, m.rtas, stale, false);
      e := Entry(m.hdr, fields[..]);
    }

    method Put(pool: Pool, e: Entry) returns (pool': Pool)
      ensures exists s: nat :: Placed(pool, pool', s, e)
    {
      for s := 0 to |pool| {
        if pool[s].None? {
          assert Placed(pool, pool[s := Some(e)], s, e);
          return pool[s := Some(e)];
        }
      }
      assert Placed(pool, pool + [Some(e)], |pool|, e);
      return pool + [Some(e)];
    }

    /** The handlers ns_rcv_link, ns_rcv_route, ns_rcv_addr and ns_rcv_neigh, on a parsed
        message, up to the notification. */
    method Step(kind: Kind, m: Msg, stale: Bytes, junk: Entry) returns (rv: int, told: Option<Entry>)
      requires Valid() && MsgOk(FamilyOf(kind), m) && |stale| >= 32 && Shaped(FamilyOf(kind), junk)
      modifies `pools
      ensures kind in pools && pools == old(pools)[kind := pools[kind]]
      ensures Stepped(FamilyOf(kind), old(pools)[kind], pools[kind], m, stale, Base(kind, junk), rv, told)
    {
      hide FamilyOf;
      var f, pool := FamilyOf(kind), pools[kind];
      var r := GetEntry(f, pool, m);
      if m.del {
        if r.None? {
          return -1, None;
        }
        pools := pools[kind := pool[r.value := None]];
        return 0, pool[r.value];
      }
      var e;
      if r.None? {
        e := NewEntry(kind, m, stale, junk);
        var pool' := Put(pool, e);
        pools := pools[kind := pool'];
      } else {
        e := UpdatedEntry(kind, pool[r.value].value, m, stale);
        pools := pools[kind := pool[r.value := Some(e)]];
      }
      return 0, Some(e);
    }

    /** A handler. stale is what lies in memory behind an attribute, junk what a fresh slot
        holds. */
    method Rcv(kind: Kind, del: bool, data: Bytes, stale: Bytes, junk: Entry) returns (rv: int)
      requires Valid() && |data| % 4 == 0 && |stale| >= 32 && Shaped(FamilyOf(kind), junk)
      modifies this
      ensures Valid()
      ensures Outcome(kind, Parse(FamilyOf(kind), max(kind), del, data), stale, junk,
                      old(pools), old(log), pools, log, rv)
    {
      hide FamilyOf;
      hide Stepped;
      hide PoolsOk;
      hide Base;
      hide MirrorOk;
      hide Proper;
      hide Acted;
      hide Handled;
      hide Parse;
      var f := FamilyOf(kind);
      var parsed := ParseMsg(f, max(kind), del, data);
      if parsed.None? {
        assert Outcome(kind, parsed, stale, junk, pools, log, pools, log, -1);
        return -1;
      }
      hide Outcome;
      ParsedOk(kind, max, del, data);
      BaseIsOk(kind, junk);
      ghost var pools', log' := pools, log;
      var told;
      rv, told := Step(kind, parsed.value, stale, junk);
      if told.Some? {
        log := log + [Notice(kind, !del, told.value)];
      }
      assert log == log' + Report(kind, del, told);
      StepOutcome(kind, parsed.value, stale, junk, pools', log', pools, log, rv, told);
    }

    /** A new namespace that receives one message after the other goes through a run. */
    method RcvAll(inputs: seq<Input>) returns (ghost states: seq<Memory>)
      requires Valid() && Fresh(Memory(pools, log)) && forall input :: input in inputs ==> InputOk(input)
      modifies this
      ensures Valid() && Run(states, inputs, max) && states[|inputs|] == Memory(pools, log)
    {
      hide Fresh;
      hide Ran;
      hide PoolsOk;
      hide FamilyOf;
      hide Parse;
      hide Outcome;
      states := [Memory(pools, log)];
      for i := 0 to |inputs|
        invariant Valid() && |states| == i + 1 && Fresh(states[0]) && states[i] == Memory(pools, log)
        invariant forall j :: 0 <= j < i ==> Ran(states[j], inputs[j], states[j + 1], max)
      {
        assert inputs[i] in inputs;
        var rv := Rcv(inputs[i].kind, inputs[i].del, inputs[i].data, inputs[i].stale, inputs[i].junk);
        ghost var s := Memory(pools, log);
        RanIs(states[i], inputs[i], s, max, rv);
        states := states + [s];
      }
    }

    /** ns_recv_rtnl: RTM_NEWLINK is 16, RTM_NEWADDR 20, RTM_NEWROUTE 24 and RTM_NEWNEIGH 28,
        each followed by its RTM_DEL. */
    method RecvRtnl(msgType: nat, data: Bytes, stale: Bytes, junk: map<Kind, Entry>)
      requires Valid() && |data| % 4 == 0 && |stale| >= 32
      requires forall kind :: kind in junk && Shaped(FamilyOf(kind), junk[kind])
      modifies this
      ensures Valid()
      ensures KindOf(msgType) == None ==> pools == old(pools) && log == old(log)
      ensures KindOf(msgType).Some? ==>
        var (kind, del) := KindOf(msgType).value;
        exists rv :: Outcome(kind, Parse(FamilyOf(kind), max(kind), del, data), stale, junk[kind],
                             old(pools), old(log), pools, log, rv)
    {
      hide FamilyOf;
      hide Outcome;
      hide PoolsOk;
      hide Parse;
      var rv;
      match msgType {
        case 24 => rv := Rcv(Route, false, data, stale, junk[Route]);
        case 25 => rv := Rcv(Route, true, data, stale, junk[Route]);
        case 16 => rv := Rcv(Link, false, data, stale, junk[Link]);
        case 17 => rv := Rcv(Link, true, data, stale, junk[Link]);
        case 20 => rv := Rcv(Addr, false, data, stale, junk[Addr]);
        case 21 => rv := Rcv(Addr, true, data, stale, junk[Addr]);
        case 28 => rv := Rcv(Neigh, false, data, stale, junk[Neigh]);
        case 29 => rv := Rcv(Neigh, true, data, stale, junk[Neigh]);
        case _ =>
      }
    }
  }

  /** The kind of object a message type is about, and whether it is a DEL. */
  function KindOf(msgType: nat): Option<(Kind, bool)> {
    if msgType / 2 == 8 then Some((Link, msgType % 2 == 1))
    else if msgType / 2 == 10 then Some((Addr, msgType % 2 == 1))
    else if msgType / 2 == 12 then Some((Route, msgType % 2 == 1))
    else if msgType / 2 == 14 then Some((Neigh, msgType % 2 == 1))
    else None
  }

  /** RTM_NEWLINK is 16, RTM_NEWADDR 20, RTM_NEWROUTE 24, RTM_NEWNEIGH 28; each DEL is the next
      number, and every other message is ignored. */
  lemma MessageTypes(msgType: nat)
    ensures KindOf(16) == Some((Link, false)) && KindOf(17) == Some((Link, true))
    ensures KindOf(20) == Some((Addr, false)) && KindOf(21) == Some((Addr, true))
    ensures KindOf(24) == Some((Route, false)) && KindOf(25) == Some((Route, true))
    ensures KindOf(28) == Some((Neigh, false)) && KindOf(29) == Some((Neigh, true))
    ensures KindOf(msgType) == None <==> msgType !in {16, 17, 20, 21, 24, 25, 28, 29}
  {
  }

  /** The header of a message and the attributes behind it: 16 bytes for a link, 12 for a route
      or a neighbour, 8 for an address; a message that is shorter or whose rest is no block of
      attributes is malformed. */
  lemma ParseMeans(kind: Kind, max: nat, del: bool, data: Bytes)
    ensures var n := match kind case Link => 16 case Route => 12 case Addr => 8 case Neigh => 12;
            var parsed := Parse(FamilyOf(kind), max, del, data);
            && (parsed.Some? <==> |data| >= n && Split(data[n..]).Some?)
            && (parsed.Some? ==>
                  && parsed.value.del == del && parsed.value.hdr == data[..n]
                  && parsed.value.rtas == Rtas(Split(data[n..]).value, max))
  {
  }

  /** The attribute table of a handler covers its mapping table. */
  lemma ParsedOk(kind: Kind, max: Maxes, del: bool, data: Bytes)
    ensures var parsed := Parse(FamilyOf(kind), max(kind), del, data);
      parsed.Some? ==> MsgOk(FamilyOf(kind), parsed.value) && parsed.value.del == del
  {
  }

  /** The pool that a NEW message makes of an empty one. */
  ghost predicate MadeBy(f: Family, m: Msg, stale: Bytes, pool: Pool, e: Entry)
    requires FamilyOk(f) && MsgOk(f, m) && |stale| >= 32
  {
    !m.del && PoolShaped(f, []) && Stepped(f, [], pool, m, stale, Blank(f), 0, Some(e))
  }

  lemma MadeIs(f: Family, m: Msg, stale: Bytes, pool: Pool, e: Entry)
    requires FamilyOk(f) && MsgOk(f, m) && |stale| >= 32 && MadeBy(f, m, stale, pool, e)
    ensures pool == [Some(e)] && PoolShaped(f, pool) && Shaped(f, e)
    ensures e == Entry(m.hdr, SetFields(f, Blank(f).fields, m.rtas, stale, true))
  {
    SetShaped(f, Blank(f), m.hdr, m.rtas, stale, true);
  }

  /** An object whose attributes fit, added to an empty mirror, is deleted again by its own DEL
      exactly when the message is one that the mirror can represent: it carries no RTA_ENCAP,
      or one stored as it is compared. Otherwise the DEL answers -1. */
  lemma DeletedAgain(f: Family, m: Msg, stale: Bytes, pool: Pool, e: Entry)
    requires FamilyOk(f) && MsgOk(f, m) && |stale| >= 32 && Fits(f, m.rtas) && MadeBy(f, m, stale, pool, e)
    ensures PoolShaped(f, pool) && pool == [Some(e)]
    ensures Clean(f, m.rtas, stale) ==> Stepped(f, pool, [None], m.(del := true), stale, Blank(f), 0, Some(e))
    ensures !Clean(f, m.rtas, stale) ==> Stepped(f, pool, pool, m.(del := true), stale, Blank(f), -1, None)
  {
    MadeIs(f, m, stale, pool, e);
    EncapExact(f, m.hdr, m.rtas, stale);
    MatchIsKey(f, e, m.hdr, m.rtas);
    hide Clean;
    hide Matches;
    hide KeyOf;
    hide MsgKey;
    var m' := m.(del := true);
    assert FindFrom(f, pool, m', 1) == None;
    assert pool[0 := None] == [None];
  }

  /** A route over an MPLS tunnel whose label does not begin with the byte its own header
      begins with: added to an empty mirror, it cannot be deleted again. */
  lemma MplsRouteLost(m: Msg, stale: Bytes, pool: Pool, e: Entry)
    requires MsgOk(ROUTE_FAMILY, m) && RTA_ENCAP < |m.rtas| && Fits(ROUTE_FAMILY, m.rtas) && |stale| >= 32
    requires var encap := m.rtas[RTA_ENCAP];
      encap.Some? && |encap.value| >= 5 && EncapFits(encap.value, stale) && encap.value[4] != encap.value[0]
    requires !m.del && Stepped(ROUTE_FAMILY, [], pool, m, stale, Blank(ROUTE_FAMILY), 0, Some(e))
    ensures PoolShaped(ROUTE_FAMILY, pool) && pool == [Some(e)]
    ensures Stepped(ROUTE_FAMILY, pool, pool, m.(del := true), stale, Blank(ROUTE_FAMILY), -1, None)
  {
    var f, p := ROUTE_FAMILY, m.rtas[RTA_ENCAP].value;
    assert f.rows[10].kind == RTA_ENCAP;
    assert Pad(p, 28)[0] == p[0] && EncapStored(p, stale)[0] == p[4];
    assert !EncapAgrees(m.rtas, stale) && HasEncap(f);
    hide Stepped;
    DeletedAgain(f, m, stale, pool, e);
  }

  /** A namespace from its opening through all its messages. */
  method OpenAndReceive(max: Maxes, inputs: seq<Input>) returns (n: Netns, ghost states: seq<Memory>)
    requires forall input :: input in inputs ==> InputOk(input)
    ensures fresh(n) && n.Valid() && n.max == max
    ensures Run(states, inputs, max) && states[|inputs|] == Memory(n.pools, n.log)
  {
    n := new Netns(max);
    hide Run;
    hide Fresh;
    hide PoolsOk;
    states := n.RcvAll(inputs);
  }

  lemma RanIs(s: Memory, input: Input, s': Memory, max: Maxes, rv: int)
    requires InputOk(input) && PoolsOk(s.pools, s.log) && PoolsOk(s'.pools, s'.log)
    requires Outcome(input.kind, Parsed(input, max), input.stale, input.junk, s.pools, s.log, s'.pools, s'.log, rv)
    ensures Ran(s, input, s', max)
  {
    hide Acted;
    hide PoolsOk;
    hide FamilyOf;
    hide Parse;
  }
}
