/** Netlink route attributes: rtnl_parse_rtattr over a block of padded TLVs
    (netlink/librtnl/netns.c). */
module RtAttr {
  import opened Vppinfra
  import opened Octets

  /** rta_type and the bytes after the header; rta_len is 4 + |payload|. */
  datatype Attr = Attr(kind: nat, payload: Bytes)

  function Align(n: nat): (r: nat)
    ensures n <= r < n + 4 && r % 4 == 0
  {
    (n + 3) / 4 * 4
  }

  /** The bytes the attribute takes, padding included. */
  function Size(a: Attr): nat {
    Align(4 + |a.payload|)
  }

  /** The block starts with this attribute; its padding may be anything. */
  predicate StartsWith(data: Bytes, a: Attr) {
    && Size(a) <= |data|
    && Le16(data, 0) == 4 + |a.payload|
    && Le16(data, 2) == a.kind
    && data[4..4 + |a.payload|] == a.payload
  }

  /** The block is exactly these attributes, one after the other. */
  predicate IsTlvs(data: Bytes, attrs: seq<Attr>)
    decreases |attrs|
  {
    if attrs == [] then data == []
    else StartsWith(data, attrs[0]) && IsTlvs(data[Size(attrs[0])..], attrs[1..])
  }

  /** RTA_OK at the start of the block. */
  predicate RtaOk(data: Bytes) {
    |data| >= 4 && 4 <= Le16(data, 0) <= |data|
  }

  function First(data: Bytes): Attr
    requires RtaOk(data)
  {
    Attr(Le16(data, 2), data[4..Le16(data, 0)])
  }

  /** The attributes of the block, if it is made of attributes. */
  function Split(data: Bytes): Option<seq<Attr>>
    decreases |data|
  {
    if data == [] then Some([])
    else if !RtaOk(data) || Size(First(data)) > |data| then None
    else match Split(data[Size(First(data))..])
      case None => None
      case Some(rest) => Some([First(data)] + rest)
  }

  lemma FirstIs(data: Bytes, a: Attr)
    requires StartsWith(data, a)
    ensures RtaOk(data) && First(data) == a && data != []
  {
    hide Le16;
  }

  lemma StartsWithFirst(data: Bytes)
    requires RtaOk(data) && Size(First(data)) <= |data|
    ensures StartsWith(data, First(data))
  {
    hide Le16;
    hide Align;
  }

  /** Split finds the attributes whenever there are any, and there is one way only. */
  lemma {:induction false} SplitExact(data: Bytes, attrs: seq<Attr>)
    ensures Split(data) == Some(attrs) <==> IsTlvs(data, attrs)
    decreases |data|
  {
    if data != [] && RtaOk(data) && Size(First(data)) <= |data| {
      var a := First(data);
      StartsWithFirst(data);
      if attrs != [] {
        SplitExact(data[Size(a)..], attrs[1..]);
        assert attrs == [attrs[0]] + attrs[1..];
        if StartsWith(data, attrs[0]) {
          FirstIs(data, attrs[0]);
        }
      }
    } else if attrs != [] && StartsWith(data, attrs[0]) {
      FirstIs(data, attrs[0]);
    }
  }

  /** What the first attribute of a block is, byte by byte: its length and its type with the low
      byte first, its payload, and the rest of the block from the next multiple of 4 on. */
  lemma FirstAttr(data: Bytes, attrs: seq<Attr>)
    requires Split(data) == Some(attrs) && attrs != []
    ensures |data| >= 4 && 4 + |attrs[0].payload| == data[0] as nat + 256 * (data[1] as nat)
    ensures attrs[0].kind == data[2] as nat + 256 * (data[3] as nat)
    ensures 4 + |attrs[0].payload| <= |data| && attrs[0].payload == data[4..4 + |attrs[0].payload|]
    ensures (4 + |attrs[0].payload| + 3) / 4 * 4 <= |data|
    ensures Split(data[(4 + |attrs[0].payload| + 3) / 4 * 4..]) == Some(attrs[1..])
  {
    SplitExact(data, attrs);
    SplitExact(data[Size(attrs[0])..], attrs[1..]);
  }

  /** A block of one attribute of four bytes. */
  lemma AddressBlock()
    ensures Split([8, 0, 1, 0, 10, 0, 0, 1]) == Some([Attr(1, [10, 0, 0, 1])])
  {
    SplitExact([8, 0, 1, 0, 10, 0, 0, 1], [Attr(1, [10, 0, 0, 1])]);
  }

  /** And of one attribute of a single byte with its padding. */
  lemma PaddedBlock()
    ensures Split([5, 0, 2, 0, 0xff, 0, 0, 0]) == Some([Attr(2, [0xff])])
  {
    SplitExact([5, 0, 2, 0, 0xff, 0, 0, 0], [Attr(2, [0xff])]);
  }

  // ---------- encoding ----------

  predicate Encodable(a: Attr) {
    a.kind < 0x1_0000 && 4 + |a.payload| < 0x1_0000
  }

  function EncodeAttr(a: Attr): Bytes
    requires Encodable(a)
  {
    Put16(4 + |a.payload|) + Put16(a.kind) + a.payload + Zeros(Size(a) - 4 - |a.payload|)
  }

  function Encode(attrs: seq<Attr>): Bytes
    requires forall a :: a in attrs ==> Encodable(a)
  {
    if attrs == [] then [] else EncodeAttr(attrs[0]) + Encode(attrs[1..])
  }

  lemma EncodeStarts(a: Attr, rest: Bytes)
    requires Encodable(a)
    ensures StartsWith(EncodeAttr(a) + rest, a)
    ensures (EncodeAttr(a) + rest)[Size(a)..] == rest
  {
    var data := EncodeAttr(a) + rest;
    assert data[0..2] == Put16(4 + |a.payload|);
    assert data[2..4] == Put16(a.kind);
    assert data[4..4 + |a.payload|] == a.payload;
  }

  /** Attributes written out are read back. */
  lemma {:induction false} RoundTrip(attrs: seq<Attr>)
    requires forall a :: a in attrs ==> Encodable(a)
    ensures IsTlvs(Encode(attrs), attrs) && Split(Encode(attrs)) == Some(attrs)
  {
    if attrs != [] {
      RoundTrip(attrs[1..]);
      EncodeStarts(attrs[0], Encode(attrs[1..]));
    }
    SplitExact(Encode(attrs), attrs);
  }

  // ---------- the attribute table ----------

  /** The payload of the last attribute of a type. */
  function LastOf(attrs: seq<Attr>, kind: nat): Option<Bytes> {
    if attrs == [] then None
    else if attrs[|attrs| - 1].kind == kind then Some(attrs[|attrs| - 1].payload)
    else LastOf(attrs[..|attrs| - 1], kind)
  }

  lemma {:induction false} LastOfMeans(attrs: seq<Attr>, kind: nat)
    ensures LastOf(attrs, kind) == None <==> forall k :: 0 <= k < |attrs| ==> attrs[k].kind != kind
    ensures forall k ::
              0 <= k < |attrs| && attrs[k].kind == kind && (forall j :: k < j < |attrs| ==> attrs[j].kind != kind) ==>
              LastOf(attrs, kind) == Some(attrs[k].payload)
  {
    if attrs != [] && attrs[|attrs| - 1].kind != kind {
      var rest := attrs[..|attrs| - 1];
      LastOfMeans(rest, kind);
      assert forall k :: 0 <= k < |rest| ==> rest[k] == attrs[k];
    }
  }

  /** The table rtas[] the attributes give when it starts empty. */
  function Rtas(attrs: seq<Attr>, max: nat): (r: seq<Option<Bytes>>)
    ensures |r| == max + 1
  {
    seq(max + 1, (t: int) => if t < 0 then None else LastOf(attrs, t))
  }

  /** One step of the loop. */
  lemma SplitOnce(rest: Bytes)
    requires |rest| % 4 == 0
    ensures RtaOk(rest) ==>
              Size(First(rest)) <= |rest| && Split(rest) == Prepend([First(rest)], Split(rest[Size(First(rest))..]))
    ensures !RtaOk(rest) ==> Split(rest) == if rest == [] then Some([]) else None
  {
    hide Align;
    hide Le16;
    if RtaOk(rest) {
      AlignFits(Le16(rest, 0), |rest|);
      assert 4 + |First(rest).payload| == Le16(rest, 0);
    }
  }

  lemma AlignFits(n: nat, m: nat)
    requires n <= m && m % 4 == 0
    ensures Align(n) <= m
  {
  }

  lemma SizeAligned(a: Attr)
    ensures 4 <= Size(a) && Size(a) % 4 == 0
  {
  }

  lemma PrependTwice(done: seq<Attr>, a: Attr, rest: Option<seq<Attr>>)
    ensures Prepend(done, Prepend([a], rest)) == Prepend(done + [a], rest)
  {
    if rest.Some? {
      assert done + ([a] + rest.value) == done + [a] + rest.value;
    }
  }

  lemma SplitStep(data: Bytes, done: seq<Attr>, off: nat)
    requires off <= |data| && (|data| - off) % 4 == 0
    requires Split(data) == Prepend(done, Split(data[off..]))
    ensures RtaOk(data[off..]) ==>
      var a := First(data[off..]);
      off + Size(a) <= |data| && Split(data) == Prepend(done + [a], Split(data[off + Size(a)..]))
    ensures !RtaOk(data[off..]) ==> Split(data) == if off == |data| then Some(done) else None
  {
    hide Split;
    hide RtaOk;
    hide Size;
    var rest := data[off..];
    SplitOnce(rest);
    if RtaOk(rest) {
      var a := First(rest);
      assert rest[Size(a)..] == data[off + Size(a)..];
      PrependTwice(done, a, Split(rest[Size(a)..]));
    } else {
      assert done + [] == done;
    }
  }

  function Prepend(done: seq<Attr>, rest: Option<seq<Attr>>): Option<seq<Attr>> {
    if rest.None? then None else Some(done + rest.value)
  }

  lemma PrependNone(rest: Option<seq<Attr>>)
    ensures Prepend([], rest) == rest
  {
    if rest.Some? {
      assert [] + rest.value == rest.value;
    }
  }

  lemma LastOfMore(done: seq<Attr>, a: Attr, t: nat)
    ensures LastOf(done + [a], t) == if a.kind == t then Some(a.payload) else LastOf(done, t)
  {
    assert (done + [a])[..|done|] == done;
  }

  /** rtnl_parse_rtattr. A pointer into the block is modelled by the payload it leads to.
      It returns 0 just when the block is a concatenation of padded attributes, and then
      the table holds the last attribute of every type up to max. */
  method ParseRtattr(db: array<Option<Bytes>>, max: nat, data: Bytes) returns (rv: int)
    requires db.Length == max + 1 && |data| % 4 == 0
    modifies db
    ensures rv == (if Split(data).Some? then 0 else -1)
    ensures rv == 0 ==> forall t :: 0 <= t <= max ==>
              db[t] == if LastOf(Split(data).value, t).Some? then LastOf(Split(data).value, t) else old(db[t])
  {
    hide Split;
    hide RtaOk;
    hide Size;
    hide StartsWith;
    var off: nat, len: nat := 0, |data|;
    ghost var done: seq<Attr> := [];
    assert data[0..] == data && Split(data) == Prepend(done, Split(data[0..])) by {
      PrependNone(Split(data));
    }
    while RtaOk(data[off..])
      invariant off <= |data| && off + len == |data| && len % 4 == 0
      invariant Split(data) == Prepend(done, Split(data[off..]))
      invariant forall t :: 0 <= t <= max ==> db[t] == if LastOf(done, t).Some? then LastOf(done, t) else old(db[t])
      decreases len
    {
      SplitStep(data, done, off);
      var rta := First(data[off..]);
      SizeAligned(rta);
      if rta.kind <= max {
        db[rta.kind] := Some(rta.payload);
      }
      forall t: nat ensures LastOf(done + [rta], t) == if rta.kind == t then Some(rta.payload) else LastOf(done, t) {
        LastOfMore(done, rta, t);
      }
      done := done + [rta];
      off, len := off + Size(rta), len - Size(rta);
    }
    SplitStep(data, done, off);
    if len != 0 {
      return -1;
    }
    return 0;
  }
}
