/** The fd_set algebra of select: splitting and merging, clearing and restoring, and the
    translation between descriptors and sessions (vcl-ldpreload, vcom.c and vcom_socket.c). */
module FdSets {

  datatype Rwe = Read | Write | Except

  /** A bit of one of the three sets. */
  type Bit = (Rwe, nat)

  const EBADFD: int := -77

  // ---------- scanning the sets in the order of the loops ----------

  function Rank(k: Rwe): nat {
    match k
    case Read => 0
    case Write => 1
    case Except => 2
  }

  /** For each descriptor the loops look at the read, the write and the except set. */
  function Pos(p: Bit): nat {
    3 * p.1 + Rank(p.0)
  }

  /** The bits before a position of the scan. */
  function Upto(b: set<Bit>, n: nat): set<Bit> {
    set p | p in b && Pos(p) < n
  }

  function Below(b: set<Bit>, nfds: nat): set<Bit> {
    set p | p in b && p.1 < nfds
  }

  lemma CountedNone(b: set<Bit>)
    ensures Counted(Upto(b, 0), -1, 0)
  {
  }

  lemma UptoNone(b: set<Bit>)
    ensures Upto(b, 0) == {}
  {
  }

  lemma Scan(fd: nat)
    ensures Pos((Read, fd)) == 3 * fd && Pos((Write, fd)) == 3 * fd + 1 && Pos((Except, fd)) == 3 * fd + 2
  {
  }

  lemma UptoStep(b: set<Bit>, p: Bit)
    ensures Upto(b, Pos(p) + 1) == if p in b then Upto(b, Pos(p)) + {p} else Upto(b, Pos(p))
    ensures p !in Upto(b, Pos(p))
  {
    forall q: Bit | Pos(q) == Pos(p) ensures q == p {
    }
  }

  lemma UptoAll(b: set<Bit>, nfds: nat)
    ensures Upto(b, 3 * nfds) == Below(b, nfds)
  {
    forall p: Bit ensures Pos(p) < 3 * nfds <==> p.1 < nfds {
    }
  }

  /** max is the highest descriptor of b, or -1. */
  ghost predicate IsMax(b: set<Bit>, max: int) {
    && -1 <= max
    && (max == -1 <==> b == {})
    && (forall p :: p in b ==> p.1 <= max)
    && (max >= 0 ==> exists p :: p in b && p.1 == max)
  }

  ghost predicate Counted(b: set<Bit>, max: int, n: nat) {
    IsMax(b, max) && n == |b|
  }

  lemma MaxMore(b: set<Bit>, max: int, p: Bit)
    requires IsMax(b, max)
    ensures IsMax(b + {p}, if p.1 > max then p.1 else max)
  {
    if p.1 <= max {
      var q :| q in b && q.1 == max;
      assert q in b + {p};
    } else {
      assert p in b + {p};
    }
  }

  lemma CountedMore(b: set<Bit>, max: int, n: nat, p: Bit)
    requires Counted(b, max, n) && p !in b
    ensures Counted(b + {p}, if p.1 > max then p.1 else max, n + 1)
  {
    MaxMore(b, max, p);
  }

  /** The number to pass to select for these bits. */
  ghost predicate IsNfds(b: set<Bit>, nfds: nat) {
    && (forall p :: p in b ==> p.1 < nfds)
    && (nfds > 0 ==> exists p :: p in b && p.1 == nfds - 1)
  }

  function NfdsOf(max: int): (r: nat)
    requires max >= -1
  {
    if max != -1 then max + 1 else 0
  }

  lemma CountedIsNfds(b: set<Bit>, max: int, n: nat)
    requires Counted(b, max, n)
    ensures max >= -1 && IsNfds(b, NfdsOf(max)) && n == |b|
  {
  }

  // ---------- the sets and what the operations mean ----------

  /** Three fd_sets passed together; those not in has are NULL. */
  class FdSets {
    const has: set<Rwe>
    var bits: set<Bit>

    constructor (has: set<Rwe>)
      ensures this.has == has && bits == {}
    {
      this.has := has;
      bits := {};
    }

    ghost predicate Valid()
      reads this
    {
      forall p :: p in bits ==> p.0 in has
    }
  }

  function Of(b: set<Bit>, fds: set<nat>): set<Bit> {
    set p | p in b && p.1 in fds
  }

  function NotOf(b: set<Bit>, fds: set<nat>): set<Bit> {
    set p | p in b && p.1 !in fds
  }

  function Kinds(b: set<Bit>, has: set<Rwe>): set<Bit> {
    set p | p in b && p.0 in has
  }

  // ---------- vcom.c ----------

  /** The second half of vcom_fd_clear, vcom_fd_set and vcom_socket_sid_fds_2_fds. */
  method CountBits(s: FdSets, nfds: nat) returns (newNfds: nat, nfd: nat)
    requires s.Valid()
    ensures nfd == |Below(s.bits, nfds)| && IsNfds(Below(s.bits, nfds), newNfds)
  {
    hide Counted;
    hide Upto;
    hide Below;
    hide Pos;
    hide IsNfds;
    hide FdSets.Valid;
    var max: int := -1;
    nfd := 0;
    CountedNone(s.bits);
    for fd := 0 to nfds
      invariant Counted(Upto(s.bits, 3 * fd), max, nfd)
    {
      Scan(fd);
      max, nfd := CountBit(s, Read, fd, max, nfd);
      max, nfd := CountBit(s, Write, fd, max, nfd);
      max, nfd := CountBit(s, Except, fd, max, nfd);
    }
    UptoAll(s.bits, nfds);
    CountedIsNfds(Below(s.bits, nfds), max, nfd);
    newNfds := NfdsOf(max);
  }

  method CountBit(s: FdSets, k: Rwe, fd: nat, max: int, nfd: nat) returns (max': int, nfd': nat)
    requires s.Valid() && Counted(Upto(s.bits, Pos((k, fd))), max, nfd)
    ensures Counted(Upto(s.bits, Pos((k, fd)) + 1), max', nfd')
  {
    hide Counted;
    max', nfd' := max, nfd;
    UptoStep(s.bits, (k, fd));
    if k in s.has && (k, fd) in s.bits {
      CountedMore(Upto(s.bits, Pos((k, fd))), max, nfd, (k, fd));
      if fd > max {
        max' := fd;
      }
      nfd' := nfd + 1;
    }
  }

  /** vcom_fd_clear: the vcom descriptors below nfds go. */
  method FdClear(vcom: set<nat>, nfds: nat, s: FdSets) returns (newNfds: nat, nfd: nat)
    requires s.Valid()
    modifies s
    ensures s.Valid() && s.bits == old(s.bits) - Of(Below(old(s.bits), nfds), vcom)
    ensures nfd == |Below(s.bits, nfds)| && IsNfds(Below(s.bits, nfds), newNfds)
  {
    UptoNone(s.bits);
    for fd := 0 to nfds
      invariant s.Valid() && s.bits == old(s.bits) - Of(Upto(old(s.bits), 3 * fd), vcom)
    {
      ClearBit(vcom, s, Read, fd, old(s.bits));
      ClearBit(vcom, s, Write, fd, old(s.bits));
      ClearBit(vcom, s, Except, fd, old(s.bits));
    }
    UptoAll(old(s.bits), nfds);
    newNfds, nfd := CountBits(s, nfds);
  }

  method ClearBit(vcom: set<nat>, s: FdSets, k: Rwe, fd: nat, ghost was: set<Bit>)
    requires s.Valid() && s.bits == was - Of(Upto(was, Pos((k, fd))), vcom)
    modifies s
    ensures s.Valid() && s.bits == was - Of(Upto(was, Pos((k, fd)) + 1), vcom)
  {
    UptoStep(was, (k, fd));
    if k in s.has && (k, fd) in s.bits {
      if fd in vcom {
        s.bits := s.bits - {(k, fd)};
      }
    }
  }

  /** What vcom_fd_set puts back: the except set is not among the sets it visits. */
  function Restored(b: set<Bit>, vcom: set<nat>, has: set<Rwe>): set<Bit> {
    Kinds(Of(b, vcom), has * {Read, Write})
  }

  /** vcom_fd_set: the saved vcom descriptors below nfds come back. */
  method FdSet(vcom: set<nat>, nfds: nat, s: FdSets, saved: FdSets) returns (newNfds: nat, nfd: nat)
    requires s.Valid() && saved.Valid() && s != saved
    modifies s
    ensures s.Valid() && s.bits == old(s.bits) + Restored(Below(saved.bits, nfds), vcom, s.has)
    ensures nfd == |Below(s.bits, nfds)| && IsNfds(Below(s.bits, nfds), newNfds)
  {
    UptoNone(saved.bits);
    for fd := 0 to nfds
      invariant s.Valid() && s.bits == old(s.bits) + Restored(Upto(saved.bits, 3 * fd), vcom, s.has)
    {
      SetBit(vcom, s, saved, Read, fd, old(s.bits));
      SetBit(vcom, s, saved, Write, fd, old(s.bits));
      UptoStep(saved.bits, (Except, fd));
    }
    UptoAll(saved.bits, nfds);
    newNfds, nfd := CountBits(s, nfds);
  }

  method SetBit(vcom: set<nat>, s: FdSets, saved: FdSets, k: Rwe, fd: nat, ghost was: set<Bit>)
    requires s.Valid() && saved.Valid() && s != saved && k != Except
    requires s.bits == was + Restored(Upto(saved.bits, Pos((k, fd))), vcom, s.has)
    modifies s
    ensures s.Valid() && s.bits == was + Restored(Upto(saved.bits, Pos((k, fd)) + 1), vcom, s.has)
  {
    UptoStep(saved.bits, (k, fd));
    if k in s.has && k in saved.has && (k, fd) in saved.bits {
      if fd in vcom {
        s.bits := s.bits + {(k, fd)};
      }
    }
  }

  /** What goes and what comes back, bit by bit. */
  lemma ClearedBits(b: set<Bit>, vcom: set<nat>, has: set<Rwe>, nfds: nat)
    ensures forall p :: p in b - Of(Below(b, nfds), vcom) <==> p in b && (p.1 < nfds ==> p.1 !in vcom)
    ensures forall p :: p in Restored(Below(b, nfds), vcom, has) <==>
              p in b && p.1 < nfds && p.1 in vcom && p.0 in has && p.0 != Except
  {
  }

  /** Clearing a copy and restoring from the original gives the original back exactly when
      no vcom descriptor below nfds was in the except set; the read and write sets always
      come back. */
  lemma ClearRestore(b: set<Bit>, vcom: set<nat>, has: set<Rwe>, nfds: nat)
    requires forall p :: p in b ==> p.0 in has
    ensures var back := b - Of(Below(b, nfds), vcom) + Restored(Below(b, nfds), vcom, has);
      && Kinds(back, {Read, Write}) == Kinds(b, {Read, Write})
      && (back == b <==> forall fd :: (Except, fd) in b && fd < nfds ==> fd !in vcom)
  {
    var back := b - Of(Below(b, nfds), vcom) + Restored(Below(b, nfds), vcom, has);
    forall p | p in Kinds(b, {Read, Write}) ensures p in Kinds(back, {Read, Write}) {
      assert p in Of(Below(b, nfds), vcom) ==> p in Restored(Below(b, nfds), vcom, has);
    }
    if forall fd :: (Except, fd) in b && fd < nfds ==> fd !in vcom {
      forall p | p in b ensures p in back {
        if p.0 == Except {
          assert (Except, p.1) in b;
        }
      }
    } else {
      var fd :| (Except, fd) in b && fd < nfds && fd in vcom;
      assert (Except, fd) !in back;
    }
  }

  // ---------- split and merge ----------

  /** vcom_fd_set_split: the descriptors below nfds go to the vcom or to the libc sets. */
  method FdSetSplit(vcom: set<nat>, nfds: nat, s: FdSets, v: FdSets, l: FdSets)
    returns (vcomNfds: nat, vcomNfd: nat, libcNfds: nat, libcNfd: nat)
    requires s.Valid() && v.Valid() && l.Valid() && s != v && s != l && v != l
    modifies v, l
    ensures v.Valid() && v.bits == old(v.bits) + Kinds(Of(Below(s.bits, nfds), vcom), v.has)
    ensures l.Valid() && l.bits == old(l.bits) + Kinds(NotOf(Below(s.bits, nfds), vcom), l.has)
    ensures vcomNfd == |Kinds(Of(Below(s.bits, nfds), vcom), v.has)|
    ensures libcNfd == |Kinds(NotOf(Below(s.bits, nfds), vcom), l.has)|
    ensures IsNfds(Kinds(Of(Below(s.bits, nfds), vcom), v.has), vcomNfds)
    ensures IsNfds(Kinds(NotOf(Below(s.bits, nfds), vcom), l.has), libcNfds)
  {
    var vMax: int, lMax: int := -1, -1;
    vcomNfd, libcNfd := 0, 0;
    hide Parted;
    hide IsNfds;
    hide Kinds;
    hide Of;
    hide NotOf;
    hide Below;
    hide FdSets.Valid;
    ghost var b, v0, l0 := s.bits, v.bits, l.bits;
    PartedNone(b, vcom, v.has, l.has, v.bits, l.bits);
    for fd := 0 to nfds
      invariant v.Valid() && l.Valid()
      invariant Parted(b, vcom, v.has, l.has, v0, l0, 3 * fd, v.bits, vMax, vcomNfd, l.bits, lMax, libcNfd)
    {
      vMax, vcomNfd, lMax, libcNfd := SplitFd(vcom, s, v, l, fd, vMax, vcomNfd, lMax, libcNfd, v0, l0);
    }
    PartedAll(b, vcom, v.has, l.has, v0, l0, nfds, v.bits, vMax, vcomNfd, l.bits, lMax, libcNfd);
    vcomNfds, libcNfds := NfdsOf(vMax), NfdsOf(lMax);
  }

  /** The split up to position n. */
  ghost predicate Parted(b: set<Bit>, vcom: set<nat>, vHas: set<Rwe>, lHas: set<Rwe>, v0: set<Bit>, l0: set<Bit>,
                         n: nat, v: set<Bit>, vMax: int, vNfd: nat, l: set<Bit>, lMax: int, lNfd: nat) {
    && v == v0 + Kinds(Of(Upto(b, n), vcom), vHas)
    && l == l0 + Kinds(NotOf(Upto(b, n), vcom), lHas)
    && Counted(Kinds(Of(Upto(b, n), vcom), vHas), vMax, vNfd)
    && Counted(Kinds(NotOf(Upto(b, n), vcom), lHas), lMax, lNfd)
  }

  lemma PartedNone(b: set<Bit>, vcom: set<nat>, vHas: set<Rwe>, lHas: set<Rwe>, v: set<Bit>, l: set<Bit>)
    ensures Parted(b, vcom, vHas, lHas, v, l, 0, v, -1, 0, l, -1, 0)
  {
    assert Kinds(Of(Upto(b, 0), vcom), vHas) == {} == Kinds(NotOf(Upto(b, 0), vcom), lHas);
  }

  lemma PartedAll(b: set<Bit>, vcom: set<nat>, vHas: set<Rwe>, lHas: set<Rwe>, v0: set<Bit>, l0: set<Bit>, nfds: nat,
                  v: set<Bit>, vMax: int, vNfd: nat, l: set<Bit>, lMax: int, lNfd: nat)
    requires Parted(b, vcom, vHas, lHas, v0, l0, 3 * nfds, v, vMax, vNfd, l, lMax, lNfd)
    ensures vMax >= -1 && lMax >= -1
    ensures var (vs, ls) := (Kinds(Of(Below(b, nfds), vcom), vHas), Kinds(NotOf(Below(b, nfds), vcom), lHas));
      && v == v0 + vs && vNfd == |vs| && IsNfds(vs, NfdsOf(vMax))
      && l == l0 + ls && lNfd == |ls| && IsNfds(ls, NfdsOf(lMax))
  {
    UptoAll(b, nfds);
    hide Kinds;
    CountedIsNfds(Kinds(Of(Below(b, nfds), vcom), vHas), vMax, vNfd);
    CountedIsNfds(Kinds(NotOf(Below(b, nfds), vcom), lHas), lMax, lNfd);
  }

  method SplitFd(vcom: set<nat>, s: FdSets, v: FdSets, l: FdSets, fd: nat, vMax: int, vNfd: nat, lMax: int, lNfd: nat,
                 ghost v0: set<Bit>, ghost l0: set<Bit>)
    returns (vMax': int, vNfd': nat, lMax': int, lNfd': nat)
    requires s.Valid() && v.Valid() && l.Valid() && s != v && s != l && v != l
    requires Parted(s.bits, vcom, v.has, l.has, v0, l0, 3 * fd, v.bits, vMax, vNfd, l.bits, lMax, lNfd)
    modifies v, l
    ensures v.Valid() && l.Valid()
    ensures Parted(s.bits, vcom, v.has, l.has, v0, l0, 3 * (fd + 1), v.bits, vMax', vNfd', l.bits, lMax', lNfd')
  {
    hide Parted;
    hide Pos;
    hide FdSets.Valid;
    Scan(fd);
    vMax', vNfd', lMax', lNfd' := SplitBit(vcom, s, v, l, Read, fd, vMax, vNfd, lMax, lNfd, v0, l0);
    vMax', vNfd', lMax', lNfd' := SplitBit(vcom, s, v, l, Write, fd, vMax', vNfd', lMax', lNfd', v0, l0);
    vMax', vNfd', lMax', lNfd' := SplitBit(vcom, s, v, l, Except, fd, vMax', vNfd', lMax', lNfd', v0, l0);
  }

  method SplitBit(vcom: set<nat>, s: FdSets, v: FdSets, l: FdSets, k: Rwe, fd: nat, vMax: int, vNfd: nat, lMax: int,
                  lNfd: nat, ghost v0: set<Bit>, ghost l0: set<Bit>)
    returns (vMax': int, vNfd': nat, lMax': int, lNfd': nat)
    requires s.Valid() && v.Valid() && l.Valid() && s != v && s != l && v != l
    requires Parted(s.bits, vcom, v.has, l.has, v0, l0, Pos((k, fd)), v.bits, vMax, vNfd, l.bits, lMax, lNfd)
    modifies v, l
    ensures v.Valid() && l.Valid()
    ensures Parted(s.bits, vcom, v.has, l.has, v0, l0, Pos((k, fd)) + 1, v.bits, vMax', vNfd', l.bits, lMax', lNfd')
  {
    hide Counted;
    hide Kinds;
    hide Of;
    hide NotOf;
    hide Upto;
    hide Pos;
    vMax', vNfd', lMax', lNfd' := vMax, vNfd, lMax, lNfd;
    ghost var b := Upto(s.bits, Pos((k, fd)));
    SplitStep(s.bits, vcom, v.has, l.has, (k, fd));
    if k in s.has && (k, fd) in s.bits {
      if fd in vcom {
        if k in v.has {
          CountedMore(Kinds(Of(b, vcom), v.has), vMax, vNfd, (k, fd));
          v.bits := v.bits + {(k, fd)};
          if fd > vMax {
            vMax' := fd;
          }
          vNfd' := vNfd + 1;
        }
      } else {
        if k in l.has {
          CountedMore(Kinds(NotOf(b, vcom), l.has), lMax, lNfd, (k, fd));
          l.bits := l.bits + {(k, fd)};
          if fd > lMax {
            lMax' := fd;
          }
          lNfd' := lNfd + 1;
        }
      }
    }
  }

  lemma SplitStep(b: set<Bit>, vcom: set<nat>, vHas: set<Rwe>, lHas: set<Rwe>, p: Bit)
    ensures var (u, u') := (Upto(b, Pos(p)), Upto(b, Pos(p) + 1));
      && Kinds(Of(u', vcom), vHas) ==
         Kinds(Of(u, vcom), vHas) + (if p in b && p.1 in vcom && p.0 in vHas then {p} else {})
      && Kinds(NotOf(u', vcom), lHas) ==
         Kinds(NotOf(u, vcom), lHas) + (if p in b && p.1 !in vcom && p.0 in lHas then {p} else {})
      && p !in Kinds(Of(u, vcom), vHas) && p !in Kinds(NotOf(u, vcom), lHas)
      && Kinds(Of(u, vcom), vHas) + {} == Kinds(Of(u, vcom), vHas)
      && Kinds(NotOf(u, vcom), lHas) + {} == Kinds(NotOf(u, vcom), lHas)
  {
    UptoStep(b, p);
  }

  /** Split sets are disjoint, and together they are the input below nfds: the descriptors of
      vcom on one side, the others on the other. */
  lemma SplitParts(b: set<Bit>, vcom: set<nat>, has: set<Rwe>, nfds: nat)
    requires forall p :: p in b ==> p.0 in has
    ensures forall p :: p in Kinds(Of(Below(b, nfds), vcom), has) <==> p in b && p.1 < nfds && p.1 in vcom
    ensures forall p :: p in Kinds(NotOf(Below(b, nfds), vcom), has) <==> p in b && p.1 < nfds && p.1 !in vcom
    ensures var (v, l) := (Kinds(Of(Below(b, nfds), vcom), has), Kinds(NotOf(Below(b, nfds), vcom), has));
      v !! l && v + l == Below(b, nfds)
  {
  }

  /** vcom_fd_set_merge. A bit in both sources is counted twice. */
  method FdSetMerge(s: FdSets, vcomNfds: nat, v: FdSets, libcNfds: nat, l: FdSets) returns (nfds: nat, nfd: nat)
    requires s.Valid() && v.Valid() && l.Valid() && s != v && s != l
    modifies s
    ensures var (vs, ls) := (Kinds(Below(v.bits, vcomNfds), s.has), Kinds(Below(l.bits, libcNfds), s.has));
      && s.Valid() && s.bits == old(s.bits) + vs + ls
      && nfd == |vs| + |ls|
      && IsNfds(vs + ls, nfds)
  {
    var max: int := -1;
    nfd := 0;
    ghost var vs, ls := Kinds(Below(v.bits, vcomNfds), s.has), Kinds(Below(l.bits, libcNfds), s.has);
    assert {} + vs == vs;
    max, nfd := MergeAll(s, vcomNfds, v, max, nfd, {});
    max, nfd := MergeAll(s, libcNfds, l, max, nfd, vs);
    assert Counted(vs + ls, max, |vs + ls|);
    CountedIsNfds(vs + ls, max, |vs + ls|);
    nfds := NfdsOf(max);
  }

  /** One source of vcom_fd_set_merge; seen are the bits merged before. */
  method MergeAll(s: FdSets, nfds: nat, src: FdSets, max: int, nfd: nat, ghost seen: set<Bit>)
    returns (max': int, nfd': nat)
    requires s.Valid() && src.Valid() && s != src && IsMax(seen, max)
    modifies s
    ensures var p := Kinds(Below(src.bits, nfds), s.has);
      && s.Valid() && s.bits == old(s.bits) + p
      && nfd' == nfd + |p|
      && IsMax(seen + p, max')
  {
    hide Merging;
    hide Upto;
    hide Pos;
    max', nfd' := max, nfd;
    ghost var b, was := src.bits, s.bits;
    MergingNone(b, s.has, seen, was, max, nfd);
    for fd := 0 to nfds
      invariant s.Valid() && Merging(b, s.has, seen, was, nfd, 3 * fd, s.bits, max', nfd')
    {
      Scan(fd);
      max', nfd' := MergeBit(s, src, Read, fd, max', nfd', seen, was, nfd);
      max', nfd' := MergeBit(s, src, Write, fd, max', nfd', seen, was, nfd);
      max', nfd' := MergeBit(s, src, Except, fd, max', nfd', seen, was, nfd);
    }
    MergingAll(b, s.has, seen, was, nfd, nfds, s.bits, max', nfd');
  }

  /** The merge of one source up to position n; n0 bits have been counted before it. */
  ghost predicate Merging(b: set<Bit>, has: set<Rwe>, seen: set<Bit>, was: set<Bit>, n0: nat, n: nat, bits: set<Bit>,
                          max: int, nfd: nat) {
    var p := Kinds(Upto(b, n), has);
    bits == was + p && nfd == n0 + |p| && IsMax(seen + p, max)
  }

  lemma MergingNone(b: set<Bit>, has: set<Rwe>, seen: set<Bit>, was: set<Bit>, max: int, nfd: nat)
    requires IsMax(seen, max)
    ensures Merging(b, has, seen, was, nfd, 0, was, max, nfd)
  {
    assert Kinds(Upto(b, 0), has) == {};
    assert seen + {} == seen && was + {} == was;
  }

  lemma MergingAll(b: set<Bit>, has: set<Rwe>, seen: set<Bit>, was: set<Bit>, n0: nat, nfds: nat, bits: set<Bit>,
                   max: int, nfd: nat)
    requires Merging(b, has, seen, was, n0, 3 * nfds, bits, max, nfd)
    ensures var p := Kinds(Below(b, nfds), has); bits == was + p && nfd == n0 + |p| && IsMax(seen + p, max)
  {
    UptoAll(b, nfds);
  }

  method MergeBit(s: FdSets, src: FdSets, k: Rwe, fd: nat, max: int, nfd: nat, ghost seen: set<Bit>,
                  ghost was: set<Bit>, ghost n0: nat)
    returns (max': int, nfd': nat)
    requires s.Valid() && src.Valid() && s != src
    requires Merging(src.bits, s.has, seen, was, n0, Pos((k, fd)), s.bits, max, nfd)
    modifies s
    ensures s.Valid() && Merging(src.bits, s.has, seen, was, n0, Pos((k, fd)) + 1, s.bits, max', nfd')
  {
    hide IsMax;
    hide Kinds;
    max', nfd' := max, nfd;
    ghost var p := Kinds(Upto(src.bits, Pos((k, fd))), s.has);
    KindsStep(src.bits, s.has, (k, fd));
    if k in src.has && k in s.has && (k, fd) in src.bits {
      MaxMore(seen + p, max, (k, fd));
      assert seen + p + {(k, fd)} == seen + (p + {(k, fd)});
      s.bits := s.bits + {(k, fd)};
      if fd > max {
        max' := fd;
      }
      nfd' := nfd + 1;
    }
  }

  lemma KindsStep(b: set<Bit>, has: set<Rwe>, p: Bit)
    ensures var (u, u') := (Upto(b, Pos(p)), Upto(b, Pos(p) + 1));
      && Kinds(u', has) == (if p in b && p.0 in has then Kinds(u, has) + {p} else Kinds(u, has))
      && p !in Kinds(u, has)
  {
    UptoStep(b, p);
  }

  /** Split the select sets, let the two polls keep any bits, and merge what they kept into
      emptied sets: the result is the union, no bit is counted twice, and all of it was
      asked for. */
  lemma SplitPollMerge(b: set<Bit>, vcom: set<nat>, has: set<Rwe>, nfds: nat, v: set<Bit>, l: set<Bit>, vcomNfds: nat,
                       libcNfds: nat)
    requires forall p :: p in b ==> p.0 in has
    requires v <= Kinds(Of(Below(b, nfds), vcom), has) && l <= Kinds(NotOf(Below(b, nfds), vcom), has)
    requires IsNfds(Kinds(Of(Below(b, nfds), vcom), has), vcomNfds)
    requires IsNfds(Kinds(NotOf(Below(b, nfds), vcom), has), libcNfds)
    ensures var (vs, ls) := (Kinds(Below(v, vcomNfds), has), Kinds(Below(l, libcNfds), has));
      && {} + vs + ls == v + l <= Below(b, nfds)
      && |vs| + |ls| == |v + l|
      && (v == Kinds(Of(Below(b, nfds), vcom), has) && l == Kinds(NotOf(Below(b, nfds), vcom), has) ==>
            v + l == Below(b, nfds))
  {
    PollKept(Kinds(Of(Below(b, nfds), vcom), has), has, vcomNfds, v);
    PollKept(Kinds(NotOf(Below(b, nfds), vcom), has), has, libcNfds, l);
    SplitParts(b, vcom, has, nfds);
    hide Kinds;
    hide Of;
    hide NotOf;
    hide Below;
    assert v !! l;
    assert {} + v + l == v + l;
  }

  lemma PollKept(part: set<Bit>, has: set<Rwe>, n: nat, kept: set<Bit>)
    requires kept <= part && IsNfds(part, n) && forall p :: p in part ==> p.0 in has
    ensures Kinds(Below(kept, n), has) == kept
  {
  }

  // ---------- descriptors and sessions ----------

  const EINVAL: int := -22

  /** The bits whose descriptor has no session. */
  function Missing(b: set<Bit>, sid: map<nat, nat>): set<Bit> {
    set p | p in b && p.1 !in sid
  }

  function SidBitOf(p: Bit, sid: map<nat, nat>): Bit {
    if p.1 in sid then (p.0, sid[p.1]) else p
  }

  /** The session bits of descriptor bits. */
  function Sids(b: set<Bit>, sid: map<nat, nat>): set<Bit> {
    set p | p in b :: SidBitOf(p, sid)
  }

  /** The bits whose session bit is not in kept. */
  function Lost(b: set<Bit>, sid: map<nat, nat>, kept: set<Bit>): set<Bit> {
    set p | p in b && SidBitOf(p, sid) !in kept
  }

  /** vcom_socket_fds_2_sid_fds; sid gives the session of every vcom descriptor. */
  method FdsToSidFds(sid: map<nat, nat>, s: FdSets, nfds: nat, f: FdSets) returns (rv: int, nsidFds: nat)
    requires s.Valid() && f.Valid() && s != f
    modifies s
    ensures s.Valid()
    ensures var b := Kinds(Below(f.bits, nfds), s.has);
      if Missing(b, sid) != {} then rv == -77
      else rv == |b| && s.bits == old(s.bits) + Sids(b, sid) && IsNfds(Sids(b, sid), nsidFds)
  {
    hide Translated;
    hide Kinds;
    hide Below;
    hide Missing;
    hide Sids;
    hide IsNfds;
    hide FdSets.Valid;
    var max: int, nsid: nat := -1, 0;
    ghost var b, was := f.bits, s.bits;
    TranslatedNone(b, s.has, sid, was);
    for fd := 0 to nfds
      invariant s.Valid() && Translated(b, s.has, sid, was, 3 * fd, s.bits, max, nsid)
    {
      Scan(fd);
      var ok;
      ok, max, nsid := SidBit(sid, s, f, Read, fd, max, nsid, was);
      if ok {
        ok, max, nsid := SidBit(sid, s, f, Write, fd, max, nsid, was);
      }
      if ok {
        ok, max, nsid := SidBit(sid, s, f, Except, fd, max, nsid, was);
      }
      if !ok {
        MissingBelow(b, s.has, sid, nfds, fd);
        return EBADFD, 0;
      }
    }
    TranslatedAll(b, s.has, sid, was, nfds, s.bits, max, nsid);
    nsidFds := NfdsOf(max);
    rv := nsid;
  }

  ghost predicate Translated(b: set<Bit>, has: set<Rwe>, sid: map<nat, nat>, was: set<Bit>, n: nat, bits: set<Bit>,
                             max: int, nsid: nat) {
    var p := Kinds(Upto(b, n), has);
    Missing(p, sid) == {} && bits == was + Sids(p, sid) && IsMax(Sids(p, sid), max) && nsid == |p|
  }

  lemma TranslatedNone(b: set<Bit>, has: set<Rwe>, sid: map<nat, nat>, was: set<Bit>)
    ensures Translated(b, has, sid, was, 0, was, -1, 0)
  {
    assert Kinds(Upto(b, 0), has) == {} && Sids({}, sid) == {} && was + {} == was;
  }

  lemma TranslatedAll(b: set<Bit>, has: set<Rwe>, sid: map<nat, nat>, was: set<Bit>, nfds: nat, bits: set<Bit>,
                      max: int, nsid: nat)
    requires Translated(b, has, sid, was, 3 * nfds, bits, max, nsid)
    ensures var p := Kinds(Below(b, nfds), has);
      && max >= -1 && Missing(p, sid) == {} && nsid == |p|
      && bits == was + Sids(p, sid) && IsNfds(Sids(p, sid), NfdsOf(max))
  {
    UptoAll(b, nfds);
    hide Kinds;
    hide Sids;
    hide Below;
    CountedIsNfds(Sids(Kinds(Below(b, nfds), has), sid), max, |Sids(Kinds(Below(b, nfds), has), sid)|);
  }

  lemma MissingBelow(b: set<Bit>, has: set<Rwe>, sid: map<nat, nat>, nfds: nat, fd: nat)
    requires fd < nfds && fd !in sid && exists k :: k in has && (k, fd) in b
    ensures Missing(Kinds(Below(b, nfds), has), sid) != {}
  {
    var k :| k in has && (k, fd) in b;
    assert (k, fd) in Missing(Kinds(Below(b, nfds), has), sid);
  }

  method SidBit(sid: map<nat, nat>, s: FdSets, f: FdSets, k: Rwe, fd: nat, max: int, nsid: nat, ghost was: set<Bit>)
    returns (ok: bool, max': int, nsid': nat)
    requires s.Valid() && f.Valid() && s != f
    requires Translated(f.bits, s.has, sid, was, Pos((k, fd)), s.bits, max, nsid)
    modifies s
    ensures s.Valid()
    ensures ok ==> Translated(f.bits, s.has, sid, was, Pos((k, fd)) + 1, s.bits, max', nsid')
    ensures !ok ==> fd !in sid && exists k' :: k' in s.has && (k', fd) in f.bits
  {
    hide Translated;
    ok, max', nsid' := true, max, nsid;
    TranslatedStep(f.bits, s.has, sid, was, (k, fd), s.bits, max, nsid);
    if k in f.has && k in s.has && (k, fd) in f.bits {
      if fd in sid {
        s.bits := s.bits + {(k, sid[fd])};
        if sid[fd] > max {
          max' := sid[fd];
        }
        nsid' := nsid + 1;
      } else {
        ok := false;
      }
    }
  }

  lemma TranslatedStep(b: set<Bit>, has: set<Rwe>, sid: map<nat, nat>, was: set<Bit>, p: Bit, bits: set<Bit>, max: int,
                       nsid: nat)
    requires Translated(b, has, sid, was, Pos(p), bits, max, nsid)
    ensures !(p in b && p.0 in has) ==> Translated(b, has, sid, was, Pos(p) + 1, bits, max, nsid)
    ensures p in b && p.0 in has && p.1 in sid ==>
              var max' := if sid[p.1] > max then sid[p.1] else max;
              Translated(b, has, sid, was, Pos(p) + 1, bits + {(p.0, sid[p.1])}, max', nsid + 1)
  {
    var u := Kinds(Upto(b, Pos(p)), has);
    KindsStep(b, has, p);
    hide Kinds;
    hide Upto;
    hide Pos;
    hide IsMax;
    if p in b && p.0 in has && p.1 in sid {
      SidsMore(u, p, sid);
      MaxMore(Sids(u, sid), max, (p.0, sid[p.1]));
      hide Sids;
      hide Missing;
      assert was + Sids(u, sid) + {(p.0, sid[p.1])} == was + (Sids(u, sid) + {(p.0, sid[p.1])});
    }
  }

  lemma SidsMore(b: set<Bit>, p: Bit, sid: map<nat, nat>)
    requires p.1 in sid
    ensures Sids(b + {p}, sid) == Sids(b, sid) + {(p.0, sid[p.1])}
    ensures Missing(b + {p}, sid) == Missing(b, sid)
  {
  }

  /** vcom_socket_sid_fds_2_fds: descriptors whose session is no longer set go. */
  method SidFdsToFds(sid: map<nat, nat>, f: FdSets, nfds: nat, s: FdSets) returns (rv: int, newNfds: nat)
    requires s.Valid() && f.Valid() && s != f
    modifies f
    ensures f.Valid()
    ensures var b := Kinds(Below(old(f.bits), nfds), s.has);
      if Missing(b, sid) != {} then rv == -77
      else
        && f.bits == old(f.bits) - Lost(b, sid, s.bits)
        && rv == |Below(f.bits, nfds)| && IsNfds(Below(f.bits, nfds), newNfds)
  {
    assert forall p :: p in f.bits ==> p.0 in f.has;
    hide Back;
    hide Kinds;
    hide Below;
    hide Missing;
    hide Lost;
    hide IsNfds;
    hide FdSets.Valid;
    ghost var b := f.bits;
    BackNone(b, s.has, sid, s.bits);
    for fd := 0 to nfds
      invariant f.Valid() && Back(b, s.has, sid, s.bits, 3 * fd, f.bits)
    {
      Scan(fd);
      var ok;
      ok := BackBit(sid, f, s, Read, fd, b);
      if ok {
        ok := BackBit(sid, f, s, Write, fd, b);
      }
      if ok {
        ok := BackBit(sid, f, s, Except, fd, b);
      }
      if !ok {
        MissingBelow(b, s.has, sid, nfds, fd);
        return EBADFD, 0;
      }
    }
    BackAll(b, s.has, sid, s.bits, nfds, f.bits);
    newNfds, rv := CountBits(f, nfds);
  }

  ghost predicate Back(b: set<Bit>, has: set<Rwe>, sid: map<nat, nat>, kept: set<Bit>, n: nat, bits: set<Bit>) {
    var p := Kinds(Upto(b, n), has);
    Missing(p, sid) == {} && bits == b - Lost(p, sid, kept)
  }

  lemma BackNone(b: set<Bit>, has: set<Rwe>, sid: map<nat, nat>, kept: set<Bit>)
    ensures Back(b, has, sid, kept, 0, b)
  {
    assert Kinds(Upto(b, 0), has) == {};
  }

  lemma BackAll(b: set<Bit>, has: set<Rwe>, sid: map<nat, nat>, kept: set<Bit>, nfds: nat, bits: set<Bit>)
    requires Back(b, has, sid, kept, 3 * nfds, bits)
    ensures var p := Kinds(Below(b, nfds), has); Missing(p, sid) == {} && bits == b - Lost(p, sid, kept)
  {
    UptoAll(b, nfds);
  }

  method BackBit(sid: map<nat, nat>, f: FdSets, s: FdSets, k: Rwe, fd: nat, ghost b: set<Bit>) returns (ok: bool)
    requires s.Valid() && f.Valid() && s != f && Back(b, s.has, sid, s.bits, Pos((k, fd)), f.bits)
    requires forall p :: p in b ==> p.0 in f.has
    modifies f
    ensures f.Valid()
    ensures ok ==> Back(b, s.has, sid, s.bits, Pos((k, fd)) + 1, f.bits)
    ensures !ok ==> fd !in sid && exists k' :: k' in s.has && (k', fd) in b
  {
    ok := true;
    ghost var p := Kinds(Upto(b, Pos((k, fd))), s.has);
    KindsStep(b, s.has, (k, fd));
    hide Kinds;
    hide Upto;
    assert (k, fd) in b ==> (k, fd) in f.bits;
    if k in f.has && k in s.has && (k, fd) in f.bits {
      if fd in sid {
        if (k, sid[fd]) !in s.bits {
          f.bits := f.bits - {(k, fd)};
        }
      } else {
        ok := false;
      }
    }
  }

  /** vcom_socket_select, with the session sets it makes: the poll answers pollRv and keeps
      the session bits in keeps. */
  method Select(sid: map<nat, nat>, vcomNfds: int, f: FdSets, pollRv: int, keeps: set<Bit>) returns (rv: int)
    requires f.Valid()
    modifies f
    ensures f.Valid()
    ensures vcomNfds < 0 ==> rv == -22 && f.bits == old(f.bits)
    ensures vcomNfds >= 0 && (exists p :: p in old(f.bits) && p.1 < vcomNfds && p.1 !in sid) ==>
              rv == -77 && f.bits == old(f.bits)
    ensures vcomNfds >= 0 && (forall p :: p in old(f.bits) && p.1 < vcomNfds ==> p.1 in sid) ==>
              if pollRv <= 0 then rv == pollRv && f.bits == old(f.bits)
              else
                && (forall p :: p in f.bits <==>
                     p in old(f.bits) && (p.1 < vcomNfds ==> (p.0, sid[p.1]) in keeps))
                && rv == |set p | p in f.bits && p.1 < vcomNfds|
  {
    if vcomNfds < 0 {
      return EINVAL;
    }
    AllKinds(f.bits, f.has, vcomNfds);
    SelectMeans(f.bits, sid, vcomNfds, keeps);
    hide Kinds;
    hide Below;
    hide Missing;
    hide Sids;
    hide Lost;
    hide IsNfds;
    var s := new FdSets(f.has);
    var nsid, nsidFds := FdsToSidFds(sid, s, vcomNfds, f);
    if nsid < 0 {
      return nsid;
    }
    rv := pollRv;
    ghost var b := Sids(Below(f.bits, vcomNfds), sid);
    assert {} + b == b;
    s.bits := s.bits * keeps;
    if rv > 0 {
      var newNfds;
      rv, newNfds := SidFdsToFds(sid, f, vcomNfds, s);
    }
  }

  /** Which bits are left by a poll that keeps those of keeps. */
  lemma SelectMeans(b: set<Bit>, sid: map<nat, nat>, nfds: nat, keeps: set<Bit>)
    ensures Missing(Below(b, nfds), sid) != {} <==> exists p :: p in b && p.1 < nfds && p.1 !in sid
    ensures (forall p :: p in b && p.1 < nfds ==> p.1 in sid) ==>
              var w := Below(b, nfds);
              forall p :: p in b - Lost(w, sid, Sids(w, sid) * keeps) <==>
                p in b && (p.1 < nfds ==> (p.0, sid[p.1]) in keeps)
    ensures forall b': set<Bit> :: Below(b', nfds) == set p: Bit | p in b' && p.1 < nfds
  {
    var w := Below(b, nfds);
    if p :| p in b && p.1 < nfds && p.1 !in sid {
      assert p in Missing(w, sid);
    } else {
      forall p | p in w ensures p.1 in sid && SidBitOf(p, sid) == (p.0, sid[p.1]) && (p.0, sid[p.1]) in Sids(w, sid) {
        assert SidBitOf(p, sid) in Sids(w, sid);
      }
    }
  }

  lemma AllKinds(b: set<Bit>, has: set<Rwe>, n: nat)
    requires forall p :: p in b ==> p.0 in has
    ensures Kinds(Below(b, n), has) == Below(b, n)
  {
  }

  /** Translate, let the poll keep any session bits, and translate back: what remains below
      nfds are the watched descriptors whose session survived, with all of them when all
      survive; and when no two descriptors share a session there are as many as session
      bits. */
  lemma ThereAndBack(b: set<Bit>, sid: map<nat, nat>, nfds: nat, kept: set<Bit>)
    requires Missing(Below(b, nfds), sid) == {} && kept <= Sids(Below(b, nfds), sid)
    ensures var (w, b') := (Below(b, nfds), b - Lost(Below(b, nfds), sid, kept));
      && (forall p :: p in Below(b', nfds) <==> p in b && p.1 < nfds && p.1 in sid && (p.0, sid[p.1]) in kept)
      && b' - Below(b', nfds) == b - w
      && (b' == b <==> kept == Sids(w, sid))
      && (Distinct(w, sid) ==> |Below(b', nfds)| == |kept|)
  {
    var w, b' := Below(b, nfds), b - Lost(Below(b, nfds), sid, kept);
    var w' := Below(b', nfds);
    assert forall p :: p in w ==> p !in Missing(w, sid);
    assert Sids(w', sid) == kept;
    if kept == Sids(w, sid) {
      assert Lost(w, sid, kept) == {};
    }
    if Distinct(w, sid) {
      SidsCount(w', sid);
    }
  }

  /** No two descriptors of the same set share a session. */
  ghost predicate Distinct(b: set<Bit>, sid: map<nat, nat>) {
    forall p, q :: p in b && q in b && SidBitOf(p, sid) == SidBitOf(q, sid) ==> p == q
  }

  lemma SidsWithout(b: set<Bit>, sid: map<nat, nat>, p: Bit)
    requires Distinct(b, sid) && p in b
    ensures Distinct(b - {p}, sid)
    ensures Sids(b, sid) == Sids(b - {p}, sid) + {SidBitOf(p, sid)}
    ensures SidBitOf(p, sid) !in Sids(b - {p}, sid)
  {
    hide SidBitOf;
    assert forall q :: q in b ==> q == p || q in b - {p};
  }

  lemma {:induction false} SidsCount(b: set<Bit>, sid: map<nat, nat>)
    requires Distinct(b, sid)
    ensures |Sids(b, sid)| == |b|
  {
    if b != {} {
      var p :| p in b;
      SidsWithout(b, sid, p);
      hide Distinct;
      SidsCount(b - {p}, sid);
      hide Sids;
    } else {
      assert Sids(b, sid) == {};
    }
  }
}
