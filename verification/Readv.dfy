/** vcom_socket_readv: one read spread over several buffers (vcl-ldpreload, vcom_socket.c). */
module Readv {

  type Bytes = seq<bv8>

  const EBADF: int := -9
  const EAGAIN: int := -11
  const EINVAL: int := -22
  const IOV_MAX: nat := 1024
  const SSIZE_MAX: nat := 0x7fff_ffff_ffff_ffff

  // ---------- flattened buffers ----------

  function Concat(bufs: seq<Bytes>): Bytes {
    if bufs == [] then [] else bufs[0] + Concat(bufs[1..])
  }

  function Sum(lens: seq<nat>): nat {
    if lens == [] then 0 else lens[0] + Sum(lens[1..])
  }

  lemma {:induction false} ConcatParts(a: seq<Bytes>, b: seq<Bytes>)
    ensures Concat(a + b) == Concat(a) + Concat(b)
  {
    if a == [] {
      assert a + b == b;
    } else {
      assert (a + b)[1..] == a[1..] + b;
      ConcatParts(a[1..], b);
    }
  }

  lemma {:induction false} SumParts(a: seq<nat>, b: seq<nat>)
    ensures Sum(a + b) == Sum(a) + Sum(b)
  {
    if a == [] {
      assert a + b == b;
    } else {
      assert (a + b)[1..] == a[1..] + b;
      SumParts(a[1..], b);
    }
  }

  lemma ConcatAt(bufs: seq<Bytes>, i: nat)
    requires i < |bufs|
    ensures Concat(bufs[..i + 1]) == Concat(bufs[..i]) + bufs[i]
    ensures Concat(bufs) == Concat(bufs[..i]) + bufs[i] + Concat(bufs[i + 1..])
  {
    hide Concat;
    var a, b, c := bufs[..i], [bufs[i]], bufs[i + 1..];
    TakeOne(bufs, i);
    ConcatOne(bufs[i]);
    ConcatParts(a, b);
    ConcatParts(a + b, c);
  }

  lemma TakeOne<T>(s: seq<T>, i: nat)
    requires i < |s|
    ensures s[..i + 1] == s[..i] + [s[i]]
    ensures s == s[..i] + [s[i]] + s[i + 1..]
  {
  }

  lemma ConcatOne(b: Bytes)
    ensures Concat([b]) == b
  {
    assert Concat([b]) == b + Concat([]);
  }

  lemma Slices(s: Bytes, n: nat, r: nat)
    requires n + r <= |s|
    ensures s[..n] + s[n..n + r] == s[..n + r]
  {
  }

  /** The three parts of the flattened buffers, before and after buffer i receives got. */
  lemma Refill(a: Bytes, b: Bytes, c: Bytes, filled: Bytes, got: Bytes)
    requires |filled| == |a| && |got| <= |b|
    ensures filled + (got + b[|got|..]) + c == filled + got + (a + b + c)[|a| + |got|..]
  {
  }

  lemma SumAt(lens: seq<nat>, i: nat)
    requires i < |lens|
    ensures Sum(lens[..i + 1]) == Sum(lens[..i]) + lens[i]
    ensures Sum(lens[..i + 1]) <= Sum(lens)
  {
    assert lens[..i + 1] == lens[..i] + [lens[i]];
    SumParts(lens[..i], [lens[i]]);
    assert lens == lens[..i + 1] + lens[i + 1..];
    SumParts(lens[..i + 1], lens[i + 1..]);
  }

  /** The stream's next n bytes are the first n of the flattened buffers, and the others
      are as they were. */
  ghost predicate Filled(was: seq<Bytes>, now: seq<Bytes>, stream: Bytes, n: nat) {
    && n <= |stream| && n <= |Concat(was)|
    && Concat(now) == stream[..n] + Concat(was)[n..]
  }

  /** The buffers before i hold the stream's next n bytes; the others are untouched. */
  ghost predicate FilledTo(was: seq<Bytes>, now: seq<Bytes>, stream: Bytes, i: nat, n: nat) {
    && i <= |was| == |now| && n <= |stream|
    && n == |Concat(was[..i])|
    && Concat(now[..i]) == stream[..n]
    && forall j :: i <= j < |was| ==> now[j] == was[j]
  }

  /** Buffer i has received r bytes. */
  lemma FillOne(was: seq<Bytes>, now: seq<Bytes>, now': seq<Bytes>, stream: Bytes, i: nat, n: nat, r: nat)
    requires FilledTo(was, now, stream, i, n) && i < |was| && n + r <= |stream| && r <= |was[i]|
    requires now' == now[i := stream[n..n + r] + now[i][r..]]
    ensures Filled(was, now', stream, n + r)
    ensures r == |was[i]| ==> FilledTo(was, now', stream, i + 1, n + r)
  {
    hide Concat;
    ConcatAt(was, i);
    ConcatAt(now', i);
    assert now'[..i] == now[..i];
    assert now'[i + 1..] == was[i + 1..];
    Slices(stream, n, r);
    Refill(Concat(was[..i]), was[i], Concat(was[i + 1..]), stream[..n], stream[n..n + r]);
  }

  lemma FilledAll(was: seq<Bytes>, now: seq<Bytes>, stream: Bytes, i: nat, n: nat)
    requires FilledTo(was, now, stream, i, n)
    ensures Filled(was, now, stream, n)
  {
    hide Concat;
    assert was == was[..i] + was[i..] && now == now[..i] + now[i..];
    ConcatParts(was[..i], was[i..]);
    ConcatParts(now[..i], now[i..]);
    assert now[i..] == was[i..];
  }

  // ---------- what the session answers ----------

  /** How a pass over the buffers ends: bytes read, the last answer, answers used up. */
  datatype Pass = Pass(total: nat, last: int, used: nat)

  /** The answer to a read of n bytes when avail bytes are still to come; a session that has
      no answer left is at its end and answers 0. */
  function Answer(answers: seq<int>, n: nat, avail: nat): (r: int)
    ensures r <= n && r <= avail
  {
    if answers == [] then 0
    else if answers[0] > n || answers[0] > avail then (if n < avail then n else avail)
    else answers[0]
  }

  function Rest(answers: seq<int>): seq<int> {
    if answers == [] then [] else answers[1..]
  }

  /** One read after the other until one fails or is short. */
  function PassOf(lens: seq<nat>, answers: seq<int>, avail: nat, start: int): (p: Pass)
    ensures p.total <= avail && p.used <= |answers|
    ensures p.total <= Sum(lens)
  {
    if lens == [] then Pass(0, start, 0)
    else
      var r := Answer(answers, lens[0], avail);
      var u := if answers == [] then 0 else 1;
      if r < 0 then Pass(0, r, u)
      else if r < lens[0] then Pass(r, r, u)
      else
        var p := PassOf(lens[1..], Rest(answers), avail - r, r);
        Pass(r + p.total, p.last, u + p.used)
  }

  predicate Again(p: Pass) {
    p.last == EAGAIN && p.total == 0
  }

  /** A pass that is tried again has used up an answer and read nothing. */
  lemma {:induction false} AgainUses(lens: seq<nat>, answers: seq<int>, avail: nat, start: int)
    requires start >= 0 && Again(PassOf(lens, answers, avail, start))
    ensures PassOf(lens, answers, avail, start).used > 0
  {
    if lens != [] {
      var r := Answer(answers, lens[0], avail);
      if r >= lens[0] {
        AgainUses(lens[1..], Rest(answers), avail - r, r);
      }
    }
  }

  /** The first pass that is not tried again; it decides a blocking call. */
  function Deciding(lens: seq<nat>, answers: seq<int>, avail: nat, start: nat): (p: Pass)
    ensures !Again(p)
    decreases |answers|
  {
    var p := PassOf(lens, answers, avail, start);
    if Again(p) then (AgainUses(lens, answers, avail, start); Deciding(lens, answers[p.used..], avail, start)) else p
  }

  /** The answer of a blocking call. */
  function Blocking(lens: seq<nat>, answers: seq<int>, avail: nat, start: nat): nat {
    Deciding(lens, answers, avail, start).total
  }

  /** The pass ended in an error before its first byte. */
  predicate FailedAtOnce(p: Pass) {
    p.total == 0 && p.last < 0
  }

  /** The answer of a call that does not block. */
  function Answered(p: Pass): int {
    if FailedAtOnce(p) then p.last else p.total
  }

  /** A blocking call hides an error exactly when the pass that decides it failed before its
      first byte: it then answers 0, where a call that does not block would answer the error;
      otherwise both answer the same for that pass. */
  lemma ErrorHidden(lens: seq<nat>, answers: seq<int>, avail: nat, start: nat)
    ensures var p := Deciding(lens, answers, avail, start);
      && (Blocking(lens, answers, avail, start) != Answered(p) <==> FailedAtOnce(p))
      && (FailedAtOnce(p) ==> Blocking(lens, answers, avail, start) == 0 && Answered(p) == p.last && p.last != EAGAIN)
  {
    assert !Again(Deciding(lens, answers, avail, start));
  }

  /** How far a pass gets: buffer after buffer while the answers are as long as the buffers, and
      no further than the first read that is shorter or fails. */
  lemma {:induction false} PassExact(lens: seq<nat>, answers: seq<int>, avail: nat, start: int, i: nat)
    requires i <= |lens| && i <= |answers| && (forall j :: 0 <= j < i ==> answers[j] == lens[j])
    requires Sum(lens[..i]) <= avail
    requires i < |lens| ==> i < |answers| && answers[i] < lens[i] && Sum(lens[..i]) + answers[i] <= avail
    ensures var p := PassOf(lens, answers, avail, start);
      if i < |lens| then p == Pass(Sum(lens[..i]) + if answers[i] < 0 then 0 else answers[i], answers[i], i + 1)
      else p == Pass(Sum(lens), if i == 0 then start else answers[i - 1], i)
    decreases i
  {
    if i > 0 {
      assert lens[..i][1..] == lens[1..][..i - 1] && lens[..i][0] == lens[0];
      PassExact(lens[1..], answers[1..], avail - lens[0], lens[0], i - 1);
    }
  }

  /** A read that would block is tried again by a blocking call, and answered by another. */
  lemma WouldBlock(lens: seq<nat>, answers: seq<int>, avail: nat, start: nat)
    requires lens != []
    ensures Blocking(lens, [-11] + answers, avail, start) == Blocking(lens, answers, avail, start)
    ensures Answered(PassOf(lens, [-11] + answers, avail, start)) == -11
  {
    var all := [-11] + answers;
    assert all[1..] == answers;
    assert PassOf(lens, all, avail, start) == Pass(0, -11, 1);
  }

  /** A pass fails before its first byte exactly when some read is answered with an error and
      only empty buffers have been read before it. */
  lemma {:induction false} FailedExact(lens: seq<nat>, answers: seq<int>, avail: nat, start: nat)
    ensures FailedAtOnce(PassOf(lens, answers, avail, start)) <==>
            exists i :: 0 <= i < |lens| && i < |answers| && FirstError(lens, answers, i)
  {
    if lens != [] {
      var r := Answer(answers, lens[0], avail);
      if r < 0 {
        assert FirstError(lens, answers, 0);
      } else if r == lens[0] == 0 {
        FailedExact(lens[1..], Rest(answers), avail, r);
        if i :| 0 <= i < |lens| && i < |answers| && FirstError(lens, answers, i) {
          assert i > 0 && FirstError(lens[1..], Rest(answers), i - 1);
        }
        if i :| 0 <= i < |lens| - 1 && i < |Rest(answers)| && FirstError(lens[1..], Rest(answers), i) {
          assert FirstError(lens, answers, i + 1);
        }
      }
    }
  }

  predicate FirstError(lens: seq<nat>, answers: seq<int>, i: nat)
    requires i < |lens| && i < |answers|
  {
    answers[i] < 0 && forall j :: 0 <= j < i ==> lens[j] == 0 && answers[j] >= 0
  }

  const ECONNRESET: int := -104

  /** A connection reset, seen by a blocking and by a non-blocking call. */
  lemma ResetHidden(len: nat, avail: nat, start: nat)
    ensures Blocking([len], [ECONNRESET], avail, start) == 0
    ensures Answered(PassOf([len], [ECONNRESET], avail, start)) == ECONNRESET
  {
  }

  /** A session: the bytes still to come, and its answers to the next reads. */
  class Session {
    var incoming: Bytes
    var answers: seq<int>

    /** vppcom_session_read. */
    method Read(buf: array<bv8>) returns (rv: int)
      modifies this, buf
      ensures rv == Answer(old(answers), buf.Length, |old(incoming)|)
      ensures answers == Rest(old(answers))
      ensures rv < 0 ==> incoming == old(incoming) && buf[..] == old(buf[..])
      ensures rv >= 0 ==> incoming == old(incoming)[rv..] && buf[..] == old(incoming)[..rv] + old(buf[..])[rv..]
    {
      rv := Answer(answers, buf.Length, |incoming|);
      answers := Rest(answers);
      if rv >= 0 {
        forall k | 0 <= k < rv {
          buf[k] := incoming[k];
        }
        incoming := incoming[rv..];
      }
    }
  }

  // ---------- the code ----------

  ghost predicate Separate(iov: seq<array<bv8>>) {
    forall i, j :: 0 <= i < j < |iov| ==> iov[i] != iov[j]
  }

  ghost function ArraySet(iov: seq<array<bv8>>): set<array<bv8>> {
    set i | 0 <= i < |iov| :: iov[i]
  }

  /** What the buffers hold. */
  ghost function Bufs(iov: seq<array<bv8>>): (r: seq<Bytes>)
    reads ArraySet(iov)
    ensures |r| == |iov|
  {
    seq(|iov|, i requires 0 <= i < |iov| reads ArraySet(iov) => iov[i][..])
  }

  function Lens(iov: seq<array<bv8>>): (r: seq<nat>)
    ensures |r| == |iov|
  {
    seq(|iov|, i requires 0 <= i < |iov| => iov[i].Length)
  }

  /** One pass: the loop over the buffers that both modes share. */
  method ReadPass(s: Session, iov: seq<array<bv8>>, start: int) returns (total: nat, rv: int)
    requires Separate(iov)
    modifies s, ArraySet(iov)
    ensures var p := PassOf(Lens(iov), old(s.answers), |old(s.incoming)|, start);
      total == p.total && rv == p.last && s.answers == old(s.answers)[p.used..]
    ensures total <= |old(s.incoming)| && s.incoming == old(s.incoming)[total..]
    ensures Filled(old(Bufs(iov)), Bufs(iov), old(s.incoming), total)
  {
    hide Filled;
    hide FilledTo;
    hide PassOf;
    hide Answer;
    hide Rest;
    hide Separate;
    total, rv := 0, start;
    ghost var was, stream, all, lens := Bufs(iov), s.incoming, s.answers, Lens(iov);
    ghost var used := 0;
    FilledNone(was, stream);
    assert lens[0..] == lens;
    for i := 0 to |iov|
      invariant FilledTo(was, Bufs(iov), stream, i, total)
      invariant total <= |stream| && s.incoming == stream[total..]
      invariant used <= |all| && s.answers == all[used..]
      invariant Resumes(PassOf(lens, all, |stream|, start), PassOf(lens[i..], s.answers, |s.incoming|, rv), total, used)
    {
      ghost var now := Bufs(iov);
      PassNext(lens, i, s.answers, |s.incoming|, rv);
      used := used + if s.answers == [] then 0 else 1;
      rv := ReadBuf(s, iov, i);
      if rv < 0 {
        FilledAll(was, now, stream, i, total);
        return;
      }
      StreamOn(stream, total, rv);
      FillOne(was, now, Bufs(iov), stream, i, total, rv);
      total := total + rv;
      if rv < iov[i].Length {
        return;
      }
    }
    FilledAll(was, Bufs(iov), stream, |iov|, total);
    PassNone(lens[|iov|..], s.answers, |s.incoming|, rv);
  }

  method ReadBuf(s: Session, iov: seq<array<bv8>>, i: nat) returns (rv: int)
    requires Separate(iov) && i < |iov|
    modifies s, ArraySet(iov)
    ensures rv == Answer(old(s.answers), Lens(iov)[i], |old(s.incoming)|) && s.answers == Rest(old(s.answers))
    ensures rv < 0 ==> s.incoming == old(s.incoming) && Bufs(iov) == old(Bufs(iov))
    ensures rv >= 0 ==>
      && s.incoming == old(s.incoming)[rv..]
      && Bufs(iov) == old(Bufs(iov))[i := old(s.incoming)[..rv] + old(Bufs(iov))[i][rv..]]
  {
    rv := s.Read(iov[i]);
    assert forall j :: 0 <= j < |iov| && j != i ==> iov[j][..] == old(iov[j][..]);
  }

  lemma FilledNone(was: seq<Bytes>, stream: Bytes)
    ensures FilledTo(was, was, stream, 0, 0)
  {
  }

  lemma StreamOn(stream: Bytes, n: nat, r: nat)
    requires n <= |stream| && r <= |stream| - n
    ensures stream[n..][..r] == stream[n..n + r] && stream[n..][r..] == stream[n + r..]
  {
  }

  lemma PassNone(lens: seq<nat>, answers: seq<int>, avail: nat, start: int)
    requires lens == []
    ensures PassOf(lens, answers, avail, start) == Pass(0, start, 0)
  {
  }

  lemma PassNext(lens: seq<nat>, i: nat, answers: seq<int>, avail: nat, start: int)
    requires i < |lens|
    ensures var r := Answer(answers, lens[i], avail);
      var u := if answers == [] then 0 else 1;
      && Rest(answers) == answers[u..]
      && PassOf(lens[i..], answers, avail, start) ==
         if r < 0 then Pass(0, r, u)
         else if r < lens[i] then Pass(r, r, u)
         else var p := PassOf(lens[i + 1..], Rest(answers), avail - r, r); Pass(r + p.total, p.last, u + p.used)
  {
    assert lens[i..][1..] == lens[i + 1..];
  }

  /** A pass that has read total bytes with used answers goes on as rest. */
  ghost predicate Resumes(whole: Pass, rest: Pass, total: nat, used: nat) {
    whole == Pass(total + rest.total, rest.last, used + rest.used)
  }

  /** The sanity check on the lengths: no sum is formed that would not fit. */
  method SaneLengths(iov: seq<array<bv8>>) returns (ok: bool)
    ensures ok <==> Sum(Lens(iov)) <= 0x7fff_ffff_ffff_ffff
  {
    var len: nat := 0;
    ghost var lens := Lens(iov);
    for i := 0 to |iov|
      invariant len == Sum(lens[..i]) && len <= SSIZE_MAX
    {
      SumAt(lens, i);
      if SSIZE_MAX - len < iov[i].Length {
        return false;
      }
      len := len + iov[i].Length;
    }
    assert lens[..|iov|] == lens;
    return true;
  }

  /** vcom_socket_readv; a session whose polls never end in an answer other than -EAGAIN is
      not modelled, because the call does not return. */
  method Readv(known: bool, bound: bool, flags: int, nonblock: bool, s: Session, iov: seq<array<bv8>>) returns (rv: int)
    requires Separate(iov)
    modifies s, ArraySet(iov)
    ensures !known ==> rv == -9 && s.answers == old(s.answers)
    ensures known && (!bound || |iov| == 0 || |iov| > 1024 || Sum(Lens(iov)) > 0x7fff_ffff_ffff_ffff) ==>
              rv == -22 && s.answers == old(s.answers)
    ensures known && bound && 1 <= |iov| <= 1024 && Sum(Lens(iov)) <= 0x7fff_ffff_ffff_ffff ==>
              if flags < 0 then rv == flags && s.answers == old(s.answers)
              else if nonblock then rv == Answered(PassOf(Lens(iov), old(s.answers), |old(s.incoming)|, flags))
              else rv == Blocking(Lens(iov), old(s.answers), |old(s.incoming)|, flags)
    ensures rv >= 0 ==>
      && rv <= 0x7fff_ffff_ffff_ffff && rv <= |old(s.incoming)|
      && s.incoming == old(s.incoming)[rv..]
      && Filled(old(Bufs(iov)), Bufs(iov), old(s.incoming), rv)
    ensures rv < 0 ==> s.incoming == old(s.incoming) && Concat(Bufs(iov)) == Concat(old(Bufs(iov)))
  {
    hide PassOf;
    hide Filled;
    if !known {
      return EBADF;
    }
    if !bound || |iov| == 0 || |iov| > IOV_MAX {
      return EINVAL;
    }
    var ok := SaneLengths(iov);
    if !ok {
      return EINVAL;
    }
    if flags < 0 {
      return flags;
    }
    ghost var was, stream, all, lens := Bufs(iov), s.incoming, s.answers, Lens(iov);
    var total: nat;
    total, rv := ReadPass(s, iov, flags);
    PassFits(lens, all, |stream|, flags);
    if !nonblock {
      while rv == EAGAIN && total == 0
        invariant total <= |stream| && s.incoming == stream[total..] && total <= Sum(lens)
        invariant Filled(was, Bufs(iov), stream, total)
        invariant Blocking(lens, all, |stream|, flags) ==
                  if rv == EAGAIN && total == 0 then Blocking(lens, s.answers, |stream|, flags) else total
        decreases |s.answers| + if rv == EAGAIN && total == 0 then 1 else 0
      {
        ghost var answers, now := s.answers, Bufs(iov);
        total, rv := ReadPass(s, iov, flags);
        PassFits(lens, answers, |stream|, flags);
        FilledAgain(was, now, Bufs(iov), stream, total);
      }
      return total;
    }
    FilledNothing(was, Bufs(iov), stream, total);
    if rv >= 0 || total > 0 {
      rv := total;
    }
  }

  lemma PassFits(lens: seq<nat>, answers: seq<int>, avail: nat, start: nat)
    ensures var p := PassOf(lens, answers, avail, start);
      && p.total <= Sum(lens)
      && (Again(p) ==> 0 < p.used <= |answers|)
      && Blocking(lens, answers, avail, start) ==
         (if Again(p) then Blocking(lens, answers[p.used..], avail, start) else p.total)
  {
    if Again(PassOf(lens, answers, avail, start)) {
      AgainUses(lens, answers, avail, start);
    }
  }

  lemma FilledAgain(was: seq<Bytes>, now: seq<Bytes>, now': seq<Bytes>, stream: Bytes, n: nat)
    requires Filled(was, now, stream, 0) && Filled(now, now', stream, n)
    ensures Filled(was, now', stream, n)
  {
    assert Concat(now) == Concat(was);
  }

  lemma FilledNothing(was: seq<Bytes>, now: seq<Bytes>, stream: Bytes, n: nat)
    requires Filled(was, now, stream, n)
    ensures n == 0 ==> Concat(now) == Concat(was)
  {
  }

  /** Without an answer of -EAGAIN both modes read the same, except that the blocking one
      turns an error before the first byte into 0. */
  lemma BlockingIsOnePass(lens: seq<nat>, answers: seq<int>, avail: nat, start: nat)
    requires EAGAIN !in answers
    ensures Blocking(lens, answers, avail, start) == PassOf(lens, answers, avail, start).total
  {
    NoAgain(lens, answers, avail, start);
  }

  lemma {:induction false} NoAgain(lens: seq<nat>, answers: seq<int>, avail: nat, start: nat)
    requires EAGAIN !in answers
    ensures PassOf(lens, answers, avail, start).last != EAGAIN
  {
    if lens != [] {
      var r := Answer(answers, lens[0], avail);
      if r >= lens[0] {
        NoAgain(lens[1..], Rest(answers), avail - r, r);
      }
    }
  }
}
