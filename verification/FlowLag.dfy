/** How far overdue flows may be from the current slot: after the clock has jumped they may
    be anywhere on the wheel, and each second brings them a slot nearer. */
module FlowLag {
  import opened Dlist
  import opened FlowState
  import opened FlowTimers

  const LAST_SLOT: nat := TIMER_MAX_LIFETIME - 1

  /** The slot d seconds ahead. */
  function SlotAt(wheel: seq<nat>, ti: nat, d: nat): nat
    requires |wheel| == TIMER_MAX_LIFETIME
  {
    wheel[(ti + d) % TIMER_MAX_LIFETIME]
  }

  ghost predicate Near(f: Flow, sh: Shape, wheel: seq<nat>, ti: nat, n: nat)
    requires |wheel| == TIMER_MAX_LIFETIME
  {
    exists d: nat :: d <= n && InSlot(f, sh, SlotAt(wheel, ti, d))
  }

  /** Every overdue flow is in the current slot or one of the next n. */
  ghost predicate Late(flows: Flows, sh: Shape, wheel: seq<nat>, ti: nat, now: nat, n: nat) {
    && |wheel| == TIMER_MAX_LIFETIME
    && forall fi :: fi in flows && flows[fi].expire <= now ==> Near(flows[fi], sh, wheel, ti, n)
  }

  /** The lag that k seconds without a jump leave. */
  function Lag(k: nat): nat {
    if k >= LAST_SLOT then 0 else LAST_SLOT - k
  }

  lemma SlotDistance(ti: nat, i: nat) returns (d: nat)
    requires ti < TIMER_MAX_LIFETIME && i < TIMER_MAX_LIFETIME
    ensures d <= LAST_SLOT && (ti + d) % TIMER_MAX_LIFETIME == i
  {
    d := if i >= ti then i - ti else i + TIMER_MAX_LIFETIME - ti;
  }

  /** Wherever a flow is, it is at most a turn away. */
  lemma LateAll(flows: Flows, p: Pool, sh: Shape, wheel: seq<nat>, ti: nat, now: nat)
    requires TimersOk(flows, p, sh, wheel) && ti < TIMER_MAX_LIFETIME
    ensures Late(flows, sh, wheel, ti, now, LAST_SLOT)
  {
    hide AllLinked;
    hide Covers;
    forall fi | fi in flows ensures Near(flows[fi], sh, wheel, ti, LAST_SLOT) {
      assert OnTimer(fi, flows[fi], p, sh);
      var h := sh.own[flows[fi].timerIndex];
      assert h in wheel;
      var i: nat :| i < |wheel| && wheel[i] == h;
      var d := SlotDistance(ti, i);
      assert InSlot(flows[fi], sh, SlotAt(wheel, ti, d));
    }
  }

  /** A flow keeps its place when its element does. */
  lemma NearSame(f: Flow, f': Flow, sh: Shape, sh': Shape, wheel: seq<nat>, ti: nat, n: nat)
    requires |wheel| == TIMER_MAX_LIFETIME && Near(f, sh, wheel, ti, n) && f'.timerIndex == f.timerIndex
    requires f.timerIndex in sh.own ==> f.timerIndex in sh'.own && sh'.own[f.timerIndex] == sh.own[f.timerIndex]
    ensures Near(f', sh', wheel, ti, n)
  {
    var d: nat :| d <= n && InSlot(f, sh, SlotAt(wheel, ti, d));
    assert InSlot(f', sh', SlotAt(wheel, ti, d));
  }

  lemma LateSet(flows: Flows, fi: nat, f: Flow, flows': Flows, sh: Shape, wheel: seq<nat>, ti: nat, now: nat, n: nat)
    requires Late(flows, sh, wheel, ti, now, n) && fi in flows && flows' == flows[fi := f]
    requires SameTimerFields(flows[fi], f)
    ensures Late(flows', sh, wheel, ti, now, n)
  {
    hide Near;
    forall gi | gi in flows' && flows'[gi].expire <= now ensures Near(flows'[gi], sh, wheel, ti, n) {
      NearSame(flows[gi], flows'[gi], sh, sh, wheel, ti, n);
    }
  }

  /** A new flow is not overdue. */
  lemma LateAdd(flows: Flows, fi: nat, f: Flow, flows': Flows, sh: Shape, h: nat, sh': Shape, wheel: seq<nat>, ti: nat,
                now: nat, n: nat)
    requires Late(flows, sh, wheel, ti, now, n) && fi !in flows && flows' == flows[fi := f] && f.expire > now
    requires f.timerIndex !in sh.own && sh'.own == sh.own[f.timerIndex := h]
    ensures Late(flows', sh', wheel, ti, now, n)
  {
    hide Near;
    forall gi | gi in flows' && flows'[gi].expire <= now ensures Near(flows'[gi], sh', wheel, ti, n) {
      NearSame(flows[gi], flows'[gi], sh, sh', wheel, ti, n);
    }
  }

  /** The elements of two flows are not the same. */
  lemma OtherElement(flows: Flows, p: Pool, sh: Shape, fi: nat, gi: nat)
    requires Timed(flows, p, sh) && fi in flows && gi in flows && fi != gi
    ensures flows[gi].timerIndex != flows[fi].timerIndex
  {
    assert OnTimer(fi, flows[fi], p, sh) && OnTimer(gi, flows[gi], p, sh);
  }

  lemma LateDrop(flows: Flows, p: Pool, fi: nat, flows': Flows, sh: Shape, sh': Shape, wheel: seq<nat>, ti: nat,
                 now: nat, n: nat)
    requires Late(flows, sh, wheel, ti, now, n) && Timed(flows, p, sh) && fi in flows && flows' == flows - {fi}
    requires sh'.own == sh.own - {flows[fi].timerIndex}
    ensures Late(flows', sh', wheel, ti, now, n)
  {
    hide Near;
    forall gi | gi in flows' && flows'[gi].expire <= now ensures Near(flows'[gi], sh', wheel, ti, n) {
      OtherElement(flows, p, sh, fi, gi);
      NearSame(flows[gi], flows'[gi], sh, sh', wheel, ti, n);
    }
  }

  /** A refreshed flow is overdue only when its lifetime is 0, and is then in the current slot. */
  lemma LateMove(flows: Flows, p: Pool, fi: nat, f: Flow, h: nat, flows': Flows, sh: Shape, sh': Shape, wheel: seq<nat>,
                 ti: nat, now: nat, n: nat)
    requires Late(flows, sh, wheel, ti, now, n) && Timed(flows, p, sh) && fi in flows && flows' == flows[fi := f]
    requires f.timerIndex == flows[fi].timerIndex && f.expire == now + f.lifetime && h == SlotAt(wheel, ti, f.lifetime)
    requires sh'.own == (sh.own - {f.timerIndex})[f.timerIndex := h]
    ensures Late(flows', sh', wheel, ti, now, n)
  {
    assert InSlot(f, sh', SlotAt(wheel, ti, f.lifetime));
    assert f.expire <= now ==> Near(f, sh', wheel, ti, n);
    hide Near;
    forall gi | gi in flows' && flows'[gi].expire <= now ensures Near(flows'[gi], sh', wheel, ti, n) {
      if gi != fi {
        OtherElement(flows, p, sh, fi, gi);
        NearSame(flows[gi], flows'[gi], sh, sh', wheel, ti, n);
      }
    }
  }

  lemma NextSlotAt(wheel: seq<nat>, ti: nat, d: nat)
    requires |wheel| == TIMER_MAX_LIFETIME && 0 < d
    ensures SlotAt(wheel, ti, d) == SlotAt(wheel, (ti + 1) % TIMER_MAX_LIFETIME, d - 1)
  {
    assert (ti + d) % TIMER_MAX_LIFETIME == ((ti + 1) % TIMER_MAX_LIFETIME + (d - 1)) % TIMER_MAX_LIFETIME;
  }

  /** A second later: what was in the current slot has been carried along, the others are a
      slot nearer, and what has just become due is in the new current slot. */
  lemma NearTick(f: Flow, sh: Shape, sh': Shape, wheel: seq<nat>, ti: nat, ti': nat, n: nat)
    requires |wheel| == TIMER_MAX_LIFETIME && ti < |wheel| && ti' == (ti + 1) % TIMER_MAX_LIFETIME
    requires Near(f, sh, wheel, ti, n)
    requires Carried(sh, sh', wheel[ti], wheel[ti'])
    ensures Near(f, sh', wheel, ti', if n > 0 then n - 1 else 0)
  {
    var d: nat :| d <= n && InSlot(f, sh, SlotAt(wheel, ti, d));
    if d == 0 || SlotAt(wheel, ti, d) == wheel[ti] {
      assert InSlot(f, sh', SlotAt(wheel, ti', 0));
    } else {
      NextSlotAt(wheel, ti, d);
      assert InSlot(f, sh', SlotAt(wheel, ti', d - 1));
    }
  }

  /** The elements on c, if any, are on n, and the others where they were. */
  ghost predicate Carried(sh: Shape, sh': Shape, c: nat, n: nat) {
    forall e :: e in sh.own ==> e in sh'.own && sh'.own[e] == if sh.own[e] == c then n else sh.own[e]
  }

  lemma CarriedNone(sh: Shape, c: nat, n: nat)
    requires Owned(sh) && c in sh.rings && sh.rings[c] == []
    ensures Carried(sh, sh, c, n)
  {
    assert Covers([], sh.own, c);
  }

  lemma LateTick(flows: Flows, sh: Shape, sh': Shape, wheel: seq<nat>, ti: nat, ti': nat, now: nat, n: nat)
    requires Late(flows, sh, wheel, ti, now, n) && OnTime(flows, sh, wheel, ti, now)
    requires ti' == (now + 1) % TIMER_MAX_LIFETIME && Carried(sh, sh', wheel[ti], wheel[ti'])
    ensures Late(flows, sh', wheel, ti', now + 1, if n > 0 then n - 1 else 0)
  {
    SlotOf(now, ti, 1);
    forall fi | fi in flows && flows[fi].expire <= now + 1
      ensures Near(flows[fi], sh', wheel, ti', if n > 0 then n - 1 else 0) {
      if flows[fi].expire <= now {
        NearTick(flows[fi], sh, sh', wheel, ti, ti', n);
      } else {
        assert Ahead(flows[fi], sh, wheel, now);
        assert InSlot(flows[fi], sh', SlotAt(wheel, ti', 0));
      }
    }
  }

  /** With no lag every overdue flow is in the current slot; none is left when it is empty. */
  lemma CaughtUp(flows: Flows, sh: Shape, wheel: seq<nat>, ti: nat, now: nat, fi: nat)
    requires Late(flows, sh, wheel, ti, now, 0) && ti < TIMER_MAX_LIFETIME && fi in flows && flows[fi].expire <= now
    ensures InSlot(flows[fi], sh, wheel[ti])
  {
    var d: nat :| d <= 0 && InSlot(flows[fi], sh, SlotAt(wheel, ti, d));
  }

  lemma NothingLate(flows: Flows, sh: Shape, wheel: seq<nat>, ti: nat, now: nat)
    requires Late(flows, sh, wheel, ti, now, 0) && ti < TIMER_MAX_LIFETIME && Owned(sh)
    requires wheel[ti] in sh.rings && sh.rings[wheel[ti]] == []
    ensures forall fi :: fi in flows ==> flows[fi].expire > now
  {
    assert Covers(sh.rings[wheel[ti]], sh.own, wheel[ti]);
    forall fi | fi in flows ensures flows[fi].expire > now {
      if flows[fi].expire <= now {
        CaughtUp(flows, sh, wheel, ti, now, fi);
      }
    }
  }

  // ---------- the steps of the table ----------

  /** The clock has not jumped since t0, so the lag there may be is what t0 leaves. */
  ghost predicate LateSince(flows: Flows, sh: Shape, wheel: seq<nat>, ti: nat, now: nat, t0: nat) {
    t0 <= now && Late(flows, sh, wheel, ti, now, Lag(now - t0))
  }

  lemma SinceSet(flows: Flows, fi: nat, f: Flow, flows': Flows, sh: Shape, wheel: seq<nat>, ti: nat, now: nat)
    requires fi in flows && flows' == flows[fi := f] && SameTimerFields(flows[fi], f)
    ensures forall t0: nat :: LateSince(flows, sh, wheel, ti, now, t0) ==> LateSince(flows', sh, wheel, ti, now, t0)
  {
    hide Late;
    forall t0: nat | LateSince(flows, sh, wheel, ti, now, t0) ensures LateSince(flows', sh, wheel, ti, now, t0) {
      LateSet(flows, fi, f, flows', sh, wheel, ti, now, Lag(now - t0));
    }
  }

  lemma SinceAdd(flows: Flows, p: Pool, fi: nat, f: Flow, flows': Flows, sh: Shape, h: nat, sh': Shape, wheel: seq<nat>,
                 ti: nat, now: nat)
    requires TimersGood(flows, p, sh, wheel, ti, now)
    requires fi !in flows && flows' == flows[fi := f] && f.expire > now
    requires f.timerIndex !in p && h in sh.rings && sh' == TailShape(sh, h, f.timerIndex)
    ensures forall t0: nat :: LateSince(flows, sh, wheel, ti, now, t0) ==> LateSince(flows', sh', wheel, ti, now, t0)
  {
    assert f.timerIndex !in sh.own;
    hide TimersGood;
    hide Late;
    forall t0: nat | LateSince(flows, sh, wheel, ti, now, t0) ensures LateSince(flows', sh', wheel, ti, now, t0) {
      LateAdd(flows, fi, f, flows', sh, h, sh', wheel, ti, now, Lag(now - t0));
    }
  }

  lemma SinceDrop(flows: Flows, p: Pool, fi: nat, flows': Flows, sh: Shape, sh': Shape, wheel: seq<nat>, ti: nat,
                  now: nat)
    requires TimersGood(flows, p, sh, wheel, ti, now) && fi in flows && flows' == flows - {fi}
    requires flows[fi].timerIndex in sh.own && sh.own[flows[fi].timerIndex] in sh.rings
    requires sh' == DropShape(sh, flows[fi].timerIndex)
    ensures forall t0: nat :: LateSince(flows, sh, wheel, ti, now, t0) ==> LateSince(flows', sh', wheel, ti, now, t0)
  {
    assert Timed(flows, p, sh);
    hide Timed;
    hide TimersGood;
    hide Late;
    forall t0: nat | LateSince(flows, sh, wheel, ti, now, t0) ensures LateSince(flows', sh', wheel, ti, now, t0) {
      LateDrop(flows, p, fi, flows', sh, sh', wheel, ti, now, Lag(now - t0));
    }
  }

  lemma SinceMove(flows: Flows, p: Pool, fi: nat, f: Flow, h: nat, flows': Flows, sh: Shape, sh': Shape,
                  wheel: seq<nat>,
                  ti: nat, now: nat)
    requires TimersGood(flows, p, sh, wheel, ti, now) && fi in flows && flows' == flows[fi := f]
    requires f == flows[fi].(expire := now + flows[fi].lifetime)
    requires |wheel| == TIMER_MAX_LIFETIME && h == SlotAt(wheel, ti, f.lifetime)
    requires f.timerIndex in sh.own && sh.own[f.timerIndex] in sh.rings
    requires h in DropShape(sh, f.timerIndex).rings && sh' == TailShape(DropShape(sh, f.timerIndex), h, f.timerIndex)
    ensures forall t0: nat :: LateSince(flows, sh, wheel, ti, now, t0) ==> LateSince(flows', sh', wheel, ti, now, t0)
  {
    hide SlotAt;
    hide OnTime;
    assert Timed(flows, p, sh);
    hide Timed;
    hide TimersGood;
    hide Late;
    forall t0: nat | LateSince(flows, sh, wheel, ti, now, t0) ensures LateSince(flows', sh', wheel, ti, now, t0) {
      LateMove(flows, p, fi, f, h, flows', sh, sh', wheel, ti, now, Lag(now - t0));
    }
  }

  lemma CarriedTurn(sh: Shape, sh': Shape, c: nat, n: nat)
    requires Owned(sh) && c in sh.rings && n in sh.rings && c != n
    requires sh' == if sh.rings[c] == [] then sh else SpliceShape(sh, c, n)
    ensures Carried(sh, sh', c, n)
  {
    if sh.rings[c] == [] {
      CarriedNone(sh, c, n);
    }
  }

  /** The slot of a second. */
  predicate SlotNow(ti: nat, now: nat) {
    ti == now % TIMER_MAX_LIFETIME
  }

  /** The wheel turns by a second, and the lag shrinks with the time. */
  lemma SinceTick(flows: Flows, sh: Shape, sh': Shape, wheel: seq<nat>, ti: nat, ti': nat, now: nat)
    requires OnTime(flows, sh, wheel, ti, now) && ti < TIMER_MAX_LIFETIME && ti' < TIMER_MAX_LIFETIME
    requires SlotNow(ti', now + 1) && Carried(sh, sh', wheel[ti], wheel[ti'])
    ensures forall t0: nat :: LateSince(flows, sh, wheel, ti, now, t0) ==>
              LateSince(flows, sh', wheel, ti', now + 1, t0)
  {
    hide Carried;
    hide Late;
    forall t0: nat | LateSince(flows, sh, wheel, ti, now, t0) ensures LateSince(flows, sh', wheel, ti', now + 1, t0) {
      LateTick(flows, sh, sh', wheel, ti, ti', now, Lag(now - t0));
      assert Lag(now + 1 - t0) == if Lag(now - t0) > 0 then Lag(now - t0) - 1 else 0;
    }
  }

  lemma Turned(ti: nat, ti': nat, now: nat, now': nat)
    requires SlotNow(ti, now) && SlotNow(ti', now')
    ensures now' == now ==> ti' == ti
    ensures now' == now + 1 ==> ti' != ti
  {
  }

  /** The same for the step the code makes: the ring of the old slot, if it is not empty, goes
      in front of the new one's. */
  lemma SinceTurn(flows: Flows, p: Pool, sh: Shape, sh': Shape, wheel: seq<nat>, ti: nat, ti': nat, now: nat, now': nat)
    requires TimersGood(flows, p, sh, wheel, ti, now) && now <= now' <= now + 1
    requires ti < TIMER_MAX_LIFETIME && ti' < TIMER_MAX_LIFETIME && SlotNow(ti', now') && |wheel| == TIMER_MAX_LIFETIME
    requires ti' == ti ==> sh' == sh
    requires ti' != ti ==>
               && wheel[ti] in sh.rings && wheel[ti'] in sh.rings && wheel[ti] != wheel[ti']
               && sh' == if sh.rings[wheel[ti]] == [] then sh else SpliceShape(sh, wheel[ti], wheel[ti'])
    ensures forall t0: nat :: LateSince(flows, sh, wheel, ti, now, t0) ==> LateSince(flows, sh', wheel, ti', now', t0)
  {
    TimersNow(flows, p, sh, wheel, ti, now);
    hide TimersGood;
    hide OnTime;
    hide LateSince;
    hide SpliceShape;
    hide SlotNow;
    Turned(ti, ti', now, now');
    if now' == now + 1 {
      CarriedTurn(sh, sh', wheel[ti], wheel[ti']);
      SinceTick(flows, sh, sh', wheel, ti, ti', now);
    }
  }

  lemma TimersNow(flows: Flows, p: Pool, sh: Shape, wheel: seq<nat>, ti: nat, now: nat)
    requires TimersGood(flows, p, sh, wheel, ti, now)
    ensures OnTime(flows, sh, wheel, ti, now) && Owned(sh) && SlotNow(ti, now)
  {
  }

  lemma SinceNow(flows: Flows, p: Pool, sh: Shape, wheel: seq<nat>, ti: nat, now: nat)
    requires TimersGood(flows, p, sh, wheel, ti, now)
    ensures LateSince(flows, sh, wheel, ti, now, now)
  {
    LateAll(flows, p, sh, wheel, ti, now);
  }

  lemma NothingLateSince(flows: Flows, p: Pool, sh: Shape, wheel: seq<nat>, ti: nat, now: nat, t0: nat)
    requires TimersGood(flows, p, sh, wheel, ti, now)
    requires ti < |wheel| && wheel[ti] in sh.rings && sh.rings[wheel[ti]] == []
    requires LateSince(flows, sh, wheel, ti, now, t0) && now >= t0 + LAST_SLOT
    ensures forall fi :: fi in flows ==> flows[fi].expire > now
  {
    assert Owned(sh) && |wheel| == TIMER_MAX_LIFETIME;
    hide Owned;
    hide TimersGood;
    hide Late;
    NothingLate(flows, sh, wheel, ti, now);
  }
}
