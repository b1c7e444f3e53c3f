/** The timer wheel: 300 slots, each a list of flows, and where a flow must sit. */
module FlowTimers {
  import opened Dlist
  import opened FlowState

  ghost predicate OnTimer(fi: nat, f: Flow, p: Pool, sh: Shape) {
    f.timerIndex in sh.own && f.timerIndex in p && p[f.timerIndex].value == fi
  }

  ghost predicate TimerElt(e: nat, p: Pool, flows: Flows) {
    e in p && p[e].value in flows && flows[p[e].value].timerIndex == e
  }

  /** Timer elements and flows name each other. */
  ghost predicate Timed(flows: Flows, p: Pool, sh: Shape) {
    && (forall fi :: fi in flows ==> OnTimer(fi, flows[fi], p, sh))
    && (forall e :: e in sh.own ==> TimerElt(e, p, flows))
  }

  /** The wheel lists every slot of the pool once. */
  ghost predicate WheelOk(wheel: seq<nat>, sh: Shape) {
    && |wheel| == TIMER_MAX_LIFETIME
    && (forall i :: 0 <= i < |wheel| ==> wheel[i] in sh.rings)
    && (forall i, j :: 0 <= i < j < |wheel| ==> wheel[i] != wheel[j])
    && (forall h :: h in sh.rings ==> h in wheel)
  }

  ghost predicate TimersOk(flows: Flows, p: Pool, sh: Shape, wheel: seq<nat>) {
    && WellFormed(p, sh)
    && Timed(flows, p, sh)
    && WheelOk(wheel, sh)
  }

  /** A flow that is not overdue sits in the slot of its deadline, less than a turn ahead. */
  ghost predicate Ahead(f: Flow, sh: Shape, wheel: seq<nat>, now: nat)
    requires |wheel| == TIMER_MAX_LIFETIME
  {
    f.expire > now ==>
      && f.expire - now < TIMER_MAX_LIFETIME
      && f.timerIndex in sh.own
      && sh.own[f.timerIndex] == wheel[f.expire % TIMER_MAX_LIFETIME]
  }

  ghost predicate OnTime(flows: Flows, sh: Shape, wheel: seq<nat>, ti: nat, now: nat) {
    && |wheel| == TIMER_MAX_LIFETIME
    && ti == now % TIMER_MAX_LIFETIME
    && (forall fi :: fi in flows ==> flows[fi].lifetime < TIMER_MAX_LIFETIME)
    && (forall fi :: fi in flows ==> Ahead(flows[fi], sh, wheel, now))
  }

  function ExpireAt(e: nat, p: Pool, flows: Flows): nat
    requires e in p && p[e].value in flows
  {
    flows[p[e].value].expire
  }

  ghost predicate Sorted(s: seq<nat>, p: Pool, flows: Flows) {
    && (forall i :: 0 <= i < |s| ==> s[i] in p && p[s[i]].value in flows)
    && (forall i, j :: 0 <= i < j < |s| ==> ExpireAt(s[i], p, flows) <= ExpireAt(s[j], p, flows))
  }

  ghost predicate InSlot(f: Flow, sh: Shape, h: nat) {
    f.timerIndex in sh.own && sh.own[f.timerIndex] == h
  }

  /** Every overdue flow is in the current slot, which is ordered by deadline. */
  ghost predicate Prompt(flows: Flows, p: Pool, sh: Shape, wheel: seq<nat>, ti: nat, now: nat) {
    && ti < |wheel| && wheel[ti] in sh.rings
    && (forall fi :: fi in flows && flows[fi].expire <= now ==> InSlot(flows[fi], sh, wheel[ti]))
    && Sorted(sh.rings[wheel[ti]], p, flows)
  }

  // ---------- adding a timer ----------

  lemma TimedAdd(flows: Flows, p: Pool, sh: Shape, fi: nat, f: Flow, h: nat, q: Pool, flows': Flows, sh': Shape)
    requires Timed(flows, p, sh)
    requires fi !in flows && flows' == flows[fi := f]
    requires f.timerIndex !in sh.own && SameValues(p, q, sh.own.Keys)
    requires f.timerIndex in q && q[f.timerIndex].value == fi
    requires h in sh.rings && sh' == TailShape(sh, h, f.timerIndex)
    ensures Timed(flows', q, sh')
  {
    forall gi | gi in flows' ensures OnTimer(gi, flows'[gi], q, sh') {
      if gi != fi {
        assert OnTimer(gi, flows[gi], p, sh);
      }
    }
    forall e | e in sh'.own ensures TimerElt(e, q, flows') {
      if e != f.timerIndex {
        assert TimerElt(e, p, flows);
      }
    }
  }

  /** timer_wheel_insert_flow. */
  lemma TimerAdd(flows: Flows, p: Pool, sh: Shape, wheel: seq<nat>, fi: nat, f: Flow, h: nat, elt: Elt)
    requires TimersOk(flows, p, sh, wheel)
    requires fi !in flows && fi != NIL
    requires f.timerIndex !in p && f.timerIndex < NIL && elt.value == fi && h in sh.rings
    ensures h in p && h != f.timerIndex && (p[h].next != NIL ==> p[h].prev in p)
    ensures TimersOk(flows[fi := f], AddTail(p[f.timerIndex := elt], h, f.timerIndex),
                     TailShape(sh, h, f.timerIndex), wheel)
    ensures SameValues(p, AddTail(p[f.timerIndex := elt], h, f.timerIndex), sh.own.Keys)
  {
    hide AllLinked;
    hide Owned;
    hide Timed;
    hide AddTail;
    var n := f.timerIndex;
    AddTailPool(p, sh, h, n, elt);
    var q, sh', flows' := AddTail(p[n := elt], h, n), TailShape(sh, h, n), flows[fi := f];
    assert SameValues(p, q, sh.own.Keys);
    TimedAdd(flows, p, sh, fi, f, h, q, flows', sh');
  }

  /** A flow put lifetime slots ahead of now is where its deadline says. */
  lemma OnTimeAdd(flows: Flows, sh: Shape, wheel: seq<nat>, ti: nat, now: nat, fi: nat, f: Flow, flows': Flows,
                  sh': Shape)
    requires OnTime(flows, sh, wheel, ti, now)
    requires fi !in flows && flows' == flows[fi := f]
    requires f.lifetime < TIMER_MAX_LIFETIME && f.expire == now + f.lifetime
    requires f.timerIndex !in sh.own
    requires wheel[(ti + f.lifetime) % TIMER_MAX_LIFETIME] in sh.rings
    requires sh' == TailShape(sh, wheel[(ti + f.lifetime) % TIMER_MAX_LIFETIME], f.timerIndex)
    ensures OnTime(flows', sh', wheel, ti, now)
  {
    SlotOf(now, ti, f.lifetime);
    forall gi | gi in flows' ensures Ahead(flows'[gi], sh', wheel, now) {
      if gi != fi {
        assert Ahead(flows[gi], sh, wheel, now);
      }
    }
  }

  lemma SlotOf(now: nat, ti: nat, lifetime: nat)
    requires ti == now % TIMER_MAX_LIFETIME
    ensures (now + lifetime) % TIMER_MAX_LIFETIME == (ti + lifetime) % TIMER_MAX_LIFETIME
  {
  }

  lemma TurnApart(now: nat, t: nat)
    ensures now < t < now + TIMER_MAX_LIFETIME ==> t % TIMER_MAX_LIFETIME != now % TIMER_MAX_LIFETIME
    ensures now < t < now + TIMER_MAX_LIFETIME && t % TIMER_MAX_LIFETIME == (now + 1) % TIMER_MAX_LIFETIME ==>
              t == now + 1
  {
  }

  /** Nothing in the current slot is before its deadline. */
  lemma CurrentOverdue(flows: Flows, p: Pool, sh: Shape, wheel: seq<nat>, ti: nat, now: nat, fi: nat)
    requires WheelOk(wheel, sh) && OnTime(flows, sh, wheel, ti, now)
    requires fi in flows && InSlot(flows[fi], sh, wheel[ti])
    ensures flows[fi].expire <= now
  {
    var f := flows[fi];
    assert Ahead(f, sh, wheel, now);
    TurnApart(now, f.expire);
  }

  lemma SortedFrame(s: seq<nat>, p: Pool, flows: Flows, q: Pool, flows': Flows)
    requires Sorted(s, p, flows)
    requires forall i :: 0 <= i < |s| ==> s[i] in q && q[s[i]].value in flows'
    requires forall i :: 0 <= i < |s| ==> ExpireAt(s[i], q, flows') == ExpireAt(s[i], p, flows)
    ensures Sorted(s, q, flows')
  {
  }

  /** A member of a slot is the timer element of a live flow of that slot. */
  lemma MemberFlow(flows: Flows, p: Pool, sh: Shape, h: nat, e: nat)
    requires Timed(flows, p, sh) && Owned(sh) && h in sh.rings && e in sh.rings[h]
    ensures TimerElt(e, p, flows) && InSlot(flows[p[e].value], sh, h)
  {
    assert Covers(sh.rings[h], sh.own, h);
    assert TimerElt(e, p, flows);
  }

  /** Every flow of the current slot is overdue, so the slot stays ordered when a
      flow due now is appended. */
  lemma CurrentMember(flows: Flows, p: Pool, sh: Shape, wheel: seq<nat>, ti: nat, now: nat, i: nat)
    requires OnTime(flows, sh, wheel, ti, now) && Timed(flows, p, sh) && Owned(sh) && WheelOk(wheel, sh)
    requires wheel[ti] in sh.rings && i < |sh.rings[wheel[ti]]|
    ensures sh.rings[wheel[ti]][i] in sh.own
    ensures sh.rings[wheel[ti]][i] in p && p[sh.rings[wheel[ti]][i]].value in flows
    ensures flows[p[sh.rings[wheel[ti]][i]].value].expire <= now
  {
    var e := sh.rings[wheel[ti]][i];
    assert e in sh.rings[wheel[ti]];
    MemberFlow(flows, p, sh, wheel[ti], e);
    CurrentOverdue(flows, p, sh, wheel, ti, now, p[e].value);
  }

  lemma SortedAppend(s: seq<nat>, p: Pool, flows: Flows, n: nat, now: nat)
    requires Sorted(s, p, flows) && n in p && p[n].value in flows && ExpireAt(n, p, flows) == now
    requires forall i :: 0 <= i < |s| ==> ExpireAt(s[i], p, flows) <= now
    ensures Sorted(s + [n], p, flows)
  {
  }

  lemma SlotAhead(wheel: seq<nat>, sh: Shape, now: nat, lifetime: nat)
    requires WheelOk(wheel, sh) && lifetime < TIMER_MAX_LIFETIME
    ensures var ti := now % TIMER_MAX_LIFETIME;
            wheel[(ti + lifetime) % TIMER_MAX_LIFETIME] == wheel[ti] <==> lifetime == 0
  {
    TurnApart(now, now + lifetime);
  }

  lemma SortedAdd(flows: Flows, p: Pool, sh: Shape, wheel: seq<nat>, ti: nat, now: nat, fi: nat, f: Flow,
                  q: Pool, flows': Flows)
    requires Prompt(flows, p, sh, wheel, ti, now)
    requires OnTime(flows, sh, wheel, ti, now) && Timed(flows, p, sh) && Owned(sh) && WheelOk(wheel, sh)
    requires fi !in flows && flows' == flows[fi := f] && f.expire == now + f.lifetime
    requires SameValues(p, q, sh.own.Keys)
    requires f.timerIndex in q && q[f.timerIndex].value == fi
    ensures Sorted(if f.lifetime == 0 then sh.rings[wheel[ti]] + [f.timerIndex] else sh.rings[wheel[ti]], q, flows')
  {
    var s := sh.rings[wheel[ti]];
    forall i | 0 <= i < |s|
      ensures s[i] in sh.own && p[s[i]].value in flows && flows[p[s[i]].value].expire <= now
    {
      CurrentMember(flows, p, sh, wheel, ti, now, i);
    }
    hide WheelOk;
    hide OnTime;
    hide Timed;
    hide Owned;
    SortedFrame(s, p, flows, q, flows');
    if f.lifetime == 0 {
      SortedAppend(s, q, flows', f.timerIndex, now);
    }
  }

  lemma PromptAdd(flows: Flows, p: Pool, sh: Shape, wheel: seq<nat>, ti: nat, now: nat, fi: nat, f: Flow,
                  q: Pool, flows': Flows, sh': Shape)
    requires Prompt(flows, p, sh, wheel, ti, now)
    requires OnTime(flows, sh, wheel, ti, now) && Timed(flows, p, sh) && Owned(sh) && WheelOk(wheel, sh)
    requires fi !in flows && flows' == flows[fi := f]
    requires f.lifetime < TIMER_MAX_LIFETIME && f.expire == now + f.lifetime
    requires f.timerIndex !in sh.own && SameValues(p, q, sh.own.Keys)
    requires f.timerIndex in q && q[f.timerIndex].value == fi
    requires sh' == TailShape(sh, wheel[(ti + f.lifetime) % TIMER_MAX_LIFETIME], f.timerIndex)
    ensures Prompt(flows', q, sh', wheel, ti, now)
  {
    hide Prompt;
    hide Timed;
    hide Owned;
    SlotAhead(wheel, sh, now, f.lifetime);
    PromptAddAt(flows, p, sh, wheel, ti, now, fi, f, q, flows', sh', wheel[(ti + f.lifetime) % TIMER_MAX_LIFETIME]);
  }

  lemma PromptAddAt(flows: Flows, p: Pool, sh: Shape, wheel: seq<nat>, ti: nat, now: nat, fi: nat, f: Flow,
                    q: Pool, flows': Flows, sh': Shape, h: nat)
    requires Prompt(flows, p, sh, wheel, ti, now)
    requires OnTime(flows, sh, wheel, ti, now) && Timed(flows, p, sh) && Owned(sh) && WheelOk(wheel, sh)
    requires fi !in flows && flows' == flows[fi := f] && f.expire == now + f.lifetime
    requires f.timerIndex !in sh.own && SameValues(p, q, sh.own.Keys)
    requires f.timerIndex in q && q[f.timerIndex].value == fi
    requires h in sh.rings && sh' == TailShape(sh, h, f.timerIndex) && (h == wheel[ti] <==> f.lifetime == 0)
    ensures Prompt(flows', q, sh', wheel, ti, now)
  {
    SortedAdd(flows, p, sh, wheel, ti, now, fi, f, q, flows');
    hide Timed;
    hide Owned;
    hide Sorted;
    hide SameValues;
    hide OnTime;
    hide WheelOk;
    TailRing(sh, h, f.timerIndex, wheel[ti]);
    SlotsAdd(flows, sh, now, fi, f, flows', sh', h, wheel[ti]);
  }

  lemma TailRing(sh: Shape, h: nat, n: nat, c: nat)
    requires h in sh.rings && c in sh.rings
    ensures c in TailShape(sh, h, n).rings
    ensures TailShape(sh, h, n).rings[c] == if c == h then sh.rings[c] + [n] else sh.rings[c]
  {
  }

  lemma SlotsAdd(flows: Flows, sh: Shape, now: nat, fi: nat, f: Flow, flows': Flows, sh': Shape, h: nat, c: nat)
    requires forall gi :: gi in flows && flows[gi].expire <= now ==> InSlot(flows[gi], sh, c)
    requires fi !in flows && flows' == flows[fi := f] && f.timerIndex !in sh.own
    requires h in sh.rings && sh' == TailShape(sh, h, f.timerIndex) && (f.expire <= now ==> h == c)
    ensures forall gi :: gi in flows' && flows'[gi].expire <= now ==> InSlot(flows'[gi], sh', c)
  {
    forall gi | gi in flows' && flows'[gi].expire <= now ensures InSlot(flows'[gi], sh', c) {
      assert gi != fi ==> InSlot(flows[gi], sh, c);
    }
  }

  // ---------- removing a timer ----------

  lemma TimedRemove(flows: Flows, p: Pool, sh: Shape, fi: nat, q: Pool, flows': Flows, sh': Shape)
    requires Timed(flows, p, sh)
    requires fi in flows && flows[fi].timerIndex in sh.own && sh.own[flows[fi].timerIndex] in sh.rings
    requires flows' == flows - {fi} && sh' == DropShape(sh, flows[fi].timerIndex)
    requires SameValues(p, q, sh'.own.Keys)
    ensures Timed(flows', q, sh')
  {
    assert OnTimer(fi, flows[fi], p, sh);
    forall gi | gi in flows' ensures OnTimer(gi, flows'[gi], q, sh') {
      assert OnTimer(gi, flows[gi], p, sh);
    }
    forall e | e in sh'.own ensures TimerElt(e, q, flows') {
      assert TimerElt(e, p, flows);
    }
  }

  lemma TimerRemove(flows: Flows, p: Pool, sh: Shape, wheel: seq<nat>, fi: nat)
    requires TimersOk(flows, p, sh, wheel) && fi in flows
    ensures flows[fi].timerIndex in sh.own && sh.own[flows[fi].timerIndex] in sh.rings
    ensures flows[fi].timerIndex in p && flows[fi].timerIndex < NIL && p[flows[fi].timerIndex].value == fi && fi != NIL
    ensures p[flows[fi].timerIndex].next in p && p[flows[fi].timerIndex].prev in p
    ensures Remove(p, flows[fi].timerIndex).Keys == p.Keys
    ensures Remove(p, flows[fi].timerIndex)[flows[fi].timerIndex].value == fi
    ensures TimersOk(flows - {fi}, Remove(p, flows[fi].timerIndex) - {flows[fi].timerIndex},
                     DropShape(sh, flows[fi].timerIndex), wheel)
    ensures SameValues(p, Remove(p, flows[fi].timerIndex) - {flows[fi].timerIndex},
                       DropShape(sh, flows[fi].timerIndex).own.Keys)
  {
    hide AllLinked;
    hide Remove;
    var e := flows[fi].timerIndex;
    assert OnTimer(fi, flows[fi], p, sh);
    RemovePool(p, sh, e);
    hide Owned;
    var q, sh', flows' := Remove(p, e) - {e}, DropShape(sh, e), flows - {fi};
    assert SameValues(p, q, sh'.own.Keys);
    TimedRemove(flows, p, sh, fi, q, flows', sh');
  }

  lemma OnTimeRemove(flows: Flows, p: Pool, sh: Shape, wheel: seq<nat>, ti: nat, now: nat, fi: nat, flows': Flows,
                     sh': Shape)
    requires OnTime(flows, sh, wheel, ti, now) && Timed(flows, p, sh)
    requires fi in flows && flows[fi].timerIndex in sh.own && sh.own[flows[fi].timerIndex] in sh.rings
    requires flows' == flows - {fi} && sh' == DropShape(sh, flows[fi].timerIndex)
    ensures OnTime(flows', sh', wheel, ti, now)
  {
    assert OnTimer(fi, flows[fi], p, sh);
    forall gi | gi in flows' ensures Ahead(flows'[gi], sh', wheel, now) {
      assert OnTimer(gi, flows[gi], p, sh);
      assert Ahead(flows[gi], sh, wheel, now);
    }
  }

  lemma SortedWithout(s: seq<nat>, e: nat, p: Pool, flows: Flows)
    requires Sorted(s, p, flows)
    ensures Sorted(Without(s, e), p, flows)
  {
    var r := Without(s, e);
    forall i | 0 <= i < |r| ensures r[i] in p && p[r[i]].value in flows {
      assert r[i] in r;
    }
    forall i, j | 0 <= i < j < |r| ensures ExpireAt(r[i], p, flows) <= ExpireAt(r[j], p, flows) {
      var a, b := WithoutOrder(s, e, i, j);
    }
  }

  lemma MemberStays(flows: Flows, p: Pool, sh: Shape, c: nat, fi: nat, q: Pool, flows': Flows, sh': Shape, x: nat)
    requires c in sh.rings && Timed(flows, p, sh) && Owned(sh)
    requires fi in flows && flows[fi].timerIndex in sh.own && sh.own[flows[fi].timerIndex] in sh.rings
    requires flows' == flows - {fi} && sh' == DropShape(sh, flows[fi].timerIndex)
    requires SameValues(p, q, sh'.own.Keys) && x in sh'.rings[c]
    ensures x in sh'.own && x in p && x in q && q[x].value in flows' && q[x].value == p[x].value
  {
    assert OnTimer(fi, flows[fi], p, sh);
    assert Covers(sh.rings[c], sh.own, c);
    assert x in sh.rings[c];
    MemberFlow(flows, p, sh, c, x);
  }

  lemma SortedRemove(flows: Flows, p: Pool, sh: Shape, c: nat, fi: nat, q: Pool, flows': Flows, sh': Shape)
    requires c in sh.rings && Sorted(sh.rings[c], p, flows) && Timed(flows, p, sh) && Owned(sh)
    requires fi in flows && flows[fi].timerIndex in sh.own && sh.own[flows[fi].timerIndex] in sh.rings
    requires flows' == flows - {fi} && sh' == DropShape(sh, flows[fi].timerIndex)
    requires SameValues(p, q, sh'.own.Keys)
    ensures Sorted(sh'.rings[c], q, flows')
  {
    var e := flows[fi].timerIndex;
    var s, r := sh.rings[c], sh'.rings[c];
    hide Owned;
    hide Timed;
    hide DropShape;
    hide Sorted;
    hide SameValues;
    DropRing(sh, c, e);
    forall i | 0 <= i < |r|
      ensures r[i] in sh'.own && r[i] in p && r[i] in q && q[r[i]].value in flows' && q[r[i]].value == p[r[i]].value {
      MemberStays(flows, p, sh, c, fi, q, flows', sh', r[i]);
    }
    SortedWithout(s, e, p, flows);
    SortedFrame(r, p, flows, q, flows');
  }

  lemma DropRing(sh: Shape, c: nat, e: nat)
    requires Owned(sh) && c in sh.rings && e in sh.own && sh.own[e] in sh.rings
    ensures c in DropShape(sh, e).rings && DropShape(sh, e).rings[c] == Without(sh.rings[c], e)
  {
    assert Covers(sh.rings[c], sh.own, c);
    if sh.own[e] != c {
      WithoutAbsent(sh.rings[c], e);
    }
  }

  lemma SlotsRemove(flows: Flows, p: Pool, sh: Shape, c: nat, fi: nat, flows': Flows, sh': Shape, gi: nat)
    requires Timed(flows, p, sh) && fi in flows && gi in flows && gi != fi
    requires flows[fi].timerIndex in sh.own && sh.own[flows[fi].timerIndex] in sh.rings
    requires sh' == DropShape(sh, flows[fi].timerIndex) && InSlot(flows[gi], sh, c)
    ensures InSlot(flows[gi], sh', c)
  {
    assert OnTimer(fi, flows[fi], p, sh);
    assert OnTimer(gi, flows[gi], p, sh);
  }

  lemma PromptRemove(flows: Flows, p: Pool, sh: Shape, wheel: seq<nat>, ti: nat, now: nat, fi: nat,
                     q: Pool, flows': Flows, sh': Shape)
    requires Prompt(flows, p, sh, wheel, ti, now) && Timed(flows, p, sh) && Owned(sh)
    requires fi in flows && flows[fi].timerIndex in sh.own && sh.own[flows[fi].timerIndex] in sh.rings
    requires flows' == flows - {fi} && sh' == DropShape(sh, flows[fi].timerIndex)
    requires SameValues(p, q, sh'.own.Keys)
    ensures Prompt(flows', q, sh', wheel, ti, now)
  {
    var c := wheel[ti];
    SortedRemove(flows, p, sh, c, fi, q, flows', sh');
    hide Timed;
    hide Owned;
    hide Sorted;
    forall gi | gi in flows' && flows'[gi].expire <= now ensures InSlot(flows'[gi], sh', c) {
      assert InSlot(flows[gi], sh, c);
      SlotsRemove(flows, p, sh, c, fi, flows', sh', gi);
    }
  }

  // ---------- moving the wheel ----------

  lemma TimedSplice(flows: Flows, p: Pool, sh: Shape, c: nat, n: nat, q: Pool, sh': Shape)
    requires Timed(flows, p, sh) && SameValues(p, q, sh.own.Keys)
    requires c in sh.rings && n in sh.rings && sh' == SpliceShape(sh, c, n)
    ensures Timed(flows, q, sh')
  {
    forall fi | fi in flows ensures OnTimer(fi, flows[fi], q, sh') {
      assert OnTimer(fi, flows[fi], p, sh);
    }
    forall e | e in sh'.own ensures TimerElt(e, q, flows) {
      assert TimerElt(e, p, flows);
    }
  }

  lemma TimerSplice(flows: Flows, p: Pool, sh: Shape, wheel: seq<nat>, c: nat, n: nat)
    requires TimersOk(flows, p, sh, wheel)
    requires c in sh.rings && n in sh.rings && c != n && sh.rings[c] != []
    ensures p[c].prev in p && p[c].next in p && (!IsEmpty(p, n) ==> p[n].next in p)
    ensures TimersOk(flows, Splice(p, c, n), SpliceShape(sh, c, n), wheel)
    ensures SameValues(p, Splice(p, c, n), sh.own.Keys)
  {
    hide AllLinked;
    hide Splice;
    hide Timed;
    hide Owned;
    SplicePool(p, sh, c, n);
    var q, sh' := Splice(p, c, n), SpliceShape(sh, c, n);
    assert SameValues(p, q, sh.own.Keys);
    TimedSplice(flows, p, sh, c, n, q, sh');
  }

  /** The clock may jump any distance: flows still ahead of it stay where they are. */
  lemma OnTimeAdvance(flows: Flows, sh: Shape, wheel: seq<nat>, ti: nat, now: nat, now': nat)
    requires OnTime(flows, sh, wheel, ti, now) && now <= now'
    ensures OnTime(flows, sh, wheel, now' % TIMER_MAX_LIFETIME, now')
  {
    forall fi | fi in flows ensures Ahead(flows[fi], sh, wheel, now') {
      assert Ahead(flows[fi], sh, wheel, now);
    }
  }

  lemma OnTimeSplice(flows: Flows, p: Pool, sh: Shape, wheel: seq<nat>, ti: nat, now: nat, now': nat, sh': Shape)
    requires OnTime(flows, sh, wheel, ti, now) && now <= now' && WheelOk(wheel, sh)
    requires sh' == SpliceShape(sh, wheel[ti], wheel[now' % TIMER_MAX_LIFETIME])
    ensures OnTime(flows, sh', wheel, now' % TIMER_MAX_LIFETIME, now')
  {
    forall fi | fi in flows ensures Ahead(flows[fi], sh', wheel, now') {
      var f := flows[fi];
      assert Ahead(f, sh, wheel, now);
      if f.expire > now' {
        if InSlot(f, sh, wheel[ti]) {
          CurrentOverdue(flows, p, sh, wheel, ti, now, fi);
        }
      }
    }
  }

  /** One second on, the next slot holds only flows due exactly then. */
  lemma NextSlotFlow(f: Flow, sh: Shape, wheel: seq<nat>, now: nat)
    requires WheelOk(wheel, sh) && Ahead(f, sh, wheel, now)
    requires InSlot(f, sh, wheel[(now + 1) % TIMER_MAX_LIFETIME])
    requires f.expire <= now ==> InSlot(f, sh, wheel[now % TIMER_MAX_LIFETIME])
    ensures f.expire == now + 1
  {
    TurnApart(now, now + 1);
    TurnApart(now, f.expire);
  }

  lemma NextSlot(flows: Flows, p: Pool, sh: Shape, wheel: seq<nat>, ti: nat, now: nat, e: nat)
    requires Prompt(flows, p, sh, wheel, ti, now) && OnTime(flows, sh, wheel, ti, now)
    requires Timed(flows, p, sh) && Owned(sh) && WheelOk(wheel, sh)
    requires e in sh.rings[wheel[(now + 1) % TIMER_MAX_LIFETIME]]
    ensures e in sh.own && e in p && p[e].value in flows && flows[p[e].value].expire == now + 1
  {
    MemberFlow(flows, p, sh, wheel[(now + 1) % TIMER_MAX_LIFETIME], e);
    hide WheelOk;
    hide Sorted;
    NextSlotFlow(flows[p[e].value], sh, wheel, now);
  }

  lemma SortedJoin(s: seq<nat>, t: seq<nat>, p: Pool, flows: Flows, now: nat)
    requires Sorted(s, p, flows)
    requires forall i :: 0 <= i < |s| ==> ExpireAt(s[i], p, flows) <= now
    requires forall i :: 0 <= i < |t| ==> t[i] in p && p[t[i]].value in flows && ExpireAt(t[i], p, flows) == now + 1
    ensures Sorted(s + t, p, flows)
  {
  }

  lemma SortedTick(flows: Flows, p: Pool, sh: Shape, wheel: seq<nat>, ti: nat, now: nat, q: Pool)
    requires Prompt(flows, p, sh, wheel, ti, now) && OnTime(flows, sh, wheel, ti, now)
    requires Timed(flows, p, sh) && Owned(sh) && WheelOk(wheel, sh)
    requires SameValues(p, q, sh.own.Keys)
    ensures Sorted(sh.rings[wheel[ti]] + sh.rings[wheel[(now + 1) % TIMER_MAX_LIFETIME]], q, flows)
  {
    var s, t := sh.rings[wheel[ti]], sh.rings[wheel[(now + 1) % TIMER_MAX_LIFETIME]];
    forall i | 0 <= i < |s|
      ensures s[i] in sh.own && p[s[i]].value in flows && flows[p[s[i]].value].expire <= now
    {
      CurrentMember(flows, p, sh, wheel, ti, now, i);
    }
    forall i | 0 <= i < |t|
      ensures t[i] in sh.own && p[t[i]].value in flows && flows[p[t[i]].value].expire == now + 1
    {
      assert t[i] in t;
      NextSlot(flows, p, sh, wheel, ti, now, t[i]);
    }
    hide WheelOk;
    hide OnTime;
    hide Timed;
    hide Owned;
    SortedFrame(s, p, flows, q, flows);
    SortedJoin(s, t, q, flows, now);
  }

  lemma PromptTick(flows: Flows, p: Pool, sh: Shape, wheel: seq<nat>, ti: nat, now: nat, q: Pool, sh': Shape)
    requires Prompt(flows, p, sh, wheel, ti, now) && OnTime(flows, sh, wheel, ti, now)
    requires Timed(flows, p, sh) && Owned(sh) && WheelOk(wheel, sh)
    requires SameValues(p, q, sh.own.Keys)
    requires sh' == SpliceShape(sh, wheel[ti], wheel[(now + 1) % TIMER_MAX_LIFETIME])
    ensures Prompt(flows, q, sh', wheel, (now + 1) % TIMER_MAX_LIFETIME, now + 1)
  {
    var c, n := wheel[ti], wheel[(now + 1) % TIMER_MAX_LIFETIME];
    assert c != n by {
      TurnApart(now, now + 1);
    }
    SortedTick(flows, p, sh, wheel, ti, now, q);
    forall fi | fi in flows && flows[fi].expire <= now + 1 ensures InSlot(flows[fi], sh', n) {
      var f := flows[fi];
      if f.expire <= now {
        assert InSlot(f, sh, c);
      } else {
        assert Ahead(f, sh, wheel, now);
      }
    }
  }

  // ---------- changes that do not move a flow ----------

  predicate SameTimerFields(f: Flow, g: Flow) {
    f.timerIndex == g.timerIndex && f.expire == g.expire
  }

  lemma TimersSame(flows: Flows, flows': Flows, p: Pool, sh: Shape, wheel: seq<nat>, ti: nat, now: nat)
    requires TimersOk(flows, p, sh, wheel)
    requires flows'.Keys == flows.Keys
    requires forall fi :: fi in flows ==> SameTimerFields(flows[fi], flows'[fi])
    ensures TimersOk(flows', p, sh, wheel)
  {
    hide WellFormed;
    forall fi | fi in flows' ensures OnTimer(fi, flows'[fi], p, sh) {
      assert OnTimer(fi, flows[fi], p, sh);
    }
    forall e | e in sh.own ensures TimerElt(e, p, flows') {
      assert TimerElt(e, p, flows);
    }
  }

  lemma OnTimeSame(flows: Flows, flows': Flows, p: Pool, sh: Shape, wheel: seq<nat>, ti: nat, now: nat)
    requires OnTime(flows, sh, wheel, ti, now)
    requires flows'.Keys == flows.Keys
    requires forall fi :: fi in flows ==>
              SameTimerFields(flows[fi], flows'[fi]) && flows'[fi].lifetime < TIMER_MAX_LIFETIME
    ensures OnTime(flows', sh, wheel, ti, now)
    ensures Prompt(flows, p, sh, wheel, ti, now) ==> Prompt(flows', p, sh, wheel, ti, now)
  {
    forall fi | fi in flows' ensures Ahead(flows'[fi], sh, wheel, now) {
      assert Ahead(flows[fi], sh, wheel, now);
    }
    if Prompt(flows, p, sh, wheel, ti, now) {
      SortedFrame(sh.rings[wheel[ti]], p, flows, p, flows');
      forall fi | fi in flows' && flows'[fi].expire <= now ensures InSlot(flows'[fi], sh, wheel[ti]) {
        assert InSlot(flows[fi], sh, wheel[ti]);
      }
    }
  }

  // ---------- whole steps ----------

  /** What holds of the timers between any two statements of the node. */
  ghost predicate TimersGood(flows: Flows, p: Pool, sh: Shape, wheel: seq<nat>, ti: nat, now: nat) {
    TimersOk(flows, p, sh, wheel) && OnTime(flows, sh, wheel, ti, now)
  }

  /** The pool after a flow's timer element is put at the tail of the slot at h. */
  ghost predicate Inserted(p: Pool, q: Pool, h: nat, n: nat, elt: Elt) {
    && h in p && h != n && (p[h].next != NIL ==> p[h].prev in p)
    && q == AddTail(p[n := elt], h, n)
  }

  lemma SlotReady(flows: Flows, p: Pool, sh: Shape, wheel: seq<nat>, k: nat)
    requires TimersOk(flows, p, sh, wheel) && k < TIMER_MAX_LIFETIME
    ensures wheel[k] in sh.rings && wheel[k] in p && (p[wheel[k]].next != NIL ==> p[wheel[k]].prev in p)
  {
    hide Timed;
    hide Covers;
    LinkedFacts(p, wheel[k], sh.rings[wheel[k]]);
  }

  lemma CreateTimer(flows: Flows, p: Pool, sh: Shape, wheel: seq<nat>, ti: nat, now: nat, fi: nat, f: Flow, elt: Elt,
                    h: nat, q: Pool, flows': Flows, sh': Shape)
    requires TimersGood(flows, p, sh, wheel, ti, now)
    requires fi !in flows && fi != NIL && flows' == flows[fi := f]
    requires f.lifetime < TIMER_MAX_LIFETIME && f.expire == now + f.lifetime
    requires f.timerIndex !in p && f.timerIndex < NIL && elt.value == fi
    requires h == wheel[(ti + f.lifetime) % TIMER_MAX_LIFETIME] && h in sh.rings
    requires Inserted(p, q, h, f.timerIndex, elt) && sh' == TailShape(sh, h, f.timerIndex)
    ensures TimersGood(flows', q, sh', wheel, ti, now)
    ensures Prompt(flows, p, sh, wheel, ti, now) ==> Prompt(flows', q, sh', wheel, ti, now)
  {
    hide AllLinked;
    hide Covers;
    hide Timed;
    hide Prompt;
    hide Ahead;
    hide AddTail;
    TimerAdd(flows, p, sh, wheel, fi, f, h, elt);
    TimedAt(flows', q, sh', fi);
    OnTimeAdd(flows, sh, wheel, ti, now, fi, f, flows', sh');
    if Prompt(flows, p, sh, wheel, ti, now) {
      PromptAdd(flows, p, sh, wheel, ti, now, fi, f, q, flows', sh');
    }
  }

  lemma TimedAt(flows: Flows, p: Pool, sh: Shape, fi: nat)
    requires Timed(flows, p, sh) && fi in flows
    ensures OnTimer(fi, flows[fi], p, sh)
  {
  }

  lemma DropReady(flows: Flows, p: Pool, sh: Shape, wheel: seq<nat>, fi: nat)
    requires TimersOk(flows, p, sh, wheel) && fi in flows
    ensures flows[fi].timerIndex in sh.own && sh.own[flows[fi].timerIndex] in sh.rings
    ensures flows[fi].timerIndex in p && flows[fi].timerIndex < NIL && p[flows[fi].timerIndex].value == fi && fi != NIL
    ensures p[flows[fi].timerIndex].next in p && p[flows[fi].timerIndex].prev in p
    ensures Remove(p, flows[fi].timerIndex).Keys == p.Keys
    ensures Remove(p, flows[fi].timerIndex)[flows[fi].timerIndex].value == fi
  {
    hide AllLinked;
    hide Covers;
    hide Remove;
    TimerRemove(flows, p, sh, wheel, fi);
  }

  lemma DropTimer(flows: Flows, p: Pool, sh: Shape, wheel: seq<nat>, ti: nat, now: nat, fi: nat,
                  q: Pool, flows': Flows, sh': Shape)
    requires TimersGood(flows, p, sh, wheel, ti, now) && fi in flows
    requires flows[fi].timerIndex in sh.own && sh.own[flows[fi].timerIndex] in sh.rings
    requires flows[fi].timerIndex in p && p[flows[fi].timerIndex].next in p && p[flows[fi].timerIndex].prev in p
    requires flows' == flows - {fi} && sh' == DropShape(sh, flows[fi].timerIndex)
    requires q == Remove(p, flows[fi].timerIndex) - {flows[fi].timerIndex}
    ensures TimersGood(flows', q, sh', wheel, ti, now)
    ensures Prompt(flows, p, sh, wheel, ti, now) ==> Prompt(flows', q, sh', wheel, ti, now)
  {
    hide AllLinked;
    hide Covers;
    hide Timed;
    hide Prompt;
    hide Ahead;
    hide Remove;
    TimerRemove(flows, p, sh, wheel, fi);
    OnTimeRemove(flows, p, sh, wheel, ti, now, fi, flows', sh');
    if Prompt(flows, p, sh, wheel, ti, now) {
      PromptRemove(flows, p, sh, wheel, ti, now, fi, q, flows', sh');
    }
  }

  /** Unlinking a flow and putting it lifetime slots ahead, with its new deadline. */
  lemma MoveTimer(flows: Flows, p: Pool, sh: Shape, wheel: seq<nat>, ti: nat, now: nat, fi: nat, f: Flow, h: nat,
                  p1: Pool, q: Pool, flows': Flows, sh': Shape)
    requires TimersGood(flows, p, sh, wheel, ti, now) && fi in flows && flows' == flows[fi := f]
    requires f == flows[fi].(expire := now + flows[fi].lifetime) && f.lifetime < TIMER_MAX_LIFETIME
    requires f.timerIndex in sh.own && sh.own[f.timerIndex] in sh.rings && f.timerIndex < NIL
    requires f.timerIndex in p && p[f.timerIndex].next in p && p[f.timerIndex].prev in p && fi != NIL
    requires f.timerIndex in Remove(p, f.timerIndex) && Remove(p, f.timerIndex)[f.timerIndex].value == fi
    requires |wheel| == TIMER_MAX_LIFETIME && h == wheel[(ti + f.lifetime) % TIMER_MAX_LIFETIME] && h in sh.rings
    requires p1 == Remove(p, f.timerIndex) - {f.timerIndex}
    requires Inserted(p1, q, h, f.timerIndex, Remove(p, f.timerIndex)[f.timerIndex])
    requires sh' == TailShape(DropShape(sh, f.timerIndex), h, f.timerIndex)
    ensures TimersGood(flows', q, sh', wheel, ti, now)
    ensures Prompt(flows, p, sh, wheel, ti, now) ==> Prompt(flows', q, sh', wheel, ti, now)
  {
    hide TimersGood;
    hide Prompt;
    hide Inserted;
    hide Remove;
    var e := f.timerIndex;
    var flows1 := flows - {fi};
    DropTimer(flows, p, sh, wheel, ti, now, fi, p1, flows1, DropShape(sh, e));
    assert flows' == flows1[fi := f];
    CreateTimer(flows1, p1, DropShape(sh, e), wheel, ti, now, fi, f, Remove(p, e)[e], h, q, flows', sh');
  }

  /** The wheel turns without anything to carry over. */
  lemma TurnEmpty(flows: Flows, p: Pool, sh: Shape, wheel: seq<nat>, ti: nat, now: nat, now': nat)
    requires TimersGood(flows, p, sh, wheel, ti, now) && now <= now'
    requires ti == now' % TIMER_MAX_LIFETIME || sh.rings[wheel[ti]] == []
    ensures TimersGood(flows, p, sh, wheel, now' % TIMER_MAX_LIFETIME, now')
    ensures Prompt(flows, p, sh, wheel, ti, now) && now' <= now + 1 ==>
              Prompt(flows, p, sh, wheel, now' % TIMER_MAX_LIFETIME, now')
  {
    hide AllLinked;
    hide Timed;
    hide Prompt;
    OnTimeAdvance(flows, sh, wheel, ti, now, now');
    if Prompt(flows, p, sh, wheel, ti, now) && now' == now + 1 {
      TurnApart(now, now + 1);
      var n := wheel[(now + 1) % TIMER_MAX_LIFETIME];
      assert sh.rings[wheel[ti]] == [];
      assert Covers([], sh.own, wheel[ti]);
      var sh' := SpliceShape(sh, wheel[ti], n);
      assert sh' == sh by {
        assert sh'.own == sh.own;
        assert sh'.rings == sh.rings by {
          assert sh.rings[wheel[ti]] + sh.rings[n] == sh.rings[n];
        }
      }
      assert SameValues(p, p, sh.own.Keys);
      PromptTick(flows, p, sh, wheel, ti, now, p, sh);
    }
  }

  /** The wheel turns and takes the remaining flows of the old slot along. */
  lemma TurnSplice(flows: Flows, p: Pool, sh: Shape, wheel: seq<nat>, ti: nat, now: nat, now': nat,
                   c: nat, n: nat, q: Pool, sh': Shape)
    requires TimersGood(flows, p, sh, wheel, ti, now) && now <= now'
    requires ti != now' % TIMER_MAX_LIFETIME && c == wheel[ti] && n == wheel[now' % TIMER_MAX_LIFETIME]
    requires c in p && n in p && p[c].prev in p && p[c].next in p && (!IsEmpty(p, n) ==> p[n].next in p)
    requires sh.rings[c] != [] && q == Splice(p, c, n) && sh' == SpliceShape(sh, c, n)
    ensures TimersGood(flows, q, sh', wheel, now' % TIMER_MAX_LIFETIME, now')
    ensures Prompt(flows, p, sh, wheel, ti, now) && now' <= now + 1 ==>
              Prompt(flows, q, sh', wheel, now' % TIMER_MAX_LIFETIME, now')
  {
    hide AllLinked;
    hide Covers;
    hide Timed;
    hide Prompt;
    hide Ahead;
    hide Splice;
    hide IsEmpty;
    TimerSplice(flows, p, sh, wheel, c, n);
    OnTimeSplice(flows, p, sh, wheel, ti, now, now', sh');
    if Prompt(flows, p, sh, wheel, ti, now) && now' == now + 1 {
      PromptTick(flows, p, sh, wheel, ti, now, q, sh');
    }
  }

  lemma SpliceReady(flows: Flows, p: Pool, sh: Shape, wheel: seq<nat>, i: nat, j: nat)
    requires TimersOk(flows, p, sh, wheel) && i < TIMER_MAX_LIFETIME && j < TIMER_MAX_LIFETIME && i != j
    ensures wheel[i] in sh.rings && wheel[j] in sh.rings && wheel[i] in p && wheel[j] in p
    ensures IsEmpty(p, wheel[i]) <==> sh.rings[wheel[i]] == []
    ensures !IsEmpty(p, wheel[i]) ==> p[wheel[i]].prev in p && p[wheel[i]].next in p
    ensures !IsEmpty(p, wheel[j]) ==> p[wheel[j]].next in p
  {
    hide Timed;
    hide Covers;
    EmptyExact(p, sh, wheel[i]);
    LinkedFacts(p, wheel[i], sh.rings[wheel[i]]);
    LinkedFacts(p, wheel[j], sh.rings[wheel[j]]);
  }

  lemma MoveReady(flows: Flows, p: Pool, sh: Shape, wheel: seq<nat>, ti: nat, now: nat, fi: nat)
    requires TimersGood(flows, p, sh, wheel, ti, now) && fi in flows
    ensures |wheel| == TIMER_MAX_LIFETIME && flows[fi].lifetime < TIMER_MAX_LIFETIME
    ensures flows[fi].timerIndex in sh.own && sh.own[flows[fi].timerIndex] in sh.rings
    ensures flows[fi].timerIndex in p && flows[fi].timerIndex < NIL && p[flows[fi].timerIndex].value == fi && fi != NIL
    ensures p[flows[fi].timerIndex].next in p && p[flows[fi].timerIndex].prev in p
    ensures flows[fi].timerIndex in Remove(p, flows[fi].timerIndex)
    ensures Remove(p, flows[fi].timerIndex)[flows[fi].timerIndex].value == fi
  {
    hide Timed;
    hide WellFormed;
    hide Remove;
    DropReady(flows, p, sh, wheel, fi);
  }

  /** After the flow's element is unlinked its next slot is ready to take it. */
  lemma MoveSlot(flows: Flows, p: Pool, sh: Shape, wheel: seq<nat>, ti: nat, now: nat, fi: nat, q: Pool, p1: Pool,
                 h: nat)
    requires TimersGood(flows, p, sh, wheel, ti, now) && fi in flows
    requires flows[fi].timerIndex in p && p[flows[fi].timerIndex].next in p && p[flows[fi].timerIndex].prev in p
    requires q == Remove(p, flows[fi].timerIndex) && p1 == q - {flows[fi].timerIndex}
    requires |wheel| == TIMER_MAX_LIFETIME && h == wheel[(ti + flows[fi].lifetime) % TIMER_MAX_LIFETIME]
    ensures h in sh.rings && h in q && h in p1 && h != flows[fi].timerIndex
    ensures q[h].next != NIL ==> q[h].prev in q
    ensures p1[h].next != NIL ==> p1[h].prev in p1
    ensures flows[fi].timerIndex in q && q == p1[flows[fi].timerIndex := q[flows[fi].timerIndex]]
  {
    hide AllLinked;
    hide Covers;
    hide Timed;
    hide Prompt;
    hide Remove;
    var e := flows[fi].timerIndex;
    TimerRemove(flows, p, sh, wheel, fi);
    SlotReady(flows - {fi}, p1, DropShape(sh, e), wheel, (ti + flows[fi].lifetime) % TIMER_MAX_LIFETIME);
  }

  // ---------- setting up ----------

  /** The first slots of a wheel under construction, all empty. */
  ghost predicate WheelPart(p: Pool, sh: Shape, wheel: seq<nat>) {
    && WellFormed(p, sh) && sh.own == map[]
    && |p.Keys| == |wheel|
    && (forall j :: 0 <= j < |wheel| ==> wheel[j] in sh.rings)
    && (forall j, k :: 0 <= j < k < |wheel| ==> wheel[j] != wheel[k])
    && (forall h :: h in sh.rings ==> h in wheel)
  }

  /** The slots have the lowest pool indexes, in order: the code takes the number of a slot
      for its index. */
  ghost predicate Numbered(wheel: seq<nat>) {
    forall i :: 0 <= i < |wheel| ==> wheel[i] == i
  }

  lemma NextNumber(p: Pool, sh: Shape, wheel: seq<nat>, slot: nat)
    requires WheelPart(p, sh, wheel) && Numbered(wheel) && slot !in p && slot <= |wheel|
    ensures slot == |wheel| && Numbered(wheel + [slot])
  {
    hide AllLinked;
    hide Owned;
    forall j | 0 <= j < |wheel| ensures j in p {
      assert wheel[j] in sh.rings && wheel[j] == j;
    }
  }

  lemma NumberOf(wheel: seq<nat>, k: nat)
    requires Numbered(wheel) && k < |wheel|
    ensures wheel[k] == k
  {
  }

  lemma WheelSlot(p: Pool, sh: Shape, wheel: seq<nat>, slot: nat)
    requires WheelPart(p, sh, wheel) && slot !in p && slot < NIL
    ensures WheelPart(Init(p, slot), Shape(sh.rings[slot := []], sh.own), wheel + [slot])
  {
    hide AllLinked;
    hide Covers;
    InitPool(p, sh, slot);
    assert Init(p, slot).Keys == p.Keys + {slot};
  }

  lemma WheelStart()
    ensures WheelPart(map[], Shape(map[], map[]), [])
  {
    var none: Pool := map[];
    assert none.Keys == {};
  }

  lemma WheelSize(p: Pool, sh: Shape, wheel: seq<nat>)
    requires WheelPart(p, sh, wheel)
    ensures |p.Keys| == |wheel|
  {
  }

  lemma WheelDone(p: Pool, sh: Shape, wheel: seq<nat>)
    requires WheelPart(p, sh, wheel) && |wheel| == TIMER_MAX_LIFETIME
    ensures TimersOk(map[], p, sh, wheel) && |p.Keys| == TIMER_MAX_LIFETIME
  {
    hide WellFormed;
  }

  // ---------- expiring from the front of the current slot ----------

  /** The state of the expiry loop: e is the first element of the current slot, or its head. */
  lemma ExpireFront(flows: Flows, p: Pool, sh: Shape, wheel: seq<nat>, ti: nat, now: nat)
    requires TimersGood(flows, p, sh, wheel, ti, now)
    ensures ti < |wheel| && wheel[ti] in sh.rings && wheel[ti] in p && p[wheel[ti]].value == NIL
    ensures IsEmpty(p, wheel[ti]) <==> sh.rings[wheel[ti]] == []
    ensures sh.rings[wheel[ti]] != [] ==> p[wheel[ti]].next == sh.rings[wheel[ti]][0]
  {
    hide Timed;
    hide Covers;
    EmptyExact(p, sh, wheel[ti]);
    SpliceTouchesOne(p, wheel[ti], sh.rings[wheel[ti]]);
  }

  lemma SpliceTouchesOne(p: Pool, h: nat, s: seq<nat>)
    requires Linked(p, h, s)
    ensures p[h].value == NIL && (s != [] ==> p[h].next == s[0])
  {
  }

  /** The first element of the current slot belongs to a flow that is overdue. */
  lemma ExpireElt(flows: Flows, p: Pool, sh: Shape, wheel: seq<nat>, ti: nat, now: nat, e: nat)
    requires TimersGood(flows, p, sh, wheel, ti, now)
    requires ti < |wheel| && wheel[ti] in sh.rings && sh.rings[wheel[ti]] != [] && e == sh.rings[wheel[ti]][0]
    ensures e in sh.own && sh.own[e] == wheel[ti] && e in p && p[e].value in flows && p[e].value != NIL
    ensures flows[p[e].value].timerIndex == e && flows[p[e].value].expire <= now
    ensures p[e].next in p && p[e].prev in p
    ensures p[e].next == if |sh.rings[wheel[ti]]| > 1 then sh.rings[wheel[ti]][1] else wheel[ti]
    ensures Remove(p, e).Keys == p.Keys
  {
    hide AllLinked;
    hide Remove;
    assert e in sh.rings[wheel[ti]];
    MemberFlow(flows, p, sh, wheel[ti], e);
    hide Covers;
    CurrentOverdue(flows, p, sh, wheel, ti, now, p[e].value);
    hide Timed;
    NextOf(p, sh, wheel[ti], 0);
    RemovePool(p, sh, e);
  }

  /** The first flow of an up-to-date slot has the earliest deadline of all overdue flows. */
  lemma ExpireFirst(flows: Flows, p: Pool, sh: Shape, wheel: seq<nat>, ti: nat, now: nat, fi: nat)
    requires TimersGood(flows, p, sh, wheel, ti, now) && Prompt(flows, p, sh, wheel, ti, now)
    requires fi in flows && flows[fi].expire <= now
    ensures ti < |wheel| && wheel[ti] in sh.rings && sh.rings[wheel[ti]] != []
    ensures sh.rings[wheel[ti]][0] in p && p[sh.rings[wheel[ti]][0]].value in flows
    ensures flows[p[sh.rings[wheel[ti]][0]].value].expire <= flows[fi].expire
  {
    hide AllLinked;
    var s := sh.rings[wheel[ti]];
    assert InSlot(flows[fi], sh, wheel[ti]);
    assert Covers(s, sh.own, wheel[ti]);
    var k :| 0 <= k < |s| && s[k] == flows[fi].timerIndex;
    assert OnTimer(fi, flows[fi], p, sh);
    assert ExpireAt(s[k], p, flows) == flows[fi].expire;
    assert 0 < k ==> ExpireAt(s[0], p, flows) <= ExpireAt(s[k], p, flows);
  }

  lemma DropFront(p: Pool, sh: Shape, h: nat)
    requires WellFormed(p, sh) && h in sh.rings && sh.rings[h] != []
    ensures Without(sh.rings[h], sh.rings[h][0]) == sh.rings[h][1..]
  {
    var s := sh.rings[h];
    WithoutHead(p, h, s);
  }

  lemma WithoutHead(p: Pool, h: nat, s: seq<nat>)
    requires Linked(p, h, s) && s != []
    ensures Without(s, s[0]) == s[1..]
  {
    WithoutAt(s, 0);
    assert s[..0] + s[1..] == s[1..];
  }

  lemma NoFlowsOnTime(p: Pool, sh: Shape, wheel: seq<nat>, now: nat)
    requires TimersOk(map[], p, sh, wheel)
    ensures TimersGood(map[], p, sh, wheel, now % TIMER_MAX_LIFETIME, now)
    ensures Prompt(map[], p, sh, wheel, now % TIMER_MAX_LIFETIME, now)
  {
    hide AllLinked;
    NoMembers(p, sh, wheel[now % TIMER_MAX_LIFETIME]);
  }

  lemma NoMembers(p: Pool, sh: Shape, h: nat)
    requires Timed(map[], p, sh) && Owned(sh) && h in sh.rings
    ensures sh.rings[h] == []
  {
    hide Timed;
    if sh.rings[h] != [] {
      MemberFlow(map[], p, sh, h, sh.rings[h][0]);
    }
  }

  lemma TurnIndexes(flows: Flows, p: Pool, sh: Shape, wheel: seq<nat>, ti: nat, now: nat)
    requires TimersGood(flows, p, sh, wheel, ti, now)
    ensures |wheel| == TIMER_MAX_LIFETIME && ti == now % TIMER_MAX_LIFETIME
    ensures TimersOk(flows, p, sh, wheel)
  {
  }

  lemma SpliceApart(flows: Flows, p: Pool, sh: Shape, wheel: seq<nat>, i: nat, j: nat)
    requires TimersOk(flows, p, sh, wheel) && i < TIMER_MAX_LIFETIME && j < TIMER_MAX_LIFETIME && i != j
    ensures wheel[i] != wheel[j]
  {
    hide WellFormed;
    hide Timed;
  }

  /** An empty current slot leaves nothing overdue. */
  lemma NothingDue(flows: Flows, p: Pool, sh: Shape, wheel: seq<nat>, ti: nat, now: nat)
    requires TimersGood(flows, p, sh, wheel, ti, now)
    requires ti < |wheel| && wheel[ti] in sh.rings && sh.rings[wheel[ti]] == []
    ensures Prompt(flows, p, sh, wheel, ti, now) ==> forall fi :: fi in flows ==> flows[fi].expire > now
  {
    hide TimersGood;
    if Prompt(flows, p, sh, wheel, ti, now) {
      hide Prompt;
      forall fi | fi in flows ensures flows[fi].expire > now {
        if flows[fi].expire <= now {
          ExpireFirst(flows, p, sh, wheel, ti, now, fi);
        }
      }
    }
  }

  lemma DropFrontRing(flows: Flows, p: Pool, sh: Shape, wheel: seq<nat>, ti: nat, now: nat, h: nat)
    requires TimersGood(flows, p, sh, wheel, ti, now) && h in sh.rings && sh.rings[h] != []
    ensures Without(sh.rings[h], sh.rings[h][0]) == sh.rings[h][1..]
  {
    hide Timed;
    hide WheelOk;
    DropFront(p, sh, h);
  }

  lemma ExpireEarliest(flows: Flows, p: Pool, sh: Shape, wheel: seq<nat>, ti: nat, now: nat, fi: nat, gi: nat)
    requires TimersGood(flows, p, sh, wheel, ti, now) && Prompt(flows, p, sh, wheel, ti, now)
    requires ti < |wheel| && wheel[ti] in sh.rings && sh.rings[wheel[ti]] != []
    requires sh.rings[wheel[ti]][0] in p && fi == p[sh.rings[wheel[ti]][0]].value
    requires fi in flows && flows[fi].expire <= now && gi in flows
    ensures flows[fi].expire <= flows[gi].expire
  {
    hide TimersGood;
    hide Prompt;
    if flows[gi].expire <= now {
      ExpireFirst(flows, p, sh, wheel, ti, now, gi);
    }
  }

  /** e is the first element of the current slot, or the slot's head when it is empty. */
  ghost predicate FrontAt(p: Pool, sh: Shape, h: nat, e: nat) {
    && h in sh.rings
    && e in p
    && e == (if sh.rings[h] == [] then h else sh.rings[h][0])
    && (IsHead(p[e]) <==> sh.rings[h] == [])
  }

  lemma FrontReady(flows: Flows, p: Pool, sh: Shape, wheel: seq<nat>, ti: nat, now: nat)
    requires TimersGood(flows, p, sh, wheel, ti, now)
    ensures ti < |wheel| && wheel[ti] in sh.rings && wheel[ti] in p
    ensures IsEmpty(p, wheel[ti]) <==> sh.rings[wheel[ti]] == []
    ensures FrontAt(p, sh, wheel[ti], if IsEmpty(p, wheel[ti]) then wheel[ti] else p[wheel[ti]].next)
  {
    hide TimersGood;
    ExpireFront(flows, p, sh, wheel, ti, now);
    if sh.rings[wheel[ti]] != [] {
      ExpireElt(flows, p, sh, wheel, ti, now, p[wheel[ti]].next);
    }
  }

  /** One turn of the expiry loop. */
  lemma ExpireStep(flows: Flows, p: Pool, sh: Shape, wheel: seq<nat>, ti: nat, now: nat, e: nat, fi: nat,
                   flows': Flows, q: Pool, sh': Shape)
    requires TimersGood(flows, p, sh, wheel, ti, now) && ti < |wheel|
    requires FrontAt(p, sh, wheel[ti], e) && sh.rings[wheel[ti]] != [] && fi == p[e].value && fi in flows
    requires e in sh.own && sh.own[e] in sh.rings && p[e].next in p && p[e].prev in p
    requires flows' == flows - {fi} && q == Remove(p, e) - {e} && sh' == DropShape(sh, e)
    ensures TimersGood(flows', q, sh', wheel, ti, now)
    ensures FrontAt(q, sh', wheel[ti], p[e].next)
    ensures Prompt(flows, p, sh, wheel, ti, now) ==> Prompt(flows', q, sh', wheel, ti, now)
    ensures Prompt(flows, p, sh, wheel, ti, now) ==> forall gi :: gi in flows ==> flows[fi].expire <= flows[gi].expire
  {
    hide TimersGood;
    hide Prompt;
    hide Remove;
    ExpireElt(flows, p, sh, wheel, ti, now, e);
    DropTimer(flows, p, sh, wheel, ti, now, fi, q, flows', sh');
    DropFrontRing(flows, p, sh, wheel, ti, now, wheel[ti]);
    FrontReady(flows', q, sh', wheel, ti, now);
    if Prompt(flows, p, sh, wheel, ti, now) {
      forall gi | gi in flows ensures flows[fi].expire <= flows[gi].expire {
        ExpireEarliest(flows, p, sh, wheel, ti, now, fi, gi);
      }
    }
  }

  lemma CreateReady(flows: Flows, p: Pool, sh: Shape, wheel: seq<nat>, ti: nat, now: nat, t: nat, elt: Elt)
    requires TimersGood(flows, p, sh, wheel, ti, now) && t !in p
    ensures |wheel| == TIMER_MAX_LIFETIME
    ensures var h := wheel[(ti + TIMER_DEFAULT_LIFETIME) % TIMER_MAX_LIFETIME];
            h in sh.rings && h in p && h != t && (p[h].next != NIL ==> p[h].prev in p)
  {
    hide WellFormed;
    hide Timed;
    SlotReady(flows, p, sh, wheel, (ti + TIMER_DEFAULT_LIFETIME) % TIMER_MAX_LIFETIME);
  }

  /** Nothing about the timers changes when flows keep their deadline and element. */
  lemma TimersGoodSame(flows: Flows, flows': Flows, p: Pool, sh: Shape, wheel: seq<nat>, ti: nat, now: nat)
    requires TimersGood(flows, p, sh, wheel, ti, now)
    requires flows'.Keys == flows.Keys
    requires forall fi :: fi in flows ==>
              SameTimerFields(flows[fi], flows'[fi]) && flows'[fi].lifetime < TIMER_MAX_LIFETIME
    ensures TimersGood(flows', p, sh, wheel, ti, now)
    ensures Prompt(flows, p, sh, wheel, ti, now) ==> Prompt(flows', p, sh, wheel, ti, now)
  {
    hide Prompt;
    hide WellFormed;
    hide Timed;
    hide Ahead;
    TimersSame(flows, flows', p, sh, wheel, ti, now);
    OnTimeSame(flows, flows', p, sh, wheel, ti, now);
  }

  /** Setting other fields of one flow. */
  lemma TimersGoodSet(flows: Flows, fi: nat, f: Flow, flows': Flows, p: Pool, sh: Shape, wheel: seq<nat>, ti: nat,
                      now: nat)
    requires TimersGood(flows, p, sh, wheel, ti, now)
    requires fi in flows && flows' == flows[fi := f]
    requires SameTimerFields(flows[fi], f) && (f.lifetime == flows[fi].lifetime || f.lifetime < TIMER_MAX_LIFETIME)
    ensures TimersGood(flows', p, sh, wheel, ti, now)
    ensures Prompt(flows, p, sh, wheel, ti, now) ==> Prompt(flows', p, sh, wheel, ti, now)
  {
    hide TimersGood;
    hide Prompt;
    AllLifetimes(flows, p, sh, wheel, ti, now);
    TimersGoodSame(flows, flows', p, sh, wheel, ti, now);
  }

  lemma AllLifetimes(flows: Flows, p: Pool, sh: Shape, wheel: seq<nat>, ti: nat, now: nat)
    requires TimersGood(flows, p, sh, wheel, ti, now)
    ensures forall fi :: fi in flows ==> flows[fi].lifetime < TIMER_MAX_LIFETIME
  {
  }
}
