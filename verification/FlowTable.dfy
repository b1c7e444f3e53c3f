/** The flow table and its timer wheel, with the statements of flowtable_node.c. */
module FlowTable {
  import opened Vppinfra
  import opened Dlist
  import opened FlowState
  import opened FlowTimers
  import opened FlowLag
  import opened FlowMap

  class FlowTable {
    const hash: Signature -> nat
    var flows: Flows
    var flowsHt: map<nat, nat>
    var htLines: Pool
    var flowsCpt: nat
    var timers: Pool
    var timerWheel: seq<nat>
    var timeIndex: nat
    ghost var lines: Shape
    ghost var slots: Shape
    ghost var clock: nat

    ghost predicate ChainSide()
      reads this
    {
      ChainsOk(flows, flowsHt, htLines, lines, hash, NIL) && flowsCpt == |flows|
    }

    ghost predicate TimerSide()
      reads this
    {
      && Numbered(timerWheel)
      && if timeIndex == NIL then TimersOk(flows, timers, slots, timerWheel) && flows == map[]
         else TimersGood(flows, timers, slots, timerWheel, timeIndex, clock)
    }

    ghost predicate Valid()
      reads this
    {
      ChainSide() && TimerSide()
    }

    /** Every overdue flow is in the current slot, in deadline order. */
    ghost predicate UpToDate()
      reads this
    {
      timeIndex != NIL && Prompt(flows, timers, slots, timerWheel, timeIndex, clock)
    }

    /** The clock has not jumped since t0: overdue flows are as near the current slot as the
        seconds since then have brought them. */
    ghost predicate Steady(t0: nat)
      reads this
    {
      timeIndex != NIL && LateSince(flows, slots, timerWheel, timeIndex, clock, t0)
    }

    /** flowtable_init. */
    constructor (hash: Signature -> nat)
      ensures Valid() && this.hash == hash && flows == map[] && timeIndex == NIL
    {
      this.hash := hash;
      flows, flowsHt, htLines, flowsCpt := map[], map[], map[], 0;
      lines, slots, clock := Shape(map[], map[]), Shape(map[], map[]), 0;
      timers, timerWheel, timeIndex := map[], [], NIL;
      new;
      hide ChainsOk;
      hide TimersOk;
      NoChains(hash);
      InitTimers();
    }

    method InitTimers()
      requires timers == map[] && timerWheel == [] && slots == Shape(map[], map[]) && flows == map[]
      modifies `timers, `timerWheel, `slots
      ensures TimersOk(flows, timers, slots, timerWheel) && Numbered(timerWheel)
    {
      var i := 0;
      WheelStart();
      assert Numbered(timerWheel);
      hide WheelPart;
      hide TimersOk;
      hide Numbered;
      while i < TIMER_MAX_LIFETIME
        invariant i <= TIMER_MAX_LIFETIME && |timerWheel| == i
        invariant WheelPart(timers, slots, timerWheel) && Numbered(timerWheel)
      {
        assert |timers.Keys| == i by {
          WheelSize(timers, slots, timerWheel);
        }
        var slot := PoolGet(timers.Keys);
        NextNumber(timers, slots, timerWheel, slot);
        WheelSlot(timers, slots, timerWheel, slot);
        timers := Init(timers, slot);
        timerWheel := timerWheel + [slot];
        slots := Shape(slots.rings[slot := []], slots.own);
        i := i + 1;
      }
      WheelDone(timers, slots, timerWheel);
    }

    /** timer_wheel_insert_flow: the flow's timer element goes to the tail of the slot
        lifetime seconds ahead, whose number serves as its pool index. */
    method InsertTimer(fi: nat)
      requires fi in flows && |timerWheel| == TIMER_MAX_LIFETIME
      requires flows[fi].timerIndex in timers && Numbered(timerWheel)
      requires var h := timerWheel[(timeIndex + flows[fi].lifetime) % TIMER_MAX_LIFETIME];
               h in timers && h != flows[fi].timerIndex && (timers[h].next != NIL ==> timers[h].prev in timers)
      modifies `timers
      ensures timers == AddTail(old(timers), timerWheel[(timeIndex + flows[fi].lifetime) % TIMER_MAX_LIFETIME],
                                flows[fi].timerIndex)
    {
      hide Numbered;
      var timerSlotHeadIndex := (timeIndex + flows[fi].lifetime) % TIMER_MAX_LIFETIME;
      NumberOf(timerWheel, timerSlotHeadIndex);
      timers := AddTail(timers, timerSlotHeadIndex, flows[fi].timerIndex);
    }

    /** timer_wheel_resched_flow. */
    method Resched(fi: nat, now: nat)
      requires Valid() && fi in flows && timeIndex != NIL && now == clock
      modifies `flows, `timers, `slots
      ensures Valid()
      ensures flows == old(flows)[fi := old(flows)[fi].(expire := now + old(flows)[fi].lifetime)]
      ensures old(UpToDate()) ==> UpToDate()
      ensures forall t0: nat :: old(Steady(t0)) ==> Steady(t0)
    {
      hide ChainsOk;
      hide TimersGood;
      hide LateSince;
      hide Numbered;
      hide Prompt;
      hide Remove;
      hide AddTail;
      ghost var flows0, p0, sh0 := flows, timers, slots;
      var f := flows[fi];
      MoveReady(flows, timers, slots, timerWheel, timeIndex, now, fi);
      timers := Remove(timers, f.timerIndex);
      flows := flows[fi := f.(expire := now + f.lifetime)];
      ghost var p1, p2, h := timers - {f.timerIndex}, timers, timerWheel[(timeIndex + f.lifetime) % TIMER_MAX_LIFETIME];
      MoveSlot(flows0, p0, sh0, timerWheel, timeIndex, now, fi, timers, p1, h);
      InsertTimer(fi);
      slots := TailShape(DropShape(slots, f.timerIndex), h, f.timerIndex);
      MoveTimer(flows0, p0, sh0, timerWheel, timeIndex, now, fi, flows[fi], h, p1, timers, flows, slots);
      SinceMove(flows0, p0, fi, flows[fi], h, flows, sh0, slots, timerWheel, timeIndex, now);
      ChainsSet(flows0, fi, flows[fi], flows, flowsHt, htLines, lines, hash);
    }

    /** The pointer updates of timer_wheel_index_update: the old slot's ring goes in front
        of the new one's. */
    method SpliceSlots(curr: nat, next: nat)
      requires curr in timers && next in timers && curr != next
      requires timers[curr].prev in timers && timers[curr].next in timers
      requires !IsEmpty(timers, next) ==> timers[next].next in timers
      modifies `timers
      ensures timers == Splice(old(timers), curr, next)
    {
      var currPrev, currNext := timers[curr].prev, timers[curr].next;
      if IsEmpty(timers, next) {
        timers := timers[next := timers[next].(next := timers[curr].next)];
        timers := timers[next := timers[next].(prev := timers[curr].prev)];
        timers := timers[currPrev := timers[currPrev].(next := next)];
        timers := timers[currNext := timers[currNext].(prev := next)];
      } else {
        var nextNext := timers[next].next;
        timers := timers[currPrev := timers[currPrev].(next := timers[next].next)];
        timers := timers[next := timers[next].(next := timers[curr].next)];
        timers := timers[nextNext := timers[nextNext].(prev := timers[curr].prev)];
        timers := timers[currNext := timers[currNext].(prev := next)];
      }
      timers := Init(timers, curr);
    }

    /** timer_wheel_index_update: turns the wheel to now, carrying the flows left in
        the old slot to the front of the new one. */
    method IndexUpdate(now: nat)
      requires Valid() && (timeIndex != NIL ==> clock <= now)
      modifies `timers, `timeIndex, `slots, `clock
      ensures Valid() && timeIndex != NIL && clock == now
      ensures old(timeIndex) == NIL || (old(UpToDate()) && now <= old(clock) + 1) ==> UpToDate()
      ensures Steady(now)
      ensures forall t0: nat :: old(Steady(t0)) && now <= old(clock) + 1 ==> Steady(t0)
    {
      hide ChainsOk;
      hide TimersOk;
      hide TimersGood;
      hide LateSince;
      hide Numbered;
      hide Prompt;
      var newIndex := now % TIMER_MAX_LIFETIME;
      ghost var p0, sh0, ti, was := timers, slots, timeIndex, clock;
      clock := now;
      if timeIndex == NIL {
        timeIndex := newIndex;
        NoFlowsOnTime(timers, slots, timerWheel, now);
        SinceNow(flows, timers, slots, timerWheel, timeIndex, clock);
        return;
      }
      TurnIndexes(flows, timers, slots, timerWheel, timeIndex, was);
      if newIndex != timeIndex {
        var curr, next := timerWheel[timeIndex], timerWheel[newIndex];
        SpliceReady(flows, timers, slots, timerWheel, timeIndex, newIndex);
        if IsEmpty(timers, curr) {
          timeIndex := newIndex;
          TurnEmpty(flows, p0, sh0, timerWheel, ti, was, now);
          SpliceApart(flows, p0, sh0, timerWheel, ti, newIndex);
          SinceUpdate(flows, p0, sh0, slots, timers, timerWheel, ti, timeIndex, was, now);
          return;
        }
        SpliceApart(flows, p0, sh0, timerWheel, ti, newIndex);
        SpliceSlots(curr, next);
        timeIndex := newIndex;
        slots := SpliceShape(slots, curr, next);
        TurnSplice(flows, p0, sh0, timerWheel, ti, was, now, curr, next, timers, slots);
      } else {
        TurnEmpty(flows, p0, sh0, timerWheel, ti, was, now);
      }
      SinceUpdate(flows, p0, sh0, slots, timers, timerWheel, ti, timeIndex, was, now);
    }

    /** flowtable_entry_remove: the flow leaves its chain, and the chain and its hash
        entry go when it was the last. */
    method EntryRemove(fi: nat)
      requires ChainSide() && fi in flows
      modifies `flows, `flowsHt, `htLines, `flowsCpt, `lines
      ensures ChainSide() && flows == old(flows) - {fi}
    {
      hide ChainsOk;
      hide Remove;
      var f := flows[fi];
      ChainRemove(flows, flowsHt, htLines, lines, hash, fi);
      htLines := Remove(htLines, f.htIndex);
      htLines := htLines - {f.htIndex};
      lines := DropShape(lines, f.htIndex);
      ghost var flows' := flows - {fi};
      ChainHead(flows', flowsHt, htLines, lines, hash, f.htLineIndex);
      ChainKey(old(flows), flowsHt, old(htLines), old(lines), hash, fi);
      if IsEmpty(htLines, f.htLineIndex) {
        ChainClose(flows', flowsHt, htLines, lines, hash, f.sigHash, f.htLineIndex);
        htLines := htLines - {f.htLineIndex};
        flowsHt := flowsHt - {f.sigHash};
        lines := Shape(lines.rings - {f.htLineIndex}, lines.own);
      } else {
        ChainKeep(flows', flowsHt, htLines, lines, hash, f.htLineIndex);
      }
      assert |flows.Keys - {fi}| == |flows.Keys| - 1;
      assert flows'.Keys == flows.Keys - {fi};
      assert |flows'| == |flows'.Keys| && |flows| == |flows.Keys|;
      flows := flows - {fi};
      flowsCpt := flowsCpt - 1;
    }

    /** The body of the expiry loop: the flow at the front of the current slot goes. */
    method ExpireFirstFlow(e: nat) returns (next: nat, ghost fi: nat)
      requires Valid() && timeIndex != NIL && timeIndex < |timerWheel|
      requires FrontAt(timers, slots, timerWheel[timeIndex], e) && !IsHead(timers[e])
      modifies `flows, `flowsHt, `htLines, `flowsCpt, `lines, `timers, `slots
      ensures Valid() && FrontAt(timers, slots, timerWheel[timeIndex], next)
      ensures fi in old(flows) && flows == old(flows) - {fi} && old(flows)[fi].expire <= clock
      ensures forall t0: nat :: old(Steady(t0)) ==> Steady(t0)
      ensures old(UpToDate()) ==> UpToDate() && forall gi :: gi in flows ==> old(flows)[fi].expire <= flows[gi].expire
    {
      hide ChainsOk;
      hide TimersGood;
      hide LateSince;
      hide Numbered;
      hide Prompt;
      hide Remove;
      ghost var flows0, p0, sh0 := flows, timers, slots;
      ExpireElt(flows, timers, slots, timerWheel, timeIndex, clock, e);
      var f := timers[e].value;
      fi := f;
      EntryRemove(f);
      next := timers[e].next;
      timers := Remove(timers, e);
      timers := timers - {e};
      slots := DropShape(slots, e);
      ExpireStep(flows0, p0, sh0, timerWheel, timeIndex, clock, e, f, flows, timers, slots);
      SinceDrop(flows0, p0, f, flows, sh0, slots, timerWheel, timeIndex, clock);
    }

    /** flowtable_timer_expire: takes flows off the front of the current slot, at most
        256 of them. */
    method Expire(now: nat) returns (expired: nat, ghost gone: set<nat>)
      requires Valid() && timeIndex != NIL && now == clock
      modifies `flows, `flowsHt, `htLines, `flowsCpt, `lines, `timers, `slots
      ensures Valid()
      ensures expired == |gone| && Expired(old(flows), flows, gone, now, old(UpToDate()))
      ensures (exists t0: nat :: old(Steady(t0)) && now >= t0 + 299) ==>
                expired == 256 || forall fi :: fi in flows ==> flows[fi].expire > now
      ensures old(UpToDate()) ==> UpToDate()
      ensures forall t0: nat :: old(Steady(t0)) ==> Steady(t0)
    {
      hide ChainsOk;
      hide TimersGood;
      hide LateSince;
      hide Numbered;
      hide Prompt;
      hide Expiring;
      expired, gone := 0, {};
      ghost var flows0 := flows;
      ExpiringNone(flows, now, UpToDate());
      FrontReady(flows, timers, slots, timerWheel, timeIndex, clock);
      var head := timerWheel[timeIndex];
      if IsEmpty(timers, head) {
        NothingDue(flows, timers, slots, timerWheel, timeIndex, clock);
        NoneLate();
        ExpiringDone(flows, flows, gone, now, UpToDate());
        return;
      }
      var e := timers[head].next;
      while !IsHead(timers[e]) && expired < TIMER_MAX_EXPIRE
        invariant Valid() && timeIndex < |timerWheel|
        invariant unchanged(`timeIndex) && unchanged(`clock) && unchanged(`timerWheel)
        invariant FrontAt(timers, slots, head, e)
        invariant expired == |gone| && Expiring(flows0, flows, gone, now, old(UpToDate()))
        invariant old(UpToDate()) ==> UpToDate()
        invariant forall t0: nat :: old(Steady(t0)) ==> Steady(t0)
        decreases TIMER_MAX_EXPIRE - expired
      {
        ghost var flows1 := flows;
        ghost var fi;
        e, fi := ExpireFirstFlow(e);
        ExpiringMore(flows0, flows1, flows, gone, fi, now, old(UpToDate()));
        gone := gone + {fi};
        expired := expired + 1;
      }
      if expired < TIMER_MAX_EXPIRE {
        NothingDue(flows, timers, slots, timerWheel, timeIndex, clock);
        NoneLate();
      }
      ExpiringDone(flows0, flows, gone, now, old(UpToDate()));
    }

    /** Gives the new flow fi a timer element, 60 seconds ahead on the wheel. */
    method StartTimer(fi: nat, f: Flow)
      requires Numbered(timerWheel) && timeIndex != NIL
      requires TimersGood(flows, timers, slots, timerWheel, timeIndex, clock)
      requires fi !in flows && fi != NIL && |timers.Keys| < NIL
      requires f.lifetime == TIMER_DEFAULT_LIFETIME && f.expire == clock + f.lifetime
      modifies `flows, `timers, `slots
      ensures TimersGood(flows, timers, slots, timerWheel, timeIndex, clock)
      ensures fi in flows && flows == old(flows)[fi := f.(timerIndex := flows[fi].timerIndex)]
      ensures old(UpToDate()) ==> UpToDate()
      ensures forall t0: nat :: old(Steady(t0)) ==> Steady(t0)
    {
      hide TimersGood;
      hide LateSince;
      hide Numbered;
      hide Prompt;
      hide AddTail;
      ghost var flows0, p0, sh0 := flows, timers, slots;
      var t := PoolGet(timers.Keys);
      CreateReady(flows0, p0, sh0, timerWheel, timeIndex, clock, t, Elt(0, 0, fi));
      ghost var slot := timerWheel[(timeIndex + TIMER_DEFAULT_LIFETIME) % TIMER_MAX_LIFETIME];
      timers := timers[t := Elt(0, 0, fi)];
      flows := flows[fi := f.(timerIndex := t)];
      InsertTimer(fi);
      slots := TailShape(slots, slot, t);
      CreateTimer(flows0, p0, sh0, timerWheel, timeIndex, clock, fi, flows[fi], Elt(0, 0, fi), slot,
                  timers, flows, slots);
      SinceAdd(flows0, p0, fi, flows[fi], flows, sh0, slot, slots, timerWheel, timeIndex, clock);
    }

    /** Puts the new flow fi at the head of the chain at h. */
    method InsertInLine(fi: nat, h: nat, ghost flows0: Flows, ghost spare: nat)
      requires ChainsOk(flows0, flowsHt, htLines, lines, hash, spare)
      requires fi !in flows0 && fi < NIL && fi in flows && flows == flows0[fi := flows[fi]]
      requires flows[fi].sigHash == hash(flows[fi].sig) && flows[fi].sigHash in flowsHt
      requires flowsHt[flows[fi].sigHash] == h
      requires h in lines.rings && (spare == NIL || spare == h) && |htLines.Keys| < NIL
      requires NoMatch(lines.rings[h], |lines.rings[h]|, htLines, flows0, flows[fi].sig)
      requires Numbered(timerWheel) && timeIndex != NIL
      requires TimersGood(flows, timers, slots, timerWheel, timeIndex, clock)
      requires flowsCpt == |flows0| + 1
      modifies `flows, `htLines, `lines
      ensures Valid() && (old(UpToDate()) ==> UpToDate())
      ensures forall t0: nat :: old(Steady(t0)) ==> Steady(t0)
      ensures fi in flows
      ensures flows == old(flows)[fi := old(flows)[fi].(htIndex := flows[fi].htIndex, htLineIndex := h)]
    {
      hide ChainsOk;
      hide TimersGood;
      hide LateSince;
      hide Numbered;
      hide Prompt;
      hide AddHead;
      hide HeadShape;
      hide NoMatch;
      var n := PoolGet(htLines.Keys);
      var f := flows[fi].(htIndex := n, htLineIndex := h);
      ghost var flows' := flows[fi := f];
      assert flows' == flows0[fi := f];
      ChainAdd(flows0, flowsHt, htLines, lines, hash, spare, fi, f, Elt(0, 0, fi));
      CountOneMore(flows0, flows', fi);
      TimersGoodSet(flows, fi, f, flows', timers, slots, timerWheel, timeIndex, clock);
      SinceSet(flows, fi, f, flows', slots, timerWheel, timeIndex, clock);
      htLines := htLines[n := Elt(0, 0, fi)];
      flows := flows[fi := f];
      htLines := AddHead(htLines, h, n);
      lines := HeadShape(lines, h, n);
    }

    /** The second half of flowtable_entry_lookup_create: a default flow for sig, at the
        head of the chain at h and 60 seconds ahead on the wheel. spare is h when the
        chain has just been opened, NIL otherwise. */
    method CreateFlow(k: nat, h: nat, sig: Signature, now: nat, ghost spare: nat) returns (fi: nat)
      requires ChainsOk(flows, flowsHt, htLines, lines, hash, spare) && flowsCpt == |flows| <= FM_POOL_COUNT
      requires Numbered(timerWheel) && timeIndex != NIL
      requires TimersGood(flows, timers, slots, timerWheel, timeIndex, clock)
      requires |htLines.Keys| <= 2 * FM_POOL_COUNT + 1 && |timers.Keys| <= FM_POOL_COUNT + TIMER_MAX_LIFETIME
      requires now == clock && k == hash(sig) && k in flowsHt && flowsHt[k] == h
      requires h in lines.rings && (spare == NIL || spare == h)
      requires NoMatch(lines.rings[h], |lines.rings[h]|, htLines, flows, sig)
      modifies `flows, `htLines, `flowsCpt, `timers, `lines, `slots
      ensures Valid()
      ensures fi !in old(flows) && fi in flows && flows == old(flows)[fi := flows[fi]]
      ensures flows[fi].sig == sig && Abs(flows[fi]) == NewEntry(now)
      ensures old(UpToDate()) ==> UpToDate()
      ensures forall t0: nat :: old(Steady(t0)) ==> Steady(t0)
    {
      hide ChainsOk;
      hide TimersGood;
      hide LateSince;
      hide Numbered;
      hide Prompt;
      ghost var flows0 := flows;
      assert |flows.Keys| == |flows|;
      fi := PoolGet(flows.Keys);
      flowsCpt := flowsCpt + 1;
      StartTimer(fi, Flow(sig, k, 0, 0, 0, 0, now + TIMER_DEFAULT_LIFETIME, TIMER_DEFAULT_LIFETIME, 0, NoInfo()));
      InsertInLine(fi, h, flows0, spare);
    }

    /** The search of flowtable_entry_lookup_create along the chain of a hash. */
    method SearchLine(k: nat, sig: Signature) returns (found: bool, fi: nat)
      requires ChainSide() && k == hash(sig) && k in flowsHt
      ensures flowsHt[k] in lines.rings
      ensures found ==> Candidate(flows, hash, sig, fi) && (flows[fi].sig == sig <==> !Aliased(flows, hash, sig))
      ensures !found ==> !Hit(flows, hash, sig)
      ensures !found ==> NoMatch(lines.rings[flowsHt[k]], |lines.rings[flowsHt[k]]|, htLines, flows, sig)
    {
      hide ChainsOk;
      var h := flowsHt[k];
      SearchStart(flows, flowsHt, htLines, lines, hash, k);
      var e := htLines[h].next;
      ghost var i := 0;
      while !IsHead(htLines[e])
        invariant SearchPos(htLines, lines, h, e, i)
        invariant NoMatch(lines.rings[h], i, htLines, flows, sig)
        decreases |lines.rings[h]| - i
      {
        SearchNext(flows, flowsHt, htLines, lines, hash, h, e, i);
        fi := htLines[e].value;
        if Matches(flows[fi].sig, sig) {
          FirstMatch(flows, flowsHt, htLines, lines, hash, sig, i, fi);
          return true, fi;
        }
        e := htLines[e].next;
        i := i + 1;
      }
      ChainExhausted(flows, flowsHt, htLines, lines, hash, sig);
      found, fi := false, 0;
    }

    /** A new empty chain for a hash that has none. */
    method OpenLine(k: nat, ghost sig: Signature) returns (h: nat)
      requires ChainSide() && k == hash(sig) && k !in flowsHt && |htLines.Keys| < NIL
      modifies `htLines, `flowsHt, `lines
      ensures ChainsOk(flows, flowsHt, htLines, lines, hash, h) && !Hit(flows, hash, sig)
      ensures k in flowsHt && flowsHt[k] == h && h in lines.rings
      ensures NoMatch(lines.rings[h], |lines.rings[h]|, htLines, flows, sig)
      ensures |htLines.Keys| <= |old(htLines).Keys| + 1
    {
      hide ChainsOk;
      ChainExhausted(flows, flowsHt, htLines, lines, hash, sig);
      h := PoolGet(htLines.Keys);
      ChainOpen(flows, flowsHt, htLines, lines, hash, k, h);
      assert Init(htLines, h).Keys == htLines.Keys + {h};
      htLines := Init(htLines, h);
      flowsHt := flowsHt[k := h];
      lines := Shape(lines.rings[h := []], lines.own);
    }

    /** flowtable_entry_lookup_create. */
    method LookupCreate(k: nat, sig: Signature, now: nat) returns (fi: nat, created: bool)
      requires Valid() && timeIndex != NIL && now == clock && k == hash(sig)
      requires Hit(flows, hash, sig) || flowsCpt <= 0x10_0000
      modifies `flows, `flowsHt, `htLines, `flowsCpt, `timers, `lines, `slots
      ensures Valid() && fi in flows
      ensures LookedUp(old(flows), flows, hash, sig, now, fi, created)
      ensures old(UpToDate()) ==> UpToDate()
      ensures forall t0: nat :: old(Steady(t0)) ==> Steady(t0)
    {
      hide ChainsOk;
      hide TimersGood;
      hide LateSince;
      hide Numbered;
      hide Prompt;
      hide NoMatch;
      hide Matches;
      created := false;
      var h: nat;
      ghost var spare := NIL;
      if k in flowsHt {
        h := flowsHt[k];
        var found;
        found, fi := SearchLine(k, sig);
        if found {
          return;
        }
        Capacity();
      } else {
        ChainExhausted(flows, flowsHt, htLines, lines, hash, sig);
        Capacity();
        h := OpenLine(k, sig);
        spare := h;
      }
      created := true;
      fi := CreateFlow(k, h, sig, now, spare);
    }

    /** The search of flowtable_update along a chain: the flow it looked at last. */
    method SearchLast(k: nat, sig: Signature) returns (fi: nat)
      requires ChainSide() && k == hash(sig) && k in flowsHt
      ensures fi in flows && flows[fi].sigHash == k
      ensures flows[fi].sig == sig <==> Hit(flows, hash, sig) && !Aliased(flows, hash, sig)
    {
      hide ChainsOk;
      var h := flowsHt[k];
      SearchStart(flows, flowsHt, htLines, lines, hash, k);
      var e := htLines[h].next;
      fi := NIL;
      ghost var i := 0;
      while !IsHead(htLines[e])
        invariant SearchPos(htLines, lines, h, e, i)
        invariant NoMatch(lines.rings[h], i, htLines, flows, sig)
        invariant 0 < i ==> fi in flows && flows[fi].htLineIndex == h && !Matches(flows[fi].sig, sig)
        decreases |lines.rings[h]| - i
      {
        SearchNext(flows, flowsHt, htLines, lines, hash, h, e, i);
        fi := htLines[e].value;
        if Matches(flows[fi].sig, sig) {
          break;
        }
        e := htLines[e].next;
        i := i + 1;
      }
      if IsHead(htLines[e]) {
        ChainExhausted(flows, flowsHt, htLines, lines, hash, sig);
        MatchesSameLength(sig, sig);
      } else {
        FirstMatch(flows, flowsHt, htLines, lines, hash, sig, i, fi);
      }
      ChainKey(flows, flowsHt, htLines, lines, hash, fi);
    }

    /** flowtable_update. The search remembers the last flow it looked at, so when no
        flow of a non-empty chain matches, that last flow is the one updated. */
    method Update(sig: Signature, lifetime: nat, offloaded: nat, context: seq<bv8>)
      returns (rv: int, ghost touched: nat)
      requires Valid() && (lifetime == 0xFFFF || lifetime < 300)
      modifies `flows
      ensures Valid() && (old(UpToDate()) ==> UpToDate())
      ensures forall t0: nat :: old(Steady(t0)) ==> Steady(t0)
      ensures UpdatePromise(old(flows), flows, sig, lifetime, offloaded, context, rv, touched) <==>
              !Aliased(old(flows), hash, sig) && (Hit(old(flows), hash, sig) || hash(sig) !in flowsHt)
      ensures Aliased(old(flows), hash, sig) || (!Hit(old(flows), hash, sig) && hash(sig) in flowsHt) ==>
              WrongUpdate(old(flows), flows, hash, sig, lifetime, offloaded, context, rv, touched)
    {
      hide ChainsOk;
      hide TimersGood;
      hide LateSince;
      hide Numbered;
      hide Prompt;
      hide Matches;
      hide Hit;
      hide Aliased;
      hide UpdatePromise;
      hide WrongUpdate;
      hide HashesOk;
      touched := NIL;
      Unique();
      var k := hash(sig);
      if k !in flowsHt {
        ChainExhausted(flows, flowsHt, htLines, lines, hash, sig);
        UpdateNone(flows, hash, sig, lifetime, offloaded, context, NIL);
        return -1, NIL;
      }
      SearchStart(flows, flowsHt, htLines, lines, hash, k);
      if IsEmpty(htLines, flowsHt[k]) {
        return -1, NIL;
      }
      var fi := SearchLast(k, sig);
      touched := fi;
      var f := Updated(flows[fi], lifetime, offloaded, context);
      ghost var flows' := flows[fi := f];
      UpdateFound(flows, flows', hash, sig, lifetime, offloaded, context, fi);
      ChainsSet(flows, fi, f, flows', flowsHt, htLines, lines, hash);
      TimersGoodSet(flows, fi, f, flows', timers, slots, timerWheel, timeIndex, clock);
      SinceSet(flows, fi, f, flows', slots, timerWheel, timeIndex, clock);
      flows := flows[fi := f];
      rv := 0;
    }

    /** Counts the packet on its flow, and records the receiving interface unless the
        flow is offloaded. */
    method Count(fi: nat, pkt: Packet) returns (offloaded: bool)
      requires Valid() && fi in flows && pkt.Ip?
      modifies `flows
      ensures Valid() && (old(UpToDate()) ==> UpToDate())
      ensures forall t0: nat :: old(Steady(t0)) ==> Steady(t0)
      ensures flows == old(flows)[fi := CountedFlow(old(flows)[fi], pkt)]
      ensures offloaded <==> flows[fi].info.offloaded != 0
    {
      hide ChainsOk;
      hide TimersGood;
      hide LateSince;
      hide Numbered;
      hide Prompt;
      ghost var flows' := flows[fi := CountedFlow(flows[fi], pkt)];
      ChainsSet(flows, fi, flows'[fi], flows', flowsHt, htLines, lines, hash);
      TimersGoodSet(flows, fi, flows'[fi], flows', timers, slots, timerWheel, timeIndex, clock);
      SinceSet(flows, fi, flows'[fi], flows', slots, timerWheel, timeIndex, clock);
      var f := flows[fi];
      if pkt.isReverse {
        f := f.(reverse := (f.reverse + 1) % U32);
      } else {
        f := f.(straight := (f.straight + 1) % U32);
      }
      offloaded := f.info.offloaded != 0;
      if !offloaded {
        f := f.(info := f.info.(swIfIndex := pkt.swIfIndex));
      }
      flows := flows[fi := f];
    }

    /** One IP packet of the node's loop, counted on the flow fi: on the one with its signature
        exactly when no flow of the other address family is taken for it. */
    method HandleIp(pkt: Packet, now: nat) returns (offloaded: bool, ghost fi: nat)
      requires Valid() && timeIndex != NIL && now == clock && pkt.Ip?
      requires Hit(flows, hash, pkt.sig) || flowsCpt <= 0x10_0000
      modifies `flows, `flowsHt, `htLines, `flowsCpt, `timers, `lines, `slots
      ensures Valid() && flowsCpt == old(flowsCpt) + if Hit(old(flows), hash, pkt.sig) then 0 else 1
      ensures old(UpToDate()) ==> UpToDate()
      ensures forall t0: nat :: old(Steady(t0)) ==> Steady(t0)
      ensures TouchedBy(old(flows), flows, hash, pkt, now) && PacketOn(old(flows), flows, pkt, now, fi)
      ensures flows[fi].sig == pkt.sig <==> !Aliased(old(flows), hash, pkt.sig)
      ensures offloaded <==> flows[fi].info.offloaded != 0
    {
      hide ChainsOk;
      hide TimersGood;
      hide LateSince;
      hide Numbered;
      hide Prompt;
      hide LookedUp;
      hide UniqueSigs;
      hide CountedFlow;
      hide TouchedBy;
      hide Hit;
      hide PacketOn;
      hide Aliased;
      ghost var flows0 := flows;
      Unique();
      var flow, created := LookupCreate(hash(pkt.sig), pkt.sig, now);
      fi := flow;
      ghost var flows1 := flows;
      Unique();
      if !created {
        Resched(flow, now);
      }
      offloaded := Count(flow, pkt);
      Unique();
      PacketHandled(flows0, flows1, flows, hash, pkt, now, fi, created);
      PacketCounted(flows0, flows1, flows, hash, pkt, now, fi, created);
    }

    /** flowtable_update for a live flow and then, at any later time, its next packet: the flow
        has the arguments of the update, and lives on for as long as the update said. */
    method UpdateThenPacket(sig: Signature, lifetime: nat, offloaded: nat, context: seq<bv8>, isReverse: bool,
                            swIfIndex: nat, now: nat)
      returns (skips: bool, ghost fi: nat)
      requires Valid() && timeIndex != NIL && clock <= now && (lifetime == 0xFFFF || lifetime < 300)
      requires Hit(flows, hash, sig) && !Aliased(flows, hash, sig)
      modifies `flows, `flowsHt, `htLines, `flowsCpt, `timers, `lines, `slots, `timeIndex, `clock
      ensures Valid() && clock == now
      ensures fi in old(flows) && fi in flows && flows[fi].sig == sig
      ensures flows[fi].lifetime == (if lifetime == 0xFFFF then old(flows)[fi].lifetime else lifetime)
      ensures flows[fi].expire == now + if lifetime == 0xFFFF then old(flows)[fi].lifetime else lifetime
      ensures flows[fi].info.offloaded == offloaded && flows[fi].info.context == context
      ensures flows[fi].info.swIfIndex == if offloaded != 0 then old(flows)[fi].info.swIfIndex else swIfIndex
      ensures skips <==> offloaded != 0
    {
      hide ChainsOk;
      hide TimersGood;
      hide LateSince;
      hide Numbered;
      hide Prompt;
      hide Hit;
      hide Aliased;
      hide TouchedBy;
      hide UniqueSigs;
      ghost var flows0 := flows;
      ghost var touched;
      var rv;
      Unique();
      hide HashesOk;
      rv, touched := Update(sig, lifetime, offloaded, context);
      UpdatedPresent(flows0, flows, hash, sig, lifetime, offloaded, context, rv, touched);
      ghost var flows1 := flows;
      IndexUpdate(now);
      Unique();
      skips, fi := HandleIp(Ip(sig, isReverse, swIfIndex), now);
      Unique();
      SameFlow(flows1, flows, Ip(sig, isReverse, swIfIndex), now, fi, touched);
    }

    /** flowtable_process: the wheel first, then the packets of the frame, then expiry.
        There must be room for the flows that the frame may add. */
    method Process(packets: seq<Packet>, now: nat)
      returns (expired: nat, ghost ts: seq<map<Signature, Entry>>, ghost gone: set<Signature>)
      requires Valid() && (timeIndex != NIL ==> clock <= now)
      requires HasRoom(flowsCpt, Keys(flows), packets, 0)
      modifies this
      ensures Valid() && timeIndex != NIL && clock == now && UniqueSigs(old(flows)) && UniqueSigs(flows)
      ensures old(timeIndex) == NIL || (old(UpToDate()) && now <= old(clock) + 1) ==> UpToDate()
      ensures Steady(now)
      ensures forall t0: nat :: old(Steady(t0)) && now <= old(clock) + 1 ==> Steady(t0)
      ensures (exists t0: nat :: old(Steady(t0)) && now <= old(clock) + 1 && now >= t0 + 299) ==>
                expired == 256 || forall fi :: fi in flows ==> flows[fi].expire > now
      ensures expired == |gone| && ts != [] && ts[0] == Table(old(flows))
      ensures FrameRun(ts, Table(flows), hash, packets, gone, now,
                       old(timeIndex) == NIL || (old(UpToDate()) && now <= old(clock) + 1))
    {
      hide ChainsOk;
      hide TimersGood;
      hide LateSince;
      hide Numbered;
      hide TimersOk;
      hide Prompt;
      hide UniqueSigs;
      hide FrameSoFar;
      hide Table;
      hide FrameRun;
      hide SigsOf;
      hide Expired;
      hide Keys;
      hide NewKeys;
      ghost var flows0 := flows;
      ghost var prompt := timeIndex == NIL || (UpToDate() && now <= clock + 1);
      Unique();
      IndexUpdate(now);
      ts := HandleFrame(packets, now);
      ghost var flows1, indexes, upToDate := flows, {}, UpToDate();
      expired, indexes := Expire(now);
      gone := SigsOf(flows1, indexes);
      FrameEnd(flows0, flows1, flows, hash, packets, now, ts, indexes, upToDate, prompt);
    }

    /** The loop over the packets of a frame. */
    method HandleFrame(packets: seq<Packet>, now: nat) returns (ghost ts: seq<map<Signature, Entry>>)
      requires Valid() && timeIndex != NIL && now == clock && UniqueSigs(flows)
      requires HasRoom(flowsCpt, Keys(flows), packets, 0)
      modifies `flows, `flowsHt, `htLines, `flowsCpt, `timers, `lines, `slots
      ensures Valid() && (old(UpToDate()) ==> UpToDate())
      ensures forall t0: nat :: old(Steady(t0)) ==> Steady(t0)
      ensures FrameSoFar(old(flows), flows, hash, packets, |packets|, now, ts)
    {
      hide ChainsOk;
      hide TimersGood;
      hide LateSince;
      hide Numbered;
      hide TimersOk;
      hide Prompt;
      hide UniqueSigs;
      hide TouchedBy;
      hide PacketOn;
      hide Aliased;
      hide FrameSoFar;
      hide Table;
      hide Keys;
      hide NewKeys;
      hide Hit;
      ghost var flows0 := flows;
      FrameStart(flows, hash, packets, now);
      ts := [Table(flows)];
      var i := 0;
      while i < |packets|
        invariant i <= |packets| && Valid()
        invariant HasRoom(flowsCpt, Keys(flows), packets, i)
        invariant old(UpToDate()) ==> UpToDate()
        invariant forall t0: nat :: old(Steady(t0)) ==> Steady(t0)
        invariant FrameSoFar(flows0, flows, hash, packets, i, now, ts)
      {
        ghost var flows1, cpt := flows, flowsCpt;
        Unique();
        if packets[i].Ip? {
          RoomForOne(flows, hash, flowsCpt, packets, i);
          var offloaded;
          ghost var fi;
          offloaded, fi := HandleIp(packets[i], now);
        }
        RoomStep(flows1, flows, hash, cpt, flowsCpt, packets, i, now);
        FrameStep(flows0, flows1, flows, hash, packets, i, now, ts);
        ts := ts + [Table(flows)];
        i := i + 1;
      }
    }

    /** When the current slot is empty and the clock has not jumped for 299 seconds, no flow
        is overdue. */
    lemma NoneLate()
      requires Valid() && timeIndex != NIL && timeIndex < |timerWheel|
      requires timerWheel[timeIndex] in slots.rings && slots.rings[timerWheel[timeIndex]] == []
      ensures forall t0: nat :: Steady(t0) && clock >= t0 + 299 ==>
                forall fi :: fi in flows ==> flows[fi].expire > clock
    {
      hide ChainsOk;
      hide TimersGood;
      hide LateSince;
      hide Numbered;
      forall t0: nat | Steady(t0) && clock >= t0 + 299
        ensures forall fi :: fi in flows ==> flows[fi].expire > clock {
        NothingLateSince(flows, timers, slots, timerWheel, timeIndex, clock, t0);
      }
    }

    /** Once the clock has moved by at most a second a frame for 299 seconds, every overdue
        flow is in the current slot again, whatever jump came before. */
    lemma Recovered(t0: nat, fi: nat)
      requires Valid() && Steady(t0) && clock >= t0 + 299 && fi in flows && flows[fi].expire <= clock
      ensures timeIndex < |timerWheel| && InSlot(flows[fi], slots, timerWheel[timeIndex])
    {
      hide ChainsOk;
      TurnIndexes(flows, timers, slots, timerWheel, timeIndex, clock);
      hide TimersGood;
      hide Late;
      CaughtUp(flows, slots, timerWheel, timeIndex, clock, fi);
    }

    lemma Unique()
      requires Valid()
      ensures UniqueSigs(flows) && HashesOk(flows, hash)
    {
      hide ChainsOk;
      hide TimersGood;
      hide LateSince;
      hide Numbered;
      hide TimersOk;
      SignaturesUnique(flows, flowsHt, htLines, lines, hash);
      HashesStored(flows, flowsHt, htLines, lines, hash);
    }

    /** The pools hold exactly what the live flows need: 300 slot heads and one timer
        element a flow, one chain head a hash and one chain element a flow. */
    lemma Census()
      requires Valid()
      ensures |timers| == 300 + |flows| && flowsCpt == |flows|
      ensures |htLines| == |flowsHt| + |flows|
    {
      hide ChainsOk;
      LinesCount(flows, flowsHt, htLines, lines, hash);
      hide TimersOk;
      TimerPart(flows, timers, slots, timerWheel, timeIndex, clock);
      hide TimersGood;
      hide LateSince;
      hide Numbered;
      TimersCount(flows, timers, slots, timerWheel);
    }

    /** Every live flow sits on exactly one chain, that of its hash, and on exactly one slot
        of the wheel, that of its deadline until it is due. */
    lemma Places(fi: nat)
      requires Valid() && fi in flows
      ensures OnlyChain(flows[fi], fi, flowsHt, htLines, lines, hash)
      ensures exists i: nat :: OnlySlot(flows[fi], fi, timers, slots, timerWheel, i) &&
                (timeIndex != NIL && flows[fi].expire > clock ==> i == flows[fi].expire % 300)
    {
      hide ChainsOk;
      TimerPart(flows, timers, slots, timerWheel, timeIndex, clock);
      hide TimersOk;
      hide TimersGood;
      hide LateSince;
      hide Numbered;
      OneChain(flows, fi, flowsHt, htLines, lines, hash);
      OneSlot(flows, fi, timers, slots, timerWheel, timeIndex, clock);
    }

    lemma Capacity()
      requires Valid() && flowsCpt <= FM_POOL_COUNT && timeIndex != NIL
      ensures |htLines.Keys| <= 2 * FM_POOL_COUNT && |timers.Keys| <= FM_POOL_COUNT + TIMER_MAX_LIFETIME
    {
      hide ChainsOk;
      LinesCount(flows, flowsHt, htLines, lines, hash);
      TurnIndexes(flows, timers, slots, timerWheel, timeIndex, clock);
      hide TimersGood;
      hide LateSince;
      hide Numbered;
      TimersCount(flows, timers, slots, timerWheel);
      assert |htLines.Keys| == |htLines| && |timers.Keys| == |timers|;
    }
  }

  lemma CountOneMore(flows: Flows, flows': Flows, fi: nat)
    requires fi !in flows && flows'.Keys == flows.Keys + {fi}
    ensures |flows'| == |flows| + 1
  {
    assert |flows'.Keys| == |flows'| && |flows.Keys| == |flows|;
  }

  lemma TimerPart(flows: Flows, p: Pool, sh: Shape, wheel: seq<nat>, ti: nat, now: nat)
    ensures TimersGood(flows, p, sh, wheel, ti, now) ==> TimersOk(flows, p, sh, wheel)
  {
  }

  /** The flow's chain element is on the chain the bihash gives for its hash, and no other. */
  ghost predicate OnlyChain(f: Flow, fi: nat, ht: map<nat, nat>, p: Pool, sh: Shape, hash: Signature -> nat) {
    && f.sigHash == hash(f.sig) && f.sigHash in ht && ht[f.sigHash] == f.htLineIndex
    && f.htIndex in p && p[f.htIndex].value == fi
    && f.htLineIndex in sh.rings
    && forall h :: h in sh.rings ==> (f.htIndex in sh.rings[h] <==> h == f.htLineIndex)
  }

  /** The flow's timer element is on slot i of the wheel, and no other. */
  ghost predicate OnlySlot(f: Flow, fi: nat, p: Pool, sh: Shape, wheel: seq<nat>, i: nat) {
    && i < |wheel| && f.timerIndex in p && p[f.timerIndex].value == fi
    && (forall j :: 0 <= j < |wheel| ==> wheel[j] in sh.rings)
    && forall j :: 0 <= j < |wheel| ==> (f.timerIndex in sh.rings[wheel[j]] <==> j == i)
  }

  lemma OneChain(flows: Flows, fi: nat, ht: map<nat, nat>, p: Pool, sh: Shape, hash: Signature -> nat)
    requires ChainsOk(flows, ht, p, sh, hash, NIL) && fi in flows
    ensures OnlyChain(flows[fi], fi, ht, p, sh, hash)
  {
    hide AllUnshadowed;
    hide AllLinked;
    assert OnChain(fi, flows[fi], ht, p, sh, hash);
    forall h | h in sh.rings ensures flows[fi].htIndex in sh.rings[h] <==> h == flows[fi].htLineIndex {
      assert Covers(sh.rings[h], sh.own, h);
    }
  }

  lemma OneSlot(flows: Flows, fi: nat, p: Pool, sh: Shape, wheel: seq<nat>, ti: nat, now: nat)
    requires TimersOk(flows, p, sh, wheel) && fi in flows
    ensures exists i: nat :: OnlySlot(flows[fi], fi, p, sh, wheel, i) &&
              (TimersGood(flows, p, sh, wheel, ti, now) && flows[fi].expire > now ==>
                 i == flows[fi].expire % 300)
  {
    hide AllLinked;
    var f := flows[fi];
    assert OnTimer(fi, f, p, sh);
    var h := sh.own[f.timerIndex];
    var i: nat :| i < |wheel| && wheel[i] == h;
    forall j | 0 <= j < |wheel| ensures f.timerIndex in sh.rings[wheel[j]] <==> j == i {
      assert Covers(sh.rings[wheel[j]], sh.own, wheel[j]);
    }
    assert OnlySlot(f, fi, p, sh, wheel, i);
    if TimersGood(flows, p, sh, wheel, ti, now) && f.expire > now {
      assert Ahead(f, sh, wheel, now);
    }
  }

  /** After the index update: no lag is counted from before a jump, and without one it goes on. */
  lemma SinceUpdate(flows: Flows, p: Pool, sh: Shape, sh': Shape, q: Pool, wheel: seq<nat>, ti: nat, ti': nat,
                    now: nat, now': nat)
    requires TimersGood(flows, p, sh, wheel, ti, now) && TimersGood(flows, q, sh', wheel, ti', now') && now <= now'
    requires ti < TIMER_MAX_LIFETIME && ti' == now' % TIMER_MAX_LIFETIME && |wheel| == TIMER_MAX_LIFETIME
    requires ti' == ti ==> sh' == sh
    requires ti' != ti ==>
               && wheel[ti] in sh.rings && wheel[ti'] in sh.rings && wheel[ti] != wheel[ti']
               && sh' == if sh.rings[wheel[ti]] == [] then sh else SpliceShape(sh, wheel[ti], wheel[ti'])
    ensures LateSince(flows, sh', wheel, ti', now', now')
    ensures now' <= now + 1 ==>
              forall t0: nat :: LateSince(flows, sh, wheel, ti, now, t0) ==> LateSince(flows, sh', wheel, ti', now', t0)
  {
    hide TimersGood;
    hide LateSince;
    hide SpliceShape;
    SinceNow(flows, q, sh', wheel, ti', now');
    if now' <= now + 1 {
      SinceTurn(flows, p, sh, sh', wheel, ti, ti', now, now');
    }
  }
}
