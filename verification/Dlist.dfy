/** Doubly linked lists threaded through an index pool, as in VPP's dlist.h.
    A list is a circle through a head element whose value is NIL; a head whose
    next is NIL (freshly initialised) or itself (emptied by removals) is empty. */
module Dlist {

  /** The all-ones u32 that marks heads and absent links. */
  const NIL: nat := 0xFFFF_FFFF

  datatype Elt = Elt(next: nat, prev: nat, value: nat)

  type Pool = map<nat, Elt>

  /** What the links mean: the members of each list in order, by head, and the
      head that owns each member. */
  datatype Shape = Shape(rings: map<nat, seq<nat>>, own: map<nat, nat>)

  predicate IsHead(e: Elt) {
    e.value == NIL
  }

  predicate IsEmpty(p: Pool, h: nat)
    requires h in p
  {
    p[h].next == NIL || p[h].next == h
  }

  /** clib_dlist_init: every field all-ones. */
  function Init(p: Pool, h: nat): Pool {
    p[h := Elt(NIL, NIL, NIL)]
  }

  /** clib_dlist_addtail. */
  function AddTail(p: Pool, h: nat, n: nat): Pool
    requires h in p && n in p && h != n
    requires p[h].next != NIL ==> p[h].prev in p
  {
    if p[h].next == NIL then
      p[h := p[h].(next := n, prev := n)][n := p[n].(next := h, prev := h)]
    else
      var last := p[h].prev;
      var p1 := p[n := p[n].(next := p[last].next, prev := last)];
      var p2 := p1[last := p1[last].(next := n)];
      p2[h := p2[h].(prev := n)]
  }

  /** clib_dlist_addhead. */
  function AddHead(p: Pool, h: nat, n: nat): Pool
    requires h in p && n in p && h != n
    requires p[h].next != NIL ==> p[h].next in p
  {
    if p[h].next == NIL then
      p[h := p[h].(next := n, prev := n)][n := p[n].(next := h, prev := h)]
    else
      var first := p[h].next;
      var p1 := p[n := p[n].(next := first, prev := p[first].prev)];
      var p2 := p1[first := p1[first].(prev := n)];
      p2[h := p2[h].(next := n)]
  }

  /** clib_dlist_remove: unlinks e, which stays in the pool with dead links. */
  function Remove(p: Pool, e: nat): Pool
    requires e in p && p[e].next in p && p[e].prev in p
  {
    var nx, pv := p[e].next, p[e].prev;
    var p1 := p[nx := p[nx].(prev := pv)];
    var p2 := p1[pv := p1[pv].(next := nx)];
    p2[e := p2[e].(next := NIL, prev := NIL)]
  }

  /** The links of the i-th member of the list s at h. */
  ghost predicate LinkAt(p: Pool, h: nat, s: seq<nat>, i: nat)
    requires i < |s|
  {
    && s[i] in p
    && p[s[i]].next == (if i + 1 < |s| then s[i + 1] else h)
    && p[s[i]].prev == (if 0 < i then s[i - 1] else h)
  }

  /** The members of the list at h are exactly s, in this order. */
  ghost predicate Linked(p: Pool, h: nat, s: seq<nat>) {
    && h in p && p[h].value == NIL && h < NIL
    && h !in s
    && (forall i :: 0 <= i < |s| ==> s[i] in p && p[s[i]].value != NIL && s[i] < NIL)
    && (forall i, j :: 0 <= i < j < |s| ==> s[i] != s[j])
    && (forall i :: 0 <= i < |s| ==> LinkAt(p, h, s, i))
    && (if s == [] then
          (p[h].next == NIL && p[h].prev == NIL) || (p[h].next == h && p[h].prev == h)
        else
          p[h].next == s[0] && p[h].prev == s[|s| - 1])
  }

  /** The elements of s are exactly those that own assigns to h. */
  ghost predicate Covers(s: seq<nat>, own: map<nat, nat>, h: nat) {
    forall x :: x in s <==> x in own && own[x] == h
  }

  /** own tells, for exactly the members, the one list each is on. */
  ghost predicate Owned(sh: Shape) {
    && (forall h :: h in sh.rings ==> Covers(sh.rings[h], sh.own, h) && h !in sh.own)
    && (forall x :: x in sh.own ==> sh.own[x] in sh.rings)
  }

  ghost predicate AllLinked(p: Pool, rings: map<nat, seq<nat>>) {
    forall h :: h in rings ==> Linked(p, h, rings[h])
  }

  /** The pool consists of disjoint well-formed lists and nothing else. */
  ghost predicate WellFormed(p: Pool, sh: Shape) {
    && AllLinked(p, sh.rings)
    && Owned(sh)
    && (forall x :: x in p <==> x in sh.rings || x in sh.own)
  }

  function Without(s: seq<nat>, e: nat): (r: seq<nat>)
    ensures e !in r
    ensures forall x :: x in r <==> x in s && x != e
  {
    if s == [] then [] else if s[0] == e then Without(s[1..], e) else [s[0]] + Without(s[1..], e)
  }

  lemma {:induction false} WithoutAt(s: seq<nat>, k: nat)
    requires k < |s|
    requires forall i, j :: 0 <= i < j < |s| ==> s[i] != s[j]
    ensures Without(s, s[k]) == s[..k] + s[k + 1..]
  {
    if k == 0 {
      WithoutAbsent(s[1..], s[0]);
      assert s[..0] + s[1..] == s[1..];
    } else {
      assert s[1..][k - 1] == s[k];
      WithoutAt(s[1..], k - 1);
      assert [s[0]] + (s[1..][..k - 1] + s[1..][k..]) == s[..k] + s[k + 1..];
    }
  }

  lemma {:induction false} WithoutAbsent(s: seq<nat>, e: nat)
    requires e !in s
    ensures Without(s, e) == s
  {
    if s != [] {
      WithoutAbsent(s[1..], e);
      assert [s[0]] + s[1..] == s;
    }
  }

  // ---------- what each operation does to the lists ----------

  lemma LinkedFacts(p: Pool, h: nat, s: seq<nat>)
    requires Linked(p, h, s)
    ensures h in p && h < NIL && h !in s && p[h].value == NIL
    ensures forall x :: x in s ==> x in p && x < NIL && p[x].value != NIL
    ensures p[h].next != NIL ==> p[h].next in p && p[h].prev in p
  {
    if s != [] {
      assert s[0] in p && s[|s| - 1] in p;
    }
  }

  lemma LinkedFrame(p: Pool, q: Pool, h: nat, s: seq<nat>)
    requires Linked(p, h, s)
    requires h in q && q[h] == p[h]
    requires forall i :: 0 <= i < |s| ==> s[i] in q && q[s[i]] == p[s[i]]
    ensures Linked(q, h, s)
  {
    forall i | 0 <= i < |s| ensures LinkAt(q, h, s, i) {
      assert LinkAt(p, h, s, i);
    }
  }

  /** q holds the same elements as p with the same values, and changed links
      only on the heads a and b and on elements of s and t. */
  ghost predicate Relinked(p: Pool, q: Pool, a: nat, s: seq<nat>, b: nat, t: seq<nat>) {
    && q.Keys == p.Keys
    && (forall e :: e in p ==> q[e].value == p[e].value)
    && (forall e :: e in p && e != a && e != b && e !in s && e !in t ==> q[e] == p[e])
  }

  lemma LinkedAddTail(p: Pool, h: nat, s: seq<nat>, n: nat)
    requires Linked(p, h, s) && n in p && n != h && n !in s && p[n].value != NIL && n < NIL
    ensures p[h].next != NIL ==> p[h].prev in p
    ensures Linked(AddTail(p, h, n), h, s + [n])
    ensures Relinked(p, AddTail(p, h, n), h, s, n, [])
  {
    if s != [] {
      assert LinkAt(p, h, s, |s| - 1);
      var q, r := AddTail(p, h, n), s + [n];
      forall i | 0 <= i < |r| ensures LinkAt(q, h, r, i) {
        if i < |s| {
          assert LinkAt(p, h, s, i);
        }
      }
    }
  }

  lemma LinkedAddHead(p: Pool, h: nat, s: seq<nat>, n: nat)
    requires Linked(p, h, s) && n in p && n != h && n !in s && p[n].value != NIL && n < NIL
    ensures p[h].next != NIL ==> p[h].next in p
    ensures Linked(AddHead(p, h, n), h, [n] + s)
    ensures Relinked(p, AddHead(p, h, n), h, s, n, [])
  {
    if s != [] {
      assert LinkAt(p, h, s, 0);
      var q, r := AddHead(p, h, n), [n] + s;
      forall i | 0 <= i < |r| ensures LinkAt(q, h, r, i) {
        if 0 < i {
          assert LinkAt(p, h, s, i - 1);
        }
      }
    }
  }

  lemma RemoveTouches(p: Pool, h: nat, s: seq<nat>, k: nat)
    requires Linked(p, h, s) && k < |s|
    ensures s[k] in p && p[s[k]].next in p && p[s[k]].prev in p
    ensures Relinked(p, Remove(p, s[k]), h, s, h, s)
  {
    assert LinkAt(p, h, s, k);
    assert s[k] in s && (0 < k ==> s[k - 1] in s) && (k + 1 < |s| ==> s[k + 1] in s);
  }

  lemma LinkedRemove(p: Pool, h: nat, s: seq<nat>, k: nat)
    requires Linked(p, h, s) && k < |s|
    requires p[s[k]].next in p && p[s[k]].prev in p
    ensures Linked(Remove(p, s[k]), h, s[..k] + s[k + 1..])
  {
    var q, r := Remove(p, s[k]), s[..k] + s[k + 1..];
    forall i | 0 <= i < |r| ensures LinkAt(q, h, r, i) {
      LinkAtRemove(p, h, s, k, i);
    }
    assert LinkAt(p, h, s, k);
  }

  lemma LinkAtRemove(p: Pool, h: nat, s: seq<nat>, k: nat, i: nat)
    requires Linked(p, h, s) && k < |s| && i < |s| - 1
    requires p[s[k]].next in p && p[s[k]].prev in p
    ensures LinkAt(Remove(p, s[k]), h, s[..k] + s[k + 1..], i)
  {
    assert LinkAt(p, h, s, k);
    assert LinkAt(p, h, s, if i < k then i else i + 1);
  }

  lemma LinkedRemoveElt(p: Pool, h: nat, s: seq<nat>, e: nat)
    requires Linked(p, h, s) && e in s
    ensures e in p && p[e].next in p && p[e].prev in p && e < NIL && p[e].value != NIL
    ensures Linked(Remove(p, e), h, Without(s, e))
    ensures Relinked(p, Remove(p, e), h, s, h, s)
  {
    hide Remove;
    var k :| 0 <= k < |s| && s[k] == e;
    RemoveTouches(p, h, s, k);
    LinkedRemove(p, h, s, k);
    WithoutAt(s, k);
  }

  /** Moves the non-empty list at c in front of the list at n and empties c: the
      pointer surgery of timer_wheel_index_update. */
  function Splice(p: Pool, c: nat, n: nat): Pool
    requires c in p && n in p && p[c].prev in p && p[c].next in p
    requires !IsEmpty(p, n) ==> p[n].next in p
  {
    var first, last := p[c].next, p[c].prev;
    if IsEmpty(p, n) then
      var p1 := p[n := p[n].(next := p[c].next)];
      var p2 := p1[n := p1[n].(prev := p1[c].prev)];
      var p3 := p2[last := p2[last].(next := n)];
      var p4 := p3[first := p3[first].(prev := n)];
      Init(p4, c)
    else
      var front := p[n].next;
      var p1 := p[last := p[last].(next := p[n].next)];
      var p2 := p1[n := p1[n].(next := p1[c].next)];
      var p3 := p2[front := p2[front].(prev := p2[c].prev)];
      var p4 := p3[first := p3[first].(prev := n)];
      Init(p4, c)
  }

  lemma SpliceTouches(p: Pool, c: nat, s: seq<nat>, n: nat, t: seq<nat>)
    requires Linked(p, c, s) && Linked(p, n, t) && c != n && s != []
    ensures p[c].next == s[0] && p[c].prev == s[|s| - 1] && s[0] in p && s[|s| - 1] in p
    ensures IsEmpty(p, n) <==> t == []
    ensures t != [] ==> p[n].next == t[0] && t[0] in p
  {
    assert s[0] in p && s[|s| - 1] in p;
    assert t != [] ==> t[0] in t && t[0] in p;
  }

  lemma LinkAtSplice(p: Pool, c: nat, s: seq<nat>, n: nat, t: seq<nat>, i: nat)
    requires Linked(p, c, s) && Linked(p, n, t) && c != n && s != []
    requires c !in t && n !in s
    requires forall x :: x in s ==> x !in t
    requires i < |s + t|
    requires p[c].prev in p && p[c].next in p && (!IsEmpty(p, n) ==> p[n].next in p)
    ensures LinkAt(Splice(p, c, n), n, s + t, i)
  {
    SpliceTouches(p, c, s, n, t);
    if i < |s| {
      assert LinkAt(p, c, s, i);
      assert s[i] in s;
    } else {
      assert LinkAt(p, n, t, i - |s|);
      assert t[i - |s|] in t && s[0] in s && s[|s| - 1] in s;
      assert (s + t)[i] == t[i - |s|];
    }
  }

  lemma LinkedSplice(p: Pool, c: nat, s: seq<nat>, n: nat, t: seq<nat>)
    requires Linked(p, c, s) && Linked(p, n, t) && c != n && s != []
    requires c !in t && n !in s
    requires forall x :: x in s ==> x !in t
    ensures p[c].prev in p && p[c].next in p && (!IsEmpty(p, n) ==> p[n].next in p)
    ensures Linked(Splice(p, c, n), n, s + t)
    ensures Linked(Splice(p, c, n), c, [])
    ensures Relinked(p, Splice(p, c, n), c, s, n, t)
  {
    SpliceTouches(p, c, s, n, t);
    var q, r := Splice(p, c, n), s + t;
    assert Relinked(p, q, c, s, n, t) by {
      assert s[0] in s && s[|s| - 1] in s && (t != [] ==> t[0] in t);
    }
    forall i | 0 <= i < |r| ensures LinkAt(q, n, r, i) {
      LinkAtSplice(p, c, s, n, t, i);
    }
    forall i, j | 0 <= i < j < |r| ensures r[i] != r[j] {
      assert i < |s| <= j ==> s[i] in s && t[j - |s|] in t;
    }
  }

  // ---------- the same on whole pools ----------

  function TailShape(sh: Shape, h: nat, n: nat): Shape
    requires h in sh.rings
  {
    Shape(sh.rings[h := sh.rings[h] + [n]], sh.own[n := h])
  }

  function HeadShape(sh: Shape, h: nat, n: nat): Shape
    requires h in sh.rings
  {
    Shape(sh.rings[h := [n] + sh.rings[h]], sh.own[n := h])
  }

  function DropShape(sh: Shape, e: nat): Shape
    requires e in sh.own && sh.own[e] in sh.rings
  {
    Shape(sh.rings[sh.own[e] := Without(sh.rings[sh.own[e]], e)], sh.own - {e})
  }

  function SpliceShape(sh: Shape, c: nat, n: nat): Shape
    requires c in sh.rings && n in sh.rings
  {
    Shape(sh.rings[n := sh.rings[c] + sh.rings[n]][c := []],
          map e | e in sh.own :: if sh.own[e] == c then n else sh.own[e])
  }

  lemma CoversAdd(sh: Shape, h: nat, n: nat)
    requires Owned(sh) && h in sh.rings && n !in sh.own && n !in sh.rings
    ensures Owned(TailShape(sh, h, n)) && Owned(HeadShape(sh, h, n))
  {
    forall g | g in sh.rings
      ensures Covers(TailShape(sh, h, n).rings[g], sh.own[n := h], g)
      ensures Covers(HeadShape(sh, h, n).rings[g], sh.own[n := h], g)
    {
      assert Covers(sh.rings[g], sh.own, g);
    }
  }

  lemma CoversDrop(sh: Shape, e: nat)
    requires Owned(sh) && e in sh.own
    ensures Owned(DropShape(sh, e))
  {
    var d := DropShape(sh, e);
    forall g | g in d.rings ensures Covers(d.rings[g], d.own, g) {
      assert Covers(sh.rings[g], sh.own, g);
    }
  }

  lemma CoversSplice(sh: Shape, c: nat, n: nat)
    requires Owned(sh) && c in sh.rings && n in sh.rings && c != n
    ensures Owned(SpliceShape(sh, c, n))
  {
    var d := SpliceShape(sh, c, n);
    assert Covers(sh.rings[c], sh.own, c) && Covers(sh.rings[n], sh.own, n);
    forall g | g in d.rings ensures Covers(d.rings[g], d.own, g) {
      assert Covers(sh.rings[g], sh.own, g);
    }
  }

  /** Lists that share no element with the changed ones stay as they were. */
  lemma RestLinked(p: Pool, q: Pool, sh: Shape, rings: map<nat, seq<nat>>, a: nat, s: seq<nat>, b: nat, t: seq<nat>)
    requires AllLinked(p, sh.rings) && Owned(sh)
    requires Covers(s, sh.own, a) && Covers(t, sh.own, b)
    requires Relinked(p, q, a, s, b, t)
    requires forall h :: h in rings && (h == a || h == b) ==> Linked(q, h, rings[h])
    requires forall h :: h in rings && h != a && h != b ==> h in sh.rings && rings[h] == sh.rings[h]
    requires a !in sh.own && b !in sh.own
    ensures AllLinked(q, rings)
  {
    hide Linked;
    forall h | h in rings ensures Linked(q, h, rings[h]) {
      if h != a && h != b {
        assert Covers(sh.rings[h], sh.own, h);
        LinkedFacts(p, h, sh.rings[h]);
        LinkedFrame(p, q, h, sh.rings[h]);
      }
    }
  }

  lemma ExtendLinked(p: Pool, rings: map<nat, seq<nat>>, n: nat, elt: Elt)
    requires AllLinked(p, rings) && n !in p
    ensures AllLinked(p[n := elt], rings)
  {
    hide Linked;
    forall h | h in rings ensures Linked(p[n := elt], h, rings[h]) {
      LinkedFacts(p, h, rings[h]);
      LinkedFrame(p, p[n := elt], h, rings[h]);
    }
  }

  lemma TailRings(sh: Shape, h: nat, n: nat)
    requires h in sh.rings
    ensures var d := TailShape(sh, h, n);
      && d.rings.Keys == sh.rings.Keys && d.own.Keys == sh.own.Keys + {n}
      && d.rings[h] == sh.rings[h] + [n]
      && forall g :: g in d.rings && g != h ==> d.rings[g] == sh.rings[g]
  {
  }

  lemma AddTailPool(p: Pool, sh: Shape, h: nat, n: nat, elt: Elt)
    requires WellFormed(p, sh) && h in sh.rings && n !in p && n < NIL && elt.value != NIL
    ensures p[h].next != NIL ==> p[h].prev in p
    ensures WellFormed(AddTail(p[n := elt], h, n), TailShape(sh, h, n))
    ensures Relinked(p[n := elt], AddTail(p[n := elt], h, n), h, sh.rings[h], n, [])
  {
    hide Linked;
    hide AddTail;
    hide TailShape;
    var p1, s := p[n := elt], sh.rings[h];
    assert Covers(s, sh.own, h) && Covers([], sh.own, n);
    LinkedFacts(p, h, s);
    CoversAdd(sh, h, n);
    TailRings(sh, h, n);
    ExtendLinked(p, sh.rings, n, elt);
    LinkedAddTail(p1, h, s, n);
    hide Covers;
    hide Owned;
    RestLinked(p1, AddTail(p1, h, n), sh, TailShape(sh, h, n).rings, h, s, n, []);
  }

  lemma AddHeadPool(p: Pool, sh: Shape, h: nat, n: nat, elt: Elt)
    requires WellFormed(p, sh) && h in sh.rings && n !in p && n < NIL && elt.value != NIL
    ensures p[h].next != NIL ==> p[h].next in p
    ensures WellFormed(AddHead(p[n := elt], h, n), HeadShape(sh, h, n))
    ensures Relinked(p[n := elt], AddHead(p[n := elt], h, n), h, sh.rings[h], n, [])
  {
    hide Linked;
    hide AddHead;
    var p1, s, sh' := p[n := elt], sh.rings[h], HeadShape(sh, h, n);
    assert Covers(s, sh.own, h) && Covers([], sh.own, n);
    LinkedFacts(p, h, s);
    assert Owned(sh') by {
      CoversAdd(sh, h, n);
    }
    assert AllLinked(p1, sh.rings) by {
      ExtendLinked(p, sh.rings, n, elt);
    }
    LinkedAddHead(p1, h, s, n);
    var q := AddHead(p1, h, n);
    assert AllLinked(q, sh'.rings) by {
      hide Covers;
      RestLinked(p1, q, sh, sh'.rings, h, s, n, []);
    }
  }

  lemma InitPool(p: Pool, sh: Shape, h: nat)
    requires WellFormed(p, sh) && h !in p && h < NIL
    ensures WellFormed(Init(p, h), Shape(sh.rings[h := []], sh.own))
  {
    var q, sh' := Init(p, h), Shape(sh.rings[h := []], sh.own);
    assert AllLinked(q, sh'.rings) by {
      ExtendLinked(p, sh.rings, h, Elt(NIL, NIL, NIL));
      assert Linked(q, h, []);
    }
    assert Owned(sh') by {
      forall g | g in sh'.rings ensures Covers(sh'.rings[g], sh'.own, g) {
        assert g != h ==> Covers(sh.rings[g], sh.own, g);
      }
    }
  }

  lemma DropHeadPool(p: Pool, sh: Shape, h: nat)
    requires WellFormed(p, sh) && h in sh.rings && sh.rings[h] == []
    ensures WellFormed(p - {h}, Shape(sh.rings - {h}, sh.own))
  {
    hide Linked;
    assert Covers(sh.rings[h], sh.own, h);
    forall g | g in sh.rings && g != h ensures Linked(p - {h}, g, sh.rings[g]) {
      assert Covers(sh.rings[g], sh.own, g);
      LinkedFacts(p, g, sh.rings[g]);
      LinkedFrame(p, p - {h}, g, sh.rings[g]);
    }
  }

  /** Unlinking a member and returning it to the pool removes exactly that member. */
  lemma RemovePool(p: Pool, sh: Shape, e: nat)
    requires WellFormed(p, sh) && e in sh.own
    ensures e in p && p[e].next in p && p[e].prev in p && e < NIL && p[e].value != NIL
    ensures WellFormed(Remove(p, e) - {e}, DropShape(sh, e))
    ensures Relinked(p, Remove(p, e), sh.own[e], sh.rings[sh.own[e]], sh.own[e], sh.rings[sh.own[e]])
  {
    hide Linked;
    hide Remove;
    var h, sh' := sh.own[e], DropShape(sh, e);
    var s := sh.rings[h];
    assert Covers(s, sh.own, h);
    LinkedRemoveElt(p, h, s, e);
    var q := Remove(p, e);
    assert Owned(sh') by {
      CoversDrop(sh, e);
    }
    assert AllLinked(q - {e}, sh'.rings) by {
      hide Covers;
      RestLinked(p, q, sh, sh'.rings, h, s, h, s);
      ShrinkLinked(q, sh', e);
    }
  }

  lemma ShrinkLinked(q: Pool, sh: Shape, e: nat)
    requires AllLinked(q, sh.rings) && Owned(sh) && e !in sh.own && e !in sh.rings
    ensures AllLinked(q - {e}, sh.rings)
  {
    hide Linked;
    forall g | g in sh.rings ensures Linked(q - {e}, g, sh.rings[g]) {
      assert Covers(sh.rings[g], sh.own, g);
      LinkedFacts(q, g, sh.rings[g]);
      LinkedFrame(q, q - {e}, g, sh.rings[g]);
    }
  }

  lemma SplicePool(p: Pool, sh: Shape, c: nat, n: nat)
    requires WellFormed(p, sh) && c in sh.rings && n in sh.rings && c != n && sh.rings[c] != []
    ensures p[c].prev in p && p[c].next in p && (!IsEmpty(p, n) ==> p[n].next in p)
    ensures WellFormed(Splice(p, c, n), SpliceShape(sh, c, n))
    ensures Relinked(p, Splice(p, c, n), c, sh.rings[c], n, sh.rings[n])
  {
    hide Linked;
    hide Splice;
    hide SpliceShape;
    hide IsEmpty;
    var s, t := sh.rings[c], sh.rings[n];
    assert Covers(s, sh.own, c) && Covers(t, sh.own, n);
    LinkedSplice(p, c, s, n, t);
    CoversSplice(sh, c, n);
    SpliceRings(sh, c, n);
    hide Covers;
    hide Owned;
    RestLinked(p, Splice(p, c, n), sh, SpliceShape(sh, c, n).rings, c, s, n, t);
  }

  lemma SpliceRings(sh: Shape, c: nat, n: nat)
    requires c in sh.rings && n in sh.rings && c != n
    ensures var d := SpliceShape(sh, c, n);
      && d.rings.Keys == sh.rings.Keys && d.own.Keys == sh.own.Keys
      && d.rings[c] == [] && d.rings[n] == sh.rings[c] + sh.rings[n]
      && forall h :: h in d.rings && h != c && h != n ==> d.rings[h] == sh.rings[h]
  {
  }

  /** The empty test of the code is exact on a well-formed pool. */
  lemma EmptyExact(p: Pool, sh: Shape, h: nat)
    requires WellFormed(p, sh) && h in sh.rings
    ensures h in p
    ensures IsEmpty(p, h) <==> sh.rings[h] == []
  {
    var s := sh.rings[h];
    assert Linked(p, h, s);
    if s != [] {
      assert s[0] in s;
    }
  }

  /** Following next from a member meets the following member, then the head. */
  lemma NextOf(p: Pool, sh: Shape, h: nat, k: nat)
    requires WellFormed(p, sh) && h in sh.rings && k < |sh.rings[h]|
    ensures sh.rings[h][k] in p
    ensures p[sh.rings[h][k]].next == if k + 1 < |sh.rings[h]| then sh.rings[h][k + 1] else h
  {
    assert Linked(p, h, sh.rings[h]);
    assert LinkAt(p, h, sh.rings[h], k);
  }
}
