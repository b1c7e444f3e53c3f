/** Receiving from a tap interface in batches: buffers offered to the kernel, packet
    chains built from the ones it filled, unused ones put back (turbotap/node.c). */
module Turbotap {

  const MAX_RECV: nat := 256
  const NEXT_DROP: nat := 3
  const FRAME_SIZE: nat := 256

  /** The fields of a buffer header that the receive path writes. */
  datatype Header = Header(
    currentLength: nat, totalNotFirst: nat, totalValid: bool, nextPresent: bool, nextBuffer: nat)

  type Headers = map<nat, Header>

  /** The n buffers popped from the first len elements of the stack, in popping order. */
  function Top(stack: seq<nat>, len: nat, n: nat): (r: seq<nat>)
    requires n <= len <= |stack|
    ensures |r| == n
    ensures forall k :: 0 <= k < n ==> r[k] == stack[len - 1 - k]
  {
    seq(n, k requires 0 <= k < n => stack[len - 1 - k])
  }

  ghost predicate Distinct(s: seq<nat>) {
    forall i, j :: 0 <= i < j < |s| ==> s[i] != s[j]
  }

  /** The chain s carries put bytes: all buffers but the last are full, the links follow
      s, and the first buffer counts the bytes behind it. */
  ghost predicate Carries(h: Headers, s: seq<nat>, put: nat, bufferSize: nat) {
    && s != []
    && (forall k :: 0 <= k < |s| ==> s[k] in h)
    && (forall k :: 0 <= k < |s| - 1 ==>
          h[s[k]].currentLength == bufferSize && h[s[k]].nextPresent && h[s[k]].nextBuffer == s[k + 1])
    && 0 < h[s[|s| - 1]].currentLength <= bufferSize && !h[s[|s| - 1]].nextPresent
    && put == (|s| - 1) * bufferSize + h[s[|s| - 1]].currentLength
    && h[s[0]].totalValid && h[s[0]].totalNotFirst == put - h[s[0]].currentLength
  }

  function SumLengths(h: Headers, s: seq<nat>): nat
    requires forall b :: b in s ==> b in h
  {
    if s == [] then 0 else h[s[0]].currentLength + SumLengths(h, s[1..])
  }

  /** Following the links of at most fuel buffers from b. */
  function Walk(h: Headers, b: nat, fuel: nat): seq<nat>
    decreases fuel
  {
    if fuel == 0 || b !in h then []
    else [b] + if h[b].nextPresent then Walk(h, h[b].nextBuffer, fuel - 1) else []
  }

  lemma {:induction false} FullSum(h: Headers, s: seq<nat>, bufferSize: nat)
    requires s != [] && forall b :: b in s ==> b in h
    requires forall k :: 0 <= k < |s| - 1 ==> h[s[k]].currentLength == bufferSize
    ensures SumLengths(h, s) == (|s| - 1) * bufferSize + h[s[|s| - 1]].currentLength
  {
    if |s| == 1 {
      assert s[1..] == [];
    } else {
      FullSum(h, s[1..], bufferSize);
      assert (|s| - 1) * bufferSize == bufferSize + (|s| - 2) * bufferSize;
    }
  }

  lemma {:induction false} WalkFrom(h: Headers, s: seq<nat>, put: nat, bufferSize: nat, i: nat, fuel: nat)
    requires Carries(h, s, put, bufferSize) && i < |s| <= fuel + i
    ensures Walk(h, s[i], fuel) == s[i..]
    decreases |s| - i
  {
    if i + 1 < |s| {
      WalkFrom(h, s, put, bufferSize, i + 1, fuel - 1);
    }
  }

  /** What the next node sees of a packet chain: following the links from the first
      buffer meets exactly s and no more, and the lengths add up to the message. */
  lemma ChainSeen(h: Headers, s: seq<nat>, put: nat, bufferSize: nat, fuel: nat)
    requires Carries(h, s, put, bufferSize) && |s| <= fuel
    ensures Walk(h, s[0], fuel) == s
    ensures forall b :: b in s ==> b in h
    ensures SumLengths(h, s) == put
    ensures h[s[0]].currentLength + h[s[0]].totalNotFirst == put
  {
    WalkFrom(h, s, put, bufferSize, 0, fuel);
    FullSum(h, s, bufferSize);
  }

  /** Writing headers outside s leaves its packet alone. */
  lemma CarriesFrame(h: Headers, h': Headers, s: seq<nat>, put: nat, bufferSize: nat)
    requires Carries(h, s, put, bufferSize)
    requires forall k :: 0 <= k < |s| ==> s[k] in h' && h'[s[k]] == h[s[k]]
    ensures Carries(h', s, put, bufferSize)
  {
  }

  /** buffer_add_to_chain. */
  function AddToChain(h: Headers, bi: nat, first: nat, prev: nat): Headers
    requires bi in h && first in h && prev in h
  {
    var h1 := h[first := h[first].(totalNotFirst := h[first].totalNotFirst + h[bi].currentLength)];
    var h2 := h1[prev := h1[prev].(nextBuffer := bi, nextPresent := true)];
    h2[bi := h2[bi].(nextBuffer := 0)]
  }

  /** A full chain grows by one clean buffer holding length bytes. */
  lemma CarriesMore(h: Headers, s: seq<nat>, put: nat, bufferSize: nat, bi: nat, length: nat)
    requires Carries(h, s, put, bufferSize) && h[s[|s| - 1]].currentLength == bufferSize
    requires Distinct(s + [bi]) && bi in h && !h[bi].nextPresent
    requires 0 < length <= bufferSize
    ensures var h0 := h[bi := h[bi].(currentLength := length)];
            && s[0] in h0 && s[|s| - 1] in h0
            && Carries(AddToChain(h0, bi, s[0], s[|s| - 1]), s + [bi], put + length, bufferSize)
  {
    var h0 := h[bi := h[bi].(currentLength := length)];
    var t := s + [bi];
    assert s[0] in h && s[|s| - 1] in h;
    forall k | 0 <= k < |s| ensures s[k] in h && s[k] != bi && t[k] == s[k] {
      assert t[k] != t[|s|];
    }
    var h' := AddToChain(h0, bi, s[0], s[|s| - 1]);
    assert (|t| - 1) * bufferSize == (|s| - 1) * bufferSize + bufferSize;
    forall k | 0 <= k < |t| - 1
      ensures h'[t[k]].currentLength == bufferSize && h'[t[k]].nextPresent && h'[t[k]].nextBuffer == t[k + 1]
    {
      assert t[k] == s[k];
      if k < |s| - 1 {
        assert t[k] != t[|s| - 1];
      }
    }
  }

  /** Where on the stack each message's buffers start: mtuBuffers apart, from the top. */
  ghost predicate Spaced(starts: seq<nat>, top: nat, mtuBuffers: nat) {
    && (forall m :: 0 <= m < |starts| ==> mtuBuffers <= starts[m] <= top)
    && (0 < |starts| ==> starts[0] == top)
    && (forall m, n :: 0 <= m < n < |starts| ==> starts[n] + mtuBuffers <= starts[m])
    && (forall m :: 0 < m < |starts| ==> starts[m] + mtuBuffers == starts[m - 1])
  }

  datatype Msg = Msg(iov: seq<nat>, msgLen: nat)

  /** Message m offers the mtuBuffers buffers popped from its place on the stack. */
  ghost predicate Offered(rxMsg: seq<Msg>, stack: seq<nat>, starts: seq<nat>, mtuBuffers: nat) {
    && |starts| <= |rxMsg|
    && forall m :: 0 <= m < |starts| ==>
        mtuBuffers <= starts[m] <= |stack| && rxMsg[m].iov == Top(stack, starts[m], mtuBuffers)
  }

  function Flatten(chains: seq<seq<nat>>): seq<nat> {
    if chains == [] then [] else Flatten(chains[..|chains| - 1]) + chains[|chains| - 1]
  }

  function Reverse(s: seq<nat>): seq<nat> {
    if s == [] then [] else [s[|s| - 1]] + Reverse(s[..|s| - 1])
  }

  lemma {:induction false} ReverseSame(s: seq<nat>)
    ensures multiset(Reverse(s)) == multiset(s)
  {
    if s != [] {
      ReverseSame(s[..|s| - 1]);
      assert s == s[..|s| - 1] + [s[|s| - 1]];
    }
  }

  /** Buffers still to be used have no link set. */
  ghost predicate Clean(h: Headers, s: seq<nat>) {
    forall b :: b in s ==> b in h && !h[b].nextPresent
  }

  lemma TopMore(stack: seq<nat>, len: nat, n: nat)
    requires n < len <= |stack|
    ensures Top(stack, len, n + 1) == Top(stack, len, n) + [stack[len - 1 - n]]
  {
  }

  lemma TopSplit(stack: seq<nat>, len: nat, n: nat)
    requires n <= len <= |stack|
    ensures multiset(stack[..len]) == multiset(stack[..len - n]) + multiset(Top(stack, len, n))
    decreases n
  {
    if n == 0 {
      assert Top(stack, len, 0) == [];
    } else {
      TopSplit(stack, len, n - 1);
      TopMore(stack, len, n - 1);
      assert stack[..len - (n - 1)] == stack[..len - n] + [stack[len - n]];
    }
  }

  lemma TopDistinct(stack: seq<nat>, len: nat, n: nat)
    requires n <= len <= |stack| && Distinct(stack)
    ensures Distinct(Top(stack, len, n))
  {
  }

  /** How many bytes n buffers hold. */
  function Room(n: nat, bufferSize: nat): nat {
    n * bufferSize
  }

  lemma RoomMore(n: nat, bufferSize: nat, m: nat)
    ensures Room(0, bufferSize) == 0
    ensures Room(n + 1, bufferSize) == Room(n, bufferSize) + bufferSize
    ensures Room(n, bufferSize) < Room(m, bufferSize) ==> n < m && 0 < bufferSize
  {
    assert m <= n ==> m * bufferSize <= n * bufferSize;
    assert (n + 1) * bufferSize == n * bufferSize + bufferSize;
  }

  lemma SpacedMore(starts: seq<nat>, top: nat, mtuBuffers: nat, len: nat)
    requires Spaced(starts, top, mtuBuffers) && mtuBuffers <= len
    requires len == if starts == [] then top else starts[|starts| - 1] - mtuBuffers
    ensures Spaced(starts + [len], top, mtuBuffers)
  {
  }

  lemma OfferedMore(rxMsg: seq<Msg>, stack: seq<nat>, starts: seq<nat>, mtuBuffers: nat, len: nat, msg: Msg)
    requires Offered(rxMsg, stack, starts, mtuBuffers) && |starts| < |rxMsg|
    requires mtuBuffers <= len <= |stack| && msg.iov == Top(stack, len, mtuBuffers)
    ensures Offered(rxMsg[|starts| := msg], stack, starts + [len], mtuBuffers)
  {
  }

  /** After j buffers of the message popped at len0: the chain so far carries put bytes
      and no other header has changed. */
  ghost predicate Part(h: Headers, h0: Headers, stack: seq<nat>, len0: nat, j: nat, put: nat, bufferSize: nat)
    requires j <= len0 <= |stack|
  {
    && h.Keys == h0.Keys
    && (forall b :: b in h && b !in Top(stack, len0, j) ==> h[b] == h0[b])
    && (if j == 0 then put == 0 else Carries(h, Top(stack, len0, j), put, bufferSize))
  }

  lemma NewBuffer(h: Headers, h0: Headers, stack: seq<nat>, len0: nat, j: nat)
    requires j < len0 <= |stack| && Distinct(stack) && Clean(h0, stack[..len0]) && h.Keys == h0.Keys
    requires forall b :: b in h && b !in Top(stack, len0, j) ==> h[b] == h0[b]
    ensures stack[len0 - 1 - j] in h && !h[stack[len0 - 1 - j]].nextPresent
  {
    var b := stack[len0 - 1 - j];
    assert b == stack[..len0][len0 - 1 - j];
    assert b in h0;
    assert b !in Top(stack, len0, j);
  }

  /** The headers after one turn of the receive loop. */
  function Link(h: Headers, bi: nat, first: nat, prev: nat, put: nat, now: nat): Headers
    requires bi in h && (put != 0 ==> first in h && prev in h)
  {
    var h1 := h[bi := h[bi].(currentLength := now)];
    if put == 0 then h1[bi := h1[bi].(totalNotFirst := 0, totalValid := true, nextPresent := false)]
    else AddToChain(h1, bi, first, prev)
  }

  lemma PartFirst(h: Headers, h0: Headers, stack: seq<nat>, len0: nat, bufferSize: nat, bi: nat, now: nat)
    requires 0 < len0 <= |stack| && Part(h, h0, stack, len0, 0, 0, bufferSize)
    requires bi == stack[len0 - 1] && bi in h && 0 < now <= bufferSize
    ensures forall first, prev :: Part(Link(h, bi, first, prev, 0, now), h0, stack, len0, 1, now, bufferSize)
  {
    assert Top(stack, len0, 1) == [bi];
  }

  lemma PartMore(h: Headers, h0: Headers, stack: seq<nat>, len0: nat, j: nat, put: nat, bufferSize: nat, bi: nat,
                 now: nat)
    requires 0 < j < len0 <= |stack| && Part(h, h0, stack, len0, j, put, bufferSize) && 0 < put
    requires Distinct(stack) && Clean(h0, stack[..len0])
    requires stack[len0 - j] in h && h[stack[len0 - j]].currentLength == bufferSize
    requires bi == stack[len0 - 1 - j] && 0 < now <= bufferSize
    ensures bi in h && stack[len0 - 1] in h && stack[len0 - j] in h
    ensures Part(Link(h, bi, stack[len0 - 1], stack[len0 - j], put, now), h0, stack, len0, j + 1, put + now, bufferSize)
  {
    NewBuffer(h, h0, stack, len0, j);
    TopMore(stack, len0, j);
    TopDistinct(stack, len0, j + 1);
    var s, t := Top(stack, len0, j), Top(stack, len0, j + 1);
    assert s[0] == stack[len0 - 1] && s[j - 1] == stack[len0 - j];
    CarriesMore(h, s, put, bufferSize, bi, now);
    hide Carries;
    LinkFrame(h, bi, stack[len0 - 1], stack[len0 - j], put, now, h0, s, t);
  }

  /** The state of the loop over the buffers of a message. */
  ghost predicate Filling(h: Headers, h0: Headers, stack: seq<nat>, len0: nat, j: nat, put: nat, remain: nat,
                          bufferSize: nat)
    requires j <= len0 <= |stack|
  {
    && Part(h, h0, stack, len0, j, put, bufferSize)
    && (0 < j ==> 0 < put)
    && (remain > 0 ==> put == Room(j, bufferSize))
    && (remain > 0 && 0 < j ==> stack[len0 - j] in h && h[stack[len0 - j]].currentLength == bufferSize)
  }

  lemma FillingNone(h: Headers, stack: seq<nat>, len0: nat, msgLen: nat, bufferSize: nat)
    requires len0 <= |stack|
    ensures Filling(h, h, stack, len0, 0, 0, msgLen, bufferSize)
  {
    RoomMore(0, bufferSize, 0);
  }

  /** One turn: there is room for one more buffer, and its header is the right one. */
  lemma FillingMore(h: Headers, h0: Headers, stack: seq<nat>, len0: nat, j: nat, put: nat, remain: nat,
                    bufferSize: nat, mtuBuffers: nat, first: nat, prev: nat, now: nat)
    requires j <= mtuBuffers <= len0 <= |stack| && Filling(h, h0, stack, len0, j, put, remain, bufferSize)
    requires 0 < remain && put + remain <= Room(mtuBuffers, bufferSize)
    requires now == if remain > bufferSize then bufferSize else remain
    requires Distinct(stack) && Clean(h0, stack[..len0])
    requires 0 < j ==> first == stack[len0 - 1] && prev == stack[len0 - j]
    ensures j < mtuBuffers && 0 < now
    ensures stack[len0 - 1 - j] in h && (put != 0 ==> first in h && prev in h)
    ensures Filling(Link(h, stack[len0 - 1 - j], first, prev, put, now), h0, stack, len0, j + 1, put + now,
                    remain - now, bufferSize)
  {
    hide Carries;
    hide Clean;
    hide Distinct;
    RoomMore(j, bufferSize, mtuBuffers);
    var bi := stack[len0 - 1 - j];
    NewBuffer(h, h0, stack, len0, j);
    if j == 0 {
      PartFirst(h, h0, stack, len0, bufferSize, bi, now);
    } else {
      PartMore(h, h0, stack, len0, j, put, bufferSize, bi, now);
    }
    hide Part;
    hide Room;
  }

  /** The buffers offered do not run out before the message does. */
  lemma EnoughBuffers(h: Headers, h0: Headers, stack: seq<nat>, len0: nat, j: nat, put: nat, remain: nat,
                      bufferSize: nat, mtuBuffers: nat)
    requires j <= mtuBuffers <= len0 <= |stack| && Filling(h, h0, stack, len0, j, put, remain, bufferSize)
    requires put + remain <= Room(mtuBuffers, bufferSize) && (remain == 0 || j == len0)
    ensures remain == 0
  {
    RoomMore(j, bufferSize, mtuBuffers);
  }

  lemma FillingDone(h: Headers, h0: Headers, stack: seq<nat>, len0: nat, j: nat, put: nat, bufferSize: nat)
    requires j <= len0 <= |stack| && Filling(h, h0, stack, len0, j, put, 0, bufferSize)
    ensures Part(h, h0, stack, len0, j, put, bufferSize)
    ensures 0 < put ==> 0 < j
  {
  }

  lemma LinkFrame(h: Headers, bi: nat, first: nat, prev: nat, put: nat, now: nat, h0: Headers, s: seq<nat>, t: seq<nat>)
    requires bi in h && first in h && prev in h && h.Keys == h0.Keys
    requires t == s + [bi] && first in s && prev in s
    requires forall b :: b in h && b !in s ==> h[b] == h0[b]
    ensures Link(h, bi, first, prev, put, now).Keys == h0.Keys
    ensures forall b :: b in h && b !in t ==> Link(h, bi, first, prev, put, now)[b] == h0[b]
  {
    assert forall b :: b in s ==> b in t;
    assert bi in t;
  }

  // ---------- a batch ----------

  /** The packets built so far: chain m carries message m in the first of its buffers,
      popped from starts[m]. */
  ghost predicate Built(h: Headers, stack: seq<nat>, starts: seq<nat>, mtuBuffers: nat, lens: seq<nat>,
                        bufferSize: nat, chains: seq<seq<nat>>)
  {
    && |chains| <= |lens| && |chains| <= |starts|
    && forall m :: 0 <= m < |chains| ==>
         && |chains[m]| <= mtuBuffers <= starts[m] <= |stack|
         && chains[m] == Top(stack, starts[m], |chains[m]|)
         && Carries(h, chains[m], lens[m], bufferSize)
  }

  lemma BuiltFrame(h: Headers, h': Headers, stack: seq<nat>, starts: seq<nat>, mtuBuffers: nat, lens: seq<nat>,
                   bufferSize: nat, chains: seq<seq<nat>>, len: nat, j: nat)
    requires Built(h, stack, starts, mtuBuffers, lens, bufferSize, chains)
    requires j <= len <= |stack| && Distinct(stack)
    requires forall m :: 0 <= m < |chains| ==> len + mtuBuffers <= starts[m]
    requires h'.Keys == h.Keys && forall b :: b in h && b !in Top(stack, len, j) ==> h'[b] == h[b]
    ensures Built(h', stack, starts, mtuBuffers, lens, bufferSize, chains)
  {
    forall m | 0 <= m < |chains| ensures Carries(h', chains[m], lens[m], bufferSize) {
      var s := chains[m];
      forall k | 0 <= k < |s| ensures s[k] in h' && h'[s[k]] == h[s[k]] {
        assert s[k] == stack[starts[m] - 1 - k];
        forall i | 0 <= i < j ensures Top(stack, len, j)[i] != s[k] {
        }
      }
      CarriesFrame(h, h', s, lens[m], bufferSize);
    }
  }

  lemma BuiltMore(h: Headers, stack: seq<nat>, starts: seq<nat>, mtuBuffers: nat, lens: seq<nat>, bufferSize: nat,
                  chains: seq<seq<nat>>, j: nat)
    requires Built(h, stack, starts, mtuBuffers, lens, bufferSize, chains)
    requires |chains| < |lens| && |chains| < |starts| && j <= mtuBuffers <= starts[|chains|] <= |stack|
    requires Carries(h, Top(stack, starts[|chains|], j), lens[|chains|], bufferSize)
    ensures Built(h, stack, starts, mtuBuffers, lens, bufferSize, chains + [Top(stack, starts[|chains|], j)])
  {
  }

  /** The chain of message m is made of the very buffers offered for message m. */
  lemma BuiltFromOffered(h: Headers, rxMsg: seq<Msg>, stack: seq<nat>, starts: seq<nat>, mtuBuffers: nat,
                         lens: seq<nat>, bufferSize: nat, chains: seq<seq<nat>>, m: nat)
    requires Built(h, stack, starts, mtuBuffers, lens, bufferSize, chains) && m < |chains|
    requires Offered(rxMsg, stack, starts, mtuBuffers)
    ensures |chains[m]| <= |rxMsg[m].iov| && chains[m] == rxMsg[m].iov[..|chains[m]|]
  {
  }

  /** Nothing is lost or doubled: the stack is what was enqueued, what was set aside
      and what is left. */
  ghost predicate Balanced(stack: seq<nat>, len: nat, unused: seq<nat>, chains: seq<seq<nat>>)
    requires len <= |stack|
  {
    multiset(stack) == multiset(stack[..len]) + multiset(unused) + multiset(Flatten(chains))
  }

  lemma BalancedMore(stack: seq<nat>, len: nat, unused: seq<nat>, chains: seq<seq<nat>>, j: nat, n: nat)
    requires len <= |stack| && Balanced(stack, len, unused, chains) && j <= n <= len
    ensures Balanced(stack, len - n, unused + Top(stack, len - j, n - j), chains + [Top(stack, len, j)])
  {
    TopSplit(stack, len, j);
    TopSplit(stack, len - j, n - j);
    var c := chains + [Top(stack, len, j)];
    assert c[..|c| - 1] == chains;
  }

  ghost predicate Among(s: seq<nat>, t: seq<nat>) {
    forall b :: b in s ==> b in t
  }

  lemma {:induction false} CountInSeq(s: seq<nat>, i: nat, j: nat)
    requires i < j < |s| && s[i] == s[j]
    ensures multiset(s)[s[i]] >= 2
  {
    assert s == s[..j] + [s[j]] + s[j + 1..];
    assert s[..j][i] == s[i];
    assert s[i] in multiset(s[..j]);
  }

  lemma {:induction false} CountDistinct(s: seq<nat>, b: nat)
    requires Distinct(s)
    ensures multiset(s)[b] <= 1
  {
    if s != [] {
      var t := s[..|s| - 1];
      assert s == t + [s[|s| - 1]];
      CountDistinct(t, b);
      if b == s[|s| - 1] {
        assert b !in t;
        assert b !in multiset(t);
      }
    }
  }

  /** A rearrangement of some of the elements of a distinct sequence is distinct. */
  lemma DistinctPart(s: seq<nat>, stack: seq<nat>)
    requires Distinct(stack) && multiset(s) <= multiset(stack)
    ensures Distinct(s)
  {
    forall i, j | 0 <= i < j < |s| ensures s[i] != s[j] {
      CountDistinct(stack, s[i]);
      if s[i] == s[j] {
        CountInSeq(s, i, j);
      }
    }
  }

  /** The stack after the set-aside buffers are pushed back. */
  lemma StackBack(h: Headers, stack: seq<nat>, len: nat, unused: seq<nat>, chains: seq<seq<nat>>)
    requires len <= |stack| && Balanced(stack, len, unused, chains) && Distinct(stack)
    requires Clean(h, stack[..len]) && Clean(h, unused)
    ensures multiset(stack) == multiset(stack[..len] + Reverse(unused)) + multiset(Flatten(chains))
    ensures Distinct(stack[..len] + Reverse(unused)) && Clean(h, stack[..len] + Reverse(unused))
  {
    ReverseSame(unused);
    var rx := stack[..len] + Reverse(unused);
    assert multiset(rx) == multiset(stack[..len]) + multiset(Reverse(unused));
    DistinctPart(rx, stack);
    forall b | b in rx ensures b in h && !h[b].nextPresent {
      if b !in stack[..len] {
        assert b in multiset(Reverse(unused));
      }
    }
  }

  /** Which buffers are still on the stack or set aside: clean, as none was written. */
  lemma CleanRest(h: Headers, h': Headers, stack: seq<nat>, len: nat, j: nat, n: nat, unused: seq<nat>)
    requires j <= n <= len <= |stack| && Distinct(stack)
    requires Clean(h, stack[..len]) && Clean(h, unused)
    requires h'.Keys == h.Keys && forall b :: b in h && b !in Top(stack, len, j) ==> h'[b] == h[b]
    requires Among(unused, stack[len..])
    ensures Clean(h', stack[..len - n]) && Clean(h', unused + Top(stack, len - j, n - j))
    ensures Among(unused + Top(stack, len - j, n - j), stack[len - n..])
  {
    var t := Top(stack, len, j);
    forall i | 0 <= i < |stack| && (i < len - j || len <= i) ensures stack[i] !in t {
    }
    forall b | b in stack[..len - n] ensures b in h' && !h'[b].nextPresent {
      var i :| 0 <= i < len - n && stack[i] == b;
      assert b == stack[..len][i];
    }
    forall b | b in unused ensures b in h' && !h'[b].nextPresent && b in stack[len - n..] {
      var i :| 0 <= i < |stack| - len && stack[len..][i] == b;
      assert b == stack[len + i] && b == stack[len - n..][n + i];
    }
    forall b | b in Top(stack, len - j, n - j) ensures b in h' && !h'[b].nextPresent && b in stack[len - n..] {
      var i :| 0 <= i < n - j && stack[len - j - 1 - i] == b;
      assert b == stack[..len][len - j - 1 - i] && b == stack[len - n..][n - j - 1 - i];
    }
  }

  /** The state between two messages of a batch. */
  ghost predicate Batch(h: Headers, stack: seq<nat>, starts: seq<nat>, mtuBuffers: nat, lens: seq<nat>, bufferSize: nat,
                        chains: seq<seq<nat>>, len: nat, unused: seq<nat>)
  {
    && len <= |stack|
    && Built(h, stack, starts, mtuBuffers, lens, bufferSize, chains)
    && Balanced(stack, len, unused, chains)
    && Clean(h, stack[..len]) && Clean(h, unused)
    && Among(unused, stack[len..])
    && |unused| + len <= |stack|
  }

  lemma BatchStart(h: Headers, stack: seq<nat>, starts: seq<nat>, mtuBuffers: nat, lens: seq<nat>, bufferSize: nat)
    requires Clean(h, stack)
    ensures Batch(h, stack, starts, mtuBuffers, lens, bufferSize, [], |stack|, [])
  {
    assert stack[..|stack|] == stack;
    assert Flatten([]) == [];
  }

  lemma BatchFacts(h: Headers, stack: seq<nat>, starts: seq<nat>, mtuBuffers: nat, lens: seq<nat>, bufferSize: nat,
                   chains: seq<seq<nat>>, len: nat, unused: seq<nat>)
    requires Batch(h, stack, starts, mtuBuffers, lens, bufferSize, chains, len, unused)
    requires Spaced(starts, |stack|, mtuBuffers) && |chains| < |starts| && len == starts[|chains|]
    ensures mtuBuffers <= len <= |stack| && Clean(h, stack[..len]) && |unused| + len <= |stack|
  {
  }

  lemma BatchMore(h: Headers, h': Headers, stack: seq<nat>, starts: seq<nat>, mtuBuffers: nat, lens: seq<nat>,
                  bufferSize: nat, chains: seq<seq<nat>>, len: nat, unused: seq<nat>, j: nat)
    requires Batch(h, stack, starts, mtuBuffers, lens, bufferSize, chains, len, unused)
    requires Distinct(stack) && Spaced(starts, |stack|, mtuBuffers)
    requires |chains| < |lens| && |chains| < |starts| && len == starts[|chains|]
    requires 0 < j <= mtuBuffers && Part(h', h, stack, len, j, lens[|chains|], bufferSize)
    ensures Batch(h', stack, starts, mtuBuffers, lens, bufferSize, chains + [Top(stack, len, j)], len - mtuBuffers,
                  unused + Top(stack, len - j, mtuBuffers - j))
  {
    hide Carries;
    hide Distinct;
    hide Clean;
    hide Among;
    assert forall m :: 0 <= m < |chains| ==> len + mtuBuffers <= starts[m];
    BuiltFrame(h, h', stack, starts, mtuBuffers, lens, bufferSize, chains, len, j);
    BuiltMore(h', stack, starts, mtuBuffers, lens, bufferSize, chains, j);
    BalancedMore(stack, len, unused, chains, j, mtuBuffers);
    CleanRest(h, h', stack, len, j, mtuBuffers, unused);
  }

  lemma RoundedUp(bytes: nat, size: nat)
    requires 0 < bytes && 0 < size
    ensures var n := (bytes + (size - 1)) / size;
      1 <= n && bytes <= Room(n, size) && Room(n - 1, size) < bytes
  {
    var n := (bytes + (size - 1)) / size;
    assert n * size <= bytes + (size - 1) < n * size + size;
    assert (n - 1) * size == n * size - size;
  }

  class Interface {
    var rxReady: nat
    var mtuBuffers: nat
    var rxMsg: seq<Msg>

    ghost predicate Valid()
      reads this
    {
      1 <= rxReady <= 256 && 1 <= mtuBuffers && |rxMsg| == 256
    }

    /** A connected interface: a full batch is tried first, and the buffers of a message have
        room for a frame of the link's size. */
    constructor (mtuBytes: nat, bufferSize: nat)
      requires 0 < mtuBytes && 0 < bufferSize
      ensures Valid() && rxReady == 256
      ensures mtuBytes <= Room(mtuBuffers, bufferSize) && Room(mtuBuffers - 1, bufferSize) < mtuBytes
    {
      rxReady := MAX_RECV;
      mtuBuffers := (mtuBytes + (bufferSize - 1)) / bufferSize;
      rxMsg := seq(MAX_RECV, _ => Msg([], 0));
      RoundedUp(mtuBytes, bufferSize);
    }
  }

  class Main {
    var rxBuffers: seq<nat>
    var unusedBufferList: seq<nat>
    var rxCapacity: nat
    var unusedCapacity: nat
    var headers: Headers

    ghost predicate Valid()
      reads this
    {
      && unusedBufferList == []
      && Distinct(rxBuffers) && Clean(headers, rxBuffers)
      && |rxBuffers| <= rxCapacity && |rxBuffers| <= unusedCapacity
    }

    /** turbotap_init: both lists are empty, with room for a frame; headers are the buffer
        headers there are. */
    constructor (headers: Headers)
      ensures Valid() && rxBuffers == [] && this.headers == headers
    {
      rxBuffers, unusedBufferList := [], [];
      rxCapacity, unusedCapacity := FRAME_SIZE, FRAME_SIZE;
      this.headers := headers;
    }

    /** The iovecs of one message: the next mtuBuffers buffers from the top. */
    method FillIov(len0: nat, mtuBuffers: nat) returns (len: nat, iov: seq<nat>)
      requires mtuBuffers <= len0 <= |rxBuffers|
      ensures len == len0 - mtuBuffers && iov == Top(rxBuffers, len0, mtuBuffers)
    {
      var j := 0;
      len, iov := len0, [];
      while j < mtuBuffers
        invariant j <= mtuBuffers && len == len0 - j
        invariant iov == Top(rxBuffers, len0, j)
      {
        TopMore(rxBuffers, len0, j);
        iov := iov + [rxBuffers[len - 1]];
        len := len - 1;
        j := j + 1;
      }
    }

    /** The fill loop: messages take mtuBuffers buffers each from the top of the stack
        while more than that many are left. */
    method Fill(ti: Interface) returns (i: nat, ghost starts: seq<nat>)
      requires ti.Valid()
      modifies ti`rxMsg
      ensures ti.Valid() && i == |starts| <= ti.rxReady
      ensures Spaced(starts, |rxBuffers|, ti.mtuBuffers)
      ensures Offered(ti.rxMsg, rxBuffers, starts, ti.mtuBuffers)
      ensures i == 0 || |rxBuffers| > i * ti.mtuBuffers
      ensures i == ti.rxReady || |rxBuffers| <= (i + 1) * ti.mtuBuffers
    {
      i, starts := 0, [];
      var len := |rxBuffers|;
      while i < ti.rxReady && len > ti.mtuBuffers
        invariant i == |starts| <= ti.rxReady && |ti.rxMsg| == MAX_RECV
        invariant len <= |rxBuffers|
        invariant 0 < i ==> ti.mtuBuffers <= starts[i - 1]
        invariant len == if i == 0 then |rxBuffers| else starts[i - 1] - ti.mtuBuffers
        invariant len == |rxBuffers| - i * ti.mtuBuffers
        invariant 0 < i ==> 0 < len
        invariant Spaced(starts, |rxBuffers|, ti.mtuBuffers)
        invariant Offered(ti.rxMsg, rxBuffers, starts, ti.mtuBuffers)
      {
        hide Spaced;
        hide Offered;
        ghost var start := len;
        var iov;
        len, iov := FillIov(len, ti.mtuBuffers);
        SpacedMore(starts, |rxBuffers|, ti.mtuBuffers, start);
        OfferedMore(ti.rxMsg, rxBuffers, starts, ti.mtuBuffers, start, Msg(iov, 0));
        ti.rxMsg := ti.rxMsg[i := Msg(iov, 0)];
        starts := starts + [start];
        i := i + 1;
      }
    }

    /** The header writes for one buffer of a message. */
    method PutBuffer(bi: nat, first: nat, prev: nat, put: nat, now: nat)
      requires bi in headers && (put != 0 ==> first in headers && prev in headers)
      modifies `headers
      ensures headers == Link(old(headers), bi, first, prev, put, now)
    {
      headers := headers[bi := headers[bi].(currentLength := now)];
      if put == 0 {
        headers := headers[bi := headers[bi].(totalNotFirst := 0, totalValid := true, nextPresent := false)];
      } else {
        headers := AddToChain(headers, bi, first, prev);
      }
    }

    /** The receive loop's inner part: the buffers that hold one message, chained. */
    method BuildChain(len0: nat, msgLen: nat, bufferSize: nat, ghost mtuBuffers: nat)
      returns (len: nat, j: nat, first: nat)
      requires mtuBuffers <= len0 <= |rxBuffers| && 0 < msgLen <= Room(mtuBuffers, bufferSize)
      requires Distinct(rxBuffers) && Clean(headers, rxBuffers[..len0])
      modifies `headers
      ensures 0 < j <= mtuBuffers && len == len0 - j && first == rxBuffers[len0 - 1]
      ensures Part(headers, old(headers), rxBuffers, len0, j, msgLen, bufferSize)
    {
      hide Filling;
      hide Part;
      hide Room;
      hide Distinct;
      hide Clean;
      var bi: nat, remain: nat, put: nat := 0, msgLen, 0;
      len, j, first := len0, 0, 0;
      ghost var h0 := headers;
      FillingNone(h0, rxBuffers, len0, msgLen, bufferSize);
      while remain > 0 && len > 0
        invariant j <= mtuBuffers && len == len0 - j && put + remain == msgLen
        invariant 0 < j ==> 0 < put && first == rxBuffers[len0 - 1] && bi == rxBuffers[len0 - j]
        invariant Filling(headers, h0, rxBuffers, len0, j, put, remain, bufferSize)
        decreases remain
      {
        var prev := bi;
        bi := rxBuffers[len - 1];
        var now := if remain > bufferSize then bufferSize else remain;
        if j == 0 {
          first := bi;
        }
        FillingMore(headers, h0, rxBuffers, len0, j, put, remain, bufferSize, mtuBuffers, first, prev, now);
        PutBuffer(bi, first, prev, put, now);
        put := put + now;
        remain := remain - now;
        j := j + 1;
        len := len - 1;
      }
      EnoughBuffers(headers, h0, rxBuffers, len0, j, put, remain, bufferSize, mtuBuffers);
      FillingDone(headers, h0, rxBuffers, len0, j, put, bufferSize);
    }

    /** Sets aside the buffers offered for a message that it did not need. */
    method SetAside(len0: nat, j0: nat, mtuBuffers: nat) returns (len: nat)
      requires j0 <= mtuBuffers && mtuBuffers - j0 <= len0 <= |rxBuffers|
      requires |unusedBufferList| + mtuBuffers - j0 <= unusedCapacity
      modifies `unusedBufferList
      ensures len == len0 - (mtuBuffers - j0)
      ensures unusedBufferList == old(unusedBufferList) + Top(rxBuffers, len0, mtuBuffers - j0)
    {
      var j := j0;
      len := len0;
      while j < mtuBuffers
        invariant j0 <= j <= mtuBuffers && len == len0 - (j - j0)
        invariant unusedBufferList == old(unusedBufferList) + Top(rxBuffers, len0, j - j0)
      {
        TopMore(rxBuffers, len0, j - j0);
        assert |unusedBufferList| < unusedCapacity;
        unusedBufferList := unusedBufferList + [rxBuffers[len - 1]];
        len := len - 1;
        j := j + 1;
      }
    }

    /** Puts the set-aside buffers back, last one first. */
    method PutBack()
      requires |rxBuffers| + |unusedBufferList| <= rxCapacity
      modifies `rxBuffers, `unusedBufferList
      ensures unusedBufferList == [] && rxBuffers == old(rxBuffers) + Reverse(old(unusedBufferList))
    {
      while |unusedBufferList| > 0
        invariant rxBuffers + Reverse(unusedBufferList) == old(rxBuffers) + Reverse(old(unusedBufferList))
        invariant |rxBuffers| + |unusedBufferList| <= rxCapacity
        decreases |unusedBufferList|
      {
        var last := |unusedBufferList| - 1;
        assert rxBuffers + ([unusedBufferList[last]] + Reverse(unusedBufferList[..last]))
            == (rxBuffers + [unusedBufferList[last]]) + Reverse(unusedBufferList[..last]);
        rxBuffers := rxBuffers + [unusedBufferList[last]];
        unusedBufferList := unusedBufferList[..last];
      }
      assert Reverse(unusedBufferList) == [];
    }

    /** One message of the receive loop: its packet, and the buffers it did not need. */
    method TakeMessage(mtuBuffers: nat, msgLen: nat, len0: nat, bufferSize: nat,
                       ghost starts: seq<nat>, ghost lens: seq<nat>, ghost chains: seq<seq<nat>>)
      returns (len: nat, first: nat, ghost chain: seq<nat>)
      requires Batch(headers, rxBuffers, starts, mtuBuffers, lens, bufferSize, chains, len0, unusedBufferList)
      requires Distinct(rxBuffers) && Spaced(starts, |rxBuffers|, mtuBuffers) && |rxBuffers| <= unusedCapacity
      requires |chains| < |lens| && |chains| < |starts| && len0 == starts[|chains|] && msgLen == lens[|chains|]
      requires 0 < msgLen <= Room(mtuBuffers, bufferSize)
      modifies `headers, `unusedBufferList
      ensures Batch(headers, rxBuffers, starts, mtuBuffers, lens, bufferSize, chains + [chain], len, unusedBufferList)
      ensures len == len0 - mtuBuffers && chain != [] && first == chain[0]
    {
      hide Distinct;
      hide Part;
      hide Room;
      hide Batch;
      hide Clean;
      hide Spaced;
      ghost var h0, unused0 := headers, unusedBufferList;
      BatchFacts(headers, rxBuffers, starts, mtuBuffers, lens, bufferSize, chains, len0, unusedBufferList);
      var j;
      len, j, first := BuildChain(len0, msgLen, bufferSize, mtuBuffers);
      chain := Top(rxBuffers, len0, j);
      len := SetAside(len, j, mtuBuffers);
      BatchMore(h0, headers, rxBuffers, starts, mtuBuffers, lens, bufferSize, chains, len0, unused0, j);
    }

    /** The receive loop: one packet per message, while the frame has room. */
    method Receive(ti: Interface, lens: seq<nat>, bufferSize: nat, frameRoom: nat, dropRoom: nat,
                   nextIndex0: nat, adminDown: bool, ghost starts: seq<nat>)
      returns (i: nat, len: nat, enqueued: seq<(nat, nat)>, ghost chains: seq<seq<nat>>)
      requires Valid() && 0 < dropRoom
      requires |lens| <= |starts| && Spaced(starts, |rxBuffers|, ti.mtuBuffers)
      requires forall m :: 0 <= m < |lens| ==> 0 < lens[m] <= Room(ti.mtuBuffers, bufferSize)
      modifies `headers, `unusedBufferList
      ensures i == |chains| == |enqueued|
      ensures var room := if adminDown && nextIndex0 != 3 && frameRoom != 0 then dropRoom else frameRoom;
              i == if |lens| < room then |lens| else room
      ensures Batch(headers, rxBuffers, starts, ti.mtuBuffers, lens, bufferSize, chains, len, unusedBufferList)
      ensures Enqueued(enqueued, chains, if adminDown then 3 else nextIndex0)
    {
      hide Batch;
      hide Room;
      hide Distinct;
      hide Clean;
      var next, nextIndex, room := nextIndex0, nextIndex0, frameRoom;
      i, len, enqueued, chains := 0, |rxBuffers|, [], [];
      BatchStart(headers, rxBuffers, starts, ti.mtuBuffers, lens, bufferSize);
      while i != |lens| && room != 0
        invariant i == |chains| == |enqueued| <= |lens|
        invariant i < |lens| ==> len == starts[i]
        invariant next == nextIndex == (if 0 < i && adminDown then NEXT_DROP else nextIndex0)
        invariant room >= 0 && room == RoomLeft(i, frameRoom, dropRoom, nextIndex0, adminDown)
        invariant 0 < i ==> 0 < frameRoom
        invariant Batch(headers, rxBuffers, starts, ti.mtuBuffers, lens, bufferSize, chains, len, unusedBufferList)
        invariant Enqueued(enqueued, chains, if adminDown then NEXT_DROP else nextIndex0)
      {
        ghost var chain;
        var first;
        len, first, chain := TakeMessage(ti.mtuBuffers, lens[i], len, bufferSize, starts, lens, chains);
        chains := chains + [chain];
        if adminDown {
          next := NEXT_DROP;
        }
        room := room - 1;
        if next != nextIndex {
          nextIndex := next;
          room := dropRoom - 1;
        }
        enqueued := enqueued + [(next, first)];
        i := i + 1;
      }
    }

    /** Buffer allocation: tops the stack up when it cannot serve rxReady messages. */
    method Allocate(ti: Interface, alloc: nat -> seq<nat>) returns (ghost added: seq<nat>)
      requires Valid() && ti.Valid()
      requires forall k :: GoodAlloc(alloc(k), k, rxBuffers, headers)
      modifies `rxBuffers, `rxCapacity, `unusedCapacity
      ensures Valid() && rxBuffers == old(rxBuffers) + added
      ensures added == if old(|rxBuffers|) < ti.rxReady * ti.mtuBuffers
                       then alloc(ti.rxReady * ti.mtuBuffers + 32 - old(|rxBuffers|)) else []
    {
      var desired := ti.rxReady * ti.mtuBuffers + 32;
      added := [];
      if |rxBuffers| < ti.rxReady * ti.mtuBuffers {
        var len := |rxBuffers|;
        if rxCapacity < desired {
          rxCapacity := desired;
        }
        if unusedCapacity < desired {
          unusedCapacity := desired;
        }
        var more := alloc(desired - len);
        assert GoodAlloc(more, desired - len, rxBuffers, headers);
        added := more;
        rxBuffers := rxBuffers + more;
      }
    }

    /** turbotap_rx_iface after the system call: packets for the received messages, the
        rest of the buffers back on the stack, the next batch size. */
    method Deliver(ti: Interface, lens: seq<nat>, bufferSize: nat, frameRoom: nat, dropRoom: nat,
                   nextIndex: nat, adminDown: bool, ghost starts: seq<nat>)
      returns (n: nat, enqueued: seq<(nat, nat)>, ghost chains: seq<seq<nat>>)
      requires Valid() && ti.Valid() && 0 < dropRoom
      requires |lens| <= |starts| <= ti.rxReady && Spaced(starts, |rxBuffers|, ti.mtuBuffers)
      requires Offered(ti.rxMsg, rxBuffers, starts, ti.mtuBuffers)
      requires forall m :: 0 <= m < |lens| ==> 0 < lens[m] <= Room(ti.mtuBuffers, bufferSize)
      modifies `headers, `unusedBufferList, `rxBuffers, ti`rxMsg, ti`rxReady
      ensures Valid() && ti.Valid()
      ensures multiset(old(rxBuffers)) == multiset(rxBuffers) + multiset(Flatten(chains))
      ensures n == |chains| <= |starts| && Enqueued(enqueued, chains, if adminDown then 3 else nextIndex)
      ensures Delivered(headers, ti.rxMsg, chains, bufferSize)
      ensures var room := if adminDown && nextIndex != 3 && frameRoom != 0 then dropRoom else frameRoom;
              n == if |lens| < room then |lens| else room
      ensures n <= |ti.rxMsg| && forall m :: 0 <= m < n ==> ti.rxMsg[m].msgLen == lens[m]
      ensures n < old(ti.rxReady) ==>
                ti.rxReady == if old(ti.rxReady) - n < n then n else old(ti.rxReady) - n
      ensures n == old(ti.rxReady) ==> ti.rxReady == if 2 * n > 256 then 256 else 2 * n
    {
      hide Distinct;
      hide Clean;
      hide Room;
      hide Spaced;
      hide Offered;
      hide Batch;
      hide Delivered;
      hide Enqueued;
      hide Flatten;
      hide Reverse;
      ghost var rxMsg := ti.rxMsg;
      ti.rxMsg := WithLengths(ti.rxMsg, lens);
      var len;
      n, len, enqueued, chains := Receive(ti, lens, bufferSize, frameRoom, dropRoom, nextIndex, adminDown, starts);
      BatchEnd(headers, rxBuffers, starts, ti.mtuBuffers, lens, bufferSize, chains, len, unusedBufferList, rxMsg);
      rxBuffers := rxBuffers[..len];
      PutBack();
      UpdateReady(ti, n);
    }

    /** turbotap_rx_iface. alloc stands for vlib_buffer_alloc and recv for recvmmsg: the
        lengths of the messages received when k are offered, none on an error. */
    method RxIface(ti: Interface, bufferSize: nat, alloc: nat -> seq<nat>, recv: nat -> seq<nat>,
                   frameRoom: nat, dropRoom: nat, nextIndex: nat, adminDown: bool)
      returns (n: nat, enqueued: seq<(nat, nat)>, ghost added: seq<nat>, ghost offered: nat,
               ghost chains: seq<seq<nat>>)
      requires Valid() && ti.Valid() && 0 < dropRoom
      requires forall k :: GoodAlloc(alloc(k), k, rxBuffers, headers)
      requires forall k :: GoodRecv(recv(k), k, ti.mtuBuffers, bufferSize)
      modifies this, ti`rxReady, ti`rxMsg
      ensures Valid() && ti.Valid()
      ensures multiset(rxBuffers) + multiset(Flatten(chains)) == multiset(old(rxBuffers)) + multiset(added)
      // what is allocated and offered
      ensures added == if old(|rxBuffers|) < old(ti.rxReady) * ti.mtuBuffers
                       then alloc(old(ti.rxReady) * ti.mtuBuffers + 32 - old(|rxBuffers|)) else []
      ensures offered <= old(ti.rxReady) && (offered == 0 || old(|rxBuffers|) + |added| > offered * ti.mtuBuffers)
      ensures offered == old(ti.rxReady) || old(|rxBuffers|) + |added| <= (offered + 1) * ti.mtuBuffers
      ensures offered == old(ti.rxReady) <==> old(|rxBuffers|) + |added| > old(ti.rxReady) * ti.mtuBuffers
      // what is enqueued
      ensures n == |chains| <= offered && Enqueued(enqueued, chains, if adminDown then 3 else nextIndex)
      ensures Delivered(headers, ti.rxMsg, chains, bufferSize)
      ensures var lens, room := recv(offered),
                if adminDown && nextIndex != 3 && frameRoom != 0 then dropRoom else frameRoom;
              && n == (if |lens| < room then |lens| else room) <= |ti.rxMsg|
              && forall m :: 0 <= m < n ==> ti.rxMsg[m].msgLen == lens[m]
      // how many are tried next time
      ensures recv(offered) == [] ==> ti.rxReady == old(ti.rxReady)
      ensures recv(offered) != [] && n < old(ti.rxReady) ==>
                ti.rxReady == if old(ti.rxReady) - n < n then n else old(ti.rxReady) - n
      ensures recv(offered) != [] && n == old(ti.rxReady) ==> ti.rxReady == if 2 * n > 256 then 256 else 2 * n
    {
      hide Distinct;
      hide Clean;
      hide Room;
      hide Spaced;
      hide Offered;
      hide Delivered;
      hide Enqueued;
      hide Flatten;
      n, enqueued, chains := 0, [], [];
      added := Allocate(ti, alloc);
      var i;
      ghost var starts;
      i, starts := Fill(ti);
      offered := i;
      AllFit(|rxBuffers|, i, ti.rxReady, ti.mtuBuffers);
      var lens := recv(i);
      assert GoodRecv(lens, i, ti.mtuBuffers, bufferSize);
      if |lens| == 0 {
        NothingReceived(headers, ti.rxMsg, bufferSize, if adminDown then 3 else nextIndex);
        return;
      }
      n, enqueued, chains := Deliver(ti, lens, bufferSize, frameRoom, dropRoom, nextIndex, adminDown, starts);
    }

    /** Any run of calls, on any interfaces: the stack afterwards and everything enqueued are
        the stack before and everything allocated. alloc and recv are what the environment
        answers, given what it is asked and, for alloc, the buffers it must not give again. */
    method RxRun(calls: seq<Call>, bufferSize: nat, alloc: (seq<nat>, Headers, nat) -> seq<nat>,
                 recv: (nat, nat) -> seq<nat>)
      returns (ghost added: seq<nat>, ghost sent: seq<nat>)
      requires Valid() && forall c :: c in calls ==> c.ti.Valid() && 0 < c.dropRoom
      requires forall stack, h, k :: Distinct(stack) && Clean(h, stack) ==> GoodAlloc(alloc(stack, h, k), k, stack, h)
      requires forall i, k :: 0 <= i < |calls| ==> GoodRecv(recv(i, k), k, calls[i].ti.mtuBuffers, bufferSize)
      modifies this, (set c | c in calls :: c.ti)`rxReady, (set c | c in calls :: c.ti)`rxMsg
      ensures Valid() && forall c :: c in calls ==> c.ti.Valid()
      ensures multiset(rxBuffers) + multiset(sent) == multiset(old(rxBuffers)) + multiset(added)
    {
      hide Distinct;
      hide Clean;
      hide GoodAlloc;
      hide GoodRecv;
      hide Flatten;
      added, sent := [], [];
      for i := 0 to |calls|
        invariant Valid() && forall c :: c in calls ==> c.ti.Valid()
        invariant multiset(rxBuffers) + multiset(sent) == multiset(old(rxBuffers)) + multiset(added)
      {
        var c := calls[i];
        assert c in calls;
        var stack, h := rxBuffers, headers;
        var n, enqueued;
        ghost var more, offered, chains;
        n, enqueued, more, offered, chains := RxIface(c.ti, bufferSize, k => alloc(stack, h, k), k => recv(i, k),
          c.frameRoom, c.dropRoom, c.nextIndex, c.adminDown);
        RunBalance(old(rxBuffers), stack, rxBuffers, added, more, sent, Flatten(chains));
        added, sent := added + more, sent + Flatten(chains);
      }
    }

    /** The batch size for the next call; the subtraction is unsigned, so it is positive
        unless the two are equal. */
    method UpdateReady(ti: Interface, n: nat)
      requires ti.Valid() && n <= ti.rxReady
      modifies ti`rxReady
      ensures ti.Valid()
      ensures n < old(ti.rxReady) ==>
                ti.rxReady == if old(ti.rxReady) - n < n then n else old(ti.rxReady) - n
      ensures n == old(ti.rxReady) ==> ti.rxReady == if 2 * n > 256 then 256 else 2 * n
    {
      if ti.rxReady - n != 0 {
        ti.rxReady := ti.rxReady - n;
        if ti.rxReady < n {
          ti.rxReady := n;
        }
      } else if ti.rxReady + n > MAX_RECV {
        ti.rxReady := MAX_RECV;
      } else {
        ti.rxReady := ti.rxReady + n;
      }
    }
  }

  lemma RunBalance(first: seq<nat>, stack: seq<nat>, stack': seq<nat>, added: seq<nat>, more: seq<nat>, sent: seq<nat>,
                   gone: seq<nat>)
    requires multiset(stack) + multiset(sent) == multiset(first) + multiset(added)
    requires multiset(stack') + multiset(gone) == multiset(stack) + multiset(more)
    ensures multiset(stack') + multiset(sent + gone) == multiset(first) + multiset(added + more)
  {
    calc {
      multiset(stack') + multiset(sent + gone);
      (multiset(stack') + multiset(gone)) + multiset(sent);
      (multiset(stack) + multiset(more)) + multiset(sent);
      (multiset(stack) + multiset(sent)) + multiset(more);
      (multiset(first) + multiset(added)) + multiset(more);
      multiset(first) + multiset(added + more);
    }
  }

  /** One call of turbotap_rx_iface. */
  datatype Call = Call(ti: Interface, frameRoom: nat, dropRoom: nat, nextIndex: nat, adminDown: bool)

  /** A message fits when more than its buffers are left, so all ready ones do exactly when the
      stack has more than they need. */
  lemma AllFit(len: nat, i: nat, ready: nat, mtuBuffers: nat)
    requires i <= ready && (i == 0 || len > i * mtuBuffers) && (i == ready || len <= (i + 1) * mtuBuffers)
    requires 0 < ready
    ensures i == ready <==> len > ready * mtuBuffers
  {
    assert i < ready ==> (i + 1) * mtuBuffers <= ready * mtuBuffers;
  }

  /** What vlib_buffer_alloc guarantees of the buffers it hands out. */
  ghost predicate GoodAlloc(added: seq<nat>, k: nat, stack: seq<nat>, h: Headers) {
    |added| <= k && Distinct(stack + added) && Clean(h, stack + added)
  }

  /** What recvmmsg guarantees: no more messages than offered, each non-empty and within
      its iovecs. */
  ghost predicate GoodRecv(lens: seq<nat>, k: nat, mtuBuffers: nat, bufferSize: nat) {
    |lens| <= k && forall m :: 0 <= m < |lens| ==> 0 < lens[m] <= Room(mtuBuffers, bufferSize)
  }

  function WithLengths(rxMsg: seq<Msg>, lens: seq<nat>): (r: seq<Msg>)
    requires |lens| <= |rxMsg|
    ensures |r| == |rxMsg|
    ensures forall m :: 0 <= m < |r| ==> r[m].iov == rxMsg[m].iov
    ensures forall m :: 0 <= m < |lens| ==> r[m].msgLen == lens[m]
  {
    seq(|rxMsg|, m requires 0 <= m < |rxMsg| => if m < |lens| then rxMsg[m].(msgLen := lens[m]) else rxMsg[m])
  }

  /** Every packet lies in the very buffers offered for its message, from the first on,
      and carries exactly the message. */
  ghost predicate Delivered(h: Headers, rxMsg: seq<Msg>, chains: seq<seq<nat>>, bufferSize: nat) {
    && |chains| <= |rxMsg|
    && forall m :: 0 <= m < |chains| ==>
         && |chains[m]| <= |rxMsg[m].iov|
         && chains[m] == rxMsg[m].iov[..|chains[m]|]
         && Carries(h, chains[m], rxMsg[m].msgLen, bufferSize)
  }

  lemma NothingReceived(h: Headers, rxMsg: seq<Msg>, bufferSize: nat, next: nat)
    ensures Delivered(h, rxMsg, [], bufferSize) && Flatten([]) == [] && Enqueued([], [], next)
  {
  }

  lemma BatchEnd(h: Headers, stack: seq<nat>, starts: seq<nat>, mtuBuffers: nat, lens: seq<nat>, bufferSize: nat,
                 chains: seq<seq<nat>>, len: nat, unused: seq<nat>, rxMsg: seq<Msg>)
    requires Batch(h, stack, starts, mtuBuffers, lens, bufferSize, chains, len, unused)
    requires Distinct(stack) && Offered(rxMsg, stack, starts, mtuBuffers) && |lens| <= |starts|
    ensures len <= |stack| && len + |unused| <= |stack|
    ensures |Reverse(unused)| == |unused|
    ensures multiset(stack) == multiset(stack[..len] + Reverse(unused)) + multiset(Flatten(chains))
    ensures Distinct(stack[..len] + Reverse(unused)) && Clean(h, stack[..len] + Reverse(unused))
    ensures Delivered(h, WithLengths(rxMsg, lens), chains, bufferSize)
  {
    hide Carries;
    StackBack(h, stack, len, unused, chains);
    ReverseSame(unused);
    assert |multiset(Reverse(unused))| == |multiset(unused)|;
    forall m | 0 <= m < |chains|
      ensures |chains[m]| <= |rxMsg[m].iov| && chains[m] == rxMsg[m].iov[..|chains[m]|]
    {
      BuiltFromOffered(h, rxMsg, stack, starts, mtuBuffers, lens, bufferSize, chains, m);
    }
  }

  /** One entry per packet: the node it goes to and its first buffer. */
  ghost predicate Enqueued(enqueued: seq<(nat, nat)>, chains: seq<seq<nat>>, next: nat) {
    && |enqueued| == |chains|
    && forall m :: 0 <= m < |chains| ==> chains[m] != [] && enqueued[m] == (next, chains[m][0])
  }

  /** The room in the current frame after i packets: a downed interface moves on to the frame
      of the drop node after its first packet. */
  function RoomLeft(i: nat, frameRoom: nat, dropRoom: nat, nextIndex: nat, adminDown: bool): int {
    (if 0 < i && adminDown && nextIndex != NEXT_DROP then dropRoom else frameRoom) - i
  }
}
