/** The netlink stream's synchronisation: five dumps in a row, restarted on any
    interference (netlink/librtnl/rtnl.c). */
module Rtnl {

  datatype State = Init | Sync | Ready

  datatype SyncState = Opening | Link | Addr | Route4 | Route6 | Neigh

  /** The timeout value that means no timer (the file's own DBL_MAX). */
  const DBL_MAX: real := 1000000000.0

  const U32: nat := 0x1_0000_0000

  /** What happened on the stream, in order. A message is own when it is no
      notification and carries the number of the last dump request. */
  datatype Event =
    | SocketOpened
    | SocketClosed
    | Asked(dump: SyncState, num: nat, sent: bool)
    | Message(done: bool, own: bool, num: nat)

  /** A netlink message with the outcome of the request it may cause. */
  datatype Kind = Done | Error(readable: bool) | Data | Unknown | Truncated

  datatype Hdr = Hdr(kind: Kind, notify: bool, num: nat, sendOk: bool)

  /** rtnl_ns_t, with the state of its socket and its history. */
  datatype Stream = Stream(state: State, sync: SyncState, open: bool, num: nat, timeout: real, log: seq<Event>)

  function NextSeq(num: nat): nat {
    (num + 1) % U32
  }

  // ---------- the handlers as functions ----------

  function Reset(s: Stream): Stream {
    if s.sync.Opening? then s
    else s.(sync := Opening, open := false, log := s.log + [SocketClosed])
  }

  /** A request takes the next number, whether or not it can be sent. */
  function Ask(s: Stream, dump: SyncState, sent: bool): Stream {
    s.(num := NextSeq(s.num), log := s.log + [Asked(dump, NextSeq(s.num), sent)])
  }

  function AskNext(s: Stream, dump: SyncState, now: real, sendOk: bool): Stream {
    if sendOk then Ask(s, dump, true).(sync := dump, timeout := now + 1.0)
    else Reset(Ask(s, dump, false)).(timeout := now + 1.0)
  }

  function SyncDone(s: Stream, now: real, sendOk: bool): Stream {
    match s.sync
    case Opening => s
    case Link => AskNext(s, Addr, now, sendOk)
    case Addr => AskNext(s, Route4, now, sendOk)
    case Route4 => AskNext(s, Route6, now, sendOk)
    case Route6 => AskNext(s, Neigh, now, sendOk)
    case Neigh => s.(state := Ready, sync := Opening, timeout := DBL_MAX)
  }

  /** The statements in their order: when the link request fails, its reset finds the state
      still OPENING. */
  function SyncTimeout(s: Stream, now: real, openOk: bool, sendOk: bool): Stream {
    if s.sync.Opening? then
      if openOk then
        var asked := Ask(s.(open := true, log := s.log + [SocketOpened]), Link, sendOk);
        var s' := if sendOk then asked else Reset(asked).(timeout := now + 10.0);
        s'.(sync := Link, timeout := now + 2.0)
      else s.(timeout := now + 10.0)
    else Reset(s).(timeout := now + 1.0)
  }

  function Interferes(s: Stream, hdr: Hdr): bool {
    s.state.Sync? && (hdr.notify || hdr.num != s.num)
  }

  function Noted(s: Stream, hdr: Hdr): Stream {
    s.(log := s.log + [Message(hdr.kind.Done?, !hdr.notify && hdr.num == s.num, hdr.num)])
  }

  function Recv(s: Stream, hdr: Hdr, now: real): Stream {
    var s1 := if Interferes(s, hdr) then Reset(Noted(s, hdr)).(timeout := now) else Noted(s, hdr);
    if hdr.kind.Done? then SyncDone(s1, now, hdr.sendOk) else s1
  }

  /** Messages after which the read is given up. */
  predicate Stops(hdr: Hdr) {
    hdr.kind.Truncated? || (hdr.kind.Error? && !hdr.kind.readable)
  }

  /** The messages of one receive buffer. */
  function ReadBuffer(s: Stream, hdrs: seq<Hdr>, now: real): (Stream, bool)
    decreases |hdrs|
  {
    if hdrs == [] then (s, true)
    else if hdrs[0].kind.Truncated? then (s, false)
    else
      var s' := Recv(s, hdrs[0], now);
      if Stops(hdrs[0]) then (s', false) else ReadBuffer(s', hdrs[1..], now)
  }

  /** Receiving goes on until the socket has nothing more, or is not open any longer. */
  function Read(s: Stream, buffers: seq<seq<Hdr>>, now: real): Stream
    decreases |buffers|
  {
    if buffers == [] || !s.open then s
    else
      var (s', more) := ReadBuffer(s, buffers[0], now);
      if more then Read(s', buffers[1..], now) else s'
  }

  datatype Input =
    | OpenEvent(now: real)
    | ReadEvent(now: real, buffers: seq<seq<Hdr>>)
    | ClockEvent(now: real, openOk: bool, sendOk: bool)

  function Step(s: Stream, input: Input): Stream {
    match input
    case OpenEvent(now) => if s.state.Init? then s.(state := Sync, sync := Opening, timeout := now) else s
    case ReadEvent(now, buffers) => Read(s, buffers, now)
    case ClockEvent(now, openOk, sendOk) =>
      if s.timeout < now then
        var s' := s.(timeout := DBL_MAX);
        if s.state.Sync? then SyncTimeout(s', now, openOk, sendOk) else s'
      else s
  }

  function Run(s: Stream, inputs: seq<Input>): Stream {
    if inputs == [] then s else Step(Run(s, inputs[..|inputs| - 1]), inputs[|inputs| - 1])
  }

  // ---------- reading the history ----------

  function IsOpen(log: seq<Event>): bool {
    if log == [] then false
    else match log[|log| - 1]
      case SocketOpened => true
      case SocketClosed => false
      case _ => IsOpen(log[..|log| - 1])
  }

  /** The socket is never opened twice in a row nor closed when not open. */
  predicate Alternates(log: seq<Event>) {
    log != [] ==>
      var rest := log[..|log| - 1];
      && Alternates(rest)
      && (log[|log| - 1].SocketOpened? ==> !IsOpen(rest))
      && (log[|log| - 1].SocketClosed? ==> IsOpen(rest))
  }

  /** What happened since the socket was last opened. */
  function SinceOpen(log: seq<Event>): seq<Event> {
    if log == [] || log[|log| - 1].SocketOpened? then []
    else SinceOpen(log[..|log| - 1]) + [log[|log| - 1]]
  }

  /** The event does not disturb a synchronisation: a message of its own, or a request that
      was sent; the first request may fail, the code then waits for its answer all the same. */
  predicate Harmless(e: Event) {
    && (e.Message? ==> e.own)
    && (e.Asked? ==> e.sent || e.dump.Link?)
  }

  predicate NoInterference(es: seq<Event>) {
    forall i :: 0 <= i < |es| ==> Harmless(es[i])
  }

  /** The dump requests and the completions, in order. */
  datatype Mark = Request(dump: SyncState, num: nat) | Completion(num: nat)

  function MarkOf(e: Event): seq<Mark> {
    match e
    case Asked(dump, num, sent) => [Request(dump, num)]
    case Message(done, own, num) => if done then [Completion(num)] else []
    case _ => []
  }

  function Marks(es: seq<Event>): seq<Mark> {
    if es == [] then [] else Marks(es[..|es| - 1]) + MarkOf(es[|es| - 1])
  }

  function DumpAt(k: nat): SyncState
    requires k < 5
  {
    [Link, Addr, Route4, Route6, Neigh][k]
  }

  function Rank(sync: SyncState): nat
    requires !sync.Opening?
    ensures Rank(sync) < 5 && DumpAt(Rank(sync)) == sync
  {
    match sync
    case Link => 0
    case Addr => 1
    case Route4 => 2
    case Route6 => 3
    case Neigh => 4
  }

  /** Requests 0 to k with consecutive numbers from first on, all but the last completed. */
  function Script(k: nat, first: nat): seq<Mark>
    requires k < 5
  {
    if k == 0 then [Request(Link, first)]
    else Script(k - 1, first) + [Completion((first + k - 1) % U32), Request(DumpAt(k), (first + k) % U32)]
  }

  ghost predicate Syncing(es: seq<Event>, k: nat, num': nat)
    requires k < 5
  {
    && NoInterference(es)
    && exists first: nat :: first < U32 && num' == (first + k) % U32 && Marks(es) == Script(k, first)
  }

  /** Five dumps asked for and completed in order, numbered first to first + 4, and no
      other sequence number nor notification in between. */
  ghost predicate Synced(es: seq<Event>, first: nat) {
    && first < 0x1_0000_0000
    && NoInterference(es)
    && Marks(es) == [
         Request(Link, first), Completion(first),
         Request(Addr, (first + 1) % 0x1_0000_0000), Completion((first + 1) % 0x1_0000_0000),
         Request(Route4, (first + 2) % 0x1_0000_0000), Completion((first + 2) % 0x1_0000_0000),
         Request(Route6, (first + 3) % 0x1_0000_0000), Completion((first + 3) % 0x1_0000_0000),
         Request(Neigh, (first + 4) % 0x1_0000_0000), Completion((first + 4) % 0x1_0000_0000)]
  }

  ghost predicate Inv(s: Stream) {
    && Alternates(s.log) && s.open == IsOpen(s.log) && s.num < U32
    && (s.state.Init? ==> !s.open)
    && (s.state.Sync? ==> (s.open <==> !s.sync.Opening?) && s.timeout < DBL_MAX)
    && (s.state.Ready? ==> s.open && s.sync.Opening? && s.timeout == DBL_MAX)
    && (s.state.Sync? && !s.sync.Opening? ==> Syncing(SinceOpen(s.log), Rank(s.sync), s.num))
    && (s.state.Ready? ==> exists n: nat, first: nat :: n <= |SinceOpen(s.log)| && Synced(SinceOpen(s.log)[..n], first))
  }

  /** A stream as pool_get leaves it: sync state, number and timeout are arbitrary. */
  predicate Fresh(s: Stream) {
    s.state.Init? && !s.open && s.log == [] && s.num < U32
  }

  predicate Timely(input: Input) {
    0.0 <= input.now && input.now + 10.0 < DBL_MAX
  }

  // ---------- appending to the history ----------

  lemma Appended(log: seq<Event>, e: Event)
    ensures IsOpen(log + [e]) == (if e.SocketOpened? then true else if e.SocketClosed? then false else IsOpen(log))
    ensures Alternates(log + [e]) <==>
            Alternates(log) && (e.SocketOpened? ==> !IsOpen(log)) && (e.SocketClosed? ==> IsOpen(log))
    ensures SinceOpen(log + [e]) == if e.SocketOpened? then [] else SinceOpen(log) + [e]
  {
    assert (log + [e])[..|log + [e]| - 1] == log;
  }

  lemma MarksAppended(es: seq<Event>, e: Event)
    ensures Marks(es + [e]) == Marks(es) + MarkOf(e)
    ensures NoInterference(es + [e]) <==> NoInterference(es) && Harmless(e)
  {
    var t := es + [e];
    assert t[..|t| - 1] == es;
    if NoInterference(t) {
      forall i | 0 <= i < |es| ensures Harmless(es[i]) {
        assert es[i] == t[i];
      }
      assert t[|es|] == e;
    }
  }

  /** Between a request and the state change that goes with it. */
  lemma AskKeeps(s: Stream, dump: SyncState, sent: bool)
    requires Alternates(s.log) && s.open == IsOpen(s.log) && s.num < U32
    ensures var a := Ask(s, dump, sent);
      && Alternates(a.log) && a.open == IsOpen(a.log) == s.open && a.num == NextSeq(s.num) < U32
      && SinceOpen(a.log) == SinceOpen(s.log) + [Asked(dump, NextSeq(s.num), sent)]
  {
    Appended(s.log, Asked(dump, NextSeq(s.num), sent));
  }

  lemma NextMod(n: nat)
    ensures NextSeq(n % U32) == (n + 1) % U32
  {
  }

  lemma MarksMore(es: seq<Event>, num: nat, dump: SyncState, next: nat)
    requires NoInterference(es)
    ensures NoInterference(es + [Message(true, true, num), Asked(dump, next, true)])
    ensures Marks(es + [Message(true, true, num), Asked(dump, next, true)]) ==
            Marks(es) + [Completion(num), Request(dump, next)]
  {
    var m, a := Message(true, true, num), Asked(dump, next, true);
    hide NoInterference;
    hide Marks;
    MarksAppended(es, m);
    MarksAppended(es + [m], a);
    assert es + [m] + [a] == es + [m, a];
    assert MarkOf(m) == [Completion(num)] && MarkOf(a) == [Request(dump, next)];
    assert Marks(es) + [Completion(num)] + [Request(dump, next)] == Marks(es) + [Completion(num), Request(dump, next)];
  }

  /** One more completed dump and the next request. */
  lemma ScriptMore(es: seq<Event>, k: nat, num: nat)
    requires k < 4 && Syncing(es, k, num)
    ensures Syncing(es + [Message(true, true, num), Asked(DumpAt(k + 1), NextSeq(num), true)], k + 1, NextSeq(num))
  {
    var first: nat :| first < U32 && num == (first + k) % U32 && Marks(es) == Script(k, first);
    MarksMore(es, num, DumpAt(k + 1), NextSeq(num));
    NextMod(first + k);
    hide NextSeq;
    hide NoInterference;
    assert Script(k + 1, first) ==
           Script(k, first) + [Completion((first + k) % U32), Request(DumpAt(k + 1), (first + (k + 1)) % U32)];
  }

  lemma ScriptWhole(first: nat)
    requires first < U32
    ensures Script(4, first) == [
         Request(Link, first), Completion(first),
         Request(Addr, (first + 1) % U32), Completion((first + 1) % U32),
         Request(Route4, (first + 2) % U32), Completion((first + 2) % U32),
         Request(Route6, (first + 3) % U32), Completion((first + 3) % U32),
         Request(Neigh, (first + 4) % U32)]
  {
    assert first % U32 == first;
    hide DumpAt;
    DumpsInOrder();
    assert Script(1, first) == [Request(Link, first), Completion(first), Request(Addr, (first + 1) % U32)];
    assert Script(2, first) == Script(1, first) + [Completion((first + 1) % U32), Request(Route4, (first + 2) % U32)];
    assert Script(3, first) == Script(2, first) + [Completion((first + 2) % U32), Request(Route6, (first + 3) % U32)];
    assert Script(4, first) == Script(3, first) + [Completion((first + 3) % U32), Request(Neigh, (first + 4) % U32)];
  }

  lemma DumpsInOrder()
    ensures DumpAt(1) == Addr && DumpAt(2) == Route4 && DumpAt(3) == Route6 && DumpAt(4) == Neigh
  {
  }

  lemma ScriptDone(es: seq<Event>, num: nat) returns (first: nat)
    requires Syncing(es, 4, num)
    ensures Synced(es + [Message(true, true, num)], first)
  {
    first :| first < U32 && num == (first + 4) % U32 && Marks(es) == Script(4, first);
    hide Script;
    MarksAppended(es, Message(true, true, num));
    hide NoInterference;
    ScriptWhole(first);
  }

  lemma QuietMessage(es: seq<Event>, e: Event, k: nat, num: nat)
    requires k < 5 && Syncing(es, k, num) && e.Message? && e.own && !e.done
    ensures Syncing(es + [e], k, num)
  {
    MarksAppended(es, e);
    hide NoInterference;
    hide Script;
  }

  lemma SyncedStays(es: seq<Event>, e: Event, n: nat, first: nat)
    requires n <= |es| && Synced(es[..n], first)
    ensures n <= |es + [e]| && Synced((es + [e])[..n], first)
  {
    assert (es + [e])[..n] == es[..n];
  }

  /** A message that changes nothing but the history. */
  lemma NotedKeeps(s: Stream, hdr: Hdr)
    requires Inv(s)
    requires !s.state.Sync? || s.sync.Opening? || (!Interferes(s, hdr) && !hdr.kind.Done?)
    ensures Inv(Noted(s, hdr))
  {
    var e := Message(hdr.kind.Done?, !hdr.notify && hdr.num == s.num, hdr.num);
    Appended(s.log, e);
    hide Synced;
    if s.state.Sync? && !s.sync.Opening? {
      QuietMessage(SinceOpen(s.log), e, Rank(s.sync), s.num);
    }
    hide Syncing;
    if s.state.Ready? {
      var n: nat, first: nat :| n <= |SinceOpen(s.log)| && Synced(SinceOpen(s.log)[..n], first);
      SyncedStays(SinceOpen(s.log), e, n, first);
    }
  }

  lemma AskNextKeeps(s: Stream, hdr: Hdr, k: nat, now: real)
    requires Inv(s) && s.state.Sync? && !s.sync.Opening? && Rank(s.sync) == k < 4
    requires !Interferes(s, hdr) && hdr.kind.Done? && now + 10.0 < DBL_MAX
    ensures Inv(AskNext(Noted(s, hdr), DumpAt(k + 1), now, hdr.sendOk))
    ensures AskNext(Noted(s, hdr), DumpAt(k + 1), now, hdr.sendOk).state.Sync?
  {
    hide NextSeq;
    hide Synced;
    hide Syncing;
    hide Alternates;
    hide IsOpen;
    hide SinceOpen;
    var es, m := SinceOpen(s.log), Message(true, true, s.num);
    var s1 := Noted(s, hdr);
    var dump := DumpAt(k + 1);
    assert s1.log == s.log + [m];
    assert Rank(dump) == k + 1 && !dump.Opening?;
    hide DumpAt;
    hide Rank;
    Appended(s.log, m);
    AskKeeps(s1, dump, hdr.sendOk);
    ScriptMore(es, k, s.num);
    var a := Ask(s1, dump, hdr.sendOk);
    assert SinceOpen(a.log) == es + [m, Asked(dump, NextSeq(s.num), hdr.sendOk)];
    Appended(a.log, SocketClosed);
  }

  lemma ReadyKeeps(s: Stream, hdr: Hdr, now: real)
    requires Inv(s) && s.state.Sync? && s.sync.Neigh? && !Interferes(s, hdr) && hdr.kind.Done?
    ensures Inv(SyncDone(Noted(s, hdr), now, hdr.sendOk))
  {
    var es, m := SinceOpen(s.log), Message(true, true, s.num);
    hide Syncing;
    hide Synced;
    var s' := SyncDone(Noted(s, hdr), now, hdr.sendOk);
    assert s'.log == s.log + [m];
    Appended(s.log, m);
    var first := ScriptDone(es, s.num);
    assert SinceOpen(s'.log) == es + [m];
    assert SinceOpen(s'.log)[..|es + [m]|] == es + [m];
  }

  lemma InterferenceKeeps(s: Stream, hdr: Hdr, now: real)
    requires Inv(s) && s.state.Sync? && now < DBL_MAX
    ensures var s' := Reset(Noted(s, hdr)).(timeout := now);
      Inv(s') && s'.state.Sync? && s'.sync.Opening?
  {
    var e := Message(hdr.kind.Done?, !hdr.notify && hdr.num == s.num, hdr.num);
    Appended(s.log, e);
    Appended(s.log + [e], SocketClosed);
    hide Syncing;
  }

  lemma RecvKeeps(s: Stream, hdr: Hdr, now: real)
    requires Inv(s) && now + 10.0 < DBL_MAX && !s.state.Init?
    ensures Inv(Recv(s, hdr, now)) && !Recv(s, hdr, now).state.Init?
  {
    hide Inv;
    if Interferes(s, hdr) {
      InterferenceKeeps(s, hdr, now);
    } else if hdr.kind.Done? && s.state.Sync? && !s.sync.Opening? {
      if s.sync.Neigh? {
        ReadyKeeps(s, hdr, now);
      } else {
        AskNextKeeps(s, hdr, Rank(s.sync), now);
      }
    } else {
      NotedKeeps(s, hdr);
      DoneIgnored(s, hdr, now);
    }
  }

  /** Outside a synchronisation a completion is only noted. */
  lemma DoneIgnored(s: Stream, hdr: Hdr, now: real)
    requires Inv(s) && (!s.state.Sync? || s.sync.Opening? || !hdr.kind.Done?)
    ensures hdr.kind.Done? && !s.state.Init? ==> SyncDone(Noted(s, hdr), now, hdr.sendOk) == Noted(s, hdr)
  {
  }

  lemma {:induction false} ReadBufferKeeps(s: Stream, hdrs: seq<Hdr>, now: real)
    requires Inv(s) && now + 10.0 < DBL_MAX && !s.state.Init?
    ensures Inv(ReadBuffer(s, hdrs, now).0) && !ReadBuffer(s, hdrs, now).0.state.Init?
    decreases |hdrs|
  {
    hide Inv;
    if hdrs != [] && !hdrs[0].kind.Truncated? {
      RecvKeeps(s, hdrs[0], now);
      ReadBufferKeeps(Recv(s, hdrs[0], now), hdrs[1..], now);
    }
  }

  lemma {:induction false} ReadKeeps(s: Stream, buffers: seq<seq<Hdr>>, now: real)
    requires Inv(s) && now + 10.0 < DBL_MAX
    ensures Inv(Read(s, buffers, now))
    decreases |buffers|
  {
    if buffers != [] && s.open {
      assert !s.state.Init?;
      hide Inv;
      ReadBufferKeeps(s, buffers[0], now);
      ReadKeeps(ReadBuffer(s, buffers[0], now).0, buffers[1..], now);
    }
  }

  lemma FirstAsked(num: nat, sent: bool)
    requires num < U32
    ensures Syncing([Asked(Link, num, sent)], 0, num)
  {
    MarksAppended([], Asked(Link, num, sent));
    assert [] + [Asked(Link, num, sent)] == [Asked(Link, num, sent)];
    assert Marks([Asked(Link, num, sent)]) == Script(0, num);
    assert num == (num + 0) % U32;
  }

  lemma TimeoutKeeps(s: Stream, now: real, openOk: bool, sendOk: bool)
    requires Inv(s) && s.state.Sync? && now + 10.0 < DBL_MAX
    ensures Inv(SyncTimeout(s.(timeout := DBL_MAX), now, openOk, sendOk))
  {
    hide Syncing;
    hide Synced;
    hide Alternates;
    hide IsOpen;
    hide SinceOpen;
    hide NextSeq;
    if s.sync.Opening? {
      var o := s.(open := true, log := s.log + [SocketOpened]);
      Appended(s.log, SocketOpened);
      AskKeeps(o, Link, sendOk);
      var num := NextSeq(s.num);
      FirstAsked(num, sendOk);
      assert [] + [Asked(Link, num, sendOk)] == [Asked(Link, num, sendOk)];
    } else {
      Appended(s.log, SocketClosed);
    }
  }

  lemma StepKeeps(s: Stream, input: Input)
    requires Inv(s) && Timely(input)
    ensures Inv(Step(s, input))
  {
    match input {
      case OpenEvent(now) =>
      case ReadEvent(now, buffers) => ReadKeeps(s, buffers, now);
      case ClockEvent(now, openOk, sendOk) =>
        if s.timeout < now && s.state.Sync? {
          TimeoutKeeps(s, now, openOk, sendOk);
        }
    }
  }

  // ---------- the main results ----------

  lemma {:induction false} RunKeeps(s: Stream, inputs: seq<Input>)
    requires Fresh(s) && forall input :: input in inputs ==> Timely(input)
    ensures Inv(Run(s, inputs))
  {
    if inputs != [] {
      var last := inputs[|inputs| - 1];
      assert last in inputs;
      RunKeeps(s, inputs[..|inputs| - 1]);
      StepKeeps(Run(s, inputs[..|inputs| - 1]), last);
    }
  }

  /** READY means: since the socket was last opened the five dumps were asked for and
      completed in order with consecutive numbers, all requests but perhaps the first were
      sent, and nothing interfered before the last of them completed. */
  lemma ReadyOnlyAfterFiveDumps(s: Stream, inputs: seq<Input>) returns (n: nat, first: nat)
    requires Fresh(s) && forall input :: input in inputs ==> Timely(input)
    requires Run(s, inputs).state.Ready?
    ensures n <= |SinceOpen(Run(s, inputs).log)|
    ensures Synced(SinceOpen(Run(s, inputs).log)[..n], first)
  {
    RunKeeps(s, inputs);
    var es := SinceOpen(Run(s, inputs).log);
    n, first :| n <= |es| && Synced(es[..n], first);
  }

  /** Opens and closes of the socket alternate strictly over every run, a syncing stream
      has it open exactly outside OPENING, a ready stream has it open, and a syncing
      stream always has a timer. */
  lemma SocketDiscipline(s: Stream, inputs: seq<Input>)
    requires Fresh(s) && forall input :: input in inputs ==> Timely(input)
    ensures var r := Run(s, inputs);
      && Alternates(r.log) && r.open == IsOpen(r.log)
      && (r.state.Sync? ==> (r.open <==> !r.sync.Opening?) && r.timeout < DBL_MAX)
      && (r.state.Ready? ==> r.open)
  {
    RunKeeps(s, inputs);
  }

  /** Opening a stream: the synchronisation is due at once. */
  lemma OpenStarts(s: Stream, now: real)
    ensures Step(s, OpenEvent(now)) ==
            if s.state.Init? then s.(state := Sync, sync := Opening, timeout := now) else s
  {
  }

  /** A tick in OPENING: the socket is opened and links are asked for, with two seconds for the
      answer, or another attempt is due in ten. A request that cannot be sent is waited for all
      the same, as its reset finds the state still OPENING. */
  lemma TickOpens(s: Stream, now: real, openOk: bool, sendOk: bool)
    requires s.state.Sync? && s.sync.Opening? && s.timeout < now
    ensures var num := (s.num + 1) % 0x1_0000_0000;
            Step(s, ClockEvent(now, openOk, sendOk)) ==
            if openOk then s.(sync := Link, open := true, num := num, timeout := now + 2.0,
                              log := s.log + [SocketOpened, Asked(Link, num, sendOk)])
            else s.(timeout := now + 10.0)
  {
    var asked := Asked(Link, NextSeq(s.num), sendOk);
    assert s.log + [SocketOpened] + [asked] == s.log + [SocketOpened, asked];
  }

  /** A dump that is not answered in time is given up: the socket is closed, and the next
      attempt is due in a second. */
  lemma LostDumpRestarts(s: Stream, now: real, openOk: bool, sendOk: bool)
    requires s.state.Sync? && !s.sync.Opening? && s.timeout < now
    ensures Step(s, ClockEvent(now, openOk, sendOk)) ==
            s.(sync := Opening, open := false, timeout := now + 1.0, log := s.log + [SocketClosed])
  {
  }

  /** Before its time, and outside a synchronisation, a tick does nothing but clear the timer. */
  lemma TickIdle(s: Stream, now: real, openOk: bool, sendOk: bool)
    requires s.timeout >= now || !s.state.Sync?
    ensures Step(s, ClockEvent(now, openOk, sendOk)) ==
            if s.timeout < now then s.(timeout := 1000000000.0) else s
  {
  }

  /** The next dump after each one: link, address, IPv4 routes, IPv6 routes, neighbours. */
  predicate Follows(dump: SyncState, next: SyncState) {
    (dump, next) in {(Link, Addr), (Addr, Route4), (Route4, Route6), (Route6, Neigh)}
  }

  /** A completed dump: the next one is asked for with the next number and a second for its
      answer; if it cannot be asked for, the socket is closed and the next attempt is due in a
      second; after the neighbours the stream is READY and has no timer. */
  lemma DoneAdvances(s: Stream, hdr: Hdr, now: real)
    requires s.state.Sync? && !s.sync.Opening? && hdr.kind.Done? && !hdr.notify && hdr.num == s.num
    ensures s.sync.Neigh? ==>
              Recv(s, hdr, now) == s.(state := Ready, sync := Opening, timeout := 1000000000.0,
                                      log := s.log + [Message(true, true, s.num)])
    ensures var num := (s.num + 1) % 0x1_0000_0000;
            !s.sync.Neigh? ==>
              exists next ::
                && Follows(s.sync, next)
                && Recv(s, hdr, now) ==
                   if hdr.sendOk
                   then s.(sync := next, num := num, timeout := now + 1.0,
                           log := s.log + [Message(true, true, s.num), Asked(next, num, true)])
                   else s.(sync := Opening, open := false, num := num, timeout := now + 1.0,
                           log := s.log + [Message(true, true, s.num), Asked(next, num, false), SocketClosed])
  {
    if !s.sync.Neigh? {
      var next := DumpAt(Rank(s.sync) + 1);
      assert Follows(s.sync, next);
      var m, a := Message(true, true, s.num), Asked(next, NextSeq(s.num), hdr.sendOk);
      assert s.log + [m] + [a] == s.log + [m, a];
      assert s.log + [m] + [a] + [SocketClosed] == s.log + [m, a, SocketClosed];
    }
  }

  /** A notification or a foreign number during a synchronisation, whatever the message: it
      starts over at once, without waiting. */
  lemma InterferenceRestarts(s: Stream, hdr: Hdr, now: real)
    requires s.state.Sync? && (hdr.notify || hdr.num != s.num)
    ensures var m := Message(hdr.kind.Done?, false, hdr.num);
            Recv(s, hdr, now) ==
            if s.sync.Opening? then s.(timeout := now, log := s.log + [m])
            else s.(sync := Opening, open := false, timeout := now, log := s.log + [m, SocketClosed])
  {
    var m := Message(hdr.kind.Done?, false, hdr.num);
    assert s.log + [m] + [SocketClosed] == s.log + [m, SocketClosed];
  }

  /** Any other message changes nothing but the history. */
  lemma OtherNoted(s: Stream, hdr: Hdr, now: real)
    requires !s.state.Sync? || (!hdr.notify && hdr.num == s.num)
    requires s.sync.Opening? || !hdr.kind.Done?
    ensures Recv(s, hdr, now) ==
            s.(log := s.log + [Message(hdr.kind.Done?, !hdr.notify && hdr.num == s.num, hdr.num)])
  {
  }

  /** The stream after some messages. */
  function Received(s: Stream, hdrs: seq<Hdr>, now: real): Stream {
    if hdrs == [] then s else Recv(Received(s, hdrs[..|hdrs| - 1], now), hdrs[|hdrs| - 1], now)
  }

  /** A buffer is read up to its first message that is cut short, which is not looked at, or
      that is an error without its code, which is the last one handled; then the read ends. */
  lemma {:induction false} ReadUntil(s: Stream, good: seq<Hdr>, rest: seq<Hdr>, now: real)
    requires forall hdr :: hdr in good ==> hdr.kind in {Done, Data, Unknown, Error(true)}
    ensures rest == [] ==> ReadBuffer(s, good + rest, now) == (Received(s, good, now), true)
    ensures rest != [] && rest[0].kind == Truncated ==>
              ReadBuffer(s, good + rest, now) == (Received(s, good, now), false)
    ensures rest != [] && rest[0].kind == Error(false) ==>
              ReadBuffer(s, good + rest, now) == (Received(s, good + [rest[0]], now), false)
    decreases |good|
  {
    hide Recv;
    if good == [] {
      assert good + rest == rest;
      assert rest != [] ==> (good + [rest[0]])[..0] == [];
    } else {
      var first := good[0];
      assert first in good;
      assert (good + rest)[1..] == good[1..] + rest;
      ReadUntil(Recv(s, first, now), good[1..], rest, now);
      ReceivedFirst(s, good, now);
      if rest != [] {
        assert (good + [rest[0]])[1..] == good[1..] + [rest[0]];
        ReceivedFirst(s, good + [rest[0]], now);
      }
    }
  }

  /** Buffer after buffer is read as long as the socket is open. */
  lemma ReadOn(s: Stream, good: seq<Hdr>, rest: seq<Hdr>, more: seq<seq<Hdr>>, now: real)
    requires forall hdr :: hdr in good ==> hdr.kind in {Done, Data, Unknown, Error(true)}
    requires rest != [] ==> rest[0].kind in {Truncated, Error(false)}
    ensures !s.open ==> Read(s, [good + rest] + more, now) == s
    ensures s.open && rest == [] ==> Read(s, [good + rest] + more, now) == Read(Received(s, good, now), more, now)
    ensures s.open && rest != [] ==>
              Read(s, [good + rest] + more, now) ==
              Received(s, if rest[0].kind == Truncated then good else good + [rest[0]], now)
  {
    hide ReadBuffer;
    hide Received;
    ReadUntil(s, good, rest, now);
    var all := [good + rest] + more;
    assert all[0] == good + rest && all[1..] == more;
  }

  lemma {:induction false} ReceivedFirst(s: Stream, hdrs: seq<Hdr>, now: real)
    requires hdrs != []
    ensures Received(s, hdrs, now) == Received(Recv(s, hdrs[0], now), hdrs[1..], now)
    decreases |hdrs|
  {
    hide Recv;
    if |hdrs| > 1 {
      ReceivedFirst(s, hdrs[..|hdrs| - 1], now);
      assert hdrs[..|hdrs| - 1][1..] == hdrs[1..][..|hdrs| - 2];
    }
  }

  /** The answers of an undisturbed kernel. */
  function Answer(num: nat): Hdr {
    Hdr(Done, false, num % 0x1_0000_0000, true)
  }

  lemma AnswerAdvances(s: Stream, n: nat, now: real)
    requires s.state.Sync? && !s.sync.Opening? && s.num == n % U32
    ensures var r := Recv(s, Answer(n), now);
      if s.sync.Neigh? then r.state.Ready?
      else r.state.Sync? && !r.sync.Opening? && Rank(r.sync) == Rank(s.sync) + 1 && r.num == (n + 1) % U32
  {
    NextMod(n);
  }

  /** And the synchronisation can be completed: one tick and five undisturbed answers
      make any stream that waits in OPENING ready. */
  lemma SyncCompletes(s: Stream, now: real, later: real)
    requires s.state.Sync? && s.sync.Opening? && s.timeout < now
    ensures var n := s.num + 1;
      var five := [Answer(n), Answer(n + 1), Answer(n + 2), Answer(n + 3), Answer(n + 4)];
      Run(s, [ClockEvent(now, true, true), ReadEvent(later, [five])]).state.Ready?
  {
    var n := s.num + 1;
    var s0 := Step(s, ClockEvent(now, true, true));
    assert s0.sync.Link? && s0.state.Sync? && s0.open && s0.num == n % U32;
    var s1 := Recv(s0, Answer(n), later);
    AnswerAdvances(s0, n, later);
    var s2 := Recv(s1, Answer(n + 1), later);
    AnswerAdvances(s1, n + 1, later);
    var s3 := Recv(s2, Answer(n + 2), later);
    AnswerAdvances(s2, n + 2, later);
    var s4 := Recv(s3, Answer(n + 3), later);
    AnswerAdvances(s3, n + 3, later);
    var s5 := Recv(s4, Answer(n + 4), later);
    AnswerAdvances(s4, n + 4, later);
    assert s5.state.Ready?;
    var five := [Answer(n), Answer(n + 1), Answer(n + 2), Answer(n + 3), Answer(n + 4)];
    hide Recv;
    ReadFive(s0, five, later);
    var read := ReadEvent(later, [five]);
    var both := [ClockEvent(now, true, true), read];
    assert both[..1] == [ClockEvent(now, true, true)] && both[..1][..0] == [];
    assert Run(s, []) == s;
    assert Run(s, both[..1]) == s0;
    assert Run(s, both) == Step(s0, read);
  }

  lemma {:induction false} RunAppend(s: Stream, a: seq<Input>, b: seq<Input>)
    ensures Run(s, a + b) == Run(Run(s, a), b)
    decreases |b|
  {
    if b == [] {
      assert a + b == a;
    } else {
      var rest := b[..|b| - 1];
      assert (a + b)[..|a + b| - 1] == a + rest;
      RunAppend(s, a, rest);
    }
  }

  /** And from any dump that gets no answer in time: one tick more is enough. */
  lemma SyncRecovers(s: Stream, now: real, next: real, later: real, openOk: bool, sendOk: bool)
    requires s.state.Sync? && !s.sync.Opening? && s.timeout < now && now + 1.0 < next
    ensures var n := s.num + 1;
      var five := [Answer(n), Answer(n + 1), Answer(n + 2), Answer(n + 3), Answer(n + 4)];
      Run(s, [ClockEvent(now, openOk, sendOk), ClockEvent(next, true, true), ReadEvent(later, [five])]).state.Ready?
  {
    var n := s.num + 1;
    var tick := ClockEvent(now, openOk, sendOk);
    var five := [Answer(n), Answer(n + 1), Answer(n + 2), Answer(n + 3), Answer(n + 4)];
    var rest := [ClockEvent(next, true, true), ReadEvent(later, [five])];
    LostDumpRestarts(s, now, openOk, sendOk);
    hide Step;
    assert [tick][..0] == [];
    assert Run(s, []) == s;
    assert Run(s, [tick]) == Step(s, tick);
    SyncCompletes(Step(s, tick), next, later);
    RunAppend(s, [tick], rest);
    assert [tick] + rest == [tick, ClockEvent(next, true, true), ReadEvent(later, [five])];
  }

  lemma ReadFive(s: Stream, hdrs: seq<Hdr>, now: real)
    requires |hdrs| == 5 && s.open && forall i :: 0 <= i < 5 ==> hdrs[i].kind.Done?
    ensures Read(s, [hdrs], now) ==
            Recv(Recv(Recv(Recv(Recv(s, hdrs[0], now), hdrs[1], now), hdrs[2], now), hdrs[3], now), hdrs[4], now)
  {
    hide Recv;
    var t1, t2, t3, t4 := hdrs[1..], hdrs[2..], hdrs[3..], hdrs[4..];
    assert t1[1..] == t2 && t2[1..] == t3 && t3[1..] == t4 && t4[1..] == [];
    var s1 := Recv(s, hdrs[0], now);
    var s2 := Recv(s1, hdrs[1], now);
    var s3 := Recv(s2, hdrs[2], now);
    var s4 := Recv(s3, hdrs[3], now);
    var s5 := Recv(s4, hdrs[4], now);
    assert ReadBuffer(s5, [], now) == (s5, true);
    assert ReadBuffer(s4, t4, now) == (s5, true);
    assert ReadBuffer(s3, t3, now) == (s5, true);
    assert ReadBuffer(s2, t2, now) == (s5, true);
    assert ReadBuffer(s1, t1, now) == (s5, true);
    assert ReadBuffer(s, hdrs, now) == (s5, true);
    assert [hdrs][1..] == [];
    assert Read(s5, [], now) == s5;
  }

  // ---------- the stream itself ----------

  class RtnlStream {
    var state: State
    var syncState: SyncState
    var rtnlSeq: nat
    var timeout: real
    var open: bool  // whether the descriptor is open
    ghost var log: seq<Event>

    ghost function View(): Stream
      reads this
    {
      Stream(state, syncState, open, rtnlSeq, timeout, log)
    }

    /** rtnl_stream_open: only the state is set. */
    constructor (syncState: SyncState, rtnlSeq: nat, timeout: real)
      requires rtnlSeq < U32
      ensures Fresh(View())
    {
      this.state, this.syncState, this.rtnlSeq, this.timeout := Init, syncState, rtnlSeq, timeout;
      this.open, this.log := false, [];
    }

    /** rtnl_dump_request, as far as its sequence counter goes. */
    method DumpRequest(ghost dump: SyncState, sendOk: bool) returns (failed: bool)
      modifies `rtnlSeq, `log
      ensures View() == Ask(old(View()), dump, sendOk) && failed == !sendOk
    {
      rtnlSeq := (rtnlSeq + 1) % U32;
      log := log + [Asked(dump, rtnlSeq, sendOk)];
      failed := !sendOk;
    }

    method SyncReset()
      modifies `syncState, `open, `log
      ensures View() == Reset(old(View()))
    {
      if syncState == Opening {
        return;
      }
      open, log := false, log + [SocketClosed];
      syncState := Opening;
    }

    /** rtnl_sync_done. */
    method HandleDone(now: real, sendOk: bool)
      modifies this
      ensures View() == SyncDone(old(View()), now, sendOk)
    {
      match syncState {
        case Opening =>
        case Link =>
          var failed := DumpRequest(Addr, sendOk);
          if failed {
            SyncReset();
            timeout := now + 1.0;
            return;
          }
          timeout := now + 1.0;
          syncState := Addr;
        case Addr | Route4 =>
          var next := if syncState == Addr then Route4 else Route6;
          var failed := DumpRequest(next, sendOk);
          if failed {
            SyncReset();
            timeout := now + 1.0;
            return;
          }
          timeout := now + 1.0;
          syncState := next;
        case Route6 =>
          var failed := DumpRequest(Neigh, sendOk);
          if failed {
            SyncReset();
            timeout := now + 1.0;
            return;
          }
          timeout := now + 1.0;
          syncState := Neigh;
        case Neigh =>
          state := Ready;
          syncState := Opening;
          timeout := DBL_MAX;
      }
    }

    /** rtnl_sync_timeout. */
    method HandleTimeout(now: real, openOk: bool, sendOk: bool)
      modifies this
      ensures View() == SyncTimeout(old(View()), now, openOk, sendOk)
    {
      match syncState {
        case Opening =>
          if !openOk {
            timeout := now + 10.0;
            return;
          }
          open, log := true, log + [SocketOpened];
          var failed := DumpRequest(Link, sendOk);
          if failed {
            SyncReset();
            timeout := now + 10.0;
          }
          syncState := Link;
          timeout := now + 2.0;
        case _ =>
          SyncReset();
          timeout := now + 1.0;
      }
    }

    /** rtnl_ns_recv; stop tells that the read is to be given up. */
    method HandleMessage(hdr: Hdr, now: real) returns (stop: bool)
      requires !hdr.kind.Truncated?
      modifies this
      ensures View() == Recv(old(View()), hdr, now) && stop == (hdr.kind == Error(false))
    {
      ghost var own := !hdr.notify && hdr.num == rtnlSeq;
      var interferes := state == Sync && (hdr.notify || hdr.num != rtnlSeq);
      log := log + [Message(hdr.kind.Done?, own, hdr.num)];
      if interferes {
        SyncReset();
        timeout := now;
      }
      stop := false;
      match hdr.kind {
        case Done => HandleDone(now, hdr.sendOk);
        case Error(readable) => stop := !readable;
        case _ =>
      }
    }

    /** rtnl_process_read: buffers are what successive recv calls return while the
        socket is open. */
    method ProcessRead(buffers: seq<seq<Hdr>>, now: real)
      modifies this
      ensures View() == Read(old(View()), buffers, now)
    {
      var i := 0;
      while i < |buffers|
        invariant i <= |buffers|
        invariant Read(View(), buffers[i..], now) == Read(old(View()), buffers, now)
      {
        if !open {
          return;
        }
        ghost var s0, b := View(), buffers[i];
        assert buffers[i..][0] == b && buffers[i..][1..] == buffers[i + 1..];
        var j := 0;
        assert b[0..] == b;
        while j < |buffers[i]|
          invariant j <= |buffers[i]|
          invariant ReadBuffer(View(), b[j..], now) == ReadBuffer(s0, b, now)
        {
          assert b[j..][0] == b[j] && b[j..][1..] == b[j + 1..];
          if buffers[i][j].kind.Truncated? {
            return;
          }
          var stop := HandleMessage(buffers[i][j], now);
          if stop {
            return;
          }
          j := j + 1;
        }
        i := i + 1;
      }
    }

    method ProcessOpen(now: real)
      modifies this
      ensures View() == Step(old(View()), OpenEvent(now))
    {
      if state != Init {
        return;
      }
      state := Sync;
      syncState := Opening;
      timeout := now;
    }

    /** The clock branch of rtnl_process for this stream. */
    method ProcessClock(now: real, openOk: bool, sendOk: bool)
      modifies this
      ensures View() == Step(old(View()), ClockEvent(now, openOk, sendOk))
    {
      if timeout < now {
        timeout := DBL_MAX;
        if state == Sync {
          HandleTimeout(now, openOk, sendOk);
        }
      }
    }
  }
}
