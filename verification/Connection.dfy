/** The sending half of a connection: a bounded write queue drained by the I/O thread, and a flag that
    mirrors whether the poller watches the socket for writability.

    The queue's mutex serialises the critical sections, but `leaveMonitor` stores its two atomics without
    it, so the steps of `enableWrite` (load, compare-and-swap, poll update) are interleaved one by one with
    everything else. A run is any list of events; an event that is not enabled changes nothing. */
module Connection {
  import opened Bytes

  const MAX_QUEUED: nat := 256

  /** An accepted connection is monitored once; an asynchronous client is monitored again after each
      reconnect. */
  datatype Role = Server | Client

  datatype Life =
    | Fresh     // not yet known to the poller
    | Added     // known to the poller, without write interest
    | Joined    // the poller's descriptor is published
    | Leaving   // ... and withdrawn
    | Cleared   // ... and the flag cleared
    | Gone      // removed from the poller

  datatype Io =
    | Idle
    | Sending(msg: Bytes)   // popped, not yet written
    | PutBack(msg: Bytes)   // the unwritten rest, about to return to the queue
    | Recheck               // found the queue empty
    | Broken(msg: Bytes)    // the write failed

  datatype Thread = Poster | IoThread | Joiner

  /** Who holds the queue's mutex and how far its call of `enableWrite` is. */
  datatype Crit =
    | Free
    | Calling(who: Thread, enable: bool)
    | Loaded(who: Thread, enable: bool, efd: bool)
    | Swapped(who: Thread, enable: bool)

  datatype State = State(
    role: Role,
    queue: seq<Bytes>,
    stream: seq<Bytes>,   // what this connection has been given to carry
    wire: Bytes,          // what the socket has taken of it
    flag: bool,           // _enableWrite
    efd: bool,            // _efd is valid
    fd: bool,             // _fd is valid
    registered: bool,     // the poller knows the socket
    write: bool,          // ... and watches it for writability
    crit: Crit,
    io: Io,
    life: Life)

  function Init(role: Role): State {
    State(role, [], [], [], false, false, role == Server, false, false, Free, Idle, Fresh)
  }

  datatype Event =
    | Post(msg: Bytes)
    | Load | Swap | Poll                                   // inside enableWrite
    | Pop | Sent(n: nat) | Again | Fail | Requeue | Empty  // inside sendData
    | Add | Join                                           // sp_add, joinMonitor
    | LeaveEfd | LeaveFlag | Delete                        // leaveMonitor, sp_del
    | CloseFd | OpenFd                                     // disconnect, connect

  // ---- steps ------------------------------------------------------------------------------------

  function Release(s: State): State {
    s.(crit := Free, io := if s.crit != Free && s.crit.who == IoThread then Idle else s.io)
  }

  function StepPost(s: State, msg: Bytes): State {
    if s.crit != Free || |s.queue| > MAX_QUEUED then s
    else s.(queue := s.queue + [msg], stream := s.stream + [msg], crit := Calling(Poster, true))
  }

  /** What most steps leave alone. */
  predicate SameStreams(s: State, t: State) {
    t.stream == s.stream && t.wire == s.wire
  }

  function StepLoad(s: State): (t: State)
    ensures SameStreams(s, t)
  {
    if !s.crit.Calling? then s else s.(crit := Loaded(s.crit.who, s.crit.enable, s.efd))
  }

  function StepSwap(s: State): (t: State)
    ensures SameStreams(s, t)
  {
    if !s.crit.Loaded? then s
    else if !s.fd || !s.crit.efd || s.flag == s.crit.enable then Release(s)
    else s.(flag := s.crit.enable, crit := Swapped(s.crit.who, s.crit.enable))
  }

  function StepPoll(s: State): (t: State)
    ensures SameStreams(s, t)
  {
    if !s.crit.Swapped? then s else Release(s).(write := if s.registered then s.crit.enable else s.write)
  }

  /** The I/O thread reaches a connection only through its table of monitored ones. */
  predicate Found(s: State) {
    if s.role == Server then s.life != Fresh && s.life != Added else s.life == Joined
  }

  function StepPop(s: State): (t: State)
    ensures SameStreams(s, t)
  {
    if !s.io.Idle? || s.crit != Free || !Found(s) then s
    else if s.queue == [] then s.(io := Recheck)
    else s.(queue := s.queue[1..], io := Sending(s.queue[0]))
  }

  function StepSent(s: State, n: nat): State {
    if !s.io.Sending? || !(0 < n <= |s.io.msg|) then s
    else s.(wire := s.wire + s.io.msg[..n], io := if n == |s.io.msg| then Idle else PutBack(s.io.msg[n..]))
  }

  function StepRequeue(s: State): (t: State)
    ensures SameStreams(s, t)
  {
    if !s.io.PutBack? || s.crit != Free then s else s.(queue := [s.io.msg] + s.queue, io := Idle)
  }

  function StepEmpty(s: State): (t: State)
    ensures SameStreams(s, t)
  {
    if !s.io.Recheck? || s.crit != Free then s
    else if s.queue == [] then s.(crit := Calling(IoThread, false))
    else s.(io := Idle)
  }

  /** A client is withdrawn by the I/O thread itself, between two of its calls; an accepted connection
      also by the thread that expires it, at any moment. */
  predicate MayLeave(s: State) {
    && s.life == Joined
    && (s.crit == Free || s.crit.who != Joiner)
    && (s.role == Client ==> s.io.Idle? || s.io.Broken?)
  }

  function StepMonitor(s: State, e: Event): (t: State)
    ensures SameStreams(s, t)
  {
    match e
    case Add =>
      if s.fd && (s.life == Fresh || (s.role == Client && s.life == Gone))
        then s.(life := Added, registered := true, write := false) else s
    case Join =>
      if s.life == Added && s.crit == Free
        then s.(life := Joined, flag := false, efd := true,
                crit := if s.queue == [] then Free else Calling(Joiner, true)) else s
    case LeaveEfd => if MayLeave(s) then s.(life := Leaving, efd := false) else s
    case LeaveFlag => if s.life == Leaving then s.(life := Cleared, flag := false) else s
    case Delete => if s.life == Cleared then s.(life := Gone, registered := false, write := false) else s
    case _ => s
  }

  /** Only a client reconnects, and only while it is not monitored. What is still queued becomes the
      beginning of the new connection's stream. */
  function StepReconnect(s: State, e: Event): State {
    if s.role == Server || (s.life != Fresh && s.life != Gone) then s
    else match e
      case CloseFd => s.(fd := false)
      case OpenFd => if s.fd then s else s.(fd := true, wire := [], stream := s.queue, io := Idle)
      case _ => s
  }

  function Step(s: State, e: Event): State {
    match e
    case Post(m) => StepPost(s, m)
    case Load => StepLoad(s)
    case Swap => StepSwap(s)
    case Poll => StepPoll(s)
    case Pop => StepPop(s)
    case Sent(n) => StepSent(s, n)
    case Again => if s.io.Sending? then s.(io := PutBack(s.io.msg)) else s
    case Fail => if s.io.Sending? then s.(io := Broken(s.io.msg)) else s
    case Requeue => StepRequeue(s)
    case Empty => StepEmpty(s)
    case Add | Join | LeaveEfd | LeaveFlag | Delete => StepMonitor(s, e)
    case CloseFd | OpenFd => StepReconnect(s, e)
  }

  function Run(s: State, es: seq<Event>): State
    decreases |es|
  {
    if es == [] then s else Run(Step(s, es[0]), es[1..])
  }

  // ---- what every run keeps ---------------------------------------------------------------------

  function InFlight(s: State): Bytes {
    match s.io
    case Sending(m) => m
    case PutBack(m) => m
    case Broken(m) => m
    case _ => []
  }

  predicate Busy(s: State) {
    s.io.Sending? || s.io.PutBack?
  }

  /** Nothing is lost, duplicated or reordered between the callers and the socket. */
  predicate Conserved(s: State) {
    s.wire + (InFlight(s) + Concat(s.queue)) == Concat(s.stream)
  }

  predicate Bounded(s: State) {
    |s.queue| <= MAX_QUEUED + 2 && (Busy(s) ==> |s.queue| <= MAX_QUEUED + 1)
  }

  predicate Phases(s: State) {
    && (s.efd <==> s.life == Joined)
    && (s.registered <==> s.life != Fresh && s.life != Gone)
    && (s.registered ==> s.fd)
    && (s.write ==> s.registered)
    && (!s.io.Idle? && !s.io.Broken? ==> Found(s))
    && (s.role == Server ==> s.fd)
  }

  /** What each holder of the mutex is there for. */
  predicate Holder(s: State) {
    s.crit != Free ==>
      match s.crit.who
      case Poster => s.crit.enable && s.queue != []
      case Joiner => s.crit.enable && s.queue != [] && s.life == Joined
      case IoThread => !s.crit.enable && s.queue == [] && s.io == Recheck
  }

  /** How flag and poll interest stand to each other and to the queue while the connection is monitored. */
  predicate Wake(s: State) {
    && (s.life == Added && s.write ==> s.queue != [])
    && (s.life == Joined ==>
         match s.crit
         case Free => s.flag == s.write && (s.queue != [] || Busy(s) ==> s.flag)
         case Calling(who, _) => if who == Joiner then !s.flag else s.flag == s.write && (Busy(s) ==> s.flag)
         case Loaded(who, _, efd) =>
           efd && (if who == Joiner then !s.flag else s.flag == s.write && (Busy(s) ==> s.flag))
         case Swapped(_, enable) => s.flag == enable)
  }

  predicate Inv(s: State) {
    Conserved(s) && Orderly(s)
  }

  lemma ConservedPost(s: State, msg: Bytes)
    requires Conserved(s)
    ensures Conserved(StepPost(s, msg))
  {
    ConcatAppend(s.queue, [msg]);
    ConcatAppend(s.stream, [msg]);
    ConcatOne(msg);
    Assoc(InFlight(s), Concat(s.queue), msg);
    Assoc(s.wire, InFlight(s) + Concat(s.queue), msg);
  }

  lemma FirstOf(wire: Bytes, q: seq<Bytes>)
    requires q != []
    ensures wire + ([] + Concat(q)) == wire + (q[0] + Concat(q[1..]))
  {
    assert [] + Concat(q) == Concat(q);
    assert Concat(q) == q[0] + Concat(q[1..]);
  }

  lemma ConservedPop(s: State)
    requires Conserved(s)
    ensures Conserved(StepPop(s))
  {
    var t := StepPop(s);
    if t.io.Sending? && s.io.Idle? {
      assert t.queue == s.queue[1..] && InFlight(t) == s.queue[0] && InFlight(s) == [];
      FirstOf(s.wire, s.queue);
    } else {
      assert SameData(s, t);
    }
  }

  lemma ConservedSent(s: State, n: nat)
    requires Conserved(s)
    ensures Conserved(StepSent(s, n))
  {
    if s.io.Sending? && 0 < n <= |s.io.msg| {
      var m := s.io.msg;
      assert m[..n] + m[n..] == m;
      Assoc(m[..n], m[n..], Concat(s.queue));
      Assoc(s.wire, m[..n], m[n..] + Concat(s.queue));
      assert n == |m| ==> m[n..] == [];
    }
  }

  lemma ConservedRequeue(s: State)
    requires Conserved(s)
    ensures Conserved(StepRequeue(s))
  {
    if s.io.PutBack? && s.crit == Free {
      var m := s.io.msg;
      assert ([m] + s.queue)[1..] == s.queue;
      assert [] + (m + Concat(s.queue)) == m + Concat(s.queue);
    }
  }

  lemma ConservedOpen(s: State)
    requires Conserved(s)
    ensures Conserved(StepReconnect(s, OpenFd))
  {
    var t := StepReconnect(s, OpenFd);
    if t != s {
      assert t.wire == [] && InFlight(t) == [] && t.stream == t.queue == s.queue;
      assert [] + ([] + Concat(s.queue)) == Concat(s.queue);
    }
  }

  /** Same bytes in the same places. */
  predicate SameData(s: State, t: State) {
    t.wire == s.wire && t.queue == s.queue && t.stream == s.stream && InFlight(t) == InFlight(s)
  }

  lemma CallsKeepData(s: State)
    ensures Holder(s) ==> SameData(s, StepSwap(s)) && SameData(s, StepPoll(s))
    ensures SameData(s, StepLoad(s)) && SameData(s, StepEmpty(s))
  {
    assert Holder(s) ==> SameData(s, Release(s));
  }

  lemma MonitorKeepsData(s: State, e: Event)
    ensures SameData(s, StepMonitor(s, e))
    ensures e != OpenFd ==> SameData(s, StepReconnect(s, e))
  {
  }

  lemma SameDataConserved(s: State, t: State)
    requires Conserved(s) && SameData(s, t)
    ensures Conserved(t)
  {
  }

  lemma ConservedQuiet(s: State, e: Event)
    requires Conserved(s) && Holder(s)
    requires !e.Post? && !e.Pop? && !e.Sent? && !e.Requeue? && !e.OpenFd?
    ensures Conserved(Step(s, e))
  {
    CallsKeepData(s);
    MonitorKeepsData(s, e);
    SameDataConserved(s, Step(s, e));
  }

  lemma ConservedStep(s: State, e: Event)
    requires Conserved(s) && Holder(s)
    ensures Conserved(Step(s, e))
  {
    match e
    case Post(m) =>
      ConservedPost(s, m);
      assert Step(s, e) == StepPost(s, m);
    case Pop =>
      ConservedPop(s);
      assert Step(s, e) == StepPop(s);
    case Sent(n) =>
      ConservedSent(s, n);
      assert Step(s, e) == StepSent(s, n);
    case Requeue =>
      ConservedRequeue(s);
      assert Step(s, e) == StepRequeue(s);
    case OpenFd =>
      ConservedOpen(s);
      assert Step(s, e) == StepReconnect(s, e);
    case _ => ConservedQuiet(s, e);
  }

  predicate Orderly(s: State) {
    Bounded(s) && Phases(s) && Holder(s) && Wake(s)
  }

  // A step changes either the mutex, the I/O thread's place, or the monitoring.

  lemma OrderlyEnable(s: State)
    requires Orderly(s)
    ensures Orderly(StepLoad(s)) && Orderly(StepSwap(s)) && Orderly(StepPoll(s))
  {
  }

  lemma OrderlySend(s: State, n: nat)
    requires Orderly(s)
    ensures Orderly(StepPop(s)) && Orderly(StepSent(s, n)) && Orderly(StepRequeue(s)) && Orderly(StepEmpty(s))
  {
  }

  lemma OrderlyMonitor(s: State, e: Event)
    requires Orderly(s)
    ensures Orderly(StepMonitor(s, e)) && Orderly(StepReconnect(s, e))
  {
  }

  lemma OrderlyStep(s: State, e: Event)
    requires Orderly(s)
    ensures Orderly(Step(s, e))
  {
    OrderlyEnable(s);
    OrderlySend(s, if e.Sent? then e.n else 0);
    OrderlyMonitor(s, e);
  }

  lemma StepKeepsInv(s: State, e: Event)
    requires Inv(s)
    ensures Inv(Step(s, e))
  {
    ConservedStep(s, e);
    OrderlyStep(s, e);
  }

  lemma {:induction false} RunKeepsInv(s: State, es: seq<Event>)
    requires Inv(s)
    ensures Inv(Run(s, es))
    decreases |es|
  {
    if es != [] {
      StepKeepsInv(s, es[0]);
      RunKeepsInv(Step(s, es[0]), es[1..]);
    }
  }

  /** No lost wakeup, over every interleaving: whenever the connection is monitored and the mutex is free,
      anything still to be written has the flag and the poller's write interest on; and the two agree. */
  lemma NoLostWakeup(role: Role, es: seq<Event>)
    ensures var s := Run(Init(role), es);
            s.efd && s.crit == Free ==>
              && (s.queue != [] || Busy(s) ==> s.flag && s.registered && s.write)
              && s.flag == s.write
  {
    RunKeepsInv(Init(role), es);
  }

  /** Over every run the socket has received a prefix of what was accepted, the rest is in the I/O
      thread's hands or queued in order, and the queue stays within two of its limit. */
  lemma StreamConserved(role: Role, es: seq<Event>)
    ensures var s := Run(Init(role), es);
            && s.wire + (InFlight(s) + Concat(s.queue)) == Concat(s.stream)
            && s.wire <= Concat(s.stream)
            && |s.queue| <= 258
  {
    RunKeepsInv(Init(role), es);
  }

  /** A monitored connection at rest with no write interest has written everything. */
  lemma QuietMeansSent(role: Role, es: seq<Event>)
    ensures var s := Run(Init(role), es);
            s.efd && s.crit == Free && s.io == Idle && !s.write ==> s.wire == Concat(s.stream)
  {
    RunKeepsInv(Init(role), es);
    var s := Run(Init(role), es);
    assert s.wire + ([] + []) == s.wire;
  }

  // ---- what a run was given and what it wrote ---------------------------------------------------

  /** The message of a post that finds the mutex free and at most 256 messages waiting. */
  function PostedBy(s: State, e: Event): seq<Bytes> {
    if e.Post? && s.crit == Free && |s.queue| <= 256 then [e.msg] else []
  }

  /** The bytes the socket takes in a send. */
  function WrittenBy(s: State, e: Event): Bytes {
    if e.Sent? && s.io.Sending? && 0 < e.n <= |s.io.msg| then s.io.msg[..e.n] else []
  }

  /** The accepted posts of a run, in order. */
  function Accepted(s: State, es: seq<Event>): seq<Bytes>
    decreases |es|
  {
    if es == [] then [] else PostedBy(s, es[0]) + Accepted(Step(s, es[0]), es[1..])
  }

  /** The bytes its sends wrote, in order. */
  function Written(s: State, es: seq<Event>): Bytes
    decreases |es|
  {
    if es == [] then [] else WrittenBy(s, es[0]) + Written(Step(s, es[0]), es[1..])
  }

  lemma GivenStep(s: State, e: Event)
    requires e != OpenFd
    ensures Step(s, e).stream == s.stream + PostedBy(s, e)
    ensures Step(s, e).wire == s.wire + WrittenBy(s, e)
  {
    if !e.Post? && !e.Sent? {
      assert SameStreams(s, Step(s, e));
    }
  }

  predicate OneConnection(es: seq<Event>) {
    forall i :: 0 <= i < |es| ==> es[i] != OpenFd
  }

  /** As long as the connection is not opened anew, its stream is what it began with and then exactly the accepted
      posts. */
  lemma {:induction false} StreamIsPosts(s: State, es: seq<Event>)
    requires OneConnection(es)
    ensures Run(s, es).stream == s.stream + Accepted(s, es)
    decreases |es|
  {
    if es != [] {
      var t, more := Step(s, es[0]), Accepted(Step(s, es[0]), es[1..]);
      GivenStep(s, es[0]);
      StreamIsPosts(t, es[1..]);
      assert (s.stream + PostedBy(s, es[0])) + more == s.stream + (PostedBy(s, es[0]) + more);
    }
  }

  /** ... and its wire exactly what the sends took. */
  lemma {:induction false} WireIsWritten(s: State, es: seq<Event>)
    requires OneConnection(es)
    ensures Run(s, es).wire == s.wire + Written(s, es)
    decreases |es|
  {
    if es != [] {
      var t, more := Step(s, es[0]), Written(Step(s, es[0]), es[1..]);
      GivenStep(s, es[0]);
      WireIsWritten(t, es[1..]);
      Assoc(s.wire, WrittenBy(s, es[0]), more);
    }
  }

  // ---- why the order of monitoring matters ------------------------------------------------------

  /** Monitored, one message posted, and the I/O thread about to write it. */
  function Started(role: Role, m: Bytes): State {
    State(role, [], [m], [], true, true, true, true, true, Free, Sending(m), Joined)
  }

  const START: seq<Event> := [OpenFd, Add, Join]
  const ENABLE: seq<Event> := [Load, Swap, Poll]

  function Waiting(role: Role): State {
    State(role, [], [], [], false, true, true, true, false, Free, Idle, Joined)
  }

  lemma JoinReachable(role: Role)
    ensures Run(Init(role), START) == Waiting(role)
  {
    ThreeSteps(Init(role), OpenFd, Add, Join);
  }

  lemma PostReachable(role: Role, m: Bytes)
    ensures Run(Run(Waiting(role), [Post(m)]), ENABLE) ==
            Waiting(role).(queue := [m], stream := [m], flag := true, write := true)
  {
    OneStep(Waiting(role), Post(m));
    ThreeSteps(Step(Waiting(role), Post(m)), Load, Swap, Poll);
  }

  lemma StartedReachable(role: Role, m: Bytes)
    ensures Run(Init(role), START + [Post(m)] + ENABLE + [Pop]) == Started(role, m)
  {
    var s := Init(role);
    RunSplit(s, START + [Post(m)] + ENABLE, [Pop]);
    RunSplit(s, START + [Post(m)], ENABLE);
    RunSplit(s, START, [Post(m)]);
    JoinReachable(role);
    PostReachable(role, m);
    OneStep(Waiting(role).(queue := [m], stream := [m], flag := true, write := true), Pop);
  }

  /** Unsent data that nobody will be woken for. */
  predicate Forgotten(s: State) {
    s.efd && s.crit == Free && s.queue != [] && !s.flag && !s.write
  }

  /** A message put back after the connection was withdrawn and monitored anew while it was out. */
  lemma PutBackTooLate(s: State)
    requires s.life == Added && s.crit == Free && s.queue == [] && !s.write && s.io.Sending?
    ensures Forgotten(Run(s, [Join, Again, Requeue]))
  {
    ThreeSteps(s, Join, Again, Requeue);
  }

  /** If a client were withdrawn in the middle of a send, a reachable state would lead to a lost wakeup. */
  lemma ClientLeavesBetweenSends(m: Bytes)
    ensures var s := Started(Client, m);
            && !MayLeave(s)
            && Forgotten(Run(Run(s.(life := Leaving, efd := false), [LeaveFlag, Delete, Add]), [Join, Again, Requeue]))
  {
    var u := Started(Client, m).(life := Leaving, efd := false);
    ThreeSteps(u, LeaveFlag, Delete, Add);
    PutBackTooLate(Run(u, [LeaveFlag, Delete, Add]));
  }

  /** If an accepted connection were monitored a second time, so would it. */
  lemma ServerJoinsOnce(m: Bytes)
    ensures var s := Run(Started(Server, m), [LeaveEfd, LeaveFlag, Delete]);
            && Step(s, Add) == s
            && Forgotten(Run(s.(life := Added, registered := true, write := false), [Join, Again, Requeue]))
  {
    ThreeSteps(Started(Server, m), LeaveEfd, LeaveFlag, Delete);
    var s := Run(Started(Server, m), [LeaveEfd, LeaveFlag, Delete]);
    PutBackTooLate(s.(life := Added, registered := true, write := false));
  }

  // ---- the code as it runs ----------------------------------------------------------------------

  /** What the socket answers to a send. */
  datatype SendResult = Took(n: nat) | WouldBlock | Error

  const SEND_SUCCESS: nat := 0
  const SEND_FAIL: nat := 1
  const SOCK_CLOSED: nat := 2
  const QUEUE_EMPTY: nat := 3

  class TcpUser {
    const role: Role
    var wrQueue: seq<Bytes>
    var enableWriteFlag: bool
    var efd: bool
    var fd: bool
    var closed: bool
    var life: Life
    // the poller's entry for the socket, and the socket's own record
    var registered: bool
    var write: bool
    var wire: Bytes
    ghost var io: Io
    ghost var stream: seq<Bytes>

    /** The machine's state while no thread is inside a critical section. */
    ghost function Now(crit: Crit := Free): State
      reads this
    {
      State(role, wrQueue, stream, wire, enableWriteFlag, efd, fd, registered, write, crit, io, life)
    }

    constructor (r: Role)
      ensures Now() == Init(r) && !closed
    {
      role := r;
      wrQueue, stream, wire := [], [], [];
      enableWriteFlag, efd, fd, registered, write := false, false, r == Server, false, false;
      io, life, closed := Idle, Fresh, false;
    }

    method EnableWrite(enable: bool, ghost who: Thread)
      modifies this`enableWriteFlag, this`write, this`io
      ensures fd && efd ==> enableWriteFlag == enable
      ensures !(fd && efd) ==> enableWriteFlag == old(enableWriteFlag)
      ensures write == if fd && efd && registered && old(enableWriteFlag) != enable then enable else old(write)
      ensures Now() == Run(old(Now(Calling(who, enable))), [Load, Swap, Poll])
    {
      ghost var s := Now(Calling(who, enable));
      ThreeSteps(s, Load, Swap, Poll);
      if fd && efd && enableWriteFlag == !enable {
        enableWriteFlag := enable;
        if registered {
          write := enable;
        }
      }
      io := if who == IoThread then Idle else io;
    }

    /** Refused with more than 256 messages waiting; otherwise the message is the last in the queue. */
    method Post(msg: Bytes) returns (rc: nat)
      modifies this
      ensures rc == if old(|wrQueue|) > MAX_QUEUED then 1 else 0
      ensures rc == 0 ==> wrQueue == old(wrQueue) + [msg] && stream == old(stream) + [msg]
      ensures rc == 1 ==> wrQueue == old(wrQueue) && stream == old(stream)
      ensures rc == 0 && fd && efd ==> enableWriteFlag
      ensures fd == old(fd) && efd == old(efd) && wire == old(wire)
      ensures Now() == Run(old(Now()), [Event.Post(msg)] + [Load, Swap, Poll])
    {
      ghost var s := Now();
      RunSplit(s, [Event.Post(msg)], [Load, Swap, Poll]);
      OneStep(s, Event.Post(msg));
      if |wrQueue| > MAX_QUEUED {
        NobodyCalls(s);
        return 1;
      }
      wrQueue := wrQueue + [msg];
      stream := stream + [msg];
      EnableWrite(true, Poster);
      rc := 0;
    }

    /** `_SendData` */
    method SendQueued(answer: SendResult) returns (rc: nat)
      requires io == Idle && Found(Now())
      requires answer.Took? && wrQueue != [] ==> 0 < answer.n <= |wrQueue[0]|
      modifies this`wrQueue, this`wire, this`io
      ensures rc == if old(wrQueue) == [] then QUEUE_EMPTY else if answer.Error? then SEND_FAIL else SEND_SUCCESS
      ensures old(wrQueue) == [] ==> wrQueue == [] && wire == old(wire)
      ensures old(wrQueue) != [] ==> SentOne(old(wrQueue), old(wire), answer, wrQueue, wire)
      ensures Now() == Run(old(Now()), [Pop, SocketEvent(answer), Requeue])
    {
      SendOutcome(Now(), answer);
      if |wrQueue| == 0 {
        io := Recheck;
        return QUEUE_EMPTY;
      }
      var msg := wrQueue[0];
      wrQueue := wrQueue[1..];
      rc := SEND_SUCCESS;
      match answer
      case Error =>
        rc := SEND_FAIL;
        io := Broken(msg);
      case WouldBlock =>
        wrQueue := [msg] + wrQueue;
      case Took(n) =>
        wire := wire + msg[..n];
        if n < |msg| {
          wrQueue := [msg[n..]] + wrQueue;
        }
    }

    /** `sendData`: one message, or the end of write interest when there is none. */
    method SendData(answer: SendResult) returns (rc: nat)
      requires !closed ==> io == Idle && Found(Now())
      requires answer.Took? && wrQueue != [] ==> 0 < answer.n <= |wrQueue[0]|
      modifies this
      ensures closed == old(closed)
      ensures closed ==> rc == SOCK_CLOSED && Now() == old(Now())
      ensures !closed ==>
                rc == if old(wrQueue) == [] then QUEUE_EMPTY else if answer.Error? then SEND_FAIL else SEND_SUCCESS
      ensures !closed && old(wrQueue) == [] ==> wrQueue == [] && wire == old(wire) && (fd && efd ==> !enableWriteFlag)
      ensures !closed && old(wrQueue) != [] ==>
                SentOne(old(wrQueue), old(wire), answer, wrQueue, wire) && enableWriteFlag == old(enableWriteFlag)
      ensures fd == old(fd) && efd == old(efd)
      ensures !closed ==> Now() == Run(old(Now()), [Pop, SocketEvent(answer), Requeue] + [Empty] + [Load, Swap, Poll])
    {
      if closed {
        return SOCK_CLOSED;
      }
      ghost var s := Now();
      SendDataRun(s, answer);
      SendOutcome(s, answer);
      rc := SendQueued(answer);
      if rc == QUEUE_EMPTY {
        if |wrQueue| == 0 {
          EnableWrite(false, IoThread);
        }
      } else {
        NobodyCalls(Now());
      }
    }

    method JoinMonitor()
      requires life == Added
      modifies this
      ensures efd && wrQueue == old(wrQueue) && fd == old(fd) && registered == old(registered)
      ensures fd ==> (enableWriteFlag <==> wrQueue != [])
      ensures fd && registered && wrQueue != [] ==> write
      ensures Now() == Run(old(Now()), [Join] + [Load, Swap, Poll])
    {
      JoinOutcome(Now());
      life := Joined;
      enableWriteFlag := false;
      efd := true;
      if |wrQueue| != 0 {
        EnableWrite(true, Joiner);
      } else {
        NobodyCalls(Now());
      }
    }

    method LeaveMonitor()
      requires MayLeave(Now())
      modifies this`efd, this`enableWriteFlag, this`life
      ensures !efd && !enableWriteFlag
      ensures Now() == Run(old(Now()), [LeaveEfd, LeaveFlag])
    {
      efd := false;
      enableWriteFlag := false;
      life := Cleared;
    }
  }

  /** What one send does to a queue that is not empty: the bytes the socket took are written, and the others are at
      the head again, unless the socket failed and they are lost. */
  predicate SentOne(queue: seq<Bytes>, wire: Bytes, answer: SendResult, queue': seq<Bytes>, wire': Bytes)
    requires queue != []
  {
    match answer
    case Error => queue' == queue[1..] && wire' == wire
    case WouldBlock => queue' == queue && wire' == wire
    case Took(n) =>
      && 0 < n <= |queue[0]| && wire' == wire + queue[0][..n]
      && queue' == (if n == |queue[0]| then [] else [queue[0][n..]]) + queue[1..]
  }

  /** The event that stands for the socket's answer. */
  function SocketEvent(answer: SendResult): Event {
    match answer
    case Took(n) => Sent(n)
    case WouldBlock => Again
    case Error => Fail
  }

  lemma {:induction false} RunSplit(s: State, a: seq<Event>, b: seq<Event>)
    ensures Run(s, a + b) == Run(Run(s, a), b)
    decreases |a|
  {
    if a == [] {
      assert a + b == b;
    } else {
      assert (a + b)[1..] == a[1..] + b;
      RunSplit(Step(s, a[0]), a[1..], b);
    }
  }

  lemma ThreeSteps(s: State, a: Event, b: Event, c: Event)
    ensures Run(s, [a, b, c]) == Step(Step(Step(s, a), b), c)
  {
    assert [a, b, c][1..] == [b, c] && [b, c][1..] == [c];
    assert Run(s, [a, b, c]) == Run(Step(s, a), [b, c]);
    assert Run(Step(s, a), [b, c]) == Run(Step(Step(s, a), b), [c]);
    OneStep(Step(Step(s, a), b), c);
  }

  lemma OneStep(s: State, a: Event)
    ensures Run(s, [a]) == Step(s, a)
  {
    assert [a][1..] == [];
    assert Run(Step(s, a), []) == Step(s, a);
  }

  /** Where one call of `_SendData` leads when nothing interferes. */
  lemma SendOutcome(s: State, answer: SendResult)
    requires s.io == Idle && Found(s) && s.crit == Free
    requires answer.Took? && s.queue != [] ==> 0 < answer.n <= |s.queue[0]|
    ensures Run(s, [Pop, SocketEvent(answer), Requeue]) ==
            if s.queue == [] then s.(io := Recheck)
            else
              var m := s.queue[0];
              match answer
              case Error => s.(queue := s.queue[1..], io := Broken(m))
              case WouldBlock => s.(queue := [m] + s.queue[1..])
              case Took(n) =>
                s.(wire := s.wire + m[..n], queue := if n < |m| then [m[n..]] + s.queue[1..] else s.queue[1..])
  {
    ThreeSteps(s, Pop, SocketEvent(answer), Requeue);
    if s.queue != [] {
      var s1 := s.(queue := s.queue[1..], io := Sending(s.queue[0]));
      assert Step(s, Pop) == s1;
      Answered(s1, answer);
    }
  }

  function Monitored(s: State): State {
    s.(life := Joined, flag := false, efd := true, crit := if s.queue == [] then Free else Calling(Joiner, true))
  }

  lemma JoinOutcome(s: State)
    requires s.life == Added && s.crit == Free
    ensures Run(s, [Join] + [Load, Swap, Poll]) == Run(Monitored(s), [Load, Swap, Poll])
  {
    RunSplit(s, [Join], [Load, Swap, Poll]);
    OneStep(s, Join);
    assert Step(s, Join) == Monitored(s);
  }

  /** Nobody is inside `enableWrite`. */
  lemma NobodyCalls(s: State)
    requires s.crit == Free
    ensures Run(s, [Load, Swap, Poll]) == s
  {
    ThreeSteps(s, Load, Swap, Poll);
  }

  lemma NextLook(s: State, wasEmpty: bool)
    requires s.crit == Free && (wasEmpty ==> s.queue == [] && s.io == Recheck) && (!wasEmpty ==> !s.io.Recheck?)
    ensures Run(s, [Empty]) == if wasEmpty then s.(crit := Calling(IoThread, false)) else s
  {
    OneStep(s, Empty);
  }

  lemma SendDataRun(s: State, answer: SendResult)
    requires s.io == Idle && Found(s) && s.crit == Free
    requires answer.Took? && s.queue != [] ==> 0 < answer.n <= |s.queue[0]|
    ensures var s1 := Run(s, [Pop, SocketEvent(answer), Requeue]);
            Run(s, [Pop, SocketEvent(answer), Requeue] + [Empty] + [Load, Swap, Poll]) ==
            Run(if s.queue == [] then s1.(crit := Calling(IoThread, false)) else s1, [Load, Swap, Poll])
  {
    RunSplit(s, [Pop, SocketEvent(answer), Requeue] + [Empty], [Load, Swap, Poll]);
    RunSplit(s, [Pop, SocketEvent(answer), Requeue], [Empty]);
    SendOutcome(s, answer);
    NextLook(Run(s, [Pop, SocketEvent(answer), Requeue]), s.queue == []);
  }

  lemma Answered(s: State, answer: SendResult)
    requires s.io.Sending? && s.crit == Free && (answer.Took? ==> 0 < answer.n <= |s.io.msg|)
    ensures Step(Step(s, SocketEvent(answer)), Requeue) ==
            match answer
            case Error => s.(io := Broken(s.io.msg))
            case WouldBlock => s.(queue := [s.io.msg] + s.queue, io := Idle)
            case Took(n) =>
              s.(wire := s.wire + s.io.msg[..n], io := Idle,
                 queue := if n < |s.io.msg| then [s.io.msg[n..]] + s.queue else s.queue)
  {
  }
}
