/** The database client pools: a bounded request queue, workers that retry, and a table of connections
    they share. Each critical section is one step; connecting and executing happen between steps, so any
    number of threads can be anywhere in between. MySQL's pool closes a broken connection under the
    table's lock and also lets callers borrow connections on their own threads; Redis's pool erases the
    entry first and closes afterwards. */
module DbPool {
  import opened Wrappers
  import opened Queues

  const MAX_PENDING_REQ: nat := 256
  const MAX_RETRY: nat := 3
  const MIN_REQ_ID: nat := 100

  /** A connection object's address: free to be used again once the object is deleted. */
  type Addr = nat

  /** `pops` counts how often a worker has taken the request. */
  datatype Req = Req(id: nat, retry: nat, pops: nat)

  datatype Job = Request(req: Req) | Query   // Query: execQuery on a caller's thread

  datatype Pc =
    | Idle
    | Got(job: Job)                             // about to ask for a connection
    | Connecting(job: Job, clt: Addr)           // entered a new one as busy, connecting it
    | Have(job: Job, clt: Addr)
    | NoClient(job: Job)
    | Done(clt: Addr)                           // answered, about to give the connection back
    | Erased(clt: Addr, rest: Option<Job>)      // taken out of the table, not yet deleted
    | Exited

  datatype Outcome = Handled | NoAvailClient

  datatype Answer = Answer(id: nat, pops: nat, outcome: Outcome)

  datatype Pool = Pool(
    poolSize: nat,
    workers: nat,               // the first threads are the pool's workers, the others its callers
    closesUnderLock: bool,
    queue: seq<Req>,
    exit: bool,
    nextId: nat,
    accepted: set<nat>,
    threads: seq<Pc>,
    clients: map<Addr, bool>,   // _clt2idle
    connected: set<Addr>,
    answers: seq<Answer>,
    drained: seq<Req>)

  function Init(poolSize: nat, workers: nat, threads: nat, closesUnderLock: bool): Pool
    requires workers <= threads
  {
    Pool(poolSize, workers, closesUnderLock, [], false, MIN_REQ_ID, {}, seq(threads, _ => Idle), map[], {}, [], [])
  }

  datatype Event =
    | Submit
    | Call(w: nat)                   // a caller starts execQuery
    | Pop(w: nat)
    | Alloc(w: nat, clt: Addr)       // clt: which idle entry the scan meets, or where `new` lands
    | Connected(w: nat, ok: bool)
    | Serve(w: nat, up: bool)        // up: the connection survives
    | Retry(w: nat)
    | Finish(w: nat)
    | Close(w: nat)
    | Stop
    | Drain

  // ---- steps ------------------------------------------------------------------------------------

  predicate HasIdle(clients: map<Addr, bool>) {
    exists a :: a in clients && clients[a]
  }

  /** The object a thread is working with. */
  function AddrOf(pc: Pc): Option<Addr> {
    if pc.Connecting? || pc.Have? || pc.Done? || pc.Erased? then Some(pc.clt) else None
  }

  predicate InUse(threads: seq<Pc>, a: Addr) {
    exists i :: 0 <= i < |threads| && AddrOf(threads[i]) == Some(a)
  }

  function At(s: Pool, w: nat): Pc {
    if w < |s.threads| then s.threads[w] else Exited
  }

  function Goto(s: Pool, w: nat, pc: Pc): Pool
    requires w < |s.threads|
  {
    s.(threads := s.threads[w := pc])
  }

  /** What no step changes. */
  predicate Frame(s: Pool, t: Pool) {
    t.workers == s.workers && t.poolSize == s.poolSize && |t.threads| == |s.threads|
  }

  /** What only a submission changes. */
  predicate SameIds(s: Pool, t: Pool) {
    Frame(s, t) && t.accepted == s.accepted && t.nextId == s.nextId
  }

  /** No step answers more than one request. */
  predicate OneMore(a: seq<Answer>, b: seq<Answer>) {
    b == a || (|b| == |a| + 1 && b[..|a|] == a)
  }

  function StepSubmit(s: Pool): (t: Pool)
    ensures Frame(s, t) && t.answers == s.answers
  {
    var u := s.(nextId := s.nextId + 1);
    if |s.queue| < MAX_PENDING_REQ
    then u.(queue := Pushed(s.queue, MAX_PENDING_REQ, Req(s.nextId, 0, 0)), accepted := s.accepted + {s.nextId})
    else u
  }

  function StepPop(s: Pool, w: nat): (t: Pool)
    ensures SameIds(s, t) && t.answers == s.answers
  {
    if !At(s, w).Idle? || w >= s.workers then s
    else match Taken(s.queue, s.exit)
      case Exit => Goto(s, w, Exited)
      case Timeout => s
      case Item(r) => Goto(s, w, Got(Request(r.(pops := r.pops + 1)))).(queue := s.queue[1..])
  }

  function StepAlloc(s: Pool, w: nat, a: Addr): (t: Pool)
    ensures SameIds(s, t) && t.answers == s.answers
  {
    if !At(s, w).Got? then s
    else if HasIdle(s.clients) then
      if a in s.clients && s.clients[a]
      then Goto(s, w, Have(s.threads[w].job, a)).(clients := s.clients[a := false]) else s
    else if |s.clients| < s.poolSize then
      if a !in s.clients && !InUse(s.threads, a)
      then Goto(s, w, Connecting(s.threads[w].job, a))
             .(clients := s.clients[a := false], connected := s.connected - {a}) else s
    else Goto(s, w, NoClient(s.threads[w].job))
  }

  function StepConnected(s: Pool, w: nat, ok: bool): (t: Pool)
    ensures SameIds(s, t) && t.answers == s.answers
  {
    if !At(s, w).Connecting? then s
    else
      var pc := s.threads[w];
      if ok then Goto(s, w, Have(pc.job, pc.clt)).(connected := s.connected + {pc.clt})
      else Goto(s, w, NoClient(pc.job)).(clients := s.clients - {pc.clt})
  }

  /** `closeClient`, and then whatever the thread has left to do. */
  function CloseClient(s: Pool, w: nat, rest: Option<Job>): Pool
    requires w < |s.threads| && AddrOf(s.threads[w]).Some?
  {
    var a := s.threads[w].clt;
    Goto(s, w, if !s.closesUnderLock then Erased(a, rest) else if rest.Some? then NoClient(rest.value) else Idle)
      .(clients := s.clients - {a})
  }

  function StepServe(s: Pool, w: nat, up: bool): (t: Pool)
    ensures SameIds(s, t) && OneMore(s.answers, t.answers)
  {
    if !At(s, w).Have? then s
    else
      var pc := s.threads[w];
      if pc.job.Query? || pc.clt in s.connected then
        Goto(s, w, Done(pc.clt))
          .(connected := if up then s.connected else s.connected - {pc.clt},
            answers := if pc.job.Query? then s.answers
                       else s.answers + [Answer(pc.job.req.id, pc.job.req.pops, Handled)])
      else CloseClient(s, w, Some(pc.job))
  }

  function StepRetry(s: Pool, w: nat): (t: Pool)
    ensures SameIds(s, t) && OneMore(s.answers, t.answers)
  {
    if !At(s, w).NoClient? then s
    else match s.threads[w].job
      case Query => Goto(s, w, Idle)
      case Request(r) =>
        if r.retry >= MAX_RETRY
        then Goto(s, w, Idle).(answers := s.answers + [Answer(r.id, r.pops, NoAvailClient)])
        else Goto(s, w, Idle).(queue := [r.(retry := r.retry + 1)] + s.queue)
  }

  function StepFinish(s: Pool, w: nat): (t: Pool)
    ensures SameIds(s, t) && t.answers == s.answers
  {
    if !At(s, w).Done? then s
    else
      var a := s.threads[w].clt;
      if a in s.connected
      then Goto(s, w, Idle).(clients := if a in s.clients then s.clients[a := true] else s.clients)
      else CloseClient(s, w, None)
  }

  function StepClose(s: Pool, w: nat): (t: Pool)
    ensures SameIds(s, t) && t.answers == s.answers
  {
    if !At(s, w).Erased? then s
    else Goto(s, w, if s.threads[w].rest.Some? then NoClient(s.threads[w].rest.value) else Idle)
  }

  predicate AllExited(s: Pool) {
    s.workers <= |s.threads| && forall i :: 0 <= i < s.workers ==> s.threads[i].Exited?
  }

  function Step(s: Pool, e: Event): (t: Pool)
    ensures Frame(s, t) && OneMore(s.answers, t.answers)
    ensures !e.Submit? ==> SameIds(s, t)
  {
    match e
    case Submit => StepSubmit(s)
    case Call(w) => if At(s, w).Idle? && w >= s.workers then Goto(s, w, Got(Query)) else s
    case Pop(w) => StepPop(s, w)
    case Alloc(w, a) => StepAlloc(s, w, a)
    case Connected(w, ok) => StepConnected(s, w, ok)
    case Serve(w, up) => StepServe(s, w, up)
    case Retry(w) => StepRetry(s, w)
    case Finish(w) => StepFinish(s, w)
    case Close(w) => StepClose(s, w)
    case Stop => s.(exit := true)
    case Drain => if s.exit && AllExited(s) then s.(drained := s.drained + s.queue, queue := []) else s
  }

  function Run(s: Pool, es: seq<Event>): Pool
    decreases |es|
  {
    if es == [] then s else Run(Step(s, es[0]), es[1..])
  }

  // ---- weighing the state -----------------------------------------------------------------------

  /** What a sum over queue and threads counts: the requests with one id, all requests, or the work left. */
  datatype Scale = Of(id: nat) | Any | Work

  function Held(pc: Pc): Option<Req> {
    match pc
    case Got(Request(r)) => Some(r)
    case Connecting(Request(r), _) => Some(r)
    case Have(Request(r), _) => Some(r)
    case NoClient(Request(r)) => Some(r)
    case Erased(_, Some(Request(r))) => Some(r)
    case _ => None
  }

  /** A queued request is worth ten steps for each of the attempts it has left. */
  function Attempts(r: Req): nat {
    if r.retry <= MAX_RETRY then 10 * (MAX_RETRY + 1 - r.retry) else 10
  }

  function JobWork(j: Job): (n: nat)
    ensures n >= 10
  {
    match j
    case Query => 10
    case Request(r) => Attempts(r)
  }

  function Rank(pc: Pc): nat {
    match pc
    case Exited => 0
    case Idle => 1
    case Erased(_, None) => 2
    case Done(_) => 3
    case NoClient(j) => JobWork(j) - 4
    case Erased(_, Some(j)) => JobWork(j) - 3
    case Have(j, _) => JobWork(j) - 2
    case Connecting(j, _) => JobWork(j) - 1
    case Got(j) => JobWork(j)
  }

  function Heft(k: Scale, r: Req): nat {
    match k
    case Of(id) => if r.id == id then 1 else 0
    case Any => 1
    case Work => Attempts(r)
  }

  function Load(k: Scale, pc: Pc): nat {
    if k.Work? then Rank(pc) else if Held(pc).Some? then Heft(k, Held(pc).value) else 0
  }

  function Queued(k: Scale, q: seq<Req>): nat {
    if q == [] then 0 else Heft(k, q[0]) + Queued(k, q[1..])
  }

  function Carried(k: Scale, threads: seq<Pc>): nat {
    if threads == [] then 0 else Load(k, threads[0]) + Carried(k, threads[1..])
  }

  function Weigh(k: Scale, s: Pool): nat {
    Queued(k, s.queue) + Carried(k, s.threads)
  }

  lemma {:induction false} QueuedAppend(k: Scale, a: seq<Req>, b: seq<Req>)
    ensures Queued(k, a + b) == Queued(k, a) + Queued(k, b)
  {
    if a == [] {
      assert a + b == b;
    } else {
      assert (a + b)[1..] == a[1..] + b;
      QueuedAppend(k, a[1..], b);
    }
  }

  lemma QueuedOne(k: Scale, r: Req)
    ensures Queued(k, [r]) == Heft(k, r)
  {
    assert [r][1..] == [];
  }

  lemma {:induction false} CarriedGoto(k: Scale, threads: seq<Pc>, w: nat, pc: Pc)
    requires w < |threads|
    ensures Carried(k, threads[w := pc]) + Load(k, threads[w]) == Carried(k, threads) + Load(k, pc)
  {
    if w == 0 {
      assert threads[w := pc][1..] == threads[1..];
    } else {
      assert threads[w := pc][1..] == threads[1..][w - 1 := pc];
      CarriedGoto(k, threads[1..], w - 1, pc);
    }
  }

  lemma {:induction false} QueuedAny(q: seq<Req>)
    ensures Queued(Any, q) == |q|
  {
    if q != [] {
      QueuedAny(q[1..]);
    }
  }

  // How each kind of step moves the weight: a thread goes from one place to another ...

  lemma WeighGoto(k: Scale, s: Pool, w: nat, t: Pool)
    requires w < |s.threads| && |t.threads| == |s.threads| && t.threads == s.threads[w := t.threads[w]]
    requires t.queue == s.queue
    ensures Weigh(k, t) + Load(k, s.threads[w]) == Weigh(k, s) + Load(k, t.threads[w])
  {
    CarriedGoto(k, s.threads, w, t.threads[w]);
  }

  /** ... and a request may leave or enter the queue at its head, or enter at its tail. */
  lemma WeighPop(k: Scale, s: Pool, w: nat, pc: Pc)
    requires w < |s.threads| && s.queue != []
    ensures Weigh(k, Goto(s, w, pc).(queue := s.queue[1..])) + Load(k, s.threads[w]) + Heft(k, s.queue[0])
         == Weigh(k, s) + Load(k, pc)
  {
    CarriedGoto(k, s.threads, w, pc);
  }

  lemma WeighRequeue(k: Scale, s: Pool, w: nat, pc: Pc, r: Req)
    requires w < |s.threads|
    ensures Weigh(k, Goto(s, w, pc).(queue := [r] + s.queue)) + Load(k, s.threads[w])
         == Weigh(k, s) + Load(k, pc) + Heft(k, r)
  {
    CarriedGoto(k, s.threads, w, pc);
    QueuedAppend(k, [r], s.queue);
    QueuedOne(k, r);
  }

  lemma WeighSubmit(k: Scale, s: Pool)
    requires |s.queue| < MAX_PENDING_REQ
    ensures Weigh(k, StepSubmit(s)) == Weigh(k, s) + Heft(k, Req(s.nextId, 0, 0))
  {
    QueuedAppend(k, s.queue, [Req(s.nextId, 0, 0)]);
    QueuedOne(k, Req(s.nextId, 0, 0));
  }
}
