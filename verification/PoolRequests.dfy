/** What happens to a request in the pool: it is answered once, after at most four attempts, and the pool
    comes to rest. */
module PoolRequests {
  import opened Wrappers
  import opened DbPool

  // ---- every accepted request is in exactly one place -------------------------------------------

  function Tick(k: Scale, x: Answer): nat {
    if k.Of? && x.id != k.id then 0 else 1
  }

  function Answers(k: Scale, answers: seq<Answer>): nat {
    if answers == [] then 0 else Tick(k, answers[0]) + Answers(k, answers[1..])
  }

  lemma {:induction false} AnswersAppend(k: Scale, a: seq<Answer>, x: Answer)
    ensures Answers(k, a + [x]) == Answers(k, a) + Tick(k, x)
  {
    if a == [] {
      assert a + [x] == [x] && [x][1..] == [];
    } else {
      assert (a + [x])[1..] == a[1..] + [x];
      AnswersAppend(k, a[1..], x);
    }
  }

  function Settled(k: Scale, s: Pool): nat {
    Answers(k, s.answers) + Queued(k, s.drained)
  }

  /** In how many places the counted requests are: waiting or in a worker's hands, answered or drained. */
  function Places(k: Scale, s: Pool): nat {
    Weigh(k, s) + Settled(k, s)
  }

  /** A step moves requests around without making or losing one, and none comes back once settled. */
  predicate Moves(k: Scale, s: Pool, t: Pool) {
    Places(k, t) == Places(k, s) && Settled(k, t) >= Settled(k, s)
  }

  lemma MovesPop(k: Scale, s: Pool, w: nat)
    requires !k.Work?
    ensures Moves(k, s, StepPop(s, w))
  {
    if At(s, w).Idle? && w < s.workers {
      WeighGoto(k, s, w, Goto(s, w, Exited));
      if !s.exit && s.queue != [] {
        var r := s.queue[0];
        WeighPop(k, s, w, Got(Request(r.(pops := r.pops + 1))));
      }
    }
  }

  /** A request leaves a worker's hands for the answers. */
  lemma MovesAnswer(k: Scale, s: Pool, w: nat, t: Pool, x: Answer)
    requires !k.Work?
    requires w < |s.threads| && |t.threads| == |s.threads| && t.threads == s.threads[w := t.threads[w]]
    requires Held(s.threads[w]).Some? && Held(s.threads[w]).value.id == x.id && Held(t.threads[w]).None?
    requires t.queue == s.queue && t.answers == s.answers + [x] && t.drained == s.drained
    ensures Moves(k, s, t)
  {
    WeighGoto(k, s, w, t);
    AnswersAppend(k, s.answers, x);
  }

  /** The other steps keep what each thread has in hand. */
  lemma MovesNothing(k: Scale, s: Pool, w: nat, t: Pool)
    requires !k.Work?
    requires w < |s.threads| && |t.threads| == |s.threads| && t.threads == s.threads[w := t.threads[w]]
    requires Held(t.threads[w]) == Held(s.threads[w])
    requires t.queue == s.queue && t.answers == s.answers && t.drained == s.drained
    ensures Moves(k, s, t)
  {
    WeighGoto(k, s, w, t);
  }

  lemma MovesServe(k: Scale, s: Pool, w: nat, up: bool)
    requires !k.Work?
    ensures Moves(k, s, StepServe(s, w, up))
  {
    if At(s, w).Have? {
      var pc, t := s.threads[w], StepServe(s, w, up);
      if pc.job.Request? && pc.clt in s.connected {
        MovesAnswer(k, s, w, t, Answer(pc.job.req.id, pc.job.req.pops, Handled));
      } else {
        MovesNothing(k, s, w, t);
      }
    }
  }

  lemma MovesRetry(k: Scale, s: Pool, w: nat)
    requires !k.Work?
    ensures Moves(k, s, StepRetry(s, w))
  {
    if At(s, w).NoClient? {
      match s.threads[w].job
      case Query =>
        MovesNothing(k, s, w, StepRetry(s, w));
      case Request(r) =>
        if r.retry >= MAX_RETRY {
          MovesAnswer(k, s, w, StepRetry(s, w), Answer(r.id, r.pops, NoAvailClient));
        } else {
          WeighRequeue(k, s, w, Idle, r.(retry := r.retry + 1));
        }
    }
  }

  lemma MovesAlloc(k: Scale, s: Pool, w: nat, a: Addr, ok: bool)
    requires !k.Work?
    ensures Moves(k, s, StepAlloc(s, w, a)) && Moves(k, s, StepConnected(s, w, ok))
  {
    if At(s, w).Got? {
      MovesNothing(k, s, w, StepAlloc(s, w, a));
    }
    if At(s, w).Connecting? {
      MovesNothing(k, s, w, StepConnected(s, w, ok));
    }
  }

  lemma MovesFinish(k: Scale, s: Pool, w: nat)
    requires !k.Work?
    ensures Moves(k, s, StepFinish(s, w)) && Moves(k, s, StepClose(s, w))
  {
    if At(s, w).Done? {
      MovesNothing(k, s, w, StepFinish(s, w));
    }
    if At(s, w).Erased? {
      MovesNothing(k, s, w, StepClose(s, w));
    }
  }

  lemma MovesStep(k: Scale, s: Pool, e: Event)
    requires !k.Work? && !e.Submit?
    ensures Moves(k, s, Step(s, e))
  {
    match e
    case Submit =>
    case Call(w) => if At(s, w).Idle? && w >= s.workers { MovesNothing(k, s, w, Step(s, e)); }
    case Pop(w) => MovesPop(k, s, w);
    case Alloc(w, a) => MovesAlloc(k, s, w, a, true);
    case Connected(w, ok) => MovesAlloc(k, s, w, 0, ok);
    case Serve(w, up) => MovesServe(k, s, w, up);
    case Retry(w) => MovesRetry(k, s, w);
    case Finish(w) => MovesFinish(k, s, w);
    case Close(w) => MovesFinish(k, s, w);
    case Stop =>
    case Drain => QueuedAppend(k, s.drained, s.queue);
  }

  ghost predicate ExactlyOnce(s: Pool) {
    && (forall id :: Places(Of(id), s) == if id in s.accepted then 1 else 0)
    && (forall id :: id in s.accepted ==> id < s.nextId)
  }

  lemma ExactlyOnceStep(s: Pool, e: Event)
    requires ExactlyOnce(s)
    ensures ExactlyOnce(Step(s, e))
  {
    var t := Step(s, e);
    forall id
      ensures Places(Of(id), t) == if id in t.accepted then 1 else 0
    {
      if e.Submit? {
        if |s.queue| < MAX_PENDING_REQ {
          WeighSubmit(Of(id), s);
        }
        assert Places(Of(id), s) == if id in s.accepted then 1 else 0;
      } else {
        MovesStep(Of(id), s, e);
      }
    }
  }

  // ---- attempts and load ------------------------------------------------------------------------

  predicate Shape(s: Pool) {
    && s.workers <= |s.threads|
    && (forall i :: s.workers <= i < |s.threads| ==> Held(s.threads[i]).None?)
    && (!s.exit ==> s.drained == [] && forall i :: 0 <= i < |s.threads| ==> !s.threads[i].Exited?)
  }

  predicate Waiting(r: Req) { r.pops == r.retry <= MAX_RETRY }
  predicate Attempted(pc: Pc) {
    Held(pc).Some? ==> Held(pc).value.pops == Held(pc).value.retry + 1 <= MAX_RETRY + 1
  }

  predicate AllWaiting(q: seq<Req>) { forall i :: 0 <= i < |q| ==> Waiting(q[i]) }
  predicate AllAttempted(ts: seq<Pc>) { forall i :: 0 <= i < |ts| ==> Attempted(ts[i]) }

  predicate Fair(x: Answer) {
    1 <= x.pops <= MAX_RETRY + 1 && (x.outcome == NoAvailClient ==> x.pops == MAX_RETRY + 1)
  }

  predicate AllFair(xs: seq<Answer>) { forall i :: 0 <= i < |xs| ==> Fair(xs[i]) }

  /** A request has been taken once for each retry, plus once more while a worker has it. */
  predicate Counted(s: Pool) {
    AllWaiting(s.queue) && AllAttempted(s.threads) && AllFair(s.answers) && AllWaiting(s.drained)
  }

  lemma CountedPop(s: Pool, w: nat)
    requires Counted(s) && Shape(s)
    ensures Counted(StepPop(s, w)) && Shape(StepPop(s, w))
  {
    if At(s, w).Idle? && w < s.workers && !s.exit && s.queue != [] {
      assert Waiting(s.queue[0]);
    }
  }

  lemma CountedServe(s: Pool, w: nat, up: bool)
    requires Counted(s) && Shape(s)
    ensures Counted(StepServe(s, w, up)) && Shape(StepServe(s, w, up))
  {
    if At(s, w).Have? {
      assert Attempted(s.threads[w]);
    }
  }

  lemma CountedRetry(s: Pool, w: nat)
    requires Counted(s) && Shape(s)
    ensures Counted(StepRetry(s, w)) && Shape(StepRetry(s, w))
  {
    if At(s, w).NoClient? {
      assert Attempted(s.threads[w]);
    }
  }

  lemma CountedSame(s: Pool, w: nat, t: Pool)
    requires Counted(s) && Shape(s)
    requires w < |s.threads| && Frame(s, t) && t.threads == s.threads[w := t.threads[w]]
    requires Held(t.threads[w]) == Held(s.threads[w]) && !t.threads[w].Exited?
    requires t.queue == s.queue && t.answers == s.answers && t.drained == s.drained && t.exit == s.exit
    ensures Counted(t) && Shape(t)
  {
    assert Attempted(s.threads[w]);
  }

  lemma CountedAlloc(s: Pool, w: nat, a: Addr, ok: bool)
    requires Counted(s) && Shape(s)
    ensures Counted(StepAlloc(s, w, a)) && Shape(StepAlloc(s, w, a))
    ensures Counted(StepConnected(s, w, ok)) && Shape(StepConnected(s, w, ok))
  {
    if At(s, w).Got? {
      CountedSame(s, w, StepAlloc(s, w, a));
    }
    if At(s, w).Connecting? {
      CountedSame(s, w, StepConnected(s, w, ok));
    }
  }

  lemma CountedFinish(s: Pool, w: nat)
    requires Counted(s) && Shape(s)
    ensures Counted(StepFinish(s, w)) && Shape(StepFinish(s, w))
    ensures Counted(StepClose(s, w)) && Shape(StepClose(s, w))
  {
    if At(s, w).Done? {
      CountedSame(s, w, StepFinish(s, w));
    }
    if At(s, w).Erased? {
      CountedSame(s, w, StepClose(s, w));
    }
  }

  lemma CountedRest(s: Pool, e: Event)
    requires Counted(s) && Shape(s)
    requires e.Submit? || e.Call? || e.Stop? || e.Drain?
    ensures Counted(Step(s, e)) && Shape(Step(s, e))
  {
    if e.Call? && At(s, e.w).Idle? && e.w >= s.workers {
      CountedSame(s, e.w, Step(s, e));
    }
  }

  lemma CountedStep(s: Pool, e: Event)
    requires Counted(s) && Shape(s)
    ensures Counted(Step(s, e)) && Shape(Step(s, e))
  {
    match e
    case Pop(w) => CountedPop(s, w);
    case Alloc(w, a) => CountedAlloc(s, w, a, true);
    case Connected(w, ok) => CountedAlloc(s, w, 0, ok);
    case Serve(w, up) => CountedServe(s, w, up);
    case Retry(w) => CountedRetry(s, w);
    case Finish(w) => CountedFinish(s, w);
    case Close(w) => CountedFinish(s, w);
    case _ => CountedRest(s, e);
  }

  predicate WithinLoad(s: Pool) {
    Weigh(Any, s) <= MAX_PENDING_REQ + s.workers
  }

  lemma {:induction false} HandsBound(threads: seq<Pc>, n: nat)
    requires n <= |threads|
    requires forall i :: n <= i < |threads| ==> Held(threads[i]).None?
    ensures Carried(Any, threads) <= n
  {
    if threads != [] {
      HandsBound(threads[1..], if n == 0 then 0 else n - 1);
    }
  }

  lemma WithinLoadStep(s: Pool, e: Event)
    requires WithinLoad(s) && Shape(s)
    ensures WithinLoad(Step(s, e))
  {
    if e.Submit? {
      if |s.queue| < MAX_PENDING_REQ {
        WeighSubmit(Any, s);
        QueuedAny(s.queue);
        HandsBound(s.threads, s.workers);
      }
    } else {
      MovesStep(Any, s, e);
    }
  }

  ghost predicate Inv(s: Pool) {
    ExactlyOnce(s) && Counted(s) && Shape(s) && WithinLoad(s)
  }

  lemma StepKeepsInv(s: Pool, e: Event)
    requires Inv(s)
    ensures Inv(Step(s, e))
  {
    ExactlyOnceStep(s, e);
    CountedStep(s, e);
    WithinLoadStep(s, e);
  }

  lemma {:induction false} RunKeepsInv(s: Pool, es: seq<Event>)
    requires Inv(s)
    ensures Inv(Run(s, es)) && Run(s, es).workers == s.workers
    decreases |es|
  {
    if es != [] {
      StepKeepsInv(s, es[0]);
      RunKeepsInv(Step(s, es[0]), es[1..]);
    }
  }

  lemma {:induction false} NobodyBusy(k: Scale, n: nat)
    requires !k.Work?
    ensures Carried(k, seq(n, _ => Idle)) == 0
  {
    if n > 0 {
      assert seq(n, _ => Idle)[1..] == seq(n - 1, _ => Idle);
      NobodyBusy(k, n - 1);
    }
  }

  lemma InitInv(poolSize: nat, workers: nat, threads: nat, under: bool)
    requires workers <= threads
    ensures Inv(Init(poolSize, workers, threads, under))
  {
    var s := Init(poolSize, workers, threads, under);
    forall id
      ensures Places(Of(id), s) == 0
    {
      NobodyBusy(Of(id), threads);
    }
    NobodyBusy(Any, threads);
  }

  // ---- which requests are accepted --------------------------------------------------------------

  /** How many ids a run hands out: one for every submission, accepted or not. */
  function Draws(es: seq<Event>): nat {
    if es == [] then 0 else (if es[0].Submit? then 1 else 0) + Draws(es[1..])
  }

  /** The `i`-th event is a submission that found room in the queue and drew `id`. */
  predicate Submits(s: Pool, es: seq<Event>, i: nat, id: nat) {
    i < |es| && es[i].Submit? && |Run(s, es[..i]).queue| < 256 && id == s.nextId + Draws(es[..i])
  }

  /** Exactly the submissions that found room are accepted, each under the next number. */
  lemma {:induction false} AcceptedExactly(s: Pool, es: seq<Event>, id: nat)
    ensures Run(s, es).nextId == s.nextId + Draws(es)
    ensures id in Run(s, es).accepted <==> id in s.accepted || exists i: nat :: Submits(s, es, i, id)
    decreases |es|
  {
    if es != [] {
      var t, rest := Step(s, es[0]), es[1..];
      AcceptedExactly(t, rest, id);
      if i: nat :| Submits(s, es, i, id) {
        SubmitsLater(s, es, i, id);
      }
      if id in t.accepted && id !in s.accepted {
        assert es[..0] == [];
        assert Submits(s, es, 0, id);
      }
      if j: nat :| Submits(t, rest, j, id) {
        SubmitsLater(s, es, j + 1, id);
      }
    }
  }

  lemma SubmitsLater(s: Pool, es: seq<Event>, i: nat, id: nat)
    requires es != []
    ensures i == 0 ==> (Submits(s, es, i, id) <==> es[0].Submit? && |s.queue| < 256 && id == s.nextId)
    ensures i > 0 ==> (Submits(s, es, i, id) <==> Submits(Step(s, es[0]), es[1..], i - 1, id))
  {
    if i == 0 {
      assert es[..0] == [];
    } else if i < |es| {
      assert es[..i][0] == es[0] && es[..i][1..] == es[1..][..i - 1];
    }
  }

  /** Exactly-once response, over every run: a submission that found room put its request in exactly one of the queue,
      one worker's hands, the answers or the drained rest, no other id is anywhere, and the load stays within the
      queue's capacity plus one per worker. */
  lemma ExactlyOnceResponse(poolSize: nat, workers: nat, threads: nat, under: bool, es: seq<Event>)
    requires workers <= threads
    ensures var s0 := Init(poolSize, workers, threads, under);
            var s := Run(s0, es);
            && (forall id ::
                  Queued(Of(id), s.queue) + Carried(Of(id), s.threads) + Answers(Of(id), s.answers) +
                      Queued(Of(id), s.drained)
                  == if exists i: nat :: Submits(s0, es, i, id) then 1 else 0)
            && |s.queue| + Carried(Any, s.threads) <= 256 + workers
  {
    var s0 := Init(poolSize, workers, threads, under);
    InitInv(poolSize, workers, threads, under);
    RunKeepsInv(s0, es);
    var s := Run(s0, es);
    QueuedAny(s.queue);
    forall id
      ensures Queued(Of(id), s.queue) + Carried(Of(id), s.threads) + Answers(Of(id), s.answers) +
              Queued(Of(id), s.drained)
           == if exists i: nat :: Submits(s0, es, i, id) then 1 else 0
    {
      AcceptedExactly(s0, es, id);
      assert Places(Of(id), s) == if id in s.accepted then 1 else 0;
    }
  }

  /** No request is ever taken from the queue more than four times, wherever it is now: waiting or drained it has been
      taken once per retry, at most three times; in a worker's hands once more; answered between one and four times; and
      refused for want of a connection only after four. */
  lemma AtMostFourAttempts(poolSize: nat, workers: nat, threads: nat, under: bool, es: seq<Event>)
    requires workers <= threads
    ensures var s := Run(Init(poolSize, workers, threads, under), es);
            && (forall i :: 0 <= i < |s.queue| ==> s.queue[i].pops == s.queue[i].retry <= 3)
            && (forall i :: 0 <= i < |s.drained| ==> s.drained[i].pops == s.drained[i].retry <= 3)
            && (forall i :: 0 <= i < |s.threads| && Held(s.threads[i]).Some? ==>
                  1 <= Held(s.threads[i]).value.pops == Held(s.threads[i]).value.retry + 1 <= 4)
            && (forall i :: 0 <= i < |s.answers| ==> 1 <= s.answers[i].pops <= 4)
            && (forall i :: 0 <= i < |s.answers| && s.answers[i].outcome == NoAvailClient ==> s.answers[i].pops == 4)
  {
    InitInv(poolSize, workers, threads, under);
    RunKeepsInv(Init(poolSize, workers, threads, under), es);
    var s := Run(Init(poolSize, workers, threads, under), es);
    assert Counted(s);
    forall i | 0 <= i < |s.queue| ensures Waiting(s.queue[i]) {}
    forall i | 0 <= i < |s.drained| ensures Waiting(s.drained[i]) {}
    forall i | 0 <= i < |s.threads| ensures Attempted(s.threads[i]) {}
    forall i | 0 <= i < |s.answers| ensures Fair(s.answers[i]) {}
  }

  // ---- the order they are taken in --------------------------------------------------------------

  /** Comes before every waiting request that was never taken. */
  predicate Before(id: nat, q: seq<Req>, from: int) {
    forall j :: from <= j < |q| && 0 <= j && q[j].retry == 0 ==> id < q[j].id
  }

  predicate QueueOrder(q: seq<Req>, next: nat) {
    && (forall i :: 0 <= i < |q| ==> Before(q[i].id, q, i + 1) && q[i].id < next)
    && (forall i, j :: 0 <= i < j < |q| && q[j].retry > 0 ==> q[i].retry > 0)
  }

  predicate TakenFirst(s: Pool) {
    && (forall w :: 0 <= w < |s.threads| && Held(s.threads[w]).Some? ==>
          Before(Held(s.threads[w]).value.id, s.queue, 0) && Held(s.threads[w]).value.id < s.nextId)
    && (forall i :: 0 <= i < |s.answers| ==> Before(s.answers[i].id, s.queue, 0) && s.answers[i].id < s.nextId)
  }

  predicate InOrder(s: Pool) { QueueOrder(s.queue, s.nextId) && TakenFirst(s) }

  lemma QueueOrderSubmit(q: seq<Req>, next: nat)
    requires QueueOrder(q, next)
    ensures QueueOrder(q + [Req(next, 0, 0)], next + 1)
    ensures forall id: nat :: Before(id, q, 0) && id < next ==> Before(id, q + [Req(next, 0, 0)], 0)
  {
    var t := q + [Req(next, 0, 0)];
    forall i | 0 <= i < |t|
      ensures Before(t[i].id, t, i + 1) && t[i].id < next + 1
    {
      assert i < |q| ==> t[i] == q[i] && Before(q[i].id, q, i + 1);
    }
  }

  lemma QueueOrderPop(q: seq<Req>, next: nat)
    requires QueueOrder(q, next) && q != []
    ensures QueueOrder(q[1..], next) && q[0].id < next && Before(q[0].id, q[1..], 0)
    ensures forall id: nat :: Before(id, q, 0) ==> Before(id, q[1..], 0)
  {
    var t := q[1..];
    assert Before(q[0].id, q, 1);
    forall i | 0 <= i < |t|
      ensures Before(t[i].id, t, i + 1) && t[i].id < next
    {
      assert t[i] == q[i + 1] && Before(q[i + 1].id, q, i + 2);
    }
  }

  /** A request that is back at the head came before all that were never taken. */
  lemma QueueOrderRequeue(q: seq<Req>, next: nat, r: Req)
    requires QueueOrder(q, next) && Before(r.id, q, 0) && r.id < next && r.retry > 0
    ensures QueueOrder([r] + q, next)
    ensures forall id: nat :: Before(id, q, 0) ==> Before(id, [r] + q, 0)
  {
    var t := [r] + q;
    forall i | 0 <= i < |t|
      ensures Before(t[i].id, t, i + 1) && t[i].id < next
    {
      assert i > 0 ==> t[i] == q[i - 1] && Before(q[i - 1].id, q, i);
    }
  }

  /** A thread moves on with what it has, or parts with it. */
  lemma TakenFirstGoto(s: Pool, w: nat, t: Pool)
    requires TakenFirst(s) && t.nextId >= s.nextId
    requires w < |s.threads| && |t.threads| == |s.threads| && t.threads == s.threads[w := t.threads[w]]
    requires Held(t.threads[w]).Some? ==>
               Held(t.threads[w]) == Held(s.threads[w]) ||
               (Before(Held(t.threads[w]).value.id, t.queue, 0) && Held(t.threads[w]).value.id < t.nextId)
    requires t.answers == s.answers || (Held(s.threads[w]).Some? && |t.answers| == |s.answers| + 1 &&
               t.answers[..|s.answers|] == s.answers && t.answers[|s.answers|].id == Held(s.threads[w]).value.id)
    requires forall id: nat :: Before(id, s.queue, 0) ==> Before(id, t.queue, 0)
    ensures TakenFirst(t)
  {
    forall i | 0 <= i < |t.threads| && Held(t.threads[i]).Some?
      ensures Before(Held(t.threads[i]).value.id, t.queue, 0) && Held(t.threads[i]).value.id < t.nextId
    {
      if Held(t.threads[i]) == Held(s.threads[i]) {
        assert Before(Held(s.threads[i]).value.id, s.queue, 0);
      }
    }
    forall i | 0 <= i < |t.answers|
      ensures Before(t.answers[i].id, t.queue, 0) && t.answers[i].id < t.nextId
    {
      if i < |s.answers| {
        assert t.answers[i] == t.answers[..|s.answers|][i];
        assert Before(s.answers[i].id, s.queue, 0);
      } else {
        assert Before(Held(s.threads[w]).value.id, s.queue, 0);
      }
    }
  }

  lemma InOrderSubmit(s: Pool)
    requires InOrder(s)
    ensures InOrder(StepSubmit(s))
  {
    if |s.queue| < MAX_PENDING_REQ {
      QueueOrderSubmit(s.queue, s.nextId);
    }
  }

  lemma InOrderPop(s: Pool, w: nat)
    requires InOrder(s)
    ensures InOrder(StepPop(s, w))
  {
    if At(s, w).Idle? && w < s.workers && (s.exit || s.queue != []) {
      if !s.exit {
        QueueOrderPop(s.queue, s.nextId);
      }
      TakenFirstGoto(s, w, StepPop(s, w));
    }
  }

  lemma InOrderRetry(s: Pool, w: nat)
    requires InOrder(s)
    ensures InOrder(StepRetry(s, w))
  {
    if At(s, w).NoClient? {
      var t := StepRetry(s, w);
      if s.threads[w].job.Request? && s.threads[w].job.req.retry < MAX_RETRY {
        var r := s.threads[w].job.req;
        assert Held(s.threads[w]) == Some(r);
        QueueOrderRequeue(s.queue, s.nextId, r.(retry := r.retry + 1));
      }
      TakenFirstGoto(s, w, t);
    }
  }

  lemma InOrderServe(s: Pool, w: nat, up: bool)
    requires InOrder(s)
    ensures InOrder(StepServe(s, w, up))
  {
    if At(s, w).Have? {
      var pc, t := s.threads[w], StepServe(s, w, up);
      assert t.queue == s.queue;
      assert t.answers != s.answers ==> pc.job.Request? && Held(pc) == Some(pc.job.req);
      TakenFirstGoto(s, w, t);
    }
  }

  lemma InOrderAlloc(s: Pool, w: nat, a: Addr)
    requires InOrder(s)
    ensures InOrder(StepAlloc(s, w, a))
  {
    if At(s, w).Got? {
      TakenFirstGoto(s, w, StepAlloc(s, w, a));
    }
  }

  lemma InOrderConnected(s: Pool, w: nat, ok: bool)
    requires InOrder(s)
    ensures InOrder(StepConnected(s, w, ok))
  {
    if At(s, w).Connecting? {
      TakenFirstGoto(s, w, StepConnected(s, w, ok));
    }
  }

  lemma InOrderFinish(s: Pool, w: nat)
    requires InOrder(s)
    ensures InOrder(StepFinish(s, w)) && InOrder(StepClose(s, w))
  {
    if At(s, w).Done? {
      TakenFirstGoto(s, w, StepFinish(s, w));
    }
    if At(s, w).Erased? {
      TakenFirstGoto(s, w, StepClose(s, w));
    }
  }

  lemma InOrderRest(s: Pool, e: Event)
    requires InOrder(s) && (e.Call? || e.Stop? || e.Drain?)
    ensures InOrder(Step(s, e))
  {
    if e.Call? && At(s, e.w).Idle? && e.w >= s.workers {
      TakenFirstGoto(s, e.w, Step(s, e));
    }
  }

  lemma InOrderStep(s: Pool, e: Event)
    requires InOrder(s)
    ensures InOrder(Step(s, e))
  {
    match e
    case Submit => InOrderSubmit(s);
    case Pop(w) => InOrderPop(s, w);
    case Retry(w) => InOrderRetry(s, w);
    case Serve(w, up) => InOrderServe(s, w, up);
    case Alloc(w, a) => InOrderAlloc(s, w, a);
    case Connected(w, ok) => InOrderConnected(s, w, ok);
    case Finish(w) => InOrderFinish(s, w);
    case Close(w) => InOrderFinish(s, w);
    case _ => InOrderRest(s, e);
  }

  lemma {:induction false} RunInOrder(s: Pool, es: seq<Event>)
    requires InOrder(s)
    ensures InOrder(Run(s, es))
    decreases |es|
  {
    if es != [] {
      InOrderStep(s, es[0]);
      RunInOrder(Step(s, es[0]), es[1..]);
    }
  }

  /** First come, first served, over every run: a request that waits for its first attempt came after every request that
      is ahead of it, in a worker's hands or answered, and only retried requests are ahead of a retried one. */
  lemma FirstComeFirstServed(poolSize: nat, workers: nat, threads: nat, under: bool, es: seq<Event>, j: nat)
    requires workers <= threads
    ensures var s := Run(Init(poolSize, workers, threads, under), es);
            j < |s.queue| ==>
              && (s.queue[j].retry == 0 ==>
                    && (forall i :: 0 <= i < j ==> s.queue[i].id < s.queue[j].id)
                    && (forall w :: 0 <= w < |s.threads| && Held(s.threads[w]).Some? ==>
                          Held(s.threads[w]).value.id < s.queue[j].id)
                    && (forall i :: 0 <= i < |s.answers| ==> s.answers[i].id < s.queue[j].id))
              && (s.queue[j].retry > 0 ==> forall i :: 0 <= i < j ==> s.queue[i].retry > 0)
  {
    var s := Init(poolSize, workers, threads, under);
    RunInOrder(s, es);
  }

  // ---- coming to rest ---------------------------------------------------------------------------

  function WorkLeft(s: Pool): nat {
    Weigh(Work, s) + if s.exit then 0 else 1
  }

  /** No new requests and no new borrowers. */
  predicate NoNewWork(e: Event) { !e.Submit? && !e.Call? }

  predicate Settles(s: Pool, t: Pool) {
    t == s || WorkLeft(t) < WorkLeft(s)
  }

  lemma SettlesPop(s: Pool, w: nat)
    ensures Settles(s, StepPop(s, w))
  {
    if At(s, w).Idle? && w < s.workers {
      WeighGoto(Work, s, w, Goto(s, w, Exited));
      if !s.exit && s.queue != [] {
        var r := s.queue[0];
        WeighPop(Work, s, w, Got(Request(r.(pops := r.pops + 1))));
      }
    }
  }

  lemma SettlesGoto(s: Pool, w: nat, t: Pool)
    requires w < |s.threads| && |t.threads| == |s.threads| && t.threads == s.threads[w := t.threads[w]]
    requires t == s || Rank(t.threads[w]) < Rank(s.threads[w])
    requires t.queue == s.queue && t.exit == s.exit
    ensures Settles(s, t)
  {
    WeighGoto(Work, s, w, t);
  }

  lemma SettlesAlloc(s: Pool, w: nat, a: Addr, ok: bool)
    ensures Settles(s, StepAlloc(s, w, a)) && Settles(s, StepConnected(s, w, ok))
  {
    if At(s, w).Got? {
      SettlesGoto(s, w, StepAlloc(s, w, a));
    }
    if At(s, w).Connecting? {
      SettlesGoto(s, w, StepConnected(s, w, ok));
    }
  }

  lemma SettlesServe(s: Pool, w: nat, up: bool)
    ensures Settles(s, StepServe(s, w, up))
  {
    if At(s, w).Have? {
      SettlesGoto(s, w, StepServe(s, w, up));
    }
  }

  lemma SettlesRetry(s: Pool, w: nat)
    ensures Settles(s, StepRetry(s, w))
  {
    if At(s, w).NoClient? {
      WeighGoto(Work, s, w, Goto(s, w, Idle));
      if s.threads[w].job.Request? {
        var r := s.threads[w].job.req;
        WeighRequeue(Work, s, w, Idle, r.(retry := r.retry + 1));
      }
    }
  }

  lemma SettlesFinish(s: Pool, w: nat)
    ensures Settles(s, StepFinish(s, w)) && Settles(s, StepClose(s, w))
  {
    if At(s, w).Done? {
      SettlesGoto(s, w, StepFinish(s, w));
    }
    if At(s, w).Erased? {
      SettlesGoto(s, w, StepClose(s, w));
    }
  }

  /** Without new work every step that does anything uses up some of what is left. */
  lemma SettlesStep(s: Pool, e: Event)
    requires NoNewWork(e)
    ensures Settles(s, Step(s, e))
  {
    match e
    case Pop(w) => SettlesPop(s, w);
    case Alloc(w, a) => SettlesAlloc(s, w, a, true);
    case Connected(w, ok) => SettlesAlloc(s, w, 0, ok);
    case Serve(w, up) => SettlesServe(s, w, up);
    case Retry(w) => SettlesRetry(s, w);
    case Finish(w) => SettlesFinish(s, w);
    case Close(w) => SettlesFinish(s, w);
    case Stop =>
    case Drain => assert s.queue == [] ==> s.drained + s.queue == s.drained;
    case Submit =>
    case Call(_) =>
  }

  /** How many events of a run change something. */
  function Effective(s: Pool, es: seq<Event>): nat
    decreases |es|
  {
    if es == [] then 0
    else (if Step(s, es[0]) == s then 0 else 1) + Effective(Step(s, es[0]), es[1..])
  }

  lemma {:induction false} BoundedRun(s: Pool, es: seq<Event>)
    requires forall i :: 0 <= i < |es| ==> NoNewWork(es[i])
    ensures Effective(s, es) + WorkLeft(Run(s, es)) <= WorkLeft(s)
    decreases |es|
  {
    if es != [] {
      SettlesStep(s, es[0]);
      BoundedRun(Step(s, es[0]), es[1..]);
    }
  }

  /** Nothing a worker or caller could do would change anything. */
  ghost predicate Quiescent(s: Pool) {
    forall e :: NoNewWork(e) && !e.Stop? && !e.Drain? ==> Step(s, e) == s
  }

  predicate Resting(s: Pool) {
    && (forall i :: 0 <= i < |s.threads| ==> s.threads[i].Idle? || s.threads[i].Exited?)
    && (forall i :: 0 <= i < s.workers && i < |s.threads| && s.threads[i].Idle? ==> !s.exit && s.queue == [])
  }

  /** An address no object has. */
  lemma {:induction false} Unused(threads: seq<Pc>, n: nat) returns (a: Addr)
    ensures a >= n && forall i :: 0 <= i < |threads| ==> AddrOf(threads[i]).None? || AddrOf(threads[i]).value < a
  {
    if threads == [] {
      a := n;
    } else {
      var b := Unused(threads[1..], n);
      a := if AddrOf(threads[0]).Some? && AddrOf(threads[0]).value >= b then AddrOf(threads[0]).value + 1 else b;
      forall i | 0 <= i < |threads|
        ensures AddrOf(threads[i]).None? || AddrOf(threads[i]).value < a
      {
        if i > 0 {
          assert threads[i] == threads[1..][i - 1];
        }
      }
    }
  }

  lemma {:induction false} Above(ks: set<Addr>) returns (n: nat)
    ensures forall a :: a in ks ==> a < n
    decreases |ks|
  {
    if ks == {} {
      n := 0;
    } else {
      var x :| x in ks;
      var m := Above(ks - {x});
      n := if x >= m then x + 1 else m;
      forall a | a in ks
        ensures a < n
      {
        assert a == x || a in ks - {x};
      }
    }
  }

  /** A thread that has work in hand can always go on. */
  lemma CanMove(s: Pool, w: nat) returns (e: Event)
    requires w < |s.threads| && !s.threads[w].Idle? && !s.threads[w].Exited?
    ensures NoNewWork(e) && !e.Stop? && !e.Drain? && Step(s, e) != s
  {
    match s.threads[w]
    case Got(_) => e := CanAlloc(s, w);
    case Connecting(_, _) => e := Connected(w, true); Moved(s, w, e);
    case Have(_, _) => e := Serve(w, true); Moved(s, w, e);
    case NoClient(_) => e := Retry(w); Moved(s, w, e);
    case Done(_) => e := Finish(w); Moved(s, w, e);
    case Erased(_, _) => e := Close(w); Moved(s, w, e);
  }

  lemma Moved(s: Pool, w: nat, e: Event)
    requires w < |s.threads| && w < |Step(s, e).threads| && Step(s, e).threads[w] != s.threads[w]
    ensures Step(s, e) != s
  {
  }

  lemma CanAlloc(s: Pool, w: nat) returns (e: Event)
    requires w < |s.threads| && s.threads[w].Got?
    ensures e.Alloc? && Step(s, e) != s
  {
    if HasIdle(s.clients) {
      var a :| a in s.clients && s.clients[a];
      e := Alloc(w, a);
    } else {
      var n := Above(s.clients.Keys);
      var a := Unused(s.threads, n);
      e := Alloc(w, a);
      assert a !in s.clients && !InUse(s.threads, a);
    }
    assert Step(s, e).threads[w] != s.threads[w];
  }

  lemma RestingIsStill(s: Pool, e: Event)
    requires Resting(s) && NoNewWork(e) && !e.Stop? && !e.Drain?
    ensures Step(s, e) == s
  {
    match e
    case Pop(w) => if At(s, w).Idle? && w < s.workers { assert s.threads[w].Idle?; }
    case _ =>
  }

  /** The pool is stuck exactly when every thread is idle or gone and no idle worker has anything to take. */
  lemma QuiescentExact(s: Pool)
    ensures Quiescent(s) <==> Resting(s)
  {
    if Resting(s) {
      forall e | NoNewWork(e) && !e.Stop? && !e.Drain?
        ensures Step(s, e) == s
      {
        RestingIsStill(s, e);
      }
    } else if w :| 0 <= w < |s.threads| && !(s.threads[w].Idle? || s.threads[w].Exited?) {
      var e := CanMove(s, w);
      assert !Quiescent(s);
    } else {
      var w :| 0 <= w < s.workers && w < |s.threads| && s.threads[w].Idle? && (s.exit || s.queue != []);
      assert Step(s, Pop(w)).threads[w] != s.threads[w];
    }
  }

  /** A pool that has not been stopped and has come to rest has answered every request, once. */
  lemma RestMeansAnswered(poolSize: nat, workers: nat, threads: nat, under: bool, es: seq<Event>)
    requires 0 < workers <= threads
    requires var s := Run(Init(poolSize, workers, threads, under), es); Quiescent(s) && !s.exit
    ensures var s0 := Init(poolSize, workers, threads, under);
            forall i: nat, id :: Submits(s0, es, i, id) ==> Answers(Of(id), Run(s0, es).answers) == 1
  {
    InitInv(poolSize, workers, threads, under);
    RunKeepsInv(Init(poolSize, workers, threads, under), es);
    var s := Run(Init(poolSize, workers, threads, under), es);
    QuiescentExact(s);
    assert s.threads[0].Idle? && s.queue == [];
    forall i: nat, id | Submits(Init(poolSize, workers, threads, under), es, i, id)
      ensures Answers(Of(id), s.answers) == 1
    {
      AcceptedExactly(Init(poolSize, workers, threads, under), es, id);
      RestingHands(id, s.threads);
      assert Places(Of(id), s) == 1;
    }
  }

  lemma {:induction false} RestingHands(id: nat, threads: seq<Pc>)
    requires forall i :: 0 <= i < |threads| ==> threads[i].Idle? || threads[i].Exited?
    ensures Carried(Of(id), threads) == 0
  {
    if threads != [] {
      RestingHands(id, threads[1..]);
    }
  }
}
