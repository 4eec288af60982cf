/** The proxy with its pools: every result it is told of comes from a pool's worker, in the step that answers the
    request, and every request enters the pool in the step that draws its id. That a pool reports each request once,
    and nothing else, is no assumption here but the pools' own theorem. */
module ProxyPools {
  import opened Sharding
  import opened Tally
  import DbPool
  import PoolRequests
  import DbProxy

  datatype Config = Config(poolSize: nat, workers: nat, threads: nat, closesUnderLock: bool)

  datatype System<H, D> = System(proxy: DbProxy.Proxy<H, D>, pools: map<nat, DbPool.Pool>)

  predicate Valid(configs: map<nat, Config>) {
    forall slot :: slot in configs ==> slot < DbProxy.MAX_DB_SLOTS && configs[slot].workers <= configs[slot].threads
  }

  function Start(c: Config): DbPool.Pool
    requires c.workers <= c.threads
  {
    DbPool.Init(c.poolSize, c.workers, c.threads, c.closesUnderLock)
  }

  function Init<H, D>(configs: map<nat, Config>): System<H, D>
    requires Valid(configs)
  {
    System(DbProxy.Init(configs.Keys), map slot | slot in configs :: Start(configs[slot]))
  }

  datatype Event<H, D> =
    | Submit(user: nat, header: H, slot: nat)
    | InPool(slot: nat, step: DbPool.Event, data: D)   // data: the result, should the step answer a request
    | InProxy(event: DbProxy.Event<H, D>)              // saving, delivering, disconnecting, cleaning

  // ---- steps ------------------------------------------------------------------------------------

  function StepSubmit<H, D>(s: System<H, D>, user: nat, header: H, slot: nat): (t: System<H, D>)
    ensures t.pools.Keys == s.pools.Keys
  {
    if slot !in s.pools then s
    else
      var pool := s.pools[slot];
      System(DbProxy.StepSubmit(s.proxy, user, header, slot, HasRoom(pool)),
             s.pools[slot := DbPool.Step(pool, DbPool.Submit)])
  }

  /** The listener is called in the step that answers. */
  function StepPool<H, D>(s: System<H, D>, slot: nat, e: DbPool.Event, data: D): (t: System<H, D>)
    ensures t.pools.Keys == s.pools.Keys
  {
    if slot !in s.pools || e.Submit? then s
    else
      var pool, next := s.pools[slot], DbPool.Step(s.pools[slot], e);
      System(if |next.answers| > |pool.answers|
             then DbProxy.StepReport(s.proxy, DbProxy.Key(slot, next.answers[|pool.answers|].id), data)
             else s.proxy,
             s.pools[slot := next])
  }

  function StepProxy<H, D>(s: System<H, D>, e: DbProxy.Event<H, D>): (t: System<H, D>)
    ensures t.pools.Keys == s.pools.Keys
  {
    if e.Submit? || e.Result? then s else s.(proxy := DbProxy.Step(s.proxy, e))
  }

  function Step<H, D>(s: System<H, D>, e: Event<H, D>): (t: System<H, D>)
    ensures t.pools.Keys == s.pools.Keys
  {
    match e
    case Submit(user, header, slot) => StepSubmit(s, user, header, slot)
    case InPool(slot, e, data) => StepPool(s, slot, e, data)
    case InProxy(e) => StepProxy(s, e)
  }

  function Run<H, D>(s: System<H, D>, es: seq<Event<H, D>>): System<H, D>
    decreases |es|
  {
    if es == [] then s else Run(Step(s, es[0]), es[1..])
  }

  // ---- what a pool's step can answer ------------------------------------------------------------

  function AnswersTo(pool: DbPool.Pool, id: nat): nat { PoolRequests.Answers(DbPool.Of(id), pool.answers) }

  /** Accepted by the pool and not yet answered. */
  predicate Open(pool: DbPool.Pool, id: nat) { id in pool.accepted && AnswersTo(pool, id) == 0 }

  /** Only an open request is answered, and it is then answered once. */
  lemma OneAnswerMore(pool: DbPool.Pool, next: DbPool.Pool, x: DbPool.Answer, id: nat)
    requires PoolRequests.ExactlyOnce(pool) && next.answers == pool.answers + [x] && next.accepted == pool.accepted
    requires PoolRequests.Moves(DbPool.Of(x.id), pool, next)
    ensures Open(pool, x.id) && (Open(next, id) <==> Open(pool, id) && id != x.id)
  {
    PoolRequests.AnswersAppend(DbPool.Of(x.id), pool.answers, x);
    PoolRequests.AnswersAppend(DbPool.Of(id), pool.answers, x);
    assert PoolRequests.Places(DbPool.Of(x.id), pool) == if x.id in pool.accepted then 1 else 0;
  }

  lemma NewAnswer(pool: DbPool.Pool, e: DbPool.Event, next: DbPool.Pool, id: nat)
    requires PoolRequests.ExactlyOnce(pool) && !e.Submit? && next == DbPool.Step(pool, e) &&
             |next.answers| > |pool.answers|
    ensures var x := next.answers[|pool.answers|].id;
            Open(pool, x) && (Open(next, id) <==> Open(pool, id) && id != x)
  {
    var x := next.answers[|pool.answers|];
    assert DbPool.OneMore(pool.answers, next.answers);
    PoolRequests.MovesStep(DbPool.Of(x.id), pool, e);
    assert next.answers == pool.answers + [x];
    OneAnswerMore(pool, next, x, id);
  }

  lemma NoAnswer(pool: DbPool.Pool, e: DbPool.Event, id: nat)
    requires !e.Submit? && |DbPool.Step(pool, e).answers| <= |pool.answers|
    ensures Open(DbPool.Step(pool, e), id) <==> Open(pool, id)
  {
  }

  predicate HasRoom(pool: DbPool.Pool) { |pool.queue| < DbPool.MAX_PENDING_REQ }

  lemma NewRequest(pool: DbPool.Pool, id: nat)
    requires PoolRequests.Inv(pool)
    ensures var next := DbPool.StepSubmit(pool);
            Open(next, id) <==> Open(pool, id) || (id == pool.nextId && HasRoom(pool))
  {
    assert PoolRequests.Places(DbPool.Of(pool.nextId), pool) == 0;
  }

  // ---- the invariant ----------------------------------------------------------------------------

  /** Slot by slot, what the proxy believes to be running is what its pool has open. */
  ghost predicate Linked<H, D>(s: System<H, D>, slot: nat)
    requires slot in s.pools
  {
    && PoolRequests.Inv(s.pools[slot])
    && slot < DbProxy.MAX_DB_SLOTS && slot in s.proxy.pools
    && slot in s.proxy.nextIds && s.proxy.nextIds[slot] == s.pools[slot].nextId
    && (forall id :: DbProxy.Key(slot, id) in s.proxy.issued <==> id in s.pools[slot].accepted)
    && (forall id :: DbProxy.Key(slot, id) in s.proxy.running <==> Open(s.pools[slot], id))
  }

  ghost predicate Inv<H, D>(s: System<H, D>) {
    DbProxy.Inv(s.proxy) && forall slot :: slot in s.pools ==> Linked(s, slot)
  }

  lemma LinkSubmit<H, D>(s: System<H, D>, user: nat, header: H, slot: nat, other: nat, next: DbPool.Pool)
    requires slot in s.pools && other in s.pools && Linked(s, slot) && Linked(s, other)
    requires next == DbPool.StepSubmit(s.pools[slot]) && PoolRequests.Inv(next)
    ensures var proxy := DbProxy.StepSubmit(s.proxy, user, header, slot, HasRoom(s.pools[slot]));
            Linked(System(proxy, s.pools[slot := next]), other)
  {
    var pool := s.pools[slot];
    forall id
      ensures Open(next, id) <==> Open(pool, id) || (id == pool.nextId && HasRoom(pool))
    {
      NewRequest(pool, id);
    }
  }

  lemma SubmitKeepsInv<H, D>(s: System<H, D>, user: nat, header: H, slot: nat)
    requires Inv(s)
    ensures Inv(StepSubmit(s, user, header, slot))
  {
    if slot in s.pools {
      var pool, t := s.pools[slot], StepSubmit(s, user, header, slot);
      assert Linked(s, slot);
      DbProxy.StepKeepsInv(s.proxy, DbProxy.Submit(user, header, slot, HasRoom(pool)));
      PoolRequests.StepKeepsInv(pool, DbPool.Submit);
      forall other | other in t.pools
        ensures Linked(t, other)
      {
        LinkSubmit(s, user, header, slot, other, DbPool.StepSubmit(pool));
      }
    }
  }

  lemma LinkAnswer<H, D>(s: System<H, D>, slot: nat, next: DbPool.Pool, x: nat, data: D, other: nat)
    requires slot in s.pools && other in s.pools && Linked(s, other)
    requires PoolRequests.Inv(next) && DbPool.SameIds(s.pools[slot], next)
    requires forall id :: Open(next, id) <==> Open(s.pools[slot], id) && id != x
    ensures Linked(System(DbProxy.StepReport(s.proxy, DbProxy.Key(slot, x), data), s.pools[slot := next]), other)
  {
  }

  lemma LinkNoAnswer<H, D>(s: System<H, D>, slot: nat, next: DbPool.Pool, other: nat)
    requires slot in s.pools && other in s.pools && Linked(s, other)
    requires PoolRequests.Inv(next) && DbPool.SameIds(s.pools[slot], next)
    requires forall id :: Open(next, id) <==> Open(s.pools[slot], id)
    ensures Linked(s.(pools := s.pools[slot := next]), other)
  {
  }

  /** The proxy is only told of what it is waiting for, so its report is a result. */
  lemma ReportIsResult<H, D>(s: System<H, D>, slot: nat, e: DbPool.Event, next: DbPool.Pool, data: D)
    requires slot in s.pools && Linked(s, slot) && !e.Submit? && next == DbPool.Step(s.pools[slot], e)
    requires |next.answers| > |s.pools[slot].answers|
    ensures var key := DbProxy.Key(slot, next.answers[|s.pools[slot].answers|].id);
            key in s.proxy.running && DbProxy.StepReport(s.proxy, key, data) == DbProxy.StepResult(s.proxy, key, data)
  {
    NewAnswer(s.pools[slot], e, next, 0);
  }

  lemma AnswerLinks<H, D>(s: System<H, D>, slot: nat, e: DbPool.Event, next: DbPool.Pool, x: nat, data: D, other: nat)
    requires slot in s.pools && other in s.pools && Linked(s, slot) && Linked(s, other)
    requires !e.Submit? && next == DbPool.Step(s.pools[slot], e) && PoolRequests.Inv(next)
    requires |next.answers| > |s.pools[slot].answers| && x == next.answers[|s.pools[slot].answers|].id
    ensures Linked(System(DbProxy.StepReport(s.proxy, DbProxy.Key(slot, x), data), s.pools[slot := next]), other)
  {
    forall id
      ensures Open(next, id) <==> Open(s.pools[slot], id) && id != x
    {
      NewAnswer(s.pools[slot], e, next, id);
    }
    LinkAnswer(s, slot, next, x, data, other);
  }

  lemma AnswerKeepsInv<H, D>(s: System<H, D>, slot: nat, e: DbPool.Event, next: DbPool.Pool, data: D)
    requires Inv(s) && slot in s.pools && !e.Submit? && next == DbPool.Step(s.pools[slot], e) && PoolRequests.Inv(next)
    requires |next.answers| > |s.pools[slot].answers|
    ensures var key := DbProxy.Key(slot, next.answers[|s.pools[slot].answers|].id);
            Inv(System(DbProxy.StepReport(s.proxy, key, data), s.pools[slot := next]))
  {
    assert Linked(s, slot);
    var x := next.answers[|s.pools[slot].answers|].id;
    ReportIsResult(s, slot, e, next, data);
    DbProxy.StepKeepsInv(s.proxy, DbProxy.Result(DbProxy.Key(slot, x), data));
    var t := System(DbProxy.StepReport(s.proxy, DbProxy.Key(slot, x), data), s.pools[slot := next]);
    forall other | other in t.pools
      ensures Linked(t, other)
    {
      AnswerLinks(s, slot, e, next, x, data, other);
    }
  }

  lemma PoolKeepsInv<H, D>(s: System<H, D>, slot: nat, e: DbPool.Event, data: D)
    requires Inv(s)
    ensures Inv(StepPool(s, slot, e, data))
  {
    if slot in s.pools && !e.Submit? {
      var pool, next := s.pools[slot], DbPool.Step(s.pools[slot], e);
      assert Linked(s, slot);
      PoolRequests.StepKeepsInv(pool, e);
      if |next.answers| > |pool.answers| {
        AnswerKeepsInv(s, slot, e, next, data);
      } else {
        forall id
          ensures Open(next, id) <==> Open(pool, id)
        {
          NoAnswer(pool, e, id);
        }
        forall other | other in s.pools
          ensures Linked(s.(pools := s.pools[slot := next]), other)
        {
          LinkNoAnswer(s, slot, next, other);
        }
      }
    }
  }

  lemma ProxyKeepsRunning<H, D>(p: DbProxy.Proxy<H, D>, e: DbProxy.Event<H, D>)
    requires !e.Submit? && !e.Result?
    ensures var q := DbProxy.Step(p, e); q.running == p.running && DbProxy.SameIssue(p, q)
  {
  }

  lemma StepKeepsInv<H, D>(s: System<H, D>, e: Event<H, D>)
    requires Inv(s)
    ensures Inv(Step(s, e))
  {
    match e
    case Submit(user, header, slot) => SubmitKeepsInv(s, user, header, slot);
    case InPool(slot, e, data) => PoolKeepsInv(s, slot, e, data);
    case InProxy(e) =>
      if !e.Submit? && !e.Result? {
        DbProxy.StepKeepsInv(s.proxy, e);
        ProxyKeepsRunning(s.proxy, e);
        forall slot | slot in s.pools
          ensures Linked(StepProxy(s, e), slot)
        {
          assert Linked(s, slot);
        }
      }
  }

  lemma {:induction false} RunKeepsInv<H, D>(s: System<H, D>, es: seq<Event<H, D>>)
    requires Inv(s)
    ensures Inv(Run(s, es)) && Run(s, es).pools.Keys == s.pools.Keys
    decreases |es|
  {
    if es != [] {
      StepKeepsInv(s, es[0]);
      RunKeepsInv(Step(s, es[0]), es[1..]);
    }
  }

  lemma InitInv<H, D>(configs: map<nat, Config>)
    requires Valid(configs)
    ensures Inv<H, D>(Init(configs))
  {
    var s: System<H, D> := Init(configs);
    DbProxy.InitInv<H, D>(configs.Keys);
    forall slot | slot in s.pools
      ensures Linked(s, slot)
    {
      var c := configs[slot];
      PoolRequests.InitInv(c.poolSize, c.workers, c.threads, c.closesUnderLock);
    }
  }

  // ---- what the events say ----------------------------------------------------------------------

  /** What a step of the system is to the proxy. */
  function ToldBy<H, D>(s: System<H, D>, e: Event<H, D>): seq<DbProxy.Event<H, D>> {
    match e
    case Submit(user, header, slot) =>
      if slot in s.pools then [DbProxy.Submit(user, header, slot, HasRoom(s.pools[slot]))] else []
    case InPool(slot, step, data) =>
      if slot !in s.pools || step.Submit? then []
      else
        var pool, next := s.pools[slot], DbPool.Step(s.pools[slot], step);
        if |next.answers| > |pool.answers|
            then [DbProxy.Result(DbProxy.Key(slot, next.answers[|pool.answers|].id), data)]
        else []
    case InProxy(event) => if event.Submit? || event.Result? then [] else [event]
  }

  function Told<H, D>(s: System<H, D>, es: seq<Event<H, D>>): seq<DbProxy.Event<H, D>>
    decreases |es|
  {
    if es == [] then [] else ToldBy(s, es[0]) + Told(Step(s, es[0]), es[1..])
  }

  lemma RunOne<H, D>(p: DbProxy.Proxy<H, D>, e: DbProxy.Event<H, D>)
    ensures DbProxy.Run(p, [e]) == DbProxy.Step(p, e)
  {
    assert [e][1..] == [];
    assert DbProxy.Run(DbProxy.Step(p, e), []) == DbProxy.Step(p, e);
  }

  lemma ToldStep<H, D>(s: System<H, D>, e: Event<H, D>)
    requires Inv(s)
    ensures Step(s, e).proxy == DbProxy.Run(s.proxy, ToldBy(s, e))
  {
    match e
    case Submit(user, header, slot) =>
      if slot in s.pools {
        RunOne(s.proxy, DbProxy.Submit(user, header, slot, HasRoom(s.pools[slot])));
      }
    case InPool(slot, step, data) =>
      if slot in s.pools && !step.Submit? {
        assert Linked(s, slot);
        ToldResult(s, slot, step, DbPool.Step(s.pools[slot], step), data);
      }
    case InProxy(event) => RunOne(s.proxy, event);
  }

  lemma ToldResult<H, D>(s: System<H, D>, slot: nat, step: DbPool.Event, next: DbPool.Pool, data: D)
    requires slot in s.pools && Linked(s, slot) && !step.Submit? && next == DbPool.Step(s.pools[slot], step)
    ensures StepPool(s, slot, step, data).proxy == DbProxy.Run(s.proxy, ToldBy(s, InPool(slot, step, data)))
  {
    if |next.answers| > |s.pools[slot].answers| {
      ReportIsResult(s, slot, step, next, data);
      RunOne(s.proxy, DbProxy.Result(DbProxy.Key(slot, next.answers[|s.pools[slot].answers|].id), data));
    }
  }

  /** The proxy of the system is the proxy's own machine, run on what it is told: nothing in that machine is assumed. */
  lemma {:induction false} ProxyRuns<H, D>(s: System<H, D>, es: seq<Event<H, D>>)
    requires Inv(s)
    ensures Run(s, es).proxy == DbProxy.Run(s.proxy, Told(s, es))
    decreases |es|
  {
    if es != [] {
      ToldStep(s, es[0]);
      StepKeepsInv(s, es[0]);
      ProxyRuns(Step(s, es[0]), es[1..]);
      DbProxy.RunAppend(s.proxy, ToldBy(s, es[0]), Told(Step(s, es[0]), es[1..]));
    }
  }

  /** Every submission it is told of is a client's, and every result a pool's. */
  lemma {:induction false} ToldFrom<H(!new), D(!new)>(s: System<H, D>, es: seq<Event<H, D>>, x: DbProxy.Event<H, D>)
    requires x in Told(s, es)
    ensures x.Submit? ==> Submit(x.user, x.header, x.slot) in es
    ensures x.Result? ==> exists step :: InPool(x.key.slot, step, x.data) in es
    decreases |es|
  {
    if x in ToldBy(s, es[0]) {
      assert x.Result? ==> InPool(x.key.slot, es[0].step, x.data) == es[0];
      assert x.Submit? ==> Submit(x.user, x.header, x.slot) == es[0];
    } else {
      ToldFrom(Step(s, es[0]), es[1..], x);
      assert forall e :: e in es[1..] ==> e in es;
    }
  }

  /** The client's request a reply answers, and the pool's result it carries. */
  ghost predicate Answers<H(!new), D(!new)>(s: System<H, D>, es: seq<Event<H, D>>, r: Entry<DbProxy.Key, Reply<H, D>>) {
    && DbProxy.Answers(Told(s, es), r)
    && Submit(r.item.user, r.item.header, r.key.slot) in es
    && exists step :: InPool(r.key.slot, step, r.item.data) in es
  }

  lemma {:induction false} DrawnBySubmit<H(!new), D(!new)>(es: seq<DbProxy.Event<H, D>>, slot: nat, i: nat)
    requires i < |DbProxy.Draws(es, slot)| && DbProxy.Draws(es, slot)[i].Some?
    ensures var c := DbProxy.Draws(es, slot)[i].value; DbProxy.Submit(c.user, c.header, slot, true) in es
  {
    var first := DbProxy.DrawOf(es[0], slot);
    if i < |first| {
      assert es[0] in es;
    } else {
      DrawnBySubmit(es[1..], slot, i - |first|);
      assert forall e :: e in es[1..] ==> e in es;
    }
  }

  lemma ReplyAnswers<H(!new), D(!new)>(s: System<H, D>, es: seq<Event<H, D>>, r: Entry<DbProxy.Key, Reply<H, D>>)
    requires DbProxy.Answers(Told(s, es), r)
    ensures Answers(s, es, r)
  {
    var i := r.key.id - DbProxy.MIN_REQ_ID;
    DrawnBySubmit(Told(s, es), r.key.slot, i);
    ToldFrom(s, es, DbProxy.Submit(r.item.user, r.item.header, r.key.slot, true));
    ToldFrom(s, es, DbProxy.Result(r.key, r.item.data));
  }

  /** Proxy and pools together, over every interleaving of clients, workers, saves, disconnects and cleanups: each
      reply goes to the connection of the client's request that drew its id, is made from that request's header, and
      carries a result of that slot's pool; a request has at most as many replies as its pool has answers, which is
      at most one. */
  lemma EachAnsweredOnce<H(!new), D(!new)>(configs: map<nat, Config>, es: seq<Event<H, D>>, slot: nat, id: nat)
    requires Valid(configs) && slot in configs
    ensures var s: System<H, D> := Run(Init(configs), es);
            && (forall i :: 0 <= i < |s.proxy.replies| ==> Answers(Init(configs), es, s.proxy.replies[i]))
            && slot in s.pools
            && Count(s.proxy.replies, DbProxy.Key(slot, id)) <= AnswersTo(s.pools[slot], id) <= 1
  {
    InitInv<H, D>(configs);
    var s0: System<H, D> := Init(configs);
    RunKeepsInv(s0, es);
    ProxyRuns(s0, es);
    var s := Run(s0, es);
    DbProxy.RepliesCorrelate<H, D>(configs.Keys, Told(s0, es));
    forall i | 0 <= i < |s.proxy.replies|
      ensures Answers(s0, es, s.proxy.replies[i])
    {
      ReplyAnswers(s0, es, s.proxy.replies[i]);
    }
    OneEach(s, slot, id);
  }

  lemma OneEach<H, D>(s: System<H, D>, slot: nat, id: nat)
    requires Inv(s) && slot in s.pools
    ensures Count(s.proxy.replies, DbProxy.Key(slot, id)) <= AnswersTo(s.pools[slot], id) <= 1
  {
    assert Linked(s, slot);
    assert DbProxy.AtMostOnce(s.proxy, DbProxy.Key(slot, id));
    assert PoolRequests.Places(DbPool.Of(id), s.pools[slot]) == if id in s.pools[slot].accepted then 1 else 0;
  }
}
