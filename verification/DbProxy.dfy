/** The database proxy: a client's request is pushed to a pool first and its pending entry saved afterwards, so
    the result may overtake the save. Results come back once per request, as the pools guarantee. */
module DbProxy {
  import opened Wrappers
  import opened Sharding
  import opened Tally

  const MAX_DB_SLOTS: nat := 64
  const MIN_REQ_ID: nat := 100
  const POOL_IS_BUSY: nat := 1

  /** A database request: the pool's slot and the id the pool gave it. */
  datatype Key = Key(slot: nat, id: nat)

  datatype Proxy<H, D> = Proxy(
    pools: set<nat>,                       // slots with a pool behind them
    nextIds: map<nat, nat>,                // each pool's own counter
    issued: map<Key, Ctx<H>>,              // who asked what under which key
    running: set<Key>,                     // in the pool, result not yet reported
    unsaved: map<Key, Ctx<H>>,             // in the pool, entry not yet saved
    pending: map<Key, Ctx<H>>,
    overtaken: set<Key>,                   // result reported before the entry was saved
    taken: seq<Entry<Key, Taken<H, D>>>,   // results matched to their entries
    gone: set<nat>,
    replies: seq<Entry<Key, Reply<H, D>>>)

  function Init<H, D>(pools: set<nat>): Proxy<H, D> {
    Proxy(pools, map slot | slot in pools :: MIN_REQ_ID, map[], {}, map[], map[], {}, [], {}, [])
  }

  datatype Event<H, D> =
    | Submit(user: nat, header: H, slot: nat, accepted: bool)
    | SaveCtx(key: Key)
    | Result(key: Key, data: D)
    | Deliver(i: nat)
    | Leave(user: nat)
    | CleanShard(slot: nat, k: nat, user: nat)

  // ---- steps ------------------------------------------------------------------------------------

  /** The pool draws an id whether or not it has room; a slot without a pool is refused. */
  function StepSubmit<H, D>(s: Proxy<H, D>, user: nat, header: H, slot: nat, accepted: bool): Proxy<H, D> {
    if slot >= MAX_DB_SLOTS || slot !in s.pools || slot !in s.nextIds then s
    else
      var key, c := Key(slot, s.nextIds[slot]), Ctx(user, header);
      var t := s.(nextIds := s.nextIds[slot := s.nextIds[slot] + 1]);
      if !accepted then t
      else t.(issued := s.issued[key := c], running := s.running + {key}, unsaved := s.unsaved[key := c])
  }

  /** What only a submission changes. */
  ghost predicate SameIssue<H, D>(s: Proxy<H, D>, t: Proxy<H, D>) {
    t.pools == s.pools && t.nextIds == s.nextIds && t.issued == s.issued
  }

  function StepSave<H, D>(s: Proxy<H, D>, key: Key): (t: Proxy<H, D>)
    ensures SameIssue(s, t)
  {
    if key !in s.unsaved then s
    else
      s.(pending := if key in s.pending then s.pending else s.pending[key := s.unsaved[key]],
         unsaved := s.unsaved - {key})
  }

  /** `onResponseBase` up to the lookup: a result that finds no entry is dropped. */
  function StepReport<H, D>(s: Proxy<H, D>, key: Key, data: D): (t: Proxy<H, D>)
    ensures SameIssue(s, t)
  {
    var rest := s.(running := s.running - {key});
    if key in s.pending then
      rest.(pending := s.pending - {key}, taken := s.taken + [Entry(key, Taken(s.pending[key], data))])
    else rest.(overtaken := if key in s.unsaved then s.overtaken + {key} else s.overtaken)
  }

  /** A pool reports what it is still working on. */
  function StepResult<H, D>(s: Proxy<H, D>, key: Key, data: D): (t: Proxy<H, D>)
    ensures SameIssue(s, t)
  {
    if key !in s.running then s else StepReport(s, key, data)
  }

  function StepDeliver<H, D>(s: Proxy<H, D>, i: nat): (r: Proxy<H, D>)
    ensures SameIssue(s, r)
  {
    if i >= |s.taken| then s
    else
      var t := s.taken[i];
      var rest := s.(taken := Without(s.taken, i));
      if t.item.ctx.user in s.gone then rest
      else rest.(replies := s.replies + [Entry(t.key, Reply(t.item.ctx.user, t.item.ctx.header, t.item.data))])
  }

  predicate Erased<H>(key: Key, c: Ctx<H>, slot: nat, k: nat, user: nat, gone: set<nat>) {
    key.slot == slot && ShardOf(key.id) == k && Stale(c, user, gone)
  }

  function StepClean<H, D>(s: Proxy<H, D>, slot: nat, k: nat, user: nat): (t: Proxy<H, D>)
    ensures SameIssue(s, t)
  {
    s.(pending := map key | key in s.pending && !Erased(key, s.pending[key], slot, k, user, s.gone) :: s.pending[key])
  }

  function Step<H, D>(s: Proxy<H, D>, e: Event<H, D>): Proxy<H, D> {
    match e
    case Submit(user, header, slot, accepted) => StepSubmit(s, user, header, slot, accepted)
    case SaveCtx(key) => StepSave(s, key)
    case Result(key, data) => StepResult(s, key, data)
    case Deliver(i) => StepDeliver(s, i)
    case Leave(user) => s.(gone := s.gone + {user})
    case CleanShard(slot, k, user) => StepClean(s, slot, k, user)
  }

  function Run<H, D>(s: Proxy<H, D>, es: seq<Event<H, D>>): Proxy<H, D>
    decreases |es|
  {
    if es == [] then s else Run(Step(s, es[0]), es[1..])
  }

  // ---- invariants -------------------------------------------------------------------------------

  function Rights<H, D>(s: Proxy<H, D>, key: Key): nat {
    One(key in s.unsaved) + One(key in s.pending) + Count(s.taken, key) + Count(s.replies, key)
  }

  /** Each key can be answered at most once; one whose result came too early, not at all. */
  predicate AtMostOnce<H, D>(s: Proxy<H, D>, key: Key) {
    && Rights(s, key) <= 1
    && (key !in s.issued ==> Rights(s, key) == 0 && key !in s.running && key !in s.overtaken)
    && (key in s.overtaken ==> key !in s.running && Count(s.taken, key) == 0 && Count(s.replies, key) == 0)
    && (key in s.running ==> Count(s.taken, key) == 0 && Count(s.replies, key) == 0)
  }

  ghost predicate AsIssued<H, D>(s: Proxy<H, D>, key: Key, c: Ctx<H>) {
    key in s.issued && s.issued[key] == c
  }

  /** The reply goes to the connection that asked, made from its own header. */
  ghost predicate Routed<H, D>(s: Proxy<H, D>, r: Entry<Key, Reply<H, D>>) {
    AsIssued(s, r.key, Ctx(r.item.user, r.item.header))
  }

  /** What waits to be matched, and what has been, is what was issued. */
  ghost predicate Waiting<H, D>(s: Proxy<H, D>) {
    && (forall key :: key in s.unsaved ==> AsIssued(s, key, s.unsaved[key]))
    && (forall key :: key in s.pending ==> AsIssued(s, key, s.pending[key]))
  }

  ghost predicate Matched<H, D>(s: Proxy<H, D>) {
    && (forall i :: 0 <= i < |s.taken| ==> AsIssued(s, s.taken[i].key, s.taken[i].item.ctx))
    && (forall i :: 0 <= i < |s.replies| ==> Routed(s, s.replies[i]))
  }

  ghost predicate Faithful<H, D>(s: Proxy<H, D>) {
    Waiting(s) && Matched(s)
  }

  /** A pool's ids start where the busy code cannot be mistaken for one, and are not drawn twice. */
  predicate Drawn<H, D>(s: Proxy<H, D>) {
    && (forall slot :: slot in s.nextIds ==> s.nextIds[slot] >= MIN_REQ_ID)
    && (forall key :: key in s.issued ==>
          && key.slot < MAX_DB_SLOTS && key.slot in s.pools && key.slot in s.nextIds
          && MIN_REQ_ID <= key.id < s.nextIds[key.slot] && key.id != POOL_IS_BUSY)
  }

  ghost predicate Inv<H, D>(s: Proxy<H, D>) {
    (forall key :: AtMostOnce(s, key)) && Faithful(s) && Drawn(s)
  }

  lemma OnceStep<H, D>(s: Proxy<H, D>, e: Event<H, D>, key: Key)
    requires AtMostOnce(s, key) && Drawn(s)
    ensures AtMostOnce(Step(s, e), key)
  {
    match e
    case Result(k, data) =>
      if k in s.pending {
        CountSnoc(s.taken, Entry(k, Taken(s.pending[k], data)), key);
      }
    case Deliver(i) => OnceDeliver(s, i, key);
    case _ =>
  }

  lemma OnceDeliver<H, D>(s: Proxy<H, D>, i: nat, key: Key)
    requires AtMostOnce(s, key)
    ensures AtMostOnce(StepDeliver(s, i), key)
  {
    if i < |s.taken| {
      CountWithout(s.taken, i, key);
      var t := StepDeliver(s, i);
      if |t.replies| > |s.replies| {
        CountSnoc(s.replies, t.replies[|s.replies|], key);
      }
    }
  }

  lemma FaithfulSubmit<H, D>(s: Proxy<H, D>, user: nat, header: H, slot: nat, accepted: bool)
    requires Faithful(s) && Drawn(s)
    ensures Faithful(StepSubmit(s, user, header, slot, accepted))
  {
    var t := StepSubmit(s, user, header, slot, accepted);
    assert forall key :: key in s.issued ==> key in t.issued && t.issued[key] == s.issued[key];
    forall i | 0 <= i < |t.replies|
      ensures Routed(t, t.replies[i])
    {
      assert Routed(s, s.replies[i]);
    }
    forall i | 0 <= i < |t.taken|
      ensures AsIssued(t, t.taken[i].key, t.taken[i].item.ctx)
    {
      assert AsIssued(s, s.taken[i].key, s.taken[i].item.ctx);
    }
  }

  lemma FaithfulResult<H, D>(s: Proxy<H, D>, key: Key, data: D)
    requires Faithful(s)
    ensures Faithful(StepResult(s, key, data))
  {
    var t := StepResult(s, key, data);
    if key in s.running && key in s.pending {
      assert AsIssued(s, key, s.pending[key]);
      MatchedOne(s, t, Entry(key, Taken(s.pending[key], data)));
    }
  }

  lemma MatchedOne<H, D>(s: Proxy<H, D>, t: Proxy<H, D>, x: Entry<Key, Taken<H, D>>)
    requires Matched(s) && t.issued == s.issued && t.replies == s.replies && t.taken == s.taken + [x]
    requires AsIssued(s, x.key, x.item.ctx)
    ensures Matched(t)
  {
    forall j | 0 <= j < |t.taken|
      ensures AsIssued(t, t.taken[j].key, t.taken[j].item.ctx)
    {
      assert j < |s.taken| ==> t.taken[j] == s.taken[j] && AsIssued(s, s.taken[j].key, s.taken[j].item.ctx);
    }
    forall j | 0 <= j < |t.replies|
      ensures Routed(t, t.replies[j])
    {
      assert Routed(s, s.replies[j]);
    }
  }

  lemma FaithfulDeliver<H, D>(s: Proxy<H, D>, i: nat)
    requires Faithful(s)
    ensures Faithful(StepDeliver(s, i))
  {
    var t := StepDeliver(s, i);
    if i < |s.taken| {
      forall j | 0 <= j < |t.taken|
        ensures AsIssued(t, t.taken[j].key, t.taken[j].item.ctx)
      {
        var from := if j < i then j else j + 1;
        assert t.taken[j] == s.taken[from];
        assert AsIssued(s, s.taken[from].key, s.taken[from].item.ctx);
      }
      assert AsIssued(s, s.taken[i].key, s.taken[i].item.ctx);
      forall j | 0 <= j < |t.replies|
        ensures Routed(t, t.replies[j])
      {
        assert j < |s.replies| ==> t.replies[j] == s.replies[j] && Routed(s, s.replies[j]);
      }
    }
  }

  lemma FaithfulTables<H, D>(s: Proxy<H, D>, e: Event<H, D>)
    requires Faithful(s) && (e.SaveCtx? || e.Leave? || e.CleanShard?)
    ensures Faithful(Step(s, e))
  {
    var t := Step(s, e);
    assert t.issued == s.issued && t.taken == s.taken && t.replies == s.replies;
    assert Waiting(t);
  }

  lemma FaithfulStep<H, D>(s: Proxy<H, D>, e: Event<H, D>)
    requires Faithful(s) && Drawn(s)
    ensures Faithful(Step(s, e))
  {
    match e
    case Submit(user, header, slot, accepted) => FaithfulSubmit(s, user, header, slot, accepted);
    case Result(key, data) => FaithfulResult(s, key, data);
    case Deliver(i) => FaithfulDeliver(s, i);
    case _ => FaithfulTables(s, e);
  }

  lemma DrawnStep<H, D>(s: Proxy<H, D>, e: Event<H, D>)
    requires Drawn(s)
    ensures Drawn(Step(s, e))
  {
    if e.Submit? {
      DrawnSubmit(s, e.user, e.header, e.slot, e.accepted);
    } else {
      assert SameIssue(s, Step(s, e));
    }
  }

  lemma DrawnSubmit<H, D>(s: Proxy<H, D>, user: nat, header: H, slot: nat, accepted: bool)
    requires Drawn(s)
    ensures Drawn(StepSubmit(s, user, header, slot, accepted))
  {
    var t := StepSubmit(s, user, header, slot, accepted);
    forall key | key in t.issued
      ensures key.slot < MAX_DB_SLOTS && key.slot in t.pools && key.slot in t.nextIds &&
              MIN_REQ_ID <= key.id < t.nextIds[key.slot]
    {
      assert key in s.issued || (slot in s.nextIds && key == Key(slot, s.nextIds[slot]));
    }
  }

  lemma StepKeepsInv<H, D>(s: Proxy<H, D>, e: Event<H, D>)
    requires Inv(s)
    ensures Inv(Step(s, e))
  {
    forall key
      ensures AtMostOnce(Step(s, e), key)
    {
      OnceStep(s, e, key);
    }
    FaithfulStep(s, e);
    DrawnStep(s, e);
  }

  lemma {:induction false} RunKeepsInv<H, D>(s: Proxy<H, D>, es: seq<Event<H, D>>)
    requires Inv(s)
    ensures Inv(Run(s, es))
    decreases |es|
  {
    if es != [] {
      StepKeepsInv(s, es[0]);
      RunKeepsInv(Step(s, es[0]), es[1..]);
    }
  }

  lemma InitInv<H, D>(pools: set<nat>)
    ensures Inv<H, D>(Init(pools))
  {
    var s: Proxy<H, D> := Init(pools);
    assert forall key :: AtMostOnce(s, key);
  }

  // ---- what the events say ----------------------------------------------------------------------

  /** What the submissions of a run draw from one slot's counter, in order: draw `i` is the id 100 + i, and it is a
      request in the pool or, when the pool was busy, wasted. */
  function Draws<H, D>(es: seq<Event<H, D>>, slot: nat): seq<Option<Ctx<H>>> {
    if es == [] then [] else DrawOf(es[0], slot) + Draws(es[1..], slot)
  }

  function DrawOf<H, D>(e: Event<H, D>, slot: nat): seq<Option<Ctx<H>>> {
    if e.Submit? && e.slot == slot then [if e.accepted then Some(Ctx(e.user, e.header)) else None] else []
  }

  /** From `s` to `t` the slot has drawn these. */
  ghost predicate Issues<H, D>(s: Proxy<H, D>, t: Proxy<H, D>, slot: nat, draws: seq<Option<Ctx<H>>>) {
    && slot in s.nextIds && slot in t.nextIds && t.nextIds[slot] == s.nextIds[slot] + |draws| && t.pools == s.pools
    && (forall i :: 0 <= i < |draws| ==> Lookup(t.issued, Key(slot, s.nextIds[slot] + i)) == draws[i])
    && (forall id: nat :: id < s.nextIds[slot] ==> Lookup(t.issued, Key(slot, id)) == Lookup(s.issued, Key(slot, id)))
    && (forall id: nat :: id >= t.nextIds[slot] ==> Key(slot, id) !in t.issued)
  }

  function Lookup<H>(m: map<Key, Ctx<H>>, key: Key): Option<Ctx<H>> {
    if key in m then Some(m[key]) else None
  }

  lemma IssuesStep<H, D>(s: Proxy<H, D>, e: Event<H, D>, slot: nat)
    requires Drawn(s) && slot in s.pools && slot in s.nextIds && slot < MAX_DB_SLOTS
    ensures Issues(s, Step(s, e), slot, DrawOf(e, slot))
  {
    if !e.Submit? {
      assert SameIssue(s, Step(s, e));
    }
  }

  lemma IssuesTrans<H, D>(s: Proxy<H, D>, t: Proxy<H, D>, u: Proxy<H, D>, slot: nat,
                          a: seq<Option<Ctx<H>>>, b: seq<Option<Ctx<H>>>)
    requires Issues(s, t, slot, a) && Issues(t, u, slot, b)
    ensures Issues(s, u, slot, a + b)
  {
    forall i | 0 <= i < |a + b|
      ensures Lookup(u.issued, Key(slot, s.nextIds[slot] + i)) == (a + b)[i]
    {
      if i < |a| {
        assert Lookup(t.issued, Key(slot, s.nextIds[slot] + i)) == a[i];
      } else {
        assert s.nextIds[slot] + i == t.nextIds[slot] + (i - |a|) && (a + b)[i] == b[i - |a|];
      }
    }
  }

  lemma {:induction false} IssuesRun<H, D>(s: Proxy<H, D>, es: seq<Event<H, D>>, slot: nat)
    requires Drawn(s) && slot in s.pools && slot in s.nextIds && slot < MAX_DB_SLOTS
    ensures Issues(s, Run(s, es), slot, Draws(es, slot))
    decreases |es|
  {
    if es != [] {
      var t := Step(s, es[0]);
      IssuesStep(s, es[0], slot);
      DrawnStep(s, es[0]);
      IssuesRun(t, es[1..], slot);
      IssuesTrans(s, t, Run(t, es[1..]), slot, DrawOf(es[0], slot), Draws(es[1..], slot));
    }
  }

  /** Whatever is matched or replied is a result the pool reported under that very key. */
  ghost predicate Heard<H(!new), D(!new)>(s: Proxy<H, D>, past: seq<Event<H, D>>) {
    && (forall i :: 0 <= i < |s.taken| ==> Result(s.taken[i].key, s.taken[i].item.data) in past)
    && (forall i :: 0 <= i < |s.replies| ==> Result(s.replies[i].key, s.replies[i].item.data) in past)
  }

  lemma HeardTaken<H(!new), D(!new)>(s: Proxy<H, D>, past: seq<Event<H, D>>, e: Event<H, D>, i: nat)
    requires Heard(s, past) && i < |Step(s, e).taken|
    ensures var x := Step(s, e).taken[i]; Result(x.key, x.item.data) in past + [e]
  {
    var t, now := Step(s, e), past + [e];
    if e.Result? && i == |s.taken| {
      assert now[|past|] == Result(t.taken[i].key, t.taken[i].item.data);
    } else {
      assert t.taken[i] == s.taken[if e.Deliver? && |t.taken| < |s.taken| && i >= e.i then i + 1 else i];
    }
  }

  lemma HeardReplies<H(!new), D(!new)>(s: Proxy<H, D>, past: seq<Event<H, D>>, e: Event<H, D>, i: nat)
    requires Heard(s, past) && i < |Step(s, e).replies|
    ensures var x := Step(s, e).replies[i]; Result(x.key, x.item.data) in past + [e]
  {
    var t := Step(s, e);
    if i < |s.replies| {
      assert t.replies[i] == s.replies[i];
    } else {
      assert t.replies[i].key == s.taken[e.i].key && t.replies[i].item.data == s.taken[e.i].item.data;
    }
  }

  lemma {:induction false} HeardRun<H(!new), D(!new)>(s: Proxy<H, D>, past: seq<Event<H, D>>, es: seq<Event<H, D>>)
    requires Heard(s, past)
    ensures Heard(Run(s, es), past + es)
    decreases |es|
  {
    if es == [] {
      assert past + es == past;
    } else {
      var t := Step(s, es[0]);
      forall i | 0 <= i < |t.taken|
        ensures Result(t.taken[i].key, t.taken[i].item.data) in past + [es[0]]
      {
        HeardTaken(s, past, es[0], i);
      }
      forall i | 0 <= i < |t.replies|
        ensures Result(t.replies[i].key, t.replies[i].item.data) in past + [es[0]]
      {
        HeardReplies(s, past, es[0], i);
      }
      HeardRun(t, past + [es[0]], es[1..]);
      assert past + [es[0]] + es[1..] == past + es;
    }
  }

  /** The request a reply answers, as the run's events have it: the accepted submission that drew its id. */
  ghost predicate Answers<H(!new), D(!new)>(es: seq<Event<H, D>>, r: Entry<Key, Reply<H, D>>) {
    var draws := Draws(es, r.key.slot);
    && MIN_REQ_ID <= r.key.id < MIN_REQ_ID + |draws|
    && draws[r.key.id - MIN_REQ_ID] == Some(Ctx(r.item.user, r.item.header))
    && Result(r.key, r.item.data) in es
  }

  lemma RepliesAnswer<H(!new), D(!new)>(pools: set<nat>, es: seq<Event<H, D>>)
    requires Inv<H, D>(Run(Init(pools), es))
    ensures var s := Run(Init(pools), es); forall i :: 0 <= i < |s.replies| ==> Answers(es, s.replies[i])
  {
    InitInv<H, D>(pools);
    var s0: Proxy<H, D> := Init(pools);
    HeardRun(s0, [], es);
    assert [] + es == es;
    var s := Run(s0, es);
    forall i | 0 <= i < |s.replies|
      ensures Answers(es, s.replies[i])
    {
      var key := s.replies[i].key;
      assert Routed(s, s.replies[i]);
      PoolsKept(s0, es);
      IssuesRun(s0, es, key.slot);
      assert Lookup(s.issued, key) == Some(Ctx(s.replies[i].item.user, s.replies[i].item.header));
      assert key == Key(key.slot, MIN_REQ_ID + (key.id - MIN_REQ_ID));
    }
  }

  lemma {:induction false} PoolsKept<H, D>(s: Proxy<H, D>, es: seq<Event<H, D>>)
    ensures Run(s, es).pools == s.pools
    decreases |es|
  {
    if es != [] {
      assert Step(s, es[0]).pools == s.pools;
      PoolsKept(Step(s, es[0]), es[1..]);
    }
  }

  /** Correlation over every interleaving, the gap between push and save included: each reply goes to the connection
      whose submission drew its id, is made from that submission's header and carries the result reported under that
      key; and each request gets at most one. */
  lemma RepliesCorrelate<H(!new), D(!new)>(pools: set<nat>, es: seq<Event<H, D>>)
    ensures var s := Run(Init(pools), es);
            && (forall i :: 0 <= i < |s.replies| ==> Answers(es, s.replies[i]))
            && (forall i, j :: 0 <= i < j < |s.replies| ==> s.replies[i].key != s.replies[j].key)
  {
    InitInv<H, D>(pools);
    var s0: Proxy<H, D> := Init(pools);
    RunKeepsInv(s0, es);
    RepliesAnswer<H, D>(pools, es);
    var s := Run(s0, es);
    forall i, j | 0 <= i < j < |s.replies|
      ensures s.replies[i].key != s.replies[j].key
    {
      assert AtMostOnce(s, s.replies[i].key);
      DistinctKeys(s.replies, i, j);
    }
  }

  /** ... and the ordinary course does answer: from any reachable state, a request that is accepted, saved and then
      executed is answered, on its connection, from its header, with its result. */
  lemma OrdinaryCourse<H, D>(s: Proxy<H, D>, user: nat, header: H, slot: nat, data: D)
    requires Inv(s) && user !in s.gone && slot < MAX_DB_SLOTS && slot in s.pools && slot in s.nextIds
    ensures var key := Key(slot, s.nextIds[slot]);
            Step(Step(Step(Step(s, Submit(user, header, slot, true)), SaveCtx(key)), Result(key, data)),
                Deliver(|s.taken|)).replies
            == s.replies + [Entry(key, Reply(user, header, data))]
  {
    var key := Key(slot, s.nextIds[slot]);
    assert AtMostOnce(s, key);
    var s2 := Step(Step(s, Submit(user, header, slot, true)), SaveCtx(key));
    assert s2.pending == s.pending[key := Ctx(user, header)] && key in s2.running;
    var s3 := Step(s2, Result(key, data));
    assert s3.taken[|s.taken|] == Entry(key, Taken(Ctx(user, header), data));
  }

  // ---- which results are lost -------------------------------------------------------------------

  /** Nothing that can still happen answers the request: its result has come, and any entry it found is a dead
      user's. */
  ghost predicate Hopeless<H, D>(s: Proxy<H, D>, key: Key) {
    && key in s.issued && key !in s.running && Count(s.replies, key) == 0
    && forall i :: 0 <= i < |s.taken| && s.taken[i].key == key ==> s.taken[i].item.ctx.user in s.gone
  }

  lemma HopelessDeliver<H, D>(s: Proxy<H, D>, i: nat, key: Key)
    requires Hopeless(s, key)
    ensures Hopeless(StepDeliver(s, i), key)
  {
    var t := StepDeliver(s, i);
    if i < |s.taken| {
      forall j | 0 <= j < |t.taken| && t.taken[j].key == key
        ensures t.taken[j].item.ctx.user in t.gone
      {
        assert t.taken[j] == s.taken[if j < i then j else j + 1];
      }
      if |t.replies| > |s.replies| {
        CountSnoc(s.replies, t.replies[|s.replies|], key);
      }
    }
  }

  lemma HopelessStep<H, D>(s: Proxy<H, D>, e: Event<H, D>, key: Key)
    requires Hopeless(s, key) && Drawn(s)
    ensures Hopeless(Step(s, e), key)
  {
    match e
    case Deliver(i) => HopelessDeliver(s, i, key);
    case _ =>
  }

  lemma {:induction false} HopelessRun<H, D>(s: Proxy<H, D>, es: seq<Event<H, D>>, key: Key)
    requires Hopeless(s, key) && Drawn(s)
    ensures Hopeless(Run(s, es), key)
    decreases |es|
  {
    if es != [] {
      HopelessStep(s, es[0], key);
      DrawnStep(s, es[0]);
      HopelessRun(Step(s, es[0]), es[1..], key);
    }
  }

  /** What a result needs to find for its request to be answered. */
  predicate Awaited<H, D>(s: Proxy<H, D>, key: Key) {
    key in s.pending && s.pending[key].user !in s.gone
  }

  lemma NotAwaitedIsHopeless<H, D>(s: Proxy<H, D>, key: Key, data: D)
    requires Inv(s) && key in s.running && !Awaited(s, key)
    ensures Hopeless(StepResult(s, key, data), key)
  {
    assert AtMostOnce(s, key);
    var t := StepResult(s, key, data);
    forall i | 0 <= i < |t.taken| && t.taken[i].key == key
      ensures t.taken[i].item.ctx.user in t.gone
    {
      if i < |s.taken| {
        CountPositive(s.taken, i);
      }
    }
  }

  /** A result that arrives after the save, with the user alive, is delivered by the next step. */
  lemma DeliveredAfterSave<H, D>(s: Proxy<H, D>, key: Key, data: D)
    requires Faithful(s) && key in s.running && Awaited(s, key)
    ensures Run(StepResult(s, key, data), [Deliver(|s.taken|)]).replies
         == s.replies + [Entry(key, Reply(s.issued[key].user, s.issued[key].header, data))]
  {
    assert AsIssued(s, key, s.pending[key]);
    var t := StepResult(s, key, data);
    assert t.taken[|s.taken|] == Entry(key, Taken(s.pending[key], data));
    var e: Event<H, D> := Deliver(|s.taken|);
    assert [e][1..] == [];
    assert Run(Step(t, e), []) == Step(t, e);
  }

  /** The exact condition: a result can still be delivered, in some continuation, if and only if on its arrival the
      entry is saved, has not been cleaned away, and its user is alive. Otherwise no continuation answers the
      request. */
  lemma AnsweredExactly<H, D>(s: Proxy<H, D>, key: Key, data: D)
    requires Inv(s) && key in s.running
    ensures Awaited(s, key) <==> exists es :: Count(Run(StepResult(s, key, data), es).replies, key) > 0
  {
    var t := StepResult(s, key, data);
    if Awaited(s, key) {
      var e: Event<H, D> := Deliver(|s.taken|);
      DeliveredAfterSave(s, key, data);
      CountSnoc(s.replies, Entry(key, Reply(s.issued[key].user, s.issued[key].header, data)), key);
      assert Count(Run(t, [e]).replies, key) > 0;
    } else {
      NotAwaitedIsHopeless(s, key, data);
      forall es: seq<Event<H, D>>
        ensures Count(Run(t, es).replies, key) == 0
      {
        HopelessRun(t, es, key);
      }
    }
  }

  /** A result that arrives before the save is lost, and its request is not answered in any continuation. */
  lemma OvertakenNeverAnswered<H, D>(s: Proxy<H, D>, key: Key, data: D, es: seq<Event<H, D>>)
    requires Inv(s) && key in s.running && key in s.unsaved
    ensures Count(Run(StepResult(s, key, data), es).replies, key) == 0
  {
    assert AtMostOnce(s, key);
    NotAwaitedIsHopeless(s, key, data);
    HopelessRun(StepResult(s, key, data), es, key);
  }

  /** The gap between push and save is real: from the start, one request and its prompt result suffice to lose it. */
  lemma PromptResultIsLost<H, D>(user: nat, header: H, data: D, es: seq<Event<H, D>>)
    ensures var key := Key(0, MIN_REQ_ID);
            var s := Run(Init({0}), [Submit(user, header, 0, true), Result(key, data)]);
            && key in s.issued && key in s.overtaken
            && Count(Run(s, es).replies, key) == 0
  {
    var key := Key(0, MIN_REQ_ID);
    var s0: Proxy<H, D> := Init({0});
    var e: Event<H, D>, e': Event<H, D> := Submit(user, header, 0, true), Result(key, data);
    InitInv<H, D>({0});
    StepKeepsInv(s0, e);
    var s1 := Step(s0, e);
    assert key in s1.running && key in s1.unsaved && key !in s1.pending;
    OvertakenNeverAnswered(s1, key, data, es);
    assert [e, e'][1..] == [e'] && [e'][1..] == [];
    assert Run(s0, [e, e']) == Run(s1, [e']);
    assert Run(s1, [e']) == Run(Step(s1, e'), []);
  }

  // ---- entries left behind ----------------------------------------------------------------------

  /** The save then leaves an entry nobody will take. */
  lemma OrphanStaysUntilCleaned<H, D>(s: Proxy<H, D>, e: Event<H, D>, key: Key)
    requires Inv(s) && key in s.overtaken && key in s.pending
    ensures key in Step(s, e).pending || (e.CleanShard? && Erased(key, s.pending[key], e.slot, e.k, e.user, s.gone))
  {
    assert AtMostOnce(s, key);
  }

  predicate Finished<H, D>(s: Proxy<H, D>, key: Key) {
    key in s.issued && key !in s.unsaved && key !in s.pending
  }

  lemma FinishedStays<H, D>(s: Proxy<H, D>, e: Event<H, D>, key: Key)
    requires Drawn(s) && Finished(s, key)
    ensures Finished(Step(s, e), key)
  {
  }

  lemma {:induction false} FinishedRun<H, D>(s: Proxy<H, D>, es: seq<Event<H, D>>, key: Key)
    requires Inv(s) && Finished(s, key)
    ensures Finished(Run(s, es), key)
    decreases |es|
  {
    if es != [] {
      FinishedStays(s, es[0], key);
      StepKeepsInv(s, es[0]);
      FinishedRun(Step(s, es[0]), es[1..], key);
    }
  }

  /** Cleaning up after the user removes its entry, orphaned or not, for good. */
  lemma CleanupRemoves<H, D>(s: Proxy<H, D>, key: Key, es: seq<Event<H, D>>)
    requires Inv(s) && key in s.pending
    ensures key !in Run(StepClean(s, key.slot, ShardOf(key.id), s.pending[key].user), es).pending
  {
    assert AtMostOnce(s, key);
    assert AsIssued(s, key, s.pending[key]);
    var e: Event<H, D> := CleanShard(key.slot, ShardOf(key.id), s.pending[key].user);
    StepKeepsInv(s, e);
    FinishedRun(Step(s, e), es, key);
  }

  // ---- the code's tables ------------------------------------------------------------------------

  type Contexts<H> = seq<Option<Shards<H>>>

  /** One sharded table per slot that has a pool, which together hold the machine's pending entries. */
  ghost predicate Agrees<H(!new), D>(ctx: Contexts<H>, s: Proxy<H, D>) {
    && |ctx| == MAX_DB_SLOTS
    && (forall slot :: 0 <= slot < MAX_DB_SLOTS ==> (ctx[slot].Some? <==> slot in s.pools))
    && (forall key :: key in s.pending ==> key.slot < MAX_DB_SLOTS && key.slot in s.pools)
    && (forall slot, id: nat :: 0 <= slot < MAX_DB_SLOTS && ctx[slot].Some? ==>
          Find(ctx[slot].value[ShardOf(id)], id) == Lookup(s.pending, Key(slot, id)))
  }

  /** What the tables hold under a key. */
  ghost function EntryOf<H>(ctx: Contexts<H>, key: Key): Option<Ctx<H>> {
    if key.slot < |ctx| && ctx[key.slot].Some? then Find(ctx[key.slot].value[key.id % 16], key.id) else None
  }

  lemma EntriesArePending<H(!new), D>(ctx: Contexts<H>, s: Proxy<H, D>)
    requires Agrees(ctx, s)
    ensures forall key :: EntryOf(ctx, key) == Lookup(s.pending, key)
  {
    forall key
      ensures EntryOf(ctx, key) == Lookup(s.pending, key)
    {
      if key.slot < |ctx| && ctx[key.slot].Some? {
        assert Find(ctx[key.slot].value[ShardOf(key.id)], key.id) == Lookup(s.pending, Key(key.slot, key.id));
      }
    }
  }

  /** An operation on one slot's table. */
  function OnSlot<H>(ctx: Contexts<H>, slot: nat, op: Op<H>): Contexts<H>
    requires slot < |ctx| && ctx[slot].Some?
  {
    ctx[slot := Some(ShardStep(ctx[slot].value, op))]
  }

  lemma AgreesSubmit<H(!new), D>(ctx: Contexts<H>, s: Proxy<H, D>, user: nat, header: H, slot: nat, accepted: bool)
    requires Agrees(ctx, s) && slot < MAX_DB_SLOTS && slot in s.pools && slot in s.nextIds
    ensures var t := StepSubmit(s, user, header, slot, accepted);
            && Agrees(ctx, t) && t.pools == s.pools && t.nextIds == s.nextIds[slot := s.nextIds[slot] + 1]
            && var key := Key(slot, s.nextIds[slot]);
               accepted ==> key in t.unsaved && t.unsaved[key] == Ctx(user, header)
  {
    var t := StepSubmit(s, user, header, slot, accepted);
    assert t.pools == s.pools && t.pending == s.pending;
  }

  lemma AgreesSave<H(!new), D>(ctx: Contexts<H>, s: Proxy<H, D>, key: Key)
    requires Agrees(ctx, s) && key in s.unsaved && key.slot < MAX_DB_SLOTS && key.slot in s.pools
    ensures Agrees(OnSlot(ctx, key.slot, Save(key.id, s.unsaved[key])), StepSave(s, key))
  {
    var ctx', t := OnSlot(ctx, key.slot, Save(key.id, s.unsaved[key])), StepSave(s, key);
    forall slot, id: nat | 0 <= slot < MAX_DB_SLOTS && ctx'[slot].Some?
      ensures Find(ctx'[slot].value[ShardOf(id)], id) == Lookup(t.pending, Key(slot, id))
    {
      assert Find(ctx[slot].value[ShardOf(id)], id) == Lookup(s.pending, Key(slot, id));
    }
  }

  lemma AgreesReport<H(!new), D>(ctx: Contexts<H>, s: Proxy<H, D>, key: Key, data: D)
    requires Agrees(ctx, s) && key.slot < MAX_DB_SLOTS && key.slot in s.pools
    ensures Agrees(OnSlot(ctx, key.slot, Take(key.id)), StepReport(s, key, data))
  {
    var ctx', t := OnSlot(ctx, key.slot, Take(key.id)), StepReport(s, key, data);
    assert Find(ctx[key.slot].value[ShardOf(key.id)], key.id) == Lookup(s.pending, key);
    forall slot, id: nat | 0 <= slot < MAX_DB_SLOTS && ctx'[slot].Some?
      ensures Find(ctx'[slot].value[ShardOf(id)], id) == Lookup(t.pending, Key(slot, id))
    {
      assert Find(ctx[slot].value[ShardOf(id)], id) == Lookup(s.pending, Key(slot, id));
    }
  }

  lemma AgreesClean<H(!new), D>(ctx: Contexts<H>, s: Proxy<H, D>, slot: nat, k: nat, user: nat)
    requires Agrees(ctx, s) && slot < MAX_DB_SLOTS && slot in s.pools && k < SHARDS
    ensures Agrees(OnSlot(ctx, slot, Clean(k, user, s.gone)), StepClean(s, slot, k, user))
  {
    var ctx', t := OnSlot(ctx, slot, Clean(k, user, s.gone)), StepClean(s, slot, k, user);
    forall l, id: nat | 0 <= l < MAX_DB_SLOTS && ctx'[l].Some?
      ensures Find(ctx'[l].value[ShardOf(id)], id) == Lookup(t.pending, Key(l, id))
    {
      assert Find(ctx[l].value[ShardOf(id)], id) == Lookup(s.pending, Key(l, id));
    }
  }

  class ProxyServer<H(!new), D(!new)> {
    var poolCtx: Contexts<H>
    var poolIds: map<nat, nat>     // the id counters inside the pools

    ghost predicate Matches(s: Proxy<H, D>)
      reads this
    {
      Agrees(poolCtx, s) && poolIds == s.nextIds && forall slot :: slot in s.pools <==> slot in poolIds
    }

    /** `initPools`: a configuration with a bad slot is skipped. */
    constructor (slots: seq<nat>)
      ensures Matches(Init(set slot | slot in slots && slot < MAX_DB_SLOTS))
    {
      var ctx: Contexts<H> := seq(MAX_DB_SLOTS, _ => None);
      var ids: map<nat, nat> := map[];
      for i := 0 to |slots|
        invariant |ctx| == MAX_DB_SLOTS
        invariant forall slot :: 0 <= slot < MAX_DB_SLOTS ==>
                    ctx[slot] == if slot in slots[..i] then Some(NoEntries()) else None
        invariant forall slot :: slot in ids <==> slot in slots[..i] && slot < MAX_DB_SLOTS
        invariant forall slot :: slot in ids ==> ids[slot] == MIN_REQ_ID
      {
        assert slots[..i + 1] == slots[..i] + [slots[i]];
        if slots[i] < MAX_DB_SLOTS {
          ctx := ctx[slots[i] := Some(NoEntries())];
          ids := ids[slots[i] := MIN_REQ_ID];
        }
      }
      assert slots[..|slots|] == slots;
      poolCtx, poolIds := ctx, ids;
    }

    /** `savePenddingReq` */
    method SavePendingReq(key: Key, c: Ctx<H>, ghost s: Proxy<H, D>)
      requires Matches(s) && key in s.unsaved && s.unsaved[key] == c && key.slot < MAX_DB_SLOTS && key.slot in s.pools
      modifies this`poolCtx
      ensures forall k :: EntryOf(poolCtx, k) ==
                if k == key && EntryOf(old(poolCtx), k) == None then Some(c) else EntryOf(old(poolCtx), k)
      ensures Matches(StepSave(s, key))
    {
      EntriesArePending(poolCtx, s);
      AgreesSave(poolCtx, s, key);
      poolCtx := OnSlot(poolCtx, key.slot, Save(key.id, c));
      EntriesArePending(poolCtx, StepSave(s, key));
    }

    /** The pool's own `submit`, which draws an id in any case. */
    method PoolSubmit(slot: nat, accepted: bool, ghost user: nat, ghost header: H, ghost s: Proxy<H, D>)
      returns (dbReqId: nat)
      requires Matches(s) && slot < MAX_DB_SLOTS && slot in s.pools
      modifies this`poolIds
      ensures dbReqId == if accepted then s.nextIds[slot] else POOL_IS_BUSY
      ensures slot in old(poolIds) && poolIds == old(poolIds)[slot := old(poolIds)[slot] + 1]
      ensures var t := StepSubmit(s, user, header, slot, accepted);
              && Matches(t) && slot in t.pools
              && (accepted ==> Key(slot, dbReqId) in t.unsaved && t.unsaved[Key(slot, dbReqId)] == Ctx(user, header))
    {
      AgreesSubmit(poolCtx, s, user, header, slot, accepted);
      dbReqId := if accepted then poolIds[slot] else POOL_IS_BUSY;
      poolIds := poolIds[slot := poolIds[slot] + 1];
    }

    /** `submit`: the pool first, the pending entry second. */
    method Submit(user: nat, header: H, slot: nat, accepted: bool, ghost s: Proxy<H, D>)
      requires Matches(s) && Drawn(s)
      modifies this
      ensures slot >= MAX_DB_SLOTS || slot !in old(poolIds) ==> poolCtx == old(poolCtx) && poolIds == old(poolIds)
      ensures slot < MAX_DB_SLOTS && slot in old(poolIds) ==>
                && poolIds == old(poolIds)[slot := old(poolIds)[slot] + 1]
                && (!accepted ==> poolCtx == old(poolCtx))
                && (accepted && EntryOf(old(poolCtx), Key(slot, old(poolIds)[slot])) == None ==>
                      forall k :: EntryOf(poolCtx, k) ==
                        if k == Key(slot, old(poolIds)[slot]) then Some(Ctx(user, header))
                            else EntryOf(old(poolCtx), k))
      ensures slot >= MAX_DB_SLOTS || slot !in s.pools ==> Matches(s)
      ensures slot < MAX_DB_SLOTS && slot in s.pools ==>
                var t := StepSubmit(s, user, header, slot, accepted);
                Matches(if accepted then StepSave(t, Key(slot, s.nextIds[slot])) else t)
    {
      if slot < MAX_DB_SLOTS && slot in poolIds {
        var dbReqId := PoolSubmit(slot, accepted, user, header, s);
        if dbReqId != POOL_IS_BUSY {
          ghost var t := StepSubmit(s, user, header, slot, accepted);
          SavePendingReq(Key(slot, dbReqId), Ctx(user, header), t);
        }
      }
    }

    /** `onResponseBase`, whatever the key: takes the entry out, and says whom to answer. */
    method OnResponse(key: Key, data: D, gone: set<nat>, ghost s: Proxy<H, D>) returns (reply: Option<Reply<H, D>>)
      requires Matches(s) && gone == s.gone
      modifies this
      ensures var found := EntryOf(old(poolCtx), key);
              reply == if found.Some? && found.value.user !in gone
                       then Some(Reply(found.value.user, found.value.header, data)) else None
      ensures forall k :: EntryOf(poolCtx, k) == if k == key then None else EntryOf(old(poolCtx), k)
      ensures key.slot >= MAX_DB_SLOTS || key.slot !in s.pools ==> reply.None? && Matches(s)
      ensures key.slot < MAX_DB_SLOTS && key.slot in s.pools ==>
                var t := StepReport(s, key, data);
                if key in s.pending
                then var u := StepDeliver(t, |s.taken|);
                     Matches(u) && u.replies == s.replies + if reply.Some? then [Entry(key, reply.value)] else []
                else Matches(t) && reply.None?
    {
      reply := None;
      if key.slot >= MAX_DB_SLOTS || poolCtx[key.slot].None? {
        return;
      }
      EntriesArePending(poolCtx, s);
      AgreesReport(poolCtx, s, key, data);
      var entry := Find(poolCtx[key.slot].value[ShardOf(key.id)], key.id);
      assert entry == Lookup(s.pending, key);
      poolCtx := OnSlot(poolCtx, key.slot, Take(key.id));
      ghost var t := StepReport(s, key, data);
      EntriesArePending(poolCtx, t);
      if entry.Some? {
        assert t.taken[|s.taken|] == Entry(key, Taken(entry.value, data));
        if entry.value.user !in gone {
          reply := Some(Reply(entry.value.user, entry.value.header, data));
        }
      }
      assert s.replies + [] == s.replies;
    }

    /** One shard of one slot. */
    method CleanShardOf(slot: nat, k: nat, user: nat, gone: set<nat>, ghost s: Proxy<H, D>)
      requires Matches(s) && gone == s.gone && slot < MAX_DB_SLOTS && slot in s.pools && k < SHARDS
      modifies this`poolCtx
      ensures Matches(StepClean(s, slot, k, user))
    {
      AgreesClean(poolCtx, s, slot, k, user);
      var shards := poolCtx[slot].value;
      var m := EraseStale(shards[k], user, gone);
      shards := shards[k := m];
      poolCtx := poolCtx[slot := Some(shards)];
    }

    method CleanSlot(slot: nat, user: nat, gone: set<nat>, ghost s: Proxy<H, D>)
      requires Matches(s) && gone == s.gone && slot < MAX_DB_SLOTS && slot in s.pools
      modifies this`poolCtx
      ensures Matches(Run(s, SlotEvents(slot, user, SHARDS)))
    {
      ghost var t := s;
      for k := 0 to SHARDS
        invariant t == Run(s, SlotEvents(slot, user, k))
        invariant Matches(t) && t.gone == gone && slot in t.pools
      {
        RunSnoc(s, SlotEvents(slot, user, k), CleanShard(slot, k, user));
        CleanShardOf(slot, k, user, gone, t);
        t := StepClean(t, slot, k, user);
      }
    }

    /** `cleanupUserPending`: every shard of every slot that has a pool. */
    method CleanupUserPending(user: nat, gone: set<nat>, ghost s: Proxy<H, D>)
      requires Matches(s) && gone == s.gone
      modifies this`poolCtx
      ensures forall k :: EntryOf(poolCtx, k) ==
                var c := EntryOf(old(poolCtx), k);
                if c.Some? && (c.value.user == user || c.value.user in gone) then None else c
      ensures Matches(Run(s, CleanEvents(user, MAX_DB_SLOTS)))
    {
      ghost var t := s;
      EntriesArePending(poolCtx, s);
      for slot := 0 to MAX_DB_SLOTS
        invariant t == Run(s, CleanEvents(user, slot))
        invariant Matches(t) && t.gone == gone
      {
        RunAppend(s, CleanEvents(user, slot), SlotEvents(slot, user, SHARDS));
        CleanSlotIfAny(slot, user, gone, t);
        t := Run(t, SlotEvents(slot, user, SHARDS));
      }
      CleanKeeps(s, user, MAX_DB_SLOTS);
      EntriesArePending(poolCtx, t);
      AllCleaned(s, t, user);
    }

    method CleanSlotIfAny(slot: nat, user: nat, gone: set<nat>, ghost s: Proxy<H, D>)
      requires Matches(s) && gone == s.gone && slot < MAX_DB_SLOTS
      modifies this`poolCtx
      ensures Matches(Run(s, SlotEvents(slot, user, SHARDS)))
      ensures Run(s, SlotEvents<H, D>(slot, user, SHARDS)).gone == s.gone
    {
      SlotKeeps(s, slot, user, SHARDS);
      if poolCtx[slot].Some? {
        CleanSlot(slot, user, gone, s);
      } else {
        EmptySlot(poolCtx, s, slot, user, SHARDS);
      }
    }
  }

  // ---- a whole cleanup as the machine's steps ---------------------------------------------------

  function SlotEvents<H, D>(slot: nat, user: nat, k: nat): seq<Event<H, D>> {
    if k == 0 then [] else SlotEvents(slot, user, k - 1) + [CleanShard(slot, k - 1, user)]
  }

  function CleanEvents<H, D>(user: nat, n: nat): seq<Event<H, D>> {
    if n == 0 then [] else CleanEvents(user, n - 1) + SlotEvents(n - 1, user, SHARDS)
  }

  lemma {:induction false} RunAppend<H, D>(s: Proxy<H, D>, a: seq<Event<H, D>>, b: seq<Event<H, D>>)
    ensures Run(s, a + b) == Run(Run(s, a), b)
    decreases |a|
  {
    if a == [] {
      assert a + b == b;
    } else {
      assert (a + b)[1..] == a[1..] + b;
      RunAppend(Step(s, a[0]), a[1..], b);
    }
  }

  lemma RunSnoc<H, D>(s: Proxy<H, D>, a: seq<Event<H, D>>, e: Event<H, D>)
    ensures Run(s, a + [e]) == Step(Run(s, a), e)
  {
    RunAppend(s, a, [e]);
    assert [e][1..] == [];
    assert Run(Step(Run(s, a), e), []) == Step(Run(s, a), e);
  }

  /** Only the pending entries change. */
  ghost predicate OnlyPending<H, D>(s: Proxy<H, D>, t: Proxy<H, D>) {
    t == s.(pending := t.pending)
  }

  predicate Swept<H>(key: Key, c: Ctx<H>, slot: nat, k: nat, user: nat, gone: set<nat>) {
    key.slot == slot && ShardOf(key.id) < k && Stale(c, user, gone)
  }

  lemma {:induction false} SlotKeeps<H, D>(s: Proxy<H, D>, slot: nat, user: nat, k: nat)
    ensures var t := Run(s, SlotEvents(slot, user, k));
            && OnlyPending(s, t)
            && t.pending
            == map key | key in s.pending && !Swept(key, s.pending[key], slot, k, user, s.gone) :: s.pending[key]
  {
    if k > 0 {
      SlotKeeps(s, slot, user, k - 1);
      RunSnoc(s, SlotEvents(slot, user, k - 1), CleanShard(slot, k - 1, user));
    }
  }

  /** A cleanup that nothing interferes with removes exactly the entries of the user and of users already gone. */
  lemma {:induction false} CleanKeeps<H, D>(s: Proxy<H, D>, user: nat, n: nat)
    ensures var t := Run(s, CleanEvents(user, n));
            && OnlyPending(s, t)
            && t.pending
            == map key | key in s.pending && !(key.slot < n && Stale(s.pending[key], user, s.gone)) :: s.pending[key]
  {
    if n > 0 {
      CleanKeeps(s, user, n - 1);
      var u := Run(s, CleanEvents(user, n - 1));
      SlotKeeps(u, n - 1, user, SHARDS);
      RunAppend(s, CleanEvents(user, n - 1), SlotEvents(n - 1, user, SHARDS));
    }
  }

  lemma AllCleaned<H, D>(s: Proxy<H, D>, t: Proxy<H, D>, user: nat)
    requires forall key :: key in s.pending ==> key.slot < MAX_DB_SLOTS
    requires t.pending
          == map key | key in s.pending && !(key.slot < MAX_DB_SLOTS && Stale(s.pending[key], user, s.gone)) ::
              s.pending[key]
    ensures forall k :: Lookup(t.pending, k) ==
              var c := Lookup(s.pending, k);
              if c.Some? && (c.value.user == user || c.value.user in s.gone) then None else c
  {
  }

  lemma EmptySlot<H(!new), D>(ctx: Contexts<H>, s: Proxy<H, D>, slot: nat, user: nat, k: nat)
    requires Agrees(ctx, s) && slot < MAX_DB_SLOTS && slot !in s.pools
    ensures Run(s, SlotEvents(slot, user, k)) == s
  {
    SlotKeeps(s, slot, user, k);
    assert Run(s, SlotEvents(slot, user, k)).pending == s.pending;
  }
}
