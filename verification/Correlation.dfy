/** A gate that forwards its users' requests upstream under ids of its own and routes the replies back.

    Every lock-protected access is one step, so any number of requests, replies, disconnects and cleanups
    interleave; what arrives from upstream is arbitrary: late, duplicated, out of order, or made up. */
module Correlation {
  import opened Bytes
  import opened Wrappers
  import opened Headers
  import opened Sharding
  import opened Tally

  const MIN_REQUEST_ID: nat := 101

  datatype Gate<H, D> = Gate(
    nextId: nat,
    issued: map<nat, Ctx<H>>,             // who asked what under which id
    entering: map<nat, Ctx<H>>,           // id drawn, context not yet saved
    pending: Table<H>,
    saved: set<nat>,                      // context saved, not yet handed to the upstream client
    handlers: set<nat>,                   // ids the upstream client has a handler for
    posting: set<nat>,                    // handler registered, outcome of the post not yet known
    calls: seq<Entry<nat, D>>,            // handlers running, before they reach the pending table
    taken: seq<Entry<nat, Taken<H, D>>>,  // ... and after
    gone: set<nat>,                       // users that no longer exist
    runs: seq<Entry<nat, D>>,             // every handler invocation
    replies: seq<Entry<nat, Reply<H, D>>>) // every post

  function Init<H, D>(): Gate<H, D> {
    Gate(MIN_REQUEST_ID, map[], map[], map[], {}, {}, {}, [], [], {}, [], [])
  }

  datatype Event<H, D> =
    | Arrive(user: nat, header: H)
    | SaveCtx(id: nat)
    | Register(id: nat)
    | Posted(id: nat, ok: bool)
    | Upstream(serial: nat, data: D)
    | Respond(i: nat)
    | Deliver(i: nat)
    | Leave(user: nat)
    | CleanShard(k: nat, user: nat)

  // ---- steps ------------------------------------------------------------------------------------

  function StepArrive<H, D>(s: Gate<H, D>, user: nat, header: H): Gate<H, D> {
    if user in s.gone then s
    else
      var c := Ctx(user, header);
      s.(nextId := s.nextId + 1, issued := s.issued[s.nextId := c], entering := s.entering[s.nextId := c])
  }

  function StepSave<H, D>(s: Gate<H, D>, id: nat): Gate<H, D> {
    if id !in s.entering then s
    else
      s.(pending := FlatStep(s.pending, Save(id, s.entering[id])),
         entering := s.entering - {id}, saved := s.saved + {id})
  }

  function StepRegister<H, D>(s: Gate<H, D>, id: nat): Gate<H, D> {
    if id !in s.saved then s
    else s.(saved := s.saved - {id}, handlers := s.handlers + {id}, posting := s.posting + {id})
  }

  function StepPosted<H, D>(s: Gate<H, D>, id: nat, ok: bool): Gate<H, D> {
    if id !in s.posting then s
    else s.(posting := s.posting - {id}, handlers := if ok then s.handlers else s.handlers - {id})
  }

  /** The handler is looked up by the serial the message carries, and removed. */
  function StepUpstream<H, D>(s: Gate<H, D>, serial: nat, data: D): Gate<H, D> {
    if serial !in s.handlers then s
    else
      var call := Entry(serial, data);
      s.(handlers := s.handlers - {serial}, calls := s.calls + [call], runs := s.runs + [call])
  }

  function StepRespond<H, D>(s: Gate<H, D>, i: nat): Gate<H, D> {
    if i >= |s.calls| then s
    else
      var id := s.calls[i].key;
      var rest := s.(calls := Without(s.calls, i));
      match Find(s.pending, id)
      case None => rest
      case Some(c) =>
        rest.(pending := FlatStep(s.pending, Take(id)), taken := s.taken + [Entry(id, Taken(c, s.calls[i].item))])
  }

  /** The post, if the user still exists. */
  function StepDeliver<H, D>(s: Gate<H, D>, i: nat): Gate<H, D> {
    if i >= |s.taken| then s
    else
      var t := s.taken[i];
      var rest := s.(taken := Without(s.taken, i));
      if t.item.ctx.user in s.gone then rest
      else rest.(replies := s.replies + [Entry(t.key, Reply(t.item.ctx.user, t.item.ctx.header, t.item.data))])
  }

  function Step<H, D>(s: Gate<H, D>, e: Event<H, D>): Gate<H, D> {
    match e
    case Arrive(user, header) => StepArrive(s, user, header)
    case SaveCtx(id) => StepSave(s, id)
    case Register(id) => StepRegister(s, id)
    case Posted(id, ok) => StepPosted(s, id, ok)
    case Upstream(serial, data) => StepUpstream(s, serial, data)
    case Respond(i) => StepRespond(s, i)
    case Deliver(i) => StepDeliver(s, i)
    case Leave(user) => s.(gone := s.gone + {user})
    case CleanShard(k, user) => s.(pending := FlatStep(s.pending, Clean(k, user, s.gone)))
  }

  function Run<H, D>(s: Gate<H, D>, es: seq<Event<H, D>>): Gate<H, D>
    decreases |es|
  {
    if es == [] then s else Run(Step(s, es[0]), es[1..])
  }

  // ---- invariants -------------------------------------------------------------------------------

  /** In how many places the right to answer request `id` is. */
  function Rights<H, D>(s: Gate<H, D>, id: nat): nat {
    One(id in s.entering) + One(id in s.pending) + Count(s.taken, id) + Count(s.replies, id)
  }

  /** In how many places the right to run its handler is. */
  function Turns<H, D>(s: Gate<H, D>, id: nat): nat {
    One(id in s.entering) + One(id in s.saved) + One(id in s.handlers) + Count(s.runs, id)
  }

  predicate AtMostOnce<H, D>(s: Gate<H, D>, id: nat) {
    && Rights(s, id) <= 1 && Turns(s, id) <= 1
    && Count(s.calls, id) + Count(s.taken, id) + Count(s.replies, id) <= Count(s.runs, id)
    && (id >= s.nextId ==> Rights(s, id) == 0 && Turns(s, id) == 0)
  }

  ghost predicate AsIssued<H, D>(s: Gate<H, D>, id: nat, c: Ctx<H>) {
    id in s.issued && s.issued[id] == c
  }

  /** The reply is addressed to the user that asked, and made from that request's header. */
  ghost predicate Routed<H, D>(s: Gate<H, D>, r: Entry<nat, Reply<H, D>>) {
    AsIssued(s, r.key, Ctx(r.item.user, r.item.header))
  }

  ghost predicate Faithful<H, D>(s: Gate<H, D>) {
    && (forall id :: id in s.entering ==> AsIssued(s, id, s.entering[id]))
    && (forall id :: id in s.pending ==> AsIssued(s, id, s.pending[id]))
    && (forall i :: 0 <= i < |s.taken| ==> AsIssued(s, s.taken[i].key, s.taken[i].item.ctx))
    && (forall i :: 0 <= i < |s.replies| ==> Routed(s, s.replies[i]))
    && (forall id :: id in s.issued ==> id < s.nextId)
  }

  ghost predicate Inv<H, D>(s: Gate<H, D>) {
    (forall id :: AtMostOnce(s, id)) && Faithful(s)
  }

  lemma OnceStep<H, D>(s: Gate<H, D>, e: Event<H, D>, id: nat)
    requires AtMostOnce(s, id) && AtMostOnce(s, s.nextId)
    ensures AtMostOnce(Step(s, e), id)
  {
    match e
    case Upstream(serial, data) => OnceUpstream(s, serial, data, id);
    case Respond(i) => OnceRespond(s, i, id);
    case Deliver(i) => OnceDeliver(s, i, id);
    case _ =>
  }

  lemma OnceUpstream<H, D>(s: Gate<H, D>, serial: nat, data: D, id: nat)
    requires AtMostOnce(s, id)
    ensures AtMostOnce(StepUpstream(s, serial, data), id)
  {
    CountSnoc(s.runs, Entry(serial, data), id);
    CountSnoc(s.calls, Entry(serial, data), id);
  }

  lemma OnceRespond<H, D>(s: Gate<H, D>, i: nat, id: nat)
    requires AtMostOnce(s, id)
    ensures AtMostOnce(StepRespond(s, i), id)
  {
    if i < |s.calls| {
      var call := s.calls[i];
      CountWithout(s.calls, i, id);
      if call.key in s.pending {
        CountSnoc(s.taken, Entry(call.key, Taken(s.pending[call.key], call.item)), id);
      }
    }
  }

  lemma OnceDeliver<H, D>(s: Gate<H, D>, i: nat, id: nat)
    requires AtMostOnce(s, id)
    ensures AtMostOnce(StepDeliver(s, i), id)
  {
    if i < |s.taken| {
      CountWithout(s.taken, i, id);
      var t, x := StepDeliver(s, i), s.taken[i];
      if x.item.ctx.user in s.gone {
        assert t.replies == s.replies;
      } else {
        CountSnoc(s.replies, Entry(x.key, Reply(x.item.ctx.user, x.item.ctx.header, x.item.data)), id);
      }
      assert t.calls == s.calls && t.runs == s.runs && t.entering == s.entering && t.pending == s.pending;
    }
  }

  lemma FaithfulStep<H, D>(s: Gate<H, D>, e: Event<H, D>)
    requires Faithful(s)
    ensures Faithful(Step(s, e))
  {
    match e
    case Arrive(user, header) => FaithfulArrive(s, user, header);
    case Respond(i) => FaithfulRespond(s, i);
    case Deliver(i) => FaithfulDeliver(s, i);
    case _ =>
  }

  lemma FaithfulArrive<H, D>(s: Gate<H, D>, user: nat, header: H)
    requires Faithful(s)
    ensures Faithful(StepArrive(s, user, header))
  {
    var t := StepArrive(s, user, header);
    assert forall id :: id in s.issued ==> id in t.issued && t.issued[id] == s.issued[id];
    forall i | 0 <= i < |t.replies|
      ensures Routed(t, t.replies[i])
    {
      assert Routed(s, s.replies[i]);
    }
    forall i | 0 <= i < |t.taken|
      ensures AsIssued(t, t.taken[i].key, t.taken[i].item.ctx)
    {
      assert AsIssued(s, s.taken[i].key, s.taken[i].item.ctx);
    }
  }

  lemma FaithfulRespond<H, D>(s: Gate<H, D>, i: nat)
    requires Faithful(s)
    ensures Faithful(StepRespond(s, i))
  {
    var t := StepRespond(s, i);
    forall j | 0 <= j < |t.taken|
      ensures AsIssued(t, t.taken[j].key, t.taken[j].item.ctx)
    {
      assert j < |s.taken| ==> t.taken[j] == s.taken[j] && AsIssued(s, s.taken[j].key, s.taken[j].item.ctx);
    }
    forall j | 0 <= j < |t.replies|
      ensures Routed(t, t.replies[j])
    {
      assert Routed(s, s.replies[j]);
    }
  }

  lemma FaithfulDeliver<H, D>(s: Gate<H, D>, i: nat)
    requires Faithful(s)
    ensures Faithful(StepDeliver(s, i))
  {
    var t := StepDeliver(s, i);
    if i < |s.taken| {
      forall j | 0 <= j < |t.taken|
        ensures AsIssued(t, t.taken[j].key, t.taken[j].item.ctx)
      {
        var from := if j < i then j else j + 1;
        assert t.taken[j] == s.taken[from];
        assert AsIssued(s, s.taken[from].key, s.taken[from].item.ctx);
      }
      assert AsIssued(s, s.taken[i].key, s.taken[i].item.ctx);
      forall j | 0 <= j < |t.replies|
        ensures Routed(t, t.replies[j])
      {
        assert j < |s.replies| ==> t.replies[j] == s.replies[j] && Routed(s, s.replies[j]);
      }
    }
  }

  lemma StepKeepsInv<H, D>(s: Gate<H, D>, e: Event<H, D>)
    requires Inv(s)
    ensures Inv(Step(s, e))
  {
    forall id
      ensures AtMostOnce(Step(s, e), id)
    {
      assert AtMostOnce(s, s.nextId);
      OnceStep(s, e, id);
    }
    FaithfulStep(s, e);
  }

  lemma {:induction false} RunKeepsInv<H, D>(s: Gate<H, D>, es: seq<Event<H, D>>)
    requires Inv(s)
    ensures Inv(Run(s, es))
    decreases |es|
  {
    if es != [] {
      StepKeepsInv(s, es[0]);
      RunKeepsInv(Step(s, es[0]), es[1..]);
    }
  }

  // ---- what the events say ----------------------------------------------------------------------

  /** The requests a run takes in, in order: those of users that have not left before. Request `i` is given the id
      101 + i. */
  function Arrivals<H, D>(es: seq<Event<H, D>>, gone: set<nat>): seq<Ctx<H>> {
    if es == [] then []
    else match es[0]
      case Arrive(user, header) =>
        if user in gone then Arrivals(es[1..], gone) else [Ctx(user, header)] + Arrivals(es[1..], gone)
      case Leave(user) => Arrivals(es[1..], gone + {user})
      case _ => Arrivals(es[1..], gone)
  }

  /** The ids and contexts the machine has issued are those of these arrivals, after what it had before. */
  ghost predicate Issues<H, D>(s: Gate<H, D>, t: Gate<H, D>, arrivals: seq<Ctx<H>>) {
    && t.nextId == s.nextId + |arrivals|
    && (forall id :: id in t.issued <==> id in s.issued || s.nextId <= id < t.nextId)
    && (forall i :: 0 <= i < |arrivals| ==> s.nextId + i in t.issued && t.issued[s.nextId + i] == arrivals[i])
    && (forall id :: id in s.issued && id < s.nextId ==> id in t.issued && t.issued[id] == s.issued[id])
  }

  /** What a single event takes in. */
  function ArrivalOf<H, D>(e: Event<H, D>, gone: set<nat>): seq<Ctx<H>> {
    if e.Arrive? && e.user !in gone then [Ctx(e.user, e.header)] else []
  }

  lemma IssuesStep<H, D>(s: Gate<H, D>, e: Event<H, D>)
    ensures Issues(s, Step(s, e), ArrivalOf(e, s.gone))
    ensures Step(s, e).gone == s.gone + if e.Leave? then {e.user} else {}
  {
  }

  lemma IssuesTrans<H, D>(s: Gate<H, D>, t: Gate<H, D>, u: Gate<H, D>, a: seq<Ctx<H>>, b: seq<Ctx<H>>)
    requires Issues(s, t, a) && Issues(t, u, b)
    ensures Issues(s, u, a + b)
  {
    forall i | 0 <= i < |a + b|
      ensures s.nextId + i in u.issued && u.issued[s.nextId + i] == (a + b)[i]
    {
      if i < |a| {
        assert s.nextId + i in t.issued && t.issued[s.nextId + i] == a[i];
      } else {
        assert s.nextId + i == t.nextId + (i - |a|) && (a + b)[i] == b[i - |a|];
      }
    }
  }

  lemma {:induction false} IssuesRun<H, D>(s: Gate<H, D>, es: seq<Event<H, D>>)
    ensures Issues(s, Run(s, es), Arrivals(es, s.gone))
    decreases |es|
  {
    if es != [] {
      var t := Step(s, es[0]);
      IssuesStep(s, es[0]);
      IssuesRun(t, es[1..]);
      IssuesTrans(s, t, Run(t, es[1..]), ArrivalOf(es[0], s.gone), Arrivals(es[1..], t.gone));
      assert s.gone + {} == s.gone;
      assert Arrivals(es, s.gone) == ArrivalOf(es[0], s.gone) + Arrivals(es[1..], t.gone);
    }
  }

  /** Whatever a handler runs on, or a reply carries, came from upstream under that very id. */
  ghost predicate Heard<H(!new), D(!new)>(s: Gate<H, D>, past: seq<Event<H, D>>) {
    && (forall i :: 0 <= i < |s.calls| ==> Upstream(s.calls[i].key, s.calls[i].item) in past)
    && (forall i :: 0 <= i < |s.taken| ==> Upstream(s.taken[i].key, s.taken[i].item.data) in past)
    && (forall i :: 0 <= i < |s.replies| ==> Upstream(s.replies[i].key, s.replies[i].item.data) in past)
  }

  lemma HeardCalls<H(!new), D(!new)>(s: Gate<H, D>, past: seq<Event<H, D>>, e: Event<H, D>, i: nat)
    requires Heard(s, past) && i < |Step(s, e).calls|
    ensures var x := Step(s, e).calls[i]; Upstream(x.key, x.item) in past + [e]
  {
    var t, now := Step(s, e), past + [e];
    if e.Upstream? && i == |s.calls| {
      assert now[|past|] == Upstream(t.calls[i].key, t.calls[i].item);
    } else {
      assert t.calls[i] == s.calls[if e.Respond? && |t.calls| < |s.calls| && i >= e.i then i + 1 else i];
    }
  }

  lemma HeardTaken<H(!new), D(!new)>(s: Gate<H, D>, past: seq<Event<H, D>>, e: Event<H, D>, i: nat)
    requires Heard(s, past) && i < |Step(s, e).taken|
    ensures var x := Step(s, e).taken[i]; Upstream(x.key, x.item.data) in past + [e]
  {
    var t := Step(s, e);
    if e.Respond? && i == |s.taken| {
      assert t.taken[i].key == s.calls[e.i].key && t.taken[i].item.data == s.calls[e.i].item;
    } else {
      assert t.taken[i] == s.taken[if e.Deliver? && |t.taken| < |s.taken| && i >= e.i then i + 1 else i];
    }
  }

  lemma HeardReplies<H(!new), D(!new)>(s: Gate<H, D>, past: seq<Event<H, D>>, e: Event<H, D>, i: nat)
    requires Heard(s, past) && i < |Step(s, e).replies|
    ensures var x := Step(s, e).replies[i]; Upstream(x.key, x.item.data) in past + [e]
  {
    var t := Step(s, e);
    if i < |s.replies| {
      assert t.replies[i] == s.replies[i];
    } else {
      assert t.replies[i].key == s.taken[e.i].key && t.replies[i].item.data == s.taken[e.i].item.data;
    }
  }

  lemma HeardStep<H(!new), D(!new)>(s: Gate<H, D>, past: seq<Event<H, D>>, e: Event<H, D>)
    requires Heard(s, past)
    ensures Heard(Step(s, e), past + [e])
  {
    var t := Step(s, e);
    forall i | 0 <= i < |t.calls|
      ensures Upstream(t.calls[i].key, t.calls[i].item) in past + [e]
    {
      HeardCalls(s, past, e, i);
    }
    forall i | 0 <= i < |t.taken|
      ensures Upstream(t.taken[i].key, t.taken[i].item.data) in past + [e]
    {
      HeardTaken(s, past, e, i);
    }
    forall i | 0 <= i < |t.replies|
      ensures Upstream(t.replies[i].key, t.replies[i].item.data) in past + [e]
    {
      HeardReplies(s, past, e, i);
    }
  }

  lemma {:induction false} HeardRun<H(!new), D(!new)>(s: Gate<H, D>, past: seq<Event<H, D>>, es: seq<Event<H, D>>)
    requires Heard(s, past)
    ensures Heard(Run(s, es), past + es)
    decreases |es|
  {
    if es == [] {
      assert past + es == past;
    } else {
      HeardStep(s, past, es[0]);
      HeardRun(Step(s, es[0]), past + [es[0]], es[1..]);
      assert past + [es[0]] + es[1..] == past + es;
    }
  }

  /** The request a reply answers, as the run's events have it: the arrival that drew its id. */
  ghost predicate Answers<H(!new), D(!new)>(es: seq<Event<H, D>>, r: Entry<nat, Reply<H, D>>) {
    var arrivals := Arrivals(es, {});
    && MIN_REQUEST_ID <= r.key < MIN_REQUEST_ID + |arrivals|
    && arrivals[r.key - MIN_REQUEST_ID] == Ctx(r.item.user, r.item.header)
    && Upstream(r.key, r.item.data) in es
  }

  lemma RepliesAnswer<H(!new), D(!new)>(es: seq<Event<H, D>>)
    requires Faithful(Run(Init(), es))
    ensures var s := Run(Init(), es); forall i :: 0 <= i < |s.replies| ==> Answers(es, s.replies[i])
  {
    var s0: Gate<H, D> := Init();
    IssuesRun(s0, es);
    HeardRun(s0, [], es);
    assert [] + es == es;
    var s := Run(s0, es);
    forall i | 0 <= i < |s.replies|
      ensures Answers(es, s.replies[i])
    {
      assert Routed(s, s.replies[i]);
    }
  }

  /** Multi-hop correlation, over every interleaving: each reply posted goes to the user whose request drew its id,
      is made from that request's header, and carries what upstream sent under that id; at most one is posted per
      request; and no handler runs twice. */
  lemma RepliesCorrelate<H(!new), D(!new)>(es: seq<Event<H, D>>)
    ensures var s := Run(Init(), es);
            && (forall i :: 0 <= i < |s.replies| ==> Answers(es, s.replies[i]))
            && (forall i, j :: 0 <= i < j < |s.replies| ==> s.replies[i].key != s.replies[j].key)
            && (forall i, j :: 0 <= i < j < |s.runs| ==> s.runs[i].key != s.runs[j].key)
  {
    var s0: Gate<H, D> := Init();
    assert forall id :: AtMostOnce(s0, id);
    RunKeepsInv(s0, es);
    RepliesAnswer<H, D>(es);
    var s := Run(s0, es);
    forall i, j | 0 <= i < j < |s.replies|
      ensures s.replies[i].key != s.replies[j].key
    {
      assert AtMostOnce(s, s.replies[i].key);
      DistinctKeys(s.replies, i, j);
    }
    forall i, j | 0 <= i < j < |s.runs|
      ensures s.runs[i].key != s.runs[j].key
    {
      assert AtMostOnce(s, s.runs[i].key);
      DistinctKeys(s.runs, i, j);
    }
  }

  /** ... and the ordinary course does answer: from any reachable state, a request that is saved, registered, posted and
      replied to upstream is answered, to its user, from its header, with that data. */
  lemma OrdinaryCourse<H, D>(s: Gate<H, D>, user: nat, header: H, data: D)
    requires Inv(s) && user !in s.gone
    ensures var id := s.nextId;
            var asked := Step(Step(Step(Step(s, Arrive(user, header)), SaveCtx(id)), Register(id)), Posted(id, true));
            Step(Step(Step(asked, Upstream(id, data)), Respond(|s.calls|)), Deliver(|s.taken|)).replies
            == s.replies + [Entry(id, Reply(user, header, data))]
  {
    var id := s.nextId;
    assert AtMostOnce(s, id);
    var s1 := Step(s, Arrive(user, header));
    var s2 := Step(s1, SaveCtx(id));
    assert s2.pending == s.pending[id := Ctx(user, header)] && id in s2.saved;
    var s4 := Step(Step(s2, Register(id)), Posted(id, true));
    assert id in s4.handlers && s4.pending == s2.pending && s4.calls == s.calls;
    var s5 := Step(s4, Upstream(id, data));
    assert s5.calls[|s.calls|] == Entry(id, data);
    var s6 := Step(s5, Respond(|s.calls|));
    assert s6.taken[|s.taken|] == Entry(id, Taken(Ctx(user, header), data));
  }

  // ---- which upstream replies are answered ------------------------------------------------------

  /** What a handler needs to find for its request to be answered. */
  predicate Awaited<H, D>(s: Gate<H, D>, id: nat) {
    id in s.pending && s.pending[id].user !in s.gone
  }

  /** Nothing that can still happen answers the request. */
  ghost predicate Hopeless<H, D>(s: Gate<H, D>, id: nat) {
    && id < s.nextId && id !in s.entering && id !in s.pending && Count(s.replies, id) == 0
    && forall i :: 0 <= i < |s.taken| && s.taken[i].key == id ==> s.taken[i].item.ctx.user in s.gone
  }

  lemma HopelessDeliver<H, D>(s: Gate<H, D>, i: nat, id: nat)
    requires Hopeless(s, id)
    ensures Hopeless(StepDeliver(s, i), id)
  {
    var t := StepDeliver(s, i);
    if i < |s.taken| {
      forall j | 0 <= j < |t.taken| && t.taken[j].key == id
        ensures t.taken[j].item.ctx.user in t.gone
      {
        assert t.taken[j] == s.taken[if j < i then j else j + 1];
      }
      if |t.replies| > |s.replies| {
        CountSnoc(s.replies, t.replies[|s.replies|], id);
      }
    }
  }

  lemma HopelessStep<H, D>(s: Gate<H, D>, e: Event<H, D>, id: nat)
    requires Hopeless(s, id)
    ensures Hopeless(Step(s, e), id)
  {
    match e
    case Deliver(i) => HopelessDeliver(s, i, id);
    case _ =>
  }

  lemma {:induction false} HopelessRun<H, D>(s: Gate<H, D>, es: seq<Event<H, D>>, id: nat)
    requires Hopeless(s, id)
    ensures Hopeless(Run(s, es), id)
    decreases |es|
  {
    if es != [] {
      HopelessStep(s, es[0], id);
      HopelessRun(Step(s, es[0]), es[1..], id);
    }
  }

  lemma NotAwaitedIsHopeless<H, D>(s: Gate<H, D>, i: nat)
    requires Inv(s) && i < |s.calls| && !Awaited(s, s.calls[i].key)
    ensures Hopeless(StepRespond(s, i), s.calls[i].key)
  {
    var id, t := s.calls[i].key, StepRespond(s, i);
    assert AtMostOnce(s, id);
    CountPositive(s.calls, i);
    forall j | 0 <= j < |t.taken| && t.taken[j].key == id
      ensures t.taken[j].item.ctx.user in t.gone
    {
      if j < |s.taken| {
        CountPositive(s.taken, j);
      }
    }
  }

  /** A handler that finds its context pending and its user alive is followed by one reply to that user. */
  lemma DeliveredNext<H, D>(s: Gate<H, D>, i: nat)
    requires Faithful(s) && i < |s.calls| && Awaited(s, s.calls[i].key)
    ensures var id := s.calls[i].key; var c := s.issued[id];
            Run(StepRespond(s, i), [Deliver(|s.taken|)]).replies
            == s.replies + [Entry(id, Reply(c.user, c.header, s.calls[i].item))]
  {
    var id := s.calls[i].key;
    assert AsIssued(s, id, s.pending[id]);
    var t := StepRespond(s, i);
    assert t.taken[|s.taken|] == Entry(id, Taken(s.pending[id], s.calls[i].item));
    var e: Event<H, D> := Deliver(|s.taken|);
    assert [e][1..] == [];
    assert Run(Step(t, e), []) == Step(t, e);
  }

  /** The exact condition: an upstream reply can still reach its user, in some continuation, if and only if its
      handler finds the context saved and not cleaned away, and the user alive. Otherwise no continuation answers
      the request. */
  lemma AnsweredExactly<H, D>(s: Gate<H, D>, i: nat)
    requires Inv(s) && i < |s.calls|
    ensures Awaited(s, s.calls[i].key) <==> exists es :: Count(Run(StepRespond(s, i), es).replies, s.calls[i].key) > 0
  {
    var id, t := s.calls[i].key, StepRespond(s, i);
    if Awaited(s, id) {
      var e: Event<H, D> := Deliver(|s.taken|);
      DeliveredNext(s, i);
      CountSnoc(s.replies, Entry(id, Reply(s.issued[id].user, s.issued[id].header, s.calls[i].item)), id);
      assert Count(Run(t, [e]).replies, id) > 0;
    } else {
      NotAwaitedIsHopeless(s, i);
      forall es: seq<Event<H, D>>
        ensures Count(Run(t, es).replies, id) == 0
      {
        HopelessRun(t, es, id);
      }
    }
  }

  // ---- a whole cleanup as the machine's steps ---------------------------------------------------

  function CleanEvents<H, D>(user: nat, n: nat): seq<Event<H, D>> {
    if n == 0 then [] else CleanEvents(user, n - 1) + [CleanShard(n - 1, user)]
  }

  lemma {:induction false} RunSnoc<H, D>(s: Gate<H, D>, es: seq<Event<H, D>>, e: Event<H, D>)
    ensures Run(s, es + [e]) == Step(Run(s, es), e)
    decreases |es|
  {
    if es == [] {
      assert es + [e] == [e] && [e][1..] == [];
    } else {
      assert (es + [e])[1..] == es[1..] + [e];
      RunSnoc(Step(s, es[0]), es[1..], e);
    }
  }

  lemma {:induction false} CleanRun<H, D>(s: Gate<H, D>, user: nat, n: nat)
    ensures Run(s, CleanEvents(user, n)) == s.(pending := FlatRun(s.pending, CleanOps(user, s.gone, n)))
  {
    if n > 0 {
      CleanRun(s, user, n - 1);
      RunSnoc(s, CleanEvents(user, n - 1), CleanShard(n - 1, user));
      FlatRunSnoc(s.pending, CleanOps(user, s.gone, n - 1), Clean(n - 1, user, s.gone));
    }
  }

  // ---- the code as it runs ----------------------------------------------------------------------

  /** The server's side: ids and the sharded table of contexts. */
  class NetServer<H(!new), D(!new)> {
    const table: PendingTable<H>
    var reqIdCreator: nat

    constructor ()
      ensures fresh(table) && table.Valid() && table.shards == NoEntries() && reqIdCreator == MIN_REQUEST_ID
    {
      table := new PendingTable<H>();
      reqIdCreator := MIN_REQUEST_ID;
    }

    /** The shards, and the next id, as the machine has them. */
    ghost predicate Agrees(s: Gate<H, D>)
      reads this, table
    {
      table.Valid() && Refines(table.shards, s.pending) && reqIdCreator == s.nextId
    }

    /** `savePenddingReq`: draw an id, then save the context under it. */
    method SavePendingReq(user: nat, header: H, ghost s: Gate<H, D>) returns (id: nat)
      requires Agrees(s) && user !in s.gone
      modifies this, table
      ensures id == old(reqIdCreator) == s.nextId && reqIdCreator == id + 1
      ensures table.Valid()
      ensures Inv(s) ==> OnlyEntry(old(table.shards), table.shards, id, Some(Ctx(user, header)))
      ensures Agrees(Step(Step(s, Arrive(user, header)), SaveCtx(id)))
    {
      id := reqIdCreator;
      reqIdCreator := reqIdCreator + 1;
      RefinesStep(table.shards, s.pending, Save(id, Ctx(user, header)));
      assert Inv(s) ==> AtMostOnce(s, id);
      assert Find(table.shards[ShardOf(id)], id) == Find(s.pending, id);
      table.SaveReq(id, Ctx(user, header));
    }

    /** `response`, called by handler `i` of the machine: the context is taken out whether or not the user is
        still there, and posted to only if it is. */
    method Response(id: nat, data: D, gone: set<nat>, ghost s: Gate<H, D>, ghost i: nat)
      returns (rc: int, post: Option<Reply<H, D>>)
      requires Agrees(s) && gone == s.gone && i < |s.calls| && s.calls[i] == Entry(id, data)
      modifies table
      ensures var found := Find(old(table.shards)[id % 16], id);
              post == if found.Some? && found.value.user !in gone
                      then Some(Reply(found.value.user, found.value.header, data)) else None
      ensures table.Valid() && id !in table.shards[id % 16]
      ensures var t := StepRespond(s, i);
              && rc == (if post.Some? then 0 else -1)
              && (id in s.pending ==>
                   && Agrees(StepDeliver(t, |s.taken|))
                   && StepDeliver(t, |s.taken|).replies
                   == s.replies + (if post.Some? then [Entry(id, post.value)] else []))
              && (id !in s.pending ==> Agrees(t) && t.replies == s.replies && rc == -1)
    {
      RefinesStep(table.shards, s.pending, Take(id));
      assert Find(table.shards[ShardOf(id)], id) == Find(s.pending, id);
      var ctx := table.TakeReq(id);
      post := None;
      rc := -1;
      if ctx.Some? {
        assert StepRespond(s, i).taken[|s.taken|] == Entry(id, Taken(ctx.value, data));
        if ctx.value.user !in gone {
          post := Some(Reply(ctx.value.user, ctx.value.header, data));
          rc := 0;
        }
      } else {
        assert s.pending - {id} == s.pending;
      }
      assert s.replies + [] == s.replies;
    }

    /** `cleanupUserContext`: shard after shard. */
    method CleanupUserContext(user: nat, gone: set<nat>, ghost s: Gate<H, D>)
      requires Agrees(s) && gone == s.gone
      modifies table
      ensures table.Valid()
      ensures forall k :: 0 <= k < SHARDS ==> Survivors(old(table.shards)[k], table.shards[k], user, gone)
      ensures Agrees(Run(s, CleanEvents(user, SHARDS)))
    {
      CleanRun(s, user, SHARDS);
      RunRefines(table.shards, s.pending, CleanOps(user, gone, SHARDS));
      table.Cleanup(user, gone);
    }
  }

  /** The upstream client's side: a table of handlers by serial. */
  class NetClient<H, D> {
    var msgHandlers: set<nat>

    constructor ()
      ensures msgHandlers == {}
    {
      msgHandlers := {};
    }

    /** The handler is in place when the message leaves, and withdrawn if it does not. `atPost` is the table at that
        moment, between the machine's two steps. */
    method Request(serial: nat, posts: bool, ghost s: Gate<H, D>) returns (rc: nat, ghost atPost: set<nat>)
      requires msgHandlers == s.handlers && serial in s.saved
      modifies this
      ensures rc == if posts then 0 else 1
      ensures msgHandlers == if posts then old(msgHandlers) + {serial} else old(msgHandlers) - {serial}
      ensures serial in atPost && atPost == Step(s, Register(serial)).handlers
      ensures msgHandlers == Step(Step(s, Register(serial)), Posted(serial, posts)).handlers
    {
      msgHandlers := msgHandlers + {serial};
      rc, atPost := Post(posts);
      if rc != 0 {
        msgHandlers := msgHandlers - {serial};
      }
    }

    /** Hands the message to a connection, or fails to. */
    method Post(posts: bool) returns (rc: nat, ghost atPost: set<nat>)
      ensures rc == (if posts then 0 else 1) && atPost == msgHandlers
    {
      rc := if posts then 0 else 1;
      atPost := msgHandlers;
    }

    /** The handler found under the reply's serial is removed and run. */
    method OnResponse(serial: nat, data: D, ghost s: Gate<H, D>) returns (invoke: bool)
      requires msgHandlers == s.handlers
      modifies this
      ensures invoke <==> serial in old(msgHandlers)
      ensures msgHandlers == old(msgHandlers) - {serial}
      ensures msgHandlers == Step(s, Upstream(serial, data)).handlers
      ensures Step(s, Upstream(serial, data)).calls == s.calls + if invoke then [Entry(serial, data)] else []
    {
      invoke := serial in msgHandlers;
      if invoke {
        msgHandlers := msgHandlers - {serial};
      }
      assert s.calls + [] == s.calls;
    }
  }

  // ---- on the wire ------------------------------------------------------------------------------

  /** The bytes of a posted reply. */
  function OnWire(origin: u16, r: Reply<Header, Bytes>): Bytes {
    PackMsg(ResponseHeader(origin, r.header), r.data)
  }

  lemma GoesHome(es: seq<Event<Header, Bytes>>, r: Entry<nat, Reply<Header, Bytes>>)
    requires r in Run(Init(), es).replies
    ensures Answers(es, r)
  {
    RepliesCorrelate(es);
  }

  lemma ReplyReadsBack(origin: u16, r: Reply<Header, Bytes>, h: Header, data: Bytes)
    requires UnpackMsg(PackMsg(h, data)).Some? && r.header == UnpackMsg(PackMsg(h, data)).value.0
    ensures var got := UnpackMsg(OnWire(origin, r));
            got.Some? && got.value.1 == r.data && Echoes(h, origin, r.data, got.value.0)
  {
    SerialEcho(h, data, origin, r.data);
  }

  /** What the user reads, over every run: if the arrival that drew a reply's id was unpacked from bytes packed with
      header `h`, the reply goes to that arrival's user and unpacks there to the echo of `h`, its own serial included,
      and to data that upstream sent under the id. */
  lemma UserSeesOwnSerial(origin: u16, es: seq<Event<Header, Bytes>>, r: Entry<nat, Reply<Header, Bytes>>, user: nat,
      h: Header, data: Bytes)
    requires r in Run(Init(), es).replies && MIN_REQUEST_ID <= r.key < MIN_REQUEST_ID + |Arrivals(es, {})|
    requires UnpackMsg(PackMsg(h, data)).Some?
    requires Arrivals(es, {})[r.key - MIN_REQUEST_ID] == Ctx(user, UnpackMsg(PackMsg(h, data)).value.0)
    ensures r.item.user == user && Upstream(r.key, r.item.data) in es
    ensures var got := UnpackMsg(OnWire(origin, r.item));
            got.Some? && got.value.1 == r.item.data && Echoes(h, origin, r.item.data, got.value.0)
  {
    GoesHome(es, r);
    ReplyReadsBack(origin, r.item, h, data);
  }

  /** The upstream hop: the gate forwards a request under its own id, and a server that answers it makes the
      gate read that very id back. */
  lemma UpstreamEchoesId(id: u64, req: Header, reqData: Bytes, upstreamOrigin: u16, data: Bytes)
    ensures var forwarded := UnpackMsg(PackMsg(req.(serial := id), reqData));
            && forwarded.Some?
            && var back := UnpackMsg(PackMsg(ResponseHeader(upstreamOrigin, forwarded.value.0), data));
               && back.Some? && back.value.1 == data
               && Echoes(req.(serial := id), upstreamOrigin, data, back.value.0) && back.value.0.serial == id
  {
    SerialEcho(req.(serial := id), reqData, upstreamOrigin, data);
  }
}
