/** The pool as the code runs it: the queue, the table and one turn of a worker's loop, each operation tied
    to the machine's steps. */
module PoolWorker {
  import opened Wrappers
  import opened Queues
  import opened DbPool
  import opened PoolClients

  const POOL_IS_BUSY: nat := 1

  const PARAM_INVALID: int := 1001
  const TYPE_INVALID: int := 1002
  const NO_AVAIL_CLIENT: int := 1003

  /** What a request asks for; a statement may come without its parameters. */
  datatype Command = ExecQuery | ExecRealQuery | ExecQueryForResult | ExecStatement(hasParams: bool) | Unknown

  /** Whether the connection is used at all. */
  predicate Executes(c: Command) { !c.Unknown? && (c.ExecStatement? ==> c.hasParams) }

  /** The code the caller is told: the database's, or why it was not asked. */
  function ResponseCode(c: Command, dbRc: int): int {
    if Executes(c) then dbRc else if c.Unknown? then TYPE_INVALID else PARAM_INVALID
  }

  /** What a taken request asks for and what becomes of it: the database's code, and whether the connection survives. */
  datatype Work = Work(command: Command, dbRc: int, up: bool)

  /** A request that is not executed cannot break the connection. */
  predicate Survives(x: Work) { x.up || !Executes(x.command) }

  /** A call of the pool's listener. */
  datatype Response = Response(id: nat, rc: int)

  /** What a turn changes. */
  datatype Books = Books(queue: seq<Req>, responses: seq<Response>, table: map<Addr, bool>, connected: set<Addr>)

  /** How a turn ends with a connection: an idle one that still works, else a new one if there is room and it
      connects. The request is answered; the connection goes back to the table as idle if it survives and is taken
      out if it does not. */
  predicate Answered(poolSize: nat, req: Req, spare: Addr, connects: bool, x: Work, s: Books, clt: Addr, t: Books) {
    && (if HasIdle(s.table) then clt in s.table && s.table[clt] && clt in s.connected
        else clt == spare && |s.table| < poolSize && connects)
    && t.table == (if Survives(x) then s.table[clt := true] else s.table - {clt})
    && t.connected == (if Survives(x) then s.connected + {clt} else s.connected - {clt})
    && t.queue == s.queue
    && t.responses == s.responses + [Response(req.id, ResponseCode(x.command, x.dbRc))]
  }

  /** How it ends without one: no room, a failed attempt to connect, or an idle connection found broken, which is
      taken out. The request goes back to the head of the queue, or fails after its last retry. */
  predicate Unanswered(poolSize: nat, req: Req, spare: Addr, connects: bool, s: Books, clt: Option<Addr>, t: Books) {
    && (if HasIdle(s.table)
        then clt.Some? && clt.value in s.table && s.table[clt.value] && clt.value !in s.connected &&
             t.table == s.table - {clt.value} && t.connected == s.connected
        else clt.None? && t.table == s.table &&
             (if |s.table| < poolSize then !connects && t.connected == s.connected - {spare}
              else t.connected == s.connected))
    && t.queue == (if req.retry >= MAX_RETRY then [] else [req.(retry := req.retry + 1)]) + s.queue
    && t.responses == s.responses + if req.retry >= MAX_RETRY then [Response(req.id, NO_AVAIL_CLIENT)] else []
  }

  /** `clt` is the connection the worker came away with and `used` whether it served the request. */
  predicate TurnEnds(poolSize: nat, req: Req, spare: Addr, connects: bool, x: Work, s: Books, clt: Option<Addr>,
                     used: bool, t: Books) {
    if used then clt.Some? && Answered(poolSize, req, spare, connects, x, s, clt.value, t)
    else Unanswered(poolSize, req, spare, connects, s, clt, t)
  }

  predicate OneTurn(poolSize: nat, exit: bool, spare: Addr, connects: bool, x: Work, s: Books, clt: Option<Addr>,
                    used: bool, t: Books) {
    if exit || s.queue == [] then clt.None? && !used && t == s
    else TurnEnds(poolSize, s.queue[0].(pops := s.queue[0].pops + 1), spare, connects, x, s.(queue := s.queue[1..]),
                  clt, used, t)
  }

  /** What the caller of `getIdleClient` comes away with. */
  predicate HandedOut(poolSize: nat, spare: Addr, connects: bool, s: Books, clt: Option<Addr>, t: Books) {
    && t.queue == s.queue && t.responses == s.responses
    && (if HasIdle(s.table)
        then clt.Some? && clt.value in s.table && s.table[clt.value] && t.connected == s.connected
        else if |s.table| < poolSize && connects
        then clt == Some(spare) && t.connected == s.connected + {spare}
        else clt.None? && t.connected == if |s.table| < poolSize then s.connected - {spare} else s.connected)
    && t.table == if clt.Some? then s.table[clt.value := false] else s.table
  }

  predicate Reserved(poolSize: nat, spare: Addr, s: Books, clt: Option<Addr>, newClt: Option<Addr>, t: Books) {
    && t.queue == s.queue && t.responses == s.responses
    && (if HasIdle(s.table)
        then clt.Some? && clt.value in s.table && s.table[clt.value] && newClt.None? &&
             t.table == s.table[clt.value := false] && t.connected == s.connected
        else if |s.table| < poolSize
        then clt.None? && newClt == Some(spare) && t.table == s.table[spare := false] &&
             t.connected == s.connected - {spare}
        else clt.None? && newClt.None? && t.table == s.table && t.connected == s.connected)
  }

  lemma HandedOutNew(poolSize: nat, spare: Addr, connects: bool, s: Books, m: Books, clt: Option<Addr>, t: Books)
    requires spare !in s.table && Reserved(poolSize, spare, s, None, Some(spare), m)
    requires clt == if connects then Some(spare) else None
    requires t.queue == m.queue && t.responses == m.responses
    requires t.connected == if connects then m.connected + {spare} else m.connected
    requires t.table == if connects then m.table else m.table - {spare}
    ensures HandedOut(poolSize, spare, connects, s, clt, t)
  {
    assert s.table[spare := false] - {spare} == s.table;
    assert s.connected - {spare} + {spare} == s.connected + {spare};
  }

  /** What the worker's branch with a working connection does, and the branch without one. */
  function Using(req: Req, x: Work, clt: Addr, s: Books): Books {
    Books(s.queue, s.responses + [Response(req.id, ResponseCode(x.command, x.dbRc))],
          if Survives(x) then s.table[clt := true] else s.table - {clt},
          if Survives(x) then s.connected else s.connected - {clt})
  }

  function DoingWithout(req: Req, clt: Option<Addr>, s: Books): Books {
    Books((if req.retry >= MAX_RETRY then [] else [req.(retry := req.retry + 1)]) + s.queue,
          s.responses + if req.retry >= MAX_RETRY then [Response(req.id, NO_AVAIL_CLIENT)] else [],
          if clt.Some? then s.table - {clt.value} else s.table,
          s.connected)
  }

  /** `s` is `v` with the request `req` taken from it. */
  predicate TakenFrom(v: Books, req: Req, s: Books) {
    v.queue != [] && req == v.queue[0].(pops := v.queue[0].pops + 1) && s == v.(queue := v.queue[1..])
  }

  lemma EndsUsing(poolSize: nat, req: Req, spare: Addr, connects: bool, x: Work, v: Books, s: Books, clt: Addr,
                  m: Books)
    requires TakenFrom(v, req, s)
    requires spare !in s.table && HandedOut(poolSize, spare, connects, s, Some(clt), m) && clt in m.connected
    ensures OneTurn(poolSize, false, spare, connects, x, v, Some(clt), true, Using(req, x, clt, m))
  {
    assert s.table[clt := false][clt := true] == s.table[clt := true];
    assert s.table[clt := false] - {clt} == s.table - {clt};
    if HasIdle(s.table) {
      assert s.connected == s.connected + {clt};
    } else {
      assert s.connected + {clt} - {clt} == s.connected - {clt};
    }
    assert TurnEnds(poolSize, req, spare, connects, x, s, Some(clt), true, Using(req, x, clt, m));
  }

  lemma EndsWithout(poolSize: nat, req: Req, spare: Addr, connects: bool, x: Work, v: Books, s: Books,
                    clt: Option<Addr>, m: Books)
    requires TakenFrom(v, req, s)
    requires spare !in s.table && HandedOut(poolSize, spare, connects, s, clt, m)
    requires clt.Some? ==> clt.value !in m.connected
    ensures OneTurn(poolSize, false, spare, connects, x, v, clt, false, DoingWithout(req, clt, m))
  {
    if clt.Some? {
      assert s.table[clt.value := false] - {clt.value} == s.table - {clt.value};
    }
    assert TurnEnds(poolSize, req, spare, connects, x, s, clt, false, DoingWithout(req, clt, m));
  }

  class ClientPool {
    const queue: SafeQueue<Req>
    const table: ClientTable
    const closesUnderLock: bool
    const workers: nat
    var reqId: nat
    var connected: set<Addr>
    var responses: seq<Response>     // the listener's calls
    ghost var answers: seq<Answer>
    ghost var accepted: set<nat>
    ghost var threads: seq<Pc>

    ghost predicate Valid()
      reads this, queue, table
    {
      queue.cap == MAX_PENDING_REQ && workers <= |threads|
    }

    ghost function Now(): Pool
      reads this, queue, table
    {
      Pool(table.poolSize, workers, closesUnderLock, queue.queue, queue.exit, reqId, accepted, threads,
           table.clt2idle, connected, answers, [])
    }

    ghost function View(): Books
      reads this, queue, table
    {
      Books(queue.queue, responses, table.clt2idle, connected)
    }

    constructor (poolSize: nat, under: bool)
      ensures Valid() && Now() == Init(poolSize, poolSize, poolSize, under)
      ensures fresh(queue) && fresh(table)
    {
      queue := new SafeQueue<Req>(MAX_PENDING_REQ);
      table := new ClientTable(poolSize);
      closesUnderLock, workers := under, poolSize;
      reqId, connected, responses := MIN_REQ_ID, {}, [];
      accepted, answers := {}, [];
      threads := seq(poolSize, _ => Idle);
    }

    /** The caller gets the request's id, or learns that the pool is busy. */
    method Submit() returns (rc: nat)
      requires Valid()
      modifies this, queue`queue
      ensures Valid() && Now() == Step(old(Now()), Event.Submit)
      ensures rc == if old(|queue.queue|) < MAX_PENDING_REQ then old(reqId) else POOL_IS_BUSY
      ensures reqId == old(reqId) + 1
      ensures queue.queue == old(queue.queue) + if old(|queue.queue|) < MAX_PENDING_REQ then [Req(rc, 0, 0)] else []
    {
      rc := reqId;
      reqId := reqId + 1;
      var ok := queue.Push(Req(rc, 0, 0));
      if ok {
        accepted := accepted + {rc};
      } else {
        rc := POOL_IS_BUSY;
      }
    }

    method Take(ghost w: nat) returns (r: PopResult<Req>)
      requires Valid() && w < workers && threads[w] == Idle
      modifies this`threads, queue`queue
      ensures Valid() && Now() == Step(old(Now()), Pop(w))
      ensures r == Taken(old(queue.queue), queue.exit)
      ensures queue.exit ==> r == Exit && threads == old(threads)[w := Exited]
      ensures !queue.exit && old(queue.queue) == [] ==> r == Timeout && threads == old(threads)
      ensures !queue.exit && old(queue.queue) != [] ==> r == Item(old(queue.queue)[0])
      ensures r.Item? ==> threads == old(threads)[w := Got(Request(r.item.(pops := r.item.pops + 1)))]
      ensures View() == old(View()).(queue := if r.Item? then old(queue.queue)[1..] else old(queue.queue))
    {
      r := queue.PopTimeout();
      match r
      case Item(x) => threads := threads[w := Got(Request(x.(pops := x.pops + 1)))];
      case Exit => threads := threads[w := Exited];
      case Timeout =>
    }

    /** The first half of `getIdleClient`, under the lock: an idle entry, or a new one if there is room. */
    method Reserve(ghost w: nat, spare: Addr) returns (clt: Option<Addr>, newClt: Option<Addr>, ghost a: Addr)
      requires Valid() && w < |threads| && threads[w].Got?
      requires spare !in table.clt2idle && !InUse(threads, spare)
      modifies this`threads, this`connected, table`clt2idle
      ensures Valid() && Now() == Step(old(Now()), Alloc(w, a))
      ensures threads == old(threads)[w := if clt.Some? then Have(old(threads[w]).job, clt.value)
                                           else if newClt.Some? then Connecting(old(threads[w]).job, spare)
                                           else NoClient(old(threads[w]).job)]
      ensures Reserved(table.poolSize, spare, old(View()), clt, newClt, View())
    {
      ghost var job := threads[w].job;
      clt, newClt := table.TakeOrInsert(spare);
      a := if clt.Some? then clt.value else spare;
      if newClt.Some? {
        connected := connected - {spare};
      }
      threads := threads[w := if clt.Some? then Have(job, a) else if newClt.Some? then Connecting(job, a)
                              else NoClient(job)];
    }

    /** The second half of `getIdleClient`, outside the lock: a new object connects or is taken out again. */
    method Connect(ghost w: nat, newClt: Addr, connects: bool) returns (clt: Option<Addr>)
      requires Valid() && w < |threads| && threads[w].Connecting? && threads[w].clt == newClt
      modifies this`threads, this`connected, table`clt2idle
      ensures Valid() && Now() == Step(old(Now()), Connected(w, connects))
      ensures clt == if connects then Some(newClt) else None
      ensures threads == old(threads)[w := if connects then Have(old(threads[w]).job, newClt)
                                           else NoClient(old(threads[w]).job)]
      ensures connected == if connects then old(connected) + {newClt} else old(connected)
      ensures table.clt2idle == if connects then old(table.clt2idle) else old(table.clt2idle) - {newClt}
    {
      ghost var job := threads[w].job;
      if connects {
        clt := Some(newClt);
        connected := connected + {newClt};
        threads := threads[w := Have(job, newClt)];
      } else {
        clt := None;
        table.Erase(newClt);
        threads := threads[w := NoClient(job)];
      }
    }

    /** `getIdleClient`: the allocation step and then, if a new object was entered, the connection step. */
    method GetIdleClient(ghost w: nat, spare: Addr, connects: bool) returns (clt: Option<Addr>, ghost a: Addr)
      requires Valid() && w < |threads| && threads[w].Got?
      requires spare !in table.clt2idle && !InUse(threads, spare)
      modifies this`threads, this`connected, table`clt2idle
      ensures Valid() && Now() == Step(Step(old(Now()), Alloc(w, a)), Connected(w, connects))
      ensures threads == old(threads)[w := if clt.Some? then Have(old(threads[w]).job, clt.value)
                                           else NoClient(old(threads[w]).job)]
      ensures HandedOut(table.poolSize, spare, connects, old(View()), clt, View())
    {
      ghost var v := View();
      var newClt;
      clt, newClt, a := Reserve(w, spare);
      ghost var m := View();
      if newClt.Some? {
        clt := Connect(w, spare, connects);
        HandedOutNew(table.poolSize, spare, connects, v, m, clt, View());
      } else {
        assert HandedOut(table.poolSize, spare, connects, v, clt, m);
      }
    }

    /** `onResponse` */
    method Respond(req: Req, rc: int, ghost outcome: Outcome)
      modifies this`responses, this`answers
      ensures responses == old(responses) + [Response(req.id, rc)]
      ensures answers == old(answers) + [Answer(req.id, req.pops, outcome)]
    {
      responses := responses + [Response(req.id, rc)];
      answers := answers + [Answer(req.id, req.pops, outcome)];
    }

    /** Runs a statement; `up` says whether the connection survives it. */
    method Execute(clt: Addr, dbRc: int, up: bool) returns (rc: int)
      modifies this`connected
      ensures rc == dbRc && connected == if up then old(connected) else old(connected) - {clt}
    {
      rc := dbRc;
      if !up {
        connected := connected - {clt};
      }
    }

    /** `handleRequest`: exactly one response on every branch, with the code that branch calls for; a request that is
        not executed cannot break the connection. */
    method HandleRequest(ghost w: nat, clt: Addr, req: Req, x: Work)
      requires Valid() && w < |threads| && threads[w] == Have(Request(req), clt) && clt in connected
      modifies this`threads, this`connected, this`answers, this`responses
      ensures Valid() && w < |threads| && threads == old(threads)[w := Done(clt)]
      ensures Now() == Step(old(Now()), Serve(w, Survives(x)))
      ensures connected == if Survives(x) then old(connected) else old(connected) - {clt}
      ensures Survives(x) <==> x.up || x.command == Unknown || x.command == ExecStatement(false)
      ensures responses == old(responses) + [Response(req.id, ResponseCode(x.command, x.dbRc))]
      ensures x.command in {ExecQuery, ExecRealQuery, ExecQueryForResult, ExecStatement(true)} ==>
                responses == old(responses) + [Response(req.id, x.dbRc)]
      ensures x.command == ExecStatement(false) ==> responses == old(responses) + [Response(req.id, PARAM_INVALID)]
      ensures x.command == Unknown ==> responses == old(responses) + [Response(req.id, TYPE_INVALID)]
    {
      match x.command {
        case ExecQuery =>
          var rc := Execute(clt, x.dbRc, x.up);
          Respond(req, rc, Handled);
        case ExecRealQuery =>
          var rc := Execute(clt, x.dbRc, x.up);
          Respond(req, rc, Handled);
        case ExecQueryForResult =>
          var rc := Execute(clt, x.dbRc, x.up);
          Respond(req, rc, Handled);
        case ExecStatement(hasParams) =>
          var rc := PARAM_INVALID;
          if hasParams {
            rc := Execute(clt, x.dbRc, x.up);
          }
          Respond(req, rc, Handled);
        case Unknown =>
          Respond(req, TYPE_INVALID, Handled);
      }
      threads := threads[w := Done(clt)];
    }

    /** Marking idle, or closing: under the lock, or erased first and deleted afterwards. */
    method GiveBack(ghost w: nat, clt: Addr)
      requires Valid() && w < |threads| && threads[w] == Done(clt)
      modifies this`threads, table`clt2idle
      ensures Valid() && Now() == Step(Step(old(Now()), Finish(w)), Close(w))
      ensures threads == old(threads)[w := Idle]
      ensures clt in connected && clt in old(table.clt2idle) ==> table.clt2idle == old(table.clt2idle)[clt := true]
      ensures clt in connected && clt !in old(table.clt2idle) ==> table.clt2idle == old(table.clt2idle)
      ensures clt !in connected ==> table.clt2idle == old(table.clt2idle) - {clt}
    {
      if clt in connected {
        table.MarkIdle(clt);
      } else {
        table.Erase(clt);
      }
      threads := threads[w := Idle];
    }

    /** The worker's branch with a working connection. */
    method Use(ghost w: nat, clt: Addr, req: Req, x: Work)
      requires Valid() && w < |threads| && threads[w] == Have(Request(req), clt) && clt in connected
      requires clt in table.clt2idle
      modifies this`threads, this`connected, this`answers, this`responses, table`clt2idle
      ensures Valid() && Now() == AfterClient(old(Now()), w, Survives(x))
      ensures threads == old(threads)[w := Idle]
      ensures View() == Using(req, x, clt, old(View()))
    {
      ghost var before := threads;
      ServedTurn(Now(), w, Survives(x));
      HandleRequest(w, clt, req, x);
      GiveBack(w, clt);
      assert threads == before[w := Idle];
    }

    /** Out of attempts the request is answered with a failure; otherwise it goes back to the head. */
    method RetryOrFail(ghost w: nat, req: Req)
      requires Valid() && w < |threads| && threads[w] == NoClient(Request(req))
      modifies this`threads, this`answers, this`responses, queue`queue
      ensures Valid() && Now() == Step(old(Now()), Retry(w))
      ensures threads == old(threads)[w := Idle]
      ensures queue.queue == (if req.retry >= MAX_RETRY then [] else [req.(retry := req.retry + 1)]) + old(queue.queue)
      ensures responses == old(responses) + if req.retry >= MAX_RETRY then [Response(req.id, NO_AVAIL_CLIENT)] else []
    {
      if req.retry >= MAX_RETRY {
        Respond(req, NO_AVAIL_CLIENT, NoAvailClient);
      } else {
        queue.Requeue(req.(retry := req.retry + 1));
      }
      threads := threads[w := Idle];
    }

    /** `closeClient` on a connection found broken before it was used. */
    method CloseBroken(ghost w: nat, clt: Addr, ghost req: Req, ghost up: bool)
      requires Valid() && w < |threads| && threads[w] == Have(Request(req), clt) && clt !in connected
      modifies this`threads, table`clt2idle
      ensures Valid() && Now() == Step(Step(old(Now()), Serve(w, up)), Close(w))
      ensures threads == old(threads)[w := NoClient(Request(req))]
      ensures table.clt2idle == old(table.clt2idle) - {clt}
    {
      table.Erase(clt);
      threads := threads[w := NoClient(Request(req))];
    }

    /** The other branch: without a connection, or with one found broken. */
    method DoWithout(ghost w: nat, clt: Option<Addr>, req: Req, ghost up: bool)
      requires Valid() && w < |threads|
      requires threads[w] == if clt.Some? then Have(Request(req), clt.value) else NoClient(Request(req))
      requires clt.Some? ==> clt.value !in connected
      modifies this`threads, this`answers, this`responses, queue`queue, table`clt2idle
      ensures Valid() && Now() == AfterClient(old(Now()), w, up)
      ensures threads == old(threads)[w := Idle]
      ensures View() == DoingWithout(req, clt, old(View()))
    {
      ghost var before, v := threads, View();
      if clt.Some? {
        BrokenTurn(Now(), w, up);
        CloseBroken(w, clt.value, req, up);
        assert threads == before[w := NoClient(Request(req))];
      } else {
        RefusedTurn(Now(), w, up);
      }
      RetryOrFail(w, req);
      assert threads == before[w := Idle];
      assert View() == DoingWithout(req, clt, v);
    }

    /** One turn of a worker's loop when nothing interferes. */
    method Turn(ghost w: nat, spare: Addr, connects: bool, x: Work)
        returns (exited: bool, clt: Option<Addr>, used: bool, ghost a: Addr)
      requires Valid() && w < workers && threads[w] == Idle
      requires spare !in table.clt2idle && !InUse(threads, spare)
      modifies this, queue`queue, table`clt2idle
      ensures Valid() && Now() == TurnSteps(old(Now()), w, a, connects, Survives(x))
      ensures exited <==> queue.exit
      ensures threads[w] == if exited then Exited else Idle
      ensures OneTurn(table.poolSize, queue.exit, spare, connects, x, old(View()), clt, used, View())
    {
      a := spare;
      exited, clt, used := false, None, false;
      ghost var s0, s, v := Now(), threads, View();
      var r := Take(w);
      match r
      case Exit =>
        exited := true;
        assert queue.exit && View() == v;
        NothingTaken(s0, Now(), w, a, connects, Survives(x));
      case Timeout =>
        assert v.queue == [] && View() == v;
        NothingTaken(s0, Now(), w, a, connects, Survives(x));
      case Item(req) =>
        StillUnused(s, w, threads[w], spare);
        clt, used, a := ServeOne(w, req.(pops := req.pops + 1), spare, connects, x, v);
    }

    /** The body of the loop once a request has been taken. */
    method ServeOne(ghost w: nat, req: Req, spare: Addr, connects: bool, x: Work, ghost v: Books)
        returns (clt: Option<Addr>, used: bool, ghost a: Addr)
      requires Valid() && w < workers && threads[w] == Got(Request(req))
      requires spare !in table.clt2idle && !InUse(threads, spare)
      requires !queue.exit && TakenFrom(v, req, View())
      modifies this, queue`queue, table`clt2idle
      ensures Valid() && Now() == AfterPop(old(Now()), w, a, connects, Survives(x)) && threads[w] == Idle
      ensures OneTurn(table.poolSize, queue.exit, spare, connects, x, v, clt, used, View())
    {
      ghost var s := View();
      clt, a := GetIdleClient(w, spare, connects);
      ghost var m := View();
      used := clt.Some? && clt.value in connected;
      if used {
        EndsUsing(table.poolSize, req, spare, connects, x, v, s, clt.value, m);
        ghost var g := Using(req, x, clt.value, m);
        Use(w, clt.value, req, x);
        assert View() == g;
        assert clt == Some(clt.value);
      } else {
        EndsWithout(table.poolSize, req, spare, connects, x, v, s, clt, m);
        ghost var g := DoingWithout(req, clt, m);
        DoWithout(w, clt, req, Survives(x));
        assert View() == g;
      }
    }
  }

  /** The steps of a whole turn in the order the loop's branches take them; those of the branches not taken
      are not enabled and change nothing. */
  ghost function TurnSteps(s: Pool, w: nat, a: Addr, connects: bool, up: bool): Pool {
    AfterPop(Step(s, Pop(w)), w, a, connects, up)
  }

  ghost function AfterPop(s: Pool, w: nat, a: Addr, connects: bool, up: bool): Pool {
    AfterClient(Step(Step(s, Alloc(w, a)), Connected(w, connects)), w, up)
  }

  ghost function AfterClient(s: Pool, w: nat, up: bool): Pool {
    AfterFailure(Step(Step(s, Serve(w, up)), Close(w)), w)
  }

  ghost function AfterFailure(s: Pool, w: nat): Pool {
    Step(Step(Step(s, Retry(w)), Finish(w)), Close(w))
  }

  lemma NothingTaken(s: Pool, t: Pool, w: nat, a: Addr, connects: bool, up: bool)
    requires t == Step(s, Pop(w)) && (At(t, w).Idle? || At(t, w).Exited?)
    ensures TurnSteps(s, w, a, connects, up) == t
  {
  }

  lemma RetriedTurn(s: Pool, w: nat)
    requires At(s, w).NoClient?
    ensures AfterFailure(s, w) == Step(s, Retry(w))
  {
    assert At(Step(s, Retry(w)), w) == Idle;
  }

  lemma RefusedTurn(s: Pool, w: nat, up: bool)
    requires At(s, w).NoClient?
    ensures AfterClient(s, w, up) == Step(s, Retry(w))
  {
    RetriedTurn(s, w);
  }

  lemma BrokenTurn(s: Pool, w: nat, up: bool)
    requires At(s, w).Have? && s.threads[w].job.Request? && s.threads[w].clt !in s.connected
    ensures AfterClient(s, w, up) == Step(Step(Step(s, Serve(w, up)), Close(w)), Retry(w))
  {
    RetriedTurn(Step(Step(s, Serve(w, up)), Close(w)), w);
  }

  lemma ServedTurn(s: Pool, w: nat, up: bool)
    requires At(s, w).Have? && s.threads[w].clt in s.connected
    ensures AfterClient(s, w, up) == Step(Step(Step(s, Serve(w, up)), Finish(w)), Close(w))
  {
    assert At(Step(s, Serve(w, up)), w).Done?;
  }

  lemma StillUnused(threads: seq<Pc>, w: nat, pc: Pc, a: Addr)
    requires w < |threads| && !InUse(threads, a) && AddrOf(pc).None?
    ensures !InUse(threads[w := pc], a)
  {
    var next := threads[w := pc];
    forall i | 0 <= i < |next|
      ensures AddrOf(next[i]) != Some(a)
    {
      assert i != w ==> next[i] == threads[i];
    }
  }
}
