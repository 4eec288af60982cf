/** A connection of the ASIO flavour: its own state is touched only on the I/O strand, one handler at a time;
    received messages are handed in chunks to the worker strand; the stop flag is set by anyone at any moment. */
module AsioUser {
  import opened Arith

  const MAX_RD_QUEUE: nat := 256
  const MAX_WR_QUEUE: nat := 256
  const MAX_BATCH: nat := 32

  datatype State<M> = State(
    stop: bool,
    // writing
    posts: seq<M>,            // write_data calls not yet run on the strand
    writeQueue: seq<M>,
    writes: seq<M>,           // asynchronous writes in progress
    written: seq<M>,
    wrAccepted: seq<M>,
    // reading
    readQueue: seq<M>,
    pending: bool,
    dispatches: nat,          // dispatch handlers posted and not yet run
    chunks: seq<seq<M>>,      // what the worker strand still has to deliver
    delivered: seq<M>,
    rdAccepted: seq<M>,
    // closing
    notices: nat)             // onDisconnect notifications

  function Init<M>(): State<M> {
    State(false, [], [], [], [], [], [], false, 0, [], [], [], 0)
  }

  datatype Event<M> =
    | WriteData(m: M)
    | RunPost
    | WriteDone
    | WriteFail(aborted: bool)
    | ReadMsg(m: M, heartbeat: bool)
    | ReadFail(aborted: bool)
    | Dispatch
    | Work
    | Stop

  // ---- steps ------------------------------------------------------------------------------------

  function DoWrite<M>(s: State<M>): State<M> {
    if s.writeQueue == [] || s.stop then s else s.(writes := s.writes + [s.writeQueue[0]])
  }

  function StepPost<M>(s: State<M>): State<M> {
    if s.posts == [] then s
    else
      var m, rest := s.posts[0], s.(posts := s.posts[1..]);
      if |s.writeQueue| < MAX_WR_QUEUE then
        var pushed := rest.(writeQueue := s.writeQueue + [m], wrAccepted := s.wrAccepted + [m]);
        if s.writeQueue == [] then DoWrite(pushed) else pushed
      else rest
  }

  function StepWriteDone<M>(s: State<M>): State<M> {
    if s.writes == [] then s
    else
      var t := s.(writes := s.writes[1..], written := s.written + [s.writes[0]],
                  writeQueue := if s.writeQueue == [] then [] else s.writeQueue[1..]);
      if t.writeQueue != [] && !t.stop then DoWrite(t) else t
  }

  /** `handle_error`: the first to stop the connection also reports it. */
  function HandleError<M>(s: State<M>): State<M> {
    if s.stop then s else s.(stop := true, notices := s.notices + 1)
  }

  /** An operation is only ever aborted by the shutdown that follows the stop flag. */
  function StepWriteFail<M>(s: State<M>, aborted: bool): State<M> {
    if s.writes == [] || (aborted && !s.stop) then s
    else
      var t := s.(writes := s.writes[1..]);
      if aborted then t else HandleError(t)
  }

  function StepRead<M>(s: State<M>, m: M, heartbeat: bool): State<M> {
    if s.stop || heartbeat || |s.readQueue| >= MAX_RD_QUEUE then s
    else
      s.(readQueue := s.readQueue + [m], rdAccepted := s.rdAccepted + [m],
         pending := true, dispatches := if s.pending then s.dispatches else s.dispatches + 1)
  }

  /** A batch cut into chunks of at most 32. */
  function Chunks<M>(batch: seq<M>): seq<seq<M>>
    decreases |batch|
  {
    if batch == [] then []
    else
      var n := Min(MAX_BATCH, |batch|);
      [batch[..n]] + Chunks(batch[n..])
  }

  function StepDispatch<M>(s: State<M>): State<M> {
    if s.dispatches == 0 then s
    else s.(chunks := s.chunks + Chunks(s.readQueue), readQueue := [], pending := false, dispatches := s.dispatches - 1)
  }

  /** The worker strand delivers the messages of a chunk one by one. */
  function StepWork<M>(s: State<M>): State<M> {
    if s.chunks == [] then s
    else if s.chunks[0] == [] then s.(chunks := s.chunks[1..])
    else s.(chunks := s.chunks[0 := s.chunks[0][1..]], delivered := s.delivered + [s.chunks[0][0]])
  }

  function Step<M>(s: State<M>, e: Event<M>): State<M> {
    match e
    case WriteData(m) => s.(posts := s.posts + [m])
    case RunPost => StepPost(s)
    case WriteDone => StepWriteDone(s)
    case WriteFail(aborted) => StepWriteFail(s, aborted)
    case ReadMsg(m, heartbeat) => StepRead(s, m, heartbeat)
    case ReadFail(aborted) => if aborted then s else HandleError(s)
    case Dispatch => StepDispatch(s)
    case Work => StepWork(s)
    case Stop => s.(stop := true)
  }

  function Run<M>(s: State<M>, es: seq<Event<M>>): State<M>
    decreases |es|
  {
    if es == [] then s else Run(Step(s, es[0]), es[1..])
  }

  // ---- what every run keeps ---------------------------------------------------------------------

  /** At most one write is in progress and it is of the message at the head of the queue, whose buffer it uses;
      until the connection is stopped one is in progress whenever there is anything to write. */
  ghost predicate WriteInv<M>(s: State<M>) {
    && |s.writes| <= 1
    && (s.writes != [] ==> s.writeQueue != [] && s.writes[0] == s.writeQueue[0])
    && (!s.stop ==> (s.writes != [] <==> s.writeQueue != []))
    && s.written + s.writeQueue == s.wrAccepted
    && |s.writeQueue| <= MAX_WR_QUEUE
  }

  function Flatten<M>(chunks: seq<seq<M>>): seq<M> {
    if chunks == [] then [] else chunks[0] + Flatten(chunks[1..])
  }

  ghost predicate ReadInv<M>(s: State<M>) {
    && s.dispatches == (if s.pending then 1 else 0)
    && (s.readQueue != [] ==> s.pending)
    && s.delivered + (Flatten(s.chunks) + s.readQueue) == s.rdAccepted
    && |s.readQueue| <= MAX_RD_QUEUE
    && (forall i :: 0 <= i < |s.chunks| ==> |s.chunks[i]| <= MAX_BATCH)
  }

  predicate NoticeInv<M>(s: State<M>) {
    s.notices <= 1 && (s.notices == 1 ==> s.stop)
  }

  lemma {:induction false} FlattenAppend<M>(a: seq<seq<M>>, b: seq<seq<M>>)
    ensures Flatten(a + b) == Flatten(a) + Flatten(b)
  {
    if a == [] {
      assert a + b == b;
    } else {
      assert (a + b)[1..] == a[1..] + b;
      FlattenAppend(a[1..], b);
    }
  }

  /** Cutting a batch loses nothing and keeps the order. */
  lemma {:induction false} ChunksFlatten<M>(batch: seq<M>)
    ensures Flatten(Chunks(batch)) == batch
    ensures forall i :: 0 <= i < |Chunks(batch)| ==> 0 < |Chunks(batch)[i]| <= MAX_BATCH
    ensures forall i :: 0 <= i < |Chunks(batch)| - 1 ==> |Chunks(batch)[i]| == MAX_BATCH
    decreases |batch|
  {
    if batch != [] {
      var n := Min(MAX_BATCH, |batch|);
      ChunksFlatten(batch[n..]);
      var rest := Chunks(batch[n..]);
      assert ([batch[..n]] + rest)[1..] == rest;
      forall i | 0 <= i < |Chunks(batch)|
        ensures 0 < |Chunks(batch)[i]| <= MAX_BATCH
        ensures i < |Chunks(batch)| - 1 ==> |Chunks(batch)[i]| == MAX_BATCH
      {
        assert i > 0 ==> Chunks(batch)[i] == rest[i - 1];
      }
    }
  }

  lemma WritePost<M>(s: State<M>)
    requires WriteInv(s)
    ensures WriteInv(StepPost(s))
  {
    if s.posts != [] {
      assert s.written + (s.writeQueue + [s.posts[0]]) == s.wrAccepted + [s.posts[0]];
    }
  }

  lemma WriteDoneInv<M>(s: State<M>)
    requires WriteInv(s)
    ensures WriteInv(StepWriteDone(s))
  {
    if s.writes != [] {
      assert s.written + [s.writeQueue[0]] + s.writeQueue[1..] == s.written + s.writeQueue;
    }
  }

  lemma WriteStep<M>(s: State<M>, e: Event<M>)
    requires WriteInv(s)
    ensures WriteInv(Step(s, e))
  {
    match e
    case RunPost => WritePost(s);
    case WriteDone => WriteDoneInv(s);
    case _ =>
  }

  lemma ReadMsgInv<M>(s: State<M>, m: M, heartbeat: bool)
    requires ReadInv(s)
    ensures ReadInv(StepRead(s, m, heartbeat))
  {
    assert s.delivered + (Flatten(s.chunks) + (s.readQueue + [m]))
        == s.delivered + (Flatten(s.chunks) + s.readQueue) + [m];
  }

  lemma ReadDispatch<M>(s: State<M>)
    requires ReadInv(s)
    ensures ReadInv(StepDispatch(s))
  {
    if s.dispatches > 0 {
      var t := StepDispatch(s);
      ChunksFlatten(s.readQueue);
      FlattenAppend(s.chunks, Chunks(s.readQueue));
      assert Flatten(t.chunks) + [] == Flatten(s.chunks) + s.readQueue;
      forall i | 0 <= i < |t.chunks|
        ensures |t.chunks[i]| <= MAX_BATCH
      {
        assert i >= |s.chunks| ==> t.chunks[i] == Chunks(s.readQueue)[i - |s.chunks|];
      }
    }
  }

  lemma ReadWork<M>(s: State<M>)
    requires ReadInv(s)
    ensures ReadInv(StepWork(s))
  {
    if s.chunks != [] {
      var t := StepWork(s);
      var c, tail := s.chunks[0], Flatten(s.chunks[1..]);
      if c == [] {
        assert [] + tail == tail;
      } else {
        assert t.chunks[1..] == s.chunks[1..];
        assert Flatten(t.chunks) == c[1..] + tail;
        assert s.delivered + [c[0]] + (c[1..] + tail + s.readQueue) == s.delivered + (c + tail + s.readQueue);
      }
    }
  }

  lemma ReadStep<M>(s: State<M>, e: Event<M>)
    requires ReadInv(s)
    ensures ReadInv(Step(s, e))
  {
    match e
    case ReadMsg(m, heartbeat) => ReadMsgInv(s, m, heartbeat);
    case Dispatch => ReadDispatch(s);
    case Work => ReadWork(s);
    case _ => ReadElsewhere(s, e); ReadSame(s, Step(s, e));
  }

  lemma ReadElsewhere<M>(s: State<M>, e: Event<M>)
    requires !e.ReadMsg? && !e.Dispatch? && !e.Work?
    ensures SameReading(s, Step(s, e))
  {
  }

  lemma ReadSame<M>(s: State<M>, t: State<M>)
    requires ReadInv(s) && SameReading(s, t)
    ensures ReadInv(t)
  {
  }

  ghost predicate SameReading<M>(s: State<M>, t: State<M>) {
    && t.readQueue == s.readQueue && t.pending == s.pending && t.dispatches == s.dispatches
    && t.chunks == s.chunks && t.delivered == s.delivered && t.rdAccepted == s.rdAccepted
  }

  lemma NoticeStep<M>(s: State<M>, e: Event<M>)
    requires NoticeInv(s)
    ensures NoticeInv(Step(s, e)) && (s.stop ==> Step(s, e).stop)
  {
  }

  ghost predicate Inv<M>(s: State<M>) {
    WriteInv(s) && ReadInv(s) && NoticeInv(s)
  }

  lemma {:induction false} RunKeepsInv<M>(s: State<M>, es: seq<Event<M>>)
    requires Inv(s)
    ensures Inv(Run(s, es))
    decreases |es|
  {
    if es != [] {
      WriteStep(s, es[0]);
      ReadStep(s, es[0]);
      NoticeStep(s, es[0]);
      RunKeepsInv(Step(s, es[0]), es[1..]);
    }
  }

  // ---- what a run was given ---------------------------------------------------------------------

  /** The calls of `write_data`, in order. */
  function Given<M>(es: seq<Event<M>>): seq<M> {
    if es == [] then [] else (if es[0].WriteData? then [es[0].m] else []) + Given(es[1..])
  }

  /** What the posted handlers run: the calls in order, one each time a handler is due. */
  function Handled<M>(s: State<M>, es: seq<Event<M>>): seq<M>
    decreases |es|
  {
    if es == [] then []
    else (if es[0].RunPost? && s.posts != [] then [s.posts[0]] else []) + Handled(Step(s, es[0]), es[1..])
  }

  /** The ones that find room in the write queue. */
  function Accepted<M>(s: State<M>, es: seq<Event<M>>): seq<M>
    decreases |es|
  {
    if es == [] then []
    else
      (if es[0].RunPost? && s.posts != [] && |s.writeQueue| < 256 then [s.posts[0]] else []) +
      Accepted(Step(s, es[0]), es[1..])
  }

  /** The messages read while the connection is open and there is room; heartbeats are not passed on. */
  function Received<M>(s: State<M>, es: seq<Event<M>>): seq<M>
    decreases |es|
  {
    if es == [] then []
    else
      (if es[0].ReadMsg? && !es[0].heartbeat && !s.stop && |s.readQueue| < 256 then [es[0].m] else []) +
      Received(Step(s, es[0]), es[1..])
  }

  /** A failure that finds the connection still open. */
  predicate Reports<M>(s: State<M>, e: Event<M>) {
    !s.stop && ((e.ReadFail? && !e.aborted) || (e.WriteFail? && !e.aborted && s.writes != []))
  }

  function Reported<M>(s: State<M>, es: seq<Event<M>>): nat
    decreases |es|
  {
    if es == [] then 0 else (if Reports(s, es[0]) then 1 else 0) + Reported(Step(s, es[0]), es[1..])
  }

  lemma GivenStep<M>(s: State<M>, e: Event<M>)
    ensures var t := Step(s, e);
            && (if e.RunPost? && s.posts != [] then [s.posts[0]] else []) + t.posts
               == s.posts + (if e.WriteData? then [e.m] else [])
            && t.wrAccepted == s.wrAccepted +
                 (if e.RunPost? && s.posts != [] && |s.writeQueue| < 256 then [s.posts[0]] else [])
            && t.rdAccepted == s.rdAccepted +
                 (if e.ReadMsg? && !e.heartbeat && !s.stop && |s.readQueue| < 256 then [e.m] else [])
            && t.notices == s.notices + (if Reports(s, e) then 1 else 0)
  {
  }

  /** The calls are handled in order and none is forgotten. */
  lemma {:induction false} CallsHandled<M>(s: State<M>, es: seq<Event<M>>)
    ensures Handled(s, es) + Run(s, es).posts == s.posts + Given(es)
    decreases |es|
  {
    if es != [] {
      GivenStep(s, es[0]);
      CallsHandled(Step(s, es[0]), es[1..]);
      var x, y := if es[0].RunPost? && s.posts != [] then [s.posts[0]] else [],
                  if es[0].WriteData? then [es[0].m] else [];
      var t := Step(s, es[0]);
      calc {
        Handled(s, es) + Run(s, es).posts;
        x + Handled(t, es[1..]) + Run(t, es[1..]).posts;
        { Assoc(x, Handled(t, es[1..]), Run(t, es[1..]).posts); }
        x + (t.posts + Given(es[1..]));
        { Assoc(x, t.posts, Given(es[1..])); }
        x + t.posts + Given(es[1..]);
        s.posts + y + Given(es[1..]);
        { Assoc(s.posts, y, Given(es[1..])); }
        s.posts + Given(es);
      }
    }
  }

  lemma Assoc<M>(a: seq<M>, b: seq<M>, c: seq<M>)
    ensures a + b + c == a + (b + c)
  {
  }

  lemma {:induction false} RunTakes<M>(s: State<M>, es: seq<Event<M>>)
    ensures Run(s, es).wrAccepted == s.wrAccepted + Accepted(s, es)
    ensures Run(s, es).rdAccepted == s.rdAccepted + Received(s, es)
    ensures Run(s, es).notices == s.notices + Reported(s, es)
    decreases |es|
  {
    if es != [] {
      GivenStep(s, es[0]);
      RunTakes(Step(s, es[0]), es[1..]);
    }
  }

  /** Over every run: at most one write in progress, and until stopped one exactly when the write queue is not
      empty; what was written followed by the queue is the calls that found room, in the order they were made. */
  lemma OneWriteAtATime<M>(es: seq<Event<M>>)
    ensures var s := Run(Init(), es);
            && |s.writes| <= 1
            && (!s.stop ==> (|s.writes| == 1 <==> s.writeQueue != []))
            && s.written + s.writeQueue == Accepted(Init(), es)
            && Handled(Init(), es) + s.posts == Given(es)
            && |s.writeQueue| <= 256
  {
    RunTakes(Init<M>(), es);
    CallsHandled(Init<M>(), es);
    RunKeepsInv(Init<M>(), es);
  }

  /** Over every run: what was delivered, then what is posted in chunks, then the read queue is what was read with room
      for it, in order; a read queue that is not empty has exactly one dispatch on its way. */
  lemma NothingReadIsLost<M>(es: seq<Event<M>>)
    ensures var s := Run(Init(), es);
            && s.delivered + (Flatten(s.chunks) + s.readQueue) == Received(Init(), es)
            && (s.readQueue != [] ==> s.dispatches == 1)
            && s.dispatches <= 1
            && (forall i :: 0 <= i < |s.chunks| ==> |s.chunks[i]| <= 32)
  {
    RunTakes(Init<M>(), es);
    RunKeepsInv(Init<M>(), es);
  }

  /** The listener hears of the end of the connection at most once, and exactly when a failure came before any stop. */
  lemma OneNotice<M>(es: seq<Event<M>>)
    ensures Run(Init<M>(), es).notices == Reported(Init<M>(), es) <= 1
  {
    RunTakes(Init<M>(), es);
    RunKeepsInv(Init<M>(), es);
  }

  // ---- the handlers as the code runs them -------------------------------------------------------

  class TcpUser<M> {
    var stop: bool
    var pending: bool
    var writeQueue: seq<M>
    var readQueue: seq<M>
    ghost var env: State<M>     // the strands and the socket

    ghost function Now(): State<M>
      reads this
    {
      env.(stop := stop, pending := pending, writeQueue := writeQueue, readQueue := readQueue)
    }

    constructor ()
      ensures Now() == Init()
    {
      stop, pending, writeQueue, readQueue := false, false, [], [];
      env := Init();
    }

    method StartWrite()
      modifies this`env
      ensures Now() == DoWrite(old(Now()))
      ensures env.writes == old(env.writes) + if |writeQueue| == 0 || stop then [] else [writeQueue[0]]
    {
      if |writeQueue| == 0 || stop {
        return;
      }
      env := env.(writes := env.writes + [writeQueue[0]]);
    }

    /** The handler posted by `write_data`. */
    method RunWriteData(m: M)
      requires Now().posts != [] && Now().posts[0] == m
      modifies this
      ensures Now() == Step(old(Now()), RunPost)
      ensures writeQueue == old(writeQueue) + if old(|writeQueue|) < MAX_WR_QUEUE then [m] else []
      ensures env.writes == old(env.writes) + if old(writeQueue) == [] && !stop then [m] else []
      ensures stop == old(stop) && readQueue == old(readQueue)
    {
      env := env.(posts := env.posts[1..]);
      if |writeQueue| < MAX_WR_QUEUE {
        var wasEmpty := |writeQueue| == 0;
        writeQueue := writeQueue + [m];
        env := env.(wrAccepted := env.wrAccepted + [m]);
        if wasEmpty {
          StartWrite();
        }
      }
    }

    /** `handle_write` without an error. */
    method HandleWrite()
      requires Now().writes != []
      modifies this
      ensures Now() == Step(old(Now()), WriteDone)
      ensures writeQueue == if old(writeQueue) == [] then [] else old(writeQueue)[1..]
      ensures env.writes == old(env.writes)[1..] + if writeQueue == [] || stop then [] else [writeQueue[0]]
      ensures stop == old(stop) && readQueue == old(readQueue)
    {
      env := env.(written := env.written + [env.writes[0]], writes := env.writes[1..]);
      if |writeQueue| != 0 {
        writeQueue := writeQueue[1..];
      }
      if |writeQueue| != 0 && !stop {
        StartWrite();
      }
    }

    /** `handle_read` without an error. */
    method HandleRead(m: M, heartbeat: bool)
      modifies this
      ensures Now() == Step(old(Now()), ReadMsg(m, heartbeat))
      ensures stop || heartbeat || old(|readQueue|) >= MAX_RD_QUEUE ==> Now() == old(Now())
      ensures !stop && !heartbeat && old(|readQueue|) < MAX_RD_QUEUE ==>
                readQueue == old(readQueue) + [m] && pending &&
                env.dispatches == old(env.dispatches) + if old(pending) then 0 else 1
      ensures stop == old(stop) && writeQueue == old(writeQueue)
    {
      if stop {
        return;
      }
      if !heartbeat {
        if |readQueue| < MAX_RD_QUEUE {
          readQueue := readQueue + [m];
          env := env.(rdAccepted := env.rdAccepted + [m]);
          if !pending {
            pending := true;
            env := env.(dispatches := env.dispatches + 1);
          }
        }
      }
    }

    /** The handler posted by `schedule_dispatch`: the whole queue, cut into chunks. */
    method DispatchBatch()
      requires Now().dispatches > 0
      modifies this
      ensures Now() == Step(old(Now()), Dispatch)
      ensures readQueue == [] && !pending && env.dispatches == old(env.dispatches) - 1
      ensures Flatten(env.chunks) == Flatten(old(env.chunks)) + old(readQueue)
      ensures stop == old(stop) && writeQueue == old(writeQueue)
    {
      var batch := readQueue;
      readQueue := [];
      var posted := CutBatch(batch);
      ChunksFlatten(batch);
      FlattenAppend(env.chunks, posted);
      env := env.(chunks := env.chunks + posted, dispatches := env.dispatches - 1);
      pending := false;
    }
  }

  /** The two nested loops. */
  method CutBatch<M>(queue: seq<M>) returns (posted: seq<seq<M>>)
    ensures posted == Chunks(queue)
  {
    var batch := queue;
    posted := [];
    while |batch| != 0
      invariant posted + Chunks(batch) == Chunks(queue)
      decreases |batch|
    {
      ghost var before := batch;
      var chunk: seq<M>, count := [], 0;
      while |batch| != 0 && count < MAX_BATCH
        invariant count == |chunk| <= MAX_BATCH && chunk + batch == before
        decreases |batch|
      {
        chunk := chunk + [batch[0]];
        batch := batch[1..];
        count := count + 1;
      }
      assert chunk == before[..|chunk|] && batch == before[|chunk|..] && |chunk| == Min(MAX_BATCH, |before|);
      Regroup(posted, chunk, Chunks(batch));
      posted := posted + [chunk];
    }
  }

  lemma Regroup<M>(a: seq<seq<M>>, x: seq<M>, b: seq<seq<M>>)
    ensures a + ([x] + b) == a + [x] + b
  {
  }
}
