/** The pool's connections: who holds which, and when a worker is left without one. */
module PoolClients {
  import opened Wrappers
  import opened DbPool

  /** The table entry a thread is responsible for. */
  function HeldClient(pc: Pc): Option<Addr> {
    if pc.Connecting? || pc.Have? || pc.Done? then Some(pc.clt) else None
  }

  ghost predicate HeldBySome(threads: seq<Pc>, a: Addr) {
    exists i :: 0 <= i < |threads| && HeldClient(threads[i]) == Some(a)
  }

  /** No object is in two threads' hands, deleted ones included until they are gone. */
  predicate Exclusive(threads: seq<Pc>) {
    forall i, j :: 0 <= i < j < |threads| && AddrOf(threads[i]).Some? ==> AddrOf(threads[i]) != AddrOf(threads[j])
  }

  /** The busy entries are exactly the held connections. */
  ghost predicate BusyIsHeld(s: Pool) {
    && (forall i :: 0 <= i < |s.threads| && HeldClient(s.threads[i]).Some? ==>
          HeldClient(s.threads[i]).value in s.clients && !s.clients[HeldClient(s.threads[i]).value])
    && (forall a :: a in s.clients && !s.clients[a] ==> HeldBySome(s.threads, a))
  }

  predicate ErasedIsOut(s: Pool) {
    forall i :: 0 <= i < |s.threads| && s.threads[i].Erased? ==> s.threads[i].clt !in s.clients
  }

  /** Whatever is idle, or handed out to do work, is connected; what is still connecting is not. */
  predicate UsableIsConnected(s: Pool) {
    && (forall a :: a in s.clients && s.clients[a] ==> a in s.connected)
    && (forall i :: 0 <= i < |s.threads| && s.threads[i].Have? ==> s.threads[i].clt in s.connected)
    && (forall i :: 0 <= i < |s.threads| && s.threads[i].Connecting? ==> s.threads[i].clt !in s.connected)
  }

  ghost predicate Inv(s: Pool) {
    Exclusive(s.threads) && BusyIsHeld(s) && ErasedIsOut(s) && UsableIsConnected(s) && |s.clients| <= s.poolSize
  }

  // ---- how a thread changes what is held --------------------------------------------------------

  /** Thread `w` moves on and the table changes at most at `a`. */
  ghost predicate Touches(s: Pool, w: nat, a: Addr, t: Pool) {
    && w < |s.threads| && |t.threads| == |s.threads| && t.threads == s.threads[w := t.threads[w]]
    && t.poolSize == s.poolSize
    && (forall b :: b != a ==> (b in t.clients <==> b in s.clients))
    && (forall b :: b != a && b in s.clients ==> t.clients[b] == s.clients[b])
    && (forall b :: b != a ==> (b in t.connected <==> b in s.connected))
  }

  /** The thread has at most `a` before and after, and nobody else has it. */
  predicate Owns(s: Pool, w: nat, a: Addr, t: Pool)
    requires w < |s.threads| && w < |t.threads|
  {
    && (AddrOf(s.threads[w]).Some? ==> AddrOf(s.threads[w]).value == a)
    && (AddrOf(t.threads[w]).Some? ==> AddrOf(t.threads[w]).value == a)
    && (forall i :: 0 <= i < |s.threads| && i != w ==> AddrOf(s.threads[i]) != Some(a))
  }

  /** What has to be true at `a` afterwards. */
  predicate Settled(t: Pool, w: nat, a: Addr)
    requires w < |t.threads|
  {
    && (HeldClient(t.threads[w]).Some? ==> a in t.clients && !t.clients[a])
    && (HeldClient(t.threads[w]).None? ==> a !in t.clients || t.clients[a])
    && (t.threads[w].Erased? ==> a !in t.clients)
    && (a in t.clients && t.clients[a] ==> a in t.connected)
    && (t.threads[w].Have? ==> a in t.connected)
    && (t.threads[w].Connecting? ==> a !in t.connected)
  }

  lemma HeldIsAddr(pc: Pc)
    ensures HeldClient(pc).Some? ==> AddrOf(pc) == HeldClient(pc)
  {
  }

  lemma ExclusiveGoto(s: Pool, w: nat, a: Addr, t: Pool)
    requires Exclusive(s.threads) && Touches(s, w, a, t) && Owns(s, w, a, t)
    ensures Exclusive(t.threads)
  {
    forall i, j | 0 <= i < j < |t.threads| && AddrOf(t.threads[i]).Some?
      ensures AddrOf(t.threads[i]) != AddrOf(t.threads[j])
    {
      assert i != w ==> t.threads[i] == s.threads[i];
      assert j != w ==> t.threads[j] == s.threads[j];
    }
  }

  lemma BusyGoto(s: Pool, w: nat, a: Addr, t: Pool)
    requires BusyIsHeld(s) && Touches(s, w, a, t) && Owns(s, w, a, t) && Settled(t, w, a)
    ensures BusyIsHeld(t)
  {
    forall i | 0 <= i < |t.threads| && HeldClient(t.threads[i]).Some?
      ensures HeldClient(t.threads[i]).value in t.clients && !t.clients[HeldClient(t.threads[i]).value]
    {
      HeldIsAddr(t.threads[i]);
      assert i != w ==> t.threads[i] == s.threads[i];
    }
    forall b | b in t.clients && !t.clients[b]
      ensures HeldBySome(t.threads, b)
    {
      if b == a {
        HeldIsAddr(t.threads[w]);
        assert HeldClient(t.threads[w]) == Some(a);
      } else {
        assert HeldBySome(s.threads, b);
        var i :| 0 <= i < |s.threads| && HeldClient(s.threads[i]) == Some(b);
        HeldIsAddr(s.threads[i]);
        assert t.threads[i] == s.threads[i];
      }
    }
  }

  lemma ConnectedGoto(s: Pool, w: nat, a: Addr, t: Pool)
    requires ErasedIsOut(s) && UsableIsConnected(s) && Touches(s, w, a, t) && Owns(s, w, a, t) && Settled(t, w, a)
    ensures ErasedIsOut(t) && UsableIsConnected(t)
  {
    forall i | 0 <= i < |t.threads|
      ensures t.threads[i].Erased? ==> t.threads[i].clt !in t.clients
      ensures t.threads[i].Have? ==> t.threads[i].clt in t.connected
      ensures t.threads[i].Connecting? ==> t.threads[i].clt !in t.connected
    {
      assert i != w ==> t.threads[i] == s.threads[i] && AddrOf(s.threads[i]) != Some(a);
    }
  }

  lemma InvGoto(s: Pool, w: nat, a: Addr, t: Pool)
    requires Inv(s) && Touches(s, w, a, t) && Owns(s, w, a, t) && Settled(t, w, a) && |t.clients| <= t.poolSize
    ensures Inv(t)
  {
    ExclusiveGoto(s, w, a, t);
    BusyGoto(s, w, a, t);
    ConnectedGoto(s, w, a, t);
  }

  // ---- the steps --------------------------------------------------------------------------------

  /** A thread that holds something is alone with it. */
  lemma OnlyOwner(s: Pool, w: nat)
    requires Exclusive(s.threads) && w < |s.threads| && AddrOf(s.threads[w]).Some?
    ensures forall i :: 0 <= i < |s.threads| && i != w ==> AddrOf(s.threads[i]) != AddrOf(s.threads[w])
  {
    forall i | 0 <= i < |s.threads| && i != w
      ensures AddrOf(s.threads[i]) != AddrOf(s.threads[w])
    {
      if AddrOf(s.threads[i]).Some? {
        assert i < w || w < i;
      }
    }
  }

  /** A thread that neither has nor takes anything changes nothing here. */
  lemma InvIdle(s: Pool, w: nat, t: Pool)
    requires Inv(s) && w < |s.threads| && |t.threads| == |s.threads| && t.threads == s.threads[w := t.threads[w]]
    requires t.poolSize == s.poolSize && t.clients == s.clients && t.connected == s.connected
    requires AddrOf(s.threads[w]).None? && AddrOf(t.threads[w]).None?
    ensures Inv(t)
  {
    forall i | 0 <= i < |t.threads|
      ensures i != w ==> t.threads[i] == s.threads[i]
    {
    }
    forall b | b in t.clients && !t.clients[b]
      ensures HeldBySome(t.threads, b)
    {
      assert HeldBySome(s.threads, b);
      var i :| 0 <= i < |s.threads| && HeldClient(s.threads[i]) == Some(b);
      HeldIsAddr(s.threads[i]);
      assert t.threads[i] == s.threads[i];
    }
    assert Exclusive(t.threads);
    assert BusyIsHeld(t);
  }

  /** An idle entry is nobody's. */
  lemma IdleIsFree(s: Pool, a: Addr)
    requires Inv(s) && a in s.clients && s.clients[a]
    ensures forall i :: 0 <= i < |s.threads| ==> AddrOf(s.threads[i]) != Some(a)
  {
    forall i | 0 <= i < |s.threads|
      ensures AddrOf(s.threads[i]) != Some(a)
    {
      HeldIsAddr(s.threads[i]);
      assert HeldClient(s.threads[i]) != Some(a);
      assert s.threads[i].Erased? ==> s.threads[i].clt != a;
    }
  }

  lemma InvTake(s: Pool, w: nat, a: Addr)
    requires Inv(s) && At(s, w).Got? && a in s.clients && s.clients[a]
    ensures Inv(Goto(s, w, Have(s.threads[w].job, a)).(clients := s.clients[a := false]))
  {
    var t := Goto(s, w, Have(s.threads[w].job, a)).(clients := s.clients[a := false]);
    IdleIsFree(s, a);
    assert t.clients.Keys == s.clients.Keys;
    InvGoto(s, w, a, t);
  }

  lemma InvInsert(s: Pool, w: nat, a: Addr)
    requires Inv(s) && At(s, w).Got? && |s.clients| < s.poolSize && a !in s.clients && !InUse(s.threads, a)
    ensures Inv(Goto(s, w, Connecting(s.threads[w].job, a))
                  .(clients := s.clients[a := false], connected := s.connected - {a}))
  {
    var t := Goto(s, w, Connecting(s.threads[w].job, a))
               .(clients := s.clients[a := false], connected := s.connected - {a});
    assert t.clients.Keys == s.clients.Keys + {a};
    InvGoto(s, w, a, t);
  }

  lemma InvAlloc(s: Pool, w: nat, a: Addr)
    requires Inv(s)
    ensures Inv(StepAlloc(s, w, a))
  {
    if At(s, w).Got? {
      if HasIdle(s.clients) {
        if a in s.clients && s.clients[a] {
          InvTake(s, w, a);
        }
      } else if |s.clients| < s.poolSize {
        if a !in s.clients && !InUse(s.threads, a) {
          InvInsert(s, w, a);
        }
      } else {
        InvIdle(s, w, StepAlloc(s, w, a));
      }
    }
  }

  lemma InvConnected(s: Pool, w: nat, ok: bool)
    requires Inv(s)
    ensures Inv(StepConnected(s, w, ok))
  {
    if At(s, w).Connecting? {
      var a := s.threads[w].clt;
      OnlyOwner(s, w);
      RemovalShrinks(s.clients, a);
      InvGoto(s, w, a, StepConnected(s, w, ok));
    }
  }

  lemma RemovalShrinks(m: map<Addr, bool>, a: Addr)
    ensures |m - {a}| <= |m|
  {
    assert (m - {a}).Keys == m.Keys - {a};
  }

  lemma InvServe(s: Pool, w: nat, up: bool)
    requires Inv(s)
    ensures Inv(StepServe(s, w, up))
  {
    if At(s, w).Have? {
      var a := s.threads[w].clt;
      OnlyOwner(s, w);
      RemovalShrinks(s.clients, a);
      HeldIsAddr(s.threads[w]);
      assert HeldClient(s.threads[w]).Some?;
      InvGoto(s, w, a, StepServe(s, w, up));
    }
  }

  lemma InvFinish(s: Pool, w: nat)
    requires Inv(s)
    ensures Inv(StepFinish(s, w))
  {
    if At(s, w).Done? {
      var a := s.threads[w].clt;
      OnlyOwner(s, w);
      RemovalShrinks(s.clients, a);
      assert HeldClient(s.threads[w]) == Some(a);
      assert s.clients[a := true].Keys == s.clients.Keys;
      InvGoto(s, w, a, StepFinish(s, w));
    }
  }

  lemma InvClose(s: Pool, w: nat)
    requires Inv(s)
    ensures Inv(StepClose(s, w))
  {
    if At(s, w).Erased? {
      OnlyOwner(s, w);
      InvGoto(s, w, s.threads[w].clt, StepClose(s, w));
    }
  }

  lemma InvElsewhere(s: Pool, t: Pool)
    requires Inv(s) && t.threads == s.threads && t.clients == s.clients && t.connected == s.connected &&
             t.poolSize == s.poolSize
    ensures Inv(t)
  {
  }

  lemma InvPop(s: Pool, w: nat)
    requires Inv(s)
    ensures Inv(StepPop(s, w))
  {
    if At(s, w).Idle? && w < s.workers && StepPop(s, w) != s {
      InvIdle(s, w, StepPop(s, w));
    }
  }

  lemma InvRetry(s: Pool, w: nat)
    requires Inv(s)
    ensures Inv(StepRetry(s, w))
  {
    if At(s, w).NoClient? {
      InvIdle(s, w, StepRetry(s, w));
    }
  }

  lemma InvCall(s: Pool, w: nat)
    requires Inv(s)
    ensures Inv(Step(s, Call(w)))
  {
    if At(s, w).Idle? && w >= s.workers {
      InvIdle(s, w, Goto(s, w, Got(Query)));
    }
  }

  /** The steps that have nothing to do with connections. */
  lemma InvAside(s: Pool, e: Event)
    requires Inv(s) && (e.Call? || e.Pop? || e.Retry?)
    ensures Inv(Step(s, e))
  {
    match e
    case Call(w) => InvCall(s, w);
    case Pop(w) => InvPop(s, w);
    case Retry(w) => InvRetry(s, w);
  }

  lemma StepKeepsInv(s: Pool, e: Event)
    requires Inv(s)
    ensures Inv(Step(s, e))
  {
    match e
    case Call(_) | Pop(_) | Retry(_) => InvAside(s, e);
    case Alloc(w, a) => InvAlloc(s, w, a);
    case Connected(w, ok) => InvConnected(s, w, ok);
    case Serve(w, up) => InvServe(s, w, up);
    case Finish(w) => InvFinish(s, w);
    case Close(w) => InvClose(s, w);
    case _ => InvElsewhere(s, Step(s, e));
  }

  lemma {:induction false} RunKeepsInv(s: Pool, es: seq<Event>)
    requires Inv(s)
    ensures Inv(Run(s, es)) && Frame(s, Run(s, es))
    decreases |es|
  {
    if es != [] {
      StepKeepsInv(s, es[0]);
      RunKeepsInv(Step(s, es[0]), es[1..]);
    }
  }

  /** The allocator over every run: no connection is held by two threads, the busy entries are exactly the
      held ones, the table stays within the pool size, and every idle one is connected. */
  lemma AllocatorSafe(poolSize: nat, workers: nat, threads: nat, under: bool, es: seq<Event>)
    requires workers <= threads
    ensures var s := Run(Init(poolSize, workers, threads, under), es);
            && (forall i, j :: 0 <= i < j < |s.threads| && HeldClient(s.threads[i]).Some? ==>
                  HeldClient(s.threads[i]) != HeldClient(s.threads[j]))
            && (forall a :: a in s.clients && !s.clients[a] <==> HeldBySome(s.threads, a))
            && |s.clients| <= poolSize
            && (forall a :: a in s.clients && s.clients[a] ==> a in s.connected)
  {
    RunKeepsInv(Init(poolSize, workers, threads, under), es);
    var s := Run(Init(poolSize, workers, threads, under), es);
    forall i | 0 <= i < |s.threads|
      ensures HeldClient(s.threads[i]).Some? ==> AddrOf(s.threads[i]) == HeldClient(s.threads[i])
    {
      HeldIsAddr(s.threads[i]);
    }
  }

  /** A worker is never handed a broken connection: the branch that would close it is dead. */
  lemma HandedOutIsConnected(poolSize: nat, workers: nat, threads: nat, under: bool, es: seq<Event>, w: nat)
    requires workers <= threads
    ensures var s := Run(Init(poolSize, workers, threads, under), es);
            At(s, w).Have? ==> s.threads[w].clt in s.connected
  {
    RunKeepsInv(Init(poolSize, workers, threads, under), es);
  }

  // ---- how long a connection lives --------------------------------------------------------------

  /** The three ways an entry's fate changes: a thread's own attempt to connect fails, it gives back a connection that
      broke, or it gives back one that works. */
  predicate FailsToConnect(s: Pool, e: Event, a: Addr) {
    e.Connected? && !e.ok && At(s, e.w).Connecting? && s.threads[e.w].clt == a
  }

  predicate GivesBackBroken(s: Pool, e: Event, a: Addr) {
    e.Finish? && At(s, e.w) == Done(a) && a !in s.connected
  }

  predicate GivesBackWorking(s: Pool, e: Event, a: Addr) {
    e.Finish? && At(s, e.w) == Done(a) && a in s.connected
  }

  /** A request was executed over the connection and broke it. */
  predicate Breaks(s: Pool, e: Event, a: Addr) {
    e.Serve? && !e.up && At(s, e.w).Have? && s.threads[e.w].clt == a
  }

  lemma HeldIsListed(s: Pool, w: nat)
    requires Inv(s) && w < |s.threads| && HeldClient(s.threads[w]).Some?
    ensures var a := HeldClient(s.threads[w]).value; a in s.clients && !s.clients[a]
  {
  }

  lemma HaveIsUp(s: Pool, w: nat)
    requires Inv(s) && w < |s.threads| && s.threads[w].Have?
    ensures s.threads[w].clt in s.connected
  {
  }

  /** An entry leaves the table exactly when its own thread failed to connect it or gives it back broken, and becomes
      idle exactly when its thread gives it back working. */
  lemma TableExactly(s: Pool, e: Event, a: Addr)
    requires Inv(s) && a in s.clients
    ensures a !in Step(s, e).clients <==> FailsToConnect(s, e, a) || GivesBackBroken(s, e, a)
    ensures !s.clients[a] ==>
              (a in Step(s, e).clients && Step(s, e).clients[a] <==> GivesBackWorking(s, e, a))
  {
    match e
    case Serve(w, _) => if At(s, w).Have? { HaveIsUp(s, w); }
    case Finish(w) => if At(s, w).Done? { HeldIsListed(s, w); }
    case _ =>
  }

  /** A connection in the table stops working exactly when a request executed over it breaks it. */
  lemma DownExactly(s: Pool, e: Event, a: Addr)
    requires Inv(s) && a in s.clients && a in s.connected
    ensures a !in Step(s, e).connected <==> Breaks(s, e, a)
  {
    if e.Serve? && At(s, e.w).Have? {
      HaveIsUp(s, e.w);
    }
  }

  predicate Unbroken(s: Pool, es: seq<Event>, a: Addr)
    decreases |es|
  {
    es == [] || (!Breaks(s, es[0], a) && Unbroken(Step(s, es[0]), es[1..], a))
  }

  /** A working connection stays in the pool, working, for as long as no request breaks it. */
  lemma {:induction false} LivesUntilBroken(s: Pool, es: seq<Event>, a: Addr)
    requires Inv(s) && a in s.clients && a in s.connected && Unbroken(s, es, a)
    ensures a in Run(s, es).clients && a in Run(s, es).connected
    decreases |es|
  {
    if es != [] {
      StepKeepsInv(s, es[0]);
      TableExactly(s, es[0], a);
      DownExactly(s, es[0], a);
      LivesUntilBroken(Step(s, es[0]), es[1..], a);
    }
  }

  // ---- pigeonhole -------------------------------------------------------------------------------

  function Holders(threads: seq<Pc>): set<Addr> {
    if threads == [] then {}
    else (if HeldClient(threads[0]).Some? then {HeldClient(threads[0]).value} else {}) + Holders(threads[1..])
  }

  function Holding(threads: seq<Pc>): nat {
    if threads == [] then 0 else (if HeldClient(threads[0]).Some? then 1 else 0) + Holding(threads[1..])
  }

  lemma {:induction false} HoldersBound(threads: seq<Pc>)
    ensures |Holders(threads)| <= Holding(threads) <= |threads|
    ensures forall i :: 0 <= i < |threads| && HeldClient(threads[i]).Some? ==>
            HeldClient(threads[i]).value in Holders(threads)
  {
    if threads != [] {
      HoldersBound(threads[1..]);
      forall i | 0 <= i < |threads| && HeldClient(threads[i]).Some?
        ensures HeldClient(threads[i]).value in Holders(threads)
      {
        if i > 0 {
          assert threads[i] == threads[1..][i - 1];
        }
      }
      if HeldClient(threads[0]).Some? {
        AddOne(Holders(threads[1..]), HeldClient(threads[0]).value);
      } else {
        assert Holders(threads) == Holders(threads[1..]);
      }
    }
  }

  lemma AddOne(s: set<Addr>, a: Addr)
    ensures |{a} + s| <= |s| + 1
  {
    assert {a} + s == s + {a};
  }

  lemma {:induction false} OneEmptyHand(threads: seq<Pc>, w: nat)
    requires w < |threads| && HeldClient(threads[w]).None?
    ensures Holding(threads) < |threads|
  {
    HoldersBound(threads[1..]);
    if w > 0 {
      OneEmptyHand(threads[1..], w - 1);
    }
  }

  /** A full table without an idle entry needs as many threads holding connections. */
  lemma FullTable(s: Pool)
    requires Inv(s) && !HasIdle(s.clients)
    ensures |s.clients| <= Holding(s.threads)
  {
    HoldersBound(s.threads);
    forall a | a in s.clients.Keys
      ensures a in Holders(s.threads)
    {
      assert HeldBySome(s.threads, a);
      var i :| 0 <= i < |s.threads| && HeldClient(s.threads[i]) == Some(a);
    }
    Subset(s.clients.Keys, Holders(s.threads));
  }

  lemma {:induction false} Subset(a: set<Addr>, b: set<Addr>)
    requires a <= b
    ensures |a| <= |b|
    decreases |a|
  {
    if a != {} {
      var x :| x in a;
      Subset(a - {x}, b - {x});
    }
  }

  /** With no more threads than the pool has places (its own workers and no borrowing callers), asking
      for a connection is never refused for want of room: the only way to come away empty-handed is that
      the thread's own attempt to connect failed. */
  lemma NeverFull(poolSize: nat, workers: nat, under: bool, es: seq<Event>, w: nat, a: Addr)
    requires workers <= poolSize
    ensures var s := Run(Init(poolSize, workers, workers, under), es);
            At(s, w).Got? ==> !At(StepAlloc(s, w, a), w).NoClient?
  {
    RunKeepsInv(Init(poolSize, workers, workers, under), es);
    var s := Run(Init(poolSize, workers, workers, under), es);
    if At(s, w).Got? && !HasIdle(s.clients) {
      FullTable(s);
      OneEmptyHand(s.threads, w);
    }
  }

  /** In general a refusal means that as many other threads hold a connection as the pool has places. */
  lemma RefusedMeansAllHeld(s: Pool, w: nat, a: Addr)
    requires Inv(s) && At(s, w).Got?
    ensures At(StepAlloc(s, w, a), w).NoClient? ==> Holding(s.threads) >= s.poolSize
  {
    if !HasIdle(s.clients) {
      FullTable(s);
    }
  }

  // ---- the table as the code keeps it -----------------------------------------------------------

  class ClientTable {
    const poolSize: nat
    var clt2idle: map<Addr, bool>

    constructor (size: nat)
      ensures poolSize == size && clt2idle == map[]
    {
      poolSize := size;
      clt2idle := map[];
    }

    /** The scan and, failing that, the insertion, under one lock. */
    method TakeOrInsert(spare: Addr) returns (clt: Option<Addr>, newClt: Option<Addr>)
      requires spare !in clt2idle
      modifies this`clt2idle
      ensures clt.Some? ==> clt.value in old(clt2idle) && old(clt2idle)[clt.value] && newClt.None?
      ensures clt.Some? ==> clt2idle == old(clt2idle)[clt.value := false]
      ensures clt.None? <==> !HasIdle(old(clt2idle))
      ensures clt.None? && old(|clt2idle|) < poolSize ==>
                newClt == Some(spare) && clt2idle == old(clt2idle)[spare := false]
      ensures clt.None? && old(|clt2idle|) >= poolSize ==> newClt.None? && clt2idle == old(clt2idle)
    {
      clt, newClt := None, None;
      var unseen := clt2idle.Keys;
      while unseen != {} && clt.None?
        invariant unseen <= old(clt2idle).Keys
        invariant clt.None? ==> clt2idle == old(clt2idle) && forall a :: a in clt2idle && a !in unseen ==> !clt2idle[a]
        invariant clt.Some? ==> clt.value in old(clt2idle) && old(clt2idle)[clt.value]
        invariant clt.Some? ==> clt2idle == old(clt2idle)[clt.value := false]
        decreases unseen
      {
        var a :| a in unseen;
        unseen := unseen - {a};
        if clt2idle[a] {
          clt2idle := clt2idle[a := false];
          clt := Some(a);
        }
      }
      if clt.None? && |clt2idle| < poolSize {
        clt2idle := clt2idle[spare := false];
        newClt := Some(spare);
      }
    }

    method MarkIdle(clt: Addr)
      modifies this`clt2idle
      ensures clt2idle == if clt in old(clt2idle) then old(clt2idle)[clt := true] else old(clt2idle)
    {
      if clt in clt2idle {
        clt2idle := clt2idle[clt := true];
      }
    }

    method Erase(clt: Addr)
      modifies this`clt2idle
      ensures clt2idle == old(clt2idle) - {clt}
    {
      clt2idle := clt2idle - {clt};
    }
  }
}
