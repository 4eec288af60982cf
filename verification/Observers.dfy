/** Many threads observing into one histogram at once: every counter is updated by an atomic operation of its own,
    and the largest and smallest by compare-and-swap loops that may fail, spuriously or not, and try again. */
module Observers {
  import opened Histogram

  datatype Pc =
    | AddBucket | AddCount | AddSum
    | LoadMax | CasMax(cur: nat)
    | LoadMin | CasMin(low: nat)
    | Done

  datatype Observer = Observer(cost: nat, pc: Pc)

  datatype State = State(stats: Stats, observers: seq<Observer>)

  function Init(L: seq<nat>): State {
    State(Stats(seq(|L| + 1, _ => 0), 0, 0, 0, INT_MAX), [])
  }

  datatype Event = Observe(costMs: int) | Go(i: nat, spurious: bool)

  // ---- steps ------------------------------------------------------------------------------------

  function Goto(s: State, i: nat, pc: Pc): State
    requires i < |s.observers|
  {
    s.(observers := s.observers[i := s.observers[i].(pc := pc)])
  }

  function StepAdd(L: seq<nat>, s: State, i: nat): State
    requires i < |s.observers| && |s.stats.buckets| == |L| + 1
  {
    var o, st := s.observers[i], s.stats;
    match o.pc
    case AddBucket =>
      var b := BucketOf(L, o.cost);
      Goto(s, i, AddCount).(stats := st.(buckets := st.buckets[b := st.buckets[b] + 1]))
    case AddCount => Goto(s, i, AddSum).(stats := st.(count := st.count + 1))
    case AddSum => Goto(s, i, LoadMax).(stats := st.(sum := st.sum + o.cost))
    case _ => s
  }

  /** A failed exchange loads the value it found. */
  function StepExtremes(s: State, i: nat, spurious: bool): State
    requires i < |s.observers|
  {
    var o, st := s.observers[i], s.stats;
    match o.pc
    case LoadMax => Goto(s, i, CasMax(st.maxCost))
    case CasMax(cur) =>
      if o.cost <= cur then Goto(s, i, LoadMin)
      else if st.maxCost == cur && !spurious then Goto(s, i, LoadMin).(stats := st.(maxCost := o.cost))
      else Goto(s, i, CasMax(st.maxCost))
    case LoadMin => Goto(s, i, CasMin(st.minCost))
    case CasMin(low) =>
      if o.cost >= low then Goto(s, i, Done)
      else if st.minCost == low && !spurious then Goto(s, i, Done).(stats := st.(minCost := o.cost))
      else Goto(s, i, CasMin(st.minCost))
    case _ => s
  }

  function Step(L: seq<nat>, s: State, e: Event): State
    requires |s.stats.buckets| == |L| + 1
  {
    match e
    case Observe(c) => if c < 0 then s else s.(observers := s.observers + [Observer(c, AddBucket)])
    case Go(i, spurious) =>
      if i >= |s.observers| then s
      else if s.observers[i].pc.AddBucket? || s.observers[i].pc.AddCount? || s.observers[i].pc.AddSum?
        then StepAdd(L, s, i) else StepExtremes(s, i, spurious)
  }

  function Run(L: seq<nat>, s: State, es: seq<Event>): State
    requires |s.stats.buckets| == |L| + 1
    decreases |es|
  {
    if es == [] then s else Run(L, Step(L, s, es[0]), es[1..])
  }

  // ---- what has been added so far ---------------------------------------------------------------

  /** Which counter a sum over the observers is compared with. */
  datatype Counter = Bucket(i: nat) | Count | Cost

  predicate PastBucket(pc: Pc) { !pc.AddBucket? }
  predicate PastCount(pc: Pc) { PastBucket(pc) && !pc.AddCount? }
  predicate PastSum(pc: Pc) { PastCount(pc) && !pc.AddSum? }
  predicate PastMax(pc: Pc) { pc.LoadMin? || pc.CasMin? || pc.Done? }

  function Share(L: seq<nat>, k: Counter, o: Observer): nat {
    match k
    case Bucket(i) => if PastBucket(o.pc) && BucketOf(L, o.cost) == i then 1 else 0
    case Count => if PastCount(o.pc) then 1 else 0
    case Cost => if PastSum(o.pc) then o.cost else 0
  }

  function Added(L: seq<nat>, k: Counter, os: seq<Observer>): nat {
    if os == [] then 0 else Added(L, k, os[..|os| - 1]) + Share(L, k, os[|os| - 1])
  }

  lemma {:induction false} AddedGoto(L: seq<nat>, k: Counter, os: seq<Observer>, i: nat, o: Observer)
    requires i < |os|
    ensures Added(L, k, os[i := o]) + Share(L, k, os[i]) == Added(L, k, os) + Share(L, k, o)
  {
    var n := |os| - 1;
    if i == n {
      assert os[i := o][..n] == os[..n];
    } else {
      assert os[i := o][..n] == os[..n][i := o];
      AddedGoto(L, k, os[..n], i, o);
    }
  }

  lemma AddedNew(L: seq<nat>, k: Counter, os: seq<Observer>, c: nat)
    ensures Added(L, k, os + [Observer(c, AddBucket)]) == Added(L, k, os)
  {
    assert (os + [Observer(c, AddBucket)])[..|os|] == os;
  }

  function Total(st: Stats, k: Counter): nat
    requires k.Bucket? ==> k.i < |st.buckets|
  {
    match k
    case Bucket(i) => st.buckets[i]
    case Count => st.count
    case Cost => st.sum
  }

  ghost predicate Counted(L: seq<nat>, s: State) {
    && |s.stats.buckets| == |L| + 1
    && forall k: Counter | (k.Bucket? ==> k.i <= |L|) :: Total(s.stats, k) == Added(L, k, s.observers)
  }

  lemma CountedAdd(L: seq<nat>, s: State, i: nat)
    requires Counted(L, s) && i < |s.observers|
    ensures Counted(L, StepAdd(L, s, i))
  {
    var t := StepAdd(L, s, i);
    forall k: Counter | (k.Bucket? ==> k.i <= |L|)
      ensures Total(t.stats, k) == Added(L, k, t.observers)
    {
      assert Total(s.stats, k) == Added(L, k, s.observers);
      if t != s {
        AddedGoto(L, k, s.observers, i, t.observers[i]);
      }
    }
  }

  /** Past the counters, a move adds nothing. */
  lemma CountedMove(L: seq<nat>, s: State, i: nat, t: State)
    requires Counted(L, s) && i < |s.observers| && |t.observers| == |s.observers|
    requires t.observers == s.observers[i := t.observers[i]] && t.observers[i].cost == s.observers[i].cost
    requires PastSum(s.observers[i].pc) && PastSum(t.observers[i].pc)
    requires t.stats.buckets == s.stats.buckets && t.stats.count == s.stats.count && t.stats.sum == s.stats.sum
    ensures Counted(L, t)
  {
    forall k: Counter | (k.Bucket? ==> k.i <= |L|)
      ensures Total(t.stats, k) == Added(L, k, t.observers)
    {
      assert Total(s.stats, k) == Added(L, k, s.observers);
      AddedGoto(L, k, s.observers, i, t.observers[i]);
    }
  }

  lemma CountedExtremes(L: seq<nat>, s: State, i: nat, spurious: bool)
    requires Counted(L, s) && i < |s.observers| && PastSum(s.observers[i].pc)
    ensures Counted(L, StepExtremes(s, i, spurious))
  {
    CountedMove(L, s, i, StepExtremes(s, i, spurious));
  }

  lemma CountedStep(L: seq<nat>, s: State, e: Event)
    requires Counted(L, s)
    ensures Counted(L, Step(L, s, e))
  {
    match e
    case Observe(c) =>
      if c >= 0 {
        forall k: Counter | (k.Bucket? ==> k.i <= |L|)
          ensures Total(s.stats, k) == Added(L, k, s.observers + [Observer(c, AddBucket)])
        {
          AddedNew(L, k, s.observers, c);
        }
      }
    case Go(i, spurious) =>
      if i < |s.observers| {
        CountedAdd(L, s, i);
        if PastSum(s.observers[i].pc) {
          CountedExtremes(L, s, i, spurious);
        }
      }
  }

  // ---- the largest and the smallest -------------------------------------------------------------

  /** Whoever is past its loop is covered, a loaded value is never ahead, and the extreme is someone's cost. */
  ghost predicate MaxSound(s: State) {
    && (forall i :: 0 <= i < |s.observers| && PastMax(s.observers[i].pc) ==> s.observers[i].cost <= s.stats.maxCost)
    && (forall i :: 0 <= i < |s.observers| && s.observers[i].pc.CasMax? ==> s.observers[i].pc.cur <= s.stats.maxCost)
    && (s.stats.maxCost == 0 || exists i :: 0 <= i < |s.observers| && s.observers[i].cost == s.stats.maxCost)
  }

  ghost predicate MinSound(s: State) {
    && s.stats.minCost <= INT_MAX
    && (forall i :: 0 <= i < |s.observers| && s.observers[i].pc.Done? ==> s.stats.minCost <= s.observers[i].cost)
    && (forall i :: 0 <= i < |s.observers| && s.observers[i].pc.CasMin? ==> s.stats.minCost <= s.observers[i].pc.low)
    && (s.stats.minCost == INT_MAX || exists i :: 0 <= i < |s.observers| && s.observers[i].cost == s.stats.minCost)
  }

  lemma SomeoneStill(s: State, t: State, v: nat)
    requires exists i :: 0 <= i < |s.observers| && s.observers[i].cost == v
    requires |t.observers| >= |s.observers|
    requires forall i :: 0 <= i < |s.observers| ==> t.observers[i].cost == s.observers[i].cost
    ensures exists i :: 0 <= i < |t.observers| && t.observers[i].cost == v
  {
    var i :| 0 <= i < |s.observers| && s.observers[i].cost == v;
    assert t.observers[i].cost == v;
  }

  lemma CostsKept(L: seq<nat>, s: State, e: Event)
    requires |s.stats.buckets| == |L| + 1
    ensures var t := Step(L, s, e);
            && |t.observers| >= |s.observers|
            && forall i :: 0 <= i < |s.observers| ==> t.observers[i].cost == s.observers[i].cost
  {
  }

  lemma MaxStep(L: seq<nat>, s: State, e: Event)
    requires |s.stats.buckets| == |L| + 1 && MaxSound(s)
    ensures MaxSound(Step(L, s, e))
  {
    var t := Step(L, s, e);
    CostsKept(L, s, e);
    if t.stats.maxCost == s.stats.maxCost {
      if s.stats.maxCost != 0 {
        SomeoneStill(s, t, s.stats.maxCost);
      }
    } else {
      assert e.Go? && t.observers[e.i].cost == t.stats.maxCost;
    }
  }

  lemma MinStep(L: seq<nat>, s: State, e: Event)
    requires |s.stats.buckets| == |L| + 1 && MinSound(s)
    ensures MinSound(Step(L, s, e))
  {
    var t := Step(L, s, e);
    CostsKept(L, s, e);
    if t.stats.minCost == s.stats.minCost {
      if s.stats.minCost != INT_MAX {
        SomeoneStill(s, t, s.stats.minCost);
      }
    } else {
      assert e.Go? && t.observers[e.i].cost == t.stats.minCost;
    }
  }

  ghost predicate Inv(L: seq<nat>, s: State) {
    Counted(L, s) && MaxSound(s) && MinSound(s)
  }

  lemma {:induction false} RunKeepsInv(L: seq<nat>, s: State, es: seq<Event>)
    requires Inv(L, s)
    ensures Inv(L, Run(L, s, es))
    decreases |es|
  {
    if es != [] {
      CountedStep(L, s, es[0]);
      MaxStep(L, s, es[0]);
      MinStep(L, s, es[0]);
      RunKeepsInv(L, Step(L, s, es[0]), es[1..]);
    }
  }

  // ---- when everyone is done --------------------------------------------------------------------

  function Costs(os: seq<Observer>): (cs: seq<nat>)
    ensures |cs| == |os| && forall i :: 0 <= i < |os| ==> cs[i] == os[i].cost
  {
    if os == [] then [] else Costs(os[..|os| - 1]) + [os[|os| - 1].cost]
  }

  predicate AllDone(os: seq<Observer>) { forall i :: 0 <= i < |os| ==> os[i].pc.Done? }

  lemma {:induction false} AddedAll(L: seq<nat>, os: seq<Observer>, i: nat)
    requires AllDone(os)
    ensures Added(L, Bucket(i), os) == InBucket(L, Costs(os), i)
    ensures Added(L, Count, os) == |os| && Added(L, Cost, os) == Sum(Costs(os))
  {
    if os != [] {
      var n := |os| - 1;
      AddedAll(L, os[..n], i);
      InBucketSnoc(L, Costs(os[..n]), os[n].cost, i);
      StatsSnoc(Costs(os[..n]), os[n].cost);
    }
  }

  lemma LargestIs(obs: seq<nat>, m: nat)
    requires (forall i :: 0 <= i < |obs| ==> obs[i] <= m) && (m == 0 || m in obs)
    ensures m == MaxOf(obs)
  {
    if m in obs {
      MaxOfBounds(obs, m);
    } else if obs != [] {
      MaxOfBounds(obs, obs[0]);
    }
  }

  lemma {:induction false} MinOfBounds(obs: seq<nat>)
    ensures MinOf(obs) <= INT_MAX && forall x :: x in obs ==> MinOf(obs) <= x
    ensures MinOf(obs) == INT_MAX || MinOf(obs) in obs
  {
    if obs != [] {
      var n := |obs| - 1;
      MinOfBounds(obs[..n]);
      assert obs == obs[..n] + [obs[n]];
    }
  }

  /** What the run was asked to observe; a negative cost is ignored. */
  function Given(es: seq<Event>): seq<nat> {
    if es == [] then []
    else (if es[0].Observe? && es[0].costMs >= 0 then [es[0].costMs] else []) + Given(es[1..])
  }

  lemma CostsStep(L: seq<nat>, s: State, e: Event)
    requires |s.stats.buckets| == |L| + 1
    ensures var t := Step(L, s, e);
            Costs(t.observers) == Costs(s.observers) + if e.Observe? && e.costMs >= 0 then [e.costMs] else []
  {
    CostsKept(L, s, e);
  }

  lemma {:induction false} CostsAreGiven(L: seq<nat>, s: State, es: seq<Event>)
    requires |s.stats.buckets| == |L| + 1
    ensures Costs(Run(L, s, es).observers) == Costs(s.observers) + Given(es)
    decreases |es|
  {
    if es != [] {
      CostsStep(L, s, es[0]);
      CostsAreGiven(L, Step(L, s, es[0]), es[1..]);
    }
  }

  /** How many steps an observer needs when nobody interferes. */
  function Left(s: State, i: nat): nat
    requires i < |s.observers|
  {
    var o := s.observers[i];
    match o.pc
    case AddBucket => 7
    case AddCount => 6
    case AddSum => 5
    case LoadMax => 4
    case CasMax(cur) => if o.cost <= cur || cur == s.stats.maxCost then 3 else 4
    case LoadMin => 2
    case CasMin(low) => if o.cost >= low || low == s.stats.minCost then 1 else 2
    case Done => 0
  }

  /** No observer can be kept from finishing: left alone, without spurious failures, it is done after at most seven
      steps, whatever the others have done before. */
  lemma {:induction false} AloneFinishes(L: seq<nat>, s: State, i: nat, n: nat)
    requires |s.stats.buckets| == |L| + 1 && i < |s.observers| && n >= Left(s, i)
    ensures var t := Run(L, s, seq(n, _ => Go(i, false)));
            |t.observers| == |s.observers| && t.observers == s.observers[i := Observer(s.observers[i].cost, Done)]
    decreases n
  {
    if n > 0 {
      var es := seq(n, _ => Go(i, false));
      var t := Step(L, s, es[0]);
      assert es[1..] == seq(n - 1, _ => Go(i, false));
      assert Left(t, i) == if Left(s, i) == 0 then 0 else Left(s, i) - 1;
      AloneFinishes(L, t, i, n - 1);
    }
  }

  /** Whatever the interleaving, once every observer is done the statistics are those of the costs the run was given:
      exactly what one thread observing them one after the other would have left. */
  lemma QuietDescribes(L: seq<nat>, es: seq<Event>)
    ensures var s := Run(L, Init(L), es);
            AllDone(s.observers) ==> Describes(L, s.stats, Given(es))
  {
    InitInv(L);
    RunKeepsInv(L, Init(L), es);
    var s := Run(L, Init(L), es);
    CostsAreGiven(L, Init(L), es);
    if AllDone(s.observers) {
      var obs := Given(es);
      assert Costs(s.observers) == obs;
      forall i | 0 <= i <= |L|
        ensures s.stats.buckets[i] == InBucket(L, obs, i)
      {
        assert Total(s.stats, Bucket(i)) == Added(L, Bucket(i), s.observers);
        AddedAll(L, s.observers, i);
      }
      AddedAll(L, s.observers, 0);
      assert Total(s.stats, Count) == Added(L, Count, s.observers);
      assert Total(s.stats, Cost) == Added(L, Cost, s.observers);
      MaxAtRest(s);
      MinAtRest(s);
    }
  }

  lemma SmallestIs(obs: seq<nat>, m: nat)
    requires m <= INT_MAX && (forall i :: 0 <= i < |obs| ==> m <= obs[i]) && (m == INT_MAX || m in obs)
    ensures m == MinOf(obs)
  {
    MinOfBounds(obs);
  }

  lemma MaxAtRest(s: State)
    requires MaxSound(s) && AllDone(s.observers)
    ensures s.stats.maxCost == MaxOf(Costs(s.observers))
  {
    var obs := Costs(s.observers);
    if s.stats.maxCost != 0 {
      var i :| 0 <= i < |s.observers| && s.observers[i].cost == s.stats.maxCost;
      assert obs[i] == s.stats.maxCost;
    }
    LargestIs(obs, s.stats.maxCost);
  }

  lemma MinAtRest(s: State)
    requires MinSound(s) && AllDone(s.observers)
    ensures s.stats.minCost == MinOf(Costs(s.observers))
  {
    var obs := Costs(s.observers);
    if s.stats.minCost != INT_MAX {
      var i :| 0 <= i < |s.observers| && s.observers[i].cost == s.stats.minCost;
      assert obs[i] == s.stats.minCost;
    }
    SmallestIs(obs, s.stats.minCost);
  }

  lemma InitInv(L: seq<nat>)
    ensures Inv(L, Init(L))
  {
  }
}
