/** Worker threads divided into lanes by message type, and messages dealt out round-robin inside a lane. */
module Swimlanes {
  import opened Arith
  import opened Wrappers

  type MsgType = nat
  type Worker = int

  const DEFAULT_TYPE: MsgType := 0

  datatype Lane = Lane(msgTypes: seq<MsgType>, threads: nat)

  /** The workers of a lane and whose turn it is. Every message type has a copy of its own. */
  datatype Group = Group(workerIds: seq<Worker>, cursor: nat)

  type Table = map<MsgType, Group>

  /** A lane without types or without threads is skipped, though its threads still count as needed. */
  predicate Usable(lane: Lane) { lane.msgTypes != [] && lane.threads > 0 }

  function TotalNeed(lanes: seq<Lane>): nat {
    if lanes == [] then 0 else TotalNeed(lanes[..|lanes| - 1]) + lanes[|lanes| - 1].threads
  }

  /** How many workers the usable ones among these lanes take. */
  function Taken(lanes: seq<Lane>): nat {
    if lanes == [] then 0
    else Taken(lanes[..|lanes| - 1]) + if Usable(lanes[|lanes| - 1]) then lanes[|lanes| - 1].threads else 0
  }

  lemma {:induction false} TakenNeeded(lanes: seq<Lane>)
    ensures Taken(lanes) <= TotalNeed(lanes)
  {
    if lanes != [] {
      TakenNeeded(lanes[..|lanes| - 1]);
    }
  }

  /** The need is the sum of all the lanes' threads, and what is taken the sum of the usable ones'. */
  lemma {:induction false} NeedAdds(a: seq<Lane>, b: seq<Lane>)
    ensures TotalNeed(a + b) == TotalNeed(a) + TotalNeed(b) && Taken(a + b) == Taken(a) + Taken(b)
    ensures forall lane :: TotalNeed([lane]) == lane.threads
    ensures forall lane :: Taken([lane]) == if lane.msgTypes != [] then lane.threads else 0
  {
    if b == [] {
      assert a + b == a;
    } else {
      var n := |b| - 1;
      NeedAdds(a, b[..n]);
      assert (a + b)[..|a + b| - 1] == a + b[..n];
    }
    forall lane: Lane
      ensures TotalNeed([lane]) == lane.threads && Taken([lane]) == if lane.msgTypes != [] then lane.threads else 0
    {
      assert [lane][..0] == [];
    }
  }

  lemma TakenNext(lanes: seq<Lane>, i: nat)
    requires i < |lanes|
    ensures Taken(lanes[..i + 1]) == Taken(lanes[..i]) + if Usable(lanes[i]) then lanes[i].threads else 0
  {
    assert lanes[..i + 1][..i] == lanes[..i];
  }

  lemma {:induction false} TakenMonotone(lanes: seq<Lane>, i: nat, j: nat)
    requires i <= j <= |lanes|
    ensures Taken(lanes[..i]) <= Taken(lanes[..j])
  {
    if i < j {
      TakenMonotone(lanes, i, j - 1);
      TakenNext(lanes, j - 1);
    }
  }

  // ---- the division -----------------------------------------------------------------------------

  /** The lanes are used only if they leave a worker over. */
  predicate Divided(workers: seq<Worker>, lanes: seq<Lane>) { TotalNeed(lanes) < |workers| }

  /** Lane `i`'s workers start where the usable lanes before it end. */
  function First(lanes: seq<Lane>, i: nat): nat
    requires i <= |lanes|
  {
    Taken(lanes[..i])
  }

  lemma SlicesInRange(workers: seq<Worker>, lanes: seq<Lane>, i: nat)
    requires Divided(workers, lanes) && i <= |lanes|
    ensures First(lanes, i) < |workers|
    ensures i < |lanes| && Usable(lanes[i]) ==> First(lanes, i) + lanes[i].threads == First(lanes, i + 1) < |workers|
  {
    assert lanes[..|lanes|] == lanes;
    TakenNeeded(lanes);
    TakenMonotone(lanes, i, |lanes|);
    if i < |lanes| {
      TakenNext(lanes, i);
      TakenMonotone(lanes, i + 1, |lanes|);
    }
  }

  function LaneWorkers(workers: seq<Worker>, lanes: seq<Lane>, i: nat): (r: seq<Worker>)
    requires Divided(workers, lanes) && i < |lanes| && Usable(lanes[i])
    ensures |r| == lanes[i].threads
  {
    SlicesInRange(workers, lanes, i);
    workers[First(lanes, i)..First(lanes, i) + lanes[i].threads]
  }

  function DefaultWorkers(workers: seq<Worker>, lanes: seq<Lane>): seq<Worker> {
    if Divided(workers, lanes) then
      SlicesInRange(workers, lanes, |lanes|);
      workers[First(lanes, |lanes|)..]
    else workers
  }

  lemma Prefixes(workers: seq<Worker>, a: nat, b: nat)
    requires a <= b <= |workers|
    ensures workers[..a] + workers[a..b] == workers[..b]
  {
  }

  /** The workers of the first `n` lanes, one lane after the other. */
  function Rows(workers: seq<Worker>, lanes: seq<Lane>, n: nat): seq<Worker>
    requires Divided(workers, lanes) && n <= |lanes|
  {
    if n == 0 then []
    else Rows(workers, lanes, n - 1) + if Usable(lanes[n - 1]) then LaneWorkers(workers, lanes, n - 1) else []
  }

  /** The lanes in order and then the default share out all the workers, each lane as many as it asks for. */
  lemma SharedOut(workers: seq<Worker>, lanes: seq<Lane>)
    ensures Divided(workers, lanes) ==> Rows(workers, lanes, |lanes|) + DefaultWorkers(workers, lanes) == workers
    ensures !Divided(workers, lanes) ==> DefaultWorkers(workers, lanes) == workers
  {
    if Divided(workers, lanes) {
      RowsArePrefix(workers, lanes, |lanes|);
      SlicesInRange(workers, lanes, |lanes|);
    }
  }

  lemma {:induction false} RowsArePrefix(workers: seq<Worker>, lanes: seq<Lane>, n: nat)
    requires Divided(workers, lanes) && n <= |lanes|
    ensures First(lanes, n) <= |workers| && Rows(workers, lanes, n) == workers[..First(lanes, n)]
  {
    SlicesInRange(workers, lanes, n);
    if n > 0 {
      RowsArePrefix(workers, lanes, n - 1);
      SlicesInRange(workers, lanes, n - 1);
      TakenNext(lanes, n - 1);
      Prefixes(workers, First(lanes, n - 1), First(lanes, n));
    }
  }

  predicate Distinct(workers: seq<Worker>) {
    forall i, j :: 0 <= i < j < |workers| ==> workers[i] != workers[j]
  }

  predicate Disjoint(a: seq<Worker>, b: seq<Worker>) {
    forall i, j :: 0 <= i < |a| && 0 <= j < |b| ==> a[i] != b[j]
  }

  lemma SlicesDisjoint(workers: seq<Worker>, a: nat, b: nat, c: nat, d: nat)
    requires Distinct(workers) && a <= b <= c <= d <= |workers|
    ensures Disjoint(workers[a..b], workers[c..d])
  {
    forall i, j | 0 <= i < b - a && 0 <= j < d - c
      ensures workers[a..b][i] != workers[c..d][j]
    {
      assert workers[a..b][i] == workers[a + i] && workers[c..d][j] == workers[c + j];
    }
  }

  /** No worker serves two lanes. */
  lemma LanesDisjoint(workers: seq<Worker>, lanes: seq<Lane>, i: nat, j: nat)
    requires Distinct(workers) && Divided(workers, lanes) && i < j < |lanes| && Usable(lanes[i]) && Usable(lanes[j])
    ensures Disjoint(LaneWorkers(workers, lanes, i), LaneWorkers(workers, lanes, j))
    ensures LaneWorkers(workers, lanes, i) != []
  {
    SlicesInRange(workers, lanes, i);
    SlicesInRange(workers, lanes, j);
    TakenMonotone(lanes, i + 1, j);
    SlicesDisjoint(workers, First(lanes, i), First(lanes, i + 1), First(lanes, j), First(lanes, j + 1));
  }

  /** Whatever the lanes ask for, someone is left for everything else, and does nothing but. */
  lemma DefaultIsApart(workers: seq<Worker>, lanes: seq<Lane>)
    requires Distinct(workers) && workers != []
    ensures DefaultWorkers(workers, lanes) != []
    ensures Divided(workers, lanes) ==> forall i :: 0 <= i < |lanes| && Usable(lanes[i]) ==>
              Disjoint(LaneWorkers(workers, lanes, i), DefaultWorkers(workers, lanes))
  {
    if Divided(workers, lanes) {
      SlicesInRange(workers, lanes, |lanes|);
      forall i | 0 <= i < |lanes| && Usable(lanes[i])
        ensures Disjoint(LaneWorkers(workers, lanes, i), DefaultWorkers(workers, lanes))
      {
        SlicesInRange(workers, lanes, i);
        TakenMonotone(lanes, i + 1, |lanes|);
        SlicesDisjoint(workers, First(lanes, i), First(lanes, i + 1), First(lanes, |lanes|), |workers|);
      }
    }
  }

  // ---- the table --------------------------------------------------------------------------------

  /** Each type of a lane gets its own copy of the group; a later lane replaces an earlier one. */
  function Enter(table: Table, types: seq<MsgType>, g: Group): Table {
    if types == [] then table else Enter(table, types[..|types| - 1], g)[types[|types| - 1] := g]
  }

  lemma {:induction false} EnterContents(table: Table, types: seq<MsgType>, g: Group, t: MsgType)
    ensures t in Enter(table, types, g) <==> t in types || t in table
    ensures t in Enter(table, types, g) ==> Enter(table, types, g)[t] == if t in types then g else table[t]
  {
    if types != [] {
      var init, last := types[..|types| - 1], types[|types| - 1];
      EnterContents(table, init, g, t);
      assert types == init + [last];
    }
  }

  /** The last usable lane among the first `n` that lists the type. */
  function LaneOf(lanes: seq<Lane>, n: nat, t: MsgType): (r: Option<nat>)
    requires n <= |lanes|
    ensures r.Some? ==> r.value < n && Usable(lanes[r.value]) && t in lanes[r.value].msgTypes
    ensures r.None? ==> forall i :: 0 <= i < n && Usable(lanes[i]) ==> t !in lanes[i].msgTypes
    ensures r.Some? ==> forall i :: r.value < i < n && Usable(lanes[i]) ==> t !in lanes[i].msgTypes
  {
    if n == 0 then None
    else if Usable(lanes[n - 1]) && t in lanes[n - 1].msgTypes then Some(n - 1)
    else LaneOf(lanes, n - 1, t)
  }

  /** What the table should say about every type. */
  ghost predicate LaneTable(workers: seq<Worker>, lanes: seq<Lane>, n: nat, table: Table)
    requires Divided(workers, lanes) && n <= |lanes|
  {
    forall t: MsgType ::
      && (t in table <==> LaneOf(lanes, n, t).Some?)
      && (t in table ==> table[t] == Group(LaneWorkers(workers, lanes, LaneOf(lanes, n, t).value), 0))
  }

  /** The default type always means the default workers; any other type has an entry exactly when lanes are used and one
      of them lists it. */
  ghost predicate Configured(workers: seq<Worker>, lanes: seq<Lane>, table: Table) {
    && DEFAULT_TYPE in table && table[DEFAULT_TYPE] == Group(DefaultWorkers(workers, lanes), 0)
    && forall t: MsgType :: t != DEFAULT_TYPE ==>
         && (t in table <==> Divided(workers, lanes) && LaneOf(lanes, |lanes|, t).Some?)
         && (t in table ==> table[t] == Group(LaneWorkers(workers, lanes, LaneOf(lanes, |lanes|, t).value), 0))
  }

  lemma LaneTableNext(workers: seq<Worker>, lanes: seq<Lane>, n: nat, table: Table)
    requires Divided(workers, lanes) && n < |lanes| && LaneTable(workers, lanes, n, table)
    ensures Usable(lanes[n]) ==>
              LaneTable(workers, lanes, n + 1,
                  Enter(table, lanes[n].msgTypes, Group(LaneWorkers(workers, lanes, n), 0)))
    ensures !Usable(lanes[n]) ==> LaneTable(workers, lanes, n + 1, table)
  {
    if Usable(lanes[n]) {
      var g := Group(LaneWorkers(workers, lanes, n), 0);
      forall t: MsgType
        ensures t in Enter(table, lanes[n].msgTypes, g) <==> LaneOf(lanes, n + 1, t).Some?
        ensures t in Enter(table, lanes[n].msgTypes, g) ==>
                  Enter(table, lanes[n].msgTypes, g)[t] ==
                      Group(LaneWorkers(workers, lanes, LaneOf(lanes, n + 1, t).value), 0)
      {
        EnterContents(table, lanes[n].msgTypes, g, t);
      }
    }
  }

  lemma DefaultLast(workers: seq<Worker>, lanes: seq<Lane>, table: Table)
    requires Divided(workers, lanes) && LaneTable(workers, lanes, |lanes|, table)
    ensures First(lanes, |lanes|) <= |workers|
    ensures Configured(workers, lanes, table[DEFAULT_TYPE := Group(workers[First(lanes, |lanes|)..], 0)])
  {
    SlicesInRange(workers, lanes, |lanes|);
  }

  // ---- dispatch ---------------------------------------------------------------------------------

  function GroupFor(table: Table, t: MsgType): MsgType {
    if t in table then t else DEFAULT_TYPE
  }

  datatype Pick = Pick(group: MsgType, index: nat, worker: Worker)

  predicate Ready(table: Table) {
    DEFAULT_TYPE in table && forall t :: t in table ==> table[t].cursor < |table[t].workerIds|
  }

  function Turn(table: Table, t: MsgType): Pick
    requires Ready(table)
  {
    var k := GroupFor(table, t);
    Pick(k, table[k].cursor, table[k].workerIds[table[k].cursor])
  }

  function Advance(table: Table, t: MsgType): (r: Table)
    requires Ready(table)
    ensures Ready(r) && r.Keys == table.Keys && forall u :: u in table ==> r[u].workerIds == table[u].workerIds
  {
    var k := GroupFor(table, t);
    var next := table[k].cursor + 1;
    table[k := table[k].(cursor := if next == |table[k].workerIds| then 0 else next)]
  }

  datatype Run = Run(table: Table, picks: seq<Pick>)

  /** The table and the picks after a list of messages. */
  function Dispatched(table: Table, msgs: seq<MsgType>): (r: Run)
    requires Ready(table)
    ensures Ready(r.table) && r.table.Keys == table.Keys && |r.picks| == |msgs|
    ensures forall u :: u in table ==> r.table[u].workerIds == table[u].workerIds
  {
    if msgs == [] then Run(table, [])
    else
      var before := Dispatched(table, msgs[..|msgs| - 1]);
      var t := msgs[|msgs| - 1];
      Run(Advance(before.table, t), before.picks + [Turn(before.table, t)])
  }

  function OfGroup(picks: seq<Pick>, g: MsgType): nat {
    if picks == [] then 0
    else OfGroup(picks[..|picks| - 1], g) + if picks[|picks| - 1].group == g then 1 else 0
  }

  function OfWorker(picks: seq<Pick>, g: MsgType, k: nat): nat {
    if picks == [] then 0
    else OfWorker(picks[..|picks| - 1], g, k) + if picks[|picks| - 1].group == g && picks[|picks| - 1].index == k
        then 1 else 0
  }

  /** Where the cursor of a group of this size stands after `n` messages, and how many of them worker `k` got. */
  function CursorAfter(n: nat, size: nat): nat {
    if n == 0 then 0 else if CursorAfter(n - 1, size) + 1 == size then 0 else CursorAfter(n - 1, size) + 1
  }

  function Deal(n: nat, size: nat, k: nat): nat {
    if n == 0 then 0 else Deal(n - 1, size, k) + if CursorAfter(n - 1, size) == k then 1 else 0
  }

  /** It is an even deal, the first ones served first. */
  lemma {:induction false} DealIsEven(n: nat, size: nat, k: nat)
    requires k < size
    ensures CursorAfter(n, size) == n % size
    ensures Deal(n, size, k) == n / size + if k < n % size then 1 else 0
  {
    if n == 0 {
      DivUnique(0, size, 0, 0);
    } else {
      DealIsEven(n - 1, size, k);
      DivModNext(n - 1, size);
    }
  }

  predicate Fresh(table: Table) {
    forall t :: t in table ==> table[t].cursor == 0
  }

  lemma TurnEffect(table: Table, t: MsgType, g: MsgType)
    requires Ready(table) && g in table
    ensures var c, size := table[g].cursor, |table[g].workerIds|; var p, r := Turn(table, t), Advance(table, t);
            && (p.group == g ==> p.index == c && r[g].cursor == if c + 1 == size then 0 else c + 1)
            && (p.group != g ==> r[g] == table[g])
  {
  }

  lemma CountPick(picks: seq<Pick>, p: Pick, g: MsgType, k: nat)
    ensures OfGroup(picks + [p], g) == OfGroup(picks, g) + if p.group == g then 1 else 0
    ensures OfWorker(picks + [p], g, k) == OfWorker(picks, g, k) + if p.group == g && p.index == k then 1 else 0
  {
    assert (picks + [p])[..|picks|] == picks;
  }

  /** The cursor of a group and the deal of worker `k` are what the number of messages through it says. */
  predicate InTurn(r: Run, g: MsgType, k: nat)
    requires g in r.table
  {
    var n, size := OfGroup(r.picks, g), |r.table[g].workerIds|;
    r.table[g].cursor == CursorAfter(n, size) && OfWorker(r.picks, g, k) == Deal(n, size, k)
  }

  lemma InTurnNext(r: Run, t: MsgType, g: MsgType, k: nat)
    requires Ready(r.table) && g in r.table && InTurn(r, g, k)
    ensures InTurn(Run(Advance(r.table, t), r.picks + [Turn(r.table, t)]), g, k)
  {
    TurnEffect(r.table, t, g);
    CountPick(r.picks, Turn(r.table, t), g, k);
  }

  /** After any messages every group's cursor stands, and its workers have been dealt, as if it had been alone. */
  lemma {:induction false} RoundRobin(table: Table, msgs: seq<MsgType>, g: MsgType, k: nat)
    requires Ready(table) && Fresh(table) && g in table
    ensures InTurn(Dispatched(table, msgs), g, k)
  {
    if msgs != [] {
      RoundRobin(table, msgs[..|msgs| - 1], g, k);
      InTurnNext(Dispatched(table, msgs[..|msgs| - 1]), msgs[|msgs| - 1], g, k);
    }
  }

  /** Any two workers of a group have been given numbers of messages that differ by at most one. */
  lemma Balanced(table: Table, msgs: seq<MsgType>, g: MsgType, k: nat, j: nat)
    requires Ready(table) && Fresh(table) && g in table && k < |table[g].workerIds| && j < |table[g].workerIds|
    ensures var p := Dispatched(table, msgs).picks; -1 <= OfWorker(p, g, k) - OfWorker(p, g, j) <= 1
  {
    RoundRobin(table, msgs, g, k);
    RoundRobin(table, msgs, g, j);
    var n, size := OfGroup(Dispatched(table, msgs).picks, g), |table[g].workerIds|;
    DealIsEven(n, size, k);
    DealIsEven(n, size, j);
  }

  /** Each message goes to a worker of the group its type belongs to. */
  lemma {:induction false} PicksLand(table: Table, msgs: seq<MsgType>, i: nat)
    requires Ready(table) && i < |msgs|
    ensures var p := Dispatched(table, msgs).picks[i];
            && p.group == (if msgs[i] in table then msgs[i] else DEFAULT_TYPE)
            && p.index < |table[p.group].workerIds| && p.worker == table[p.group].workerIds[p.index]
  {
    if i < |msgs| - 1 {
      PicksLand(table, msgs[..|msgs| - 1], i);
    }
  }

  /** How many of these messages belong to a group. */
  function Through(table: Table, msgs: seq<MsgType>, g: MsgType): nat {
    if msgs == [] then 0
    else
      var t := msgs[|msgs| - 1];
      Through(table, msgs[..|msgs| - 1], g) + if g == (if t in table then t else DEFAULT_TYPE) then 1 else 0
  }

  lemma {:induction false} OfGroupIsThrough(table: Table, msgs: seq<MsgType>, g: MsgType)
    requires Ready(table)
    ensures OfGroup(Dispatched(table, msgs).picks, g) == Through(table, msgs, g)
  {
    if msgs != [] {
      OfGroupIsThrough(table, msgs[..|msgs| - 1], g);
    }
  }

  predicate IsTurnOf(table: Table, before: seq<MsgType>, g: MsgType, index: nat) {
    g in table && table[g].workerIds != [] && index == Through(table, before, g) % |table[g].workerIds|
  }

  /** Message `i` goes to the worker whose turn it is: the number of earlier messages of its group, modulo the group's
      size. */
  lemma {:induction false} PickedInTurn(table: Table, msgs: seq<MsgType>, i: nat)
    requires Ready(table) && Fresh(table) && i < |msgs|
    ensures var p := Dispatched(table, msgs).picks[i];
            IsTurnOf(table, msgs[..i], p.group, p.index)
  {
    var n := |msgs| - 1;
    if i < n {
      PickedInTurn(table, msgs[..n], i);
      assert msgs[..n][..i] == msgs[..i];
    } else {
      CursorIsTurn(table, msgs[..n], GroupFor(table, msgs[i]));
    }
  }

  lemma CursorIsTurn(table: Table, msgs: seq<MsgType>, g: MsgType)
    requires Ready(table) && Fresh(table) && g in table
    ensures IsTurnOf(table, msgs, g, Dispatched(table, msgs).table[g].cursor)
  {
    RoundRobin(table, msgs, g, 0);
    OfGroupIsThrough(table, msgs, g);
    DealIsEven(Through(table, msgs, g), |table[g].workerIds|, 0);
  }

  /** A configured server is ready for any message. */
  lemma ConfiguredIsReady(workers: seq<Worker>, lanes: seq<Lane>, table: Table)
    requires Distinct(workers) && workers != [] && Configured(workers, lanes, table)
    ensures Ready(table) && Fresh(table)
  {
    DefaultIsApart(workers, lanes);
    forall t | t in table
      ensures table[t].cursor == 0 && |table[t].workerIds| > 0
    {
      if t != DEFAULT_TYPE {
        SlicesInRange(workers, lanes, LaneOf(lanes, |lanes|, t).value);
      }
    }
  }

  // ---- the code as it runs ----------------------------------------------------------------------

  class Dispatcher {
    const workerIds: seq<Worker>
    var msgTyp2WkIdGrp: Table

    constructor (workers: seq<Worker>)
      ensures workerIds == workers && msgTyp2WkIdGrp == map[]
    {
      workerIds := workers;
      msgTyp2WkIdGrp := map[];
    }

    method EnterLane(table: Table, lane: Lane, g: Group) returns (r: Table)
      ensures r == Enter(table, lane.msgTypes, g)
    {
      r := table;
      for j := 0 to |lane.msgTypes|
        invariant r == Enter(table, lane.msgTypes[..j], g)
      {
        assert lane.msgTypes[..j + 1][..j] == lane.msgTypes[..j];
        r := r[lane.msgTypes[j] := g];
      }
      assert lane.msgTypes[..|lane.msgTypes|] == lane.msgTypes;
    }

    method EnterLanes(lanes: seq<Lane>) returns (r: Table, pos: nat)
      requires Divided(workerIds, lanes)
      ensures pos == First(lanes, |lanes|) && LaneTable(workerIds, lanes, |lanes|, r)
    {
      r, pos := map[], 0;
      for i := 0 to |lanes|
        invariant pos == First(lanes, i) && LaneTable(workerIds, lanes, i, r)
      {
        SlicesInRange(workerIds, lanes, i);
        TakenNext(lanes, i);
        LaneTableNext(workerIds, lanes, i, r);
        if |lanes[i].msgTypes| > 0 && lanes[i].threads != 0 {
          var slice := workerIds[pos..pos + lanes[i].threads];
          pos := pos + lanes[i].threads;
          r := EnterLane(r, lanes[i], Group(slice, 0));
        }
      }
    }

    /** `configSwimlanes` */
    method ConfigSwimlanes(lanes: seq<Lane>)
      requires workerIds != []
      modifies this
      ensures Configured(workerIds, lanes, msgTyp2WkIdGrp)
    {
      var totalNeed := 0;
      for i := 0 to |lanes|
        invariant totalNeed == TotalNeed(lanes[..i])
      {
        assert lanes[..i + 1][..i] == lanes[..i];
        totalNeed := totalNeed + lanes[i].threads;
      }
      assert lanes[..|lanes|] == lanes;
      var table, pos := map[], 0;
      if totalNeed < |workerIds| {
        table, pos := EnterLanes(lanes);
        DefaultLast(workerIds, lanes, table);
      }
      msgTyp2WkIdGrp := table[DEFAULT_TYPE := Group(workerIds[pos..], 0)];
    }

    /** `dispatchMsg`, up to the choice of the worker's queue. */
    method DispatchMsg(msgType: MsgType) returns (wkId: Worker)
      requires Ready(msgTyp2WkIdGrp)
      modifies this
      ensures Ready(msgTyp2WkIdGrp) && msgTyp2WkIdGrp == Advance(old(msgTyp2WkIdGrp), msgType)
      ensures wkId == Turn(old(msgTyp2WkIdGrp), msgType).worker
      ensures var t := if msgType in old(msgTyp2WkIdGrp) then msgType else DEFAULT_TYPE;
              var g := old(msgTyp2WkIdGrp)[t];
              && wkId == g.workerIds[g.cursor]
              && msgTyp2WkIdGrp == old(msgTyp2WkIdGrp)[t := g.(cursor := if g.cursor + 1 == |g.workerIds| then 0
                                                                         else g.cursor + 1)]
    {
      var t := if msgType in msgTyp2WkIdGrp then msgType else DEFAULT_TYPE;
      var g := msgTyp2WkIdGrp[t];
      wkId := g.workerIds[g.cursor];
      var next := g.cursor + 1;
      if next == |g.workerIds| {
        next := 0;
      }
      msgTyp2WkIdGrp := msgTyp2WkIdGrp[t := g.(cursor := next)];
    }
  }
}
