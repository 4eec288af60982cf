/** The timer thread: a tick counter that starts over after its largest slot, and a list of jobs for each slot that is
    rotated on every firing. */
module TimerWheel {
  import opened Arith

  datatype TickUnit = TenMilliSec | Second | TenSecond | Minute

  function Slots(unit: TickUnit): seq<nat> {
    match unit
    case TenMilliSec => [1, 2, 3, 5, 10, 20, 30, 50, 100]
    case Second => [1, 2, 3, 5, 10, 15, 20, 30, 60]
    case TenSecond => [1, 2, 3, 6, 9, 12, 18, 30, 60]
    case Minute => [1, 2, 3, 5, 10, 15, 20, 30, 60]
  }

  // ---- when a slot fires ------------------------------------------------------------------------

  /** What the counter shows when the `t`-th tick is served, on a wheel that resets at `wheel`. */
  function Shown(wheel: nat, t: nat): nat
    requires wheel > 0 && t > 0
  {
    (t - 1) % wheel + 1
  }

  predicate Fires(wheel: nat, slot: nat, t: nat)
    requires wheel > 0 && slot > 0 && t > 0
  {
    Shown(wheel, t) % slot == 0
  }

  /** A slot that is honest: it fires at exactly the multiples of its length. */
  ghost predicate Honest(wheel: nat, slot: nat)
    requires wheel > 0 && slot > 0
  {
    forall t: nat :: t > 0 ==> (Fires(wheel, slot, t) <==> t % slot == 0)
  }

  lemma ModShift(x: nat, k: nat, d: nat)
    requires d > 0
    ensures (x + k * d) % d == x % d
  {
    assert x + k * d == (x / d + k) * d + x % d;
    DivUnique(x + k * d, d, x / d + k, x % d);
  }

  /** A wheel whose length the slot divides keeps the slot's phase for ever. */
  lemma DividingSlot(wheel: nat, slot: nat, t: nat)
    requires wheel > 0 && slot > 0 && t > 0 && wheel % slot == 0
    ensures Fires(wheel, slot, t) <==> t % slot == 0
  {
    var q, k := (t - 1) / wheel, wheel / slot;
    var shown := Shown(wheel, t);
    assert wheel == k * slot;
    assert t == shown + q * wheel;
    assert q * wheel == (q * k) * slot by {
      TripleProduct(q, k, slot);
    }
    ModShift(shown, q * k, slot);
  }

  lemma TripleProduct(a: nat, b: nat, c: nat)
    ensures a * (b * c) == (a * b) * c
  {
  }

  /** One that does not divide it is caught out: just after the first reset if it is short, at its own length if it is
      longer than the wheel. */
  lemma OddSlot(wheel: nat, slot: nat)
    requires wheel > 0 && slot > 0 && wheel % slot != 0
    ensures var t := if slot <= wheel then wheel + slot else slot;
            Fires(wheel, slot, t) != (t % slot == 0)
  {
    if slot <= wheel {
      ModAdd(slot - 1, wheel);
      DivUnique(slot - 1, wheel, 0, slot - 1);
      DivUnique(slot, slot, 1, 0);
      ModAdd(wheel, slot);
    } else {
      DivUnique(slot, slot, 1, 0);
      var shown := Shown(wheel, slot);
      DivUnique(shown, slot, 0, shown);
    }
  }

  /** The exact condition: a slot fires at the multiples of its length, for ever, if and only if its length divides the
      wheel's. */
  lemma HonestExactly(wheel: nat, slot: nat)
    requires wheel > 0 && slot > 0
    ensures Honest(wheel, slot) <==> wheel % slot == 0
  {
    if wheel % slot == 0 {
      forall t: nat | t > 0
        ensures Fires(wheel, slot, t) <==> t % slot == 0
      {
        DividingSlot(wheel, slot, t);
      }
    } else {
      OddSlot(wheel, slot);
    }
  }

  function Wheel(unit: TickUnit): nat {
    if unit == TenMilliSec then 100 else 60
  }

  lemma DividingSlots(unit: TickUnit, slot: nat)
    requires slot in Slots(unit)
    ensures slot > 0 && Wheel(unit) == Slots(unit)[|Slots(unit)| - 1]
    ensures Wheel(unit) % slot == 0 <==>
            !(unit == TenMilliSec && (slot == 3 || slot == 30)) && !(unit == TenSecond && (slot == 9 || slot == 18))
  {
    match unit
    case TenMilliSec =>
    case Second =>
    case TenSecond =>
    case Minute =>
  }

  /** Which of the offered slots keep their word. */
  lemma HonestSlots(unit: TickUnit, slot: nat)
    requires slot in Slots(unit)
    ensures slot > 0
    ensures Honest(Wheel(unit), slot) <==>
            !(unit == TenMilliSec && (slot == 3 || slot == 30)) && !(unit == TenSecond && (slot == 9 || slot == 18))
  {
    DividingSlots(unit, slot);
    HonestExactly(Wheel(unit), slot);
  }

  // ---- the thread's loop ------------------------------------------------------------------------

  datatype Firing = Firing(tick: nat, slot: nat)

  /** The slots that fire at one tick, in the table's order. */
  function FiredAt(slots: seq<nat>, wheel: nat, t: nat): seq<Firing>
    requires wheel > 0 && t > 0 && forall i :: 0 <= i < |slots| ==> slots[i] > 0
  {
    if slots == [] then []
    else
      var before := FiredAt(slots[..|slots| - 1], wheel, t);
      if Fires(wheel, slots[|slots| - 1], t) then before + [Firing(t, slots[|slots| - 1])] else before
  }

  function Fired(slots: seq<nat>, wheel: nat, n: nat): seq<Firing>
    requires wheel > 0 && forall i :: 0 <= i < |slots| ==> slots[i] > 0
  {
    if n == 0 then [] else Fired(slots, wheel, n - 1) + FiredAt(slots, wheel, n)
  }

  lemma {:induction false} FiredAtContents(slots: seq<nat>, wheel: nat, t: nat, f: Firing)
    requires wheel > 0 && t > 0 && forall i :: 0 <= i < |slots| ==> slots[i] > 0
    ensures f in FiredAt(slots, wheel, t) <==> f.tick == t && f.slot in slots && Shown(wheel, t) % f.slot == 0
  {
    if slots != [] {
      var n := |slots| - 1;
      FiredAtContents(slots[..n], wheel, t, f);
      assert slots == slots[..n] + [slots[n]];
    }
  }

  /** What fires over `n` ticks: each slot of the table, whenever the counter shows a multiple of it. */
  lemma {:induction false} FiredContents(slots: seq<nat>, wheel: nat, n: nat, f: Firing)
    requires wheel > 0 && forall i :: 0 <= i < |slots| ==> slots[i] > 0
    ensures f in Fired(slots, wheel, n) <==>
            1 <= f.tick <= n && f.slot in slots && Shown(wheel, f.tick) % f.slot == 0
  {
    if n > 0 {
      FiredContents(slots, wheel, n - 1, f);
      FiredAtContents(slots, wheel, n, f);
    }
  }

  predicate Earlier(a: Firing, b: Firing) { a.tick < b.tick || (a.tick == b.tick && a.slot < b.slot) }

  predicate InOrder(log: seq<Firing>) {
    forall i, j :: 0 <= i < j < |log| ==> Earlier(log[i], log[j])
  }

  lemma InOrderAppend(a: seq<Firing>, b: seq<Firing>)
    requires InOrder(a) && InOrder(b)
    requires forall x, y :: x in a && y in b ==> Earlier(x, y)
    ensures InOrder(a + b)
  {
    var log := a + b;
    forall i, j | 0 <= i < j < |log|
      ensures Earlier(log[i], log[j])
    {
      assert log[i] == if i < |a| then a[i] else b[i - |a|];
      assert log[j] == if j < |a| then a[j] else b[j - |a|];
    }
  }

  lemma {:induction false} FiredAtInOrder(slots: seq<nat>, wheel: nat, t: nat)
    requires wheel > 0 && t > 0 && forall i :: 0 <= i < |slots| ==> slots[i] > 0
    requires forall i, j :: 0 <= i < j < |slots| ==> slots[i] < slots[j]
    ensures InOrder(FiredAt(slots, wheel, t))
  {
    if slots != [] {
      var n := |slots| - 1;
      var before := FiredAt(slots[..n], wheel, t);
      FiredAtInOrder(slots[..n], wheel, t);
      forall x | x in before
        ensures Earlier(x, Firing(t, slots[n]))
      {
        FiredAtContents(slots[..n], wheel, t, x);
      }
      InOrderAppend(before, [Firing(t, slots[n])]);
    }
  }

  /** On a table in ascending order every firing happens once, tick by tick and the shorter slots first. */
  lemma {:induction false} FiredInOrder(slots: seq<nat>, wheel: nat, n: nat)
    requires wheel > 0 && forall i :: 0 <= i < |slots| ==> slots[i] > 0
    requires forall i, j :: 0 <= i < j < |slots| ==> slots[i] < slots[j]
    ensures InOrder(Fired(slots, wheel, n))
  {
    if n > 0 {
      FiredInOrder(slots, wheel, n - 1);
      FiredAtInOrder(slots, wheel, n);
      forall x, y | x in Fired(slots, wheel, n - 1) && y in FiredAt(slots, wheel, n)
        ensures Earlier(x, y)
      {
        FiredContents(slots, wheel, n - 1, x);
        FiredAtContents(slots, wheel, n, y);
      }
      InOrderAppend(Fired(slots, wheel, n - 1), FiredAt(slots, wheel, n));
    }
  }

  method TickOnce(slots: seq<nat>, wheel: nat, tick: nat, ghost t: nat) returns (fired: seq<nat>)
    requires wheel > 0 && t > 0 && tick == Shown(wheel, t) && forall i :: 0 <= i < |slots| ==> slots[i] > 0
    ensures |fired| == |FiredAt(slots, wheel, t)|
    ensures forall i :: 0 <= i < |fired| ==> FiredAt(slots, wheel, t)[i] == Firing(t, fired[i])
  {
    fired := [];
    var i := 0;
    while i < |slots|
      invariant i <= |slots| && |fired| == |FiredAt(slots[..i], wheel, t)|
      invariant forall j :: 0 <= j < |fired| ==> FiredAt(slots[..i], wheel, t)[j] == Firing(t, fired[j])
    {
      assert slots[..i + 1][..i] == slots[..i];
      if tick % slots[i] == 0 {
        fired := fired + [slots[i]];
      }
      i := i + 1;
    }
    assert slots[..|slots|] == slots;
  }

  lemma NextShown(wheel: nat, t: nat)
    requires wheel > 0 && t > 0
    ensures Shown(wheel, t + 1) == if Shown(wheel, t) == wheel then 1 else Shown(wheel, t) + 1
  {
    DivModNext(t - 1, wheel);
  }

  /** The loop of the timer thread over `n` ticks, never stopped: a counter that is reset, and yet the firings are
      those of the closed form. */
  method TimerProc(slots: seq<nat>, n: nat) returns (log: seq<Firing>)
    requires slots != [] && forall i :: 0 <= i < |slots| ==> slots[i] > 0
    ensures log == Fired(slots, slots[|slots| - 1], n)
  {
    var wheel := slots[|slots| - 1];
    var tick := 0;
    log := [];
    for t := 0 to n
      invariant log == Fired(slots, wheel, t)
      invariant tick < wheel && tick + 1 == Shown(wheel, t + 1)
    {
      tick := tick + 1;
      var fired := TickOnce(slots, wheel, tick, t + 1);
      log := log + seq(|fired|, i requires 0 <= i < |fired| => Firing(t + 1, fired[i]));
      NextShown(wheel, t + 1);
      if tick == wheel {
        tick := 0;
      }
    }
  }

  // ---- a firing ---------------------------------------------------------------------------------

  /** The jobs whose call returned true, in order. */
  function Kept<J>(jobs: seq<J>, again: seq<bool>): seq<J>
    requires |jobs| == |again|
  {
    if jobs == [] then []
    else
      var n := |jobs| - 1;
      Kept(jobs[..n], again[..n]) + if again[n] then [jobs[n]] else []
  }

  /** Nothing but the dropped jobs is lost. */
  lemma {:induction false} KeptContents<J>(jobs: seq<J>, again: seq<bool>, x: J)
    requires |jobs| == |again|
    ensures x in Kept(jobs, again) <==> exists i :: 0 <= i < |jobs| && jobs[i] == x && again[i]
  {
    if jobs != [] {
      var n := |jobs| - 1;
      KeptContents(jobs[..n], again[..n], x);
      if i :| 0 <= i < n && jobs[i] == x && again[i] {
        assert jobs[..n][i] == x && again[..n][i];
      }
    }
  }

  /** The kept jobs stay in order: what is kept of a list is what is kept of its two parts. */
  lemma {:induction false} KeptConcat<J>(a: seq<J>, again: seq<bool>, b: seq<J>, againB: seq<bool>)
    requires |a| == |again| && |b| == |againB|
    ensures Kept(a + b, again + againB) == Kept(a, again) + Kept(b, againB)
    ensures forall x: J :: Kept([x], [true]) == [x] && Kept([x], [false]) == []
  {
    if b == [] {
      assert a + b == a && again + againB == again;
    } else {
      var n := |b| - 1;
      KeptConcat(a, again, b[..n], againB[..n]);
      assert (a + b)[..|a + b| - 1] == a + b[..n] && (again + againB)[..|a + b| - 1] == again + againB[..n];
    }
  }

  lemma KeptNext<J>(jobs: seq<J>, again: seq<bool>, i: nat)
    requires |jobs| == |again| && i < |jobs|
    ensures Kept(jobs[..i + 1], again[..i + 1]) == Kept(jobs[..i], again[..i]) + if again[i] then [jobs[i]] else []
  {
    assert jobs[..i + 1][..i] == jobs[..i] && again[..i + 1][..i] == again[..i];
  }

  lemma Rotated<J>(jobs: seq<J>, i: nat, kept: seq<J>)
    requires i < |jobs|
    ensures (jobs[i..] + kept)[0] == jobs[i] && (jobs[i..] + kept)[1..] == jobs[i + 1..] + kept
    ensures jobs[i + 1..] + kept + [jobs[i]] == jobs[i + 1..] + (kept + [jobs[i]])
    ensures jobs[..i] + [jobs[i]] == jobs[..i + 1]
  {
  }

  /** The key an interval is filed under; every offered slot is its own. */
  function SlotKey(interval: int): (slot: nat)
    ensures 0 <= interval < 0x1_0000 ==> slot == interval
  {
    interval % 0x1_0000
  }

  class TimerHelper<J> {
    var timerTasks: map<nat, seq<J>>

    constructor ()
      ensures timerTasks == map[]
    {
      timerTasks := map[];
    }

    function Tasks(slot: nat): seq<J>
      reads this
    {
      if slot in timerTasks then timerTasks[slot] else []
    }

    /** The table is keyed by unsigned shorts, so an interval is taken modulo 2^16. */
    method AddTimerTask(interval: int, job: J)
      modifies this
      ensures Tasks(SlotKey(interval)) == old(Tasks(SlotKey(interval))) + [job]
      ensures forall s: nat :: s != SlotKey(interval) ==> Tasks(s) == old(Tasks(s))
    {
      var slot := SlotKey(interval);
      timerTasks := timerTasks[slot := Tasks(slot) + [job]];
    }

    /** `onTicks`: `again` is what the calls return, and the stop flag is seen before call `stopAt`. Each job
        already queued is called once, in order, until then; those that returned true follow the ones not reached. */
    method OnTicks(slot: nat, again: seq<bool>, stopAt: nat) returns (called: seq<J>)
      requires |again| == |Tasks(slot)|
      modifies this
      ensures var jobs := old(Tasks(slot)); var k := if stopAt < |jobs| then stopAt else |jobs|;
              && called == jobs[..k]
              && Tasks(slot) == jobs[k..] + Kept(jobs[..k], again[..k])
      ensures stopAt >= |again| ==> called == old(Tasks(slot)) && Tasks(slot) == Kept(old(Tasks(slot)), again)
      ensures forall s: nat :: s != slot ==> Tasks(s) == old(Tasks(s))
    {
      ghost var jobs := Tasks(slot);
      var list := Tasks(slot);
      var size, i := |list|, 0;
      called := [];
      while i < size && i != stopAt
        invariant timerTasks == old(timerTasks)
        invariant i <= size == |jobs| && i <= stopAt
        invariant called == jobs[..i]
        invariant list == jobs[i..] + Kept(jobs[..i], again[..i])
      {
        var job := list[0];
        KeptNext(jobs, again, i);
        Rotated(jobs, i, Kept(jobs[..i], again[..i]));
        list := list[1..];
        called := called + [job];
        if again[i] {
          list := list + [job];
        }
        i := i + 1;
      }
      assert jobs[..size] == jobs && again[..size] == again && jobs[size..] == [];
      timerTasks := timerTasks[slot := list];
    }
  }
}
