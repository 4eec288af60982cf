/** The pending-request tables: sixteen maps, an id in the one its low four bits name, each under a lock of
    its own. Cleanup visits the shards one after the other, so other operations run in between. */
module Sharding {
  import opened Wrappers

  const SHARDS: nat := 16

  /** A request's context with the user it holds weakly. */
  datatype Ctx<H> = Ctx(user: nat, header: H)

  /** A context taken out of the table, with the reply data it is to be answered with. */
  datatype Taken<H, D> = Taken(ctx: Ctx<H>, data: D)

  /** A message posted to a user: a response made from a request header, and its data. */
  datatype Reply<H, D> = Reply(user: nat, header: H, data: D)

  type Table<H> = map<nat, Ctx<H>>

  /** `id & 15` */
  function ShardOf(id: nat): nat { id % SHARDS }

  lemma MaskIsRemainder(id: bv64)
    ensures id & 15 == id % 16
  {
  }

  // ---- one flat table ---------------------------------------------------------------------------

  /** `insert`: an id already there keeps its entry. */
  function Insert<H>(m: Table<H>, id: nat, c: Ctx<H>): Table<H> {
    if id in m then m else m[id := c]
  }

  function Find<H>(m: Table<H>, id: nat): Option<Ctx<H>> {
    if id in m then Some(m[id]) else None
  }

  predicate Stale<H>(c: Ctx<H>, user: nat, gone: set<nat>) {
    c.user in gone || c.user == user
  }

  /** The entries of users other than this one that are not gone, unchanged, and no others. */
  ghost predicate Survivors<H>(m: Table<H>, m': Table<H>, user: nat, gone: set<nat>) {
    && (forall id :: id in m' <==> id in m && m[id].user != user && m[id].user !in gone)
    && (forall id :: id in m' ==> m'[id] == m[id])
  }

  /** What is left once a user's entries, and those of users already gone, are erased. */
  function Kept<H>(m: Table<H>, user: nat, gone: set<nat>): Table<H> {
    map id | id in m && !Stale(m[id], user, gone) :: m[id]
  }

  /** The same, in one shard only. */
  function KeptShard<H>(m: Table<H>, k: nat, user: nat, gone: set<nat>): Table<H> {
    map id | id in m && !(ShardOf(id) == k && Stale(m[id], user, gone)) :: m[id]
  }

  datatype Op<H> =
    | Save(id: nat, ctx: Ctx<H>)
    | Take(id: nat)
    | Clean(k: nat, user: nat, gone: set<nat>)

  function FlatStep<H>(m: Table<H>, op: Op<H>): Table<H> {
    match op
    case Save(id, c) => Insert(m, id, c)
    case Take(id) => m - {id}
    case Clean(k, user, gone) => KeptShard(m, k, user, gone)
  }

  /** An operation that takes an entry out: taking it, or cleaning its shard when its user is the one or is gone. */
  predicate Removes<H>(op: Op<H>, id: nat, c: Ctx<H>) {
    || (op.Take? && op.id == id)
    || (op.Clean? && op.k == id % 16 && (c.user == op.user || c.user in op.gone))
  }

  /** An entry stays as it was saved, whatever else is done, until something removes it ... */
  lemma {:induction false} EntryStays<H>(m: Table<H>, id: nat, c: Ctx<H>, ops: seq<Op<H>>)
    requires Find(m, id) == Some(c) && forall i :: 0 <= i < |ops| ==> !Removes(ops[i], id, c)
    ensures Find(FlatRun(m, ops), id) == Some(c)
    decreases |ops|
  {
    if ops != [] {
      assert !Removes(ops[0], id, c);
      assert forall i :: 0 <= i < |ops[1..]| ==> ops[1..][i] == ops[i + 1];
      EntryStays(FlatStep(m, ops[0]), id, c, ops[1..]);
    }
  }

  /** ... and is gone then; an id without an entry has none until one is saved under it. */
  lemma EntryChanges<H>(m: Table<H>, id: nat, op: Op<H>)
    ensures id in m && Removes(op, id, m[id]) ==> Find(FlatStep(m, op), id) == None
    ensures id !in m ==> Find(FlatStep(m, op), id) == if op.Save? && op.id == id then Some(op.ctx) else None
  {
  }

  // ---- sixteen shards ---------------------------------------------------------------------------

  type Shards<H> = s: seq<Table<H>> | |s| == SHARDS witness seq(SHARDS, _ => map[])

  function NoEntries<H>(): Shards<H> { seq(SHARDS, _ => map[]) }

  function ShardStep<H>(s: Shards<H>, op: Op<H>): Shards<H> {
    match op
    case Save(id, c) => s[ShardOf(id) := Insert(s[ShardOf(id)], id, c)]
    case Take(id) => s[ShardOf(id) := s[ShardOf(id)] - {id}]
    case Clean(k, user, gone) => if k < SHARDS then s[k := Kept(s[k], user, gone)] else s
  }

  /** Every id lives in its own shard only, and the shards together hold what the flat table holds. */
  ghost predicate Refines<H(!new)>(s: Shards<H>, m: Table<H>) {
    && (forall k, id :: 0 <= k < SHARDS && id in s[k] ==> k == ShardOf(id))
    && (forall id :: Find(s[ShardOf(id)], id) == Find(m, id))
  }

  lemma RefinesStep<H(!new)>(s: Shards<H>, m: Table<H>, op: Op<H>)
    requires Refines(s, m)
    ensures Refines(ShardStep(s, op), FlatStep(m, op))
  {
    var s', m' := ShardStep(s, op), FlatStep(m, op);
    forall id: nat
      ensures Find(s'[ShardOf(id)], id) == Find(m', id)
    {
      assert Find(s[ShardOf(id)], id) == Find(m, id);
    }
  }

  function ShardRun<H>(s: Shards<H>, ops: seq<Op<H>>): Shards<H>
    decreases |ops|
  {
    if ops == [] then s else ShardRun(ShardStep(s, ops[0]), ops[1..])
  }

  function FlatRun<H>(m: Table<H>, ops: seq<Op<H>>): Table<H>
    decreases |ops|
  {
    if ops == [] then m else FlatRun(FlatStep(m, ops[0]), ops[1..])
  }

  lemma {:induction false} RunRefines<H(!new)>(s: Shards<H>, m: Table<H>, ops: seq<Op<H>>)
    requires Refines(s, m)
    ensures Refines(ShardRun(s, ops), FlatRun(m, ops))
    decreases |ops|
  {
    if ops != [] {
      RefinesStep(s, m, ops[0]);
      RunRefines(ShardStep(s, ops[0]), FlatStep(m, ops[0]), ops[1..]);
    }
  }

  /** Sixteen shards behave like one table: after any sequence of operations, from empty, every id is found in
      the shards exactly when, and as, it is found in the flat table. */
  lemma ShardsAreOneTable<H(!new)>(ops: seq<Op<H>>, id: nat)
    ensures var s: Shards<H> := ShardRun(NoEntries(), ops); var m := FlatRun(map[], ops);
            && Find(s[ShardOf(id)], id) == Find(m, id)
            && forall k :: 0 <= k < SHARDS && k != ShardOf(id) ==> id !in s[k]
  {
    var empty: Shards<H> := NoEntries();
    var none: Table<H> := map[];
    assert Refines(empty, none);
    RunRefines(empty, none, ops);
  }

  // ---- the code's table -------------------------------------------------------------------------

  /** Only the entry under `id`, in its own shard, is different, and now is `c`. */
  ghost predicate OnlyEntry<H>(s: seq<Table<H>>, t: seq<Table<H>>, id: nat, c: Option<Ctx<H>>)
  {
    && |s| == SHARDS && |t| == SHARDS
    && Find(t[id % 16], id) == c
    && (forall k :: 0 <= k < SHARDS && k != id % 16 ==> t[k] == s[k])
    && (forall other :: other != id ==> Find(t[id % 16], other) == Find(s[id % 16], other))
  }

  class PendingTable<H> {
    var shards: seq<Table<H>>

    ghost predicate Valid()
      reads this
    {
      |shards| == SHARDS
    }

    constructor ()
      ensures Valid() && shards == NoEntries()
    {
      shards := NoEntries();
    }

    method SaveReq(id: nat, c: Ctx<H>)
      requires Valid()
      modifies this
      ensures id in old(shards)[id % 16] ==> shards == old(shards)
      ensures id !in old(shards)[id % 16] ==> OnlyEntry(old(shards), shards, id, Some(c))
      ensures Valid() && shards == ShardStep(old(shards), Save(id, c))
    {
      var k := ShardOf(id);
      if id !in shards[k] {
        var m: Table<H> := shards[k][id := c];
        shards := shards[k := m];
      }
    }

    method TakeReq(id: nat) returns (r: Option<Ctx<H>>)
      requires Valid()
      modifies this
      ensures id in old(shards)[id % 16] ==>
                r == Some(old(shards)[id % 16][id]) && OnlyEntry(old(shards), shards, id, None)
      ensures id !in old(shards)[id % 16] ==> r == None && shards == old(shards)
      ensures Valid() && shards == ShardStep(old(shards), Take(id))
    {
      var k := ShardOf(id);
      r := None;
      if id in shards[k] {
        r := Some(shards[k][id]);
        var m: Table<H> := shards[k] - {id};
        shards := shards[k := m];
      } else {
        assert shards[k] - {id} == shards[k];
        assert shards[k := shards[k]] == shards;
      }
    }

    method CleanShard(k: nat, user: nat, gone: set<nat>)
      requires Valid() && k < SHARDS
      modifies this
      ensures Valid() && shards == ShardStep(old(shards), Clean(k, user, gone))
    {
      var m := EraseStale(shards[k], user, gone);
      shards := shards[k := m];
    }

    /** All shards in turn: every entry of the user, and of users already gone, is erased, and no other. */
    method Cleanup(user: nat, gone: set<nat>)
      requires Valid()
      modifies this
      ensures Valid() && shards == ShardRun(old(shards), CleanOps(user, gone, SHARDS))
      ensures forall k :: 0 <= k < SHARDS ==> Survivors(old(shards)[k], shards[k], user, gone)
      ensures forall k :: 0 <= k < SHARDS ==> shards[k] == Kept(old(shards)[k], user, gone)
    {
      for k := 0 to SHARDS
        invariant Valid() && shards == ShardRun(old(shards), CleanOps(user, gone, k))
        invariant forall j :: 0 <= j < k ==> shards[j] == Kept(old(shards)[j], user, gone)
        invariant forall j :: k <= j < SHARDS ==> shards[j] == old(shards)[j]
      {
        ShardRunSnoc(old(shards), CleanOps(user, gone, k), Clean(k, user, gone));
        CleanShard(k, user, gone);
      }
    }
  }

  /** One shard's loop: erasing while iterating. */
  method EraseStale<H>(shard: Table<H>, user: nat, gone: set<nat>) returns (m: Table<H>)
    ensures Survivors(shard, m, user, gone)
    ensures m == Kept(shard, user, gone)
  {
    m := shard;
    var unseen := m.Keys;
    while unseen != {}
      invariant unseen <= m.Keys <= shard.Keys
      invariant forall id :: id in m ==> m[id] == shard[id]
      invariant forall id :: id in shard && id !in unseen ==> (id in m <==> !Stale(shard[id], user, gone))
      decreases unseen
    {
      var id :| id in unseen;
      unseen := unseen - {id};
      if Stale(m[id], user, gone) {
        m := m - {id};
      }
    }
  }

  /** A cleanup as the operations it is made of. */
  function CleanOps<H>(user: nat, gone: set<nat>, n: nat): seq<Op<H>> {
    if n == 0 then [] else CleanOps(user, gone, n - 1) + [Clean(n - 1, user, gone)]
  }

  lemma {:induction false} ShardRunSnoc<H>(s: Shards<H>, ops: seq<Op<H>>, op: Op<H>)
    ensures ShardRun(s, ops + [op]) == ShardStep(ShardRun(s, ops), op)
    decreases |ops|
  {
    if ops == [] {
      assert ops + [op] == [op] && [op][1..] == [];
    } else {
      assert (ops + [op])[1..] == ops[1..] + [op];
      ShardRunSnoc(ShardStep(s, ops[0]), ops[1..], op);
    }
  }

  lemma {:induction false} FlatRunSnoc<H>(m: Table<H>, ops: seq<Op<H>>, op: Op<H>)
    ensures FlatRun(m, ops + [op]) == FlatStep(FlatRun(m, ops), op)
    decreases |ops|
  {
    if ops == [] {
      assert ops + [op] == [op] && [op][1..] == [];
    } else {
      assert (ops + [op])[1..] == ops[1..] + [op];
      FlatRunSnoc(FlatStep(m, ops[0]), ops[1..], op);
    }
  }

  /** A cleanup nothing interferes with is one filter of the flat table. */
  lemma {:induction false} CleanupFilters<H>(m: Table<H>, user: nat, gone: set<nat>, n: nat)
    requires n <= SHARDS
    ensures FlatRun(m, CleanOps(user, gone, n))
         == map id | id in m && !(ShardOf(id) < n && Stale(m[id], user, gone)) :: m[id]
    ensures n == SHARDS ==> FlatRun(m, CleanOps(user, gone, n)) == Kept(m, user, gone)
  {
    if n > 0 {
      CleanupFilters(m, user, gone, n - 1);
      FlatRunSnoc(m, CleanOps(user, gone, n - 1), Clean(n - 1, user, gone));
    }
  }
}
