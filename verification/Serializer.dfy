/** The serializer object: one output stream that every `Serialize` call appends to and one input
    buffer that every `Deserialize` call eats from the front of. Each method is proved against the
    format of its type in `Codec`, whose prefix law then says what a serialize/deserialize pair does. */
module Serializer {
  import opened Bytes
  import opened Codec

  class SerializeHelper {
    var out: Bytes
    var buf: Bytes

    constructor (buffer: Bytes)
      ensures out == [] && buf == buffer
    {
      out, buf := [], buffer;
    }

    // ---- integers -------------------------------------------------------------------------------

    method SerializeUint(width: nat, v: nat)
      modifies this`out
      ensures out == old(out) + BE(width, v)
    {
      out := out + BE(width, v);
    }

    method DeserializeUint(width: nat) returns (v: nat)
      modifies this`buf
      ensures (v, buf) == GetUint(width, old(buf))
    {
      if |buf| < width { return 0; }
      v, buf := Val(buf[..width]), buf[width..];
    }

    /** Written as two 32-bit words, high word first. */
    method SerializeU64(v: u64)
      modifies this`out
      ensures out == old(out) + BE(8, v)
    {
      BE8Halves(v);
      SerializeUint(4, v / 0x1_0000_0000);
      SerializeUint(4, v);
      Assoc(old(out), BE(4, v / 0x1_0000_0000), BE(4, v));
    }

    /** Checks for all eight bytes first, then reads two 32-bit words. */
    method DeserializeU64() returns (v: u64)
      modifies this`buf
      ensures (v, buf) == GetUint(8, old(buf))
    {
      if |buf| < 8 { return 0; }
      ghost var s := buf;
      var high := DeserializeUint(4);
      var low := DeserializeUint(4);
      assert s[4..][..4] == s[4..8] && s[..4] + s[4..8] == s[..8] && s[4..][4..] == s[8..];
      ValConcat(s[..4], s[4..8]);
      assert Pow256(4) == 0x1_0000_0000;
      v := high * 0x1_0000_0000 + low;
    }

    method SerializeBool(b: bool)
      modifies this`out
      ensures out == old(out) + BoolEnc(b)
    {
      SerializeUint(1, if b then 1 else 0);
    }

    method DeserializeBool() returns (b: bool)
      modifies this`buf
      ensures (b, buf) == BoolDec(old(buf))
    {
      var v := DeserializeUint(1);
      b := v == 1;
    }

    // ---- strings and nested lists ---------------------------------------------------------------

    method SerializeStr(x: Bytes)
      modifies this`out
      ensures out == old(out) + StrEnc(x)
    {
      SerializeUint(4, |x|);
      out := out + x;
      Assoc(old(out), BE(4, |x|), x);
    }

    method DeserializeStr() returns (x: Bytes)
      modifies this`buf
      ensures (x, buf) == StrDec(old(buf))
    {
      var size := DeserializeUint(4);
      if |buf| < size { return []; }
      x, buf := buf[..size], buf[size..];
    }

    method SerializeRow(row: DataRow)
      modifies this`out
      ensures out == old(out) + ListEnc(StrC(), row)
    {
      SerializeUint(4, |row|);
      ghost var base := out;
      AppendNone(StrC(), base);
      for i := 0 to |row|
        invariant out == base + EncAll(StrC(), row[..i])
      {
        SerializeStr(row[i]);
        AppendOne(StrC(), base, row, i);
      }
      AppendAll(StrC(), old(out), row);
    }

    method DeserializeRow() returns (row: DataRow)
      modifies this`buf
      ensures (row, buf) == ListDec(StrC(), false, old(buf))
    {
      row := [];
      var size := DeserializeUint(4);
      NothingYet(StrC(), size, buf);
      for i := 0 to size
        invariant Remaining(StrC(), row, size - i, buf) == ListDec(StrC(), false, old(buf))
      {
        TakeOne(StrC(), row, size - i, buf);
        var x := DeserializeStr();
        row := row + [x];
      }
      NothingLeft(StrC(), row, buf);
    }

    method SerializeTable(table: DataTable)
      modifies this`out
      ensures out == old(out) + ListEnc(RowC(), table)
    {
      SerializeUint(4, |table|);
      ghost var base := out;
      AppendNone(RowC(), base);
      for i := 0 to |table|
        invariant out == base + EncAll(RowC(), table[..i])
      {
        SerializeRow(table[i]);
        AppendOne(RowC(), base, table, i);
      }
      AppendAll(RowC(), old(out), table);
    }

    method DeserializeTable() returns (table: DataTable)
      modifies this`buf
      ensures (table, buf) == ListDec(RowC(), false, old(buf))
    {
      table := [];
      var size := DeserializeUint(4);
      NothingYet(RowC(), size, buf);
      for i := 0 to size
        invariant Remaining(RowC(), table, size - i, buf) == ListDec(RowC(), false, old(buf))
      {
        TakeOne(RowC(), table, size - i, buf);
        var x := DeserializeRow();
        table := table + [x];
      }
      NothingLeft(RowC(), table, buf);
    }

    method SerializeTables(tables: DataTables)
      modifies this`out
      ensures out == old(out) + ListEnc(TableC(), tables)
    {
      SerializeUint(4, |tables|);
      ghost var base := out;
      AppendNone(TableC(), base);
      for i := 0 to |tables|
        invariant out == base + EncAll(TableC(), tables[..i])
      {
        SerializeTable(tables[i]);
        AppendOne(TableC(), base, tables, i);
      }
      AppendAll(TableC(), old(out), tables);
    }

    method DeserializeTables() returns (tables: DataTables)
      modifies this`buf
      ensures (tables, buf) == ListDec(TableC(), false, old(buf))
    {
      tables := [];
      var size := DeserializeUint(4);
      NothingYet(TableC(), size, buf);
      for i := 0 to size
        invariant Remaining(TableC(), tables, size - i, buf) == ListDec(TableC(), false, old(buf))
      {
        TakeOne(TableC(), tables, size - i, buf);
        var x := DeserializeTable();
        tables := tables + [x];
      }
      NothingLeft(TableC(), tables, buf);
    }

    method SerializeFieldsType(fields: FieldsType)
      modifies this`out
      ensures out == old(out) + ListEnc(U32C(), fields)
    {
      SerializeUint(4, |fields|);
      ghost var base := out;
      AppendNone(U32C(), base);
      for i := 0 to |fields|
        invariant out == base + EncAll(U32C(), fields[..i])
      {
        SerializeUint(4, fields[i]);
        AppendOne(U32C(), base, fields, i);
      }
      AppendAll(U32C(), old(out), fields);
    }

    method DeserializeFieldsType() returns (fields: FieldsType)
      modifies this`buf
      ensures (fields, buf) == ListDec(U32C(), false, old(buf))
    {
      fields := [];
      var size := DeserializeUint(4);
      NothingYet(U32C(), size, buf);
      for i := 0 to size
        invariant Remaining(U32C(), fields, size - i, buf) == ListDec(U32C(), false, old(buf))
      {
        TakeOne(U32C(), fields, size - i, buf);
        var x := DeserializeUint(4);
        fields := fields + [x];
      }
      NothingLeft(U32C(), fields, buf);
    }

    method SerializeScoreArray(arr: ScoreArray)
      modifies this`out
      ensures out == old(out) + ListEnc(ScoreC(), arr)
    {
      SerializeUint(4, |arr|);
      ghost var base := out;
      AppendNone(ScoreC(), base);
      for i := 0 to |arr|
        invariant out == base + EncAll(ScoreC(), arr[..i])
      {
        ghost var before := out;
        SerializeU64(arr[i].0);
        SerializeStr(arr[i].1);
        Assoc(before, BE(8, arr[i].0), StrEnc(arr[i].1));
        AppendOne(ScoreC(), base, arr, i);
      }
      AppendAll(ScoreC(), old(out), arr);
    }

    method DeserializeScoreArray() returns (arr: ScoreArray)
      modifies this`buf
      ensures (arr, buf) == ListDec(ScoreC(), false, old(buf))
    {
      arr := [];
      var size := DeserializeUint(4);
      NothingYet(ScoreC(), size, buf);
      for i := 0 to size
        invariant Remaining(ScoreC(), arr, size - i, buf) == ListDec(ScoreC(), false, old(buf))
      {
        TakeOne(ScoreC(), arr, size - i, buf);
        var score := DeserializeU64();
        var x := DeserializeStr();
        arr := arr + [(score, x)];
      }
      NothingLeft(ScoreC(), arr, buf);
    }

    /** `walk` is the map as its iteration yields it: every entry once, in the container's order. */
    method SerializeStringMap(walk: seq<(Bytes, Bytes)>)
      modifies this`out
      ensures out == old(out) + ListEnc(EntryC(), walk)
    {
      SerializeUint(4, |walk|);
      ghost var base := out;
      AppendNone(EntryC(), base);
      for i := 0 to |walk|
        invariant out == base + EncAll(EntryC(), walk[..i])
      {
        ghost var before := out;
        SerializeStr(walk[i].0);
        SerializeStr(walk[i].1);
        Assoc(before, StrEnc(walk[i].0), StrEnc(walk[i].1));
        AppendOne(EntryC(), base, walk, i);
      }
      AppendAll(EntryC(), old(out), walk);
    }

    method DeserializeStringMap() returns (m: StringMap)
      modifies this`buf
      ensures (m, buf) == DecMap(old(buf))
    {
      m := map[];
      var size := DeserializeUint(4);
      for i := 0 to size
        invariant StillToStore(m, size - i, buf) == DecMap(old(buf))
      {
        StoreOne(m, size - i, buf);
        var k := DeserializeStr();
        var v := DeserializeStr();
        m := m[k := v];
      }
    }
  }

  // ---- the loops, one turn at a time ------------------------------------------------------------

  lemma AppendNone<T>(c: Codec<T>, base: Bytes)
    ensures base == base + EncAll(c, [])
  {
  }

  lemma AppendOne<T>(c: Codec<T>, base: Bytes, xs: seq<T>, i: nat)
    requires i < |xs|
    ensures base + EncAll(c, xs[..i]) + c.enc(xs[i]) == base + EncAll(c, xs[..i + 1])
  {
    assert xs[..i] + [xs[i]] == xs[..i + 1];
    EncAllSnoc(c, xs[..i], xs[i]);
    Assoc(base, EncAll(c, xs[..i]), c.enc(xs[i]));
  }

  lemma AppendAll<T>(c: Codec<T>, start: Bytes, xs: seq<T>)
    ensures start + BE(4, |xs|) + EncAll(c, xs[..|xs|]) == start + ListEnc(c, xs)
  {
    assert xs[..|xs|] == xs;
    Assoc(start, BE(4, |xs|), EncAll(c, xs));
  }

  lemma {:induction false} EncAllSnoc<T>(c: Codec<T>, xs: seq<T>, x: T)
    ensures EncAll(c, xs + [x]) == EncAll(c, xs) + c.enc(x)
  {
    if xs == [] {
      assert [x][1..] == [] && EncAll(c, []) == [];
      assert c.enc(x) + [] == c.enc(x) && [] + c.enc(x) == c.enc(x);
      assert xs + [x] == [x];
    } else {
      EncAllSnoc(c, xs[1..], x);
      assert (xs + [x])[1..] == xs[1..] + [x];
      Assoc(c.enc(xs[0]), EncAll(c, xs[1..]), c.enc(x));
    }
  }

  /** What a counted loop will have produced at its end: the elements so far, then those still to come. */
  ghost function Remaining<T>(c: Codec<T>, sofar: seq<T>, n: nat, s: Bytes): (seq<T>, Bytes) {
    var r := DecAll(c, n, s);
    (sofar + r.0, r.1)
  }

  lemma NothingYet<T>(c: Codec<T>, n: nat, s: Bytes)
    ensures Remaining(c, [], n, s) == DecAll(c, n, s)
  {
    assert [] + DecAll(c, n, s).0 == DecAll(c, n, s).0;
  }

  lemma NothingLeft<T>(c: Codec<T>, sofar: seq<T>, s: Bytes)
    ensures Remaining(c, sofar, 0, s) == (sofar, s)
  {
    assert sofar + [] == sofar;
  }

  lemma TakeOne<T>(c: Codec<T>, sofar: seq<T>, n: nat, s: Bytes)
    requires n > 0
    ensures Remaining(c, sofar, n, s) == Remaining(c, sofar + [c.dec(s).0], n - 1, c.dec(s).1)
  {
    var x, rest := c.dec(s).0, DecAll(c, n - 1, c.dec(s).1).0;
    assert sofar + ([x] + rest) == sofar + [x] + rest;
  }

  ghost function StillToStore(m: StringMap, n: nat, s: Bytes): (StringMap, Bytes) {
    var r := DecAll(EntryC(), n, s);
    (Store(m, r.0), r.1)
  }

  lemma StoreOne(m: StringMap, n: nat, s: Bytes)
    requires n > 0
    ensures var r := EntryC().dec(s); StillToStore(m, n, s) == StillToStore(m[r.0.0 := r.0.1], n - 1, r.1)
  {
    var r := EntryC().dec(s);
    assert DecAll(EntryC(), n, s).0[1..] == DecAll(EntryC(), n - 1, r.1).0;
  }
}
