/** The value formats of the binary serializer as composable encoder/decoder pairs.

    Every decoder is total and does what the serializer does on a short buffer: it yields a default
    and leaves the bytes it could not use. `ok` says which values survive the trip: the only values
    that do not are containers whose size does not fit the 32-bit count in front of them. */
module Codec {
  import opened Bytes

  datatype Codec<!T> = Codec(enc: T -> Bytes, dec: Bytes -> (T, Bytes), ok: T -> bool)

  /** The prefix law for one value, both ways: an `ok` value decodes to itself and leaves exactly the
      suffix; any other value decodes to something else, whatever follows it. */
  ghost predicate Law<T>(c: Codec<T>, x: T, s: Bytes) {
    var r := c.dec(c.enc(x) + s);
    (c.ok(x) <==> r.0 == x) && (c.ok(x) ==> r.1 == s)
  }

  ghost predicate Exact<T(!new)>(c: Codec<T>) {
    forall x: T, s: Bytes :: Law(c, x, s)
  }

  // ---- integers ---------------------------------------------------------------------------------

  /** Reads a `width`-byte integer; a short buffer reads as 0 and is not consumed. */
  function GetUint(width: nat, s: Bytes): (r: (nat, Bytes))
    ensures r.0 < Pow256(width)
    ensures |s| < width ==> r == (0, s)
    ensures |s| >= width ==> |r.1| == |s| - width
  {
    if |s| < width then (0, s) else (Val(s[..width]), s[width..])
  }

  lemma GetPut(width: nat, v: nat, s: Bytes)
    requires v < Pow256(width)
    ensures GetUint(width, BE(width, v) + s) == (v, s)
  {
    ValBE(width, v);
    assert (BE(width, v) + s)[..width] == BE(width, v);
  }

  /** A count of any size: the bytes after it are found either way, the count itself only if it fits. */
  lemma GetCount(n: nat, t: Bytes)
    ensures GetUint(4, BE(4, n) + t).0 == n <==> n < 0x1_0000_0000
    ensures GetUint(4, BE(4, n) + t).1 == t
  {
    assert (BE(4, n) + t)[..4] == BE(4, n);
    assert Pow256(4) == 0x1_0000_0000;
    ValBE(4, n);
  }

  /** Two's complement: the cast of a signed value to unsigned and back. */
  function Unsigned(modulus: nat, v: int): int {
    if v < 0 then v + modulus else v
  }

  function Signed(modulus: nat, v: int): int {
    if 2 * v >= modulus then v - modulus else v
  }

  function U32Enc(v: u32): Bytes { BE(4, v) }
  function U32Dec(s: Bytes): (u32, Bytes) { GetUint(4, s) }
  predicate Always<T>(v: T) { true }
  function U32C(): Codec<u32> { Codec(U32Enc, U32Dec, Always) }

  lemma U32Exact()
    ensures Exact(U32C())
  {
    forall v: u32, s: Bytes ensures Law(U32C(), v, s) { GetPut(4, v, s); }
  }

  /** A bool is one byte, and only the byte 1 reads as true. */
  function BoolEnc(b: bool): Bytes { BE(1, if b then 1 else 0) }
  function BoolDec(s: Bytes): (bool, Bytes) { var r := GetUint(1, s); (r.0 == 1, r.1) }

  lemma BoolLaw(b: bool, s: Bytes)
    ensures BoolDec(BoolEnc(b) + s) == (b, s)
  {
    GetPut(1, if b then 1 else 0, s);
  }

  // ---- counted containers -----------------------------------------------------------------------

  function EncAll<T>(c: Codec<T>, xs: seq<T>): Bytes {
    if xs == [] then [] else c.enc(xs[0]) + EncAll(c, xs[1..])
  }

  function DecAll<T>(c: Codec<T>, n: nat, s: Bytes): (r: (seq<T>, Bytes))
    ensures |r.0| == n
  {
    if n == 0 then ([], s) else
      var r := c.dec(s);
      var r' := DecAll(c, n - 1, r.1);
      ([r.0] + r'.0, r'.1)
  }

  predicate AllOk<T>(c: Codec<T>, xs: seq<T>) {
    forall i :: 0 <= i < |xs| ==> c.ok(xs[i])
  }

  lemma {:induction false} AllExact<T(!new)>(c: Codec<T>, xs: seq<T>, s: Bytes)
    requires Exact(c)
    ensures AllOk(c, xs) ==> DecAll(c, |xs|, EncAll(c, xs) + s) == (xs, s)
    ensures !AllOk(c, xs) ==> DecAll(c, |xs|, EncAll(c, xs) + s).0 != xs
  {
    if xs == [] {
      assert EncAll(c, xs) + s == s;
    } else {
      var tail := EncAll(c, xs[1..]) + s;
      Assoc(c.enc(xs[0]), EncAll(c, xs[1..]), s);
      AllExact(c, xs[1..], s);
      assert Law(c, xs[0], tail);
      var r := DecAll(c, |xs|, EncAll(c, xs) + s);
      if c.ok(xs[0]) {
        var r' := DecAll(c, |xs| - 1, tail);
        assert r == ([xs[0]] + r'.0, r'.1) && r.0[1..] == r'.0;
        assert xs == [xs[0]] + xs[1..];
        assert AllOk(c, xs) <==> AllOk(c, xs[1..]) by {
          assert forall i :: 0 < i < |xs| ==> xs[i] == xs[1..][i - 1];
          assert forall i :: 0 <= i < |xs[1..]| ==> xs[1..][i] == xs[i + 1];
        }
      }
    }
  }

  /** How many elements a decoder loops for, given the count it read: a decoder that keeps the
      count in a signed 32-bit variable reads none when the top bit is set. */
  function LoopCount(signed: bool, raw: nat): (n: nat)
    ensures n <= raw
  {
    if signed && raw >= 0x8000_0000 then 0 else raw
  }

  function CountLimit(signed: bool): nat {
    if signed then 0x8000_0000 else 0x1_0000_0000
  }

  /** A 32-bit element count, truncated as the cast from `size_t` truncates it, then the elements. */
  function ListEnc<T>(c: Codec<T>, xs: seq<T>): Bytes {
    BE(4, |xs|) + EncAll(c, xs)
  }

  function ListDec<T>(c: Codec<T>, signed: bool, s: Bytes): (seq<T>, Bytes) {
    var r := GetUint(4, s);
    DecAll(c, LoopCount(signed, r.0), r.1)
  }

  lemma CountedDec<T>(c: Codec<T>, signed: bool, n: nat, tail: Bytes)
    ensures |ListDec(c, signed, BE(4, n) + tail).0| == n <==> (n < CountLimit(signed))
    ensures n < CountLimit(signed) ==> ListDec(c, signed, BE(4, n) + tail) == DecAll(c, n, tail)
  {
    GetCount(n, tail);
  }

  predicate ListOk<T>(c: Codec<T>, signed: bool, xs: seq<T>) {
    |xs| < CountLimit(signed) && AllOk(c, xs)
  }

  lemma ListLaw<T(!new)>(c: Codec<T>, signed: bool, xs: seq<T>, s: Bytes)
    requires Exact(c)
    ensures ListOk(c, signed, xs) <==> ListDec(c, signed, ListEnc(c, xs) + s).0 == xs
    ensures ListOk(c, signed, xs) ==> ListDec(c, signed, ListEnc(c, xs) + s).1 == s
  {
    Assoc(BE(4, |xs|), EncAll(c, xs), s);
    CountedDec(c, signed, |xs|, EncAll(c, xs) + s);
    AllExact(c, xs, s);
  }

  /** A byte string behind its length. Unlike a list it is all or nothing: a body shorter than the
      length reads as the empty string, and only the length is consumed. */
  function StrC(): Codec<Bytes> { Codec(StrEnc, StrDec, StrOk) }

  predicate StrOk(x: Bytes) { |x| < 0x1_0000_0000 }

  function StrEnc(x: Bytes): Bytes {
    BE(4, |x|) + x
  }

  /** Where the common head of a request record is: version, type, slot, and a string. */
  lemma RecordHead(version: u16, typ: byte, slot: byte, x: Bytes, rest: Bytes)
    ensures var f := BE(2, version) + (BE(1, typ) + (BE(1, slot) + (StrEnc(x) + rest)));
            && |f| == 8 + |x| + |rest| && f[..2] == BE(2, version) && f[2] == typ && f[3] == slot
            && f[4..8] == BE(4, |x|) && f[8..8 + |x|] == x && f[8 + |x|..] == rest
  {
    OneByte(typ);
    OneByte(slot);
    HeadParts(BE(2, version), typ, slot, BE(4, |x|), x, rest);
  }

  lemma HeadParts(v: Bytes, t: byte, d: byte, n: Bytes, x: Bytes, rest: Bytes)
    requires |v| == 2 && |n| == 4
    ensures var f := v + ([t] + ([d] + (n + x + rest)));
            && |f| == 8 + |x| + |rest| && f[..2] == v && f[2] == t && f[3] == d
            && f[4..8] == n && f[8..8 + |x|] == x && f[8 + |x|..] == rest
  {
    var f := v + ([t] + ([d] + (n + x + rest)));
    assert f[4..] == n + x + rest;
    assert f[4..8] == f[4..][..4] && f[8..8 + |x|] == f[4..][4..4 + |x|] && f[8 + |x|..] == f[4..][4 + |x|..];
  }

  function StrDec(s: Bytes): (Bytes, Bytes) {
    var r := GetUint(4, s);
    if |r.1| < r.0 then ([], r.1) else (r.1[..r.0], r.1[r.0..])
  }

  lemma StrBody(x: Bytes, s: Bytes)
    ensures |StrDec(BE(4, |x|) + (x + s)).0| == |x| ==> |x| < 0x1_0000_0000 || x == []
    ensures |x| < 0x1_0000_0000 ==> StrDec(BE(4, |x|) + (x + s)) == (x, s)
  {
    GetCount(|x|, x + s);
    assert (x + s)[..|x|] == x && (x + s)[|x|..] == s;
  }

  lemma StrLaw(x: Bytes, s: Bytes)
    ensures |x| < 0x1_0000_0000 <==> StrDec(StrEnc(x) + s).0 == x
    ensures |x| < 0x1_0000_0000 ==> StrDec(StrEnc(x) + s).1 == s
  {
    Assoc(BE(4, |x|), x, s);
    StrBody(x, s);
  }

  lemma StrExact()
    ensures Exact(StrC())
  {
    forall x: Bytes, s: Bytes ensures Law(StrC(), x, s) { StrLaw(x, s); }
  }

  // ---- the containers of the database messages --------------------------------------------------

  type DataRow = seq<Bytes>
  type DataTable = seq<DataRow>
  type DataTables = seq<DataTable>
  type FieldsType = seq<u32>
  type StringMap = map<Bytes, Bytes>
  type ScoreArray = seq<(u64, Bytes)>   // a double travels as its 64 bits

  function RowEnc(x: DataRow): Bytes { ListEnc(StrC(), x) }
  function RowDec(s: Bytes): (DataRow, Bytes) { ListDec(StrC(), false, s) }
  predicate RowOk(x: DataRow) { ListOk(StrC(), false, x) }
  function RowC(): Codec<DataRow> { Codec(RowEnc, RowDec, RowOk) }

  function TableEnc(x: DataTable): Bytes { ListEnc(RowC(), x) }
  function TableDec(s: Bytes): (DataTable, Bytes) { ListDec(RowC(), false, s) }
  predicate TableOk(x: DataTable) { ListOk(RowC(), false, x) }
  function TableC(): Codec<DataTable> { Codec(TableEnc, TableDec, TableOk) }

  function TablesEnc(x: DataTables): Bytes { ListEnc(TableC(), x) }
  function TablesDec(s: Bytes): (DataTables, Bytes) { ListDec(TableC(), false, s) }
  predicate TablesOk(x: DataTables) { ListOk(TableC(), false, x) }

  function FieldsEnc(x: FieldsType): Bytes { ListEnc(U32C(), x) }
  function FieldsDec(s: Bytes): (FieldsType, Bytes) { ListDec(U32C(), false, s) }

  function ScoreEnc(x: (u64, Bytes)): Bytes { BE(8, x.0) + StrEnc(x.1) }
  function ScoreDec(s: Bytes): ((u64, Bytes), Bytes) {
    var r := GetUint(8, s);
    var r' := StrDec(r.1);
    ((r.0, r'.0), r'.1)
  }
  predicate ScoreOk(x: (u64, Bytes)) { StrOk(x.1) }
  function ScoreC(): Codec<(u64, Bytes)> { Codec(ScoreEnc, ScoreDec, ScoreOk) }

  lemma RowExact()
    ensures Exact(RowC())
  {
    StrExact();
    forall x: DataRow, s: Bytes ensures Law(RowC(), x, s) { ListLaw(StrC(), false, x, s); }
  }

  lemma TableExact()
    ensures Exact(TableC())
  {
    RowExact();
    forall x: DataTable, s: Bytes ensures Law(TableC(), x, s) { ListLaw(RowC(), false, x, s); }
  }

  lemma ScoreExact()
    ensures Exact(ScoreC())
  {
    forall x: (u64, Bytes), s: Bytes ensures Law(ScoreC(), x, s) {
      Assoc(BE(8, x.0), StrEnc(x.1), s);
      GetPut(8, x.0, StrEnc(x.1) + s);
      StrLaw(x.1, s);
    }
  }

  /** The prefix law three containers deep, and the exact values it holds for. */
  lemma TablesLaw(x: DataTables, s: Bytes)
    ensures TablesOk(x) <==> TablesDec(TablesEnc(x) + s).0 == x
    ensures TablesOk(x) ==> TablesDec(TablesEnc(x) + s).1 == s
  {
    TableExact();
    ListLaw(TableC(), false, x, s);
  }

  lemma TableLaw(x: DataTable, s: Bytes)
    ensures TableOk(x) <==> TableDec(TableEnc(x) + s).0 == x
    ensures TableOk(x) ==> TableDec(TableEnc(x) + s).1 == s
  {
    RowExact();
    ListLaw(RowC(), false, x, s);
  }

  lemma RowLaw(x: DataRow, s: Bytes)
    ensures RowOk(x) <==> RowDec(RowEnc(x) + s).0 == x
    ensures RowOk(x) ==> RowDec(RowEnc(x) + s).1 == s
  {
    StrExact();
    ListLaw(StrC(), false, x, s);
  }

  lemma FieldsLaw(x: FieldsType, s: Bytes)
    ensures |x| < 0x1_0000_0000 <==> FieldsDec(FieldsEnc(x) + s).0 == x
    ensures |x| < 0x1_0000_0000 ==> FieldsDec(FieldsEnc(x) + s).1 == s
  {
    U32Exact();
    ListLaw(U32C(), false, x, s);
  }

  lemma ScoresLaw(x: ScoreArray, s: Bytes)
    ensures ListOk(ScoreC(), false, x) <==> ListDec(ScoreC(), false, ListEnc(ScoreC(), x) + s).0 == x
    ensures ListOk(ScoreC(), false, x) ==> ListDec(ScoreC(), false, ListEnc(ScoreC(), x) + s).1 == s
  {
    ScoreExact();
    ListLaw(ScoreC(), false, x, s);
  }

  // ---- maps -------------------------------------------------------------------------------------

  function EntryEnc(x: (Bytes, Bytes)): Bytes { StrEnc(x.0) + StrEnc(x.1) }
  function EntryDec(s: Bytes): ((Bytes, Bytes), Bytes) {
    var r := StrDec(s);
    var r' := StrDec(r.1);
    ((r.0, r'.0), r'.1)
  }
  predicate EntryOk(x: (Bytes, Bytes)) { StrOk(x.0) && StrOk(x.1) }
  function EntryC(): Codec<(Bytes, Bytes)> { Codec(EntryEnc, EntryDec, EntryOk) }

  lemma EntryExact()
    ensures Exact(EntryC())
  {
    forall x: (Bytes, Bytes), s: Bytes ensures Law(EntryC(), x, s) {
      Assoc(StrEnc(x.0), StrEnc(x.1), s);
      StrLaw(x.0, StrEnc(x.1) + s);
      StrLaw(x.1, s);
    }
  }

  /** The map left by storing the pairs in order, later ones overwriting earlier ones. */
  function Store(m: StringMap, kvs: seq<(Bytes, Bytes)>): StringMap
    decreases |kvs|
  {
    if kvs == [] then m else Store(m[kvs[0].0 := kvs[0].1], kvs[1..])
  }

  function DecMap(s: Bytes): (StringMap, Bytes) {
    var r := ListDec(EntryC(), false, s);
    (Store(map[], r.0), r.1)
  }

  /** `kvs` lists every entry of `m` once, in some order. */
  ghost predicate Enumerates(kvs: seq<(Bytes, Bytes)>, m: StringMap) {
    && (forall i, j :: 0 <= i < j < |kvs| ==> kvs[i].0 != kvs[j].0)
    && (forall i :: 0 <= i < |kvs| ==> kvs[i].0 in m && m[kvs[i].0] == kvs[i].1)
    && (forall k :: k in m ==> exists i :: 0 <= i < |kvs| && kvs[i].0 == k)
  }

  lemma StoreAll(kvs: seq<(Bytes, Bytes)>, m: StringMap)
    requires Enumerates(kvs, m)
    ensures Store(map[], kvs) == m
  {
    StoreKeeps(map[], kvs);
    assert Store(map[], kvs).Keys == m.Keys;
  }

  // What can come out of a decoder: strings and maps that fit their counts.

  lemma StrDecOk(s: Bytes)
    ensures StrOk(StrDec(s).0)
  {
    assert Pow256(4) == 0x1_0000_0000;
  }

  lemma {:induction false} DecEntriesOk(n: nat, s: Bytes)
    ensures AllOk(EntryC(), DecAll(EntryC(), n, s).0)
  {
    if n > 0 {
      var x := EntryDec(s);
      StrDecOk(s);
      StrDecOk(StrDec(s).1);
      DecEntriesOk(n - 1, x.1);
    }
  }

  predicate MapOk(m: StringMap) {
    forall k :: k in m ==> StrOk(k) && StrOk(m[k])
  }

  lemma {:induction false} StoreOk(m: StringMap, kvs: seq<(Bytes, Bytes)>)
    requires MapOk(m) && AllOk(EntryC(), kvs)
    ensures MapOk(Store(m, kvs)) && |Store(m, kvs)| <= |m| + |kvs|
    decreases |kvs|
  {
    if kvs != [] {
      var m' := m[kvs[0].0 := kvs[0].1];
      assert EntryC().ok(kvs[0]);
      assert m'.Keys == m.Keys + {kvs[0].0};
      assert forall i :: 0 <= i < |kvs[1..]| ==> kvs[1..][i] == kvs[i + 1];
      StoreOk(m', kvs[1..]);
    }
  }

  lemma DecMapOk(s: Bytes)
    ensures MapOk(DecMap(s).0) && |DecMap(s).0| < 0x1_0000_0000
  {
    var r := GetUint(4, s);
    assert Pow256(4) == 0x1_0000_0000;
    DecEntriesOk(LoopCount(false, r.0), r.1);
    StoreOk(map[], ListDec(EntryC(), false, s).0);
  }

  lemma {:induction false} DistinctBound(kvs: seq<(Bytes, Bytes)>, ks: set<Bytes>)
    requires forall i, j :: 0 <= i < j < |kvs| ==> kvs[i].0 != kvs[j].0
    requires forall i :: 0 <= i < |kvs| ==> kvs[i].0 in ks
    ensures |kvs| <= |ks|
  {
    if kvs != [] {
      var last := |kvs| - 1;
      DistinctBound(kvs[..last], ks - {kvs[last].0});
    }
  }

  /** The prefix law for maps, and the exact maps it holds for: whatever order the map was walked in, it comes back
      whole, and the suffix is left alone, iff it has fewer than 2^32 entries and all its strings fit. */
  lemma MapLaw(kvs: seq<(Bytes, Bytes)>, m: StringMap, s: Bytes)
    requires Enumerates(kvs, m)
    ensures |m| < 0x1_0000_0000 && MapOk(m) <==> DecMap(ListEnc(EntryC(), kvs) + s).0 == m
    ensures |m| < 0x1_0000_0000 && MapOk(m) ==> DecMap(ListEnc(EntryC(), kvs) + s).1 == s
  {
    if |m| < 0x1_0000_0000 && MapOk(m) {
      DistinctBound(kvs, m.Keys);
      assert ListOk(EntryC(), false, kvs);
      StoreAll(kvs, m);
      EntryExact();
      ListLaw(EntryC(), false, kvs, s);
    } else {
      DecMapOk(ListEnc(EntryC(), kvs) + s);
    }
  }

  lemma {:induction false} StoreKeeps(m: StringMap, kvs: seq<(Bytes, Bytes)>)
    requires forall i, j :: 0 <= i < j < |kvs| ==> kvs[i].0 != kvs[j].0
    ensures forall i :: 0 <= i < |kvs| ==> kvs[i].0 in Store(m, kvs) && Store(m, kvs)[kvs[i].0] == kvs[i].1
    ensures forall k :: k in Store(m, kvs) ==> k in m || exists i :: 0 <= i < |kvs| && kvs[i].0 == k
    ensures forall k :: k in m && (forall i :: 0 <= i < |kvs| ==> kvs[i].0 != k) ==>
              k in Store(m, kvs) && Store(m, kvs)[k] == m[k]
    decreases |kvs|
  {
    if kvs != [] {
      var m', rest := m[kvs[0].0 := kvs[0].1], kvs[1..];
      assert forall i :: 0 < i < |kvs| ==> kvs[i] == rest[i - 1];
      StoreKeeps(m', rest);
    }
  }
}
