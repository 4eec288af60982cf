/** The request and response records of the MySQL and Redis back ends, built from the formats of
    `Codec`: optional statement parameters and nested tables for MySQL, a tagged union for Redis. */
module DbMessages {
  import opened Bytes
  import opened Codec
  import opened Wrappers
  import opened Serializer

  // ---- MySQL ------------------------------------------------------------------------------------

  datatype StmtParams = StmtParams(params: DataTable, paramCols: i32, resultCols: i32)

  datatype MysqlReq = MysqlReq(version: u16, typ: i8, slot: byte, sql: Bytes, transaction: bool,
      stmt: Option<StmtParams>)

  function ParamsEnc(p: StmtParams): Bytes {
    TableEnc(p.params) + (BE(4, Unsigned(0x1_0000_0000, p.paramCols)) + BE(4, Unsigned(0x1_0000_0000, p.resultCols)))
  }

  function ParamsDec(s: Bytes): (StmtParams, Bytes) {
    var t := TableDec(s);
    var p := GetUint(4, t.1);
    var q := GetUint(4, p.1);
    (StmtParams(t.0, Signed(0x1_0000_0000, p.0), Signed(0x1_0000_0000, q.0)), q.1)
  }

  lemma ParamsLaw(p: StmtParams, s: Bytes)
    ensures TableOk(p.params) <==> ParamsDec(ParamsEnc(p) + s).0 == p
    ensures TableOk(p.params) ==> ParamsDec(ParamsEnc(p) + s).1 == s
  {
    var t, a, b := TableEnc(p.params), BE(4, Unsigned(0x1_0000_0000, p.paramCols)),
        BE(4, Unsigned(0x1_0000_0000, p.resultCols));
    Assoc(t, a + b, s);
    Assoc(a, b, s);
    TableLaw(p.params, a + (b + s));
    GetPut(4, Unsigned(0x1_0000_0000, p.paramCols), b + s);
    GetPut(4, Unsigned(0x1_0000_0000, p.resultCols), s);
  }

  function StmtEnc(p: Option<StmtParams>): Bytes {
    if p.None? then BoolEnc(false) else BoolEnc(true) + ParamsEnc(p.value)
  }

  function StmtDec(s: Bytes): (Option<StmtParams>, Bytes) {
    var r := BoolDec(s);
    if r.0 then var p := ParamsDec(r.1); (Some(p.0), p.1) else (None, r.1)
  }

  predicate StmtOk(p: Option<StmtParams>) {
    p.Some? ==> TableOk(p.value.params)
  }

  lemma StmtLaw(p: Option<StmtParams>, s: Bytes)
    ensures StmtOk(p) <==> StmtDec(StmtEnc(p) + s).0 == p
    ensures StmtOk(p) ==> StmtDec(StmtEnc(p) + s).1 == s
  {
    if p.None? {
      BoolLaw(false, s);
    } else {
      Assoc(BoolEnc(true), ParamsEnc(p.value), s);
      BoolLaw(true, ParamsEnc(p.value) + s);
      ParamsLaw(p.value, s);
    }
  }

  function MysqlReqEnc(q: MysqlReq): Bytes {
    BE(2, q.version) + (BE(1, Unsigned(0x100, q.typ)) +
        (BE(1, q.slot) + (StrEnc(q.sql) + (BoolEnc(q.transaction) + StmtEnc(q.stmt)))))
  }

  function MysqlReqDec(s: Bytes): (MysqlReq, Bytes) {
    var v := GetUint(2, s);
    var t := GetUint(1, v.1);
    var d := GetUint(1, t.1);
    var q := StrDec(d.1);
    var b := BoolDec(q.1);
    var p := StmtDec(b.1);
    (MysqlReq(v.0, Signed(0x100, t.0), d.0, q.0, b.0, p.0), p.1)
  }

  predicate MysqlReqOk(q: MysqlReq) {
    |q.sql| < 0x1_0000_0000 && StmtOk(q.stmt)
  }

  /** The prefix law for the MySQL request, with and without statement parameters, and the exact
      requests it holds for. */
  lemma MysqlReqLaw(q: MysqlReq, s: Bytes)
    ensures MysqlReqOk(q) <==> MysqlReqDec(MysqlReqEnc(q) + s).0 == q
    ensures MysqlReqOk(q) ==> MysqlReqDec(MysqlReqEnc(q) + s).1 == s
  {
    var v, t, d, x, b, p := BE(2, q.version), BE(1, Unsigned(0x100, q.typ)), BE(1, q.slot), StrEnc(q.sql),
                            BoolEnc(q.transaction), StmtEnc(q.stmt);
    Nest6(v, t, d, x, b, p, s);
    GetPut(2, q.version, t + (d + (x + (b + (p + s)))));
    GetPut(1, Unsigned(0x100, q.typ), d + (x + (b + (p + s))));
    GetPut(1, q.slot, x + (b + (p + s)));
    StrLaw(q.sql, b + (p + s));
    BoolLaw(q.transaction, p + s);
    StmtLaw(q.stmt, s);
  }

  /** Where each field of a MySQL request is on the wire. */
  lemma MysqlReqLayout(q: MysqlReq)
    ensures var f, n := MysqlReqEnc(q), |q.sql|;
            && |f| >= 8 + n
            && f[..2] == BE(2, q.version) && f[2] == (if q.typ < 0 then q.typ + 256 else q.typ) && f[3] == q.slot
            && f[4..8] == BE(4, n) && f[8..8 + n] == q.sql
            && f[8 + n..] == [if q.transaction then 1 else 0] +
                             (if q.stmt.Some? then [1] + ParamsEnc(q.stmt.value) else [0])
  {
    RecordHead(q.version, Unsigned(0x100, q.typ), q.slot, q.sql, BoolEnc(q.transaction) + StmtEnc(q.stmt));
    OneByte(1);
    OneByte(0);
  }

  method SerializeMysqlReq(q: MysqlReq) returns (data: Bytes)
    ensures data == MysqlReqEnc(q)
  {
    var h := new SerializeHelper([]);
    h.SerializeUint(2, q.version);
    h.SerializeUint(1, Unsigned(0x100, q.typ));
    h.SerializeUint(1, q.slot);
    h.SerializeStr(q.sql);
    h.SerializeBool(q.transaction);
    SerializeStmt(h, q.stmt);
    data := h.out;
    LeftNest6([], BE(2, q.version), BE(1, Unsigned(0x100, q.typ)), BE(1, q.slot), StrEnc(q.sql),
              BoolEnc(q.transaction), StmtEnc(q.stmt));
    assert [] + MysqlReqEnc(q) == MysqlReqEnc(q);
  }

  method SerializeStmt(h: SerializeHelper, p: Option<StmtParams>)
    modifies h`out
    ensures h.out == old(h.out) + StmtEnc(p)
  {
    h.SerializeBool(p.Some?);
    if p.Some? {
      h.SerializeTable(p.value.params);
      h.SerializeUint(4, Unsigned(0x1_0000_0000, p.value.paramCols));
      h.SerializeUint(4, Unsigned(0x1_0000_0000, p.value.resultCols));
      LeftNest4(old(h.out), BoolEnc(true), TableEnc(p.value.params), BE(4, Unsigned(0x1_0000_0000, p.value.paramCols)),
                BE(4, Unsigned(0x1_0000_0000, p.value.resultCols)));
    }
  }

  method DeserializeMysqlReq(data: Bytes) returns (q: MysqlReq)
    ensures q == MysqlReqDec(data).0
  {
    var h := new SerializeHelper(data);
    var version := h.DeserializeUint(2);
    var typ := h.DeserializeUint(1);
    var slot := h.DeserializeUint(1);
    var sql := h.DeserializeStr();
    var transaction := h.DeserializeBool();
    var stmt := DeserializeStmt(h);
    q := MysqlReq(version, Signed(0x100, typ), slot, sql, transaction, stmt);
  }

  method DeserializeStmt(h: SerializeHelper) returns (stmt: Option<StmtParams>)
    modifies h`buf
    ensures (stmt, h.buf) == StmtDec(old(h.buf))
  {
    var exist := h.DeserializeBool();
    if !exist { return None; }
    var params := h.DeserializeTable();
    var paramCols := h.DeserializeUint(4);
    var resultCols := h.DeserializeUint(4);
    stmt := Some(StmtParams(params, Signed(0x1_0000_0000, paramCols), Signed(0x1_0000_0000, resultCols)));
  }

  datatype MysqlResp = MysqlResp(version: u16, reqId: u64, rc: i32, results: DataTables, fields: FieldsType)

  function MysqlRespEnc(q: MysqlResp): Bytes {
    BE(2, q.version) + (BE(8, q.reqId) +
        (BE(4, Unsigned(0x1_0000_0000, q.rc)) + (TablesEnc(q.results) + FieldsEnc(q.fields))))
  }

  function MysqlRespDec(s: Bytes): (MysqlResp, Bytes) {
    var v := GetUint(2, s);
    var i := GetUint(8, v.1);
    var c := GetUint(4, i.1);
    var t := TablesDec(c.1);
    var f := FieldsDec(t.1);
    (MysqlResp(v.0, i.0, Signed(0x1_0000_0000, c.0), t.0, f.0), f.1)
  }

  predicate MysqlRespOk(q: MysqlResp) {
    TablesOk(q.results) && |q.fields| < 0x1_0000_0000
  }

  /** The prefix law for the MySQL response: rows inside tables inside result lists. */
  lemma MysqlRespLaw(q: MysqlResp, s: Bytes)
    ensures MysqlRespOk(q) <==> MysqlRespDec(MysqlRespEnc(q) + s).0 == q
    ensures MysqlRespOk(q) ==> MysqlRespDec(MysqlRespEnc(q) + s).1 == s
  {
    var v, i, c := BE(2, q.version), BE(8, q.reqId), BE(4, Unsigned(0x1_0000_0000, q.rc));
    var t, f := TablesEnc(q.results), FieldsEnc(q.fields);
    Assoc(v, i + (c + (t + f)), s);
    Nest4(i, c, t, f, s);
    GetPut(2, q.version, i + (c + (t + (f + s))));
    GetPut(8, q.reqId, c + (t + (f + s)));
    GetPut(4, Unsigned(0x1_0000_0000, q.rc), t + (f + s));
    TablesLaw(q.results, f + s);
    FieldsLaw(q.fields, s);
  }

  /** Where each field of a MySQL response is on the wire. */
  lemma MysqlRespLayout(q: MysqlResp)
    ensures var f := MysqlRespEnc(q);
            && |f| >= 14 && f[..2] == BE(2, q.version) && f[2..10] == BE(8, q.reqId)
            && f[10..14] == BE(4, if q.rc < 0 then q.rc + 0x1_0000_0000 else q.rc)
            && f[14..] == TablesEnc(q.results) + FieldsEnc(q.fields)
  {
  }

  // ---- Redis ------------------------------------------------------------------------------------

  datatype RedisReq = RedisReq(version: u16, typ: i8, slot: byte, argv: DataRow)

  function RedisReqEnc(q: RedisReq): Bytes {
    BE(2, q.version) + (BE(1, Unsigned(0x100, q.typ)) + (BE(1, q.slot) + ListEnc(StrC(), q.argv)))
  }

  /** The argument count is kept in a signed 32-bit variable. */
  function RedisReqDec(s: Bytes): (RedisReq, Bytes) {
    var v := GetUint(2, s);
    var t := GetUint(1, v.1);
    var d := GetUint(1, t.1);
    var a := ListDec(StrC(), true, d.1);
    (RedisReq(v.0, Signed(0x100, t.0), d.0, a.0), a.1)
  }

  /** The prefix law for the Redis request: it needs fewer than 2^31 arguments. */
  lemma RedisReqLaw(q: RedisReq, s: Bytes)
    ensures ListOk(StrC(), true, q.argv) <==> RedisReqDec(RedisReqEnc(q) + s).0 == q
    ensures ListOk(StrC(), true, q.argv) ==> RedisReqDec(RedisReqEnc(q) + s).1 == s
  {
    var v, t, d, a := BE(2, q.version), BE(1, Unsigned(0x100, q.typ)), BE(1, q.slot), ListEnc(StrC(), q.argv);
    Nest4(v, t, d, a, s);
    GetPut(2, q.version, t + (d + (a + s)));
    GetPut(1, Unsigned(0x100, q.typ), d + (a + s));
    GetPut(1, q.slot, a + s);
    StrExact();
    ListLaw(StrC(), true, q.argv, s);
  }

  /** Where each field of a Redis request is on the wire. */
  lemma RedisReqLayout(q: RedisReq)
    ensures var f := RedisReqEnc(q);
            && |f| >= 8 && f[..2] == BE(2, q.version)
            && f[2] == (if q.typ < 0 then q.typ + 256 else q.typ) && f[3] == q.slot
            && f[4..8] == BE(4, |q.argv|) && f[8..] == EncAll(StrC(), q.argv)
  {
    OneByte(Unsigned(0x100, q.typ));
    OneByte(q.slot);
  }

  const STAT: i8 := 0
  const INT: i8 := 1
  const STR: i8 := 2
  const SA: i8 := 3
  const SM: i8 := 4
  const SCA: i8 := 5

  /** The response record keeps one field per kind of result; `typ` says which one travels. */
  datatype RedisResp = RedisResp(version: u16, reqId: u64, typ: i8, rc: i32,
                                 stat: bool, num: i64, str: Bytes, arr: DataRow, dict: StringMap, scores: ScoreArray)

  function PayloadEnc(q: RedisResp, walk: seq<(Bytes, Bytes)>): Bytes {
    if q.typ == STAT then BE(1, if q.stat then 1 else 0)
    else if q.typ == INT then BE(8, Unsigned(0x1_0000_0000_0000_0000, q.num))
    else if q.typ == STR then StrEnc(q.str)
    else if q.typ == SA then RowEnc(q.arr)
    else if q.typ == SM then ListEnc(EntryC(), walk)
    else if q.typ == SCA then ListEnc(ScoreC(), q.scores)
    else []
  }

  function PayloadDec(q: RedisResp, s: Bytes): (RedisResp, Bytes) {
    if q.typ == STAT then var r := GetUint(1, s); (q.(stat := r.0 != 0), r.1)
    else if q.typ == INT then var r := GetUint(8, s); (q.(num := Signed(0x1_0000_0000_0000_0000, r.0)), r.1)
    else if q.typ == STR then var r := StrDec(s); (q.(str := r.0), r.1)
    else if q.typ == SA then var r := RowDec(s); (q.(arr := r.0), r.1)
    else if q.typ == SM then var r := DecMap(s); (q.(dict := r.0), r.1)
    else if q.typ == SCA then var r := ListDec(ScoreC(), false, s); (q.(scores := r.0), r.1)
    else (q, s)
  }

  function RedisRespEnc(q: RedisResp, walk: seq<(Bytes, Bytes)>): Bytes {
    BE(2, q.version) + (BE(8, q.reqId) +
        (BE(1, Unsigned(0x100, q.typ)) + (BE(4, Unsigned(0x1_0000_0000, q.rc)) + PayloadEnc(q, walk))))
  }

  function RedisRespDec(s: Bytes): (RedisResp, Bytes) {
    var v := GetUint(2, s);
    var i := GetUint(8, v.1);
    var t := GetUint(1, i.1);
    var c := GetUint(4, t.1);
    PayloadDec(Fresh(v.0, i.0, Signed(0x100, t.0), Signed(0x1_0000_0000, c.0)), c.1)
  }

  function Fresh(version: u16, reqId: u64, typ: i8, rc: i32): RedisResp {
    RedisResp(version, reqId, typ, rc, false, 0, [], [], map[], [])
  }

  /** The response with only the field its type selects; the others do not travel. */
  function Selected(q: RedisResp): RedisResp {
    var f := Fresh(q.version, q.reqId, q.typ, q.rc);
    if q.typ == STAT then f.(stat := q.stat)
    else if q.typ == INT then f.(num := q.num)
    else if q.typ == STR then f.(str := q.str)
    else if q.typ == SA then f.(arr := q.arr)
    else if q.typ == SM then f.(dict := q.dict)
    else if q.typ == SCA then f.(scores := q.scores)
    else f
  }

  /** The selected field fits its counts. */
  predicate RedisRespOk(q: RedisResp) {
    && (q.typ == STR ==> StrOk(q.str))
    && (q.typ == SA ==> RowOk(q.arr))
    && (q.typ == SM ==> |q.dict| < 0x1_0000_0000 && MapOk(q.dict))
    && (q.typ == SCA ==> ListOk(ScoreC(), false, q.scores))
  }

  lemma PayloadLaw(q: RedisResp, walk: seq<(Bytes, Bytes)>, s: Bytes)
    requires q.typ == SM ==> Enumerates(walk, q.dict)
    ensures var r := PayloadDec(Fresh(q.version, q.reqId, q.typ, q.rc), PayloadEnc(q, walk) + s);
            (RedisRespOk(q) <==> r.0 == Selected(q)) && (RedisRespOk(q) ==> r.1 == s)
  {
    if q.typ == STAT {
      GetPut(1, if q.stat then 1 else 0, s);
    } else if q.typ == INT {
      GetPut(8, Unsigned(0x1_0000_0000_0000_0000, q.num), s);
    } else if q.typ == STR {
      StrLaw(q.str, s);
    } else if q.typ == SA {
      RowLaw(q.arr, s);
    } else if q.typ == SM {
      MapLaw(walk, q.dict, s);
    } else if q.typ == SCA {
      ScoresLaw(q.scores, s);
    } else {
      assert PayloadEnc(q, walk) + s == s;
    }
  }

  /** The prefix law for the Redis tagged response: the tag and the selected field come back, and nothing of the
      other fields does, for every type, known or not, iff the selected field fits its counts. */
  lemma RedisRespLaw(q: RedisResp, walk: seq<(Bytes, Bytes)>, s: Bytes)
    requires q.typ == SM ==> Enumerates(walk, q.dict)
    ensures RedisRespOk(q) <==> RedisRespDec(RedisRespEnc(q, walk) + s).0 == Selected(q)
    ensures RedisRespOk(q) ==> RedisRespDec(RedisRespEnc(q, walk) + s).1 == s
  {
    HeadOfResp(q, walk, s);
    PayloadLaw(q, walk, s);
  }

  lemma HeadOfResp(q: RedisResp, walk: seq<(Bytes, Bytes)>, s: Bytes)
    ensures RedisRespDec(RedisRespEnc(q, walk) + s)
         == PayloadDec(Fresh(q.version, q.reqId, q.typ, q.rc), PayloadEnc(q, walk) + s)
  {
    var v, i, t := BE(2, q.version), BE(8, q.reqId), BE(1, Unsigned(0x100, q.typ));
    var c, p := BE(4, Unsigned(0x1_0000_0000, q.rc)), PayloadEnc(q, walk);
    Assoc(v, i + (t + (c + p)), s);
    Nest4(i, t, c, p, s);
    GetPut(2, q.version, i + (t + (c + (p + s))));
    GetPut(8, q.reqId, t + (c + (p + s)));
    GetPut(1, Unsigned(0x100, q.typ), c + (p + s));
    GetPut(4, Unsigned(0x1_0000_0000, q.rc), p + s);
  }

  /** Where each field of a Redis response is on the wire. */
  lemma RedisRespLayout(q: RedisResp, walk: seq<(Bytes, Bytes)>)
    ensures var f := RedisRespEnc(q, walk);
            && |f| >= 15 && f[..2] == BE(2, q.version) && f[2..10] == BE(8, q.reqId)
            && f[10] == (if q.typ < 0 then q.typ + 256 else q.typ)
            && f[11..15] == BE(4, if q.rc < 0 then q.rc + 0x1_0000_0000 else q.rc)
            && f[15..] == PayloadEnc(q, walk)
  {
    OneByte(Unsigned(0x100, q.typ));
  }

  method SerializeRedisResp(q: RedisResp, walk: seq<(Bytes, Bytes)>) returns (data: Bytes)
    ensures data == RedisRespEnc(q, walk)
  {
    var h := new SerializeHelper([]);
    h.SerializeUint(2, q.version);
    h.SerializeU64(q.reqId);
    h.SerializeUint(1, Unsigned(0x100, q.typ));
    h.SerializeUint(4, Unsigned(0x1_0000_0000, q.rc));
    SerializePayload(h, q, walk);
    data := h.out;
    LeftNest4([] + BE(2, q.version), BE(8, q.reqId), BE(1, Unsigned(0x100, q.typ)),
              BE(4, Unsigned(0x1_0000_0000, q.rc)), PayloadEnc(q, walk));
    assert [] + BE(2, q.version) == BE(2, q.version);
  }

  method SerializePayload(h: SerializeHelper, q: RedisResp, walk: seq<(Bytes, Bytes)>)
    modifies h`out
    ensures h.out == old(h.out) + PayloadEnc(q, walk)
  {
    if q.typ == STAT {
      h.SerializeUint(1, if q.stat then 1 else 0);
    } else if q.typ == INT {
      h.SerializeU64(Unsigned(0x1_0000_0000_0000_0000, q.num));
    } else if q.typ == STR {
      h.SerializeStr(q.str);
    } else if q.typ == SA {
      h.SerializeRow(q.arr);
    } else if q.typ == SM {
      h.SerializeStringMap(walk);
    } else if q.typ == SCA {
      h.SerializeScoreArray(q.scores);
    }
  }

  method DeserializeRedisResp(data: Bytes) returns (q: RedisResp)
    ensures q == RedisRespDec(data).0
  {
    var h := new SerializeHelper(data);
    var version := h.DeserializeUint(2);
    var reqId := h.DeserializeU64();
    var typ := h.DeserializeUint(1);
    var rc := h.DeserializeUint(4);
    q := DeserializePayload(h, Fresh(version, reqId, Signed(0x100, typ), Signed(0x1_0000_0000, rc)));
  }

  method DeserializePayload(h: SerializeHelper, f: RedisResp) returns (q: RedisResp)
    modifies h`buf
    ensures (q, h.buf) == PayloadDec(f, old(h.buf))
  {
    q := f;
    if q.typ == STAT {
      var v := h.DeserializeUint(1);
      q := q.(stat := v != 0);
    } else if q.typ == INT {
      var v := h.DeserializeU64();
      q := q.(num := Signed(0x1_0000_0000_0000_0000, v));
    } else if q.typ == STR {
      var v := h.DeserializeStr();
      q := q.(str := v);
    } else if q.typ == SA {
      var v := h.DeserializeRow();
      q := q.(arr := v);
    } else if q.typ == SM {
      var v := h.DeserializeStringMap();
      q := q.(dict := v);
    } else if q.typ == SCA {
      var v := h.DeserializeScoreArray();
      q := q.(scores := v);
    }
  }
}
