/** The Mongo request: a chain of any number of requests, each with optional documents. */
module MongoMessages {
  import opened Bytes
  import opened Codec
  import opened Wrappers
  import opened Serializer

  type Doc = Option<Bytes>

  // ---- optional documents -----------------------------------------------------------------------

  function DocEnc(d: Doc): Bytes {
    if d.Some? then BoolEnc(true) + StrEnc(d.value) else BoolEnc(false)
  }

  /** `valid` stands for what the BSON library accepts as a document; anything else reads as absent. */
  function DocDec(valid: Bytes -> bool, s: Bytes): (r: (Doc, Bytes))
    ensures |r.1| <= |s|
  {
    var b := BoolDec(s);
    if b.0 then
      var x := StrDec(b.1);
      (if valid(x.0) then Some(x.0) else None, x.1)
    else (None, b.1)
  }

  predicate DocOk(valid: Bytes -> bool, d: Doc) {
    d.Some? ==> StrOk(d.value) && valid(d.value)
  }

  lemma DocLaw(valid: Bytes -> bool, d: Doc, s: Bytes)
    ensures DocOk(valid, d) <==> DocDec(valid, DocEnc(d) + s).0 == d
    ensures DocOk(valid, d) ==> DocDec(valid, DocEnc(d) + s).1 == s
  {
    if d.Some? {
      Assoc(BoolEnc(true), StrEnc(d.value), s);
      BoolLaw(true, StrEnc(d.value) + s);
      StrLaw(d.value, s);
    } else {
      BoolLaw(false, s);
    }
  }

  function DocC(valid: Bytes -> bool): Codec<Doc> {
    Codec(DocEnc, (s: Bytes) => DocDec(valid, s), (d: Doc) => DocOk(valid, d))
  }

  lemma DocExact(valid: Bytes -> bool)
    ensures Exact(DocC(valid))
  {
    forall d: Doc, s: Bytes ensures Law(DocC(valid), d, s) { DocLaw(valid, d, s); }
  }

  lemma {:induction false} DocsShrink(valid: Bytes -> bool, n: nat, s: Bytes)
    ensures |DecAll(DocC(valid), n, s).1| <= |s|
  {
    if n > 0 {
      DocsShrink(valid, n - 1, DocC(valid).dec(s).1);
    }
  }

  // ---- one request ------------------------------------------------------------------------------

  datatype MongoReq = MongoReq(version: u16, typ: i8, slot: byte, coll: Bytes, opts: Doc, query: Doc, write: Doc,
      many: seq<Doc>)

  function DocsEnc(valid: Bytes -> bool, q: MongoReq): Bytes {
    DocEnc(q.opts) + (DocEnc(q.query) + (DocEnc(q.write) + ListEnc(DocC(valid), q.many)))
  }

  function OneEnc(valid: Bytes -> bool, q: MongoReq): Bytes {
    BE(2, q.version) + (BE(1, Unsigned(0x100, q.typ)) + (BE(1, q.slot) + (StrEnc(q.coll) + DocsEnc(valid, q))))
  }

  function OneDec(valid: Bytes -> bool, s: Bytes): (r: (MongoReq, Bytes))
    ensures |r.1| <= |s|
  {
    var v := GetUint(2, s);
    var t := GetUint(1, v.1);
    var d := GetUint(1, t.1);
    var c := StrDec(d.1);
    var o := DocDec(valid, c.1);
    var q := DocDec(valid, o.1);
    var w := DocDec(valid, q.1);
    var m := ListDec(DocC(valid), false, w.1);
    DocsShrink(valid, GetUint(4, w.1).0, GetUint(4, w.1).1);
    (MongoReq(v.0, Signed(0x100, t.0), d.0, c.0, o.0, q.0, w.0, m.0), m.1)
  }

  predicate OneOk(valid: Bytes -> bool, q: MongoReq) {
    && StrOk(q.coll)
    && DocOk(valid, q.opts) && DocOk(valid, q.query) && DocOk(valid, q.write)
    && ListOk(DocC(valid), false, q.many)
  }

  lemma OneLaw(valid: Bytes -> bool, q: MongoReq, s: Bytes)
    ensures OneOk(valid, q) <==> OneDec(valid, OneEnc(valid, q) + s).0 == q
    ensures OneOk(valid, q) ==> OneDec(valid, OneEnc(valid, q) + s).1 == s
  {
    var v, t, d, c := BE(2, q.version), BE(1, Unsigned(0x100, q.typ)), BE(1, q.slot), StrEnc(q.coll);
    var o, u, w, m := DocEnc(q.opts), DocEnc(q.query), DocEnc(q.write), ListEnc(DocC(valid), q.many);
    var docs := DocsEnc(valid, q) + s;
    Assoc(v, t + (d + (c + DocsEnc(valid, q))), s);
    Nest4(t, d, c, DocsEnc(valid, q), s);
    GetPut(2, q.version, t + (d + (c + docs)));
    GetPut(1, Unsigned(0x100, q.typ), d + (c + docs));
    GetPut(1, q.slot, c + docs);
    StrLaw(q.coll, docs);
    Nest4(o, u, w, m, s);
    DocLaw(valid, q.opts, u + (w + (m + s)));
    DocLaw(valid, q.query, w + (m + s));
    DocLaw(valid, q.write, m + s);
    DocExact(valid);
    ListLaw(DocC(valid), false, q.many, s);
  }

  /** Where the fields of a MongoDB request are on the wire; the documents follow as options, query, write and many. */
  lemma OneLayout(valid: Bytes -> bool, q: MongoReq)
    ensures var f, n := OneEnc(valid, q), |q.coll|;
            && |f| >= 8 + n
            && f[..2] == BE(2, q.version) && f[2] == (if q.typ < 0 then q.typ + 256 else q.typ) && f[3] == q.slot
            && f[4..8] == BE(4, n) && f[8..8 + n] == q.coll
            && f[8 + n..] == DocEnc(q.opts) + (DocEnc(q.query) + (DocEnc(q.write) + ListEnc(DocC(valid), q.many)))
  {
    RecordHead(q.version, Unsigned(0x100, q.typ), q.slot, q.coll, DocsEnc(valid, q));
  }

  function OneC(valid: Bytes -> bool): Codec<MongoReq> {
    Codec((q: MongoReq) => OneEnc(valid, q), (s: Bytes) => OneDec(valid, s), (q: MongoReq) => OneOk(valid, q))
  }

  lemma OneExact(valid: Bytes -> bool)
    ensures Exact(OneC(valid)) && Shrinks(OneC(valid))
  {
    forall q: MongoReq, s: Bytes ensures Law(OneC(valid), q, s) { OneLaw(valid, q, s); }
  }

  // ---- the chain --------------------------------------------------------------------------------

  /** A decoder never gives back more bytes than it was given. */
  ghost predicate Shrinks<T(!new)>(c: Codec<T>) {
    forall s: Bytes :: |c.dec(s).1| <= |s|
  }

  /** After each element one byte says whether another follows. */
  function ChainEnc<T>(c: Codec<T>, xs: seq<T>): Bytes {
    if xs == [] then [] else c.enc(xs[0]) + (BoolEnc(|xs| > 1) + ChainEnc(c, xs[1..]))
  }

  ghost function ChainDec<T(!new)>(c: Codec<T>, s: Bytes): (r: (seq<T>, Bytes))
    requires Shrinks(c)
    ensures |r.0| > 0
    decreases |s|
  {
    var x := c.dec(s);
    var more := BoolDec(x.1);
    if more.0 then
      var rest := ChainDec(c, more.1);
      ([x.0] + rest.0, rest.1)
    else ([x.0], more.1)
  }

  lemma {:induction false} ChainExact<T(!new)>(c: Codec<T>, xs: seq<T>, s: Bytes)
    requires Exact(c) && Shrinks(c) && xs != []
    ensures AllOk(c, xs) <==> ChainDec(c, ChainEnc(c, xs) + s).0 == xs
    ensures AllOk(c, xs) ==> ChainDec(c, ChainEnc(c, xs) + s).1 == s
  {
    var tail := ChainEnc(c, xs[1..]) + s;
    var one, flag := c.enc(xs[0]), BoolEnc(|xs| > 1);
    Assoc(one, flag + ChainEnc(c, xs[1..]), s);
    Assoc(flag, ChainEnc(c, xs[1..]), s);
    assert Law(c, xs[0], flag + tail);
    BoolLaw(|xs| > 1, tail);
    AllOkTail(c, xs);
    var r := ChainDec(c, one + (flag + tail));
    assert xs == [xs[0]] + xs[1..];
    if |xs| == 1 {
      assert tail == s;
    } else {
      ChainExact(c, xs[1..], s);
      if c.ok(xs[0]) {
        assert r.0[1..] == ChainDec(c, tail).0;
      }
    }
  }

  lemma AllOkTail<T>(c: Codec<T>, xs: seq<T>)
    requires xs != []
    ensures AllOk(c, xs) <==> c.ok(xs[0]) && AllOk(c, xs[1..])
  {
    assert forall i :: 0 < i < |xs| ==> xs[i] == xs[1..][i - 1];
    assert forall i :: 0 <= i < |xs[1..]| ==> xs[1..][i] == xs[i + 1];
  }

  /** The prefix law for a request chain of any length, and the exact chains it holds for. */
  lemma ChainLaw(valid: Bytes -> bool, qs: seq<MongoReq>, s: Bytes)
    requires qs != []
    ensures Shrinks(OneC(valid))
    ensures AllOk(OneC(valid), qs) <==> ChainDec(OneC(valid), ChainEnc(OneC(valid), qs) + s).0 == qs
    ensures AllOk(OneC(valid), qs) ==> ChainDec(OneC(valid), ChainEnc(OneC(valid), qs) + s).1 == s
  {
    OneExact(valid);
    ChainExact(OneC(valid), qs, s);
  }

  // ---- the loops that walk and build the chain --------------------------------------------------

  method SerializeDoc(h: SerializeHelper, d: Doc)
    modifies h`out
    ensures h.out == old(h.out) + DocEnc(d)
  {
    h.SerializeBool(d.Some?);
    if d.Some? {
      h.SerializeStr(d.value);
      Assoc(old(h.out), BoolEnc(true), StrEnc(d.value));
    }
  }

  method DeserializeDoc(valid: Bytes -> bool, h: SerializeHelper) returns (d: Doc)
    modifies h`buf
    ensures (d, h.buf) == DocDec(valid, old(h.buf))
  {
    var exist := h.DeserializeBool();
    if !exist { return None; }
    var bin := h.DeserializeStr();
    d := if valid(bin) then Some(bin) else None;
  }

  method SerializeMany(valid: Bytes -> bool, h: SerializeHelper, many: seq<Doc>)
    modifies h`out
    ensures h.out == old(h.out) + ListEnc(DocC(valid), many)
  {
    h.SerializeUint(4, |many|);
    ghost var base := h.out;
    AppendNone(DocC(valid), base);
    for i := 0 to |many|
      invariant h.out == base + EncAll(DocC(valid), many[..i])
    {
      SerializeDoc(h, many[i]);
      AppendOne(DocC(valid), base, many, i);
    }
    AppendAll(DocC(valid), old(h.out), many);
  }

  method DeserializeMany(valid: Bytes -> bool, h: SerializeHelper) returns (many: seq<Doc>)
    modifies h`buf
    ensures (many, h.buf) == ListDec(DocC(valid), false, old(h.buf))
  {
    many := [];
    var size := h.DeserializeUint(4);
    NothingYet(DocC(valid), size, h.buf);
    for i := 0 to size
      invariant Remaining(DocC(valid), many, size - i, h.buf) == ListDec(DocC(valid), false, old(h.buf))
    {
      TakeOne(DocC(valid), many, size - i, h.buf);
      var d := DeserializeDoc(valid, h);
      many := many + [d];
    }
    NothingLeft(DocC(valid), many, h.buf);
  }

  method SerializeOne(valid: Bytes -> bool, h: SerializeHelper, q: MongoReq)
    modifies h`out
    ensures h.out == old(h.out) + OneEnc(valid, q)
  {
    h.SerializeUint(2, q.version);
    ghost var base := h.out;
    h.SerializeUint(1, Unsigned(0x100, q.typ));
    h.SerializeUint(1, q.slot);
    h.SerializeStr(q.coll);
    SerializeDocs(valid, h, q);
    LeftNest4(base, BE(1, Unsigned(0x100, q.typ)), BE(1, q.slot), StrEnc(q.coll), DocsEnc(valid, q));
    Assoc(old(h.out), BE(2, q.version), BE(1, Unsigned(0x100, q.typ)) +
        (BE(1, q.slot) + (StrEnc(q.coll) + DocsEnc(valid, q))));
  }

  method SerializeDocs(valid: Bytes -> bool, h: SerializeHelper, q: MongoReq)
    modifies h`out
    ensures h.out == old(h.out) + DocsEnc(valid, q)
  {
    SerializeDoc(h, q.opts);
    SerializeDoc(h, q.query);
    SerializeDoc(h, q.write);
    SerializeMany(valid, h, q.many);
    LeftNest4(old(h.out), DocEnc(q.opts), DocEnc(q.query), DocEnc(q.write), ListEnc(DocC(valid), q.many));
  }

  method DeserializeOne(valid: Bytes -> bool, h: SerializeHelper) returns (q: MongoReq)
    modifies h`buf
    ensures (q, h.buf) == OneDec(valid, old(h.buf))
  {
    var version := h.DeserializeUint(2);
    var typ := h.DeserializeUint(1);
    var slot := h.DeserializeUint(1);
    var coll := h.DeserializeStr();
    var opts := DeserializeDoc(valid, h);
    var query := DeserializeDoc(valid, h);
    var write := DeserializeDoc(valid, h);
    var many := DeserializeMany(valid, h);
    q := MongoReq(version, Signed(0x100, typ), slot, coll, opts, query, write, many);
  }

  /** Walks the chain from its head; the flag after each node says whether it has a successor. */
  method SerializeChain(valid: Bytes -> bool, qs: seq<MongoReq>) returns (data: Bytes)
    ensures data == ChainEnc(OneC(valid), qs)
  {
    var h := new SerializeHelper([]);
    assert qs[0..] == qs;
    for i := 0 to |qs|
      invariant h.out + ChainEnc(OneC(valid), qs[i..]) == ChainEnc(OneC(valid), qs)
    {
      ChainStep(OneC(valid), qs, i, h.out);
      SerializeOne(valid, h, qs[i]);
      h.SerializeBool(i + 1 < |qs|);
    }
    data := h.out;
    assert ChainEnc(OneC(valid), qs[|qs|..]) == [];
  }

  lemma ChainStep<T>(c: Codec<T>, xs: seq<T>, i: nat, sofar: Bytes)
    requires i < |xs|
    ensures sofar + ChainEnc(c, xs[i..]) == sofar + c.enc(xs[i]) + BoolEnc(i + 1 < |xs|) + ChainEnc(c, xs[i + 1..])
  {
    assert xs[i..][1..] == xs[i + 1..];
    var a, b, r := c.enc(xs[i]), BoolEnc(i + 1 < |xs|), ChainEnc(c, xs[i + 1..]);
    Assoc(sofar + a, b, r);
    Assoc(sofar, a, b + r);
  }

  /** What the building loop will have at its end. */
  ghost function Built<T(!new)>(c: Codec<T>, sofar: seq<T>, s: Bytes): seq<T>
    requires Shrinks(c)
  {
    sofar + ChainDec(c, s).0
  }

  lemma BuildStep<T(!new)>(c: Codec<T>, sofar: seq<T>, s: Bytes)
    requires Shrinks(c)
    ensures var x := c.dec(s); var more := BoolDec(x.1);
            Built(c, sofar, s) == if more.0 then Built(c, sofar + [x.0], more.1) else sofar + [x.0]
  {
    var x := c.dec(s);
    var more := BoolDec(x.1);
    if more.0 {
      var rest := ChainDec(c, more.1).0;
      assert sofar + ([x.0] + rest) == sofar + [x.0] + rest;
    }
  }

  method DeserializeLink(valid: Bytes -> bool, h: SerializeHelper) returns (q: MongoReq, next: bool)
    modifies h`buf
    ensures q == OneC(valid).dec(old(h.buf)).0 && (next, h.buf) == BoolDec(OneC(valid).dec(old(h.buf)).1)
    ensures next ==> |h.buf| < |old(h.buf)|
  {
    q := DeserializeOne(valid, h);
    next := h.DeserializeBool();
  }

  /** One turn of the building loop. */
  method AppendLink(valid: Bytes -> bool, h: SerializeHelper, sofar: seq<MongoReq>, ghost all: seq<MongoReq>)
    returns (qs: seq<MongoReq>, next: bool)
    requires Shrinks(OneC(valid)) && all == Built(OneC(valid), sofar, h.buf)
    modifies h`buf
    ensures all == if next then Built(OneC(valid), qs, h.buf) else qs
    ensures next ==> |h.buf| < |old(h.buf)|
  {
    BuildStep(OneC(valid), sofar, h.buf);
    var q;
    q, next := DeserializeLink(valid, h);
    qs := sofar + [q];
  }

  lemma NothingBuilt<T(!new)>(c: Codec<T>, s: Bytes)
    requires Shrinks(c)
    ensures Built(c, [], s) == ChainDec(c, s).0
  {
  }

  /** Builds the chain until a flag says stop; a buffer that runs out reads as a stop. */
  method DeserializeChain(valid: Bytes -> bool, data: Bytes) returns (qs: seq<MongoReq>)
    ensures Shrinks(OneC(valid))
    ensures qs == ChainDec(OneC(valid), data).0
  {
    OneExact(valid);
    NothingBuilt(OneC(valid), data);
    ghost var all := ChainDec(OneC(valid), data).0;
    var h := new SerializeHelper(data);
    var next;
    qs, next := AppendLink(valid, h, [], all);
    while next
      invariant all == if next then Built(OneC(valid), qs, h.buf) else qs
      decreases next, |h.buf|
    {
      qs, next := AppendLink(valid, h, qs, all);
    }
  }
}
