/** The handshake records and how they cross the two ciphers: the request in RSA blocks, the response
    zero-padded to whole cipher blocks. The primitives themselves are parameters. */
module Handshake {
  import opened Arith
  import opened Bytes
  import opened Codec
  import opened Wrappers

  const KX_ECDH: byte := 1

  // ---- records ----------------------------------------------------------------------------------

  /** Every key-exchange tag other than ECDH takes the DH branch. */
  datatype KxReq = Ecdh(curve: u32, pubkey: Bytes) | Dh(tag: byte, p: Bytes, g: Bytes, pubkey: Bytes)

  datatype HandshakeReq = HandshakeReq(kx: KxReq, symsec: Bytes, symType: byte)

  datatype HandshakeResp = HandshakeResp(kx: byte, pubkey: Bytes, symType: byte)

  function KxEnc(k: KxReq): Bytes {
    match k
    case Ecdh(curve, pubkey) => BE(1, KX_ECDH) + (BE(4, curve) + StrEnc(pubkey))
    case Dh(tag, p, g, pubkey) => BE(1, tag) + (StrEnc(p) + (StrEnc(g) + StrEnc(pubkey)))
  }

  function KxDec(s: Bytes): (KxReq, Bytes) {
    var t := GetUint(1, s);
    if t.0 == KX_ECDH then
      var c := GetUint(4, t.1);
      var k := StrDec(c.1);
      (Ecdh(c.0, k.0), k.1)
    else
      var p := StrDec(t.1);
      var g := StrDec(p.1);
      var k := StrDec(g.1);
      (Dh(t.0, p.0, g.0, k.0), k.1)
  }

  predicate KxOk(k: KxReq) {
    match k
    case Ecdh(_, pubkey) => StrOk(pubkey)
    case Dh(tag, p, g, pubkey) => tag != KX_ECDH && StrOk(p) && StrOk(g) && StrOk(pubkey)
  }

  lemma KxLaw(k: KxReq, s: Bytes)
    ensures KxOk(k) <==> KxDec(KxEnc(k) + s).0 == k
    ensures KxOk(k) ==> KxDec(KxEnc(k) + s).1 == s
  {
    match k
    case Ecdh(curve, pubkey) =>
      var t, c, x := BE(1, KX_ECDH), BE(4, curve), StrEnc(pubkey);
      Assoc(t, c + x, s);
      Assoc(c, x, s);
      GetPut(1, KX_ECDH, c + (x + s));
      GetPut(4, curve, x + s);
      StrLaw(pubkey, s);
    case Dh(tag, p, g, pubkey) =>
      var t, a, b, x := BE(1, tag), StrEnc(p), StrEnc(g), StrEnc(pubkey);
      Nest4(t, a, b, x, s);
      GetPut(1, tag, a + (b + (x + s)));
      StrLaw(p, b + (x + s));
      StrLaw(g, x + s);
      StrLaw(pubkey, s);
  }

  function ReqEnc(q: HandshakeReq): Bytes {
    KxEnc(q.kx) + (StrEnc(q.symsec) + BE(1, q.symType))
  }

  function ReqDec(s: Bytes): (HandshakeReq, Bytes) {
    var k := KxDec(s);
    var m := StrDec(k.1);
    var t := GetUint(1, m.1);
    (HandshakeReq(k.0, m.0, t.0), t.1)
  }

  predicate ReqOk(q: HandshakeReq) { KxOk(q.kx) && StrOk(q.symsec) }

  lemma ReqLaw(q: HandshakeReq, s: Bytes)
    ensures ReqOk(q) <==> ReqDec(ReqEnc(q) + s).0 == q
    ensures ReqOk(q) ==> ReqDec(ReqEnc(q) + s).1 == s
  {
    var k, m, t := KxEnc(q.kx), StrEnc(q.symsec), BE(1, q.symType);
    Assoc(k, m + t, s);
    Assoc(m, t, s);
    KxLaw(q.kx, m + (t + s));
    StrLaw(q.symsec, t + s);
    GetPut(1, q.symType, s);
  }

  function RespEnc(q: HandshakeResp): Bytes {
    BE(1, q.kx) + (StrEnc(q.pubkey) + BE(1, q.symType))
  }

  function RespDec(s: Bytes): (HandshakeResp, Bytes) {
    var k := GetUint(1, s);
    var p := StrDec(k.1);
    var t := GetUint(1, p.1);
    (HandshakeResp(k.0, p.0, t.0), t.1)
  }

  lemma RespLaw(q: HandshakeResp, s: Bytes)
    ensures StrOk(q.pubkey) <==> RespDec(RespEnc(q) + s).0 == q
    ensures StrOk(q.pubkey) ==> RespDec(RespEnc(q) + s).1 == s
  {
    var k, p, t := BE(1, q.kx), StrEnc(q.pubkey), BE(1, q.symType);
    Assoc(k, p + t, s);
    Assoc(p, t, s);
    GetPut(1, q.kx, p + (t + s));
    StrLaw(q.pubkey, t + s);
    GetPut(1, q.symType, s);
  }

  // ---- symmetric transport of the response ------------------------------------------------------

  function Zeros(n: nat): (z: Bytes)
    ensures |z| == n && forall i :: 0 <= i < n ==> z[i] == 0
  {
    seq(n, i => 0)
  }

  function PadLen(block: nat, n: nat): (p: nat)
    requires block > 0
    ensures (n + p) % block == 0 && p < block
  {
    var times := (n + block - 1) / block;
    RoundUp(n, block);
    times * block - n
  }

  /** What the cipher routine feeds its primitive: the input, zero-filled to whole blocks. */
  function Padded(block: nat, data: Bytes): (r: Bytes)
    requires block > 0
    ensures |r| % block == 0 && |data| <= |r| < |data| + block
    ensures data <= r && forall i :: |data| <= i < |r| ==> r[i] == 0
    ensures |data| % block == 0 ==> r == data
  {
    var r := data + Zeros(PadLen(block, |data|));
    PadNothing(block, |data|);
    r
  }

  lemma PadNothing(block: nat, n: nat)
    requires block > 0
    ensures n % block == 0 ==> PadLen(block, n) == 0
  {
    var p := PadLen(block, n);
    if n % block == 0 && p > 0 {
      var q := n / block;
      assert n + p == q * block + p;
      DivUnique(n + p, block, q, p);
    }
  }

  /** A cipher whose decryption undoes its encryption on whole blocks. */
  ghost predicate BlockCipher(block: nat, e: Bytes -> Bytes, d: Bytes -> Bytes) {
    block > 0 && forall x: Bytes :: |x| % block == 0 ==> |e(x)| == |x| && d(e(x)) == x
  }

  /** The response a client decodes is the one the server encoded: what is left over after decryption
      is padding, and the decoder does not look at it. */
  lemma ResponseTransport(block: nat, e: Bytes -> Bytes, d: Bytes -> Bytes, q: HandshakeResp)
    requires BlockCipher(block, e, d) && StrOk(q.pubkey)
    ensures RespDec(d(Padded(block, e(Padded(block, RespEnc(q)))))).0 == q
  {
    var padded := Padded(block, RespEnc(q));
    assert Padded(block, e(padded)) == e(padded);
    assert d(e(padded)) == padded;
    RespLaw(q, Zeros(PadLen(block, |RespEnc(q)|)));
  }

  // ---- RSA blocks -------------------------------------------------------------------------------

  /** One block operation; the block number stands for the fresh randomness each call may use.
      A result of no bytes counts as a failure. */
  type BlockOp = (nat, Bytes) -> Option<Bytes>

  /** Cut `data` into blocks, apply `op` to each from number `i` on, join the results; any failing
      block fails the whole. */
  function Chunked(op: BlockOp, block: nat, i: nat, data: Bytes): Option<Bytes>
    requires block > 0
    decreases |data|
  {
    if data == [] then Some([]) else
      var n := if |data| < block then |data| else block;
      var x := op(i, data[..n]);
      if x.None? || x.value == [] then None else
        var rest := Chunked(op, block, i + 1, data[n..]);
        if rest.None? then None else Some(x.value + rest.value)
  }

  /** Whatever its call number, decryption of `c` gives `m`. */
  ghost predicate Opens(d: BlockOp, c: Bytes, m: Bytes) {
    forall j: nat :: d(j, c) == Some(m)
  }

  ghost predicate RsaPair(rsaLen: nat, e: BlockOp, d: BlockOp) {
    && rsaLen > 11
    && forall i: nat, m: Bytes :: 1 <= |m| <= rsaLen - 11 ==>
         e(i, m).Some? && |e(i, m).value| == rsaLen && Opens(d, e(i, m).value, m)
  }

  /** Decrypting block by block what was encrypted block by block is the identity on every string,
      the empty one included. */
  lemma {:induction false} ChunkedRoundTrip(rsaLen: nat, e: BlockOp, d: BlockOp, i: nat, j: nat, data: Bytes)
    requires RsaPair(rsaLen, e, d)
    ensures Chunked(e, rsaLen - 11, i, data).Some?
    ensures Chunked(d, rsaLen, j, Chunked(e, rsaLen - 11, i, data).value) == Some(data)
    decreases |data|
  {
    if data != [] {
      var n := if |data| < rsaLen - 11 then |data| else rsaLen - 11;
      var m, rest := data[..n], data[n..];
      ChunkedRoundTrip(rsaLen, e, d, i + 1, j + 1, rest);
      assert e(i, m).Some? && Opens(d, e(i, m).value, m);
      var x, tail := e(i, m).value, Chunked(e, rsaLen - 11, i + 1, rest).value;
      assert (x + tail)[..rsaLen] == x && (x + tail)[rsaLen..] == tail;
      assert m + rest == data;
    }
  }

  /** The chunking loop; `i` counts the blocks and `pos` is `i * block`, so the loop turns as often as
      there are blocks (see `BlockCount`). On failure it hands back nothing. */
  method RsaChunks(op: BlockOp, block: nat, data: Bytes) returns (result: Bytes)
    requires block > 0
    ensures var r := Chunked(op, block, 0, data); result == if r.Some? then r.value else []
  {
    result := [];
    ghost var whole := Chunked(op, block, 0, data);
    assert Rest(data, 0) == data;
    JoinedNothing(whole);
    var i, pos := 0, 0;
    while pos < |data|
      invariant Joined(result, Chunked(op, block, i, Rest(data, pos))) == whole
      decreases |data| - pos
    {
      var n := if |data| - pos < block then |data| - pos else block;
      ChunkStep(op, block, i, data, pos, n, result);
      var x := op(i, data[pos..pos + n]);
      if x.None? || x.value == [] {
        return [];
      }
      assert Rest(data, pos + n) == Rest(data, pos + block);
      result, i, pos := result + x.value, i + 1, pos + block;
    }
    assert Rest(data, pos) == [] && result + [] == result;
  }

  /** Block `i` starts inside the data exactly when `i` is below the rounded-up block count. */
  lemma BlockCount(i: nat, block: nat, n: nat)
    requires block > 0
    ensures i < (n + block - 1) / block <==> i * block < n
  {
    var times := (n + block - 1) / block;
    RoundUp(n, block);
    assert (times - i) * block == times * block - i * block;
    MulBound(times - i, block);
    MulBound(times - i - 1, block);
    assert (times - i - 1) * block == (times - i) * block - block;
  }

  ghost function Rest(data: Bytes, pos: nat): Bytes {
    if pos <= |data| then data[pos..] else []
  }

  ghost function Joined(sofar: Bytes, rest: Option<Bytes>): Option<Bytes> {
    if rest.None? then None else Some(sofar + rest.value)
  }

  lemma ChunkStep(op: BlockOp, block: nat, i: nat, data: Bytes, pos: nat, n: nat, sofar: Bytes)
    requires block > 0 && pos < |data| && n == if |data| - pos < block then |data| - pos else block
    ensures var x := op(i, data[pos..pos + n]);
            Joined(sofar, Chunked(op, block, i, Rest(data, pos)))
            == if x.None? || x.value == [] then None
               else Joined(sofar + x.value, Chunked(op, block, i + 1, Rest(data, pos + n)))
  {
    var here := Rest(data, pos);
    assert here[..n] == data[pos..pos + n] && here[n..] == Rest(data, pos + n);
    var x, rest := op(i, data[pos..pos + n]), Chunked(op, block, i + 1, Rest(data, pos + n));
    if x.Some? && rest.Some? {
      Assoc(sofar, x.value, rest.value);
    }
  }

  lemma JoinedNothing(r: Option<Bytes>)
    ensures Joined([], r) == r
  {
    assert r.Some? ==> [] + r.value == r.value;
  }
}
