/** The two frame formats: the 4-byte header of the default protocol and the 20-byte message header,
    whose fields are byte-swapped in the host's (little-endian) memory before they are copied out. */
module Headers {
  import opened Bytes
  import opened Wrappers
  import opened Arith

  const MAX_BODY: nat := 16777216

  /** What the receiving loop knows of a protocol: how long a header is and what body size it announces. */
  datatype Proto = Proto(headerSize: nat, bodySize: Bytes -> nat)

  /** A frame whose header announces exactly the body behind it, within the allowed size. */
  predicate WellFormed(p: Proto, f: Bytes) {
    && 0 < p.headerSize <= |f|
    && p.bodySize(f[..p.headerSize]) <= MAX_BODY
    && |f| == p.headerSize + p.bodySize(f[..p.headerSize])
  }

  // ---- default protocol -------------------------------------------------------------------------

  const TWO24: nat := 0x100_0000

  /** `(type << 24) | size`: a size of exactly 2^24 lands on the lowest bit of the type. */
  function DefaultWord(typ: byte, size: nat): (w: nat)
    requires size <= MAX_BODY
    ensures w < 0x1_0000_0000
  {
    if size < TWO24 then typ * TWO24 + size
    else (if typ % 2 == 0 then typ + 1 else typ) * TWO24
  }

  function GenMessage(typ: byte, body: Bytes): Option<Bytes> {
    if |body| > MAX_BODY then None else Some(BE(4, DefaultWord(typ, |body|)) + body)
  }

  function DefaultType(f: Bytes): nat {
    if |f| < 4 then 0 else Val(f[..4]) / TWO24
  }

  function DefaultBodySize(f: Bytes): nat {
    if |f| < 4 then 0 else Val(f[..4]) % TWO24
  }

  function DefaultProto(): Proto { Proto(4, DefaultBodySize) }

  lemma DefaultWordParts(typ: byte, size: nat)
    requires size <= MAX_BODY
    ensures size < TWO24 ==> DefaultWord(typ, size) / TWO24 == typ && DefaultWord(typ, size) % TWO24 == size
    ensures size == TWO24 ==> DefaultWord(typ, size) % TWO24 == 0
  {
  }

  lemma HeaderWord(w: nat, body: Bytes)
    requires w < 0x1_0000_0000
    ensures var f := BE(4, w) + body; |f| == 4 + |body| && Val(f[..4]) == w && f[..4][..4] == f[..4] && f[4..] == body
  {
    var f := BE(4, w) + body;
    assert f[..4] == BE(4, w) && f[..4][..4] == f[..4];
    assert Pow256(4) == 0x1_0000_0000;
    ValBE(4, w);
  }

  /** Of the messages `GenMessage` accepts, exactly those below 2^24 bytes are well-formed frames, and
      those carry their type and body. */
  lemma GenMessageFrames(typ: byte, body: Bytes)
    requires |body| <= MAX_BODY
    ensures var f := GenMessage(typ, body).value;
            && (WellFormed(DefaultProto(), f) <==> |body| < TWO24)
            && f[4..] == body
            && (|body| < TWO24 ==> DefaultType(f) == typ && DefaultBodySize(f) == |body|)
  {
    DefaultWordParts(typ, |body|);
    HeaderWord(DefaultWord(typ, |body|), body);
  }

  /** The accepted size that does not fit its field: a 16 MiB body announces an empty one. */
  lemma GenMessageOverflow(typ: byte, body: Bytes)
    requires |body| == TWO24
    ensures GenMessage(typ, body).Some? && DefaultBodySize(GenMessage(typ, body).value) == 0
  {
    DefaultWordParts(typ, |body|);
    HeaderWord(DefaultWord(typ, |body|), body);
  }

  // ---- host memory ------------------------------------------------------------------------------

  function Reverse(s: Bytes): (r: Bytes)
    ensures |r| == |s|
    ensures forall i :: 0 <= i < |s| ==> r[i] == s[|s| - 1 - i]
  {
    if s == [] then [] else Reverse(s[1..]) + [s[0]]
  }

  lemma ReverseTwice(s: Bytes)
    ensures Reverse(Reverse(s)) == s
  {
  }

  lemma {:induction false} BEVal(s: Bytes)
    ensures BE(|s|, Val(s)) == s
  {
    if s != [] {
      BEVal(s[..|s| - 1]);
    }
  }

  /** How the host lays an integer out in memory, and reads it back. */
  function Store(width: nat, v: nat): Bytes { Reverse(BE(width, v)) }
  function Load(s: Bytes): nat { Val(Reverse(s)) }

  /** `htons`, `htonl`, and their inverses: the bytes of the word in the other order. */
  function Swap(width: nat, v: nat): (r: nat)
    ensures r < Pow256(width)
  {
    Val(Reverse(BE(width, v)))
  }

  lemma StoreSwap(width: nat, v: nat)
    ensures Store(width, Swap(width, v)) == BE(width, v)
  {
    BEVal(Reverse(BE(width, v)));
    ReverseTwice(BE(width, v));
  }

  lemma SwapLoad(s: Bytes)
    ensures Swap(|s|, Load(s)) == Val(s)
  {
    BEVal(Reverse(s));
    ReverseTwice(s);
  }

  lemma SwapTwice(width: nat, v: nat)
    requires v < Pow256(width)
    ensures Swap(width, Swap(width, v)) == v
  {
    StoreSwap(width, v);
    ValBE(width, v);
  }

  const TWO32: nat := 0x1_0000_0000

  function Htonll(host: u64): u64 {
    WidthFour();
    var lo, hi := host % TWO32, host / TWO32;
    Swap(4, lo) * TWO32 + Swap(4, hi)
  }

  function Ntohll(net: u64): u64 {
    WidthFour();
    var lo, hi := net % TWO32, net / TWO32;
    Swap(4, hi) * TWO32 + Swap(4, lo)
  }

  lemma WidthFour()
    ensures Pow256(4) == TWO32
  {
  }

  /** The two 32-bit halves exchanged. */
  function SwapHalves(x: u64): u64 {
    (x % TWO32) * TWO32 + x / TWO32
  }

  /** The two conversions are not inverses: a value comes back with its halves exchanged. */
  lemma NtohllHtonll(x: u64)
    ensures Ntohll(Htonll(x)) == SwapHalves(x)
    ensures Ntohll(Htonll(x)) == x <==> x % TWO32 == x / TWO32
  {
    WidthFour();
    SwapTwice(4, x % TWO32);
    SwapTwice(4, x / TWO32);
    var net := Htonll(x);
    assert net % TWO32 == Swap(4, x / TWO32) && net / TWO32 == Swap(4, x % TWO32);
  }

  lemma SwapHalvesTwice(x: u64)
    ensures SwapHalves(SwapHalves(x)) == x
  {
  }

  // ---- message header ---------------------------------------------------------------------------

  datatype Header = Header(origin: u16, reserve: u16, typ: u32, serial: u64, size: u32)

  const HEADER_SIZE: nat := 20
  const RESP_FLAG: u32 := 0x8000_0000

  function Hton(h: Header): Header {
    WidthFour();
    Header(Swap(2, h.origin), Swap(2, h.reserve), Swap(4, h.typ), Htonll(h.serial), Swap(4, h.size))
  }

  function Ntoh(h: Header): Header {
    WidthFour();
    Header(Swap(2, h.origin), Swap(2, h.reserve), Swap(4, h.typ), Ntohll(h.serial), Swap(4, h.size))
  }

  lemma NtohHton(h: Header)
    ensures Ntoh(Hton(h)) == h.(serial := SwapHalves(h.serial))
  {
    WidthFour();
    SwapTwice(2, h.origin);
    SwapTwice(2, h.reserve);
    SwapTwice(4, h.typ);
    SwapTwice(4, h.size);
    NtohllHtonll(h.serial);
  }

  /** The packed struct in memory. */
  function StoreHeader(h: Header): (s: Bytes)
    ensures |s| == HEADER_SIZE
  {
    Store(2, h.origin) + Store(2, h.reserve) + Store(4, h.typ) + Store(8, h.serial) + Store(4, h.size)
  }

  function LoadHeader(s: Bytes): Header
    requires |s| >= HEADER_SIZE
  {
    WidthFour();
    assert Pow256(8) == 0x1_0000_0000_0000_0000;
    Header(Load(s[..2]), Load(s[2..4]), Load(s[4..8]), Load(s[8..16]), Load(s[16..20]))
  }

  lemma LoadStore(width: nat, v: nat)
    requires v < Pow256(width)
    ensures Load(Store(width, v)) == v
  {
    ReverseTwice(BE(width, v));
    ValBE(width, v);
  }

  lemma LoadStoreHeader(h: Header, s: Bytes)
    ensures LoadHeader(StoreHeader(h) + s) == h
  {
    WidthFour();
    assert Pow256(2) == 0x1_0000 && Pow256(8) == 0x1_0000_0000_0000_0000;
    LoadStore(2, h.origin);
    LoadStore(2, h.reserve);
    LoadStore(4, h.typ);
    LoadStore(8, h.serial);
    LoadStore(4, h.size);
    var m := StoreHeader(h) + s;
    assert m[..2] == Store(2, h.origin) && m[2..4] == Store(2, h.reserve) && m[4..8] == Store(4, h.typ);
    assert m[8..16] == Store(8, h.serial) && m[16..20] == Store(4, h.size);
  }

  /** The size field is the body length truncated to 32 bits. */
  function PackMsg(h: Header, data: Bytes): Bytes {
    StoreHeader(Hton(h.(size := |data| % TWO32))) + data
  }

  function UnpackMsg(msg: Bytes): Option<(Header, Bytes)> {
    if |msg| < HEADER_SIZE then None else Some((Ntoh(LoadHeader(msg)), msg[HEADER_SIZE..]))
  }

  function LyBodySize(f: Bytes): nat {
    if |f| < HEADER_SIZE then 0 else Swap(4, Load(f[16..20]))
  }

  function LyProto(): Proto { Proto(HEADER_SIZE, LyBodySize) }

  /** One hop keeps every field and the body, sets the size, and exchanges the halves of the serial. */
  lemma UnpackPack(h: Header, data: Bytes)
    ensures UnpackMsg(PackMsg(h, data))
         == Some((h.(size := |data| % TWO32, serial := SwapHalves(h.serial)), data))
  {
    var h' := h.(size := |data| % TWO32);
    LoadStoreHeader(Hton(h'), data);
    NtohHton(h');
    assert PackMsg(h, data)[HEADER_SIZE..] == data;
  }

  /** `createResponse`: the request's type with the response flag, and its serial. */
  function ResponseHeader(origin: u16, req: Header): Header {
    Header(origin, 0, if req.typ < RESP_FLAG then req.typ + RESP_FLAG else req.typ, req.serial, 0)
  }

  /** What the sender of a request should find in the header of the reply: the responder's origin, the type it asked
      with bit 31 set, its own serial and the size of the reply. */
  predicate Echoes(h: Header, origin: u16, respData: Bytes, reply: Header) {
    && reply.origin == origin && reply.reserve == 0
    && reply.typ == (if h.typ < 0x8000_0000 then h.typ + 0x8000_0000 else h.typ)
    && reply.serial == h.serial && reply.size == |respData| % TWO32
  }

  /** A request and its reply cross two hops, and the serial comes back as it was sent: the reader of
      the reply finds the number it put in the request, whatever it is. */
  lemma SerialEcho(h: Header, reqData: Bytes, origin: u16, respData: Bytes)
    ensures UnpackMsg(PackMsg(h, reqData)).Some?
    ensures var req := UnpackMsg(PackMsg(h, reqData)).value.0;
            var reply := UnpackMsg(PackMsg(ResponseHeader(origin, req), respData));
            reply.Some? && reply.value.1 == respData && Echoes(h, origin, respData, reply.value.0)
  {
    HopFields(h, reqData);
    ReplyHop(h, UnpackMsg(PackMsg(h, reqData)).value.0, origin, respData);
  }

  lemma ReplyHop(h: Header, req: Header, origin: u16, respData: Bytes)
    requires req.typ == h.typ && req.serial == SwapHalves(h.serial)
    ensures var reply := UnpackMsg(PackMsg(ResponseHeader(origin, req), respData));
            reply.Some? && reply.value.1 == respData && Echoes(h, origin, respData, reply.value.0)
  {
    SwapHalvesTwice(h.serial);
    HopFields(ResponseHeader(origin, req), respData);
  }

  lemma HopFields(h: Header, data: Bytes)
    ensures var r := UnpackMsg(PackMsg(h, data));
            && r.Some? && r.value.1 == data && r.value.0.origin == h.origin && r.value.0.reserve == h.reserve
            && r.value.0.typ == h.typ && r.value.0.serial == SwapHalves(h.serial) && r.value.0.size == |data| % TWO32
  {
    UnpackPack(h, data);
  }

  lemma ReverseConcat(a: Bytes, b: Bytes)
    ensures Reverse(a + b) == Reverse(b) + Reverse(a)
  {
  }

  /** A 64-bit value in memory: the low half first. */
  lemma StoreHalves(hi: nat, lo: nat)
    requires lo < TWO32
    ensures Store(8, hi * TWO32 + lo) == Store(4, lo) + Store(4, hi)
  {
    var v := hi * TWO32 + lo;
    BE8Halves(v);
    assert v / TWO32 == hi && v % TWO32 == lo;
    LowFour(v);
    ReverseConcat(BE(4, hi), BE(4, lo));
  }

  lemma LowFour(v: nat)
    ensures BE(4, v) == BE(4, v % TWO32)
  {
    WidthFour();
    BE8Halves(v);
    BELow(4, v);
  }

  lemma {:induction false} BELow(width: nat, v: nat)
    ensures BE(width, v) == BE(width, v % Pow256(width))
  {
    if width > 0 {
      var p := Pow256(width - 1);
      var r := v % (256 * p);
      BELow(width - 1, v / 256);
      BELow(width - 1, r / 256);
      DivMod256(v, p);
    }
  }

  lemma DivMod256(v: nat, p: nat)
    requires p > 0
    ensures (v % (256 * p)) % 256 == v % 256 && (v % (256 * p)) / 256 == (v / 256) % p
  {
    var q, r := v / 256 / p, v / 256 % p;
    assert v / 256 == q * p + r;
    var low := r * 256 + v % 256;
    assert v == q * (256 * p) + low by {
      assert q * p * 256 == q * (256 * p);
    }
    DivUnique(v, 256 * p, q, low);
    DivUnique(low, 256, r, v % 256);
  }

  lemma HalvesOnWire(hi: nat, lo: nat, a: nat, b: nat, v: nat)
    requires a == Swap(4, lo) && b == Swap(4, hi) && b < TWO32 && v == a * TWO32 + b
    ensures Store(8, v) == BE(4, hi) + BE(4, lo)
  {
    StoreHalves(a, b);
    StoreSwap(4, lo);
    StoreSwap(4, hi);
  }

  lemma SerialOnWire(x: u64)
    ensures Store(8, Htonll(x)) == BE(8, x)
  {
    var lo, hi := x % TWO32, x / TWO32;
    var a, b := HtonllParts(x, hi, lo);
    HalvesOnWire(hi, lo, a, b, Htonll(x));
    HalvesOf(x, hi, lo);
  }

  lemma HtonllParts(x: u64, hi: nat, lo: nat) returns (a: nat, b: nat)
    requires lo == x % TWO32 && hi == x / TWO32
    ensures a == Swap(4, lo) && b == Swap(4, hi) && b < TWO32 && Htonll(x) == a * TWO32 + b
  {
    WidthFour();
    a, b := Swap(4, lo), Swap(4, hi);
  }

  lemma HalvesOf(x: nat, hi: nat, lo: nat)
    requires hi == x / TWO32 && lo == x % TWO32
    ensures BE(8, x) == BE(4, hi) + BE(4, lo)
  {
    BE8Halves(x);
    LowFour(x);
  }

  /** The layout on the wire: every field in its place, most significant byte first, and then the body. */
  lemma PackMsgLayout(h: Header, data: Bytes)
    ensures PackMsg(h, data)
         == BE(2, h.origin) + BE(2, h.reserve) + BE(4, h.typ) + BE(8, h.serial) + BE(4, |data| % TWO32) + data
  {
    StoreSwap(2, h.origin);
    StoreSwap(2, h.reserve);
    StoreSwap(4, h.typ);
    StoreSwap(4, |data| % TWO32);
    SerialOnWire(h.serial);
  }

  /** The size field of a header on the wire. */
  lemma SizeField(h: Header)
    ensures LyBodySize(StoreHeader(Hton(h))) == h.size
  {
    var m := StoreHeader(Hton(h));
    WidthFour();
    assert m[16..20] == Store(4, Swap(4, h.size));
    StoreSwap(4, h.size);
    SwapLoad(m[16..20]);
    ValBE(4, h.size);
  }

  lemma PackedSize(h: Header, data: Bytes)
    ensures LyBodySize(PackMsg(h, data)[..HEADER_SIZE]) == |data| % TWO32
  {
    var n := |data| % TWO32;
    assert PackMsg(h, data)[..HEADER_SIZE] == StoreHeader(Hton(h.(size := n)));
    SizeField(h.(size := n));
  }

  /** A packed message is a well-formed frame exactly when its body is within the receiver's limit; a
      body long enough for the size field to wrap is not. */
  lemma PackMsgFrames(h: Header, data: Bytes)
    ensures WellFormed(LyProto(), PackMsg(h, data)) <==> |data| <= MAX_BODY
  {
    PackedSize(h, data);
    FrameBySize(PackMsg(h, data), |data|);
  }

  lemma FrameBySize(f: Bytes, n: nat)
    requires |f| == HEADER_SIZE + n && LyBodySize(f[..HEADER_SIZE]) == n % TWO32
    ensures WellFormed(LyProto(), f) <==> n <= MAX_BODY
  {
  }
}
