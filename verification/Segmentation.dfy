/** However the network splits a stream: what a receiver delivers, when the split can matter, and when the size cutoff
    closes the connection. */
module Segmentation {
  import opened Arith
  import opened Bytes
  import opened Wrappers
  import opened Headers
  import opened Framing

  /** A way the network may cut a stream. */
  predicate Segments(chunks: seq<Bytes>) {
    forall i :: 0 <= i < |chunks| ==> 0 < |chunks[i]| <= CHUNK
  }

  /** Segmentation independence: however a harmless stream is split, a receiver that is still open has
      delivered and kept exactly what cutting the whole stream at once gives. */
  lemma {:induction false} SegmentationIndependence(p: Proto, chunks: seq<Bytes>)
    requires p.headerSize > 0 && Harmless(p, Concat(chunks))
    ensures var rx, d := FeedAll(p, chunks), Drain(p, Concat(chunks));
            !rx.closed ==> rx == Rx(d.frames, d.rest, false)
    decreases |chunks|
  {
    if chunks != [] {
      var before, chunk := chunks[..|chunks| - 1], chunks[|chunks| - 1];
      ConcatSnoc(chunks);
      HarmlessPrefix(p, Concat(before), chunk);
      SegmentationIndependence(p, before);
      DrainSplit(p, Concat(before), chunk);
    }
  }

  /** Any split of a whole stream delivers exactly its frames. */
  lemma WholeStream(p: Proto, fs: seq<Bytes>, chunks: seq<Bytes>)
    requires p.headerSize > 0 && AllFrames(p, fs) && Concat(chunks) == Concat(fs) && !FeedAll(p, chunks).closed
    ensures FeedAll(p, chunks) == Rx(fs, [], false)
  {
    assert Concat(fs) + [] == Concat(fs);
    DrainFrames(p, fs, []);
    CleanIsHarmless(p, Concat(fs));
    SegmentationIndependence(p, chunks);
    assert fs + [] == fs;
  }

  // ---- when the split matters -------------------------------------------------------------------

  function FeedFrom(p: Proto, rx: Rx, chunks: seq<Bytes>): Rx
    requires p.headerSize > 0
  {
    if chunks == [] then rx else Feed(p, FeedFrom(p, rx, chunks[..|chunks| - 1]), chunks[|chunks| - 1])
  }

  lemma {:induction false} FeedAppend(p: Proto, a: seq<Bytes>, b: seq<Bytes>)
    requires p.headerSize > 0
    ensures FeedAll(p, a + b) == FeedFrom(p, FeedAll(p, a), b)
    decreases |b|
  {
    if b == [] {
      assert a + b == a;
    } else {
      assert (a + b)[..|a + b| - 1] == a + b[..|b| - 1];
      FeedAppend(p, a, b[..|b| - 1]);
    }
  }

  lemma FeedOne(p: Proto, rx: Rx, chunk: Bytes)
    requires p.headerSize > 0
    ensures FeedFrom(p, rx, [chunk]) == Feed(p, rx, chunk)
  {
    assert [chunk][..0] == [];
    assert FeedFrom(p, rx, []) == rx;
  }

  lemma {:induction false} ClosedForGood(p: Proto, rx: Rx, chunks: seq<Bytes>)
    requires p.headerSize > 0 && rx.closed
    ensures FeedFrom(p, rx, chunks).closed
    decreases |chunks|
  {
    if chunks != [] {
      ClosedForGood(p, rx, chunks[..|chunks| - 1]);
    }
  }

  /** The bytes a receiver has delivered or kept. */
  function Size(rx: Rx): nat { |Concat(rx.delivered)| + |rx.cache| }

  /** Nothing more to cut. */
  predicate Settled(p: Proto, rx: Rx) { PopMsg(p, rx.cache) == Popped(None, rx.cache) }

  /** One byte more: it is kept or completes a frame, unless it completes an oversized header, which goes alone. */
  lemma FeedByte(p: Proto, rx: Rx, x: byte)
    requires p.headerSize > 0 && Settled(p, rx) && !rx.closed && !Feed(p, rx, [x]).closed
    ensures var r := Feed(p, rx, [x]);
            Settled(p, r) && (Size(r) == Size(rx) + 1 || Size(r) + p.headerSize == Size(rx) + 1)
  {
    var c := rx.cache + [x];
    if |c| == p.headerSize && Oversized(p, c) {
      assert c[..p.headerSize] == c;
      assert rx.delivered + [] == rx.delivered;
    } else {
      ByteIsClean(p, rx.cache, x);
      DrainSound(p, c);
      DrainRest(p, c);
      ConcatAppend(rx.delivered, Drain(p, c).frames);
    }
  }

  lemma ByteIsClean(p: Proto, cache: Bytes, x: byte)
    requires p.headerSize > 0 && PopMsg(p, cache) == Popped(None, cache)
    requires !(|cache| + 1 == p.headerSize && Oversized(p, cache + [x]))
    ensures Clean(p, cache + [x])
  {
    var c := cache + [x];
    if |cache| >= p.headerSize {
      assert c[..p.headerSize] == cache[..p.headerSize];
    } else if |c| == p.headerSize {
      assert c[..p.headerSize] == c;
    }
  }

  /** Byte by byte, whole headers are all that can be lost. */
  lemma {:induction false} FeedSingles(p: Proto, rx: Rx, r: Bytes) returns (lost: nat)
    requires p.headerSize > 0 && Settled(p, rx) && !FeedFrom(p, rx, Singles(r)).closed
    ensures !rx.closed && Settled(p, FeedFrom(p, rx, Singles(r)))
    ensures Size(FeedFrom(p, rx, Singles(r))) + lost * p.headerSize == Size(rx) + |r|
    decreases |r|
  {
    if r == [] {
      lost := 0;
    } else {
      var n := |r| - 1;
      assert Singles(r)[..n] == Singles(r[..n]);
      var before := FeedFrom(p, rx, Singles(r[..n]));
      assert FeedFrom(p, rx, Singles(r)) == Feed(p, before, [r[n]]);
      var l := FeedSingles(p, rx, r[..n]);
      FeedByte(p, before, r[n]);
      if Size(Feed(p, before, [r[n]])) == Size(before) + 1 {
        lost := l;
      } else {
        lost := l + 1;
        MulNext(l, p.headerSize);
      }
    }
  }

  /** What makes a stream harmful: after some frames an oversized header, and a byte behind it. */
  lemma {:induction false} HarmfulShape(p: Proto, s: Bytes) returns (fs: seq<Bytes>, h: Bytes, x: byte, r: Bytes)
    requires p.headerSize > 0 && !Harmless(p, s)
    ensures AllFrames(p, fs) && |h| == p.headerSize && Oversized(p, h)
    ensures s == Concat(fs) + (h + ([x] + r))
    decreases |s|
  {
    if Oversized(p, s[..p.headerSize]) {
      fs, h, x, r := [], s[..p.headerSize], s[p.headerSize], s[p.headerSize + 1..];
      assert s == h + ([x] + r);
    } else {
      var f, t := PopMsg(p, s).frame.value, PopMsg(p, s).rest;
      PopSound(p, s);
      var fs';
      fs', h, x, r := HarmfulShape(p, t);
      fs := [f] + fs';
      assert fs[1..] == fs';
      Assoc(f, Concat(fs'), h + ([x] + r));
    }
  }

  /** The state in front of the last byte of the header. */
  lemma BeforeHeaderEnds(p: Proto, fs: seq<Bytes>, h: Bytes)
    requires p.headerSize > 0 && AllFrames(p, fs) && |h| == p.headerSize
    ensures var pre := Concat(fs) + h[..|h| - 1]; var rx := FeedAll(p, Singles(pre));
            !rx.closed ==> rx == Rx(fs, h[..|h| - 1], false)
  {
    var t := h[..|h| - 1];
    var pre := Concat(fs) + t;
    ConcatSingles(pre);
    DrainFrames(p, fs, t);
    assert Drain(p, t) == Drained([], t) && fs + [] == fs;
    CleanIsHarmless(p, pre);
    SegmentationIndependence(p, Singles(pre));
  }

  /** There, the header's last byte alone loses the header; together with the next byte, it loses that too. */
  lemma HeaderEnds(p: Proto, fs: seq<Bytes>, h: Bytes, x: byte)
    requires p.headerSize > 1 && |h| == p.headerSize && Oversized(p, h)
    ensures var rx, last := Rx(fs, h[..|h| - 1], false), h[|h| - 1];
            && (!Feed(p, rx, [last]).closed ==> Feed(p, rx, [last]) == Rx(fs, [], false))
            && (!Feed(p, rx, [last, x]).closed ==> Feed(p, rx, [last, x]) == Rx(fs, [], false))
            && Feed(p, Rx(fs, [], false), [x]) == Rx(fs, [x], false)
  {
    var t, last := h[..|h| - 1], h[|h| - 1];
    assert t + [last] == h && h[..p.headerSize] == h;
    assert (t + [last, x])[..p.headerSize] == h;
    assert [] + [x] == [x];
    assert fs + [] == fs;
  }

  /** Two splits of a harmful stream: byte by byte, and with those two bytes together. */
  function Pairing(pre: Bytes, last: byte, x: byte, r: Bytes): seq<Bytes> {
    Singles(pre) + [[last, x]] + Singles(r)
  }

  lemma ConcatPairing(pre: Bytes, last: byte, x: byte, r: Bytes)
    ensures Concat(Pairing(pre, last, x, r)) == pre + [last, x] + r && Segments(Pairing(pre, last, x, r))
  {
    ConcatThree(pre, [last, x], r);
  }

  lemma SinglesSplit(pre: Bytes, last: byte, x: byte, r: Bytes)
    ensures Singles(pre + [last, x] + r) == Singles(pre) + [[last]] + [[x]] + Singles(r)
  {
  }

  lemma FeedPairing(p: Proto, fs: seq<Bytes>, h: Bytes, x: byte, r: Bytes)
    requires p.headerSize > 1 && AllFrames(p, fs) && |h| == p.headerSize && Oversized(p, h)
    ensures var pre := Concat(fs) + h[..|h| - 1]; var rx := FeedAll(p, Pairing(pre, h[|h| - 1], x, r));
            !rx.closed ==> rx == FeedFrom(p, Rx(fs, [], false), Singles(r))
  {
    var pre, last := Concat(fs) + h[..|h| - 1], h[|h| - 1];
    var first := Singles(pre) + [[last, x]];
    FeedAppend(p, first, Singles(r));
    FeedAppend(p, Singles(pre), [[last, x]]);
    FeedOne(p, FeedAll(p, Singles(pre)), [last, x]);
    BeforeHeaderEnds(p, fs, h);
    HeaderEnds(p, fs, h, x);
    if FeedAll(p, first).closed {
      ClosedForGood(p, FeedAll(p, first), Singles(r));
    }
  }

  lemma FeedApart(p: Proto, fs: seq<Bytes>, h: Bytes, x: byte, r: Bytes)
    requires p.headerSize > 1 && AllFrames(p, fs) && |h| == p.headerSize && Oversized(p, h)
    ensures var pre := Concat(fs) + h[..|h| - 1]; var rx := FeedAll(p, Singles(pre + [h[|h| - 1], x] + r));
            !rx.closed ==> rx == FeedFrom(p, Rx(fs, [x], false), Singles(r))
  {
    var pre, last := Concat(fs) + h[..|h| - 1], h[|h| - 1];
    SinglesSplit(pre, last, x, r);
    var one := Singles(pre) + [[last]];
    FeedAppend(p, one + [[x]], Singles(r));
    FeedAppend(p, one, [[x]]);
    FeedAppend(p, Singles(pre), [[last]]);
    FeedOne(p, FeedAll(p, one), [x]);
    FeedOne(p, FeedAll(p, Singles(pre)), [last]);
    BeforeHeaderEnds(p, fs, h);
    HeaderEnds(p, fs, h, x);
    if FeedAll(p, one + [[x]]).closed {
      ClosedForGood(p, FeedAll(p, one + [[x]]), Singles(r));
    }
  }

  /** From there on the two can never agree: the difference of one byte is not a whole number of headers. */
  lemma NeverAgree(p: Proto, fs: seq<Bytes>, x: byte, r: Bytes)
    requires p.headerSize > 1
    ensures var a, b := FeedFrom(p, Rx(fs, [x], false), Singles(r)), FeedFrom(p, Rx(fs, [], false), Singles(r));
            !a.closed && !b.closed ==> a != b
  {
    var a, b := FeedFrom(p, Rx(fs, [x], false), Singles(r)), FeedFrom(p, Rx(fs, [], false), Singles(r));
    if !a.closed && !b.closed {
      var i := FeedSingles(p, Rx(fs, [x], false), r);
      var j := FeedSingles(p, Rx(fs, [], false), r);
      assert (i - j) * p.headerSize == i * p.headerSize - j * p.headerSize;
      MulBound(i - j, p.headerSize);
    }
  }

  /** A stream no split of which is cut off. */
  ghost predicate NeverTrips(p: Proto, s: Bytes)
    requires p.headerSize > 0
  {
    forall chunks {:trigger FeedAll(p, chunks)} | Segments(chunks) && Concat(chunks) == s :: !FeedAll(p, chunks).closed
  }

  /** How it is split makes no difference to what is delivered or kept. */
  ghost predicate Independent(p: Proto, s: Bytes)
    requires p.headerSize > 0
  {
    forall a, b {:trigger FeedAll(p, a), FeedAll(p, b)} |
      Segments(a) && Segments(b) && Concat(a) == s && Concat(b) == s :: FeedAll(p, a) == FeedAll(p, b)
  }

  lemma HarmfulDepends(p: Proto, s: Bytes)
    requires p.headerSize > 1 && NeverTrips(p, s) && !Harmless(p, s)
    ensures !Independent(p, s)
  {
    var fs, h, x, r := HarmfulShape(p, s);
    var pre, last := Concat(fs) + h[..|h| - 1], h[|h| - 1];
    SameBytes(Concat(fs), h, x, r);
    ConcatPairing(pre, last, x, r);
    ConcatSingles(s);
    FeedPairing(p, fs, h, x, r);
    FeedApart(p, fs, h, x, r);
    NeverAgree(p, fs, x, r);
    assert Segments(Singles(s));
    assert FeedAll(p, Singles(s)) != FeedAll(p, Pairing(pre, last, x, r));
  }

  lemma SameBytes(a: Bytes, h: Bytes, x: byte, r: Bytes)
    requires h != []
    ensures a + (h + ([x] + r)) == a + h[..|h| - 1] + [h[|h| - 1], x] + r
  {
    assert h == h[..|h| - 1] + [h[|h| - 1]];
  }

  /** The exact condition, for streams that are not cut off and headers longer than a byte: the split makes no
      difference if and only if no oversized header is followed by another byte. */
  lemma SegmentationExact(p: Proto, s: Bytes)
    requires p.headerSize > 1 && NeverTrips(p, s)
    ensures Harmless(p, s) <==> Independent(p, s)
    ensures Harmless(p, s) ==> forall chunks {:trigger FeedAll(p, chunks)} | Segments(chunks) && Concat(chunks) == s ::
              FeedAll(p, chunks) == Rx(Drain(p, s).frames, Drain(p, s).rest, false)
  {
    if Harmless(p, s) {
      forall chunks {:trigger FeedAll(p, chunks)} | Segments(chunks) && Concat(chunks) == s
        ensures FeedAll(p, chunks) == Rx(Drain(p, s).frames, Drain(p, s).rest, false)
      {
        SegmentationIndependence(p, chunks);
      }
    } else {
      HarmfulDepends(p, s);
    }
  }

  lemma {:induction false} RestShorter(p: Proto, s: Bytes)
    requires p.headerSize > 0
    ensures |Drain(p, s).rest| <= |s|
    decreases |s|
  {
    if PopMsg(p, s).frame.Some? {
      RestShorter(p, PopMsg(p, s).rest);
    }
  }

  /** A stream no longer than the limit is one. */
  lemma {:induction false} ShortIsOpen(p: Proto, chunks: seq<Bytes>)
    requires p.headerSize > 0 && Segments(chunks) && |Concat(chunks)| <= MAX_PENDING
    ensures !FeedAll(p, chunks).closed && |FeedAll(p, chunks).cache| <= |Concat(chunks)|
    decreases |chunks|
  {
    if chunks != [] {
      var before, chunk := chunks[..|chunks| - 1], chunks[|chunks| - 1];
      ConcatSnoc(chunks);
      ShortIsOpen(p, before);
      RestShorter(p, FeedAll(p, before).cache + chunk);
    }
  }

  lemma ShortNeverTrips(p: Proto, s: Bytes)
    requires p.headerSize > 0 && |s| <= MAX_PENDING
    ensures NeverTrips(p, s)
  {
    forall chunks {:trigger FeedAll(p, chunks)} | Segments(chunks) && Concat(chunks) == s
      ensures !FeedAll(p, chunks).closed
    {
      ShortIsOpen(p, chunks);
    }
  }

  // ---- in the two protocols ---------------------------------------------------------------------

  /** The default protocol's size field cannot say more than is allowed, so its streams can be split at will. */
  lemma {:induction false} DefaultAlwaysClean(s: Bytes)
    ensures Clean(DefaultProto(), s)
    decreases |s|
  {
    if |s| >= 4 {
      var n := 4 + DefaultBodySize(s[..4]);
      if |s| >= n {
        DefaultAlwaysClean(s[n..]);
      }
    }
  }

  /** A message header as it is on the wire. */
  function OnWire(h: Header): (s: Bytes)
    ensures |s| == HEADER_SIZE
  {
    StoreHeader(Hton(h))
  }

  /** The message protocol has oversized headers: any that announces more than 16 MiB. */
  lemma OversizedOnWire(h: Header)
    ensures Oversized(LyProto(), OnWire(h)) <==> h.size > MAX_BODY
  {
    SizeField(h);
  }

  /** The smallest case, 21 bytes: any byte behind such a header. Byte by byte it is kept; together with the end of
      the header it is lost. */
  lemma LySplitMatters(h: Header, x: byte)
    requires h.size > MAX_BODY
    ensures !Harmless(LyProto(), OnWire(h) + [x]) && !Independent(LyProto(), OnWire(h) + [x])
  {
    OversizedOnWire(h);
    HeaderAndByte(LyProto(), OnWire(h), x);
  }

  lemma HeaderAndByte(p: Proto, h: Bytes, x: byte)
    requires 1 < p.headerSize == |h| < MAX_PENDING && Oversized(p, h)
    ensures !Harmless(p, h + [x]) && !Independent(p, h + [x])
  {
    assert (h + [x])[..p.headerSize] == h;
    ShortNeverTrips(p, h + [x]);
    SegmentationExact(p, h + [x]);
  }

  // ---- when the size cutoff closes a connection -------------------------------------------------

  /** The bytes behind frame `i`. */
  function After(fs: seq<Bytes>, i: nat): Bytes
    requires i < |fs|
  {
    Concat(fs[i + 1..])
  }

  /** The most that can be cached while frame `i` is incomplete: all but its last byte, and then a chunk
      limited by its own size and by what is left of the stream. */
  function Peak(fs: seq<Bytes>, i: nat): int
    requires i < |fs|
  {
    |fs[i]| - 1 + Min(CHUNK, 1 + |After(fs, i)|)
  }

  predicate CutoffSafe(fs: seq<Bytes>) {
    forall i :: 0 <= i < |fs| ==> Peak(fs, i) <= MAX_PENDING
  }

  /** How much of frame list `fs` the first `n` bytes complete. */
  function WholeFrames(fs: seq<Bytes>, n: nat): (k: nat)
    ensures k <= |fs|
  {
    if fs == [] || n < |fs[0]| then 0 else 1 + WholeFrames(fs[1..], n - |fs[0]|)
  }

  /** Where the first `n` bytes end: behind `k` whole frames, inside the next one. */
  ghost predicate Cut(fs: seq<Bytes>, n: nat, k: nat)
    requires k <= |fs|
  {
    && |Concat(fs[..k])| <= n
    && (k == |fs| ==> n == |Concat(fs)|)
    && (k < |fs| ==> n < |Concat(fs[..k])| + |fs[k]|)
  }

  lemma {:induction false} WholeFramesCut(fs: seq<Bytes>, n: nat)
    requires n <= |Concat(fs)|
    ensures Cut(fs, n, WholeFrames(fs, n))
  {
    if fs != [] && n >= |fs[0]| {
      var k := WholeFrames(fs, n);
      WholeFramesCut(fs[1..], n - |fs[0]|);
      assert fs[..k][1..] == fs[1..][..k - 1];
      assert k == |fs| ==> fs[..k] == fs;
    }
  }

  lemma {:induction false} CutUnique(fs: seq<Bytes>, n: nat, k: nat)
    requires k < |fs| && Cut(fs, n, k)
    ensures WholeFrames(fs, n) == k
  {
    if k > 0 {
      assert fs[..k][1..] == fs[1..][..k - 1];
      CutUnique(fs[1..], n - |fs[0]|, k - 1);
    }
  }

  /** The bytes of the unfinished frame. */
  lemma CutTail(fs: seq<Bytes>, n: nat, k: nat)
    requires k <= |fs| && Cut(fs, n, k) && n <= |Concat(fs)|
    ensures var t := Concat(fs)[|Concat(fs[..k])|..n];
            && Concat(fs)[..n] == Concat(fs[..k]) + t
            && (k < |fs| ==> t == fs[k][..|t|])
  {
    var done := Concat(fs[..k]);
    assert fs == fs[..k] + fs[k..];
    ConcatAppend(fs[..k], fs[k..]);
    assert Concat(fs)[..n] == done + Concat(fs)[|done|..n];
    if k < |fs| {
      var t := Concat(fs)[|done|..n];
      assert t == Concat(fs[k..])[..|t|];
      assert Concat(fs[k..])[..|t|] == fs[k][..|t|];
    }
  }

  lemma Lengths(fs: seq<Bytes>, k: nat)
    requires k <= |fs|
    ensures |Concat(fs[..k])| <= |Concat(fs)|
    ensures k < |fs| ==> |Concat(fs)| == |Concat(fs[..k])| + |fs[k]| + |After(fs, k)|
  {
    assert fs == fs[..k] + fs[k..];
    ConcatAppend(fs[..k], fs[k..]);
    if k < |fs| {
      assert fs[k..][1..] == fs[k + 1..];
    }
  }

  /** Every prefix of a stream of well-formed frames is cut into the frames it completes, and what is
      left is a proper beginning of the next one. */
  lemma DrainPrefix(p: Proto, fs: seq<Bytes>, n: nat)
    requires p.headerSize > 0 && AllFrames(p, fs) && n <= |Concat(fs)|
    ensures var k := WholeFrames(fs, n);
            && |Concat(fs[..k])| <= n
            && Drain(p, Concat(fs)[..n]) == Drained(fs[..k], Concat(fs)[|Concat(fs[..k])|..n])
            && Clean(p, Concat(fs)[..n])
  {
    var k := WholeFrames(fs, n);
    WholeFramesCut(fs, n);
    CutTail(fs, n, k);
    var t := Concat(fs)[|Concat(fs[..k])|..n];
    DrainFrames(p, fs[..k], t);
    if k < |fs| {
      PartialFrame(p, fs[k], t);
    } else {
      assert fs[..k] == fs && t == [];
    }
    assert fs[..k] + [] == fs[..k];
  }

  lemma PartialFrame(p: Proto, f: Bytes, t: Bytes)
    requires p.headerSize > 0 && WellFormed(p, f) && |t| < |f| && t == f[..|t|]
    ensures Drain(p, t) == Drained([], t) && Clean(p, t)
  {
    if |t| >= p.headerSize {
      assert t[..p.headerSize] == f[..p.headerSize];
    }
  }

  /** What a receiver holds after any split of a beginning of the stream. */
  lemma Received(p: Proto, fs: seq<Bytes>, chunks: seq<Bytes>)
    requires p.headerSize > 0 && AllFrames(p, fs)
    requires Concat(chunks) <= Concat(fs)
    ensures var rx := FeedAll(p, chunks); var k := WholeFrames(fs, |Concat(chunks)|);
            !rx.closed ==> && rx.delivered == fs[..k]
                           && |rx.cache| == |Concat(chunks)| - |Concat(fs[..k])|
                           && (k < |fs| ==> |rx.cache| < |fs[k]|)
                           && (k == |fs| ==> rx.cache == [])
  {
    var n := |Concat(chunks)|;
    assert Concat(fs)[..n] == Concat(chunks);
    DrainPrefix(p, fs, n);
    CleanIsHarmless(p, Concat(chunks));
    SegmentationIndependence(p, chunks);
    WholeFramesCut(fs, n);
    assert WholeFrames(fs, n) == |fs| ==> fs[..WholeFrames(fs, n)] == fs;
  }

  /** A stream that respects the peak bound is never cut off, whatever the split. */
  lemma {:induction false} NeverCutOff(p: Proto, fs: seq<Bytes>, chunks: seq<Bytes>)
    requires p.headerSize > 0 && AllFrames(p, fs) && CutoffSafe(fs)
    requires Segments(chunks) && Concat(chunks) <= Concat(fs)
    ensures !FeedAll(p, chunks).closed
    decreases |chunks|
  {
    if chunks != [] {
      var before, chunk := chunks[..|chunks| - 1], chunks[|chunks| - 1];
      ConcatSnoc(chunks);
      assert Concat(before) <= Concat(chunks);
      NeverCutOff(p, fs, before);
      Received(p, fs, before);
      var k := WholeFrames(fs, |Concat(before)|);
      Lengths(fs, k);
      WholeFramesCut(fs, |Concat(before)|);
      assert k < |fs| ==> Peak(fs, k) <= MAX_PENDING;
    }
  }

  /** One byte at a time. */
  function Singles(s: Bytes): (r: seq<Bytes>)
    ensures |r| == |s| && forall i :: 0 <= i < |s| ==> r[i] == [s[i]]
  {
    seq(|s|, i requires 0 <= i < |s| => [s[i]])
  }

  lemma {:induction false} ConcatSingles(s: Bytes)
    ensures Concat(Singles(s)) == s
  {
    if s != [] {
      assert Singles(s)[1..] == Singles(s[1..]);
      ConcatSingles(s[1..]);
    }
  }

  lemma {:induction false} StaysClosed(p: Proto, a: seq<Bytes>, b: seq<Bytes>)
    requires p.headerSize > 0 && FeedAll(p, a).closed
    ensures FeedAll(p, a + b).closed
    decreases |b|
  {
    if b == [] {
      assert a + b == a;
    } else {
      assert (a + b)[..|a + b| - 1] == a + b[..|b| - 1];
      StaysClosed(p, a, b[..|b| - 1]);
    }
  }

  /** The split that reaches the peak of frame `i`: everything up to its last byte one byte at a time,
      then the largest chunk there can be, then the rest. */
  function WorstSplit(fs: seq<Bytes>, i: nat): (r: (Bytes, Bytes, Bytes))
    requires i < |fs| && |fs[i]| > 0
  {
    Lengths(fs, i);
    var all := Concat(fs);
    var pos := |Concat(fs[..i])| + |fs[i]| - 1;
    var next := pos + Min(CHUNK, 1 + |After(fs, i)|);
    (all[..pos], all[pos..next], all[next..])
  }

  lemma WorstSplitShape(fs: seq<Bytes>, i: nat)
    requires i < |fs| && |fs[i]| > 0
    ensures var (a, chunk, b) := WorstSplit(fs, i);
            && a + chunk + b == Concat(fs) && a <= Concat(fs)
            && |chunk| == Min(CHUNK, 1 + |After(fs, i)|) && Cut(fs, |a|, i)
            && |a| == |Concat(fs[..i])| + |fs[i]| - 1
  {
    Lengths(fs, i);
    var (a, chunk, b) := WorstSplit(fs, i);
    assert a + chunk + b == Concat(fs);
  }

  lemma WorstSplitTrips(p: Proto, fs: seq<Bytes>, i: nat)
    requires p.headerSize > 0 && AllFrames(p, fs) && i < |fs| && Peak(fs, i) > MAX_PENDING
    ensures |fs[i]| > 0
    ensures var (a, chunk, b) := WorstSplit(fs, i); FeedAll(p, Singles(a) + [chunk]).closed
  {
    WorstSplitShape(fs, i);
    var (a, chunk, b) := WorstSplit(fs, i);
    var before := Singles(a);
    ConcatSingles(a);
    Received(p, fs, before);
    CutUnique(fs, |a|, i);
    assert (before + [chunk])[..|before|] == before;
  }

  lemma ConcatThree(a: Bytes, chunk: Bytes, b: Bytes)
    ensures Concat(Singles(a) + [chunk] + Singles(b)) == a + chunk + b
  {
    ConcatSingles(a);
    ConcatSingles(b);
    ConcatOne(chunk);
    ConcatAppend(Singles(a), [chunk]);
    ConcatAppend(Singles(a) + [chunk], Singles(b));
  }

  lemma SplitsIntoSegments(a: Bytes, chunk: Bytes, b: Bytes)
    requires 0 < |chunk| <= CHUNK
    ensures Segments(Singles(a) + [chunk] + Singles(b))
  {
  }

  lemma UnsafeSplit(p: Proto, fs: seq<Bytes>, i: nat) returns (chunks: seq<Bytes>)
    requires p.headerSize > 0 && AllFrames(p, fs) && i < |fs| && Peak(fs, i) > MAX_PENDING
    ensures Segments(chunks) && Concat(chunks) == Concat(fs) && FeedAll(p, chunks).closed
  {
    WorstSplitTrips(p, fs, i);
    WorstSplitShape(fs, i);
    var (a, chunk, b) := WorstSplit(fs, i);
    chunks := Singles(a) + [chunk] + Singles(b);
    SplitsIntoSegments(a, chunk, b);
    StaysClosed(p, Singles(a) + [chunk], Singles(b));
    ConcatThree(a, chunk, b);
  }

  /** The exact condition: some split of the stream gets its connection closed if and only if some
      frame's peak is over the limit. */
  lemma CutoffExact(p: Proto, fs: seq<Bytes>)
    requires p.headerSize > 0 && AllFrames(p, fs)
    ensures CutoffSafe(fs) <==>
            forall chunks {:trigger FeedAll(p, chunks)} | Segments(chunks) && Concat(chunks) == Concat(fs) ::
              !FeedAll(p, chunks).closed
  {
    if CutoffSafe(fs) {
      forall chunks {:trigger FeedAll(p, chunks)} | Segments(chunks) && Concat(chunks) == Concat(fs)
        ensures !FeedAll(p, chunks).closed
      {
        NeverCutOff(p, fs, chunks);
      }
    } else {
      var i :| 0 <= i < |fs| && Peak(fs, i) > MAX_PENDING;
      var _ := UnsafeSplit(p, fs, i);
    }
  }

  /** The bound a sender can respect without knowing what follows. */
  lemma FrameBound(fs: seq<Bytes>)
    requires forall i :: 0 <= i < |fs| ==> |fs[i]| <= MAX_PENDING - (CHUNK - 1)
    ensures CutoffSafe(fs)
  {
  }

  // ---- frames no split gets through -------------------------------------------------------------

  lemma {:induction false} LengthsGrow(fs: seq<Bytes>, i: nat, j: nat)
    requires i <= j <= |fs|
    ensures |Concat(fs[..i])| <= |Concat(fs[..j])|
  {
    if i < j {
      LengthsGrow(fs, i, j - 1);
      NextLength(fs, j - 1);
    }
  }

  lemma NextLength(fs: seq<Bytes>, i: nat)
    requires i < |fs|
    ensures |Concat(fs[..i + 1])| == |Concat(fs[..i])| + |fs[i]|
  {
    assert fs[..i + 1][..i] == fs[..i];
    ConcatSnoc(fs[..i + 1]);
  }

  /** However it arrives, a frame over the limit has closed the connection by the time it is complete. */
  lemma {:induction false} LongFrameCloses(p: Proto, fs: seq<Bytes>, i: nat, chunks: seq<Bytes>)
    requires p.headerSize > 0 && AllFrames(p, fs) && i < |fs| && |fs[i]| > MAX_PENDING
    requires Concat(chunks) <= Concat(fs) && |Concat(chunks)| >= |Concat(fs[..i + 1])|
    ensures FeedAll(p, chunks).closed
    decreases |chunks|
  {
    NextLength(fs, i);
    var before, chunk := chunks[..|chunks| - 1], chunks[|chunks| - 1];
    ConcatSnoc(chunks);
    assert Concat(before) <= Concat(chunks);
    if |Concat(before)| >= |Concat(fs[..i + 1])| {
      LongFrameCloses(p, fs, i, before);
    } else if !FeedAll(p, before).closed {
      Received(p, fs, before);
      var k := WholeFrames(fs, |Concat(before)|);
      WholeFramesCut(fs, |Concat(before)|);
      if k > i {
        LengthsGrow(fs, i + 1, k);
      } else {
        LengthsGrow(fs, k, i);
      }
    }
  }

  lemma OneByteMore(p: Proto, fs: seq<Bytes>, before: seq<Bytes>, x: byte)
    requires p.headerSize > 0 && AllFrames(p, fs) && forall i :: 0 <= i < |fs| ==> |fs[i]| <= MAX_PENDING
    requires Concat(before) <= Concat(fs) && |Concat(before)| < |Concat(fs)| && !FeedAll(p, before).closed
    ensures !FeedAll(p, before + [[x]]).closed
  {
    assert (before + [[x]])[..|before|] == before;
    Received(p, fs, before);
    WholeFramesCut(fs, |Concat(before)|);
  }

  /** Byte by byte, frames within the limit get through. */
  lemma {:induction false} SinglesSurvive(p: Proto, fs: seq<Bytes>, n: nat)
    requires p.headerSize > 0 && AllFrames(p, fs) && n <= |Concat(fs)|
    requires forall i :: 0 <= i < |fs| ==> |fs[i]| <= MAX_PENDING
    ensures !FeedAll(p, Singles(Concat(fs)[..n])).closed
  {
    var s := Concat(fs);
    if n > 0 {
      SinglesSurvive(p, fs, n - 1);
      ConcatSingles(s[..n - 1]);
      OneByteMore(p, fs, Singles(s[..n - 1]), s[n - 1]);
      assert Singles(s[..n]) == Singles(s[..n - 1]) + [[s[n - 1]]];
    } else {
      assert Singles(s[..0]) == [];
    }
  }

  /** The second threshold: some split of the stream gets through if and only if no frame is longer than the limit. */
  lemma SurvivableExact(p: Proto, fs: seq<Bytes>)
    requires p.headerSize > 0 && AllFrames(p, fs)
    ensures (forall i :: 0 <= i < |fs| ==> |fs[i]| <= MAX_PENDING) <==>
            exists chunks :: Segments(chunks) && Concat(chunks) == Concat(fs) && !FeedAll(p, chunks).closed
  {
    if forall i :: 0 <= i < |fs| ==> |fs[i]| <= MAX_PENDING {
      var s := Concat(fs);
      assert s[..|s|] == s;
      SinglesSurvive(p, fs, |s|);
      ConcatSingles(s);
      assert Segments(Singles(s));
    } else {
      var i :| 0 <= i < |fs| && |fs[i]| > MAX_PENDING;
      forall chunks {:trigger FeedAll(p, chunks)} | Segments(chunks) && Concat(chunks) == Concat(fs)
        ensures FeedAll(p, chunks).closed
      {
        Lengths(fs, i + 1);
        LongFrameCloses(p, fs, i, chunks);
      }
    }
  }

  /** Every split of the stream gets the connection closed. */
  ghost predicate NeverArrives(p: Proto, s: Bytes)
    requires p.headerSize > 0
  {
    forall chunks {:trigger FeedAll(p, chunks)} | Segments(chunks) && Concat(chunks) == s :: FeedAll(p, chunks).closed
  }

  lemma LongFrameNeverArrives(p: Proto, f: Bytes)
    requires p.headerSize > 0 && WellFormed(p, f) && |f| > MAX_PENDING
    ensures !CutoffSafe([f]) && NeverArrives(p, f)
  {
    ConcatOne(f);
    assert [f][1..] == [];
    assert Peak([f], 0) > MAX_PENDING;
    forall chunks {:trigger FeedAll(p, chunks)} | Segments(chunks) && Concat(chunks) == f
      ensures FeedAll(p, chunks).closed
    {
      assert [f][..1] == [f];
      LongFrameCloses(p, [f], 0, chunks);
    }
  }

  /** The messages the protocol accepts and no connection can deliver: bodies from about 10 MiB to 16 MiB. */
  lemma LegalFrameCutOff(h: Header, body: Bytes)
    requires MAX_PENDING - HEADER_SIZE < |body| <= MAX_BODY
    ensures WellFormed(LyProto(), PackMsg(h, body)) && !CutoffSafe([PackMsg(h, body)])
    ensures NeverArrives(LyProto(), PackMsg(h, body))
  {
    PackMsgFrames(h, body);
    LongFrameNeverArrives(LyProto(), PackMsg(h, body));
  }

  /** There are such messages: 10 MiB of zeros. */
  lemma TenMebibytesNeverArrive(h: Header)
    ensures var f := PackMsg(h, seq(MAX_PENDING, _ => 0)); WellFormed(LyProto(), f) && NeverArrives(LyProto(), f)
  {
    LegalFrameCutOff(h, seq(MAX_PENDING, _ => 0));
  }
}
