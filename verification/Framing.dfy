/** The receiving half of a connection: a growable byte buffer, the loop that cuts it into frames, and
    the proof that how the network splits the stream makes no difference. */
module Framing {
  import opened Arith
  import opened Bytes
  import opened Wrappers
  import opened Headers

  /** A connection is closed once this much is waiting for the rest of its frame. */
  const MAX_PENDING: nat := 10485760
  /** The most one receive call returns. */
  const CHUNK: nat := 4096
  /** The block size of a connection's receive cache. */
  const CACHE_BLOCK: nat := 1024

  // ---- the growable buffer ----------------------------------------------------------------------

  /** An unsigned 32-bit size returned as a signed one. */
  function AsInt(size: nat): int {
    if size < 0x8000_0000 then size else size - 0x1_0000_0000
  }

  class Memchunk {
    var buffer: array<byte>
    var datasize: nat
    const blocksize: nat

    ghost predicate Valid()
      reads this, buffer
    {
      blocksize > 0 && buffer.Length > 0 && datasize <= buffer.Length && buffer.Length % blocksize == 0
    }

    ghost function Contents(): Bytes
      requires Valid()
      reads this, buffer
    {
      buffer[..datasize]
    }

    constructor (block: nat)
      requires block > 0
      ensures Valid() && Contents() == [] && blocksize == block && buffer.Length == block && fresh(buffer)
    {
      blocksize := block;
      buffer := new byte[block];
      datasize := 0;
    }

    /** Makes room for `target` bytes, in whole blocks and always with slack. */
    method Grow(target: nat)
      requires Valid()
      modifies this
      ensures Valid() && Contents() == old(Contents()) && target <= buffer.Length
      ensures buffer == old(buffer) || (fresh(buffer) && target < buffer.Length <= target + blocksize)
    {
      if target > buffer.Length {
        var size := (target / blocksize + 1) * blocksize;
        RoundPast(target, blocksize);
        var bigger := new byte[size];
        forall i | 0 <= i < datasize {
          bigger[i] := buffer[i];
        }
        buffer := bigger;
      }
    }

    /** Appends; refuses nothing but the empty chunk. The sizes must not run over the 32-bit fields; a total of
        2^31 or more comes back as a negative number. */
    method Push(data: Bytes) returns (rc: int)
      requires Valid()
      requires datasize + |data| + blocksize < 0x1_0000_0000
      modifies this, buffer
      ensures Valid() && (buffer == old(buffer) || fresh(buffer))
      ensures data == [] ==> rc == -1 && buffer == old(buffer)
      ensures data != [] ==> rc == AsInt(datasize)
      ensures Contents() == old(Contents()) + data
    {
      if |data| == 0 {
        return -1;
      }
      var target := datasize + |data|;
      Grow(target);
      forall i | 0 <= i < |data| {
        buffer[datasize + i] := data[i];
      }
      datasize := target;
      rc := AsInt(datasize);
    }

    /** Drops the first `sz` bytes by moving the others down. */
    method Pop(sz: nat) returns (rc: int)
      requires Valid()
      modifies this`datasize, buffer
      ensures Valid()
      ensures sz == 0 || sz > old(datasize) ==> rc == -1 && Contents() == old(Contents())
      ensures 0 < sz <= old(datasize) ==> rc == AsInt(datasize) && Contents() == old(Contents())[sz..]
    {
      if sz > datasize || sz == 0 {
        return -1;
      }
      if sz == datasize {
        forall i | 0 <= i < datasize {
          buffer[i] := 0;
        }
      } else {
        var n := datasize - sz;
        forall i | 0 <= i < n {
          buffer[i] := buffer[sz + i];
        }
      }
      datasize := datasize - sz;
      rc := AsInt(datasize);
    }
  }

  lemma RoundPast(target: nat, block: nat)
    requires block > 0
    ensures var size := (target / block + 1) * block;
            target < size <= target + block && size % block == 0
  {
    assert target == (target / block) * block + target % block;
    MulMod(target / block + 1, block);
  }

  // ---- cutting the buffer into frames -----------------------------------------------------------

  datatype Popped = Popped(frame: Option<Bytes>, rest: Bytes)

  /** One frame off the front. An oversized header throws the whole cache away. */
  function PopMsg(p: Proto, cache: Bytes): Popped {
    if |cache| < p.headerSize then Popped(None, cache)
    else
      var body := p.bodySize(cache[..p.headerSize]);
      if body > MAX_BODY then Popped(None, [])
      else if |cache| >= p.headerSize + body
        then Popped(Some(cache[..p.headerSize + body]), cache[p.headerSize + body..])
      else Popped(None, cache)
  }

  datatype Drained = Drained(frames: seq<Bytes>, rest: Bytes)

  /** Frames until there is no whole one left. */
  function Drain(p: Proto, cache: Bytes): Drained
    requires p.headerSize > 0
    decreases |cache|
  {
    var r := PopMsg(p, cache);
    if r.frame.None? then Drained([], r.rest)
    else
      var d := Drain(p, r.rest);
      Drained([r.frame.value] + d.frames, d.rest)
  }

  /** No oversized header turns up while the stream is cut. */
  predicate Clean(p: Proto, s: Bytes)
    requires p.headerSize > 0
    decreases |s|
  {
    if |s| < p.headerSize then true
    else
      var body := p.bodySize(s[..p.headerSize]);
      body <= MAX_BODY && (|s| < p.headerSize + body || Clean(p, s[p.headerSize + body..]))
  }

  predicate Oversized(p: Proto, h: Bytes) { p.bodySize(h) > MAX_BODY }

  /** No oversized header is followed by another byte. */
  predicate Harmless(p: Proto, s: Bytes)
    requires p.headerSize > 0
    decreases |s|
  {
    if |s| < p.headerSize then true
    else if Oversized(p, s[..p.headerSize]) then |s| == p.headerSize
    else
      var n := p.headerSize + p.bodySize(s[..p.headerSize]);
      |s| < n || Harmless(p, s[n..])
  }

  lemma {:induction false} CleanIsHarmless(p: Proto, s: Bytes)
    requires p.headerSize > 0 && Clean(p, s)
    ensures Harmless(p, s)
    decreases |s|
  {
    if |s| >= p.headerSize {
      var n := p.headerSize + p.bodySize(s[..p.headerSize]);
      if |s| >= n {
        CleanIsHarmless(p, s[n..]);
      }
    }
  }

  predicate AllFrames(p: Proto, fs: seq<Bytes>) {
    forall i :: 0 <= i < |fs| ==> WellFormed(p, fs[i])
  }

  lemma PopFrame(p: Proto, f: Bytes, t: Bytes)
    requires WellFormed(p, f)
    ensures PopMsg(p, f + t) == Popped(Some(f), t)
  {
    assert (f + t)[..p.headerSize] == f[..p.headerSize];
    assert (f + t)[..|f|] == f && (f + t)[|f|..] == t;
  }

  lemma PopSound(p: Proto, s: Bytes)
    ensures var r := PopMsg(p, s);
            r.frame.Some? && p.headerSize > 0 ==> WellFormed(p, r.frame.value) && s == r.frame.value + r.rest
  {
    var r := PopMsg(p, s);
    if r.frame.Some? {
      assert r.frame.value[..p.headerSize] == s[..p.headerSize];
    }
  }

  lemma DrainOne(p: Proto, f: Bytes, t: Bytes)
    requires p.headerSize > 0 && WellFormed(p, f)
    ensures Drain(p, f + t) == Drained([f] + Drain(p, t).frames, Drain(p, t).rest)
    ensures Clean(p, f + t) == Clean(p, t) && Harmless(p, f + t) == Harmless(p, t)
  {
    PopFrame(p, f, t);
    assert (f + t)[..p.headerSize] == f[..p.headerSize];
    assert (f + t)[|f|..] == t;
  }

  /** Draining inverts concatenation: each well-formed frame comes out whole, in its place. */
  lemma {:induction false} DrainFrames(p: Proto, fs: seq<Bytes>, tail: Bytes)
    requires p.headerSize > 0 && AllFrames(p, fs)
    ensures Drain(p, Concat(fs) + tail) == Drained(fs + Drain(p, tail).frames, Drain(p, tail).rest)
    ensures Clean(p, Concat(fs) + tail) == Clean(p, tail)
  {
    var d := Drain(p, tail);
    if fs == [] {
      assert Concat(fs) + tail == tail;
      assert fs + d.frames == d.frames;
    } else {
      var more := Concat(fs[1..]) + tail;
      DrainFrames(p, fs[1..], tail);
      DrainOne(p, fs[0], more);
      Assoc(fs[0], Concat(fs[1..]), tail);
      FirstFrame(fs, d.frames);
    }
  }

  lemma FirstFrame(fs: seq<Bytes>, gs: seq<Bytes>)
    requires fs != []
    ensures [fs[0]] + (fs[1..] + gs) == fs + gs
  {
    assert [fs[0]] + fs[1..] == fs;
  }

  /** Conversely whatever is drained is made of well-formed frames, and on a clean stream no byte is
      lost or reordered. */
  lemma {:induction false} DrainSound(p: Proto, s: Bytes)
    requires p.headerSize > 0
    ensures AllFrames(p, Drain(p, s).frames)
    ensures Clean(p, s) ==> Concat(Drain(p, s).frames) + Drain(p, s).rest == s
    decreases |s|
  {
    var r := PopMsg(p, s);
    PopSound(p, s);
    if r.frame.Some? {
      var f, d := r.frame.value, Drain(p, r.rest);
      DrainOne(p, f, r.rest);
      DrainSound(p, r.rest);
      assert ([f] + d.frames)[1..] == d.frames;
      Assoc(f, Concat(d.frames), d.rest);
    }
  }

  /** What a clean stream leaves in the cache yields no further frame: it is short of its header, or
      short of the body its header announces. */
  lemma {:induction false} DrainRest(p: Proto, s: Bytes)
    requires p.headerSize > 0 && Clean(p, s)
    ensures PopMsg(p, Drain(p, s).rest) == Popped(None, Drain(p, s).rest)
    decreases |s|
  {
    var r := PopMsg(p, s);
    if r.frame.Some? {
      DrainRest(p, r.rest);
    }
  }

  /** Cutting now and cutting the leftovers later together with what comes next is the same as cutting
      everything at once. */
  predicate CutsAlike(p: Proto, a: Bytes, b: Bytes)
    requires p.headerSize > 0
  {
    var now := Drain(p, a);
    var later := Drain(p, now.rest + b);
    Drain(p, a + b) == Drained(now.frames + later.frames, later.rest)
  }

  lemma {:induction false} DrainSplit(p: Proto, a: Bytes, b: Bytes)
    requires p.headerSize > 0 && Harmless(p, a + b)
    ensures CutsAlike(p, a, b)
    decreases |a|
  {
    var r := PopMsg(p, a);
    PopSound(p, a);
    if r.frame.Some? {
      var f := r.frame.value;
      Assoc(f, r.rest, b);
      DrainOne(p, f, r.rest);
      DrainOne(p, f, r.rest + b);
      DrainSplit(p, r.rest, b);
      RegroupFrames(f, Drain(p, r.rest).frames, Drain(p, Drain(p, r.rest).rest + b).frames);
    } else {
      NothingWhole(p, a, b);
    }
  }

  lemma RegroupFrames(f: Bytes, fs: seq<Bytes>, gs: seq<Bytes>)
    ensures [f] + (fs + gs) == [f] + fs + gs
  {
  }

  lemma NothingWhole(p: Proto, a: Bytes, b: Bytes)
    requires p.headerSize > 0 && Harmless(p, a + b) && PopMsg(p, a).frame.None?
    ensures CutsAlike(p, a, b)
  {
    if |a| >= p.headerSize {
      assert (a + b)[..p.headerSize] == a[..p.headerSize];
      if Oversized(p, a[..p.headerSize]) {
        assert b == [] && a + b == a && [] + b == [];
      }
    }
  }

  lemma {:induction false} HarmlessPrefix(p: Proto, a: Bytes, b: Bytes)
    requires p.headerSize > 0 && Harmless(p, a + b)
    ensures Harmless(p, a)
    decreases |a|
  {
    if |a| >= p.headerSize {
      assert (a + b)[..p.headerSize] == a[..p.headerSize];
      var n := p.headerSize + p.bodySize(a[..p.headerSize]);
      if |a| >= n && !Oversized(p, a[..p.headerSize]) {
        assert (a + b)[n..] == a[n..] + b;
        HarmlessPrefix(p, a[n..], b);
      }
    }
  }

  /** A stream that is not harmless drops its end, whether or not the last byte is there. */
  lemma {:induction false} HarmfulDrops(p: Proto, s: Bytes)
    requires p.headerSize > 0 && !Harmless(p, s)
    ensures s != [] && Drain(p, s).rest == [] && Drain(p, s[..|s| - 1]).rest == []
    decreases |s|
  {
    var short := s[..|s| - 1];
    assert short[..p.headerSize] == s[..p.headerSize];
    if !Oversized(p, s[..p.headerSize]) {
      var f, r := PopMsg(p, s).frame.value, PopMsg(p, s).rest;
      PopSound(p, s);
      HarmfulDrops(p, r);
      assert short == f + r[..|r| - 1];
      DrainOne(p, f, r);
      DrainOne(p, f, r[..|r| - 1]);
    }
  }

  /** The exact streams that can be cut anywhere, for headers longer than a byte. */
  lemma CutsAlikeExactly(p: Proto, s: Bytes)
    requires p.headerSize > 1
    ensures Harmless(p, s) <==> forall k :: 0 <= k <= |s| ==> CutsAlike(p, s[..k], s[k..])
  {
    if Harmless(p, s) {
      forall k | 0 <= k <= |s|
        ensures CutsAlike(p, s[..k], s[k..])
      {
        assert s[..k] + s[k..] == s;
        DrainSplit(p, s[..k], s[k..]);
      }
    } else {
      HarmfulDrops(p, s);
      LastByteStays(p, s);
    }
  }

  lemma LastByteStays(p: Proto, s: Bytes)
    requires p.headerSize > 1 && s != [] && Drain(p, s).rest == [] && Drain(p, s[..|s| - 1]).rest == []
    ensures !CutsAlike(p, s[..|s| - 1], s[|s| - 1..])
  {
    assert s[..|s| - 1] + s[|s| - 1..] == s;
    assert [] + s[|s| - 1..] == s[|s| - 1..];
  }

  // ---- the receiver over a whole run ------------------------------------------------------------

  datatype Rx = Rx(delivered: seq<Bytes>, cache: Bytes, closed: bool)

  const RX0: Rx := Rx([], [], false)

  /** One readable event: cache the chunk, close on too much, otherwise deliver every whole frame. */
  function Feed(p: Proto, rx: Rx, chunk: Bytes): Rx
    requires p.headerSize > 0
  {
    if rx.closed then rx
    else if chunk == [] then rx.(closed := true)
    else if |rx.cache| + |chunk| > MAX_PENDING then Rx(rx.delivered, rx.cache + chunk, true)
    else
      var d := Drain(p, rx.cache + chunk);
      Rx(rx.delivered + d.frames, d.rest, false)
  }

  function FeedAll(p: Proto, chunks: seq<Bytes>): Rx
    requires p.headerSize > 0
  {
    if chunks == [] then RX0 else Feed(p, FeedAll(p, chunks[..|chunks| - 1]), chunks[|chunks| - 1])
  }

  // ---- the receiver as the code runs it ---------------------------------------------------------

  class Receiver {
    const protocol: Proto
    const cache: Memchunk
    var closed: bool
    var delivered: seq<Bytes>

    ghost predicate Valid()
      reads this, cache, cache.buffer
    {
      && protocol.headerSize > 0
      && cache.Valid() && cache.blocksize == CACHE_BLOCK
      && (!closed ==> cache.datasize <= MAX_PENDING)
    }

    ghost function State(): Rx
      requires Valid()
      reads this, cache, cache.buffer
    {
      Rx(delivered, cache.Contents(), closed)
    }

    constructor (p: Proto)
      requires p.headerSize > 0
      ensures Valid() && State() == RX0 && protocol == p && fresh(cache) && fresh(cache.buffer)
    {
      protocol := p;
      cache := new Memchunk(CACHE_BLOCK);
      closed := false;
      delivered := [];
    }

    /** `_PopMsg` */
    method TakeFrame() returns (frame: Option<Bytes>)
      requires Valid()
      modifies cache`datasize, cache.buffer
      ensures Valid() && frame == PopMsg(protocol, old(cache.Contents())).frame
      ensures cache.Contents() == PopMsg(protocol, old(cache.Contents())).rest
    {
      if cache.datasize < protocol.headerSize {
        return None;
      }
      ghost var all := cache.Contents();
      var header := cache.buffer[..protocol.headerSize];
      assert header == all[..protocol.headerSize];
      var body := protocol.bodySize(header);
      if body > MAX_BODY {
        var _ := cache.Pop(cache.datasize);
        return None;
      }
      var total := protocol.headerSize + body;
      frame := None;
      if cache.datasize >= total {
        frame := Some(cache.buffer[..total]);
        assert frame.value == all[..total];
        var _ := cache.Pop(total);
      }
    }

    /** `onRecv` */
    method OnRecv(chunk: Bytes) returns (rc: nat)
      requires Valid() && |chunk| <= CHUNK
      modifies cache, cache.buffer
      ensures cache.Valid() && closed == old(closed)
      ensures cache.buffer == old(cache.buffer) || fresh(cache.buffer)
      ensures closed ==> rc == 1 && cache.Contents() == old(cache.Contents())
      ensures !closed ==> cache.Contents() == old(cache.Contents()) + chunk
      ensures !closed ==> rc == if chunk == [] then 2 else if |cache.Contents()| > MAX_PENDING then 3 else 0
    {
      if closed {
        return 1;
      }
      var r := cache.Push(chunk);
      if r < 0 {
        return 2;
      }
      if cache.datasize > MAX_PENDING {
        return 3;
      }
      rc := 0;
    }

    /** Delivers every whole frame in the cache. */
    method DrainCache()
      requires Valid() && !closed
      modifies this`delivered, cache`datasize, cache.buffer
      ensures Valid()
      ensures delivered == old(delivered) + Drain(protocol, old(cache.Contents())).frames
      ensures cache.Contents() == Drain(protocol, old(cache.Contents())).rest
    {
      ghost var start, all := delivered, Drain(protocol, cache.Contents());
      FirstPop(protocol, start, cache.Contents());
      var frame := TakeFrame();
      while frame.Some?
        invariant Valid()
        invariant Progress(protocol, start, all, delivered, frame, cache.Contents())
        decreases cache.datasize + (if frame.Some? then |frame.value| else 0)
      {
        ghost var was := cache.Contents();
        DeliverOne(protocol, start, all, delivered, frame.value, was);
        delivered := delivered + [frame.value];
        frame := TakeFrame();
      }
      assert delivered + [] == delivered;
    }

    /** The readable branch of the event loop: one step of the receiver. */
    method OnReadable(chunk: Bytes)
      requires Valid() && |chunk| <= CHUNK
      modifies this, cache, cache.buffer
      ensures Valid() && State() == Feed(protocol, old(State()), chunk)
      ensures cache.buffer == old(cache.buffer) || fresh(cache.buffer)
    {
      assert cache.Contents() + [] == cache.Contents();
      var rc := OnRecv(chunk);
      if rc != 0 {
        closed := true;
      } else {
        DrainCache();
      }
    }
  }

  /** What the drain loop still has to deliver, given the frame in hand. */
  ghost function FramesLeft(p: Proto, frame: Option<Bytes>, cache: Bytes): Drained
    requires p.headerSize > 0
  {
    if frame.None? then Drained([], cache)
    else Drained([frame.value] + Drain(p, cache).frames, Drain(p, cache).rest)
  }

  ghost predicate Progress(p: Proto, start: seq<Bytes>, all: Drained, delivered: seq<Bytes>, frame: Option<Bytes>,
      cache: Bytes)
    requires p.headerSize > 0
  {
    && delivered + FramesLeft(p, frame, cache).frames == start + all.frames
    && FramesLeft(p, frame, cache).rest == all.rest
    && (frame.Some? ==> WellFormed(p, frame.value))
  }

  lemma FirstPop(p: Proto, start: seq<Bytes>, cache: Bytes)
    requires p.headerSize > 0
    ensures Progress(p, start, Drain(p, cache), start, PopMsg(p, cache).frame, PopMsg(p, cache).rest)
  {
    PopSound(p, cache);
  }

  lemma DeliverOne(p: Proto, start: seq<Bytes>, all: Drained, delivered: seq<Bytes>, f: Bytes, cache: Bytes)
    requires p.headerSize > 0 && Progress(p, start, all, delivered, Some(f), cache)
    ensures var r := PopMsg(p, cache);
            && Progress(p, start, all, delivered + [f], r.frame, r.rest)
            && |r.rest| + (if r.frame.Some? then |r.frame.value| else 0) <= |cache|
            && |f| > 0
  {
    PopSound(p, cache);
    MoveOver(delivered, f, Drain(p, cache).frames);
    assert Drain(p, cache) == FramesLeft(p, PopMsg(p, cache).frame, PopMsg(p, cache).rest);
  }

  lemma MoveOver(done: seq<Bytes>, f: Bytes, more: seq<Bytes>)
    ensures done + ([f] + more) == done + [f] + more
  {
  }
}
