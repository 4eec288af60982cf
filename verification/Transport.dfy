/** One connection end to end: the sender's machine, a network that hands over its bytes in pieces of any
    size, and the receiver's frame loop. */
module Transport {
  import opened Bytes
  import opened Headers
  import opened Framing
  import opened Segmentation
  import opened Connection

  datatype Net = Net(sender: State, rx: Rx, chunks: seq<Bytes>)

  datatype NetEvent =
    | Sender(e: Event)
    | Deliver(n: nat)   // the receiver reads the next n bytes

  /** How many bytes the receiver has read. */
  function Got(net: Net): nat { |Concat(net.chunks)| }

  function NetStep(p: Proto, net: Net, e: NetEvent): Net
    requires p.headerSize > 0
  {
    match e
    case Sender(e) => net.(sender := Step(net.sender, e))
    case Deliver(n) =>
      var got := Got(net);
      if 0 < n <= CHUNK && got + n <= |net.sender.wire| then
        var chunk := net.sender.wire[got..got + n];
        net.(rx := Feed(p, net.rx, chunk), chunks := net.chunks + [chunk])
      else net
  }

  function NetRun(p: Proto, net: Net, es: seq<NetEvent>): Net
    requires p.headerSize > 0
    decreases |es|
  {
    if es == [] then net else NetRun(p, NetStep(p, net, es[0]), es[1..])
  }

  /** What the sender's side sees of a run. */
  function SenderEvents(es: seq<NetEvent>): seq<Event> {
    if es == [] then []
    else if es[0].Sender? then [es[0].e] + SenderEvents(es[1..])
    else SenderEvents(es[1..])
  }

  /** A run that stays on one connection. */
  predicate StaysOpen(es: seq<NetEvent>) { OneConnection(SenderEvents(es)) }

  lemma {:induction false} SenderRun(p: Proto, net: Net, es: seq<NetEvent>)
    requires p.headerSize > 0
    ensures NetRun(p, net, es).sender == Run(net.sender, SenderEvents(es))
    decreases |es|
  {
    if es != [] {
      SenderRun(p, NetStep(p, net, es[0]), es[1..]);
      if es[0].Sender? {
        assert SenderEvents(es)[1..] == SenderEvents(es[1..]);
      }
    }
  }

  /** What the connection was given to carry: what was queued when it opened, and the accepted posts of the run. */
  function Given(start: Net, es: seq<NetEvent>): seq<Bytes> {
    start.sender.stream + Accepted(start.sender, SenderEvents(es))
  }

  predicate NetInv(p: Proto, net: Net)
    requires p.headerSize > 0
  {
    && Inv(net.sender)
    && Segments(net.chunks)
    && Concat(net.chunks) <= net.sender.wire
    && net.rx == FeedAll(p, net.chunks)
  }

  lemma WireGrows(s: State, e: Event)
    requires e != OpenFd
    ensures s.wire <= Step(s, e).wire
  {
    GivenStep(s, e);
  }

  /** A delivery the wire has the bytes for is one: the receiver reads exactly the next `n`. */
  lemma DeliverReads(p: Proto, net: Net, n: nat)
    requires p.headerSize > 0 && 0 < n <= CHUNK && Got(net) + n <= |net.sender.wire|
    ensures Got(NetStep(p, net, Deliver(n))) == Got(net) + n
  {
    var chunk := net.sender.wire[Got(net)..Got(net) + n];
    ConcatAppend(net.chunks, [chunk]);
    ConcatOne(chunk);
  }

  lemma DeliverKeepsInv(p: Proto, net: Net, n: nat)
    requires p.headerSize > 0 && NetInv(p, net)
    ensures NetInv(p, NetStep(p, net, Deliver(n)))
  {
    var got := Got(net);
    if 0 < n <= CHUNK && got + n <= |net.sender.wire| {
      var chunk := net.sender.wire[got..got + n];
      var chunks := net.chunks + [chunk];
      assert chunks[..|chunks| - 1] == net.chunks;
      ConcatSnoc(chunks);
      assert Concat(net.chunks) == net.sender.wire[..got];
      assert net.sender.wire[..got] + chunk == net.sender.wire[..got + n];
    }
  }

  lemma NetStepKeepsInv(p: Proto, net: Net, e: NetEvent)
    requires p.headerSize > 0 && NetInv(p, net) && e != Sender(OpenFd)
    ensures NetInv(p, NetStep(p, net, e))
  {
    match e
    case Sender(e) =>
      StepKeepsInv(net.sender, e);
      WireGrows(net.sender, e);
    case Deliver(n) =>
      DeliverKeepsInv(p, net, n);
  }

  lemma {:induction false} NetRunKeepsInv(p: Proto, net: Net, es: seq<NetEvent>)
    requires p.headerSize > 0 && NetInv(p, net) && StaysOpen(es)
    ensures NetInv(p, NetRun(p, net, es))
    decreases |es|
  {
    if es != [] {
      var rest := SenderEvents(es[1..]);
      if es[0].Sender? {
        assert SenderEvents(es)[0] == es[0].e && SenderEvents(es)[1..] == rest;
        assert forall i :: 0 <= i < |rest| ==> rest[i] == SenderEvents(es)[i + 1];
      }
      NetStepKeepsInv(p, net, es[0]);
      NetRunKeepsInv(p, NetStep(p, net, es[0]), es[1..]);
    }
  }

  /** A connection just opened: whatever is queued is still to be sent, and nothing has been received. */
  predicate JustOpened(net: Net) {
    Inv(net.sender) && net.sender.wire == [] && net.rx == RX0 && net.chunks == []
  }

  /** Frames no split of the stream can get cut off. */
  predicate Sendable(p: Proto, fs: seq<Bytes>) {
    AllFrames(p, fs) && CutoffSafe(fs)
  }

  lemma StreamIsGiven(p: Proto, start: Net, es: seq<NetEvent>)
    requires p.headerSize > 0 && StaysOpen(es)
    ensures NetRun(p, start, es).sender.stream == Given(start, es)
  {
    SenderRun(p, start, es);
    StreamIsPosts(start.sender, SenderEvents(es));
  }

  /** The transport is a FIFO of frames: for every interleaving of posts, partial and refused sends, monitoring
      changes and every split by the network, what the receiver has delivered is a prefix of what the connection was
      given (what was queued when it opened, then the accepted posts, in order), and the connection is not cut off. */
  lemma FifoOfFrames(p: Proto, start: Net, es: seq<NetEvent>)
    requires p.headerSize > 0 && JustOpened(start) && StaysOpen(es) && Sendable(p, Given(start, es))
    ensures var net := NetRun(p, start, es);
            && !net.rx.closed
            && net.rx.delivered <= Given(start, es)
            && Got(net) <= |net.sender.wire|
            && Concat(net.rx.delivered) + net.rx.cache == net.sender.wire[..Got(net)]
  {
    NetRunKeepsInv(p, start, es);
    StreamIsGiven(p, start, es);
    var net := NetRun(p, start, es);
    var fs := net.sender.stream;
    WireIsPrefix(net.sender);
    PrefixTrans(Concat(net.chunks), net.sender.wire, Concat(fs));
    NeverCutOff(p, fs, net.chunks);
    Received(p, fs, net.chunks);
    Accounted(p, fs, net.chunks);
    assert net.sender.wire[..Got(net)] == Concat(net.chunks);
  }

  /** ... and once nothing is queued, in flight or unread, all of that has been delivered. */
  lemma AllDelivered(p: Proto, start: Net, es: seq<NetEvent>)
    requires p.headerSize > 0 && JustOpened(start) && StaysOpen(es) && Sendable(p, Given(start, es))
    requires var net := NetRun(p, start, es);
             net.sender.queue == [] && InFlight(net.sender) == [] && Got(net) == |net.sender.wire|
    ensures NetRun(p, start, es).rx == Rx(Given(start, es), [], false)
  {
    NetRunKeepsInv(p, start, es);
    StreamIsGiven(p, start, es);
    var net := NetRun(p, start, es);
    var fs := net.sender.stream;
    assert net.sender.wire == Concat(net.chunks);
    assert net.sender.wire + ([] + []) == net.sender.wire;
    NeverCutOff(p, fs, net.chunks);
    WholeStream(p, fs, net.chunks);
  }

  lemma WireIsPrefix(s: State)
    requires Conserved(s)
    ensures s.wire <= Concat(s.stream)
  {
  }

  lemma PrefixTrans(a: Bytes, b: Bytes, c: Bytes)
    requires a <= b <= c
    ensures a <= c
  {
  }

  /** The receiver holds exactly the bytes it read. */
  lemma Accounted(p: Proto, fs: seq<Bytes>, chunks: seq<Bytes>)
    requires p.headerSize > 0 && AllFrames(p, fs) && Concat(chunks) <= Concat(fs) && !FeedAll(p, chunks).closed
    ensures Concat(FeedAll(p, chunks).delivered) + FeedAll(p, chunks).cache == Concat(chunks)
  {
    assert Concat(fs)[..|Concat(chunks)|] == Concat(chunks);
    DrainPrefix(p, fs, |Concat(chunks)|);
    CleanIsHarmless(p, Concat(chunks));
    SegmentationIndependence(p, chunks);
    DrainSound(p, Concat(chunks));
  }
}
