/** The layers put together: database requests serialised, packed, sent over one connection in whatever pieces, cut
    back into frames, unpacked and deserialised. */
module EndToEnd {
  import opened Bytes
  import opened Wrappers
  import opened Headers
  import opened Framing
  import opened Segmentation
  import opened Transport
  import opened DbMessages

  const DB_MYSQL: u32 := 0x21

  datatype Call = Call(header: Header, req: MysqlReq)

  /** What a client posts for a call. */
  function Frame(c: Call): Bytes { PackMsg(c.header, MysqlReqEnc(c.req)) }

  /** The list `fs` is these values, encoded. */
  ghost predicate Encoded<C>(enc: C -> Bytes, xs: seq<C>, fs: seq<Bytes>) {
    |fs| == |xs| && forall i :: 0 <= i < |xs| ==> fs[i] == enc(xs[i])
  }

  /** Reading the frames gives the values `want` names, for as many frames as there are. */
  ghost predicate Reads<C, R>(read: Bytes -> Option<R>, want: C -> R, xs: seq<C>, fs: seq<Bytes>) {
    |fs| <= |xs| && forall i :: 0 <= i < |fs| ==> read(fs[i]) == Some(want(xs[i]))
  }

  /** Whatever each frame can be read as, the delivered ones can, in order. */
  lemma Arrive<C, R>(p: Proto, start: Net, es: seq<NetEvent>, enc: C -> Bytes, read: Bytes -> Option<R>,
      want: C -> R, xs: seq<C>)
    requires p.headerSize > 0 && JustOpened(start) && StaysOpen(es)
    requires Encoded(enc, xs, Given(start, es)) && Sendable(p, Given(start, es))
    requires forall i :: 0 <= i < |xs| ==> read(enc(xs[i])) == Some(want(xs[i]))
    ensures Reads(read, want, xs, NetRun(p, start, es).rx.delivered)
  {
    FifoOfFrames(p, start, es);
    var net := NetRun(p, start, es);
    forall i | 0 <= i < |net.rx.delivered|
      ensures read(net.rx.delivered[i]) == Some(want(xs[i]))
    {
      assert net.rx.delivered[i] == Given(start, es)[i];
    }
  }

  /** A call every layer can carry: its values fit their counts and its frame fits the receiver's cache. */
  predicate Carried(c: Call) {
    c.header.typ == DB_MYSQL && MysqlReqOk(c.req) && HEADER_SIZE + |MysqlReqEnc(c.req)| <= MAX_PENDING - (CHUNK - 1)
  }

  lemma FrameSize(c: Call)
    ensures |Frame(c)| == HEADER_SIZE + |MysqlReqEnc(c.req)|
  {
  }

  lemma CallIsFrame(c: Call)
    requires Carried(c)
    ensures WellFormed(LyProto(), Frame(c)) && |Frame(c)| <= MAX_PENDING - (CHUNK - 1)
  {
    FrameSize(c);
    PackMsgFrames(c.header, MysqlReqEnc(c.req));
  }

  lemma CallsAreSendable(calls: seq<Call>, fs: seq<Bytes>)
    requires Encoded(Frame, calls, fs) && forall i :: 0 <= i < |calls| ==> Carried(calls[i])
    ensures Sendable(LyProto(), fs)
  {
    forall i | 0 <= i < |fs|
      ensures WellFormed(LyProto(), fs[i]) && |fs[i]| <= MAX_PENDING - (CHUNK - 1)
    {
      CallIsFrame(calls[i]);
    }
    FrameBound(fs);
  }

  /** What the proxy submits for a frame: nothing unless it unpacks and is a MySQL message. */
  function ReadReq(f: Bytes): Option<MysqlReq> {
    match UnpackMsg(f)
    case None => None
    case Some(m) => if m.0.typ == DB_MYSQL then Some(MysqlReqDec(m.1).0) else None
  }

  function ReqOf(c: Call): MysqlReq { c.req }

  lemma ReadFrame(c: Call)
    requires MysqlReqOk(c.req) && c.header.typ == DB_MYSQL
    ensures ReadReq(Frame(c)) == Some(ReqOf(c))
  {
    HopFields(c.header, MysqlReqEnc(c.req));
    assert MysqlReqEnc(c.req) + [] == MysqlReqEnc(c.req);
    MysqlReqLaw(c.req, []);
  }

  /** For every run of one connection that was given these calls by its posts, whatever the interleaving and the
      split: the frames delivered so far are the first calls, in order, and each reads back as the request that was
      made. */
  lemma CallsArrive(start: Net, es: seq<NetEvent>, calls: seq<Call>)
    requires JustOpened(start) && StaysOpen(es)
    requires Encoded(Frame, calls, Given(start, es))
    requires forall i :: 0 <= i < |calls| ==> Carried(calls[i])
    ensures Reads(ReadReq, ReqOf, calls, NetRun(LyProto(), start, es).rx.delivered)
  {
    CallsAreSendable(calls, Given(start, es));
    forall i | 0 <= i < |calls|
      ensures ReadReq(Frame(calls[i])) == Some(ReqOf(calls[i]))
    {
      ReadFrame(calls[i]);
    }
    Arrive(LyProto(), start, es, Frame, ReadReq, ReqOf, calls);
  }
}
