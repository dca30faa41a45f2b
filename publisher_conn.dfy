/**
 * One remote-publisher connection worker (startRemotePublisherConn): the
 * subscriber-side handshake and the loop that cuts the byte stream into
 * length-prefixed payloads. Dialling, the header codec and the socket are
 * inputs; what the worker sends to its coordinator is the output.
 */
module PublisherConn {
  import opened Optional
  import opened Bytes
  import opened BytesIo

  datatype Header = Header(key: string, value: string)

  /** Envelope sent with every payload of one connection (the receipt time is not modelled). */
  datatype MessageEvent = MessageEvent(publisherName: string, connectionHeader: map<string, string>)

  /** One payload on its way to the coordinator (messageEvent in the source). */
  datatype Inbound = Inbound(bytes: seq<byte>, event: MessageEvent)

  /** What the socket delivers: these bytes, then this error. */
  datatype Stream = Stream(data: seq<byte>, end: IoError)

  datatype LoopEnd = QuietEnd | Disconnect

  /** The payloads the read loop forwards, in order, and how it ended. */
  datatype Received = Received(payloads: seq<seq<byte>>, end: LoopEnd)

  // ---------------------------------------------------------------- handshake

  /** The connection header the subscriber writes: four pairs in this order. */
  function RequestHeader(topic: string, md5sum: string, msgType: string, nodeId: string): (r: seq<Header>)
    ensures |r| == 4
    ensures HeaderMap(r) == map["topic" := topic, "md5sum" := md5sum, "type" := msgType, "callerid" := nodeId]
  {
    var r := [Header("topic", topic), Header("md5sum", md5sum), Header("type", msgType), Header("callerid", nodeId)];
    assert r[..3][..2][..1][..0] == [];
    assert HeaderMap(r[..1]) == map["topic" := topic];
    assert HeaderMap(r[..2]) == map["topic" := topic, "md5sum" := md5sum] by { assert r[..2][..1] == r[..1]; }
    assert HeaderMap(r[..3]) == map["topic" := topic, "md5sum" := md5sum, "type" := msgType] by { assert r[..3][..2] == r[..2]; }
    assert r[..4] == r;
    r
  }

  /** The response pairs folded into a map, a later pair overwriting an earlier one with the same key. */
  function HeaderMap(hs: seq<Header>): (m: map<string, string>)
    ensures forall k :: k in m ==> exists i :: 0 <= i < |hs| && hs[i].key == k
  {
    if hs == [] then map[]
    else HeaderMap(hs[..|hs| - 1])[hs[|hs| - 1].key := hs[|hs| - 1].value]
  }

  /** Index of the last pair in hs with the given key (a reference reading of "later pairs win"). */
  ghost predicate LastWithKey(hs: seq<Header>, key: string, i: int)
  {
    0 <= i < |hs| && hs[i].key == key && forall j :: i < j < |hs| ==> hs[j].key != key
  }

  /** A key is in the folded map iff some response pair carries it. */
  lemma {:induction false} HeaderMapKeys(hs: seq<Header>, key: string)
    ensures key in HeaderMap(hs) <==> exists i :: 0 <= i < |hs| && hs[i].key == key
  {
    if hs != [] {
      var prior := hs[..|hs| - 1];
      HeaderMapKeys(prior, key);
      if key in HeaderMap(hs) && hs[|hs| - 1].key != key {
        var i :| 0 <= i < |prior| && prior[i].key == key;
        assert hs[i].key == key;
      }
      if exists i :: 0 <= i < |hs| && hs[i].key == key {
        var i :| 0 <= i < |hs| && hs[i].key == key;
        if i < |prior| {
          assert prior[i].key == key;
        }
      }
    }
  }

  /** Later keys win: a key maps to the value of the last pair that carries it. */
  lemma {:induction false} HeaderMapLastWins(hs: seq<Header>, key: string, i: int)
    requires LastWithKey(hs, key, i)
    ensures key in HeaderMap(hs) && HeaderMap(hs)[key] == hs[i].value
  {
    if i < |hs| - 1 {
      var prior := hs[..|hs| - 1];
      assert LastWithKey(prior, key, i);
      HeaderMapLastWins(prior, key, i);
    }
  }

  /** The loop of the source that builds resHeaderMap. */
  method FoldHeaders(hs: seq<Header>) returns (m: map<string, string>)
    ensures m == HeaderMap(hs)
  {
    m := map[];
    for i := 0 to |hs|
      invariant m == HeaderMap(hs[..i])
    {
      assert hs[..i + 1][..i] == hs[..i];
      m := m[hs[i].key := hs[i].value];
    }
    assert hs[..|hs|] == hs;
  }

  /** Go's map index: a missing key reads as the empty string. */
  function Lookup(m: map<string, string>, key: string): string
  {
    if key in m then m[key] else ""
  }

  /** The response passes the handshake when its type and md5sum equal the local ones. */
  predicate Compatible(response: map<string, string>, msgType: string, md5sum: string)
    ensures Compatible(response, msgType, md5sum) && msgType != "" ==> "type" in response && response["type"] == msgType
    ensures Compatible(response, msgType, md5sum) && md5sum != "" ==> "md5sum" in response && response["md5sum"] == md5sum
    ensures "type" !in response && "md5sum" !in response ==> (Compatible(response, msgType, md5sum) <==> msgType == "" && md5sum == "")
  {
    Lookup(response, "type") == msgType && Lookup(response, "md5sum") == md5sum
  }

  /** The envelope template built once the handshake has passed. */
  function EventOf(response: map<string, string>): (ev: MessageEvent)
    ensures ev.connectionHeader == response
    ensures "callerid" in response ==> ev.publisherName == response["callerid"]
    ensures "callerid" !in response ==> ev.publisherName == ""
  {
    MessageEvent(Lookup(response, "callerid"), response)
  }

  // ----------------------------------------------------------------- framing

  /** Read errors after which the loop returns without a disconnection notice. */
  predicate QuietError(e: IoError)
  {
    e == EOF || e == Timeout
  }

  function EndOf(e: IoError): LoopEnd
  {
    if QuietError(e) then QuietEnd else Disconnect
  }

  /** One pass of the loop body: a payload and the bytes after it, or the end of the loop. */
  datatype Step = Next(body: seq<byte>, rest: seq<byte>) | Stop(end: LoopEnd)

  /** Read a 4-byte little-endian length, then exactly that many bytes. */
  function ReadFrame(data: seq<byte>, end: IoError): (st: Step)
    ensures st.Next? ==> |st.rest| < |data|
  {
    match ReadFullOutcome(data, 4, end)
    case Failed(e) => Stop(EndOf(e))
    case Filled(sizeBytes) =>
      var msgSize := DecodeLE(sizeBytes);
      match ReadFullOutcome(data[4..], msgSize, end)
      case Failed(e) => Stop(EndOf(e))
      case Filled(body) => Next(body, data[4 + msgSize..])
  }

  /**
   * The read loop as a function of the bytes still unread: at the top of each
   * iteration stop if quit is set (quitAfter = how many payloads are forwarded
   * before the flag is seen), otherwise read one frame. k counts the payloads
   * forwarded so far.
   */
  function Deframe(data: seq<byte>, end: IoError, k: nat, quitAfter: Option<nat>): (r: Received)
    decreases |data|
  {
    if quitAfter.Some? && quitAfter.value <= k then Received([], QuietEnd)
    else
      match ReadFrame(data, end)
      case Stop(e) => Received([], e)
      case Next(body, rest) => Prepend([body], Deframe(rest, end, k + 1, quitAfter))
  }

  /**
   * The loop forwards no more payloads than there are bytes. Once quit is
   * set, it forwards none beyond the first quitAfter.
   */
  lemma {:induction false} DeframeBounds(data: seq<byte>, end: IoError, k: nat, quitAfter: Option<nat>)
    ensures |Deframe(data, end, k, quitAfter).payloads| <= |data|
    ensures quitAfter.Some? && k <= quitAfter.value ==> k + |Deframe(data, end, k, quitAfter).payloads| <= quitAfter.value
    ensures quitAfter.Some? && quitAfter.value <= k ==> Deframe(data, end, k, quitAfter).payloads == []
    decreases |data|
  {
    if !(quitAfter.Some? && quitAfter.value <= k) {
      match ReadFrame(data, end)
      case Stop(e) =>
      case Next(body, rest) =>
        DeframeBounds(rest, end, k + 1, quitAfter);
    }
  }

  /** rest with ps forwarded in front of it. */
  function Prepend(ps: seq<seq<byte>>, rest: Received): Received
  {
    Received(ps + rest.payloads, rest.end)
  }

  /** One pass of the loop body: the length read, then the body read. */
  method ReadMessage(unread: seq<byte>, end: IoError) returns (st: Step)
    ensures st == ReadFrame(unread, end)
  {
    var sizeRead := ReadFullOutcome(unread, 4, end);
    if sizeRead.Failed? {
      return Stop(EndOf(sizeRead.err));
    }
    var msgSize: uint32 := DecodeLE(sizeRead.chunk);
    var bodyRead := ReadFullOutcome(unread[4..], msgSize, end);
    if bodyRead.Failed? {
      return Stop(EndOf(bodyRead.err));
    }
    st := Next(bodyRead.chunk, unread[4 + msgSize..]);
  }

  /** The read loop of the worker over a socket delivering s. */
  method ReadLoop(s: Stream, quitAfter: Option<nat>) returns (payloads: seq<seq<byte>>, end: LoopEnd)
    ensures Received(payloads, end) == Deframe(s.data, s.end, 0, quitAfter)
  {
    var unread := s.data;
    payloads := [];
    while true
      invariant Deframe(s.data, s.end, 0, quitAfter)
                == Prepend(payloads, Deframe(unread, s.end, |payloads|, quitAfter))
      decreases |unread|
    {
      var quit := quitAfter.Some? && quitAfter.value <= |payloads|;
      if quit {
        end := QuietEnd;
        AppendEmpty(payloads);
        return;
      }
      var st := ReadMessage(unread, s.end);
      if st.Stop? {
        end := st.end;
        AppendEmpty(payloads);
        return;
      }
      ghost var after := Deframe(st.rest, s.end, |payloads| + 1, quitAfter);
      Assoc(payloads, [st.body], after.payloads);
      payloads := payloads + [st.body];
      unread := st.rest;
    }
  }

  /** Every payload fits the 32-bit length prefix. */
  ghost predicate Framable(ps: seq<seq<byte>>)
  {
    forall i :: 0 <= i < |ps| ==> |ps[i]| < 0x1_0000_0000
  }

  /** What a TCPROS publisher writes for one payload: its little-endian length, then the payload. */
  function Frame(p: seq<byte>): (r: seq<byte>)
    requires |p| < 0x1_0000_0000
    ensures |r| == 4 + |p| && r[4..] == p
  {
    Pow256Values();
    EncodeLE(|p|, 4) + p
  }

  /** The frames of ps, one after another. */
  function Frames(ps: seq<seq<byte>>): seq<byte>
    requires Framable(ps)
  {
    if ps == [] then [] else Frame(ps[0]) + Frames(ps[1..])
  }

  lemma {:induction false} FramesAppend(ps: seq<seq<byte>>, qs: seq<seq<byte>>)
    requires Framable(ps) && Framable(qs)
    ensures Framable(ps + qs) && Frames(ps + qs) == Frames(ps) + Frames(qs)
  {
    FramableAppend(ps, qs);
    if ps == [] {
      assert ps + qs == qs;
    } else {
      var rs := ps + qs;
      assert rs[0] == ps[0];
      assert rs[1..] == ps[1..] + qs;
      FramableTail(ps);
      FramesAppend(ps[1..], qs);
      Assoc(Frame(ps[0]), Frames(ps[1..]), Frames(qs));
    }
  }

  lemma FramableAppend(ps: seq<seq<byte>>, qs: seq<seq<byte>>)
    requires Framable(ps) && Framable(qs)
    ensures Framable(ps + qs)
  {
    forall i | 0 <= i < |ps + qs| ensures |(ps + qs)[i]| < 0x1_0000_0000 {
      if i >= |ps| { assert (ps + qs)[i] == qs[i - |ps|]; }
    }
  }

  lemma ReadFrameAt(prefix: seq<byte>, p: seq<byte>, tail: seq<byte>, end: IoError)
    requires |prefix| == 4 && DecodeLE(prefix) == |p|
    ensures ReadFrame(prefix + p + tail, end) == Next(p, tail)
  {
    var data := prefix + p + tail;
    assert data[..4] == prefix;
    assert data[4..] == p + tail;
    assert data[4..][..|p|] == p;
    assert data[4 + |p|..] == tail;
  }

  lemma Assoc<T>(a: seq<T>, b: seq<T>, c: seq<T>)
    ensures (a + b) + c == a + (b + c)
  {
  }

  lemma AppendEmpty<T>(ps: seq<T>)
    ensures ps + [] == ps
  {
  }

  lemma SplitAt<T>(ps: seq<T>, j: nat)
    requires j <= |ps|
    ensures ps[..j] + ps[j..] == ps
  {
  }

  lemma ConsSplit<T>(ps: seq<T>, xs: seq<T>)
    requires ps != []
    ensures [ps[0]] + (ps[1..] + xs) == ps + xs
  {
    assert [ps[0]] + ps[1..] == ps;
  }

  /** One frame at the head of the data is read back as exactly its payload. */
  lemma ReadFrameOf(p: seq<byte>, tail: seq<byte>, end: IoError)
    requires |p| < 0x1_0000_0000
    ensures ReadFrame(Frame(p) + tail, end) == Next(p, tail)
  {
    Pow256Values();
    DecodeEncodeLE(|p|, 4);
    ReadFrameAt(EncodeLE(|p|, 4), p, tail, end);
  }

  /** The loop body applied to a stream that starts with one whole frame, quit not yet seen. */
  lemma DeframeOneFrame(p: seq<byte>, rest: seq<byte>, end: IoError, k: nat, quitAfter: Option<nat>)
    requires |p| < 0x1_0000_0000
    requires quitAfter.None? || k < quitAfter.value
    ensures Deframe(Frame(p) + rest, end, k, quitAfter) == Prepend([p], Deframe(rest, end, k + 1, quitAfter))
  {
    ReadFrameOf(p, rest, end);
  }

  /** The induction step of DeframeFrames: one more frame in front. */
  lemma DeframeFramesStep(ps: seq<seq<byte>>, tail: seq<byte>, end: IoError, k: nat, quitAfter: Option<nat>)
    requires Framable(ps) && ps != []
    requires quitAfter.None? || k + |ps| <= quitAfter.value
    requires Deframe(Frames(ps[1..]) + tail, end, k + 1, quitAfter)
             == Prepend(ps[1..], Deframe(tail, end, k + |ps|, quitAfter))
    ensures Deframe(Frames(ps) + tail, end, k, quitAfter) == Prepend(ps, Deframe(tail, end, k + |ps|, quitAfter))
  {
    var last := Deframe(tail, end, k + |ps|, quitAfter);
    var rest := Frames(ps[1..]) + tail;
    Assoc(Frame(ps[0]), Frames(ps[1..]), tail);
    DeframeOneFrame(ps[0], rest, end, k, quitAfter);
    ConsSplit(ps, last.payloads);
  }

  /**
   * The loop reads framed payloads back one by one, in order, as long as quit
   * is not seen before they are all forwarded; what follows them is read as
   * if the stream began there.
   */
  lemma {:induction false} DeframeFrames(ps: seq<seq<byte>>, tail: seq<byte>, end: IoError, k: nat, quitAfter: Option<nat>)
    requires Framable(ps)
    requires quitAfter.None? || k + |ps| <= quitAfter.value
    ensures Deframe(Frames(ps) + tail, end, k, quitAfter) == Prepend(ps, Deframe(tail, end, k + |ps|, quitAfter))
    decreases |ps|
  {
    if ps == [] {
      DeframeNoFrames(tail, end, k, quitAfter);
    } else {
      FramableTail(ps);
      assert k + 1 + |ps[1..]| == k + |ps|;
      DeframeFrames(ps[1..], tail, end, k + 1, quitAfter);
      DeframeFramesStep(ps, tail, end, k, quitAfter);
    }
  }

  lemma DeframeNoFrames(tail: seq<byte>, end: IoError, k: nat, quitAfter: Option<nat>)
    ensures Deframe(Frames([]) + tail, end, k, quitAfter) == Prepend([], Deframe(tail, end, k, quitAfter))
  {
    var last := Deframe(tail, end, k, quitAfter);
    assert Frames([]) + tail == tail;
    assert [] + last.payloads == last.payloads;
  }

  lemma FramableTail(ps: seq<seq<byte>>)
    requires Framable(ps) && ps != []
    ensures Framable(ps[1..])
  {
    forall i | 0 <= i < |ps[1..]| ensures |ps[1..][i]| < 0x1_0000_0000 {
      assert ps[1..][i] == ps[i + 1];
    }
  }

  /**
   * Framing round trip: a stream holding the frames of ps and then ending
   * yields exactly ps, in order; end-of-stream or a deadline ends the loop
   * quietly, any other error with a disconnection notice.
   */
  lemma FramedStream(ps: seq<seq<byte>>, end: IoError)
    requires Framable(ps)
    ensures Deframe(Frames(ps), end, 0, None) == Received(ps, if QuietError(end) then QuietEnd else Disconnect)
  {
    DeframeFrames(ps, [], end, 0, None);
    assert Frames(ps) + [] == Frames(ps);
  }

  /** The loop's end when the stream stops after a short read of a length prefix or a payload. */
  function ShortReadEnd(partial: seq<byte>, end: IoError): LoopEnd
  {
    if partial == [] then EndOf(end) else EndOf(if end == EOF then UnexpectedEOF else end)
  }

  lemma ReadFrameShortLength(partial: seq<byte>, end: IoError)
    requires |partial| < 4
    ensures ReadFrame(partial, end) == Stop(ShortReadEnd(partial, end))
  {
  }

  lemma ReadFrameShortBody(prefix: seq<byte>, partial: seq<byte>, end: IoError)
    requires |prefix| == 4 && |partial| < DecodeLE(prefix)
    ensures ReadFrame(prefix + partial, end) == Stop(ShortReadEnd(partial, end))
  {
    var data := prefix + partial;
    assert data[..4] == prefix;
    assert data[4..] == partial;
  }

  /** Whatever the loop reads after the frames of ps, it reports after forwarding all of ps. */
  lemma FramesThenStop(ps: seq<seq<byte>>, tail: seq<byte>, end: IoError, e: LoopEnd)
    requires Framable(ps) && ReadFrame(tail, end) == Stop(e)
    ensures Deframe(Frames(ps) + tail, end, 0, None) == Received(ps, e)
  {
    DeframeFrames(ps, tail, end, 0, None);
    AppendEmpty(ps);
  }

  /**
   * A stream that stops inside a length prefix: a short read there is
   * io.ErrUnexpectedEOF at end-of-stream, so the loop reports a disconnection,
   * unless the deadline passed.
   */
  lemma TruncatedLength(ps: seq<seq<byte>>, partial: seq<byte>, end: IoError)
    requires Framable(ps) && 0 < |partial| < 4
    ensures Deframe(Frames(ps) + partial, end, 0, None)
            == Received(ps, if end == Timeout then QuietEnd else Disconnect)
  {
    ReadFrameShortLength(partial, end);
    FramesThenStop(ps, partial, end, ShortReadEnd(partial, end));
  }

  /**
   * A stream that stops inside a payload after a whole length prefix: with at
   * least one payload byte read the loop reports a disconnection (unless the
   * deadline passed); with none, end-of-stream ends it quietly.
   */
  lemma TruncatedBody(ps: seq<seq<byte>>, size: uint32, partial: seq<byte>, end: IoError)
    requires Framable(ps) && |partial| < size
    ensures Deframe(Frames(ps) + (EncodeLE(size, 4) + partial), end, 0, None)
            == Received(ps, if QuietError(end) && (partial == [] || end == Timeout) then QuietEnd else Disconnect)
  {
    Pow256Values();
    var prefix := EncodeLE(size, 4);
    DecodeEncodeLE(size, 4);
    ReadFrameShortBody(prefix, partial, end);
    FramesThenStop(ps, prefix + partial, end, ShortReadEnd(partial, end));
    ShortReadEndValue(partial, end);
  }

  lemma ShortReadEndValue(partial: seq<byte>, end: IoError)
    ensures ShortReadEnd(partial, end) == if QuietError(end) && (partial == [] || end == Timeout) then QuietEnd else Disconnect
  {
  }

  /** Once quit is seen, after j payloads, the loop forwards nothing more and ends quietly. */
  lemma QuitStops(ps: seq<seq<byte>>, tail: seq<byte>, end: IoError, j: nat)
    requires Framable(ps) && j <= |ps|
    ensures Deframe(Frames(ps) + tail, end, 0, Some(j)) == Received(ps[..j], QuietEnd)
  {
    var front, back := ps[..j], ps[j..];
    SplitAt(ps, j);
    assert Framable(front) by {
      forall i | 0 <= i < |front| ensures |front[i]| < 0x1_0000_0000 { assert front[i] == ps[i]; }
    }
    assert Framable(back) by {
      forall i | 0 <= i < |back| ensures |back[i]| < 0x1_0000_0000 { assert back[i] == ps[j + i]; }
    }
    FramesAppend(front, back);
    Assoc(Frames(front), Frames(back), tail);
    DeframeFrames(front, Frames(back) + tail, end, 0, Some(j));
    AppendEmpty(front);
  }

  // ------------------------------------------------------------------ worker

  /**
   * The collaborators of one worker, as inputs: whether net.Dial and
   * writeConnectionHeader succeed, what readConnectionHeader returns (None
   * on error) and what the socket delivers afterwards.
   */
  datatype Link = Link(dialOk: bool, writeOk: bool, response: Option<seq<Header>>, stream: Stream)

  /** What one worker did: the header it wrote, the payloads it forwarded, the disconnection notices it sent. */
  datatype WorkerRun = WorkerRun(written: Option<seq<Header>>, forwarded: seq<Inbound>, notices: seq<string>)

  predicate HandshakeOk(link: Link, msgType: string, md5sum: string)
  {
    link.writeOk && link.response.Some? && Compatible(HeaderMap(link.response.value), msgType, md5sum)
  }

  /** Each payload paired with the connection's envelope. */
  function Deliveries(ps: seq<seq<byte>>, ev: MessageEvent): seq<Inbound>
  {
    seq(|ps|, i requires 0 <= i < |ps| => Inbound(ps[i], ev))
  }

  /**
   * startRemotePublisherConn. Any failure before the read loop (dial, header
   * write, header read, type or md5sum mismatch) sends one notice and forwards
   * nothing. After a passed handshake every payload goes out in stream order
   * with the response's callerid as publisher name, and the loop's end decides
   * whether one notice follows. noticeId is the string the notices carry.
   */
  method StartRemotePublisherConn(noticeId: string, topic: string, md5sum: string, msgType: string,
                                  nodeId: string, link: Link, quitAfter: Option<nat>)
    returns (run: WorkerRun)
    ensures !link.dialOk ==> run == WorkerRun(None, [], [noticeId])
    ensures link.dialOk ==> run.written == Some(RequestHeader(topic, md5sum, msgType, nodeId))
    ensures link.dialOk && !HandshakeOk(link, msgType, md5sum) ==> run.forwarded == [] && run.notices == [noticeId]
    ensures link.dialOk && HandshakeOk(link, msgType, md5sum) ==>
              var response := HeaderMap(link.response.value);
              var r := Deframe(link.stream.data, link.stream.end, 0, quitAfter);
              && run.forwarded == Deliveries(r.payloads, EventOf(response))
              && (forall i :: 0 <= i < |run.forwarded| ==> run.forwarded[i].event.publisherName == Lookup(response, "callerid"))
              && run.notices == (if r.end == Disconnect then [noticeId] else [])
  {
    if !link.dialOk {
      return WorkerRun(None, [], [noticeId]);
    }
    var headers: seq<Header> := [];
    headers := headers + [Header("topic", topic)];
    headers := headers + [Header("md5sum", md5sum)];
    headers := headers + [Header("type", msgType)];
    headers := headers + [Header("callerid", nodeId)];
    assert headers == RequestHeader(topic, md5sum, msgType, nodeId);
    if !link.writeOk || link.response.None? {
      return WorkerRun(Some(headers), [], [noticeId]);
    }
    var resHeaderMap := FoldHeaders(link.response.value);
    if Lookup(resHeaderMap, "type") != msgType || Lookup(resHeaderMap, "md5sum") != md5sum {
      return WorkerRun(Some(headers), [], [noticeId]);
    }
    var event := MessageEvent(Lookup(resHeaderMap, "callerid"), resHeaderMap);
    var payloads, end := ReadLoop(link.stream, quitAfter);
    var forwarded := Deliveries(payloads, event);
    run := WorkerRun(Some(headers), forwarded, if end == Disconnect then [noticeId] else []);
  }
}
