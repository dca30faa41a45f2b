/**
 * The subscription coordinator (defaultSubscriber): its state, the five arms
 * of its event loop as methods, and the dispatch job it enqueues for every
 * inbound payload. Channels become method calls, spawning a connection worker
 * becomes inserting a map entry, and the signals sent to workers are recorded
 * in a ghost log.
 */
module Subscriber {
  import opened Optional
  import opened Bytes
  import opened BytesIo
  import opened PublisherConn
  import I16 = StdMsgsInt16
  import I32 = StdMsgsInt32

  // ------------------------------------------------------------ message types

  /** The message types of the model, each a name, a checksum and a codec. */
  datatype MessageType = Int16Type | Int32Type
  {
    /** The type's ROS name, a std_msgs name distinct for distinct types. */
    function Name(): (n: string)
      ensures n == if this == Int16Type then "std_msgs/Int16" else "std_msgs/Int32"
      ensures |n| == 14 && n[..9] == "std_msgs/"
    {
      match this
      case Int16Type => I16.Name
      case Int32Type => I32.Name
    }

    /** The type's checksum: 32 lower-case hexadecimal digits. */
    function MD5Sum(): (h: string)
      ensures |h| == 32 && forall i :: 0 <= i < |h| ==> h[i] in "0123456789abcdef"
    {
      match this
      case Int16Type => I16.MD5Sum
      case Int32Type => I32.MD5Sum
    }
  }

  /** A decoded message as a callback receives it. */
  datatype Message = Int16Msg(int16Data: int16) | Int32Msg(int32Data: int32)

  /**
   * What the dispatch job's message holds once Deserialize has run on the
   * payload: the value of its first bytes, or, when there are too few, the
   * zero value NewMessage left in it.
   */
  function Decoded(t: MessageType, payload: seq<byte>): (m: Message)
    ensures t == Int16Type <==> m.Int16Msg?
    ensures m.Int16Msg? && |payload| >= I16.Size ==> I16.Encode(m.int16Data) == payload[..I16.Size]
    ensures m.Int32Msg? && |payload| >= I32.Size ==> I32.Encode(m.int32Data) == payload[..I32.Size]
    ensures |payload| < (if t == Int16Type then I16.Size else I32.Size) ==> m == Zero(t)
  {
    match t
    case Int16Type =>
      if |payload| >= I16.Size then
        I16.EncodeDecode(payload[..I16.Size]);
        Int16Msg(I16.Decode(payload[..I16.Size]))
      else Int16Msg(0)
    case Int32Type =>
      if |payload| >= I32.Size then
        I32.EncodeDecode(payload[..I32.Size]);
        Int32Msg(I32.Decode(payload[..I32.Size]))
      else Int32Msg(0)
  }

  /** A publisher of another type never passes the handshake of a subscriber of this one. */
  lemma DistinctTypesIncompatible(t: MessageType, u: MessageType, response: map<string, string>)
    requires t != u
    requires Lookup(response, "type") == u.Name()
    ensures !Compatible(response, t.Name(), t.MD5Sum())
  {
    assert I16.Name[12] != I32.Name[12];
  }

  /** The payload needs to hold only the encoding at its front; bytes after it are left unread. */
  lemma DecodedEncoding(x: int32, tail: seq<byte>)
    ensures Decoded(Int32Type, I32.Encode(x) + tail) == Int32Msg(x)
  {
    assert (I32.Encode(x) + tail)[..I32.Size] == I32.Encode(x);
    I32.DecodeEncode(x);
  }

  lemma DecodedEncoding16(x: int16, tail: seq<byte>)
    ensures Decoded(Int16Type, I16.Encode(x) + tail) == Int16Msg(x)
  {
    assert (I16.Encode(x) + tail)[..I16.Size] == I16.Encode(x);
    I16.DecodeEncode(x);
  }

  /** The value NewMessage gives a message of type t. */
  function Zero(t: MessageType): Message
  {
    match t
    case Int16Type => Int16Msg(0)
    case Int32Type => Int32Msg(0)
  }

  /** A payload too short for the type leaves the message at its zero value (Deserialize fails and the error is only logged). */
  lemma DecodedShortPayload(t: MessageType, payload: seq<byte>)
    requires |payload| < (if t == Int16Type then I16.Size else I32.Size)
    ensures Decoded(t, payload) == Zero(t)
  {
  }

  // ---------------------------------------------------------------- callbacks

  /** A callback tagged with how many arguments it takes (the source inspects it by reflection). */
  datatype Callback = Arity0(name: string) | Arity1(name: string) | Arity2(name: string) | ArityMore(name: string)
  {
    function NumIn(): nat
      requires !ArityMore?
    {
      if Arity0? then 0 else if Arity1? then 1 else 2
    }
  }

  datatype Arg = MsgArg(msg: Message) | EventArg(event: MessageEvent)

  /** One call a dispatch job makes. */
  datatype Invocation = Invocation(callback: Callback, args: seq<Arg>)

  function Args(m: Message, ev: MessageEvent): seq<Arg>
  {
    [MsgArg(m), EventArg(ev)]
  }

  /**
   * The calls a dispatch job makes, in order: each callback of the snapshot
   * taking n <= 2 arguments is called with the first n of (message, event);
   * a callback taking more is skipped.
   */
  function Invocations(cbs: seq<Callback>, m: Message, ev: MessageEvent): (r: seq<Invocation>)
    ensures |r| <= |cbs|
  {
    if cbs == [] then []
    else
      var cb := cbs[|cbs| - 1];
      Invocations(cbs[..|cbs| - 1], m, ev)
        + (if cb.ArityMore? then [] else [Invocation(cb, Args(m, ev)[..cb.NumIn()])])
  }

  /** The job handles callbacks one after another: the calls for a + b are those for a, then those for b. */
  lemma {:induction false} InvocationsAppend(a: seq<Callback>, b: seq<Callback>, m: Message, ev: MessageEvent)
    ensures Invocations(a + b, m, ev) == Invocations(a, m, ev) + Invocations(b, m, ev)
    decreases |b|
  {
    if b == [] {
      assert a + b == a;
    } else {
      var b' := b[..|b| - 1];
      assert (a + b)[..|a + b| - 1] == a + b';
      assert (a + b)[|a + b| - 1] == b[|b| - 1];
      InvocationsAppend(a, b', m, ev);
    }
  }

  /** Every call goes to a callback of the snapshot taking at most two arguments, with the first NumIn of (message, event). */
  lemma {:induction false} InvocationsSound(cbs: seq<Callback>, m: Message, ev: MessageEvent, i: nat)
    requires i < |Invocations(cbs, m, ev)|
    ensures Invocations(cbs, m, ev)[i].callback in cbs
    ensures !Invocations(cbs, m, ev)[i].callback.ArityMore?
    ensures Invocations(cbs, m, ev)[i].args == Args(m, ev)[..Invocations(cbs, m, ev)[i].callback.NumIn()]
  {
    var prior := cbs[..|cbs| - 1];
    var rp := Invocations(prior, m, ev);
    if i < |rp| {
      InvocationsSound(prior, m, ev, i);
      assert Invocations(cbs, m, ev)[i] == rp[i];
      assert rp[i].callback in prior;
    }
  }

  /** Every callback of the snapshot taking at most two arguments is called. */
  lemma {:induction false} InvocationsComplete(cbs: seq<Callback>, m: Message, ev: MessageEvent, c: Callback)
    requires c in cbs && !c.ArityMore?
    ensures exists i :: 0 <= i < |Invocations(cbs, m, ev)| && Invocations(cbs, m, ev)[i].callback == c
  {
    var prior := cbs[..|cbs| - 1];
    var rp := Invocations(prior, m, ev);
    var r := Invocations(cbs, m, ev);
    if c == cbs[|cbs| - 1] {
      assert r[|r| - 1].callback == c;
    } else {
      var k :| 0 <= k < |cbs| && cbs[k] == c;
      assert prior[k] == c;
      InvocationsComplete(prior, m, ev, c);
      var i :| 0 <= i < |rp| && rp[i].callback == c;
      assert r[i] == rp[i];
    }
  }

  /** When no callback takes more than two arguments, the calls follow the snapshot one to one, in registration order. */
  lemma {:induction false} InvocationsInOrder(cbs: seq<Callback>, m: Message, ev: MessageEvent)
    requires forall c :: c in cbs ==> !c.ArityMore?
    ensures |Invocations(cbs, m, ev)| == |cbs|
    ensures forall i :: 0 <= i < |cbs| ==> Invocations(cbs, m, ev)[i] == Invocation(cbs[i], Args(m, ev)[..cbs[i].NumIn()])
  {
    if cbs != [] {
      var prior := cbs[..|cbs| - 1];
      assert forall c :: c in prior ==> c in cbs;
      InvocationsInOrder(prior, m, ev);
      var rp := Invocations(prior, m, ev);
      var r := Invocations(cbs, m, ev);
      forall i | 0 <= i < |prior|
        ensures r[i] == Invocation(cbs[i], Args(m, ev)[..cbs[i].NumIn()])
      {
        assert r[i] == rp[i] && prior[i] == cbs[i];
      }
    }
  }

  /** A callback not in the snapshot is never called by the job, whatever the payload. */
  lemma LateCallbackNotInvoked(cbs: seq<Callback>, late: Callback, m: Message, ev: MessageEvent)
    requires late !in cbs
    ensures forall i :: 0 <= i < |Invocations(cbs, m, ev)| ==> Invocations(cbs, m, ev)[i].callback != late
  {
    forall i | 0 <= i < |Invocations(cbs, m, ev)|
      ensures Invocations(cbs, m, ev)[i].callback != late
    {
      InvocationsSound(cbs, m, ev, i);
    }
  }

  // -------------------------------------------------------------- dispatch job

  /** The closure enqueued for one inbound payload, with the callbacks copied when it was made. */
  datatype Job = Job(msgType: MessageType, payload: seq<byte>, event: MessageEvent, callbacks: seq<Callback>)

  /** The shared job channel, as the sequence of jobs enqueued on it. */
  class JobQueue {
    var jobs: seq<Job>

    constructor ()
      ensures jobs == []
    {
      jobs := [];
    }
  }

  /**
   * Runs one job: a new message, Deserialize from the payload (an error is
   * only logged), then the snapshotted callbacks in order.
   */
  method RunJob(job: Job) returns (calls: seq<Invocation>)
    ensures calls == Invocations(job.callbacks, Decoded(job.msgType, job.payload), job.event)
  {
    var msg := DecodePayload(job.msgType, job.payload);
    calls := CallAll(job.callbacks, msg, job.event);
  }

  /** NewMessage, then Deserialize from a reader over the payload; an error leaves the message as it is. */
  method DecodePayload(t: MessageType, payload: seq<byte>) returns (msg: Message)
    ensures msg == Decoded(t, payload)
  {
    var reader := new Reader(payload);
    if t == Int16Type {
      var m := new I16.Int16.NewMessage();
      var err := m.Deserialize(reader);
      msg := Int16Msg(m.data);
    } else {
      var m := new I32.Int32.NewMessage();
      var err := m.Deserialize(reader);
      msg := Int32Msg(m.data);
    }
  }

  /** The loop over the snapshot: call each callback of arity n <= 2 with args[0:n]. */
  method CallAll(callbacks: seq<Callback>, msg: Message, ev: MessageEvent) returns (calls: seq<Invocation>)
    ensures calls == Invocations(callbacks, msg, ev)
  {
    var args := Args(msg, ev);
    calls := [];
    for i := 0 to |callbacks|
      invariant calls == Invocations(callbacks[..i], msg, ev)
    {
      var callback := callbacks[i];
      assert callbacks[..i + 1][..i] == callbacks[..i];
      if !callback.ArityMore? {
        calls := calls + [Invocation(callback, args[..callback.NumIn()])];
      }
    }
    assert callbacks[..|callbacks|] == callbacks;
  }

  /**
   * Even when Deserialize fails on a short payload, every callback of the
   * snapshot taking at most two arguments is called, with the zero message.
   */
  lemma ShortPayloadStillDispatched(job: Job, c: Callback)
    requires |job.payload| < (if job.msgType == Int16Type then I16.Size else I32.Size)
    requires c in job.callbacks && !c.ArityMore?
    ensures var calls := Invocations(job.callbacks, Decoded(job.msgType, job.payload), job.event);
            exists i :: 0 <= i < |calls| && calls[i] == Invocation(c, Args(Zero(job.msgType), job.event)[..c.NumIn()])
  {
    var m := Decoded(job.msgType, job.payload);
    var calls := Invocations(job.callbacks, m, job.event);
    InvocationsComplete(job.callbacks, m, job.event, c);
    var i :| 0 <= i < |calls| && calls[i].callback == c;
    InvocationsSound(job.callbacks, m, job.event, i);
  }

  /**
   * End to end for std_msgs/Int32: a publisher that frames the encoding of x
   * once and then ends the stream delivers exactly that payload, and a
   * one-argument callback of the subscriber is called once, with x.
   */
  lemma PublishedInt32Delivered(x: int32, cb: Callback, ev: MessageEvent, end: IoError)
    requires cb.Arity1?
    ensures Deframe(Frames([I32.Encode(x)]), end, 0, None).payloads == [I32.Encode(x)]
    ensures Invocations([cb], Decoded(Int32Type, I32.Encode(x)), ev) == [Invocation(cb, [MsgArg(Int32Msg(x))])]
  {
    assert Framable([I32.Encode(x)]);
    FramedStream([I32.Encode(x)], end);
    DecodedEncoding(x, []);
    assert I32.Encode(x) + [] == I32.Encode(x);
    var m := Int32Msg(x);
    assert [cb][..0] == [];
    assert Args(m, ev)[..cb.NumIn()] == [MsgArg(m)];
    assert Invocations([cb], m, ev) == [] + [Invocation(cb, Args(m, ev)[..cb.NumIn()])];
  }

  // ----------------------------------------------------- publisher-list update

  /**
   * setDifference(a, b): the elements of a that are not in b, each once, in
   * the order they first appear in a.
   */
  function SetDifference(a: seq<string>, b: seq<string>): (r: seq<string>)
    ensures forall x :: x in r <==> x in a && x !in b
    ensures forall i, j :: 0 <= i < j < |r| ==> r[i] != r[j]
    ensures |r| <= |a|
  {
    if a == [] then []
    else if a[0] in b then SetDifference(a[1..], b)
    else
      var rest := SetDifference(a[1..], b + [a[0]]);
      assert a[0] in b + [a[0]];
      [a[0]] + rest
  }

  /** The reply of callRosApi(pub, "requestTopic", ...): an error, or a protocol with its address and port. */
  datatype TopicReply = RpcError | Protocol(protocolName: string, addr: string, port: int32)

  predicate Accepted(reply: TopicReply)
  {
    reply.Protocol? && reply.protocolName == "TCPROS"
  }

  /** The value of a digit character; 0 for any other character. */
  function DigitValue(c: char): nat
  {
    if '0' <= c <= '9' then c as int - '0' as int else 0
  }

  /** The value of a string of decimal digits, most significant first. */
  function DecimalValue(d: string): nat
  {
    if d == [] then 0 else 10 * DecimalValue(d[..|d| - 1]) + DigitValue(d[|d| - 1])
  }

  /** A decimal numeral: digits only, and no leading zero unless it is "0". */
  predicate IsNumeral(d: string)
  {
    && |d| >= 1
    && (forall i :: 0 <= i < |d| ==> '0' <= d[i] <= '9')
    && (d[0] == '0' ==> d == "0")
  }

  function DigitChar(k: nat): (c: char)
    requires k < 10
    ensures '0' <= c <= '9' && DigitValue(c) == k
  {
    ('0' as int + k) as char
  }

  /** The decimal digits of n, as fmt's %d writes them. */
  function Digits(n: nat): (d: string)
    ensures IsNumeral(d)
    ensures n == 0 <==> d == "0"
  {
    if n < 10 then [DigitChar(n)] else Digits(n / 10) + [DigitChar(n % 10)]
  }

  /** The digits of n read back as n. */
  lemma {:induction false} DigitsValue(n: nat)
    ensures DecimalValue(Digits(n)) == n
  {
    var d := Digits(n);
    if n < 10 {
      assert d[..0] == [];
    } else {
      assert d[..|d| - 1] == Digits(n / 10);
      DigitsValue(n / 10);
    }
  }

  /** fmt.Sprintf("%s:%d", addr, port). */
  function DialAddress(addr: string, port: int32): (uri: string)
    ensures |uri| >= |addr| + 2 && uri[..|addr|] == addr && uri[|addr|] == ':'
    ensures uri[|addr| + 1] == '-' <==> port < 0
    ensures var digits := uri[|addr| + (if port < 0 then 2 else 1)..];
            IsNumeral(digits) && DecimalValue(digits) == if port < 0 then -(port as int) else port as int
  {
    var n: int := port;
    var digits := if n < 0 then Digits(-n) else Digits(n);
    DigitsValue(if n < 0 then -n else n);
    var uri := addr + ":" + (if n < 0 then "-" + digits else digits);
    assert uri[|addr| + (if n < 0 then 2 else 1)..] == digits;
    uri
  }

  /**
   * The coordinator's record of one connection worker: the address it dials,
   * and the string its disconnection notices carry.
   */
  datatype ConnState = ConnState(uri: string, noticeId: string)

  /** Spawning a worker for pub: it dials the negotiated address and reports under pub. */
  function Spawn(pub: string, reply: TopicReply): (st: ConnState)
    requires reply.Protocol?
    ensures NoticesMatchKeys(map[pub := st])
    ensures st.uri == DialAddress(reply.addr, reply.port)
  {
    ConnState(DialAddress(reply.addr, reply.port), pub)
  }

  /**
   * Spawning as the source writes it: the worker is handed the dial address,
   * and reports its disconnection under that address.
   */
  function SpawnAsWritten(pub: string, reply: TopicReply): (st: ConnState)
    requires reply.Protocol?
    ensures st.noticeId == st.uri
  {
    var uri := DialAddress(reply.addr, reply.port);
    ConnState(uri, uri)
  }

  /**
   * As written, the disconnection notice of a worker spawned for a publisher
   * whose API URI is not its dial address misses the entry: the entry stays,
   * and its worker is never closed by the disconnection arm.
   */
  lemma DisconnectNoticeMissesAsWritten(pub: string, reply: TopicReply)
    requires Accepted(reply)
    requires pub != DialAddress(reply.addr, reply.port)
    ensures var conns := map[pub := SpawnAsWritten(pub, reply)];
            pub in conns - {conns[pub].noticeId}
  {
  }

  lemma DigitsOf40002()
    ensures Digits(40002) == "40002"
  {
    assert DigitChar(0) == '0' && DigitChar(2) == '2' && DigitChar(4) == '4';
    assert Digits(4) == "4";
    assert Digits(40) == "40";
    assert Digits(400) == "400";
    assert Digits(4000) == "4000";
  }

  lemma TalkerDialAddress()
    ensures DialAddress("talker", 40002) == "talker:40002"
  {
    DigitsOf40002();
    assert "talker" + ":" + "40002" == "talker:40002";
  }

  /** The example: a publisher at http://talker:40001/ that serves the topic on talker:40002. */
  lemma DisconnectNoticeMissesExample()
    ensures DialAddress("talker", 40002) == "talker:40002"
    ensures var reply := Protocol("TCPROS", "talker", 40002);
            var conns := map["http://talker:40001/" := SpawnAsWritten("http://talker:40001/", reply)];
            "http://talker:40001/" in conns - {conns["http://talker:40001/"].noticeId}
  {
    var reply := Protocol("TCPROS", "talker", 40002);
    TalkerDialAddress();
    DisconnectNoticeMissesAsWritten("http://talker:40001/", reply);
  }

  /** Every entry's worker reports disconnection under that entry's own key. */
  ghost predicate NoticesMatchKeys(conns: map<string, ConnState>)
  {
    forall p :: p in conns ==> conns[p].noticeId == p
  }

  /** The second loop of the update arm: every accepted new publisher gets an entry. */
  function Connect(conns: map<string, ConnState>, pubs: seq<string>, requestTopic: string -> TopicReply): (c: map<string, ConnState>)
    ensures conns.Keys <= c.Keys
    ensures forall p :: p in c && p !in conns ==> p in pubs && Accepted(requestTopic(p))
  {
    if pubs == [] then conns
    else
      var c := Connect(conns, pubs[..|pubs| - 1], requestTopic);
      var pub := pubs[|pubs| - 1];
      if Accepted(requestTopic(pub)) then c[pub := Spawn(pub, requestTopic(pub))] else c
  }

  /**
   * After the second loop, a publisher has an entry iff it had one or it is
   * new and its requestTopic reply is TCPROS; new entries are spawned from the
   * reply, and entries of other publishers are left as they were.
   */
  lemma {:induction false} ConnectEntries(conns: map<string, ConnState>, pubs: seq<string>, requestTopic: string -> TopicReply, p: string)
    ensures p in Connect(conns, pubs, requestTopic) <==> p in conns || (p in pubs && Accepted(requestTopic(p)))
    ensures p in pubs && Accepted(requestTopic(p)) ==> Connect(conns, pubs, requestTopic)[p] == Spawn(p, requestTopic(p))
    ensures p !in pubs && p in conns ==> Connect(conns, pubs, requestTopic)[p] == conns[p]
  {
    if pubs != [] {
      var prior := pubs[..|pubs| - 1];
      ConnectEntries(conns, prior, requestTopic, p);
      assert p in pubs <==> p in prior || p == pubs[|pubs| - 1];
    }
  }

  /** The cancel signals of the first loop: one per dead publisher that still has an entry when reached. */
  function CancelSignals(dead: seq<string>, conns: map<string, ConnState>): (r: seq<Signal>)
    ensures |r| <= |dead|
    ensures forall i :: 0 <= i < |r| ==> r[i].Cancel? && r[i].pub in dead && r[i].pub in conns
  {
    if dead == [] then []
    else
      var prior := dead[..|dead| - 1];
      var pub := dead[|dead| - 1];
      CancelSignals(prior, conns) + (if pub in conns && pub !in prior then [Cancel(pub)] else [])
  }

  /** How many of the signals are a cancel for p. */
  function CancelCount(signals: seq<Signal>, p: string): nat
  {
    if signals == [] then 0
    else CancelCount(signals[..|signals| - 1], p) + (if signals[|signals| - 1] == Cancel(p) then 1 else 0)
  }

  lemma {:induction false} CancelCountAppend(a: seq<Signal>, b: seq<Signal>, p: string)
    ensures CancelCount(a + b, p) == CancelCount(a, p) + CancelCount(b, p)
    decreases |b|
  {
    if b == [] {
      assert a + b == a;
    } else {
      assert (a + b)[..|a + b| - 1] == a + b[..|b| - 1];
      CancelCountAppend(a, b[..|b| - 1], p);
    }
  }

  /**
   * A dead publisher (listed in deadPubs, possibly more than once) that had an
   * entry gets exactly one cancel signal; every other publisher gets none.
   */
  lemma {:induction false} CancelledOnce(dead: seq<string>, conns: map<string, ConnState>, p: string)
    ensures CancelCount(CancelSignals(dead, conns), p) == if p in dead && p in conns then 1 else 0
  {
    if dead != [] {
      var prior := dead[..|dead| - 1];
      var pub := dead[|dead| - 1];
      CancelledOnce(prior, conns, p);
      var added: seq<Signal> := if pub in conns && pub !in prior then [Cancel(pub)] else [];
      CancelCountAppend(CancelSignals(prior, conns), added, p);
      assert added != [] ==> added[..0] == [];
      assert p in dead <==> p in prior || p == pub;
    }
  }

  /** The connections after an update from oldList to newList. */
  function AfterUpdate(conns: map<string, ConnState>, oldList: seq<string>, newList: seq<string>,
                       requestTopic: string -> TopicReply): (c: map<string, ConnState>)
    ensures forall p :: p in c && p !in newList ==> p in conns && p !in oldList
    ensures forall p :: p in c && p !in conns ==> p in newList && p !in oldList && Accepted(requestTopic(p))
  {
    var dead := SetDifference(oldList, newList);
    Connect(conns - (set p | p in dead), SetDifference(newList, oldList), requestTopic)
  }

  /**
   * The update keeps the coordinator's invariant: afterwards exactly the
   * publishers of the new list that either kept their entry or are new with
   * a TCPROS reply have one; a failed or non-TCPROS reply skips that
   * publisher only, and an entry that survives is unchanged.
   */
  lemma UpdateEntries(conns: map<string, ConnState>, oldList: seq<string>, newList: seq<string>,
                      requestTopic: string -> TopicReply, p: string)
    requires forall q :: q in conns ==> q in oldList
    ensures p in AfterUpdate(conns, oldList, newList, requestTopic) <==>
              p in newList && (p in conns || (p !in oldList && Accepted(requestTopic(p))))
    ensures p in conns && p in newList ==> AfterUpdate(conns, oldList, newList, requestTopic)[p] == conns[p]
    ensures p in newList && p !in oldList && Accepted(requestTopic(p)) ==>
              AfterUpdate(conns, oldList, newList, requestTopic)[p] == Spawn(p, requestTopic(p))
  {
    var dead := SetDifference(oldList, newList);
    ConnectEntries(conns - (set q | q in dead), SetDifference(newList, oldList), requestTopic, p);
  }

  lemma UpdateKeepsKeysListed(conns: map<string, ConnState>, oldList: seq<string>, newList: seq<string>,
                              requestTopic: string -> TopicReply)
    requires forall q :: q in conns ==> q in oldList
    ensures forall q :: q in AfterUpdate(conns, oldList, newList, requestTopic) ==> q in newList
  {
    forall q | q in AfterUpdate(conns, oldList, newList, requestTopic)
      ensures q in newList
    {
      UpdateEntries(conns, oldList, newList, requestTopic, q);
    }
  }

  /**
   * With the corrected spawn, an update keeps every entry's notices naming
   * the entry's own key. As written (SpawnAsWritten) this does not hold.
   */
  lemma UpdateKeepsNoticeIds(conns: map<string, ConnState>, oldList: seq<string>, newList: seq<string>,
                             requestTopic: string -> TopicReply)
    requires forall q :: q in conns ==> q in oldList
    requires NoticesMatchKeys(conns)
    ensures NoticesMatchKeys(AfterUpdate(conns, oldList, newList, requestTopic))
  {
    forall q | q in AfterUpdate(conns, oldList, newList, requestTopic)
      ensures AfterUpdate(conns, oldList, newList, requestTopic)[q].noticeId == q
    {
      UpdateEntries(conns, oldList, newList, requestTopic, q);
    }
  }

  /**
   * With the corrected spawn, the worker an update starts for a new
   * publisher reports under that publisher's key, so its disconnection
   * notice removes exactly its entry and leaves every other one.
   */
  lemma WorkerNoticeRemovesEntry(conns: map<string, ConnState>, oldList: seq<string>, newList: seq<string>,
                                 requestTopic: string -> TopicReply, p: string)
    requires forall q :: q in conns ==> q in oldList
    requires NoticesMatchKeys(conns)
    requires p in newList && p !in oldList && Accepted(requestTopic(p))
    ensures var c := AfterUpdate(conns, oldList, newList, requestTopic);
            p in c && c - {c[p].noticeId} == c - {p}
  {
    UpdateEntries(conns, oldList, newList, requestTopic, p);
    UpdateKeepsNoticeIds(conns, oldList, newList, requestTopic);
  }

  /**
   * A publisher whose connection dropped but which stays listed is not in the
   * next update's set of new publishers, so that update does not reconnect it.
   */
  lemma DroppedButListedStaysDisconnected(conns: map<string, ConnState>, pubList: seq<string>, newList: seq<string>,
                                          requestTopic: string -> TopicReply, p: string)
    requires forall q :: q in conns ==> q in pubList
    requires p in pubList
    ensures p !in AfterUpdate(conns - {p}, pubList, newList, requestTopic)
  {
    UpdateEntries(conns - {p}, pubList, newList, requestTopic, p);
  }

  // ------------------------------------------------------------- the class

  /** A signal sent to a worker's quit channel: Cancel is a send then close, Close a close alone. */
  datatype Signal = Cancel(pub: string) | Close(pub: string)

  class DefaultSubscriber {
    const topic: string
    const msgType: MessageType
    var pubList: seq<string>
    var callbacks: seq<Callback>
    var connections: map<string, ConnState>
    /** False once the shutdown arm has returned from the event loop. */
    var running: bool
    /** Signals sent to the workers' quit channels, in order. */
    ghost var signals: seq<Signal>
    /** Publishers asked for transport parameters (requestTopic), in call order. */
    ghost var requested: seq<string>
    /** Whether unregisterSubscriber has been called. */
    ghost var unregistered: bool

    /** What every arm keeps: at least the first callback, and an entry only for a listed publisher. */
    ghost predicate Valid()
      reads this
    {
      && |callbacks| >= 1
      && (forall p :: p in connections ==> p in pubList)
    }

    /** newDefaultSubscriber: one callback, no publishers, no connections. */
    constructor (topic: string, msgType: MessageType, callback: Callback)
      ensures Valid() && running
      ensures this.topic == topic && this.msgType == msgType
      ensures pubList == [] && connections == map[] && callbacks == [callback]
      ensures signals == [] && requested == [] && !unregistered
    {
      this.topic := topic;
      this.msgType := msgType;
      pubList := [];
      connections := map[];
      callbacks := [callback];
      running := true;
      signals := [];
      requested := [];
      unregistered := false;
    }

    /**
     * The publisher-list arm: adopt list; cancel and drop the entry of every
     * publisher that left it; ask every new one for transport parameters and
     * spawn a worker for it when the reply is TCPROS.
     */
    method OnPublisherList(list: seq<string>, requestTopic: string -> TopicReply)
      requires Valid() && running
      modifies this
      ensures Valid() && running
      ensures pubList == list
      ensures connections == AfterUpdate(old(connections), old(pubList), list, requestTopic)
      ensures signals == old(signals) + CancelSignals(SetDifference(old(pubList), list), old(connections))
      ensures requested == old(requested) + SetDifference(list, old(pubList))
      ensures callbacks == old(callbacks) && unregistered == old(unregistered)
    {
      var deadPubs := SetDifference(pubList, list);
      var newPubs := SetDifference(list, pubList);
      ghost var oldList := pubList;
      ghost var c0 := connections;
      pubList := list;
      CancelDead(deadPubs);
      ConnectNew(newPubs, requestTopic);
      UpdateKeepsKeysListed(c0, oldList, list, requestTopic);
    }

    /** The first loop of the update arm: cancel and drop the entry of each dead publisher that has one. */
    method CancelDead(deadPubs: seq<string>)
      modifies this
      ensures connections == old(connections) - (set p | p in deadPubs)
      ensures signals == old(signals) + CancelSignals(deadPubs, old(connections))
      ensures pubList == old(pubList) && callbacks == old(callbacks) && running == old(running)
      ensures requested == old(requested) && unregistered == old(unregistered)
    {
      for i := 0 to |deadPubs|
        invariant connections == old(connections) - (set p | p in deadPubs[..i])
        invariant signals == old(signals) + CancelSignals(deadPubs[..i], old(connections))
        invariant pubList == old(pubList) && callbacks == old(callbacks) && running == old(running)
        invariant requested == old(requested) && unregistered == old(unregistered)
      {
        var pub := deadPubs[i];
        assert deadPubs[..i + 1][..i] == deadPubs[..i];
        assert pub in connections <==> pub in old(connections) && pub !in deadPubs[..i];
        if pub !in connections {
          continue;
        }
        signals := signals + [Cancel(pub)];
        connections := connections - {pub};
      }
      assert deadPubs[..|deadPubs|] == deadPubs;
    }

    /** The second loop of the update arm: ask each new publisher for transport parameters and spawn a worker on TCPROS. */
    method ConnectNew(newPubs: seq<string>, requestTopic: string -> TopicReply)
      modifies this
      ensures connections == Connect(old(connections), newPubs, requestTopic)
      ensures requested == old(requested) + newPubs
      ensures pubList == old(pubList) && callbacks == old(callbacks) && running == old(running)
      ensures signals == old(signals) && unregistered == old(unregistered)
    {
      for i := 0 to |newPubs|
        invariant connections == Connect(old(connections), newPubs[..i], requestTopic)
        invariant requested == old(requested) + newPubs[..i]
        invariant pubList == old(pubList) && callbacks == old(callbacks) && running == old(running)
        invariant signals == old(signals) && unregistered == old(unregistered)
      {
        var pub := newPubs[i];
        assert newPubs[..i + 1][..i] == newPubs[..i];
        requested := requested + [pub];
        var result := requestTopic(pub);
        if result.RpcError? {
          continue;
        }
        if result.protocolName == "TCPROS" {
          connections := connections[pub := Spawn(pub, result)];
        }
      }
      assert newPubs[..|newPubs|] == newPubs;
    }

    /** The add-callback arm: one callback at the end, nothing else changes. */
    method OnAddCallback(callback: Callback)
      requires Valid() && running
      modifies this
      ensures Valid() && running
      ensures callbacks == old(callbacks) + [callback]
      ensures pubList == old(pubList) && connections == old(connections)
      ensures signals == old(signals) && requested == old(requested) && unregistered == old(unregistered)
    {
      callbacks := callbacks + [callback];
    }

    /** The inbound-message arm: enqueue one job holding a copy of the callbacks as they are now. */
    method OnMessage(msg: Inbound, queue: JobQueue)
      requires Valid() && running
      modifies queue
      ensures Valid() && running
      ensures queue.jobs == old(queue.jobs) + [Job(msgType, msg.bytes, msg.event, callbacks)]
    {
      var snapshot := callbacks;
      queue.jobs := queue.jobs + [Job(msgType, msg.bytes, msg.event, snapshot)];
    }

    /** The disconnection arm: close and drop the entry named by the notice, if there is one. */
    method OnDisconnected(noticeId: string)
      requires Valid() && running
      modifies this
      ensures Valid() && running
      ensures connections == old(connections) - {noticeId}
      ensures signals == old(signals) + (if noticeId in old(connections) then [Close(noticeId)] else [])
      ensures pubList == old(pubList) && callbacks == old(callbacks)
      ensures requested == old(requested) && unregistered == old(unregistered)
    {
      if noticeId in connections {
        signals := signals + [Close(noticeId)];
        connections := connections - {noticeId};
      }
    }

    /**
     * The shutdown arm: cancel every worker once (in the map's unspecified
     * order), call unregisterSubscriber (its error is only logged) and leave
     * the loop.
     */
    method OnShutdown()
      requires Valid() && running
      modifies this
      ensures !running && unregistered
      ensures pubList == old(pubList) && callbacks == old(callbacks) && connections == old(connections)
      ensures requested == old(requested)
      ensures |signals| == |old(signals)| + |old(connections)|
      ensures signals[..|old(signals)|] == old(signals)
      ensures forall i :: |old(signals)| <= i < |signals| ==> signals[i].Cancel? && signals[i].pub in old(connections)
      ensures forall p :: p in old(connections) ==> Cancel(p) in signals[|old(signals)|..]
    {
      ghost var s0 := signals;
      var pending := connections.Keys;
      while pending != {}
        invariant pubList == old(pubList) && callbacks == old(callbacks) && connections == old(connections)
        invariant requested == old(requested)
        invariant pending <= connections.Keys
        invariant |signals| == |s0| + |connections.Keys| - |pending|
        invariant signals[..|s0|] == s0
        invariant forall i :: |s0| <= i < |signals| ==>
                    signals[i].Cancel? && signals[i].pub in connections && signals[i].pub !in pending
        invariant forall p :: p in connections && p !in pending ==> Cancel(p) in signals[|s0|..]
        decreases |pending|
      {
        var p :| p in pending;
        ghost var before := signals;
        signals := signals + [Cancel(p)];
        pending := pending - {p};
        assert signals[|s0|..] == before[|s0|..] + [Cancel(p)];
      }
      unregistered := true;
      running := false;
    }

    /** GetNumPublishers: the length of the publisher list, which bounds the number of open connections. */
    function GetNumPublishers(): (n: nat)
      reads this
      requires Valid()
      ensures n == |pubList|
      ensures |connections| <= n
    {
      KeysWithinList(connections, pubList);
      |pubList|
    }
  }

  lemma {:induction false} SetOfSeqSize(s: seq<string>)
    ensures |set x | x in s| <= |s|
  {
    if s != [] {
      SetOfSeqSize(s[1..]);
      assert (set x | x in s) == (set x | x in s[1..]) + {s[0]};
    }
  }

  lemma {:induction false} SubsetSize(a: set<string>, b: set<string>)
    requires a <= b
    ensures |a| <= |b|
    decreases |b|
  {
    if a != {} {
      var x :| x in a;
      SubsetSize(a - {x}, b - {x});
    }
  }

  lemma KeysWithinList(conns: map<string, ConnState>, list: seq<string>)
    requires forall p :: p in conns ==> p in list
    ensures |conns| <= |list|
  {
    assert |conns| == |conns.Keys|;
    SubsetSize(conns.Keys, set x | x in list);
    SetOfSeqSize(list);
  }
}
