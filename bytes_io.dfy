/**
 * The two in-memory byte containers the generated codecs work on (Go's
 * bytes.Buffer and bytes.Reader), and the outcome of io.ReadFull, which both
 * the codecs and the connection worker's read loop rely on.
 */
module BytesIo {
  import opened Optional
  import opened Bytes

  /** The read errors the model distinguishes. */
  datatype IoError =
    | EOF            // io.EOF: the source ended before any byte of the read
    | UnexpectedEOF  // io.ErrUnexpectedEOF: the source ended part-way through the read
    | Timeout        // a net.Error whose Timeout() is true (the socket deadline passed)
    | NetFault       // any other socket error, e.g. a connection reset by the peer

  datatype ReadOutcome = Filled(chunk: seq<byte>) | Failed(err: IoError)

  /**
   * What io.ReadFull into an n-byte buffer returns when the source can still
   * deliver `avail` and then fails with `end`: n bytes if that many are there
   * (an empty read always succeeds); otherwise `end` itself when nothing at all
   * was read, and io.ErrUnexpectedEOF in place of io.EOF when something was.
   */
  function ReadFullOutcome(avail: seq<byte>, n: nat, end: IoError): (r: ReadOutcome)
    ensures r.Filled? <==> n <= |avail|
    ensures r.Filled? ==> |r.chunk| == n
    ensures r.Failed? && avail == [] ==> r.err == end
    ensures r.Failed? && avail != [] ==> r.err == (if end == EOF then UnexpectedEOF else end)
  {
    if n <= |avail| then Filled(avail[..n])
    else if avail == [] then Failed(end)
    else Failed(if end == EOF then UnexpectedEOF else end)
  }

  /** An append-only byte buffer (bytes.Buffer on the write side). */
  class Buffer {
    var data: seq<byte>

    constructor ()
      ensures data == []
    {
      data := [];
    }

    /** Appends b; a bytes.Buffer write never fails. */
    method Write(b: seq<byte>)
      modifies this
      ensures data == old(data) + b
    {
      data := data + b;
    }
  }

  /** A reader over a fixed byte array with a read position (bytes.Reader). */
  class Reader {
    const s: array<byte>
    var i: nat

    ghost predicate Valid()
      reads this
    {
      i <= s.Length
    }

    /** bytes.NewReader(b). */
    constructor (b: seq<byte>)
      ensures Valid() && fresh(s) && s[..] == b && i == 0
    {
      s := new byte[|b|](k requires 0 <= k < |b| => b[k]);
      i := 0;
    }

    /** The bytes not yet read. */
    ghost function Remaining(): seq<byte>
      reads this, s
      requires Valid()
    {
      s[i..]
    }

    /**
     * io.ReadFull on the reader: on success exactly n bytes are consumed; on
     * failure whatever was left has been consumed and the error is io.EOF or
     * io.ErrUnexpectedEOF.
     */
    method ReadFull(n: nat) returns (chunk: seq<byte>, err: Option<IoError>)
      requires Valid()
      modifies this
      ensures Valid()
      ensures ReadFullOutcome(old(Remaining()), n, EOF).Filled? ==>
                err == None && chunk == ReadFullOutcome(old(Remaining()), n, EOF).chunk && i == old(i) + n
      ensures ReadFullOutcome(old(Remaining()), n, EOF).Failed? ==>
                err == Some(ReadFullOutcome(old(Remaining()), n, EOF).err) && i == s.Length
    {
      if i + n <= s.Length {
        chunk := s[i..i + n];
        i := i + n;
        err := None;
      } else {
        err := Some(if i == s.Length then EOF else UnexpectedEOF);
        chunk := s[i..];
        i := s.Length;
      }
    }
  }
}
