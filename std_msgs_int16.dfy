/** The generated message type std_msgs/Int16: a single signed 16-bit field. */
module StdMsgsInt16 {
  import opened Optional
  import opened Bytes
  import opened BytesIo

  const Name: string := "std_msgs/Int16"
  const MD5Sum: string := "8524586e34fbd7cb1c08c5f5f1ca0e57"

  /** Bytes on the wire: one int16. */
  const Size: nat := 2

  /** The wire form of x: its two's-complement pattern, low byte first. */
  function Encode(x: int16): (r: seq<byte>)
    ensures |r| == Size
    ensures (r[0] as int) + 0x100 * (r[1] as int) == if x < 0 then x + 0x1_0000 else x
  {
    Pow256Values();
    var u := ToUnsigned(x, Size);
    DecodeEncodeLE(u, Size);
    var r := EncodeLE(u, Size);
    assert DecodeLE(r[1..]) == (r[1] as int);
    r
  }

  /** The value whose wire form is b. */
  function Decode(b: seq<byte>): (x: int16)
    requires |b| == Size
    ensures (if x < 0 then x + 0x1_0000 else x) == (b[0] as int) + 0x100 * (b[1] as int)
  {
    Pow256Values();
    assert DecodeLE(b[1..]) == (b[1] as int);
    ToSigned(DecodeLE(b), Size)
  }

  /** Deserializing what Serialize wrote gives back the original value. */
  lemma DecodeEncode(x: int16)
    ensures Decode(Encode(x)) == x
  {
    Pow256Values();
    DecodeEncodeLE(ToUnsigned(x, Size), Size);
    SignedRoundTrip(x, Size);
  }

  /** Every two bytes are the wire form of exactly one value. */
  lemma EncodeDecode(b: seq<byte>)
    requires |b| == Size
    ensures Encode(Decode(b)) == b
  {
    Pow256Values();
    EncodeDecodeLE(b);
  }

  class Int16 {
    var data: int16

    /** _MsgInt16.NewMessage: a fresh message holding zero. */
    constructor NewMessage()
      ensures data == 0
    {
      data := 0;
    }

    /**
     * Appends the wire form of data to buf and leaves what was there alone.
     * The write's own error is dropped and nil is returned, always.
     */
    method Serialize(buf: Buffer) returns (err: Option<IoError>)
      modifies buf
      ensures buf.data == old(buf.data) + Encode(data)
      ensures err == None
    {
      err := None;
      buf.Write(Encode(data));
    }

    /**
     * Reads exactly Size bytes (binary.Read into data). With fewer available
     * it fails, the reader is drained and data keeps its value.
     */
    method Deserialize(r: Reader) returns (err: Option<IoError>)
      requires r.Valid()
      modifies this, r
      ensures r.Valid()
      ensures Size <= |old(r.Remaining())| ==>
                err == None && r.i == old(r.i) + Size && data == Decode(old(r.Remaining())[..Size])
      ensures |old(r.Remaining())| < Size ==>
                err == Some(if old(r.Remaining()) == [] then EOF else UnexpectedEOF)
                && r.i == r.s.Length && data == old(data)
    {
      err := None;
      var chunk, e := r.ReadFull(Size);
      if e.Some? {
        return e;
      }
      data := Decode(chunk);
    }
  }
}
