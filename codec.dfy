/**
 * The wire format of commands in both directions: the ASCII literal "AT",
 * a 2-character command code, then the value (possibly empty). Anything
 * else received is dropped without a report.
 */
module CommandCodec {
  import opened Options

  /** One decoded unit: a 2-character code and its value. */
  datatype Command = Command(code: string, value: string)

  const Prefix: string := "AT"

  /** The outbound notify payload; only ever built for a 2-character code. */
  function Encode(code: string, value: string): (frame: string)
    requires |code| == 2
    ensures |frame| == 4 + |value|
    ensures Decode(frame) == Some(Command(code, value))
  {
    Prefix + code + value
  }

  /**
   * An inbound buffer: shorter than 4 characters or not starting with 'A','T'
   * is no frame; otherwise the code is characters [2, 4) and the value is
   * characters [4, end), empty when the buffer has exactly 4 characters.
   */
  function Decode(buf: string): (r: Option<Command>)
    ensures r.Some? <==> |buf| >= 4 && buf[..2] == Prefix
    ensures r.Some? ==> |r.value.code| == 2
  {
    if |buf| < 4 then None
    else if buf[0] != 'A' || buf[1] != 'T' then None
    else Some(Command(buf[2..4], if |buf| > 4 then buf[4..] else ""))
  }

  /** Every accepted buffer is exactly the encoding of what it decodes to. */
  lemma EncodeDecode(buf: string)
    requires Decode(buf).Some?
    ensures Encode(Decode(buf).value.code, Decode(buf).value.value) == buf
  {
    assert buf == buf[..2] + buf[2..4] + buf[4..];
  }

  /** Decoding is one-to-one on the buffers it accepts. */
  lemma DecodeInjective(a: string, b: string)
    requires Decode(a).Some? && Decode(a) == Decode(b)
    ensures a == b
  {
    EncodeDecode(a);
    EncodeDecode(b);
  }

  /** The worked example: "LV" with value "1" is sent as "ATLV1", and read back as ("LV", "1"). */
  lemma ExampleFrame()
    ensures Encode("LV", "1") == "ATLV1"
    ensures Decode("ATLV1") == Some(Command("LV", "1"))
  {
  }
}
