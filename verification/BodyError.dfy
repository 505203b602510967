/** The ERROR body: a code and a message. */
module ErrorBody {
  import opened Prelude
  import opened Bytes
  import opened Codecs
  import opened Serialization
  import opened Buffers

  datatype Error = Error(code: int, message: Bytes)

  function EncError(e: Error): Bytes {
    EncInt(e.code) + EncString(e.message)
  }

  /** None when the code would read outside the body. */
  function GetError(b: Bytes): Option<Error> {
    var code := GetInt(b, 0);
    if code.None? then None else
    var message := GetString(b, code.value.next);
    if message.None? then None else Some(Error(code.value.value, message.value.value))
  }

  predicate ErrorFits(e: Error) {
    -0x8000_0000 <= e.code < 0x8000_0000 && |e.message| <= 0xFFFF
  }

  /** An ERROR body comes back exactly when its code is a 32-bit value and its message fits the prefix. */
  lemma ErrorRoundTripIff(e: Error)
    ensures GetError(EncError(e)) == Some(e) <==> ErrorFits(e)
  {
    var b := EncError(e);
    AtConcat(b, 0, EncInt(e.code), EncString(e.message));
    IntAt(b, 0, e.code);
    SignedReadings(e.code);
    StringRoundTrip(b, 4, e.message);
  }

  /**
   The same into an object whose message had `was` bytes: only the two low bytes of the stored length
   are written.
   */
  function GetErrorOver(b: Bytes, was: nat): Option<Error> {
    var code := GetInt(b, 0);
    if code.None? || code.value.next + 2 > |b| then None else
    var start := code.value.next + 2;
    var size := was / 0x10000 * 0x10000 + U16(b, code.value.next);
    if start + size > |b| then None else Some(Error(code.value.value, b[start..start + size]))
  }

  /** It reads what a new object reads unless the earlier message was longer than 65535 bytes. */
  lemma StaleLengthIff(b: Bytes, was: nat)
    ensures GetErrorOver(b, was) == GetError(b) <==> was <= 0xFFFF || GetError(b).None?
  {
    var high := was / 0x10000 * 0x10000;
    assert high == 0 <==> was <= 0xFFFF;
  }

  class BodyError {
    var code: int
    var message: Bytes

    constructor (code: int, input: Bytes)
      ensures this.code == code && message == input
    {
      this.code := code;
      message := input;
    }

    function Value(): Error
      reads this
    {
      Error(code, message)
    }

    /** `inside` tells that every read stayed in the body; the source does not check. */
    method Consume(buffer: Bytes) returns (inside: bool)
      modifies this
      ensures inside <==> GetErrorOver(buffer, |old(message)|).Some?
      ensures inside ==> GetErrorOver(buffer, |old(message)|) == Some(Value())
    {
      var c := GetInt(buffer, 0);
      if c.None? { return false; }
      code := c.value.value;
      if c.value.next + 2 > |buffer| { return false; }
      var start, size := c.value.next + 2, |message| / 0x10000 * 0x10000 + U16(buffer, c.value.next);
      if start + size > |buffer| { return false; }
      message := buffer[start..start + size];
      return true;
    }

    method Prepare(reserved: nat) returns (output: array<byte>)
      ensures fresh(output)
      ensures output.Length == reserved + |EncError(Value())| && output[reserved..] == EncError(Value())
    {
      var size := reserved + 4 + 2 + |message|;
      output := new byte[size](_ => 0);
      ghost var a := output[..];
      var buffer := EncodeInt(output, reserved, code);
      ghost var b := output[..];
      buffer := EncodeString(output, buffer, message);
      WroteBoth(a, b, output[..], reserved, EncInt(code), EncString(message));
      assert output[reserved..] == output[..][reserved..size];
    }
  }
}
