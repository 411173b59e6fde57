/** The law the codec's own suite states: decoding undoes encoding, whatever buffers are passed in. */
module SnappyRoundTrip {
  import opened Keys
  import opened SnappyFormat
  import opened SnappyDecode
  import opened SnappyEncode

  /** `roundtrip`; sources too large to encode make the original panic. */
  method RoundTrip(b: Bytes, ebuf: array<Byte>, dbuf: array<Byte>) returns (d: DecodeResult)
    requires MaxEncodedLen(|b|) >= 0
    modifies ebuf, dbuf
    ensures d == Decoded(b)
  {
    var e := Encode(ebuf, b);
    d := Decode(dbuf, e.value);
  }
}
