/** A message through the encoder's and the decoder's own code. */
module PbEndToEnd {
  import opened Wrappers
  import opened Bits
  import opened PbVarint
  import opened PbSchema
  import opened PbFormat
  import opened PbRoundTrip
  import opened PbStream
  import opened PbEncoder
  import opened PbDecoder

  /** Encodes m into a buffer and decodes what was written there: given room for it, the message
      comes back, and the buffer begins with its encoding. */
  method ThroughBuffer(fields: seq<Field>, m: Value, buf: array<byte>) returns (ok: bool, back: Value)
    requires WfSchema(fields) && NoSingularDefaults(fields) && CarriesMessage(fields, m)
    modifies buf
    ensures EncMessage(fields, m).Some?
    ensures ok <==> |EncMessage(fields, m).value| <= buf.Length
    ensures ok ==> back == m
    ensures ok ==> EncMessage(fields, m).value <= buf[..]
  {
    assert m.Struct?;
    hide EncMessage, DecMessage, DefaultSlots, CarriesMessage, SlotCount, WfSchema, NoSingularDefaults;
    MessageRoundTrip(fields, m);
    ghost var e := EncMessage(fields, m).value;
    var out := new OStream.FromBuffer(buf);
    assert out.Now() == Window(false, [], [], 0, buf.Length);
    ok := Encode(out, fields, m);
    if !ok {
      return false, m;
    }
    assert [] + e == e;
    assert buf[..out.state] == e && out.bytesWritten == |e|;
    var input := new IStream(buf[..out.bytesWritten]);
    var dest := new Message(DefaultSlots(fields));
    ok := Decode(input, fields, dest);
    back := Struct(dest.slots);
  }
}
