/** The framed entry points on stream objects, tied to the framing functions. */
module FramedStreams {
  import opened Wire
  import opened Descriptor
  import opened InputStreams
  import opened OutputStreams
  import DecodeSpec
  import EncodeSpec
  import Decoder
  import Encoder
  import Framing

  /** pb_decode_delimited: after success the stream stands behind the declared body, however little of it was decoded.
      Once the prefix was read the parent is closed even if the nested decode fails: as many bytes are left as follow
      the body, but the read pointer is only where the nested stream ended, at most the declared end. It is short of
      that end when a packed array inside was given up without closing its own substream. */
  method DecodeDelimited(stream: InputStream, fields: seq<Field>, dest: Message) returns (ok: bool, m: Message)
    requires stream.Valid() && WellFormed(fields) && |dest| == |fields|
    modifies stream
    ensures stream.Valid() && stream.End() <= old(stream.End())
    ensures Framing.DecodeDelimited(fields, dest, old(stream.Rest())) == if ok then Ok(m, stream.Rest()) else Err
    ensures ok ==> stream.End() == old(stream.End())
    ensures var frame := TakeDelimited(old(stream.Rest()));
            frame.Ok? ==> stream.bytesLeft == |frame.rest| && stream.state <= old(stream.End()) - |frame.rest|
  {
    hide DecodeSpec.Decode, DecVarint32, DecVarint32From, WellFormed;
    m := dest;
    var sub: InputStream;
    ok, sub := stream.MakeStringSubstream();
    if !ok { return; }
    var status: bool;
    status, m := Decoder.Decode(sub, fields, dest);
    ok := stream.CloseStringSubstream(sub);
    if !ok { return; }
    ok := status;
  }

  /** pb_encode_delimited. */
  method EncodeDelimited(stream: OutputStream, fields: seq<Field>, m: Message) returns (ok: bool)
    requires stream.Valid() && WellFormed(fields) && Shaped(fields, m)
    modifies stream, stream.buf
    ensures stream.Valid()
    ensures Wrote(stream.sizing, stream.maxSize, old(stream.Now()), stream.Now(), EncodeSpec.EncSubmessage(fields, m),
            ok)
  {
    ok := Encoder.EncodeSubmessage(stream, fields, m);
  }
}
