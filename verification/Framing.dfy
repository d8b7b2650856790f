/** Messages in a longer stream: length-delimited and null-terminated framing. */
module Framing {
  import opened Wire
  import opened Descriptor
  import opened Options
  import opened EncodeSpec
  import opened DecodeSpec
  import opened RoundTrip

  /** pb_decode_delimited. */
  function DecodeDelimited(fields: seq<Field>, dest: Message, s: bytes): (r: Res<Message>)
    ensures r.Ok? ==> |r.rest| < |s|
  {
    match TakeDelimited(s)
    case Err => Err
    case Ok(body, rest) =>
      match Decode(fields, dest, body)
      case Err => Err
      case Ok(m, _) => Ok(m, rest)
  }

  /** pb_encode_nullterminated. */
  function EncodeNullTerminated(fields: seq<Field>, m: Message): Option<bytes> {
    match EncMessage(fields, m)
    case None => None
    case Some(b) => Some(b + [0])
  }

  ghost predicate Encodable(fields: seq<Field>, m: Message) {
    && Shaped(fields, m) && Valid(fields, m)
    && EncMessage(fields, m).Some? && |EncMessage(fields, m).value| < TWO32
  }

  /** The delimited encodings of a list of messages, one after the other. */
  function EncodeAll(fields: seq<Field>, ms: seq<Message>): Option<bytes> {
    if ms == [] then Some([])
    else match EncSubmessage(fields, ms[0])
      case None => None
      case Some(a) =>
        match EncodeAll(fields, ms[1..])
        case None => None
        case Some(b) => Some(a + b)
  }

  /** Read n delimited messages, each into a structure that last held `dest`. */
  function DecodeAll(fields: seq<Field>, dest: Message, n: nat, s: bytes): Res<seq<Message>>
    decreases n
  {
    if n == 0 then Ok([], s)
    else match DecodeDelimited(fields, dest, s)
      case Err => Err
      case Ok(m, rest) =>
        match DecodeAll(fields, m, n - 1, rest)
        case Err => Err
        case Ok(ms, rest') => Ok([m] + ms, rest')
  }

  /** Concatenated delimited messages are read back one by one, whatever follows them. */
  lemma {:induction false} DelimitedStream(fields: seq<Field>, ms: seq<Message>, dest: Message, t: bytes)
    requires WellFormed(fields) && Shaped(fields, dest)
    requires forall k :: 0 <= k < |ms| ==> Encodable(fields, ms[k])
    ensures EncodeAll(fields, ms).Some?
    ensures var r := DecodeAll(fields, dest, |ms|, EncodeAll(fields, ms).value + t);
            && r.Ok? && r.rest == t && |r.value| == |ms|
            && forall k :: 0 <= k < |ms| ==> ViewMessage(fields, r.value[k]) == ViewMessage(fields, ms[k])
    decreases |ms|
  {
    hide WellFormed, Shaped, ViewMessage, DecodeDelimited, EncMessage, Valid;
    if ms != [] {
      var a := EncSubmessage(fields, ms[0]).value;
      var m := DelimitedFirst(fields, ms, dest, t);
      DelimitedStream(fields, ms[1..], m, t);
      var b := EncodeAll(fields, ms[1..]).value;
      assert a + b + t == a + (b + t);
    }
  }

  lemma DelimitedFirst(fields: seq<Field>, ms: seq<Message>, dest: Message, t: bytes) returns (m: Message)
    requires WellFormed(fields) && Shaped(fields, dest) && ms != []
    requires forall k :: 0 <= k < |ms| ==> Encodable(fields, ms[k])
    ensures EncSubmessage(fields, ms[0]).Some? && Shaped(fields, m)
    ensures ViewMessage(fields, m) == ViewMessage(fields, ms[0])
    ensures forall u: bytes :: DecodeDelimited(fields, dest, EncSubmessage(fields, ms[0]).value + u) == Ok(m, u)
  {
    var b := EncMessage(fields, ms[0]).value;
    DefaultFresh(fields, dest);
    var st := MessageRoundTrip(fields, ms[0], Default(fields, dest), b);
    m := st.msg;
    forall u: bytes ensures DecodeDelimited(fields, dest, EncSubmessage(fields, ms[0]).value + u) == Ok(m, u) {
      DelimitedPrefix(b, u);
    }
  }

  /** A null-terminated message is read back, and exactly the bytes behind the terminator stay unread. */
  lemma NullTerminated(fields: seq<Field>, m: Message, dest: Message, t: bytes)
    requires WellFormed(fields) && Encodable(fields, m) && Shaped(fields, dest)
    ensures var r := Decode(fields, dest, EncodeNullTerminated(fields, m).value + t);
            r.Ok? && r.rest == t && ViewMessage(fields, r.value) == ViewMessage(fields, m)
  {
    hide WellFormed, Shaped, ViewMessage, Valid, DecRecord;
    var e := EncMessage(fields, m).value;
    DefaultFresh(fields, dest);
    var start := Initial(Default(fields, dest));
    var st := MessageRoundTrip(fields, m, start.msg, e);
    DecLoopResumes(fields, start, e, st, [0] + t);
    assert e + [0] + t == e + ([0] + t);
    StopsAtZero(fields, st, t);
  }

  lemma StopsAtZero(fields: seq<Field>, st: State, t: bytes)
    requires |st.msg| == |fields|
    ensures DecLoop(fields, st, [0] + t) == Done(st, t, true)
  {
    var s: bytes := [0] + t;
    assert s[1..] == t;
    assert DecVarint32(s) == Ok(0, t);
  }
}
