/** The encoding of what was decoded is canonical: it depends on the user's view of the structure only, so decoding
    and encoding again changes nothing. */
module NormalForm {
  import opened Wire
  import opened Descriptor
  import opened Options
  import opened EncodeSpec
  import opened DecodeSpec
  import opened RoundTrip
  import opened Validity

  /** Re-encoding what was decoded always succeeds, and decoding that again gives the same structure. */
  lemma DecodeEncodeDecode(fields: seq<Field>, dest: Message, s: bytes, dest2: Message)
    requires WellFormed(fields) && Shaped(fields, dest) && Fine(fields, dest) && Shaped(fields, dest2)
    requires Decode(fields, dest, s).Ok?
    ensures var m := Decode(fields, dest, s).value;
            && EncMessage(fields, m).Some?
            && (|EncMessage(fields, m).value| < TWO32 ==>
                  var r := Decode(fields, dest2, EncMessage(fields, m).value);
                  r.Ok? && r.rest == [] && ViewMessage(fields, r.value) == ViewMessage(fields, m))
  {
    DecodedIsValid(fields, dest, s);
    EncodeDecode(fields, Decode(fields, dest, s).value, dest2);
  }

  // ---------------------------------------------------------------- the encoding depends on the view only

  lemma {:induction false} ItemsByView(f: Field, a: seq<Datum>, b: seq<Datum>)
    requires |a| == |b| && forall k :: 0 <= k < |a| ==> EncDatum(f, a[k]) == EncDatum(f, b[k])
    ensures EncItems(f, a) == EncItems(f, b) && EncTaggedItems(f, a) == EncTaggedItems(f, b)
    decreases |a|
  {
    hide EncDatum;
    if a != [] {
      assert EncDatum(f, a[0]) == EncDatum(f, b[0]);
      ItemsByView(f, a[1..], b[1..]);
    }
  }

  lemma DatumByView(f: Field, a: Datum, b: Datum)
    requires WellFormedField(f) && ShapedDatum(f, a) && ValidDatum(f, a) && ShapedDatum(f, b) && ValidDatum(f, b)
    requires ViewDatum(f, a) == ViewDatum(f, b)
    ensures EncDatum(f, a) == EncDatum(f, b)
    decreases f, 0
  {
    if f.ltype.LSubmessage? { MessageByView(f.sub, a.slots, b.slots); }
  }

  lemma ZeroByView(f: Field, a: Datum, b: Datum)
    requires WellFormedField(f) && Singular(f) && ShapedDatum(f, a) && ValidDatum(f, a) && ShapedDatum(f, b) &&
             ValidDatum(f, b)
    requires ViewDatum(f, a) == ViewDatum(f, b)
    ensures IsDefault(f, One(true, a)) == IsDefault(f, One(true, b))
    decreases f, 1
  {
    if f.ltype.LSubmessage? {
      DefaultMeansEmpty(f.sub, a.slots);
      DefaultMeansEmpty(f.sub, b.slots);
      MessageByView(f.sub, a.slots, b.slots);
    } else if f.ltype.LBytes? {
      assert |a.buf[..a.size]| == |b.buf[..b.size]|;
    }
  }

  lemma ArrayByView(f: Field, a: Slot, b: Slot)
    requires WellFormedField(f) && f.htype.Repeated?
    requires ShapedSlot(f, a) && ValidSlot(f, a) && ShapedSlot(f, b) && ValidSlot(f, b) &&
             ViewSlot(f, a) == ViewSlot(f, b)
    ensures EncSlot(f, a) == EncSlot(f, b)
    decreases f, 1
  {
    hide ShapedDatum, ValidDatum, ViewDatum, EncDatum, WellFormedField;
    var n := Present(f, a);
    var va, vb := ViewSlot(f, a).ds, ViewSlot(f, b).ds;
    assert |va| == n && |vb| == Present(f, b);
    forall k | 0 <= k < n ensures EncDatum(f, a.items[..n][k]) == EncDatum(f, b.items[..n][k]) {
      assert va[k] == ViewDatum(f, a.items[k]) && vb[k] == ViewDatum(f, b.items[k]);
      DatumByView(f, a.items[k], b.items[k]);
    }
    ItemsByView(f, a.items[..n], b.items[..n]);
  }

  lemma SlotByView(f: Field, a: Slot, b: Slot)
    requires WellFormedField(f) && ShapedSlot(f, a) && ValidSlot(f, a) && ShapedSlot(f, b) && ValidSlot(f, b)
    requires ViewSlot(f, a) == ViewSlot(f, b)
    ensures EncSlot(f, a) == EncSlot(f, b)
    decreases f, 2
  {
    hide ShapedDatum, ValidDatum, ViewDatum, EncDatum, WellFormedField;
    if f.htype.Repeated? {
      ArrayByView(f, a, b);
    } else if ViewSlot(f, a).Here? {
      DatumByView(f, a.data, b.data);
      if Singular(f) { ZeroByView(f, a.data, b.data); }
    }
  }

  lemma FromStep(fields: seq<Field>, m: Message, i: nat)
    requires |m| == |fields| && i < |fields|
    ensures var a, b := EncSlot(fields[i], m[Home(fields, i)]), EncFrom(fields, m, i + 1);
            EncFrom(fields, m, i) == if a.Some? && b.Some? then Some(a.value + b.value) else None
  {
    hide EncSlot, Home;
  }

  lemma FromEnd(fields: seq<Field>, m: Message)
    requires |m| == |fields|
    ensures EncFrom(fields, m, |fields|) == Some([])
  {
  }

  lemma {:induction false} FromByView(fields: seq<Field>, a: Message, b: Message, i: nat)
    requires |a| == |b| == |fields| && i <= |fields|
    requires forall j :: i <= j < |fields| ==>
             EncSlot(fields[j], a[Home(fields, j)]) == EncSlot(fields[j], b[Home(fields, j)])
    ensures EncFrom(fields, a, i) == EncFrom(fields, b, i)
    decreases |fields| - i
  {
    hide EncSlot, Home, EncFrom;
    if i < |fields| {
      FromByView(fields, a, b, i + 1);
      FromStep(fields, a, i);
      FromStep(fields, b, i);
    } else {
      FromEnd(fields, a);
      FromEnd(fields, b);
    }
  }

  /** Structures that look the same to their user are encoded to the same bytes. */
  lemma MessageByView(fields: seq<Field>, a: Message, b: Message)
    requires WellFormed(fields) && Shaped(fields, a) && Valid(fields, a) && Shaped(fields, b) && Valid(fields, b)
    requires ViewMessage(fields, a) == ViewMessage(fields, b)
    ensures EncMessage(fields, a) == EncMessage(fields, b)
    decreases fields
  {
    hide ShapedSlot, ValidSlot, ViewSlot, EncSlot, WellFormedField;
    forall j | 0 <= j < |fields| ensures EncSlot(fields[j], a[Home(fields, j)]) ==
        EncSlot(fields[j], b[Home(fields, j)]) {
      assert ViewMessage(fields, a)[j] == ViewSlot(fields[j], a[Home(fields, j)]);
      assert ViewMessage(fields, b)[j] == ViewSlot(fields[j], b[Home(fields, j)]);
      SlotByView(fields[j], a[Home(fields, j)], b[Home(fields, j)]);
    }
    FromByView(fields, a, b, 0);
  }

  /** Decoding and re-encoding is a normal form: on its own output it changes nothing. */
  lemma ReencodingIsStable(fields: seq<Field>, dest: Message, s: bytes, dest2: Message)
    requires WellFormed(fields) && Shaped(fields, dest) && Fine(fields, dest) && Shaped(fields, dest2) &&
             Fine(fields, dest2)
    requires Decode(fields, dest, s).Ok?
    ensures var e := EncMessage(fields, Decode(fields, dest, s).value);
            && e.Some?
            && (|e.value| < TWO32 ==>
                 Decode(fields, dest2, e.value).Ok? && EncMessage(fields, Decode(fields, dest2, e.value).value) == e)
  {
    DecodeEncodeDecode(fields, dest, s, dest2);
    var m := Decode(fields, dest, s).value;
    var e := EncMessage(fields, m).value;
    if |e| < TWO32 {
      DecodedIsValid(fields, dest, s);
      DecodedIsValid(fields, dest2, e);
      MessageByView(fields, m, Decode(fields, dest2, e).value);
    }
  }
}
