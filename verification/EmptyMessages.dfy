/** Which structures encode to no bytes at all: exactly those that look like a zeroed structure, in the types that have
    nothing the encoder always writes. */
module EmptyMessages {
  import opened Descriptor
  import opened Options
  import opened EncodeSpec
  import opened Validity

  /** Required fields, arrays without a count and byte arrays of fixed length without a has_ flag are always
      written, and so is a submessage without a has_ flag that contains one of them. */
  ghost predicate MayBeOmitted(f: Field)
    decreases f, 0
  {
    && !f.htype.Required?
    && !FixedCount(f)
    && (Singular(f) ==> !f.ltype.LFixedBytes?)
    && (Singular(f) && f.ltype.LSubmessage? ==> Erasable(f.sub))
  }

  ghost predicate Erasable(fields: seq<Field>)
    decreases fields
  {
    forall i :: 0 <= i < |fields| ==> MayBeOmitted(fields[i])
  }

  lemma SameViews(fields: seq<Field>, a: Message, b: Message)
    requires |a| == |b| == |fields|
    ensures ViewMessage(fields, a) == ViewMessage(fields, b) <==>
            forall i :: 0 <= i < |fields| ==>
              ViewSlot(fields[i], a[Home(fields, i)]) == ViewSlot(fields[i], b[Home(fields, i)])
  {
    hide ViewSlot, Home;
    var u, v := ViewMessage(fields, a), ViewMessage(fields, b);
    forall i | 0 <= i < |fields|
      ensures u[i] == ViewSlot(fields[i], a[Home(fields, i)]) && v[i] == ViewSlot(fields[i], b[Home(fields, i)])
    {
    }
    if u == v {
      forall i | 0 <= i < |fields|
        ensures ViewSlot(fields[i], a[Home(fields, i)]) == ViewSlot(fields[i], b[Home(fields, i)])
      {
        assert u[i] == v[i];
      }
    }
  }

  /** The contents of a field without a has_ flag are left out exactly if they look like zeroed contents. */
  lemma OmittedDatum(f: Field, has: bool, d: Datum)
    requires WellFormedField(f) && Singular(f) && ShapedDatum(f, d) && ValidDatum(f, d)
    ensures EncSlot(f, One(has, d)) == Some([]) <==>
            MayBeOmitted(f) && ViewDatum(f, d) == ViewDatum(f, ZeroDatum(f))
    decreases f, 0
  {
    match d
    case Sub(slots) =>
      ZeroTest(f, has, d);
      DefaultMeansEmpty(f.sub, slots);
      EmptyIsZero(f.sub, slots);
    case _ => ZeroTest(f, has, d); ZeroLeafView(f, d);
  }

  lemma ZeroTest(f: Field, has: bool, d: Datum)
    requires Singular(f)
    ensures EncSlot(f, One(has, d)) == Some([]) <==> IsDefault(f, One(has, d))
  {
    hide IsDefault;
  }

  lemma ZeroLeafView(f: Field, d: Datum)
    requires WellFormedField(f) && !f.ltype.LSubmessage? && ShapedDatum(f, d) && ValidDatum(f, d)
    ensures ViewDatum(f, ZeroDatum(f)) == if f.ltype.LBytes? || f.ltype.LString? then VBytes([])
                                          else if f.ltype.LFixedBytes? then VBytes(Zeros(f.dataSize)) else VNum(0)
    ensures ViewDatum(f, d) == match d
            case Num(n) => if f.ltype.LBool? && n != 0 then VNum(1) else VNum(n)
            case Blob(size, buf) => VBytes(buf[..size])
            case Text(buf) => VBytes(CStr(buf))
            case Raw(buf) => VBytes(buf)
            case Sub(_) => VMessage([])
  {
    hide WellFormed;
  }

  /** A field is left out exactly if it may be and looks as in a zeroed structure: no value where there is a has_
      flag or a oneof, no entries in an array, a zero value otherwise. */
  lemma OmittedField(f: Field, s: Slot)
    requires WellFormedField(f) && ShapedSlot(f, s) && ValidSlot(f, s)
    ensures EncSlot(f, s) == Some([]) <==> MayBeOmitted(f) && ViewSlot(f, s) == ViewSlot(f, ZeroSlot(f))
    decreases f, 1
  {
    hide EncTagged, WellFormed, Valid, ViewDatum, ZeroDatum;
    match s
    case One(has, d) => if Singular(f) { OmittedDatum(f, has, d); }
    case Many(_, items) =>
      if Present(f, s) > 0 {
        ArrayNotEmpty(f, items, Present(f, s));
        assert |ViewSlot(f, s).ds| == Present(f, s);
      }
    case Union(which, d) =>
  }

  /** A valid structure of any type encodes to no bytes exactly if its type has nothing that is always written and
      it looks like a zeroed structure. */
  lemma EmptyIsZero(fields: seq<Field>, m: Message)
    requires WellFormed(fields) && Shaped(fields, m) && Valid(fields, m)
    ensures EncMessage(fields, m) == Some([]) <==>
            Erasable(fields) && ViewMessage(fields, m) == ViewMessage(fields, ZeroMessage(fields))
    decreases fields
  {
    hide EncSlot, ViewSlot, ZeroSlot, Home;
    EmptyFrom(fields, m, 0);
    var z := ZeroMessage(fields);
    SameViews(fields, m, z);
    forall i | 0 <= i < |fields|
      ensures EncSlot(fields[i], m[Home(fields, i)]) == Some([]) <==>
              MayBeOmitted(fields[i]) &&
              ViewSlot(fields[i], m[Home(fields, i)]) == ViewSlot(fields[i], z[Home(fields, i)])
    {
      OmittedField(fields[i], m[Home(fields, i)]);
      ZeroHome(fields, i);
    }
  }

  lemma ZeroHome(fields: seq<Field>, i: nat)
    requires i < |fields| && WellFormedField(fields[i])
    ensures ViewSlot(fields[i], ZeroMessage(fields)[Home(fields, i)]) == ViewSlot(fields[i], ZeroSlot(fields[i]))
  {
  }

  /** A zeroed structure encodes to no bytes in exactly those types. */
  lemma ZeroIsEmpty(fields: seq<Field>)
    requires WellFormed(fields)
    ensures EncMessage(fields, ZeroMessage(fields)) == Some([]) <==> Erasable(fields)
  {
    hide *;
    var z := ZeroMessage(fields);
    ZeroGood(fields);
    GoodShaped(fields, z, true);
    GoodIsValid(fields, z);
    EmptyIsZero(fields, z);
  }
}
