/** The decoder as nanopb runs it: one stream object per nesting level, one iterator per message, loops over
    records and packed elements. Each method is proved to compute what DecodeSpec says of the unread bytes. */
module Decoder {
  import opened Wire
  import opened Descriptor
  import opened Options
  import opened DecodeSpec
  import opened FieldIterator
  import opened InputStreams
  import opened RequiredFields

  // ---------------------------------------------------------------- single entries

  /** pb_dec_varint. */
  method DecVarintField(stream: InputStream, f: Field) returns (ok: bool, d: Datum)
    requires stream.Valid() && f.ltype.LVarint?
    modifies stream
    ensures stream.Valid() && stream.End() <= old(stream.End())
    ensures forall base: Datum :: DecLeaf(f, base, old(stream.Rest())) == if ok then Ok(d, stream.Rest()) else Err
    ensures ok ==> stream.End() == old(stream.End())
  {
    d := Num(0);
    var value: nat;
    ok, value := stream.DecodeVarint();
    if !ok { return; }
    var svalue := if f.dataSize == 8 then ToSigned(value, TWO63) else ToSigned(value, TWO31);
    if !IntSize(f.dataSize) { ok := false; return; }
    var clamped := ToSigned(svalue, Half(f.dataSize));
    d := Num(clamped);
    ok := clamped == svalue;
  }

  /** pb_dec_uvarint. */
  method DecUVarintField(stream: InputStream, f: Field) returns (ok: bool, d: Datum)
    requires stream.Valid() && f.ltype.LUVarint?
    modifies stream
    ensures stream.Valid() && stream.End() <= old(stream.End())
    ensures forall base: Datum :: DecLeaf(f, base, old(stream.Rest())) == if ok then Ok(d, stream.Rest()) else Err
    ensures ok ==> stream.End() == old(stream.End())
  {
    d := Num(0);
    var value: nat;
    ok, value := stream.DecodeVarint();
    if !ok { return; }
    if !IntSize(f.dataSize) { ok := false; return; }
    var clamped := value % (2 * Half(f.dataSize));
    d := Num(clamped);
    ok := clamped == value;
  }

  /** pb_dec_svarint. */
  method DecSVarintField(stream: InputStream, f: Field) returns (ok: bool, d: Datum)
    requires stream.Valid() && f.ltype.LSVarint?
    modifies stream
    ensures stream.Valid() && stream.End() <= old(stream.End())
    ensures forall base: Datum :: DecLeaf(f, base, old(stream.Rest())) == if ok then Ok(d, stream.Rest()) else Err
    ensures ok ==> stream.End() == old(stream.End())
  {
    d := Num(0);
    var value: int;
    ok, value := stream.DecodeSVarint();
    if !ok { return; }
    if !IntSize(f.dataSize) { ok := false; return; }
    var clamped := ToSigned(value, Half(f.dataSize));
    d := Num(clamped);
    ok := clamped == value;
  }

  /** pb_dec_bytes, pb_dec_string and pb_dec_fixed_length_bytes on static fields: a length prefix, a size
      check against the field, then the bytes. */
  method DecBuffer(stream: InputStream, f: Field, dest: Datum) returns (ok: bool, d: Datum)
    requires stream.Valid() && (f.ltype.LBytes? || f.ltype.LString? || f.ltype.LFixedBytes?)
    modifies stream
    ensures stream.Valid() && stream.End() <= old(stream.End())
    ensures DecLeaf(f, dest, old(stream.Rest())) == if ok then Ok(d, stream.Rest()) else Err
    ensures ok ==> stream.End() == old(stream.End())
  {
    d := dest;
    var size: nat, eof: bool, buf: bytes;
    ok, size, eof := stream.DecodeVarint32Eof();
    if !ok { return; }
    if f.ltype.LFixedBytes? {
      if size == 0 {
        d := Raw(Zeros(f.dataSize));
        return;
      }
      if size != f.dataSize { ok := false; return; }
      ok, buf := stream.Read(size);
      d := Raw(buf);
    } else {
      var allocSize := if f.ltype.LBytes? then size + BYTES_OFFSET else size + 1;
      if allocSize > f.dataSize { ok := false; return; }
      ok, buf := stream.Read(size);
      d := if f.ltype.LBytes? then Blob(size, Overwrite(Buffer(dest), buf))
          else Text(Overwrite(Buffer(dest), buf + [0]));
    }
  }

  /** The PB_DECODERS table. */
  method DecodeLeaf(stream: InputStream, f: Field, dest: Datum) returns (ok: bool, d: Datum)
    requires stream.Valid() && !f.ltype.LSubmessage?
    modifies stream
    ensures stream.Valid() && stream.End() <= old(stream.End())
    ensures DecLeaf(f, dest, old(stream.Rest())) == if ok then Ok(d, stream.Rest()) else Err
    ensures ok ==> stream.End() == old(stream.End())
  {
    d := dest;
    var value: nat, eof: bool;
    match f.ltype
    case LBool =>
      ok, value, eof := stream.DecodeVarint32Eof();
      d := Num(if value != 0 then 1 else 0);
    case LVarint => ok, d := DecVarintField(stream, f);
    case LUVarint => ok, d := DecUVarintField(stream, f);
    case LSVarint => ok, d := DecSVarintField(stream, f);
    case LFixed32 =>
      ok, value := stream.DecodeFixed(4);
      d := Num(value);
    case LFixed64 =>
      ok, value := stream.DecodeFixed(8);
      d := Num(value);
    case LBytes => ok, d := DecBuffer(stream, f, dest);
    case LString => ok, d := DecBuffer(stream, f, dest);
    case LFixedBytes => ok, d := DecBuffer(stream, f, dest);
  }

  /** The packed-array branch of decode_static_field. */
  method DecodePackedField(stream: InputStream, f: Field, items: seq<Datum>, count: nat)
                           returns (ok: bool, items': seq<Datum>, count': nat)
    requires stream.Valid() && Packable(f)
    modifies stream
    ensures stream.Valid() && stream.End() <= old(stream.End())
    ensures ok == (TakeDelimited(old(stream.Rest())).Ok? &&
            DecPacked(f, items, count, TakeDelimited(old(stream.Rest())).value).Some?)
    ensures ok ==> DecPacked(f, items, count, TakeDelimited(old(stream.Rest())).value) == Some((items', count'))
    ensures ok ==> stream.Rest() == TakeDelimited(old(stream.Rest())).rest && stream.End() == old(stream.End())
  {
    items', count' := items, count;
    var sub: InputStream;
    ok, sub := stream.MakeStringSubstream();
    if !ok { return; }
    ghost var body := sub.Rest();
    var status := true;
    while status && sub.bytesLeft > 0 && count' < f.arraySize && count' < |items'|
      invariant sub.Valid() && fresh(sub) && sub.End() <= old(stream.End()) - stream.bytesLeft
      invariant stream.Valid() && stream.bytesLeft == |TakeDelimited(old(stream.Rest())).rest| &&
                stream.End() <= old(stream.End())
      invariant stream.data[old(stream.End()) - stream.bytesLeft..old(stream.End())] ==
                TakeDelimited(old(stream.Rest())).rest
      invariant |items'| == |items|
      invariant status ==> DecPacked(f, items', count', sub.Rest()) == DecPacked(f, items, count, body)
      invariant status ==> sub.End() == old(stream.End()) - stream.bytesLeft
      invariant !status ==> DecPacked(f, items, count, body) == None
      decreases status, sub.bytesLeft
    {
      var d: Datum;
      status, d := DecodeLeaf(sub, f, items'[count']);
      if status {
        items' := items'[count' := d];
        count' := count' + 1;
      }
    }
    if sub.bytesLeft != 0 {
      ok := false;
      return;
    }
    ok := stream.CloseStringSubstream(sub);
    if !ok { return; }
    ok := status;
  }

  // ---------------------------------------------------------------- default structures

  /** pb_message_set_to_defaults: walk the fields with an iterator. */
  method SetToDefaults(fields: seq<Field>, dest: Message) returns (m: Message)
    requires WellFormed(fields) && |dest| == |fields|
    ensures m == Default(fields, dest)
    decreases fields, 1
  {
    hide Default, DefaultSlot, WellFormedField, DataOffset, SizeOffset, ReqIndex, Home;
    m := dest;
    TagsNonzero(fields);
    var iter := new FieldIter(fields, 0);
    if iter.TagHere() == 0 {
      DefaultOfNothing(fields, dest);
      return;
    }
    ghost var done := 0;
    var more := true;
    while more
      invariant iter.Valid() && iter.fields == fields && |m| == |fields| && fresh(iter)
      invariant if more then done == iter.pos < |fields| else done == |fields|
      invariant forall k :: 0 <= k < done ==> m[k] == Default(fields, dest)[k]
      invariant forall k :: done <= k < |fields| ==> m[k] == dest[k]
      decreases |fields| - done
    {
      var f, h := fields[iter.pos], Home(fields, iter.pos);
      DefaultAt(fields, dest, iter.pos);
      if h == iter.pos {
        var slot := SetFieldToDefault(f, m[h]);
        m := m[h := slot];
      } else {
        m := m[h := Union(0, m[h].data)];   // the first member of the oneof has already done so
      }
      more := iter.Next();
      done := done + 1;
    }
  }

  lemma DefaultOfNothing(fields: seq<Field>, dest: Message)
    requires fields == [] && dest == []
    ensures Default(fields, dest) == dest
  {
  }

  lemma DefaultAt(fields: seq<Field>, dest: Message, i: nat)
    requires |dest| == |fields| && i < |fields|
    ensures var r, h := Default(fields, dest), Home(fields, i);
            if h == i then r[i] == DefaultSlot(fields[i], dest[i])
            else h < i && r[h].Union? && r[h].which == 0 && r[i] == dest[i]
  {
  }

  /** pb_field_set_to_default on the slot of the field. */
  method SetFieldToDefault(f: Field, dest: Slot) returns (slot: Slot)
    requires WellFormedField(f)
    ensures slot == DefaultSlot(f, dest)
    decreases f, 2
  {
    var initData := true;
    slot := match dest
      case One(has, d) => One(false, d)
      case Many(_, items) => Many(0, items)
      case Union(_, d) => Union(0, d);
    if f.htype.Repeated? || f.htype.Oneof? {
      initData := false;
      // the size location of an array without a count is its contents
      if FixedCount(f) && dest.Many? { slot := Many(0, WipedItems(f, dest.items, COUNT_BYTES)); }
      if f.htype.Repeated? != dest.Many? || f.htype.Oneof? != dest.Union? { slot := ZeroSlot(f); }
    }
    if initData {
      var d := if dest.One? then dest.data else ZeroDatum(f);
      if f.ltype.LSubmessage? {
        var sub := SetToDefaults(f.sub, SlotsOf(f, d));
        slot := One(false, Sub(sub));
      } else if f.init.Some? {
        slot := One(false, f.init.value);
      } else {
        slot := One(false, ZeroDatum(f));
      }
    }
  }

  // ---------------------------------------------------------------- fields

  /** pb_dec_submessage: decode inside a substream and close it, whatever the nested decoder left unread. */
  method DecodeSubmessage(stream: InputStream, f: Field, dest: Datum) returns (ok: bool, d: Datum)
    requires stream.Valid() && WellFormedField(f) && f.ltype.LSubmessage?
    modifies stream
    ensures stream.Valid() && stream.End() <= old(stream.End())
    ensures DecSub(f, dest, old(stream.Rest())) == if ok then Ok(d, stream.Rest()) else Err
    ensures ok ==> stream.End() == old(stream.End())
    decreases stream.bytesLeft, 0
  {
    hide DecMessage, DecVarint32, DecVarint32From, WellFormed, TakeDelimited, Default, ZeroMessage;
    d := dest;
    var sub: InputStream;
    ok, sub := stream.MakeStringSubstream();
    if !ok { return; }
    ghost var body := sub.Rest();
    var status: bool, m: Message;
    if f.htype.Repeated? {
      status, m := Decode(sub, f.sub, SlotsOf(f, dest));
    } else {
      status, m := DecodeNoinit(sub, f.sub, SlotsOf(f, dest));
    }
    ok := stream.CloseStringSubstream(sub);
    if !ok { return; }
    ok := status;
    d := Sub(m);
  }

  method DecodeEntry(stream: InputStream, f: Field, dest: Datum) returns (ok: bool, d: Datum)
    requires stream.Valid() && WellFormedField(f)
    modifies stream
    ensures stream.Valid() && stream.End() <= old(stream.End())
    ensures DecDatum(f, dest, old(stream.Rest())) == if ok then Ok(d, stream.Rest()) else Err
    ensures ok ==> stream.End() == old(stream.End())
    decreases stream.bytesLeft, 1
  {
    if f.ltype.LSubmessage? {
      ok, d := DecodeSubmessage(stream, f, dest);
    } else {
      ok, d := DecodeLeaf(stream, f, dest);
    }
  }

  /** decode_static_field. Flags and counts are reached through the iterator's size location. */
  method DecodeStaticField(stream: InputStream, wireType: nat, iter: FieldIter, slot: Slot, counter: nat)
    returns (ok: bool, slot': Slot, counter': nat)
    requires stream.Valid() && iter.Valid() && iter.pos < |iter.fields| && WellFormedField(iter.fields[iter.pos])
    requires iter.pSize.LocalCounter? == FixedCount(iter.fields[iter.pos])
    requires slot.Union? && iter.fields[iter.pos].htype.Oneof? ==>
             slot.which == 0 || slot.which == iter.fields[iter.pos].tag || Find(iter.fields, slot.which).Some?
    modifies stream
    ensures stream.Valid() && stream.End() <= old(stream.End())
    ensures DecSlot(iter.fields, iter.fields[iter.pos], wireType, slot, counter, old(stream.Rest()))
            == if ok then Ok((slot', counter'), stream.Rest()) else Err
    ensures ok ==> stream.End() == old(stream.End())
    decreases stream.bytesLeft, 2
  {
    hide DecDatum, DecPacked, DecLeaf, DecSub, TakeDelimited, ReqIndex, WellFormedField, Default, ZeroDatum;
    hide ZeroMessage, DecVarint32;
    var f := iter.fields[iter.pos];
    ok, slot', counter' := false, slot, counter;
    var d: Datum, items: seq<Datum>, size: nat;
    match slot
    case One(has, data) =>
      if f.htype.Repeated? || f.htype.Oneof? { return; }
      var has' := has;
      if f.htype.Optional? && iter.pSize != InStruct(iter.pData) { has' := true; }
      FlagPlace(iter);
      ok, d := DecodeEntry(stream, f, data);
      slot' := One(has', d);
    case Many(count, elements) =>
      if !f.htype.Repeated? { return; }
      size := if iter.pSize.LocalCounter? then counter else count;
      if wireType == WT_STRING && Packable(f) {
        ok, items, size := DecodePackedField(stream, f, elements, size);
      } else {
        if size >= f.arraySize || size >= |elements| { return; }
        ok, d := DecodeEntry(stream, f, elements[size]);
        items, size := elements[size := d], size + 1;
      }
      if iter.pSize.LocalCounter? { slot', counter' := Many(count, items), size; } else { slot' := Many(size, items); }
    case Union(which, data) =>
      if !f.htype.Oneof? { return; }
      var content := data;
      if which != f.tag { content := NewMember(f); }
      ok, d := DecodeEntry(stream, f, content);
      slot' := Union(f.tag, d);
  }

  /** The has_ flag exists exactly when the size location differs from the data. */
  lemma FlagPlace(iter: FieldIter)
    requires iter.Valid() && iter.pos < |iter.fields| && iter.pSize.InStruct? && !iter.fields[iter.pos].htype.Oneof?
    ensures iter.pSize != InStruct(iter.pData) <==> iter.fields[iter.pos].sizeOffset != 0
  {
  }

  /** A union member that was not current: its memory is cleared, a submessage is set to defaults. */
  method NewMember(f: Field) returns (d: Datum)
    requires WellFormedField(f)
    ensures forall which: nat, data: Datum :: which != f.tag ==> d == UnionStart(f, which, data)
  {
    if f.ltype.LSubmessage? {
      var m := SetToDefaults(f.sub, ZeroMessage(f.sub));
      d := Sub(m);
    } else {
      d := ZeroDatum(f);
    }
  }

  /** pb_release_union_field where no member owns memory: the old tag must name a field, and the iterator
      comes back to the field being decoded. */
  method ReleaseUnionField(iter: FieldIter, oldTag: nat) returns (ok: bool)
    requires iter.Valid() && WellFormed(iter.fields) && iter.pos < |iter.fields| && iter.pSize.InStruct?
    modifies iter
    ensures iter.Valid()
    ensures ok == (oldTag == 0 || oldTag == iter.fields[old(iter.pos)].tag || Find(iter.fields, oldTag).Some?)
    ensures ok ==> iter.pos == old(iter.pos) && iter.pSize.InStruct?
  {
    hide WellFormedField, DataOffset, SizeOffset, ReqIndex;
    var newTag := iter.fields[iter.pos].tag;
    if oldTag == 0 || oldTag == newTag { return true; }
    TagsNonzero(iter.fields);
    ghost var steps: nat;
    ok, steps := iter.Find(oldTag);
    if !ok { return; }
    ok, steps := iter.Find(newTag);
  }

  /** decode_field for static fields. */
  method DecodeField(stream: InputStream, wireType: nat, iter: FieldIter, slot: Slot, counter: nat)
    returns (ok: bool, slot': Slot, counter': nat)
    requires stream.Valid() && iter.Valid() && iter.pos < |iter.fields| && WellFormed(iter.fields)
    requires iter.pSize.LocalCounter? == FixedCount(iter.fields[iter.pos])
    modifies stream, iter
    ensures stream.Valid() && stream.End() <= old(stream.End())
    ensures DecSlot(iter.fields, iter.fields[old(iter.pos)], wireType, slot, counter, old(stream.Rest()))
            == if ok then Ok((slot', counter'), stream.Rest()) else Err
    ensures ok ==> stream.End() == old(stream.End()) && iter.Valid() && iter.pos == old(iter.pos)
    ensures ok && old(iter.pSize).LocalCounter? ==> iter.pSize.LocalCounter?
    ensures ok && old(iter.pSize).InStruct? ==> iter.pSize.InStruct?
    decreases stream.bytesLeft, 3
  {
    hide DecDatum, DecPacked, DecLeaf, WellFormedField, DataOffset, SizeOffset, ReqIndex, UnionStart;
    TagsNonzero(iter.fields);
    ok, slot', counter' := false, slot, counter;
    if iter.fields[iter.pos].htype.Oneof? && slot.Union? {
      ok := ReleaseUnionField(iter, slot.which);
      if !ok { return; }
    }
    ok, slot', counter' := DecodeStaticField(stream, wireType, iter, slot, counter);
  }

  /** The loop variables of pb_decode_noinit against the state of the specification. */
  ghost predicate Tracks(fields: seq<Field>, m: Message, fieldsSeen: seq<nat>, fixedField: Option<nat>, fixedSize: nat,
                         st: State) {
    && |m| == |fields|
    && st.msg == m && st.fixed == fixedField && st.got == fixedSize
    && Represents(fieldsSeen, st.seen) && (forall k :: k in st.seen ==> k < TrackedRequired(fields))
    && (fixedField.Some? ==> fixedField.value < |fields|)
  }

  lemma {:induction false} RequiredBound(fields: seq<Field>, i: nat, n: nat)
    requires i < n <= |fields| && fields[i].htype.Required?
    ensures ReqIndex(fields, i) < ReqIndex(fields, n)
    decreases n
  {
    if i + 1 < n { RequiredBound(fields, i, n - 1); }
  }

  /** The record of a field the iterator has found. */
  method DecodeFound(stream: InputStream, wireType: nat, iter: FieldIter, m: Message, fieldsSeen: seq<nat>,
                     fixedField: Option<nat>, fixedSize: nat, ghost st: State)
    returns (ok: bool, m': Message, fieldsSeen': seq<nat>, fixedField': Option<nat>, fixedSize': nat, ghost st': State)
    requires stream.Valid() && iter.Valid() && iter.pos < |iter.fields| && WellFormed(iter.fields)
    requires Tracks(iter.fields, m, fieldsSeen, fixedField, fixedSize, st)
    requires iter.pSize.LocalCounter? ==> fixedField == Some(iter.pos)
    modifies stream, iter
    ensures stream.Valid() && stream.End() <= old(stream.End())
    ensures DecField(iter.fields, st, old(iter.pos), wireType, old(stream.Rest()))
            == if ok then Next(st', stream.Rest()) else Fail
    ensures ok ==> Tracks(iter.fields, m', fieldsSeen', fixedField', fixedSize', st')
    ensures ok ==>
            stream.End() == old(stream.End()) && iter.Valid() &&
                (iter.pSize.LocalCounter? ==> fixedField' == Some(iter.pos))
    decreases stream.bytesLeft, 4
  {
    hide DecSlot, WellFormed, Represents, DataOffset, SizeOffset, WellFormedField;
    ok, m', fieldsSeen', fixedField', fixedSize', st' := false, m, fieldsSeen, fixedField, fixedSize, st;
    var i := iter.pos;
    var f := iter.fields[i];
    if f.htype.Repeated? { CounterPlace(iter); }
    if f.htype.Repeated? && iter.pSize == InStruct(iter.pData) {
      if fixedField' != Some(i) {
        if fixedField'.Some? && fixedSize' != iter.fields[fixedField'.value].arraySize { return; }
        fixedField' := Some(i);
        fixedSize' := 0;
      }
      iter.pSize := LocalCounter;
    }
    ghost var st1 := StartFixed(iter.fields, st, i).value;
    assert st1 == st.(fixed := fixedField', got := fixedSize');
    ghost var seen := MarkSeen(iter.fields, st.seen, i);
    if f.htype.Required? && iter.requiredFieldIndex < PB_MAX_REQUIRED_FIELDS {
      fieldsSeen' := Mark(fieldsSeen', iter.requiredFieldIndex, st.seen);
      RequiredBound(iter.fields, i, |iter.fields|);
    }
    var slot: Slot;
    ok, slot, fixedSize' := DecodeField(stream, wireType, iter, m[Home(iter.fields, i)], fixedSize');
    m' := m[Home(iter.fields, i) := slot];
    st' := State(m', seen, fixedField', fixedSize');
  }

  /** The data pointer doubles as size pointer exactly for fixed-count arrays, until the counter replaces it. */
  lemma CounterPlace(iter: FieldIter)
    requires iter.Valid() && iter.pos < |iter.fields| && iter.fields[iter.pos].htype.Repeated?
    ensures FixedCount(iter.fields[iter.pos]) <==> iter.pSize.LocalCounter? || iter.pSize == InStruct(iter.pData)
  {
  }

  /** One turn of the record loop: key, field search, then the field or a skipped payload. */
  method DecodeRecord(stream: InputStream, iter: FieldIter, m: Message, fieldsSeen: seq<nat>,
                      fixedField: Option<nat>, fixedSize: nat, ghost st: State)
    returns (ok: bool, stop: bool, m': Message, fieldsSeen': seq<nat>, fixedField': Option<nat>, fixedSize': nat,
        ghost st': State)
    requires stream.Valid() && stream.bytesLeft > 0 && iter.Valid() && WellFormed(iter.fields)
    requires Tracks(iter.fields, m, fieldsSeen, fixedField, fixedSize, st)
    requires iter.pSize.LocalCounter? ==> fixedField == Some(iter.pos)
    modifies stream, iter
    ensures stream.Valid() && stream.End() <= old(stream.End())
    ensures DecRecord(iter.fields, st, old(stream.Rest()))
            == if !ok then Fail else if stop then Stop(stream.Rest()) else Next(st', stream.Rest())
    ensures ok ==>
            stream.End() == old(stream.End()) && Tracks(iter.fields, m', fieldsSeen', fixedField', fixedSize', st')
    ensures ok && stop ==> st' == st
    ensures ok ==> iter.Valid() && (iter.pSize.LocalCounter? ==> fixedField' == Some(iter.pos))
    decreases stream.bytesLeft, 5
  {
    hide DecField, WellFormed, Tracks, DataOffset, SizeOffset, ReqIndex, SkipPayload, DecVarint32;
    TagsNonzero(iter.fields);
    DistinctOf(iter.fields);
    m', fieldsSeen', fixedField', fixedSize', st', stop := m, fieldsSeen, fixedField, fixedSize, st, false;
    TracksLength(iter.fields, m, fieldsSeen, fixedField, fixedSize, st);
    var wireType: nat, tag: nat, eof: bool, found: bool;
    ok, wireType, tag, eof := stream.DecodeTag();
    if !ok {
      ok, stop := eof, eof;
      return;
    }
    ghost var steps: nat;
    found, steps := iter.Find(tag);
    if !found {
      ok := stream.SkipField(wireType);   // no extension fields in this model
    } else if iter.fields == [] {
      var flag: nat;
      ok, flag, eof := stream.DecodeVarint32Eof();   // the terminator entry reads as a required bool
    } else {
      assert Find(iter.fields, tag) == Some(iter.pos);
      ok, m', fieldsSeen', fixedField', fixedSize',
          st' := DecodeFound(stream, wireType, iter, m, fieldsSeen, fixedField, fixedSize, st);
    }
  }

  lemma TracksLength(fields: seq<Field>, m: Message, fieldsSeen: seq<nat>, fixedField: Option<nat>, fixedSize: nat,
                     st: State)
    requires Tracks(fields, m, fieldsSeen, fixedField, fixedSize, st)
    ensures |st.msg| == |fields|
  {
  }

  /** pb_decode_noinit. */
  method DecodeNoinit(stream: InputStream, fields: seq<Field>, dest: Message) returns (ok: bool, m: Message)
    requires stream.Valid() && WellFormed(fields) && |dest| == |fields|
    modifies stream
    ensures stream.Valid() && stream.End() <= old(stream.End())
    ensures DecMessage(fields, dest, old(stream.Rest())) == if ok then Ok(m, stream.Rest()) else Err
    ensures ok ==> stream.End() == old(stream.End())
    decreases stream.bytesLeft, 6
  {
    hide DecRecord, WellFormed, Represents, DataOffset, SizeOffset, ReqIndex;
    m := dest;
    ok := true;
    var fieldsSeen: seq<nat>, fixedField: Option<nat>, fixedSize: nat := [0, 0], None, 0;
    var iter := new FieldIter(fields, 0);
    ghost var st := Initial(dest);
    var stop := false;
    NothingSeen();
    while !stop && stream.bytesLeft > 0
      invariant stream.Valid() && stream.End() == old(stream.End()) && stream.bytesLeft <= old(stream.bytesLeft)
      invariant iter.Valid() && iter.fields == fields && fresh(iter) && ok
      invariant Tracks(fields, m, fieldsSeen, fixedField, fixedSize, st)
      invariant iter.pSize.LocalCounter? ==> fixedField == Some(iter.pos)
      invariant DecLoop(fields, Initial(dest), old(stream.Rest()))
                == if stop then Done(st, stream.Rest(), true) else DecLoop(fields, st, stream.Rest())
      decreases !stop, stream.bytesLeft
    {
      ok, stop, m, fieldsSeen, fixedField, fixedSize,
          st := DecodeRecord(stream, iter, m, fieldsSeen, fixedField, fixedSize, st);
      if !ok { return; }
    }
    assert DecLoop(fields, Initial(dest), old(stream.Rest())) == Done(st, stream.Rest(), stop);
    if fixedField.Some? && fixedSize != fields[fixedField.value].arraySize {
      ok := false;
      return;
    }
    TagsNonzero(fields);
    var count := CountRequiredFields(iter);
    ok := CheckRequired(fieldsSeen, if count > PB_MAX_REQUIRED_FIELDS then PB_MAX_REQUIRED_FIELDS else count, st.seen);
  }

  lemma DistinctOf(fields: seq<Field>)
    requires WellFormed(fields)
    ensures DistinctTags(fields)
  {
  }

  /** Seek to the end of the descriptor array to learn how many required fields it has. */
  method CountRequiredFields(iter: FieldIter) returns (count: nat)
    requires iter.Valid() && NonzeroTags(iter.fields)
    modifies iter
    ensures count == ReqIndex(iter.fields, |iter.fields|)
  {
    var more := true;
    var lastRequired := false;
    count := 0;
    while more
      invariant iter.Valid() && (more || iter.pos == 0)
      invariant !more && iter.fields != [] ==>
                  count + (if lastRequired then 1 else 0) == ReqIndex(iter.fields, |iter.fields|)
      invariant !more && iter.fields == [] ==> count == 0
      decreases more, |iter.fields| - iter.pos
    {
      count := iter.requiredFieldIndex;
      lastRequired := iter.TagHere() == 0 ||
          iter.fields[iter.pos].htype.Required?;   // the terminator's type is 0, required
      more := iter.Next();
    }
    if lastRequired && iter.TagHere() != 0 { count := count + 1; }
  }

  /** pb_decode. */
  method Decode(stream: InputStream, fields: seq<Field>, dest: Message) returns (ok: bool, m: Message)
    requires stream.Valid() && WellFormed(fields) && |dest| == |fields|
    modifies stream
    ensures stream.Valid() && stream.End() <= old(stream.End())
    ensures DecodeSpec.Decode(fields, dest, old(stream.Rest())) == if ok then Ok(m, stream.Rest()) else Err
    ensures ok ==> stream.End() == old(stream.End())
    decreases stream.bytesLeft, 7
  {
    m := SetToDefaults(fields, dest);
    ok, m := DecodeNoinit(stream, fields, m);
  }
}
