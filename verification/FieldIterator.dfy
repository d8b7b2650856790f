/** pb_field_iter_t: walks a descriptor array with pointers that are only ever advanced by deltas. */
module FieldIterator {
  import opened Descriptor

  /** Where a size, flag or oneof tag is kept: in the structure, or in the decoder's local counter that
      stands in for the missing count of a fixed-count array. */
  datatype Place = InStruct(at: int) | LocalCounter

  // ---------------------------------------------------------------- real structure layouts

  /** Absolute offsets of the members of a C structure: of the data, of the first byte behind it, and of the has_,
      _count or which_ companion (of the data itself when there is none). */
  datatype Layout = Layout(data: seq<int>, end: seq<int>, size: seq<int>)

  /** A pointer takes eight bytes, an array the size of all of its entries. */
  predicate Occupies(f: Field, bytes: int) {
    bytes == if f.atype.Pointer? then 8 else if f.htype.Repeated? then f.arraySize * f.dataSize else f.dataSize
  }

  /** The descriptor holds what the PB_DATAOFFSET and pb_delta macros compute for that layout: the distance of a
      member from the end of the one before it. */
  ghost predicate Describes(fields: seq<Field>, l: Layout) {
    && |l.data| == |l.end| == |l.size| == |fields|
    && (forall i :: 0 <= i < |fields| ==>
          fields[i].sizeOffset == l.size[i] - l.data[i] && Occupies(fields[i], l.end[i] - l.data[i]))
    && (|fields| > 0 ==> fields[0].dataOffset == l.data[0])
    && (forall i :: 0 < i < |fields| ==>
          if InsideUnion(fields, i) then l.data[i] == l.data[i - 1] && l.size[i] == l.size[i - 1]
          else fields[i].dataOffset == l.data[i] - l.end[i - 1])
  }

  lemma OccupiesMember(f: Field, bytes: int)
    requires Occupies(f, bytes)
    ensures MemberSize(f) == bytes
  {
  }

  /** The running sums are the true member offsets, unions, arrays and pointer members included. */
  lemma {:induction false} OffsetsAreLayout(fields: seq<Field>, l: Layout, i: nat)
    requires Describes(fields, l) && i < |fields|
    ensures DataOffset(fields, i) == l.data[i] && SizeOffset(fields, i) == l.size[i]
    decreases i
  {
    hide MemberSize, Occupies;
    if i > 0 {
      OffsetsAreLayout(fields, l, i - 1);
      OccupiesMember(fields[i - 1], l.end[i - 1] - l.data[i - 1]);
    }
  }

  lemma {:induction false} OffsetsGrow(fields: seq<Field>, i: nat, j: nat)
    requires i < j < |fields|
    requires forall k :: 0 <= k < |fields| ==> MemberSize(fields[k]) > 0
    ensures DataOffset(fields, i) <= DataOffset(fields, j)
    ensures Home(fields, i) == Home(fields, j) ==> DataOffset(fields, i) == DataOffset(fields, j)
    ensures Home(fields, i) != Home(fields, j) ==> DataOffset(fields, i) < DataOffset(fields, j)
    ensures Home(fields, j) != j ==> Home(fields, i) <= Home(fields, j)
    decreases j
  {
    hide MemberSize;
    if i < j - 1 { OffsetsGrow(fields, i, j - 1); }
  }

  /** Two fields share a slot exactly when the iterator gives them the same data pointer. */
  lemma SlotsAreAddresses(fields: seq<Field>, i: nat, j: nat)
    requires i < |fields| && j < |fields|
    requires forall k :: 0 <= k < |fields| ==> MemberSize(fields[k]) > 0
    ensures Home(fields, i) == Home(fields, j) <==> DataOffset(fields, i) == DataOffset(fields, j)
  {
    if i < j { OffsetsGrow(fields, i, j); } else if j < i { OffsetsGrow(fields, j, i); }
  }

  // ---------------------------------------------------------------- the iterator

  /** Tag 0 marks the end of a descriptor array only. */
  ghost predicate NonzeroTags(fields: seq<Field>) {
    forall k :: 0 <= k < |fields| ==> fields[k].tag != 0
  }

  lemma TagsNonzero(fields: seq<Field>)
    requires WellFormed(fields)
    ensures NonzeroTags(fields)
  {
    assert forall k :: 0 <= k < |fields| ==> WellFormedField(fields[k]);
  }

  class FieldIter {
    const fields: seq<Field>
    const destStruct: int
    var pos: nat
    var requiredFieldIndex: nat
    var pData: int
    var pSize: Place

    /** At a field, or at the terminator of an empty message type; pointers and count are those of pos. */
    ghost predicate Valid()
      reads this
    {
      && (pos < |fields| || pos == |fields| == 0)
      && requiredFieldIndex == ReqIndex(fields, pos)
      && (pos < |fields| ==> pData == destStruct + DataOffset(fields, pos))
      && (pSize.LocalCounter? ==> pos < |fields| && FixedCount(fields[pos]))
      && (pSize.InStruct? && pos < |fields| ==> pSize == SizeHere())
    }

    ghost function SizeHere(): Place
      reads this
      requires pos < |fields|
    {
      InStruct(destStruct + SizeOffset(fields, pos))
    }

    function TagHere(): nat
      reads this
    {
      if pos < |fields| then fields[pos].tag else 0
    }

    /** pb_field_iter_begin. */
    constructor (fields: seq<Field>, destStruct: int)
      ensures this.fields == fields && this.destStruct == destStruct
      ensures Valid() && pos == 0 && pSize.InStruct?
    {
      this.fields := fields;
      this.destStruct := destStruct;
      pos := 0;
      requiredFieldIndex := 0;
      pData := destStruct + if fields == [] then 0 else fields[0].dataOffset;
      pSize := InStruct(destStruct + if fields == [] then 0 else fields[0].dataOffset + fields[0].sizeOffset);
    }

    method Restart()
      modifies this
      ensures Valid() && pos == 0 && pSize.InStruct?
    {
      pos := 0;
      requiredFieldIndex := 0;
      pData := destStruct + if fields == [] then 0 else fields[0].dataOffset;
      pSize := InStruct(pData + if fields == [] then 0 else fields[0].sizeOffset);
    }

    /** pb_field_iter_next: one step, wrapping to the first field. */
    method Next() returns (more: bool)
      requires Valid() && NonzeroTags(fields)
      modifies this
      ensures Valid()
      ensures more == (old(pos) + 1 < |fields|)
      ensures pos == if more then old(pos) + 1 else 0
      ensures if fields == [] then pSize == old(pSize) else pSize.InStruct?
    {
      if TagHere() == 0 {
        return false;
      }
      var prev := fields[pos];
      pos := pos + 1;
      if TagHere() == 0 {
        Restart();
        return false;
      }
      var prevSize := prev.dataSize;
      if prev.htype.Oneof? && fields[pos].htype.Oneof? && fields[pos].dataOffset == PB_SIZE_MAX {
        assert InsideUnion(fields, pos);
        return true;
      } else if prev.atype.Static? && prev.htype.Repeated? {
        prevSize := prevSize * prev.arraySize;
      } else if prev.atype.Pointer? {
        prevSize := ADDRESS_SIZE;
      }
      if prev.htype.Required? {
        requiredFieldIndex := requiredFieldIndex + 1;
      }
      pData := pData + prevSize + fields[pos].dataOffset;
      pSize := InStruct(pData + fields[pos].sizeOffset);
      return true;
    }

    /** pb_field_iter_find: search circularly from the current field. On failure the iterator is back where
        it was, with its pointers recomputed. An empty message type finds tag 0, its terminator. */
    method Find(tag: nat) returns (found: bool, ghost steps: nat)
      requires Valid() && NonzeroTags(fields)
      modifies this
      ensures Valid()
      ensures steps <= |fields| + 1 && (fields != [] ==> steps <= |fields|)
      ensures found <==> (exists k :: 0 <= k < |fields| && fields[k].tag == tag) || (fields == [] && tag == 0)
      ensures found && fields != [] ==> pos < |fields| && fields[pos].tag == tag
      ensures !found ==> pos == old(pos)
      ensures pos == old(pos) && found ==> pSize == old(pSize)
      ensures pos != old(pos) || !found ==> fields == [] || pSize.InStruct?
    {
      var start := pos;
      var first := true;
      ghost var wrapped := false;
      steps := 0;
      while first || pos != start
        invariant Valid() && start == old(pos)
        invariant first ==> pos == start && pSize == old(pSize) && !wrapped && steps == 0
        invariant !first ==> fields == [] || pSize.InStruct?
        invariant fields == [] ==> pos == 0 && (first || tag != 0) && steps <= 1
        invariant fields != [] ==> steps == if wrapped then |fields| - start + pos else pos - start
        invariant !first && !wrapped ==> start < pos || fields == []
        invariant wrapped ==> pos <= start
        invariant forall k :: start <= k < |fields| && (wrapped || k < pos) ==> fields[k].tag != tag
        invariant wrapped ==> forall k :: 0 <= k < pos ==> fields[k].tag != tag
        decreases first, |fields| + 1 - steps
      {
        if TagHere() == tag {
          return true, steps;
        }
        var more := Next();
        steps := steps + 1;
        if !more { wrapped := true; }
        first := false;
      }
      return false, steps;
    }
  }

  /** After any sequence of Next and Find calls the incrementally kept pointers and counter are those of the
      structure layout the descriptor was generated from. */
  lemma IteratorRefinesLayout(iter: FieldIter, l: Layout)
    requires iter.Valid() && Describes(iter.fields, l) && iter.pos < |iter.fields| && iter.pSize.InStruct?
    ensures iter.pData == iter.destStruct + l.data[iter.pos]
    ensures iter.pSize.at == iter.destStruct + l.size[iter.pos]
    ensures iter.requiredFieldIndex == |RequiredBefore(iter.fields, iter.pos)|
  {
    OffsetsAreLayout(iter.fields, l, iter.pos);
    CountRequired(iter.fields, iter.pos);
  }

  function RequiredBefore(fields: seq<Field>, i: nat): set<nat>
    requires i <= |fields|
  {
    set k: nat | k < i && fields[k].htype.Required?
  }

  lemma {:induction false} CountRequired(fields: seq<Field>, i: nat)
    requires i <= |fields|
    ensures |RequiredBefore(fields, i)| == ReqIndex(fields, i)
  {
    if i > 0 {
      CountRequired(fields, i - 1);
      var s := RequiredBefore(fields, i - 1);
      if fields[i - 1].htype.Required? {
        assert RequiredBefore(fields, i) == s + {i - 1};
      } else {
        assert RequiredBefore(fields, i) == s;
      }
    }
  }
}
