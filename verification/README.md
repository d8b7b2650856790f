# A verified model of nanopb and of the SwiftyGif frame scheduler

Two parts of the application's vendored code are modelled and proved here.

**nanopb** (version 0.3.9.8, `uana_project/ios/Pods/nanopb`) reads and writes Protocol Buffers messages by
walking an array of field descriptors next to a C structure. The model fixes the configuration the Xcode
project compiles: 32-bit field sizes (`pb_size_t` is `uint32_t`), `malloc` support, 64-bit `size_t` and
integers, `uint_fast8_t` of 8 bits. Two layers describe it:

- Specification functions on values: `Wire` (varints, zigzag, fixed-width numbers, skipping), `Descriptor`
  (fields, structures as typed slots, validity, defaults, and the *view* of a structure, which leaves out
  what its user cannot observe: contents of absent fields, unused array entries, bytes behind a string
  terminator), `EncodeSpec`, `DecodeSpec`, `Framing`.
- The code as it runs: classes for the input stream (`InputStreams`), the output and sizing stream
  (`OutputStreams`), the field iterator (`FieldIterator`) and the heap (`Allocators`), and methods with
  loops over them (`Decoder`, `Encoder`, `FramedStreams`, `RequiredFields`), each proved to do what its
  specification function says.

The theorems are about all well-formed descriptors and all inputs: encoding and decoding undo each other
(`RoundTrip`, `NormalForm`, `Framing`), the bytes are those of the Protocol Buffers encoding and describe
themselves to any reader (`WireFormat`), exactly the structures that look zeroed encode to nothing
(`EmptyMessages`), what is decoded is valid (`Validity`), required fields must come and fields left out hold
defaults (`Received`), decoding is a merge and ignores unknown records (`Merge`), packed and element-wise arrays agree, with a counter member or without
(`PackedArrays`), the 32-bit and 64-bit varint readers agree (`VarintAgreement`), the required-field bitset is
exact (`RequiredFields`), measuring agrees with writing (`OutputStreams`, `Encoder`), the incremental iterator
follows the structure layout (`FieldIterator`), and the allocating decoder loses no block and frees none
wrongly on exactly the types named below, and otherwise decodes like the static one, with pointers as the
largest fields of their kind (`HeapDecoder`, `Ownership`, `HeapRelease`, `HeapShares`, `HeapWipes`,
`HeapDefaults`, `HeapSafety`, `HeapRuns`, `HeapLeaks`, `LeakExamples`, `HeapAgreement`, `HeapReads`,
`HeapRecords`). Termination is part of every proof: decoding recurses on the number of
unread bytes, default initialisation on the nesting of types.

**SwiftyGif** (`calculateFrameDelay`) picks the coarsest refresh interval that loses few enough frames and
lists which frame each tick shows; `GifSchedule` proves what that list contains and that it keeps time.

Four places where the code does less than one might expect are stated as results, with the condition under
which it does not happen.

- A fixed-count array of submessages with pointers loses memory when it is decoded a second time, because its
  elements are set to defaults again. A message type is at risk when its messages can make that happen: it
  embeds a structure that has such an array (a second record of the structure is merged into the first), or it
  has such an array and another fixed-count field (switching to the other one and back). `Ownership.LossFree`
  says that no type a message can contain is at risk. Loss-free types never leak, for any input and any failing
  `realloc` (`HeapRuns.DecodeAccounts`, `HeapRuns.ReleaseEndsRun`); a type that is not has an input that leaks,
  built in `HeapLeaks`, as soon as there are encodings to put into the records (`HeapLeaks.LossFreeIsExact`).
- Default initialisation stores a zero count for every static array. An array without a count member has its
  count location on its first entry, so the store clears four bytes of contents. When that entry starts with a
  pointer that is set, half of the pointer is overwritten and `pb_release` frees what is left of it. This takes
  an array inside an element of another fixed-count array that is decoded twice. `Ownership.HarmFree` says that
  no type a message can contain makes that happen; on such types no block is freed twice, no overwritten pointer
  is freed and nothing is written out of bounds, for every allowed sequence of decoding, merging and releasing
  (`HeapRuns.NeverFreedTwice`). A type that is not has an input that does the harm, again as soon as there are
  encodings for it (`HeapLeaks.HarmFreeIsExact`, `LeakExamples.StoreHarms`), and the calls that are not allowed
  do it too (`LeakExamples.ForbiddenCallsHarm`). Loss-free types are harm-free.
- `pb_decode` forgets the blocks its destination already owns: an accepted input adds the blocks of the result
  and frees none of the old ones, so nothing is lost if and only if the destination owned nothing
  (`HeapRuns.AcceptedOver`). An input that is refused may free some of them: a record of a counted array raises
  the count before it fails, and `pb_release` then finds the old entry (`LeakExamples.RefusedFreesStale`). The
  empty input, accepted or refused, forgets exactly what default initialisation forgets, where that overwrites
  no pointer (`HeapRuns.EmptyInputOver`).
- A fixed-count array that a message leaves out keeps what it held but for the zero count, and all of it counts
  as present. The result of decoding is valid throughout when those arrays were fine before, as in a zeroed
  structure (`Validity.DecodedIsValid`); otherwise it is valid outside them (`Validity.DecodedIsGood`), and an
  array that did receive a record has received all of its elements (`Validity.ReceivedIsComplete`).

`dafny verify dfyconfig.toml` checks the project.

## Model

| member | source | states |
|---|---|---|
| Wire.VarintRoundTrip | uana_project/ios/Pods/nanopb/pb_encode.c:608-628 | Decoding what the varint writer emits for any 64-bit value gives the value and leaves exactly the following bytes. |
| Wire.VarintIsMinimal | uana_project/ios/Pods/nanopb/pb_encode.c:608-628 | The writer takes n bytes exactly when the value needs n groups of seven bits; a 64-bit value takes at most ten. |
| Wire.Varint32RoundTrip | uana_project/ios/Pods/nanopb/pb_decode.c:187-247 | The 32-bit reader gives back every 32-bit value, whatever follows. |
| Wire.ZigZagRoundTrip | uana_project/ios/Pods/nanopb/pb_encode.c:630-639 | The writer's zigzag maps v to 2v or -2v-1 and the reader's inverse undoes it. |
| Wire.SVarintRoundTrip | uana_project/ios/Pods/nanopb/pb_decode.c:1279-1291 | A signed 64-bit value survives zigzag, varint writing, varint reading and un-zigzag. |
| Wire.FixedRoundTrip | uana_project/ios/Pods/nanopb/pb_encode.c:641-666 | Little-endian fixed-width numbers of any width are read back. |
| Wire.DelimitedRoundTrip | uana_project/ios/Pods/nanopb/pb_decode.c:372-385 | A length prefix and that many bytes are split off again, leaving the suffix. |
| Wire.SkipPayloadLocal | uana_project/ios/Pods/nanopb/pb_decode.c:321-331 | Skipping one payload consumes only that payload: the result is the same whatever follows. |
| VarintAgreement.ReadersAgree | uana_project/ios/Pods/nanopb/pb_decode.c:187-275 | On every byte string that both varint readers accept, they consume the same bytes and the 32-bit result is the 64-bit one modulo 2^32. |
| VarintAgreement.Varint32Accepts | uana_project/ios/Pods/nanopb/pb_decode.c:187-247 | On minimal encodings the 32-bit reader accepts exactly the values below 2^32 and those whose upper bits are a sign extension it tolerates; accepted values come out modulo 2^32. |
| VarintAgreement.Varint32Consequences | uana_project/ios/Pods/nanopb/pb_decode.c:205-233 | Every sign-extended negative 32-bit value is accepted; nothing from 2^32 up to 2^63 is. |
| WireFormat.SkipsPayload | uana_project/ios/Pods/nanopb/pb_decode.c:321-331 | Skipping consumes exactly one payload: any chain of bytes up to the first without continuation bit under wire type 0, eight bytes under 1, a length prefix and its bytes under 2, four bytes under 5, whatever follows. |
| WireFormat.SkipRefuses | uana_project/ios/Pods/nanopb/pb_decode.c:321-331 | Wire types 3, 4 and from 6 on are refused, and so are fixed payloads that are cut short and varints that do not end. |
| WireFormat.RecordDescribesItself | uana_project/ios/Pods/nanopb/pb_encode.c:675-707 | An encoded entry starts with 8 * tag + w, where w is 0, 1, 2 or 5 by a table of field kinds, and what follows is its payload and one of wire type w, so that skipping by w leaves exactly the suffix. |
| WireFormat.PackedIsOneRecord | uana_project/ios/Pods/nanopb/pb_encode.c:147-236 | A non-empty array of numbers is one length-delimited record under wire type 2 that holds the encoded elements without keys. |
| WireFormat.WrittenInOrder | uana_project/ios/Pods/nanopb/pb_encode.c:528-550 | Fields are written in descriptor order, each as it is written alone. |
| WireFormat.SkipsField | uana_project/ios/Pods/nanopb/pb_decode.c:960-993 | Whatever is written for a field, packed or not, a receiver whose type lacks the field passes over it and keeps its state. |
| WireFormat.SkipsMessage | uana_project/ios/Pods/nanopb/pb_decode.c:946-1024 | A whole message is passed over by a receiver that knows none of its fields. |
| WireFormat.VarintLayout | uana_project/ios/Pods/nanopb/pb_encode.c:608-628 | The groups of a written varint, seven bits each and least significant first, are the value, and the high bit of every byte but the last is set. |
| WireFormat.VarintReads | uana_project/ios/Pods/nanopb/pb_decode.c:255-275 | The 64-bit reader takes every chain of up to ten bytes, minimal or not, keeps the low 64 bits of its value, and refuses longer ones. |
| WireFormat.Varint32Reads | uana_project/ios/Pods/nanopb/pb_decode.c:187-247 | The 32-bit reader takes every chain, padded to any length, whose value fits into 32 bits. |
| WireFormat.FixedLayout | uana_project/ios/Pods/nanopb/pb_encode.c:641-666 | Byte k of a fixed-width number is its k-th digit to the base 256. |
| WireFormat.NumberOnTheWire | uana_project/ios/Pods/nanopb/pb_encode.c:769-850 | What is written for every kind of number in literal terms: a negative int32 or int64 is 2^64 + n in ten bytes, zigzag values are 2n or -2n - 1, booleans are one byte. |
| WireFormat.NumberAccepted | uana_project/ios/Pods/nanopb/pb_decode.c:1328-1422 | Which varints a field takes: an oversized value is refused and not wrapped, except that signed fields narrower than 64 bits look at the low 32 bits; the limits are literal. |
| WireFormat.FixedAccepted | uana_project/ios/Pods/nanopb/pb_decode.c:1424-1434 | Fixed-width fields take any bytes and read them little-endian. |
| WireFormat.BytesAccepted | uana_project/ios/Pods/nanopb/pb_decode.c:1441-1565 | Which byte strings a field in place takes, with a four-byte header, a terminator or an exact length; an empty record clears a byte array of fixed length. |
| WireFormat.BytesStored | uana_project/ios/Pods/nanopb/pb_decode.c:1441-1517 | Reading a string or byte array stores its bytes, a terminator behind a string, and leaves the rest of the buffer as it was. |
| Descriptor.CStr | uana_project/ios/Pods/nanopb/pb_encode.c:875-899 | The C string in a buffer: the bytes before the first zero, or all of them. |
| EncodeSpec.EncodesExactly | uana_project/ios/Pods/nanopb/pb_encode.c:528-550 | The encoder refuses a structure if and only if a count that is to be written exceeds its array or the size of a byte array its buffer, at any depth; unterminated strings, unknown which_ tags and numbers out of range are written. |
| EncodeSpec.MessageEncodes | uana_project/ios/Pods/nanopb/pb_encode.c:528-550 | So it refuses no valid structure, at any nesting depth. |
| EncodeSpec.DefaultMeansEmpty | uana_project/ios/Pods/nanopb/pb_encode.c:240-337 | For every valid submessage the proto3 default check is true if and only if encoding it writes no bytes, through nesting and oneofs. |
| EmptyMessages.EmptyIsZero | uana_project/ios/Pods/nanopb/pb_encode.c:240-337 | A valid structure of any type encodes to no bytes if and only if it looks like a zeroed structure and its type has nothing that is always written: required fields, arrays without a count, byte arrays of fixed length without a has_ flag, and structures without one that contain such fields. |
| EmptyMessages.OmittedField | uana_project/ios/Pods/nanopb/pb_encode.c:341-426 | Field by field: omitted if and only if it may be and looks as in a zeroed structure, that is, no value under a has_ flag or in a oneof, no entries, or a zero value. |
| EmptyMessages.OmittedDatum | uana_project/ios/Pods/nanopb/pb_encode.c:321-337 | The contents of a field without a has_ flag are omitted if and only if they have the view of zeroed contents. |
| EmptyMessages.ZeroIsEmpty | uana_project/ios/Pods/nanopb/pb_encode.c:528-550 | A zeroed structure encodes to no bytes in exactly those types. |
| RoundTrip.EncodeDecode | uana_project/ios/Pods/nanopb/pb_decode.c:1078-1090 | pb_decode undoes pb_encode: for every well-formed descriptor, every valid structure and every previous contents of the destination, decoding succeeds, consumes every byte and gives a structure with the same view. |
| RoundTrip.MessageRoundTrip | uana_project/ios/Pods/nanopb/pb_decode.c:946-1031 | The record loop, started on defaults, ends complete (required fields seen, fixed-count array full) in a structure with the same view. |
| RoundTrip.LeafRoundTrip | uana_project/ios/Pods/nanopb/pb_encode.c:769-899 | Every kind of scalar, bytes, string or fixed-length entry is read back over any previous contents. |
| RoundTrip.NumberRoundTrip | uana_project/ios/Pods/nanopb/pb_decode.c:1328-1422 | Every integer in the range of its field width passes the clamping checks of the reader; booleans come back as 0 or 1. |
| RoundTrip.PackedRoundTrip | uana_project/ios/Pods/nanopb/pb_decode.c:425-453 | The elements of a packed record are stored one after the other until the record is used up. |
| RoundTrip.ItemsRoundTrip | uana_project/ios/Pods/nanopb/pb_decode.c:454-464 | Element records of strings, byte arrays and submessages rebuild the array. |
| RoundTrip.DefaultFresh | uana_project/ios/Pods/nanopb/pb_decode.c:839-922 | Defaults absorb any previous contents: counts and tags are zero and contents are as in a fresh structure. |
| RoundTrip.OmittedView | uana_project/ios/Pods/nanopb/pb_encode.c:341-426 | A field the encoder omits already looks like its default to the reader of the structure. |
| RoundTrip.RecordRuns | uana_project/ios/Pods/nanopb/pb_decode.c:946-1024 | A key followed by a complete field value is one step of the record loop that changes that field's slot only. |
| Received.AcceptedExactly | uana_project/ios/Pods/nanopb/pb_decode.c:1022-1072 | pb_decode_noinit accepts exactly the inputs its loop gets through that bring a record of each of the first 64 required fields and leave no fixed-count array half full. |
| Received.LeftOut | uana_project/ios/Pods/nanopb/pb_decode.c:839-909 | In every accepted input the fields that it leaves out hold their defaults, whatever the destination held: the initial value, or zero, no has_ flag, no count, no oneof member, in embedded structures too. |
| Received.ZeroCountStored | uana_project/ios/Pods/nanopb/pb_decode.c:868-872 | Default initialisation of an array without a count clears exactly its first four bytes, byte by byte, and nothing behind them. |
| Framing.DelimitedStream | uana_project/ios/Pods/nanopb/pb_encode.c:552-555 | Any list of valid messages written with pb_encode_delimited is read back one by one, leaving what follows untouched. |
| Framing.NullTerminated | uana_project/ios/Pods/nanopb/pb_encode.c:557-565 | A null-terminated message is read back and exactly the bytes behind the terminator stay unread. |
| FramedStreams.DecodeDelimited | uana_project/ios/Pods/nanopb/pb_decode.c:1107-1120 | On a stream object: decodes one delimited message and leaves the stream exactly behind the declared length. If the nested decode fails the parent is closed all the same: exactly the bytes behind the body are left, and the read pointer is at most at the declared end. |
| FramedStreams.EncodeDelimited | uana_project/ios/Pods/nanopb/pb_encode.c:552-555 | On a stream object: writes exactly the delimited encoding, or fails. |
| Validity.DecodedIsGood | uana_project/ios/Pods/nanopb/pb_decode.c:406-483 | For every descriptor, accepted input and previous contents: the layout is right and, outside arrays without a counter, counts fit, byte arrays fit, strings are terminated, numbers are in range, which_ is 0 or a member tag. |
| Validity.DecodedIsValid | uana_project/ios/Pods/nanopb/pb_decode.c:1078-1090 | The structure is valid throughout, fixed-count arrays included, when the entries of those arrays were fine before. |
| Validity.ReceivedIsComplete | uana_project/ios/Pods/nanopb/pb_decode.c:995-1031 | In every call, nested or not, a fixed-count array is left exactly as it was, or all of its elements have been received and are good. |
| Validity.WipedGood | uana_project/ios/Pods/nanopb/pb_decode.c:868-872 | A zero count stored over the first bytes of valid contents leaves them valid, at every nesting depth. |
| Validity.FineStarts | uana_project/ios/Pods/nanopb/pb_decode.c:466-476 | Zeroed structures are fine, and so is every structure of a type without fixed-count arrays. |
| Validity.UnreceivedStaysInvalid | uana_project/ios/Pods/nanopb/pb_decode.c:995-1031 | Why that is needed: an unterminated string in a fixed-count array survives the empty input, and the decoder refuses what the encoder makes of it. |
| NormalForm.DecodeEncodeDecode | uana_project/ios/Pods/nanopb/pb_encode.c:341-426 | What was decoded always re-encodes, and decoding that again gives the same view. |
| NormalForm.MessageByView | uana_project/ios/Pods/nanopb/pb_encode.c:852-899 | Structures with the same view are encoded to the same bytes. |
| NormalForm.ReencodingIsStable | uana_project/ios/Pods/nanopb/pb_encode.c:528-550 | Decode-and-re-encode is a normal form: applied to its own output it returns the same bytes. |
| Merge.ConcatenationMerges | uana_project/ios/Pods/nanopb/pb_decode.c:928-1024 | Without fixed-count fields, one run over a + b does exactly what a run over a followed by a run over b does (same structure, same unread bytes, same failure), apart from remembering required fields of a. |
| Merge.DecodeConcatenation | uana_project/ios/Pods/nanopb/pb_decode.c:928-1076 | For every descriptor: if two runs in a row succeed, one run over the concatenation gives the same structure, required-field checks included, exactly if the first fixed-count array that b comes upon is not the one that a ended with; otherwise it is refused. |
| Merge.NoFixedIsApart | uana_project/ios/Pods/nanopb/pb_decode.c:995-1013 | Without fixed-count fields that condition always holds. |
| Merge.SubmessageRecordsMerge | uana_project/ios/Pods/nanopb/pb_decode.c:1519-1541 | Two accepted records of a non-repeated submessage in place act like one record with the concatenated body, under the same condition; otherwise that record is refused. |
| Merge.MemberRecordsMerge | uana_project/ios/Pods/nanopb/pb_decode.c:466-483 | The same for the slot of a singular or oneof submessage, where the first record may be the one that switches the oneof. |
| Merge.SwitchStartsAfresh | uana_project/ios/Pods/nanopb/pb_decode.c:466-483 | A record of another oneof member than the one that is set is read into a default structure: nothing of the old contents remains. |
| Merge.WireTypeMatters | uana_project/ios/Pods/nanopb/pb_decode.c:406-483 | The wire type of a record of a known field decides only whether the numbers of an array come packed. |
| Merge.UnknownMemberRefused | uana_project/ios/Pods/nanopb/pb_decode.c:1131-1162 | A oneof whose which_ names no field of the message is refused by every other member. |
| Merge.EmptyTypeReadsBool | uana_project/ios/Pods/nanopb/pb_common.c:78-95 | Against an empty message type a key with field number 0 finds the terminating entry and reads a bool, whatever its wire type. |
| Merge.LastOneWins | uana_project/ios/Pods/nanopb/pb_decode.c:414-422 | A record of a scalar, string or bytes field replaces what the field, or its whole oneof, held before: acceptance, consumption and the resulting view do not depend on it. |
| Merge.UnknownIsTransparent | uana_project/ios/Pods/nanopb/pb_decode.c:960-993 | A well-formed record with a tag the descriptor does not have changes nothing at any record boundary, even inside a run of fixed-count elements. |
| Merge.UnknownInMessage | uana_project/ios/Pods/nanopb/pb_decode.c:928-1076 | The same for the success and the result of the whole decoder. |
| Merge.EncodedRecordIsUnknown | uana_project/ios/Pods/nanopb/pb_decode.c:289-331 | A key with a free tag followed by a payload of the wire type it names is such a record, for all four wire types. |
| DecodeSpec.DecLoopResumes | uana_project/ios/Pods/nanopb/pb_decode.c:946-1024 | Decoding resumes at any record boundary as if the loop had started there. |
| DecodeSpec.DecRecordLocal | uana_project/ios/Pods/nanopb/pb_decode.c:946-1024 | A record that was read without error is read the same way whatever follows it. |
| PackedArrays.ChunksDecode | uana_project/ios/Pods/nanopb/pb_decode.c:424-464 | Any split of a list of elements into packed and single records appends exactly that list when it fits array_size and fails when it does not; for fixed-count arrays too, whose elements are counted by the loop. |
| PackedArrays.SplitsAgree | uana_project/ios/Pods/nanopb/pb_decode.c:424-464 | So all splits of the same list decode alike; without a counter member, provided both have a record at all. |
| PackedArrays.CompleteWhenFull | uana_project/ios/Pods/nanopb/pb_decode.c:995-1031 | A fixed-count array that received records passes the final check if and only if the elements received are array_size many. |
| RequiredFields.Mark | uana_project/ios/Pods/nanopb/pb_decode.c:1015-1020 | Setting bit (index & 31) of word (index >> 5) adds exactly that index to the set the two words represent. |
| RequiredFields.WordCheck | uana_project/ios/Pods/nanopb/pb_decode.c:1054-1072 | A word equals allbits shifted right by 32 - r exactly when the r required fields it covers were all seen. |
| RequiredFields.CheckRequired | uana_project/ios/Pods/nanopb/pb_decode.c:1054-1072 | The whole-word and mask comparisons pass if and only if each of the tracked required fields was seen. |
| FieldIterator.OffsetsAreLayout | uana_project/ios/Pods/nanopb/pb.h:395-418 | For descriptors filled in by the layout macros, the summed deltas are the true offsets, unions, arrays and pointers included. |
| FieldIterator.SlotsAreAddresses | uana_project/ios/Pods/nanopb/pb_common.c:43-73 | Two fields share a typed slot of the model exactly when the iterator gives them the same address. |
| FieldIterator.IteratorRefinesLayout | uana_project/ios/Pods/nanopb/pb_common.c:8-95 | In every state reachable by next and find, the data and size pointers are those of the layout and the counter is the number of earlier required fields. |
| FieldIterator.CountRequired | uana_project/ios/Pods/nanopb/pb_common.c:60-66 | The running required-field index counts the required fields before a position. |
| FieldIterator.FieldIter.constructor | uana_project/ios/Pods/nanopb/pb_common.c:8-18 | Begin: at the first field, with its addresses. |
| FieldIterator.FieldIter.Next | uana_project/ios/Pods/nanopb/pb_common.c:20-76 | One step, keeping addresses and index exact; wraps to the first field and says so. |
| FieldIterator.FieldIter.Find | uana_project/ios/Pods/nanopb/pb_common.c:78-95 | From any start, stops within one lap, finds the tag if and only if a field has it, and otherwise is back where it was. |
| InputStreams.InputStream.BufRead | uana_project/ios/Pods/nanopb/pb_decode.c:87-100 | Copies the next bytes and advances the pointer. |
| InputStreams.InputStream.Read | uana_project/ios/Pods/nanopb/pb_decode.c:102-137 | Reads exactly count bytes or fails; the end of the readable range stays where it was. |
| InputStreams.InputStream.ReadByte | uana_project/ios/Pods/nanopb/pb_decode.c:139-157 | The same for one byte. |
| InputStreams.InputStream.DecodeVarint32Eof | uana_project/ios/Pods/nanopb/pb_decode.c:187-247 | The 32-bit varint loop with its 8-bit position counter equals the reader function; reports end of input only before the first byte. |
| InputStreams.InputStream.DecodeVarint | uana_project/ios/Pods/nanopb/pb_decode.c:255-275 | The 64-bit varint loop equals the reader function. |
| InputStreams.InputStream.DecodeSVarint | uana_project/ios/Pods/nanopb/pb_decode.c:1279-1291 | Un-zigzags what the varint loop reads. |
| InputStreams.InputStream.DecodeFixed | uana_project/ios/Pods/nanopb/pb_decode.c:1293-1325 | Little-endian assembly of four or eight bytes. |
| InputStreams.InputStream.SkipVarintBytes | uana_project/ios/Pods/nanopb/pb_decode.c:278-287 | Skips to the end of a varint. |
| InputStreams.InputStream.SkipString | uana_project/ios/Pods/nanopb/pb_decode.c:289-296 | Skips a length prefix and that many bytes. |
| InputStreams.InputStream.DecodeTag | uana_project/ios/Pods/nanopb/pb_decode.c:298-319 | Splits a key into tag and wire type; a zero key and the end of input both end the message. |
| InputStreams.InputStream.SkipField | uana_project/ios/Pods/nanopb/pb_decode.c:321-331 | Skips one payload by wire type and refuses unknown wire types. |
| InputStreams.InputStream.MakeStringSubstream | uana_project/ios/Pods/nanopb/pb_decode.c:372-385 | The substream gets exactly the declared length, the parent what is behind it. |
| InputStreams.InputStream.CloseStringSubstream | uana_project/ios/Pods/nanopb/pb_decode.c:387-400 | However little was read, the parent continues at the end of the declared length. |
| Decoder.DecVarintField | uana_project/ios/Pods/nanopb/pb_decode.c:1339-1374 | Signed fields: the low word is taken for narrow fields, and values that do not fit are refused. |
| Decoder.DecUVarintField | uana_project/ios/Pods/nanopb/pb_decode.c:1376-1398 | Unsigned fields with their clamping check. |
| Decoder.DecSVarintField | uana_project/ios/Pods/nanopb/pb_decode.c:1400-1422 | Zigzag fields with their clamping check. |
| Decoder.DecBuffer | uana_project/ios/Pods/nanopb/pb_decode.c:1441-1517 | Static bytes, strings (with terminator) and fixed-length bytes with their size checks. |
| Decoder.DecodeLeaf | uana_project/ios/Pods/nanopb/pb_decode.c:1328-1564 | The table of entry decoders equals the leaf specification. |
| Decoder.DecodePackedField | uana_project/ios/Pods/nanopb/pb_decode.c:425-453 | The packed loop over a substream stores the elements, or fails on overflow. |
| Decoder.SetToDefaults | uana_project/ios/Pods/nanopb/pb_decode.c:911-922 | The walk over the fields with an iterator gives the default structure. |
| Decoder.SetFieldToDefault | uana_project/ios/Pods/nanopb/pb_decode.c:839-909 | One field: flags, counts and which_ cleared, contents initialised recursively. |
| Decoder.DecodeSubmessage | uana_project/ios/Pods/nanopb/pb_decode.c:1519-1541 | Nested decoding in a substream: with defaults for array entries, as a merge otherwise. |
| Decoder.DecodeStaticField | uana_project/ios/Pods/nanopb/pb_decode.c:406-483 | All four field rules on a static field, counts and flags through the size location. |
| Decoder.ReleaseUnionField | uana_project/ios/Pods/nanopb/pb_decode.c:1131-1162 | Switching union members: the old tag must name a field; the iterator is restored. |
| Decoder.DecodeField | uana_project/ios/Pods/nanopb/pb_decode.c:734-760 | Dispatch on a static field, oneof check included. |
| Decoder.DecodeFound | uana_project/ios/Pods/nanopb/pb_decode.c:995-1023 | Fixed-count bookkeeping, required-field marking and the field itself. |
| Decoder.DecodeRecord | uana_project/ios/Pods/nanopb/pb_decode.c:946-1024 | One turn of the loop equals one step of the specification, from any iterator position. |
| Decoder.CountRequiredFields | uana_project/ios/Pods/nanopb/pb_decode.c:1033-1052 | Seeking to the end from any position gives the number of required fields. |
| Decoder.DecodeNoinit | uana_project/ios/Pods/nanopb/pb_decode.c:928-1076 | pb_decode_noinit equals its specification on every descriptor, structure and input. |
| Decoder.Decode | uana_project/ios/Pods/nanopb/pb_decode.c:1078-1090 | pb_decode equals its specification; the end of the readable range is kept. |
| OutputStreams.SizingAgrees | uana_project/ios/Pods/nanopb/pb_encode.c:103-124 | The same output on a sizing stream and on a buffer of n bytes: the buffer accepts it if and only if the measured size is at most n, the counts are equal, and nothing outside the n bytes ever changes. |
| OutputStreams.WroteThen | uana_project/ios/Pods/nanopb/pb_encode.c:103-124 | Two output steps in a row emit the concatenation, within the same limit. |
| OutputStreams.OutputStream.constructor | uana_project/ios/Pods/nanopb/pb_encode.c:86-101 | A stream over a window of a buffer. |
| OutputStreams.OutputStream.BufWrite | uana_project/ios/Pods/nanopb/pb_encode.c:74-84 | The byte loop copies the data to the write position and advances it. |
| OutputStreams.OutputStream.Write | uana_project/ios/Pods/nanopb/pb_encode.c:103-124 | Writes all or, when the limit would be passed, nothing. |
| Encoder.EncodeVarint | uana_project/ios/Pods/nanopb/pb_encode.c:608-628 | Writes the minimal varint of a value. |
| Encoder.VarintGroups | uana_project/ios/Pods/nanopb/pb_encode.c:608-628 | The group loop with its ten-byte buffer produces that encoding. |
| Encoder.EncodeSVarint | uana_project/ios/Pods/nanopb/pb_encode.c:630-639 | Writes the zigzag varint of a signed value. |
| Encoder.EncodeFixed | uana_project/ios/Pods/nanopb/pb_encode.c:641-666 | Writes four or eight bytes, least significant first. |
| Encoder.EncodeTag | uana_project/ios/Pods/nanopb/pb_encode.c:669-707 | Writes the key of a field. |
| Encoder.EncodeString | uana_project/ios/Pods/nanopb/pb_encode.c:709-715 | Writes a length prefix and the bytes. |
| Encoder.StringLength | uana_project/ios/Pods/nanopb/pb_encode.c:875-899 | The length loop stops at the terminator or the end of the buffer. |
| Encoder.EncodeNumber | uana_project/ios/Pods/nanopb/pb_encode.c:769-850 | The scalar encoders with their widths and sign extension. |
| Encoder.CheckProto3Default | uana_project/ios/Pods/nanopb/pb_encode.c:240-337 | The loop form of the default check equals the predicate. |
| Encoder.EncodeEntry | uana_project/ios/Pods/nanopb/pb_encode.c:769-912 | The table of entry encoders, size checks included. |
| Encoder.EncodeSubmessage | uana_project/ios/Pods/nanopb/pb_encode.c:717-765 | Measures, writes the length, writes through a limited substream; the branch for a size that changed is unreachable. |
| Encoder.MeasureItems | uana_project/ios/Pods/nanopb/pb_encode.c:175-190 | Measures a packed array exactly. |
| Encoder.EncodePacked | uana_project/ios/Pods/nanopb/pb_encode.c:162-205 | Tag, computed or measured size, elements; nothing but the count on a sizing stream. |
| Encoder.EncodeTaggedItems | uana_project/ios/Pods/nanopb/pb_encode.c:206-233 | Element-wise arrays: a key before each entry. |
| Encoder.EncodeArray | uana_project/ios/Pods/nanopb/pb_encode.c:147-236 | Empty arrays write nothing, oversized counts fail, packable types are packed. |
| Encoder.EncodeField | uana_project/ios/Pods/nanopb/pb_encode.c:341-426 | The four field rules: required always, optional by flag or default check, repeated by count, oneof by tag. |
| Encoder.EncodeMessage | uana_project/ios/Pods/nanopb/pb_encode.c:528-550 | pb_encode writes exactly the specified bytes, or fails; succeeds on a buffer if and only if they fit. |
| Encoder.GetEncodedSize | uana_project/ios/Pods/nanopb/pb_encode.c:567-576 | The measured size is the number of bytes writing takes. |
| Encoder.EncodeNullTerminated | uana_project/ios/Pods/nanopb/pb_encode.c:557-565 | The message and one zero byte. |
| Ownership.TooLargeIsExact | uana_project/ios/Pods/nanopb/pb_decode.c:513-526 | The half-width shortcut and the division together reject a non-empty request if and only if its size exceeds SIZE_MAX. |
| Ownership.AllocateKeeps | uana_project/ios/Pods/nanopb/pb_decode.c:490-533 | allocate_field either leaves pointer and heap as they were or replaces the block by one of the requested size with the old contents. |
| Allocators.Allocator.AllocateField | uana_project/ios/Pods/nanopb/pb_decode.c:490-533 | As a method: fails exactly for empty and unrepresentable requests and for failing realloc. |
| Allocators.Allocator.ReleaseItems | uana_project/ios/Pods/nanopb/pb_decode.c:1217-1225 | The loop over the submessages of a field. |
| Allocators.Allocator.FreeItems | uana_project/ios/Pods/nanopb/pb_decode.c:1230-1243 | The loop over the entries of a repeated string or bytes field. |
| Allocators.Allocator.ReleaseSingleField | uana_project/ios/Pods/nanopb/pb_decode.c:1164-1253 | Releases a current field, corrupted counts capped; leaves other union members alone. |
| Allocators.Allocator.ReleaseMessage | uana_project/ios/Pods/nanopb/pb_decode.c:1255-1269 | pb_release, field by field on the structure as it is by then. |
| Allocators.DecodePackedPointers | uana_project/ios/Pods/nanopb/pb_decode.c:601-655 | The growth loop equals its specification for every guess of the remaining size and every realloc failure. |
| Allocators.SlotAtItsTurn | uana_project/ios/Pods/nanopb/pb_decode.c:1131-1162 | When the turn of a field comes in pb_release, its slot is as it was before the call or belongs to another union member. |
| HeapRelease.ReleaseFrees | uana_project/ios/Pods/nanopb/pb_decode.c:1164-1269 | pb_release frees exactly the blocks reachable from the structure, each once, and leaves a structure that owns nothing; in any schema. |
| HeapWipes.WipedForgets | uana_project/ios/Pods/nanopb/pb_decode.c:868-872 | Clearing the first bytes of a structure, as the zero count does, makes it own no block it did not own before. |
| HeapWipes.WipedTidy | uana_project/ios/Pods/nanopb/pb_decode.c:868-872 | Where no pointer that is set lies under the cleared bytes, the structure stays well-formed, overwritten pointers included. |
| HeapWipes.NothingIsUnarmed | uana_project/ios/Pods/nanopb/pb_decode.c:1164-1269 | A released structure may be set to defaults: no pointer is set anywhere a zero count can be stored, in entries behind a count neither. |
| HeapWipes.SturdyIsUnarmed | uana_project/ios/Pods/nanopb/pb_decode.c:839-909 | The condition on types: when no structure in place has a fixed-count array whose first entry starts with a pointer, no contents ever put a pointer under a zero count. |
| HeapDefaults.DefaultsForget | uana_project/ios/Pods/nanopb/pb_decode.c:839-922 | Default initialisation makes a structure own no block it did not own before. |
| HeapDefaults.DefaultsTidy | uana_project/ios/Pods/nanopb/pb_decode.c:839-922 | It keeps structures well-formed and as settable to defaults again as they were, in each account. |
| HeapDefaults.DefaultsForgetAll | uana_project/ios/Pods/nanopb/pb_decode.c:839-922 | Where no fixed-count array holds pointers it leaves a structure that owns nothing, whatever it owned. |
| HeapDefaults.BlankOwnsNothing | uana_project/ios/Pods/nanopb/pb_decode.c:466-476 | A zeroed structure owns nothing, unused array entries included. |
| HeapSafety.AppendKeeps | uana_project/ios/Pods/nanopb/pb_decode.c:656-674 | A repeated pointer entry is decoded inside the grown block, the count stays within PB_SIZE_MAX, and blocks stay accounted for. |
| HeapSafety.PackedKeeps | uana_project/ios/Pods/nanopb/pb_decode.c:601-655 | In every run of the packed pointer loop each element lies inside the current block, the count stays within PB_SIZE_MAX, and blocks stay accounted for. |
| HeapSafety.GrownKeeps | uana_project/ios/Pods/nanopb/pb_decode.c:622-641 | After growing there is room for one more element. |
| HeapSafety.SingleKeeps | uana_project/ios/Pods/nanopb/pb_decode.c:567-599 | A duplicate single pointer releases an old submessage and reuses any other block. |
| HeapSafety.UnionKeeps | uana_project/ios/Pods/nanopb/pb_decode.c:1131-1162 | Switching union members gives back what the old member owned; the search never fails on structures the decoder made. |
| HeapSafety.StaticKeeps | uana_project/ios/Pods/nanopb/pb_decode.c:406-483 | Fields in place keep the account in every branch, error branches included; elements of a fixed-count array keep it because the entries from the counter on may be set to defaults. |
| HeapSafety.NoinitKeeps | uana_project/ios/Pods/nanopb/pb_decode.c:928-1076 | pb_decode_noinit, successful or not, keeps each of four accounts: of all memory, in any schema, harm included; of all memory without harm, in harm-free types; of the value over any destination, for accepted inputs, where no fixed-count array holds pointers; of the value in clean structures of loss-free types, for every input. |
| HeapSafety.DecodeKeeps | uana_project/ios/Pods/nanopb/pb_decode.c:1078-1090 | The same for pb_decode on a structure that may be set to defaults; a failing call leaves a structure that owns nothing. |
| HeapRuns.NeverFreedTwice | uana_project/ios/Pods/nanopb/pb_decode.c:1078-1090 | In harm-free types, for every allowed sequence of decoding, merging and releasing and every pattern of realloc failures: no block is freed twice, no overwritten pointer is freed, nothing is written out of bounds, and everything the structure refers to anywhere in its memory is live. |
| HeapRuns.SturdyAllows | uana_project/ios/Pods/nanopb/pb_decode.c:839-922 | For types that never put a pointer under a zero count every sequence of calls is allowed, decoding again without a release included. |
| HeapRuns.LossFreeIsHarmFree | uana_project/ios/Pods/nanopb/pb_decode.c:868-872 | A type that can lose no block can come to no harm. |
| HeapRuns.DecodeAccounts | uana_project/ios/Pods/nanopb/pb_decode.c:1078-1090 | Loss-free types, zeroed structure, every input and every pattern of realloc failures: failure leaves exactly the blocks live before, success adds exactly the owned ones. |
| HeapRuns.ReleaseEndsRun | uana_project/ios/Pods/nanopb/pb_decode.c:1255-1269 | After any sequence of decoding, merging and releasing one pb_release gives back everything allocated since the start; a second one frees nothing. Before it is decoded again, and when the type itself has a fixed-count array with pointers before it is merged into, the structure is to be released. |
| HeapRuns.AcceptedOver | uana_project/ios/Pods/nanopb/pb_decode.c:1078-1083 | An accepted input over a structure that owns blocks adds those of the result and frees none: all are accounted for if and only if the structure owned none. |
| HeapRuns.EmptyInputOver | uana_project/ios/Pods/nanopb/pb_decode.c:1078-1090 | The empty input over a structure none of whose pointers lies under a zero count, accepted or refused for a missing required field, does no harm and forgets exactly what default initialisation forgets. |
| HeapLeaks.EmbeddedHurts | uana_project/ios/Pods/nanopb/pb_decode.c:1519-1541 | Two records of an embedded structure whose first record loads a fixed-count array lose a block, or overwrite a pointer that is freed at the latest with the structure; from any such schema, position and encoding. |
| HeapLeaks.TwoArraysHurt | uana_project/ios/Pods/nanopb/pb_decode.c:995-1013 | Filling such an array, then another fixed-count array, then the first one again does the same. |
| HeapLeaks.NoinitReloads | uana_project/ios/Pods/nanopb/pb_decode.c:1078-1090 | So does merging a further element record into a structure that holds such an array. |
| HeapLeaks.AgainHurts | uana_project/ios/Pods/nanopb/pb_decode.c:1078-1090 | So does decoding again into a structure in which default initialisation, or the entries decoded after it, come upon a pointer. |
| HeapLeaks.RiskyHurts | uana_project/ios/Pods/nanopb/pb_decode.c:1078-1090 | From any message type that leads to a type at risk, the records built around such an encoding leave a block live that pb_release does not free, or make it free an overwritten pointer. |
| HeapLeaks.LossFreeIsExact | uana_project/ios/Pods/nanopb/pb_decode.c:1078-1090 | A type never leaks, for any input, heap and realloc failures, if and only if it is loss-free; the other direction wherever encodings to show it with exist, of the elements alone when the embedded structure has no required fields. |
| HeapLeaks.HarmFreeIsExact | uana_project/ios/Pods/nanopb/pb_decode.c:1078-1090 | A type never comes to harm if and only if it is harm-free, in the same sense. |
| LeakExamples.FixedCountLeaks | uana_project/ios/Pods/nanopb/pb_decode.c:995-1013 | A concrete schema: the holder of a fixed-count array with pointers never leaks on its own, and leaks as an optional submessage of another message. |
| LeakExamples.StoreHarms | uana_project/ios/Pods/nanopb/pb_decode.c:868-872 | A concrete schema: a fixed-count array of such holders comes to no harm on its own; as an optional submessage a second record with an empty holder makes pb_release free half a pointer. |
| LeakExamples.ForbiddenCallsHarm | uana_project/ios/Pods/nanopb/pb_decode.c:868-872 | Merging an empty holder into that array, and decoding into the holder again, are calls that are not allowed, and the release after them does the harm. |
| LeakExamples.RefusedFreesStale | uana_project/ios/Pods/nanopb/pb_decode.c:454-464 | A concrete refused input frees the block of an old array entry, because the count was raised before the entry was read. |
| HeapAgreement.DecodeAgrees | uana_project/ios/Pods/nanopb/pb_decode.c:1078-1090 | On message types without pointers, whatever else the schema holds, the allocating decoder and the static one accept the same inputs, consume the same bytes and build corresponding structures, and the heap is never touched. |
| HeapAgreement.LoopAgrees | uana_project/ios/Pods/nanopb/pb_decode.c:928-1024 | The same for the record loop from any corresponding state. |
| HeapAgreement.WipedSame | uana_project/ios/Pods/nanopb/pb_decode.c:868-872 | Both models of the zero count that is stored over contents agree, at every nesting depth. |
| HeapAgreement.DefaultsSame | uana_project/ios/Pods/nanopb/pb_decode.c:839-922 | Both models of default initialisation agree. |
| HeapAgreement.BufferMatches | uana_project/ios/Pods/nanopb/pb_decode.c:1441-1517 | With memory granted, a pointer string or byte array is accepted exactly like a static one of the largest size, and consumes the same bytes. |
| HeapAgreement.PackedPointersMatch | uana_project/ios/Pods/nanopb/pb_decode.c:601-655 | With memory granted, a packed pointer array accepts exactly the records a static array with room for them, or of the largest size, accepts, and counts the same number of elements. |
| HeapReads.DecodeReads | uana_project/ios/Pods/nanopb/pb_decode.c:1078-1090 | With memory granted, on any sound type, recursive ones included, pb_decode accepts and consumes exactly what it does when every pointer is replaced by the largest field of its kind (strings to 2^32 - 2 bytes, byte arrays to 2^32 - 1, arrays to 2^32 - 1 entries) and submessages behind pointers start anew; counts and which_ come out equal. The descriptor is unfolded as deep as the input is long. |
| HeapReads.AcceptedAlike | uana_project/ios/Pods/nanopb/pb_decode.c:1078-1090 | In particular for zeroed structures. |
| HeapReads.LoopReads | uana_project/ios/Pods/nanopb/pb_decode.c:928-1024 | The same for the record loop from any states that are alike. |
| HeapReads.FieldReads | uana_project/ios/Pods/nanopb/pb_decode.c:734-760 | The same for one record of any field: single and repeated strings, byte arrays, scalars and submessages, packed arrays, oneof members, fields in place. |
| HeapReads.SingleReads | uana_project/ios/Pods/nanopb/pb_decode.c:567-599 | A record of a single pointer. |
| HeapReads.AppendReads | uana_project/ios/Pods/nanopb/pb_decode.c:656-674 | A record of one entry of a pointer array. |
| HeapRecords.SingleRecord | uana_project/ios/Pods/nanopb/pb_decode.c:567-599 | An accepted record of a single pointer leaves a block of one byte more than the string, four more than the byte array, or the size of the entry, with one structure in it for a submessage; a oneof names this member. |
| HeapRecords.ElementRecord | uana_project/ios/Pods/nanopb/pb_decode.c:656-674 | An accepted record of one array element leaves the count and the entries larger by one, the old entries as they were, a block of count times the entry size, and a buffer of the right size for a string or byte array. |
| HeapRecords.PackedOnce | uana_project/ios/Pods/nanopb/pb_decode.c:601-655 | A packed record of n fixed-width numbers makes a fresh array with one allocation of exactly the size of the record. |
| GifSchedule.GifImage.Accumulate | uana_project/ios/Pods/SwiftyGif/SwiftyGif/NSImage+SwiftyGif 2.swift:224-227 | The in-place loop turns delays into end times: entry j becomes the sum of the first j + 1 delays. |
| GifSchedule.GifImage.CountLost | uana_project/ios/Pods/SwiftyGif/SwiftyGif/NSImage+SwiftyGif 2.swift:230-240 | The counting loop counts the frames whose position does not advance, the first one against 0. |
| GifSchedule.GifImage.FillOrder | uana_project/ios/Pods/SwiftyGif/SwiftyGif/NSImage+SwiftyGif 2.swift:246-257 | The two-index loop lists, for each tick, the first frame whose position has not been passed. |
| GifSchedule.GifImage.CalculateFrameDelay | uana_project/ios/Pods/SwiftyGif/SwiftyGif/NSImage+SwiftyGif 2.swift:209-263 | Chooses the first listed factor that loses few enough frames for the level, taken between 0 and 1, or the last, and stores its factor, tick count and schedule; for non-negative delays the schedule keeps time with that factor. |
| GifSchedule.FrameGetsItsTicks | uana_project/ios/Pods/SwiftyGif/SwiftyGif/NSImage+SwiftyGif 2.swift:246-257 | Frame j is shown for exactly pos[j] - pos[j-1] ticks. |
| GifSchedule.LostAreNeverShown | uana_project/ios/Pods/SwiftyGif/SwiftyGif/NSImage+SwiftyGif 2.swift:230-240 | The count of lost frames is the number of frames that appear nowhere in the schedule. |
| GifSchedule.PositionsAscend | uana_project/ios/Pods/SwiftyGif/SwiftyGif/NSImage+SwiftyGif 2.swift:224-231 | For non-negative delays the positions never go back. |
| GifSchedule.ScheduleKeepsTime | uana_project/ios/Pods/SwiftyGif/SwiftyGif/NSImage+SwiftyGif 2.swift:209-263 | For non-negative delays and the factor k, the number p of ticks that show frames 0 to j satisfies p * k <= 60 * (sum of the first j + 1 delays) < (p + 1) * k, for every j. |
| GifSchedule.FactorsAreDivisors | uana_project/ios/Pods/SwiftyGif/SwiftyGif/NSImage+SwiftyGif 2.swift:213-222 | The listed factors are exactly the divisors of 60. |
| GifSchedule.ScheduleGuarantee | uana_project/ios/Pods/SwiftyGif/SwiftyGif/NSImage+SwiftyGif 2.swift:209-263 | For non-negative delays the chosen factor is the largest listed one whose hidden frames are within (1 - level) * n, or 1; the schedule has imageCount entries, never goes back and shows each frame for its share. |

## Left out

- User callbacks, custom stream callbacks and extension fields (`decode_callback_field`, `decode_extension`, `encode_callback_field`, `read_raw_value`): arbitrary function pointers.
- Error message strings, the `PB_BUFFER_ONLY`, `PB_WITHOUT_64BIT`, AVR and old-callback variants, and the numbered duplicate copies of the same files.
- Raw memory: structures are typed slots that methods take and return as values, so aliasing of the destination, `void*` casts and padding are not captured. A union member that was not current starts from zeroed memory of its own type, where the C code leaves a scalar member's bytes as they were before it overwrites them.
- Fixed-count arrays of fewer than four bytes, into whose neighbours the zero count of default initialisation is stored as well; `Descriptor.WellFormedField` and `Ownership.SoundField` ask for at least four.
- The zero count clears bytes by the layout that the descriptor gives, little-endian, with counts and tags aligned to four bytes and pointers to eight (no `packed_struct` option). A pointer that loses its lower half is taken to be neither NULL nor the address of a live block.
- `|`, `<<` and `>>` are the arithmetic functions `BitOr`, `Shl` and `Shr`.
- Byte counts of a sizing stream are unbounded, where `size_t` would wrap after 2^64 bytes.
- Encodings of 2^32 bytes and more: the length prefix is read as a 32-bit varint, so the round trips are stated for shorter ones.
- The codec modules (`EncodeSpec`, `DecodeSpec`, `Encoder`, `Decoder`) are about static fields; pointer fields are modelled in the heap modules, where only what decides ownership, success and consumption of input is kept of an entry: round trips and validity are stated for static fields.
- Encoding of pointer fields.
- HeapDecoder.HeapDecode: decoding with allocation is a function on values, with the heap passed along; as methods on a heap object there are allocate_field, pb_release and the packed growth loop, where the C code loops.
- HeapReads.DecodeReads: says nothing of contents behind pointers and supposes that memory is granted. A submessage behind a pointer is released and started anew by each record, where one in place is merged into; `DecodeSpec.DecSub` has that rule for descriptors with pointers, which only this theorem uses.
- HeapRuns.AcceptedOver: excludes types that can contain a fixed-count array with pointers. Such an array keeps entries of the old value in the result, so that one block may count on both sides.
- HeapRuns.EmptyInputOver: excludes destinations with a pointer under a zero count; HeapLeaks.AgainHurts is what happens there.
- HeapLeaks.LossFreeIsExact: the other direction, here and in HeapLeaks.HarmFreeIsExact, needs an encoding that the embedded structure or the array elements accept and that sets the pointer concerned, and records whose lengths fit the 32-bit prefix; a type at risk without such messages cannot be hurt that way.
- The set of lost blocks in `HeapDecoder.Heap` is bookkeeping of the model: what default initialisation takes out of a structure. No decision depends on it.
- Merge.ConcatenationMerges: compares failing runs too, and excludes fixed-count fields for that; Merge.DecodeConcatenation has the exact condition for all descriptors.
- Validity.DecodedIsValid: asks that fixed-count arrays held valid entries before, since a message may leave them out altogether; Validity.UnreceivedStaysInvalid is the input that shows it is needed.
- A required field past the 64th is not tracked by the code; `Received.AcceptedExactly` says so.
- ImageIO parsing of images, associated objects and floating-point rounding around the frame scheduler; delays are real numbers and conversions to integers do not overflow.
- The rest of the application: Flutter plug-ins, DKPhotoGallery, GTMSessionFetcher, BoringSSL tables.
