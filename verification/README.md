# Pasteboard: a verified model of the data layer

A Dafny model of the clipboard service's data layer, with proofs. `dafny verify dfyconfig.toml`
checks everything. Each module is one file.

**The TLV codec.** A value is written as a 6-byte head (16-bit tag, 32-bit length, little-endian)
followed by its payload. `Wire` says which bytes stand for a value, byte by byte and with the numbers
of the format; `Tlv` defines the values, the types and the compositional encoding `Enc`, which `Wire`
proves to be that format and nothing else; `Bytes` the byte-order conversions; `Assoc` the sorted string
maps. `Writer` has the size counter and
the writer that works in place, reserves heads and patches their lengths; `ReaderSpec` and `Reader`
have the cursor-based reader with its nested limits and its recursion guard. `RoundTrip` proves that
reading undoes writing, `WireRead` what is read from the format's bytes, `Compat` that a successful read depends only on the bytes it consumes, that
unknown fields are ignored, and that the zero bytes left by over-counting are harmless; `Ends` says
where the read of a vector or a map ends; `Unreadable` and `Misread` are about values that can never be
read back, or only as something else. `PasteModel` lays out the paste data classes in this format,
`PasteCodec` proves what entries and records decode to, `Clipboard` what arrives when whole paste data
is transferred, `NullValues` when exactly an entry with null pointers inside comes back, `NullFirst`
what a null first entry does to a record for another device, `LooseData` when exactly whole paste data
with null pointers anywhere arrives, and `Remote` what the cross-device rewriting of the first entry
keeps.

**HTML images.** `Html` has the scanners for image tags and sources, the packing of offsets and the
replacement of URIs; `ImageSources` says which sources a document has, by its bytes alone, and that the
scanners find exactly these; `Web` what splitting and merging compute on lists of records; `WebGroup` and
`WebRoundTrip` prove that split, refresh and merge is a simultaneous substitution, and
`WebController` has the loops.

**Record containers.** `RecordList` (records, mime types and ids of a PasteData), `RecordEntries`
(the entries of a record as an ordered map, and `Builder::Build`), `UriPermission` (the batched
authorization check).

**State machines and file copy.** `EventQueue` (nested deferred events), `ServiceLoader` (loading the
service from many threads), `CopyFile` (the copy loop and its progress).

Where the code and the prose around it differ, the model follows the code. Facts about the code that
the proofs bring out:

- A null Want, PixelMap or Object inside a variant is written without a head, and the reader takes
  the next head for it. One entry whose own value is null makes the whole clipboard undecodable
  (unless it is the first of a record sent to another device, whose value travels elsewhere), and one
  null anywhere inside an entry means that the clipboard decodes to something else, if at all. A
  single entry comes back as itself iff it holds no null, or its only null is a Want or PixelMap at
  its very end and a head of the zero tail is left for it; a null Object never comes back, and there
  becomes an empty one.
- A record sent to another device whose first entry is a null Want or PixelMap arrives without any
  entry: the null takes the field with all the others for its own.
- A variant reports success as soon as its head and index fit, even when its alternative did not.
- A hyperlink given as a bare string loses its content when it is sent to another device; every other
  typed first entry with content keeps it.
- Sending a typed pixel map object that has no pixel map inserts an empty one, at the sender and at
  the receiver.
- A second trip between devices is the identity except for the type enum of a record whose first
  entry is of a file kind other than a plain file URI.
- A structure ends exactly where its length says. A vector or a map ends at the first boundary at or
  behind it: exactly there iff a walk over the heads and the variant indices alone leads there.
- A drain dispatches the first hundred accepted events and drops every one after them.
- A copied record loses its URI when its first URI entry is not of a file kind.
- The copy loop reports only the result of the last copy it tried.
- After a load that timed out, a second load may begin while the first is still going on. Unless a
  success is reported, this is the only way: the first load's thread must have given up its wait.

## Model

| member | source | states |
|---|---|---|
| `Bytes.ConvertDouble` | framework/tlv/endian_converter.h:113-128 | the byte-reversing loop of a double is its own inverse |
| `Bytes.UnLeOfLe` | framework/tlv/endian_converter.h:29-62 | the integer read from little-endian bytes is the one written |
| `Writer.Count` | framework/tlv/tlv_countable.h:29-193 | the counted size is the size of the encoding plus 6 for every non-null shared Want or PixelMap in it |
| `Writer.CountFields` | framework/innerkits/src/paste_data.cpp:648-663 | the same for the fields of a structure |
| `Writer.WriteOnlyBuffer.WriteHead` | framework/tlv/tlv_writeable.h:102-110 | back-patching writes tag and length over a reserved head and nothing else |
| `Writer.WriteOnlyBuffer.Write` | framework/tlv/tlv_writeable.cpp:56-305 | the buffer after a write is the buffer before it plus what Put says for the room left; every byte behind the cursor stays zero |
| `Writer.WriteOnlyBuffer.WriteComposite` | framework/tlv/tlv_writeable.cpp:162-305 | reserve, write the parts, patch the head: tag and length are those of exactly the bytes written |
| `Writer.PutFits` | framework/tlv/tlv_writeable.h:47-68 | with room for the encoding the in-place writer never fails and leaves the recursive head ++ payload |
| `Writer.WriteIsExact` | framework/tlv/tlv_writeable.h:112-128 | it leaves the whole encoding and reports success if and only if the room suffices |
| `Writer.VariantHidesFailure` | framework/tlv/tlv_writeable.cpp:217-255 | a variant write succeeds iff its head and index fit; if the alternative does not fit, it succeeds with something that is not the encoding |
| `Writer.Encode` | framework/tlv/tlv_writeable.cpp:31-39 | with the counted capacity nothing fails; the buffer is the encoding, which is the wire format of the fields byte by byte, followed by 6 zero bytes per shared Want or PixelMap |
| `Wire.EncStands` | framework/tlv/tlv_writeable.h:102-128 | bytes are the encoding of a value exactly when they stand for it in the wire format: a little-endian head with the tag and the length, a bool as 0 or 1, integers little-endian in two's complement, a double most significant byte first, items under tag 0, keys under 1, a variant's index under 4 and its alternative under 5, field i under 0x101 + i |
| `ReaderSpec.Read` | framework/tlv/tlv_readable.cpp:29-292 | on every byte string, a successful read ends between its start and the limit |
| `ReaderSpec.ReadFields` | framework/tlv/tlv_readable.cpp:108-117 | a successful structure ends exactly at its limit |
| `Reader.ReadOnlyBuffer.Skip` | framework/tlv/tlv_buffer.h:58-65 | skips within the limit or leaves the cursor alone |
| `Reader.ReadOnlyBuffer.ReadHead` | framework/tlv/tlv_readable.cpp:29-38 | a head is consumed iff six bytes are left; its tag and length are little-endian |
| `Reader.ReadOnlyBuffer.ReadValue` | framework/tlv/tlv_readable.cpp:40-292 | for any bytes and any type: the cursor stays within total_ and total_ within the data, total_ and the depth are restored on success and failure, and result and cursor are those of Read |
| `Reader.ReadOnlyBuffer.ReadPointer` | framework/tlv/tlv_readable.h:71-83 | one recursion guard, given back whatever happens |
| `Reader.ReadOnlyBuffer.ReadVector` | framework/tlv/tlv_readable.h:43-69 | one guard, items until the declared end, state restored |
| `Reader.ReadOnlyBuffer.ReadMap` | framework/tlv/tlv_readable.cpp:129-152 | pairs until the declared end; an Object takes a guard (lines 238-266); state restored |
| `Reader.ReadOnlyBuffer.ReadVariantValue` | framework/tlv/tlv_readable.cpp:181-209 | index, head and alternative; an unknown index reads nothing more |
| `Reader.ReadOnlyBuffer.ReadStruct` | framework/tlv/tlv_readable.cpp:108-117 | total_ is narrowed and restored, and a success consumes exactly the declared length |
| `ReaderSpec.ReadField` | framework/innerkits/src/paste_data.cpp:611-646 | one turn of a decode loop consumes at least a head and stays within the limit |
| `Reader.ReadOnlyBuffer.DecodeTLV` | framework/innerkits/src/paste_data.cpp:611-646 | the loop over fields terminates on every byte string, and ends exactly at total_ on success |
| `Reader.DecodeBuffer` | framework/tlv/tlv_readable.cpp:23-27 | decoding a buffer into a fresh object is the function Decode |
| `WireRead.WireDecodes` | framework/tlv/tlv_readable.cpp:23-27 | a buffer whose fields stand in the wire format, in any write order and with zero heads behind, decodes to their normal forms, or fails for want of guards |
| `WireRead.BoolRead` | framework/tlv/tlv_readable.h:121-140 | from any bytes a bool is read exactly when the length is 1 and the byte is 0 or 1 |
| `WireRead.Int32Read` | framework/tlv/tlv_readable.h:142-158 | an int32 exactly when the length is 4, as the two's complement little-endian number that stands there |
| `WireRead.Int64Read` | framework/tlv/tlv_readable.h:142-158 | an int64 exactly when the length is 8 |
| `WireRead.Uint32Read` | framework/tlv/tlv_readable.h:142-158 | a uint32 exactly when the length is 4 |
| `WireRead.DoubleRead` | framework/tlv/endian_converter.h:113-128 | a double exactly when the length is 8, its host bytes in the opposite order |
| `WireRead.BytesRead` | framework/tlv/tlv_readable.cpp:90-128 | strings are appended, byte vectors and opaque values take the place of what was there, an empty opaque value is none |
| `WireRead.IndexNamesType` | framework/tlv/tlv_readable.cpp:181-236 | the index a variant of an entry or of details is written with is told by its value |
| `RoundTrip.ReadBack` | framework/tlv/tlv_readable.h:43-83 | for every well-typed value, reading its payload gives its normal form with the cursor right behind it, or fails, and it fails iff the value needs more than the guards left |
| `RoundTrip.ReadFieldsBack` | framework/innerkits/src/paste_data_record.cpp:527-590 | fields written in any order are read back, null ones staying null |
| `Compat.MoveRead` | framework/tlv/tlv_readable.cpp:29-292 | a successful read gives the same value wherever its bytes stand and whatever follows them |
| `Compat.UnknownFieldIsIgnored` | framework/innerkits/src/paste_data.cpp:611-646 | inserting a complete field with an unknown tag at any field boundary of a decodable buffer changes nothing |
| `Compat.ZeroTailIsIgnored` | framework/tlv/tlv_countable.h:125-141 | 6k zero bytes behind a decodable buffer decode as k empty unknown fields |
| `Compat.DecodeOfEncoded` | framework/tlv/tlv_writeable.cpp:31-39 | decoding what Encode wrote, zero tail included, gives every field's normal form, or fails exactly when ten guards are too few |
| `Ends.VectorEndsIff` | framework/tlv/tlv_readable.h:43-69 | every successful read of a vector ends where a walk from head to head first reaches or passes its declared end, so it ends exactly there iff the heads lead there; this covers every item type the paste data uses |
| `Ends.MapEndsIff` | framework/tlv/tlv_readable.cpp:129-266 | the same for the byte map, Details and Object: two heads a pair, the end tested between pairs, a variant 10 bytes for an unknown index and else 16 plus its alternative, nested Objects walked in turn |
| `Ends.VectorMayPassItsEnd` | framework/tlv/tlv_readable.h:43-69 | an input where it does not: a vector of declared length 1 that takes 6 bytes |
| `Ends.MapMayPassItsEnd` | framework/tlv/tlv_readable.cpp:129-152 | a map of declared length 1 that takes 12 bytes |
| `Unreadable.StructIsUnreadable` | framework/tlv/tlv_readable.cpp:108-117 | a structure with an unreadable field behind well-typed ones can never be read, wherever it stands |
| `PasteModel.RecordOrderIsPermutation` | framework/innerkits/src/paste_data_record.cpp:468-520 | the local and the remote encoder each write all 19 fields once |
| `PasteModel.RecordFieldsInverse` | framework/innerkits/src/paste_data_record.cpp:527-579 | a record is recovered from its fields |
| `PasteModel.PasteDataInverse` | framework/innerkits/src/paste_data.cpp:595-646 | every attribute of the data, of its property and of its records is recovered from the fields |
| `PasteModel.PropertyPositions` | framework/innerkits/src/paste_data.cpp:774-788 | which attribute of the property is written under which tag, one by one |
| `PasteModel.PastePositions` | framework/innerkits/src/paste_data.cpp:595-609 | the same for the data |
| `PasteModel.RecordPositions` | framework/innerkits/src/paste_data_record.cpp:468-490 | the same for a record: want and uri as raw memory, optional text as a pointer |
| `PasteCodec.ClassesAreGood` | framework/innerkits/src/paste_data_entry.cpp:140-164 | fresh paste data objects hold nothing that a read would append to |
| `PasteCodec.NestingCostsTwo` | framework/tlv/tlv_utils.h:55-75 | every level of Object nesting costs two of the ten guards |
| `Clipboard.PasteDataArrives` | framework/innerkits/src/paste_data.cpp:595-646 | local or remote, encoded paste data decodes iff no entry that is sent has a null value and none nests objects more than three deep; the attributes read off the result are then those of the received data, all 21 of them and every record |
| `Clipboard.NullRecordIsUnreadable` | framework/innerkits/src/paste_data_record.cpp:468-520 | one entry with a null value makes its record unreadable |
| `Clipboard.SentValueIsOk` | framework/innerkits/src/paste_data_entry.cpp:252-283 | the value written for another device, with the pixel map that the conversion may insert, is well typed and nests no deeper |
| `PasteCodec.EntryArrives` | framework/innerkits/src/paste_data_entry.cpp:132-164 | a single entry without null pointers in variants decodes to itself iff it nests at most five deep |
| `PasteCodec.NullAlternativeIsLost` | framework/tlv/tlv_writeable.cpp:236-255 | an entry whose own value is a null Want, PixelMap or Object never decodes |
| `NullValues.EntryComesBack` | framework/tlv/tlv_readable.cpp:195-209 | for every entry that is well typed up to null pointers and every tail: it decodes to itself iff it nests at most five deep and holds no null, or has its only one, a Want or PixelMap, at its very end with a head of the tail behind it |
| `NullValues.EntryComesBackAlone` | framework/innerkits/src/paste_data_entry.cpp:132-164 | without a tail: iff it holds no null pointer and nests at most five deep |
| `NullValues.NullAtEndArrives` | framework/tlv/tlv_readable.cpp:238-266 | with a tail, an entry whose only null is at its end decodes with that null taken from a blank head: a null Object comes back empty |
| `NullValues.WantLendsItsTail` | framework/tlv/tlv_countable.h:125-141 | what Encode leaves for an Object of a Want and a null behind it: the bytes over-counted for the Want serve as the missing head |
| `NullValues.NextFieldIsTaken` | framework/tlv/tlv_readable.cpp:195-209 | a null Want or PixelMap takes the next field, whatever it is, for its own |
| `NullValues.NoBytesGiveNullObject` | framework/tlv/tlv_readable.h:71-83 | no byte string at all decodes to an entry with a null Object pointer in it |
| `Clipboard.LocalRecordArrives` | framework/innerkits/src/paste_data_record.cpp:581-606 | a local record arrives without its null entries, its empty mime type filled from the first one left |
| `Clipboard.LocalDataArrives` | framework/innerkits/src/paste_data.cpp:595-663 | for all data without legacy fields: every encoded attribute comes back, null records and entries dropped and empty mime types filled, or nothing decodes |
| `Clipboard.LocalRoundTrip` | framework/innerkits/src/paste_data.cpp:595-663 | on data without null pointers and with all mime types set the attributes read back are the data itself |
| `LooseData.LooseDataArrives` | framework/innerkits/src/paste_data.cpp:595-646 | for all data whose entries may hold null pointers at any depth, and every tail: the attributes read back are the received data iff no entry that is sent holds a null pointer, no null first entry for another device has others behind it, and nothing nests more than three deep |
| `LooseData.RecordIsMisread` | framework/innerkits/src/paste_data_record.cpp:468-520 | a record with a null pointer anywhere in an entry, wherever the record stands: it is read as another record with the reader right behind it, or not at all |
| `NullFirst.NullFirstLosesOthers` | framework/innerkits/src/paste_data_record.cpp:492-520 | a record for another device whose first entry is a null Want or PixelMap is read as the record without any entry, wherever it stands, and that is the received record iff no other entry is sent |
| `LooseData.Transfer` | framework/innerkits/src/pasteboard_client.cpp:731-744 | count, cap, encode in place, decode, read the attributes: no write fails; too large iff over the cap, and the received data is delivered iff size, nesting and null pointers allow it; with nulls only as whole values, everything else is undecodable |
| `LooseData.DecodedReads` | framework/innerkits/src/paste_data.cpp:611-646 | whatever bytes decode as clipboard data, every attribute can be read off the result |
| `LooseData.FreshData` | framework/innerkits/src/paste_data.cpp:611-646 | no bytes decode to a fresh object: user -1, share option across devices, all else empty |
| `Remote.LegacyFieldsAre` | framework/innerkits/src/paste_data_record.cpp:717-757 | which legacy fields a first entry is written in for a receiver that knows no entries, for each mime type, and what text or pixel map is in them |
| `Remote.RebuiltFromLegacy` | framework/innerkits/src/paste_data_record.cpp:667-715 | what entry is rebuilt from legacy fields alone, as an older sender leaves them, and exactly when none is |
| `Remote.CustomDataIs` | framework/innerkits/src/paste_data_entry.cpp:285-313 | the custom data of an entry: a byte vector under the mime type, or the buffer of a typed Object under the type identifier |
| `Remote.NamedTypesMatch` | framework/innerkits/src/paste_data_entry.cpp:403-446 | the named types and their mime types name each other, six kinds of file sharing one |
| `Remote.FirstEntryArrives` | framework/innerkits/src/paste_data_record.cpp:667-757 | the first entry keeps its mime type and normalised type, and keeps its content iff it is not a hyperlink given as a bare string |
| `Remote.BareHyperlinkIsLost` | framework/innerkits/src/paste_data_record.cpp:690-693 | a hyperlink given as a bare non-empty string arrives as a hyperlink with no text |
| `Remote.RemoteRecordArrives` | framework/innerkits/src/paste_data_record.cpp:492-520 | across devices the first entry is rebuilt and every other entry is identical, null ones dropped |
| `Remote.RemoteDataArrives` | framework/innerkits/src/paste_data.cpp:595-663 | whole paste data encoded for another device decodes, zero tail included, to the same data with every record's first entry rebuilt, iff nothing null is sent and nothing nests too deep |
| `Remote.PixelMapIsInserted` | framework/innerkits/src/paste_data_entry.cpp:277-277 | a typed pixel map object without a pixel map arrives with an empty one |
| `Remote.RebuiltIsStable` | framework/innerkits/src/paste_data_record.cpp:667-715 | a rebuilt entry is rebuilt as itself |
| `Remote.SecondTrip` | framework/innerkits/src/paste_data_record.cpp:592-606 | a second remote trip of a record changes at most its type enum, and changes nothing iff the first entry was not of another file kind |
| `Remote.SecondDataTrip` | framework/innerkits/src/paste_data.cpp:595-663 | whole paste data sent on to a third device decodes to the data that arrived first, up to those type enums |
| `Html.Search` | framework/innerkits/src/pasteboard_web_controller.cpp:416-416 | the leftmost match of a pattern, or proof that there is none |
| `ImageSources.SitesAreExact` | framework/innerkits/src/pasteboard_web_controller.cpp:406-451 | for every document: an image source is found exactly when its bytes stand there, in a tag and a source that do not begin inside an earlier one, with a quote of either kind, and the URI begins with file:/// or has no :// |
| `ImageSources.ImgMatches` | framework/innerkits/src/pasteboard_web_controller.cpp:29-29 | the tag pattern matches exactly its texts |
| `ImageSources.SrcMatches` | framework/innerkits/src/pasteboard_web_controller.cpp:30-30 | the source pattern, with either quote, matches exactly its texts |
| `Html.SitesAreSound` | framework/innerkits/src/pasteboard_web_controller.cpp:406-451 | every recorded offset is an occurrence of its URI before a quote, and the occurrences are disjoint and in order, for documents shorter than 2^32 |
| `Html.PackedOffsets` | framework/innerkits/src/pasteboard_web_controller.cpp:445-447 | per URI, packing four bytes per offset and unpacking gives back exactly its offsets, in order |
| `Html.ReplacedIsSubstituted` | framework/innerkits/src/pasteboard_web_controller.cpp:539-545 | replacing in descending offset order is replacing everywhere at once |
| `Html.SubstitutedBySame` | framework/innerkits/src/pasteboard_web_controller.cpp:539-545 | replacing every URI by itself gives the same document |
| `WebGroup.ItemOffsets` | framework/innerkits/src/pasteboard_web_controller.cpp:358-370 | an item that survives the validity filter holds exactly the offsets of its URI |
| `WebGroup.SplitOffIs` | framework/innerkits/src/pasteboard_web_controller.cpp:372-393 | an offset is split off under a URI exactly when the extractor returns the URI and a source with it stands there in the document |
| `Web.ExtraHolds` | framework/innerkits/src/pasteboard_web_controller.cpp:453-470 | an extra record holds the URI as its one entry, its offsets as custom data, and where it comes from |
| `Web.CustomIsFirst` | framework/innerkits/src/paste_data_record.cpp:427-449 | custom data under a key: the record's own, else that of the first entry named by its type |
| `Web.RefreshedInto` | framework/innerkits/src/pasteboard_web_controller.cpp:214-242 | a refreshed URI goes into the converted URI if it names a distributed file, and else into the URI entry |
| `WebGroup.ExtractedGroup` | framework/innerkits/src/pasteboard_web_controller.cpp:579-619 | a group yields its document and a map that holds only wanted replacements and all that its records bring |
| `WebRoundTrip.GroupContent` | framework/innerkits/src/pasteboard_web_controller.cpp:552-619 | what is gathered for a split record is itself, its document and exactly its replacements |
| `WebRoundTrip.RemoveExtrasIsFilter` | framework/innerkits/src/pasteboard_web_controller.cpp:472-485 | with distinct ids, removal by id removes exactly the extra records |
| `WebRoundTrip.WithHtmlReads` | framework/innerkits/src/pasteboard_web_controller.cpp:504-528 | an updated record reads back the new document |
| `WebRoundTrip.SplitThenMerge` | framework/innerkits/src/pasteboard_web_controller.cpp:396-404 | for any extractor, any new URIs and either insertion order: the original records in order, every recorded source substituted, no extra record left |
| `WebRoundTrip.SplitThenMergeIsIdentity` | framework/innerkits/src/pasteboard_web_controller.cpp:504-577 | with unchanged URIs split and rebuild is the identity |
| `WebController.SplitHtmlWithImgLabel` | framework/innerkits/src/pasteboard_web_controller.cpp:406-423 | the tag loop finds the tags of Tags |
| `WebController.AppendOffset` | framework/innerkits/src/pasteboard_web_controller.cpp:445-447 | the four-byte loop appends the little-endian offset |
| `WebController.SplitHtmlWithImgSrcLabel` | framework/innerkits/src/pasteboard_web_controller.cpp:425-451 | the nested source loops pack exactly the sites of the tags |
| `WebController.RemoveInvalidImgSrc` | framework/innerkits/src/pasteboard_web_controller.cpp:358-370 | erasing while walking keeps exactly the valid items |
| `WebController.SplitWebviewPasteData` | framework/innerkits/src/pasteboard_web_controller.cpp:63-98 | originals marked, extras added with fresh ids in the service's or the client's order, mime types kept in step, the tag set iff something was split |
| `WebController.GroupRecordWithFrom` | framework/innerkits/src/pasteboard_web_controller.cpp:552-566 | the groups are the records by origin, in order, without origin 0 |
| `WebController.ExtractContent` | framework/innerkits/src/pasteboard_web_controller.cpp:579-619 | the nested loops collect the document and the offset map |
| `WebController.ReplaceUris` | framework/innerkits/src/pasteboard_web_controller.cpp:539-545 | the loop over the descending map is Replaced |
| `WebController.MergeGroups` | framework/innerkits/src/pasteboard_web_controller.cpp:396-402 | the groups are independent: any order merges each record by its own group |
| `WebController.RemoveExtraUris` | framework/innerkits/src/pasteboard_web_controller.cpp:568-577 | removal while a snapshot is walked |
| `WebController.RebuildWebviewPasteData` | framework/innerkits/src/pasteboard_web_controller.cpp:338-356 | refresh, merge and remove iff the data is tagged; nothing changes when no record was split |
| `WebController.SplitThenRebuild` | framework/innerkits/src/pasteboard_web_controller.cpp:63-98 | both methods one after the other give the substituted originals, and the originals themselves when no URI moved |
| `RecordList.RunKeepsPaired` | framework/innerkits/src/paste_data.cpp:394-427 | over every run of the list operations the mime types are those of the records, one by one |
| `RecordList.RunKeepsNumbered` | framework/innerkits/src/paste_data.cpp:176-188 | over every run of additions and removals ids stay distinct, positive and up to the counter |
| `RecordList.CounterWraps` | framework/innerkits/src/paste_data.cpp:179-179 | the bound is sharp: at the end of the 32-bit counter the next record gets id 0 |
| `RecordList.StepEdits` | framework/innerkits/src/paste_data.cpp:176-427 | what every operation does to the records, position by position, and to the counter |
| `RecordList.PasteList.AddRecord` | framework/innerkits/src/paste_data.cpp:176-188 | a null record is refused; else a fresh id, at the back in the service and at the front in a client |
| `RecordList.PasteList.RemoveRecordAt` | framework/innerkits/src/paste_data.cpp:394-403 | one record goes and the mime types follow |
| `RecordList.PasteList.ReplaceRecordAt` | framework/innerkits/src/paste_data.cpp:415-427 | one record is replaced and the mime types follow |
| `RecordList.PasteList.RemoveEmptyEntry` | framework/innerkits/src/paste_data.cpp:405-413 | every record loses its empty entries and the mime types follow |
| `RecordList.RemoveEmptyEntries` | framework/innerkits/src/paste_data_record.cpp:878-893 | erasing while walking keeps exactly the entries with a value, in order |
| `RecordList.FilledOne` | framework/innerkits/src/paste_data_record.cpp:878-893 | an entry stays exactly when it is there and its value is not monostate |
| `RecordEntries.AddEntryIsOrderedMap` | framework/innerkits/src/paste_data_record.cpp:934-962 | over every run of additions: each key once, in order of first use, with its latest entry |
| `RecordEntries.TypesAreDistinct` | framework/innerkits/src/paste_data_record.cpp:943-954 | type identifiers stay pairwise distinct and there is at most one URI |
| `RecordEntries.FirstEntryDecides` | framework/innerkits/src/paste_data_record.cpp:934-962 | over every run the type enum is that of the first entry ever added, or the one for applications' own types |
| `RecordEntries.BuildAfterRun` | framework/innerkits/src/paste_data_record.cpp:117-137 | Build after any run of AddEntry keeps exactly the run's entries, each key with its latest, those of the record's type first, each part in order of first use |
| `RecordEntries.PasteRecord.AddEntry` | framework/innerkits/src/paste_data_record.cpp:934-962 | the loop replaces in place or appends; the first entry sets the type enum |
| `RecordEntries.Build` | framework/innerkits/src/paste_data_record.cpp:117-137 | the two passes add the matching entries and then the others |
| `UriPermission.BatchesPartition` | framework/innerkits/src/pasteboard_web_controller.cpp:142-159 | the batches are the list in order, each of 10000 but the last, none empty |
| `UriPermission.AnswerAt` | framework/innerkits/src/pasteboard_web_controller.cpp:147-159 | when every reply is as long as its batch, answer i is the one given for URI i |
| `UriPermission.BatchedEqualsUnbatched` | framework/innerkits/src/pasteboard_web_controller.cpp:147-159 | for a service that answers each URI by itself, batching makes no difference |
| `UriPermission.AppliedAt` | framework/innerkits/src/pasteboard_web_controller.cpp:166-188 | answer k reaches the record of URI k: permission 1 for reading, 3 for reading and writing if permissions persist, and without reading the permission stays |
| `UriPermission.AppliedElsewhere` | framework/innerkits/src/pasteboard_web_controller.cpp:166-173 | a record that is not asked about does not change |
| `UriPermission.BrokerIsGranted` | framework/innerkits/src/pasteboard_web_controller.cpp:190-211 | a call by the broker grants every record with a URI at once, for writing too if permissions persist |
| `UriPermission.CheckedOneByOne` | framework/innerkits/src/pasteboard_web_controller.cpp:127-188 | the whole call gives every record with a URI its own answers |
| `UriPermission.Collect` | framework/innerkits/src/pasteboard_web_controller.cpp:147-159 | the batch loop collects the answers of all batches in order |
| `UriPermission.CheckedList.CheckAppUriPermission` | framework/innerkits/src/pasteboard_web_controller.cpp:127-175 | the broker's records are granted at once; otherwise nothing changes if either number of answers differs, and else each answer is applied |
| `EventQueue.PerformKeeps` | framework/framework/eventcenter/event_center.cpp:65-96 | whatever a callback posts or nests, nothing is dispatched inside it, accepted events stay in order and no queued event equals an earlier one with its id |
| `EventQueue.PerformDoes` | framework/framework/eventcenter/event_center.cpp:65-138 | what a script does is its posts and its scopes alone: the new events are its posts in order without repetitions, and an id keeps its handler or gets that of the first scope that names it |
| `EventQueue.NothingIsLost` | framework/framework/eventcenter/event_center.cpp:119-128 | every event a script posts, at any depth, is in the queue afterwards, itself or as an equal one |
| `EventQueue.DrainedKeeps` | framework/framework/eventcenter/event_center.cpp:97-112 | first in first out, one dispatch each, at most 100, and the drain stops early only when the queue is empty |
| `EventQueue.TurnDoes` | framework/framework/eventcenter/event_center.cpp:97-112 | one turn of the drain: the front event is served by the handler there after its observers have run, what all callbacks posted joins the queue, and the front event leaves |
| `EventQueue.OutermostScope` | framework/framework/eventcenter/event_center.cpp:65-112 | for all callbacks: exactly the first hundred accepted events are dispatched, in order and once each; they begin with what the body posts, without repetitions; observers in order, then the handler of the first scope, nested or opened by a callback, that has named the id by then, or none; the queue is gone |
| `EventQueue.OverflowIsDropped` | framework/framework/eventcenter/event_center.cpp:98-98 | a body that posts more than a hundred different events: exactly the first hundred are dispatched |
| `EventQueue.EventCenter.PostEvent` | framework/framework/eventcenter/event_center.cpp:119-128 | posting appends unless an equal event with the same id is queued |
| `EventQueue.EventCenter.RunScript` | framework/framework/eventcenter/event_center.cpp:41-53 | what a body does while a scope is open |
| `EventQueue.EventCenter.CloseScope` | framework/framework/eventcenter/event_center.cpp:75-112 | an inner scope only counts; the outermost drains and deletes the queue |
| `EventQueue.EventCenter.DispatchFront` | framework/framework/eventcenter/event_center.cpp:98-109 | observers, then the handler looked up afterwards, then the event leaves |
| `ServiceLoader.SingleLoader` | framework/innerkits/src/pasteboard_service_loader.cpp:89-129 | in every reachable state of any number of threads, the flag is set iff exactly one thread waits as the loader, and loads begin and end in turn |
| `ServiceLoader.NoSecondLoad` | framework/innerkits/src/pasteboard_service_loader.cpp:95-125 | while a thread waits as the loader nobody begins another load and only that thread ends the wait; after a timed-out wait the manager's own load may still be going on |
| `ServiceLoader.LoadBeginsIff` | framework/innerkits/src/pasteboard_service_loader.cpp:89-121 | in every run, a step begins a load iff a thread calls while there is no proxy and nobody waits as the loader, and the manager takes the load |
| `ServiceLoader.SecondLoadNeedsTimeout` | framework/innerkits/src/pasteboard_service_loader.cpp:119-126 | in every run, a load begun after another with no success reported in between begins only after the first one's thread has ended its wait with a null result |
| `ServiceLoader.TimedOutLoadIsForgotten` | framework/innerkits/src/pasteboard_service_loader.cpp:119-126 | a run in which a second load begins though the manager never answered the first |
| `ServiceLoader.ResultIsCurrent` | framework/innerkits/src/pasteboard_service_loader.cpp:89-129 | in every run, every result, null or not, is the proxy at the moment of return; where the proxy comes from is ProxyHasOrigin |
| `ServiceLoader.ProxyHasOrigin` | framework/innerkits/src/pasteboard_service_loader.cpp:163-300 | in every run, the proxy is p exactly when some step brought p, a load's success or a caller that found it running, and no failed load, death, clear or other success came since: after a death there is none until the next is brought |
| `ServiceLoader.ResultHasOrigin` | framework/innerkits/src/pasteboard_service_loader.cpp:89-129 | in every run, a result that is not null was brought by a step up to its own and has been held since then |
| `ServiceLoader.StepMovesOne` | framework/innerkits/src/pasteboard_service_loader.cpp:89-129 | in every run, a step moves only its own thread: a caller goes by the proxy, the waiting loader and the manager's answer, and a wait ends with the proxy |
| `ServiceLoader.NullHasReason` | framework/innerkits/src/pasteboard_service_loader.cpp:104-126 | a null result means no proxy, and a manager failure on entry with nobody loading or a wait that ran out |
| `ServiceLoader.FollowersBeginNoLoad` | framework/innerkits/src/pasteboard_service_loader.cpp:95-102 | a thread that waits as a follower begins no load |
| `ServiceLoader.Loader.EnterService` | framework/innerkits/src/pasteboard_service_loader.cpp:89-121 | what is returned is the proxy; a wait means there is none; the flag is set by the loader's wait only, entered when it was clear and the manager took the load; a proxy appears only from a running, accepted service |
| `ServiceLoader.Process.Take` | framework/innerkits/src/pasteboard_service_loader.cpp:89-145 | the code under the lock takes exactly the steps of the state machine and keeps its invariant |
| `CopyFile.CopyIsFilter` | framework/innerkits/src/pasteboard_copy.cpp:170-220 | with a cancellation that stays, nothing is left from the record on where it is seen, and before it every record goes by its own turn, in order |
| `CopyFile.OutcomeCases` | framework/innerkits/src/pasteboard_copy.cpp:222-241 | exactly which records are dropped; one that was not copied is unchanged; a copied one has no converted URI, and has the destination as its URI iff its URI entry, if any, is of a file kind |
| `CopyFile.CopiedUriIsLost` | framework/innerkits/src/pasteboard_copy.cpp:222-241 | a record copied from its converted URI whose URI entry is of another type has no URI afterwards |
| `CopyFile.LastCopyDecides` | framework/innerkits/src/pasteboard_copy.cpp:211-219 | the return value is that of the last copy tried |
| `CopyFile.CodeIsFine` | framework/innerkits/src/pasteboard_copy.cpp:216-241 | the return value is E_OK exactly when no file was copied, or the last copy returned 0, E_OK or the 204 of a cancellation, or failed uncancelled for a web extra |
| `CopyFile.ScaledIs` | framework/innerkits/src/pasteboard_copy.cpp:80-85 | a percentage p is reported as 20 + 4p/5 |
| `CopyFile.OneNotice` | framework/innerkits/src/pasteboard_copy.cpp:243-287 | one report that is not muted is one notice, 20 and four fifths of the whole progress |
| `CopyFile.NoticesJoin` | framework/innerkits/src/pasteboard_copy.cpp:170-220 | the notices of a list are those of its records, one after the other |
| `CopyFile.CopyNeverGoesBack` | framework/innerkits/src/pasteboard_copy.cpp:243-287 | over all files the copy phase's values never go back |
| `CopyFile.ProgressNeverGoesBack` | framework/innerkits/src/pasteboard_client.cpp:401-427 | smoothing, copy and end together never go back and stay within 0 and 100, from 20 on in the copy phase |
| `CopyFile.CopyFileData` | framework/innerkits/src/pasteboard_copy.cpp:170-220 | the index loop that removes in place leaves the filtered records, the last return value and all notices |
| `CopyFile.CopyPasteData` | framework/innerkits/src/pasteboard_copy.cpp:289-306 | an empty list is refused without a notice; every other call ends by reporting 100 |
| `CopyFile.ProgressSmoothToTwentyPercent` | framework/innerkits/src/pasteboard_client.cpp:401-427 | the smoothing loop, whatever the clock and a cancellation do |
| `CopyFile.SmoothedIs` | framework/innerkits/src/pasteboard_client.cpp:401-427 | five at every early tick up to 20; the first other tick ends it, with 20 or 100 if the data has come |

## Left out

- Want, WantParams, PixelMap and Uri: opaque non-empty byte strings with their marshalling as an inverse; failures of their own encoders and of memcpy_s are not modelled.
- The table of uniform data types: only the types the code names, with distinct numbers standing in for the library's enum values.
- Fields that are not encoded (appIndex, valid_, textSize_, originAuthority_, rawDataSize_, isConvertUriFromRemote, entryGetter_); uriPermission_ appears only in UriPermission.
- Objects left half decoded by a failed decode: a failure has no value here.
- Hosts that are not little-endian, and buffers of 2^32 bytes or more: the client caps sizes at 2^31, and the 32-bit argument of HasExpectBuffer is not truncated below that.
- Clearing the remote flag after encoding, IPC, shared memory and file descriptors.
- Delayed entries: GetEntry never fetches; records in a list are never null, because AddRecord and ReplaceRecordAt refuse null and decoding makes none.
- The image extractor and the file system: arbitrary functions; SetWebviewPasteData, RetainUri and RemoveInvalidUri are not modelled.
- WebRoundTrip.SplitThenMerge: asks for records that are not split yet, distinct positive ids up to the counter, room for the new ids below 2^32, documents below 2^32 bytes and HTML entries with their own mime type.
- Clipboard.PasteDataArrives: is about null pointers that are whole values of entries, where it says that nothing decodes; LooseData.LooseDataArrives has the deeper ones.
- LooseData.LooseDataArrives: for another device, the value of a first entry is well typed or a null Want or PixelMap. A null Object there is dereferenced by the conversions before it is sent, and a null pointer inside an Object there puts the reader out of step with the fields of the record, which have no limit of their own.
- PostEvent outside every Defer scope: it calls the observers directly, and recursion through them is not bounded by the code.
- Subscribing and unsubscribing while events are dispatched: the resident observers are fixed.
- ServiceLoader: death recipients, client death observers and static destruction are reduced to whether setting the proxy succeeds.
- CopyFile: percentages are scaled over the reals instead of a 32-bit float, record counts times 100 stay within 32 bits, and InitCopyInfo, the cancel thread and SetProgressWithoutFile are arbitrary or absent.
- CommonUtils::Convert between enums, UDMF conversion, device profiles, dialogs and the language bindings: case tables and wrappers.
