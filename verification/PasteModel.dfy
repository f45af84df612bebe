/**
 The clipboard data of framework/innerkits: entries, records, properties and paste data, how they
 are laid out as TLV structures, and the conversions of PasteDataEntry and PasteDataRecord.

 Want, WantParams and PixelMap are foreign: they are the non-empty byte strings they marshal to.
 A Uri is its string; MarshalUri stands in for its marshalled form. Of the foreign table of
 uniform data types only the entries the sources name are kept.
 */
module PasteModel {
  import opened Bytes
  import opened Assoc
  import opened Tlv

  const MIME_PIXELMAP := Ascii("pixelMap")
  const MIME_HTML := Ascii("text/html")
  const MIME_PLAIN := Ascii("text/plain")
  const MIME_URI := Ascii("text/uri")
  const MIME_WANT := Ascii("text/want")

  lemma MimeNamesDiffer()
    ensures MIME_PLAIN != MIME_HTML && MIME_PLAIN != MIME_URI && MIME_PLAIN != MIME_WANT && MIME_PLAIN != MIME_PIXELMAP
    ensures MIME_HTML != MIME_URI && MIME_HTML != MIME_WANT && MIME_HTML != MIME_PIXELMAP
    ensures MIME_URI != MIME_WANT && MIME_URI != MIME_PIXELMAP && MIME_WANT != MIME_PIXELMAP
  {
    assert MIME_HTML[5] == 'h' as int && MIME_WANT[5] == 'w' as int;
    assert MIME_URI[0] == 't' as int && MIME_PIXELMAP[0] == 'p' as int;
  }

  const UTD_PLAIN := Ascii("general.plain-text")
  const UTD_HYPERLINK := Ascii("general.hyperlink")
  const UTD_HTML := Ascii("general.html")
  const UTD_FILE_URI := Ascii("general.file-uri")
  const UTD_FILE := Ascii("general.file")
  const UTD_AUDIO := Ascii("general.audio")
  const UTD_IMAGE := Ascii("general.image")
  const UTD_FOLDER := Ascii("general.folder")
  const UTD_VIDEO := Ascii("general.video")
  const UTD_PIXELMAP := Ascii("openharmony.pixel-map")
  const UTD_WANT := Ascii("openharmony.want")

  const KEY_TYPE := Ascii("uniformDataType")
  const KEY_CONTENT := Ascii("textContent")
  const KEY_HTML := Ascii("htmlContent")
  const KEY_PLAIN := Ascii("plainContent")
  const KEY_URI := Ascii("oriUri")
  const KEY_PIXELMAP := Ascii("pixelMap")
  const KEY_URL := Ascii("url")
  const KEY_BUFFER := Ascii("arrayBuffer")

  const UD_BUTT: int32 := 1000
  const UD_HYPERLINK: int32 := 6
  const UD_APPLICATION: int32 := 25

  /** Indices of the record fields in tag order (TAG_MIMETYPE ... TAG_FROM). */
  const R_MIME := 0
  const R_HTML := 1
  const R_WANT := 2
  const R_PLAIN := 3
  const R_URI := 4
  const R_PIXEL := 5
  const R_CUSTOM := 6
  const R_CONVERT := 7
  const R_PERM := 8
  const R_UDTYPE := 9
  const R_DETAILS := 10
  const R_TEXT := 11
  const R_SYS := 12
  const R_UDMF := 13
  const R_ENTRIES := 14
  const R_DATAID := 15
  const R_ID := 16
  const R_DELAY := 17
  const R_FROM := 18

  const CUSTOM_ORDER: seq<nat> := [0]
  const ENTRY_ORDER: seq<nat> := [0, 1, 2]
  const PLAIN_ORDER: seq<nat> := [0, 1, 2, 3, 4, 5, 6, 7, 8, 9, 10]

  /** The field that EncodeTLVLocal (EncodeTLVRemote) writes as its j-th. */
  function WrittenAt(remote: bool, j: nat): nat
  {
    if remote then
      if j == 1 then R_UDTYPE else if j == 2 then R_HTML else if j == 3 then R_PLAIN
      else if j == 4 then R_PIXEL else if j == 5 then R_WANT else if j == 6 then R_URI
      else if j == 7 then R_UDMF else if j == 8 then R_ENTRIES else if j == 9 then R_CONVERT
      else if j == 10 then R_CUSTOM else if j == 11 then R_PERM else if j == 12 then R_DETAILS
      else if j == 13 then R_TEXT else if j == 14 then R_SYS else j
    else
      if j == 5 then R_CONVERT else if j == 6 then R_PIXEL else if j == 7 then R_CUSTOM else j
  }

  /** The place of field i in the write order: the inverse of WrittenAt. */
  function PlaceOf(remote: bool, i: nat): nat
  {
    if remote then
      if i == R_UDTYPE then 1 else if i == R_HTML then 2 else if i == R_PLAIN then 3
      else if i == R_PIXEL then 4 else if i == R_WANT then 5 else if i == R_URI then 6
      else if i == R_UDMF then 7 else if i == R_ENTRIES then 8 else if i == R_CONVERT then 9
      else if i == R_CUSTOM then 10 else if i == R_PERM then 11 else if i == R_DETAILS then 12
      else if i == R_TEXT then 13 else if i == R_SYS then 14 else i
    else
      if i == R_CONVERT then 5 else if i == R_PIXEL then 6 else if i == R_CUSTOM then 7 else i
  }

  function RecordOrder(remote: bool): (order: seq<nat>)
    ensures |order| == 19
  {
    seq(19, (j: nat) => WrittenAt(remote, j))
  }

  /** EncodeTLVLocal and EncodeTLVRemote each write all 19 fields once. */
  lemma RecordOrderIsPermutation(remote: bool)
    ensures IsPermutation(RecordOrder(remote), 19)
  {
    var order := RecordOrder(remote);
    forall j: nat | j < 19 ensures order[j] < 19 && PlaceOf(remote, order[j]) == j {
    }
    forall i: nat | i < 19 ensures i in order {
      assert order[PlaceOf(remote, i)] == i;
    }
  }

  datatype Entry = Entry(utdId: bytes, mime: bytes, value: Value)

  datatype Record = Record(
    mime: bytes, html: Option<bytes>, want: Option<bytes>, plain: Option<bytes>, uri: Option<bytes>,
    pixel: Option<bytes>, custom: Value, convertUri: bytes, granted: bool, udType: int32, details: Value,
    text: bytes, sys: Value, udmf: Value, entries: seq<Option<Entry>>, dataId: uint32, id: uint32,
    delay: bool, from: uint32)

  // ----- UDMF::ValueType

  function EvMono(): Value { Variant(0, Mono) }
  function EvText(s: bytes): Value { Variant(5, Text(s)) }
  function EvWant(s: bytes): Value { Variant(7, Shared(s)) }
  function EvPixel(s: bytes): Value { Variant(8, Shared(s)) }
  function EvObject(items: Items): Value { Variant(9, Dict(TAG_MAP_VALUE_TYPE, items)) }

  predicate HoldsText(v: Value) { v.Variant? && v.index == 5 && v.val.Text? }
  predicate HoldsBlob(v: Value) { v.Variant? && v.index == 6 && v.val.Blob? }
  predicate HoldsWant(v: Value) { v.Variant? && v.index == 7 && v.val.Shared? }
  predicate HoldsPixel(v: Value) { v.Variant? && v.index == 8 && v.val.Shared? }
  predicate HoldsObject(v: Value) { v.Variant? && v.index == 9 && v.val.Dict? }

  /** Object::GetValue for a string: the empty string when the key is missing or holds something else. */
  function TextAt(items: Items, key: bytes): bytes
  {
    var v := Lookup(items, key);
    if v.Some? && HoldsText(v.value) then v.value.val.s else []
  }

  // ----- type names

  predicate IsFileUri(utdId: bytes)
  {
    utdId == UTD_FILE_URI || utdId == UTD_FILE || utdId == UTD_AUDIO || utdId == UTD_IMAGE ||
    utdId == UTD_FOLDER || utdId == UTD_VIDEO
  }

  function Convert2MimeType(utdId: bytes): bytes
  {
    if utdId == UTD_PLAIN || utdId == UTD_HYPERLINK then MIME_PLAIN
    else if utdId == UTD_HTML then MIME_HTML
    else if IsFileUri(utdId) then MIME_URI
    else if utdId == UTD_PIXELMAP then MIME_PIXELMAP
    else if utdId == UTD_WANT then MIME_WANT
    else utdId
  }

  function Convert2UtdId(udType: int32, mime: bytes): bytes
  {
    if mime == MIME_PLAIN && udType == UD_HYPERLINK then UTD_HYPERLINK
    else if mime == MIME_PLAIN then UTD_PLAIN
    else if mime == MIME_URI then UTD_FILE_URI
    else if mime == MIME_HTML then UTD_HTML
    else if mime == MIME_WANT then UTD_WANT
    else if mime == MIME_PIXELMAP then UTD_PIXELMAP
    else mime
  }

  /** UtdUtils::GetUtdEnumFromUtdId; the numbers are placeholders, distinct per named type. */
  function EnumOf(utdId: bytes): int32
  {
    if utdId == UTD_PLAIN then 4 else if utdId == UTD_HTML then 5 else if utdId == UTD_HYPERLINK then UD_HYPERLINK
    else if utdId == UTD_FILE then 9 else if utdId == UTD_IMAGE then 10 else if utdId == UTD_VIDEO then 11
    else if utdId == UTD_AUDIO then 12 else if utdId == UTD_FOLDER then 13 else if utdId == UTD_FILE_URI then 14
    else if utdId == UTD_PIXELMAP then 15 else if utdId == UTD_WANT then 16 else UD_BUTT
  }

  // ----- PasteDataEntry::ConvertTo*

  function ConvertToPlainText(e: Entry): Option<bytes>
  {
    if HoldsText(e.value) then Some(e.value.val.s)
    else if !HoldsObject(e.value) then None
    else
      var items := e.value.val.pairs;
      Some(TextAt(items,
                  if e.utdId == UTD_PLAIN then KEY_CONTENT else if e.utdId == UTD_HTML then KEY_PLAIN else KEY_URL))
  }

  function ConvertToHtml(e: Entry): Option<bytes>
  {
    if e.utdId != UTD_HTML then None
    else if HoldsText(e.value) then Some(e.value.val.s)
    else if !HoldsObject(e.value) then None
    else Some(TextAt(e.value.val.pairs, KEY_HTML))
  }

  function ConvertToUri(e: Entry): Option<bytes>
  {
    if !IsFileUri(e.utdId) then None
    else if HoldsText(e.value) then Some(e.value.val.s)
    else if !HoldsObject(e.value) then None
    else Some(TextAt(e.value.val.pairs, KEY_URI))
  }

  function ConvertToWant(e: Entry): Option<bytes>
  {
    if e.utdId == UTD_WANT && HoldsWant(e.value) then Some(e.value.val.s) else None
  }

  function ConvertToPixelMap(e: Entry): Option<bytes>
  {
    if e.utdId != UTD_PIXELMAP then None
    else if HoldsPixel(e.value) then Some(e.value.val.s)
    else if !HoldsObject(e.value) then None
    else
      var items := e.value.val.pairs;
      var pixel := Lookup(items, KEY_PIXELMAP);
      if TextAt(items, KEY_TYPE) == UTD_PIXELMAP && pixel.Some? && HoldsPixel(pixel.value)
      then Some(pixel.value.val.s) else None
  }

  /**
   The entry's value after ConvertToPixelMap: a typed pixel map object without a pixel map gets an
   empty one, because the key is looked up with operator[] in the object the entry shares.
   */
  function AfterConvertToPixelMap(e: Entry): Value
  {
    if e.utdId == UTD_PIXELMAP && HoldsObject(e.value) && TextAt(e.value.val.pairs, KEY_TYPE) == UTD_PIXELMAP &&
       Lookup(e.value.val.pairs, KEY_PIXELMAP).None?
    then EvObject(Assign(e.value.val.pairs, KEY_PIXELMAP, EvMono())) else e.value
  }

  /** The one item of the converted custom data: its name and bytes. */
  function ConvertToCustomData(e: Entry): Option<Pair<bytes>>
  {
    if HoldsBlob(e.value) then Some(Pair(e.mime, e.value.val.s))
    else if !HoldsObject(e.value) then None
    else
      var items := e.value.val.pairs;
      var objType := Lookup(items, KEY_TYPE);
      var buffer := Lookup(items, KEY_BUFFER);
      if objType.Some? && HoldsText(objType.value) && buffer.Some? && HoldsBlob(buffer.value)
      then Some(Pair(e.utdId, buffer.value.val.s)) else None
  }

  // ----- the legacy fields on the wire

  function MarshalUri(s: bytes): (b: bytes)
    ensures b != []
  {
    Le(|s|, 4) + s
  }

  function UnmarshalUri(b: bytes): bytes { if |b| < 4 then [] else b[4..] }

  function OptText(o: Option<bytes>): Value { if o.Some? then Text(o.value) else Null }

  function OptRaw(o: Option<bytes>): Value { Raw(if o.Some? then o.value else []) }

  function OptShared(o: Option<bytes>): Value { if o.Some? then Shared(o.value) else Null }

  function OptUri(o: Option<bytes>): Option<bytes> { if o.Some? then Some(MarshalUri(o.value)) else None }

  function AsOptText(v: Value): Option<bytes> { if v.Text? then Some(v.s) else None }

  function AsOptBytes(v: Value): Option<bytes>
  {
    if v.Shared? || (v.Raw? && v.s != []) then Some(v.s) else None
  }

  function AsBool(v: Value): bool { v.Bool? && v.b }

  function AsI32(v: Value): int32 { if v.I32? then v.i else 0 }

  function AsU32(v: Value): uint32 { if v.U32? then v.u else 0 }

  function EntryFields(e: Entry): seq<Value> { [Text(e.utdId), Text(e.mime), e.value] }

  function EntryValue(e: Option<Entry>): Value
  {
    if e.Some? then Struct(ENTRY_ORDER, EntryFields(e.value)) else Null
  }

  function AsEntry(v: Value): Option<Entry>
  {
    if v.Struct? && |v.fields| == 3 then Some(Entry(AsText(v.fields[0]), AsText(v.fields[1]), v.fields[2])) else None
  }

  function EntryValues(es: seq<Option<Entry>>): (vs: seq<Value>)
    ensures |vs| == |es|
  {
    seq(|es|, i requires 0 <= i < |es| => EntryValue(es[i]))
  }

  function AsEntries(vs: seq<Value>): (es: seq<Option<Entry>>)
    ensures |es| == |vs|
  {
    seq(|vs|, i requires 0 <= i < |vs| => AsEntry(vs[i]))
  }

  /** The fields of a record in tag order; want_ and uri_ are written as raw memory. */
  function RecordFields(r: Record): (f: seq<Value>)
    ensures |f| == 19
  {
    [Text(r.mime), OptText(r.html), OptRaw(r.want), OptText(r.plain), OptRaw(OptUri(r.uri)), OptShared(r.pixel),
     r.custom, Text(r.convertUri), Bool(r.granted), I32(r.udType), r.details, Text(r.text), r.sys, r.udmf,
     List(EntryValues(r.entries)), U32(r.dataId), U32(r.id), Bool(r.delay), U32(r.from)]
  }

  function AsRecord(f: seq<Value>): Record
    requires |f| == 19
  {
    Record(AsText(f[R_MIME]), AsOptText(f[R_HTML]), AsOptBytes(f[R_WANT]), AsOptText(f[R_PLAIN]),
           var u := AsOptBytes(f[R_URI]); if u.Some? then Some(UnmarshalUri(u.value)) else None,
           AsOptBytes(f[R_PIXEL]), f[R_CUSTOM], AsText(f[R_CONVERT]), AsBool(f[R_PERM]), AsI32(f[R_UDTYPE]),
           f[R_DETAILS], AsText(f[R_TEXT]), f[R_SYS], f[R_UDMF], AsEntries(AsItems(f[R_ENTRIES])),
           AsU32(f[R_DATAID]), AsU32(f[R_ID]), AsBool(f[R_DELAY]), AsU32(f[R_FROM]))
  }

  lemma EntriesInverse(es: seq<Option<Entry>>)
    ensures AsEntries(EntryValues(es)) == es
  {
  }

  lemma UriInverse(s: bytes)
    ensures UnmarshalUri(MarshalUri(s)) == s && |MarshalUri(s)| >= 4
  {
  }

  lemma RecordFieldsInverse(r: Record)
    requires r.want != Some([]) && r.pixel != Some([])
    ensures AsRecord(RecordFields(r)) == r
  {
    hide MarshalUri, UnmarshalUri, AsEntries, EntryValues;
    EntriesInverse(r.entries);
    if r.uri.Some? {
      UriInverse(r.uri.value);
    }
  }

  // ----- PasteDataRecord::AddEntry

  predicate SameSlot(have: Entry, e: Entry)
  {
    have.utdId == e.utdId || (have.mime == MIME_URI && e.mime == MIME_URI)
  }

  /** The entry that e replaces: of the same type, or, for URIs, any other URI. */
  function SlotOf(es: seq<Option<Entry>>, e: Entry, i: nat): (r: Option<nat>)
    ensures r.Some? ==> i <= r.value < |es| && es[r.value].Some? && SameSlot(es[r.value].value, e) &&
                        forall k :: i <= k < r.value && es[k].Some? ==> !SameSlot(es[k].value, e)
    ensures r.None? ==> forall k :: i <= k < |es| && es[k].Some? ==> !SameSlot(es[k].value, e)
    decreases |es| - i
  {
    if i >= |es| then None
    else if es[i].Some? && SameSlot(es[i].value, e) then Some(i)
    else SlotOf(es, e, i + 1)
  }

  /** Replace in place, or append; the first entry decides the record's type enum. */
  function AddEntry(r: Record, utdType: bytes, e: Entry): Record
  {
    if utdType != e.utdId then r
    else
      var i := SlotOf(r.entries, e, 0);
      if i.Some? then r.(entries := r.entries[i.value := Some(e)])
      else
        var udType := EnumOf(utdType);
        r.(entries := r.entries + [Some(e)],
           udType := if r.entries != [] then r.udType else if udType == UD_BUTT then UD_APPLICATION else udType)
  }

  // ----- PasteDataRecord::Remote2Local and the end of DecodeTLV

  function Remote2Local(r: Record): Option<Entry>
  {
    if r.mime == [] then None
    else
      var utdId := Convert2UtdId(r.udType, r.mime);
      if HoldsObject(r.udmf) && r.udmf.val.pairs != [] then Some(Entry(utdId, r.mime, r.udmf))
      else if HoldsBlob(r.udmf) then Some(Entry(utdId, r.mime, r.udmf))
      else if r.mime == MIME_PLAIN && r.plain.Some? then
        Some(Entry(utdId, r.mime, EvObject(Assign(FreshObject(UTD_PLAIN), KEY_CONTENT, EvText(r.plain.value)))))
      else if r.mime == MIME_HTML && r.html.Some? then
        var items := Assign(FreshObject(UTD_HTML), KEY_HTML, EvText(r.html.value));
        Some(Entry(utdId, r.mime,
                   EvObject(if r.plain.Some? then Assign(items, KEY_PLAIN, EvText(r.plain.value)) else items)))
      else if r.mime == MIME_URI && r.uri.Some? then
        Some(Entry(utdId, r.mime, EvObject(Assign(FreshObject(UTD_FILE_URI), KEY_URI, EvText(r.uri.value)))))
      else if r.mime == MIME_PIXELMAP && r.pixel.Some? then
        Some(Entry(utdId, r.mime, EvObject(Assign(FreshObject(UTD_PIXELMAP), KEY_PIXELMAP, EvPixel(r.pixel.value)))))
      else if r.mime == MIME_WANT && r.want.Some? then Some(Entry(utdId, r.mime, EvWant(r.want.value)))
      else None
  }

  /** A fresh object holding its data type. */
  function FreshObject(utdId: bytes): Items { [Pair(KEY_TYPE, EvText(utdId))] }

  function GetMimeType(r: Record): bytes
  {
    if r.mime != [] then r.mime
    else if r.entries != [] && r.entries[0].Some? then r.entries[0].value.mime
    else []
  }

  function FinishRecord(r: Record): Record
  {
    var entry := Remote2Local(r);
    var r' := r.(entries := (if entry.Some? then [entry] else []) + r.entries,
                 udmf := Null, plain := None, html := None, uri := None, pixel := None, want := None);
    r'.(mime := GetMimeType(r'))
  }

  /** What DecodeTLV does after its loop; only records do anything. */
  function Finish(kind: Kind, f: seq<Value>): (g: seq<Value>)
    ensures |g| == |f|
  {
    if kind.KRecord? && |f| == 19 then RecordFields(FinishRecord(AsRecord(f))) else f
  }

  // ----- PasteDataRecord::Local2Remote

  /** The record whose fields EncodeTLVRemote writes: the first entry becomes legacy fields. */
  function Local2Remote(r: Record): Record
  {
    var bare := r.(udType := UD_BUTT, html := None, want := None, plain := None, uri := None, pixel := None,
                   udmf := EvMono(), entries := []);
    if r.entries == [] || r.entries[0].None? then bare
    else
      var e := r.entries[0].value;
      var value := bare.(udType := EnumOf(e.utdId), mime := e.mime, udmf := e.value, entries := r.entries[1..]);
      if e.mime == MIME_PLAIN then value.(plain := ConvertToPlainText(e))
      else if e.mime == MIME_WANT then value.(want := ConvertToWant(e))
      else if e.mime == MIME_URI then value.(uri := ConvertToUri(e))
      else if e.mime == MIME_PIXELMAP then value.(pixel := ConvertToPixelMap(e), udmf := AfterConvertToPixelMap(e))
      else if e.mime == MIME_HTML then
        var plain := if HoldsObject(e.value) then TextAt(e.value.val.pairs, KEY_PLAIN) else [];
        value.(html := ConvertToHtml(e), plain := if plain != [] then Some(plain) else None)
      else value
  }

  // ----- PasteDataProperty and PasteData

  datatype Property = Property(
    additions: bytes, mimeTypes: seq<bytes>, tag: bytes, timestamp: int64, localOnly: bool, shareOption: int32,
    tokenId: uint32, isRemote: bool, bundleName: bytes, setTime: bytes, screenStatus: int32)

  datatype PasteData = PasteData(
    props: Property, records: seq<Option<Record>>, isDragged: bool, isLocalPaste: bool, isDelayData: bool,
    deviceId: bytes, pasteId: bytes, isDelayRecord: bool, dataId: uint32, recordId: uint32, userId: int32)

  function Texts(ts: seq<bytes>): (vs: seq<Value>)
    ensures |vs| == |ts|
  {
    seq(|ts|, i requires 0 <= i < |ts| => Text(ts[i]))
  }

  function PropertyFields(p: Property): (f: seq<Value>)
    ensures |f| == 11
  {
    [Raw(p.additions), List(Texts(p.mimeTypes)), Text(p.tag), Bool(p.localOnly), I64(p.timestamp), I32(p.shareOption),
     U32(p.tokenId), Bool(p.isRemote), Text(p.bundleName), Text(p.setTime), I32(p.screenStatus)]
  }

  function RecordValue(remote: bool, r: Option<Record>): Value
  {
    if r.None? then Null
    else Struct(RecordOrder(remote), RecordFields(if remote then Local2Remote(r.value) else r.value))
  }

  function RecordValues(remote: bool, rs: seq<Option<Record>>): (vs: seq<Value>)
    ensures |vs| == |rs|
  {
    seq(|rs|, i requires 0 <= i < |rs| => RecordValue(remote, rs[i]))
  }

  /** The fields PasteData::EncodeTLV writes; only records depend on the remote flag. */
  function PasteFields(remote: bool, p: PasteData): (f: seq<Value>)
    ensures |f| == 11
  {
    [Struct(PLAIN_ORDER, PropertyFields(p.props)), List(RecordValues(remote, p.records)), Bool(p.isDragged),
     Bool(p.isLocalPaste), Bool(p.isDelayData), Text(p.deviceId), Text(p.pasteId), Bool(p.isDelayRecord),
     U32(p.dataId), U32(p.recordId), I32(p.userId)]
  }

  // ----- reading the attributes back

  function AsI64(v: Value): int64 { if v.I64? then v.l else 0 }

  function AsRaw(v: Value): bytes { if v.Raw? then v.s else [] }

  function AsStrings(vs: seq<Value>): (ts: seq<bytes>)
    ensures |ts| == |vs|
  {
    seq(|vs|, i requires 0 <= i < |vs| => AsText(vs[i]))
  }

  /** The attributes of a property, each from the field with its tag. */
  function AsProperty(f: seq<Value>): Property
    requires |f| == 11
  {
    Property(AsRaw(f[0]), AsStrings(AsItems(f[1])), AsText(f[2]), AsI64(f[4]), AsBool(f[3]), AsI32(f[5]), AsU32(f[6]),
             AsBool(f[7]), AsText(f[8]), AsText(f[9]), AsI32(f[10]))
  }

  function AsRecordValue(v: Value): Option<Record>
  {
    if v.Struct? && |v.fields| == 19 then Some(AsRecord(v.fields)) else None
  }

  function AsRecords(vs: seq<Value>): (rs: seq<Option<Record>>)
    ensures |rs| == |vs|
  {
    seq(|vs|, i requires 0 <= i < |vs| => AsRecordValue(vs[i]))
  }

  /** The attributes of a decoded PasteData. */
  function AsPasteData(v: Value): Option<PasteData>
  {
    if !v.Struct? || |v.fields| != 11 then None
    else
      var f := v.fields;
      if !f[0].Struct? || |f[0].fields| != 11 then None
      else
        Some(PasteData(AsProperty(f[0].fields), AsRecords(AsItems(f[1])), AsBool(f[2]), AsBool(f[3]), AsBool(f[4]),
                       AsText(f[5]), AsText(f[6]), AsBool(f[7]), AsU32(f[8]), AsU32(f[9]), AsI32(f[10])))
  }

  lemma StringsInverse(ts: seq<bytes>)
    ensures AsStrings(Texts(ts)) == ts
  {
  }

  lemma PropertyInverse(p: Property)
    ensures AsProperty(PropertyFields(p)) == p
  {
    hide AsStrings, Texts;
    StringsInverse(p.mimeTypes);
  }

  /** Records whose opaque legacy values are not empty. */
  predicate NoneHollow(rs: seq<Option<Record>>)
  {
    forall i :: 0 <= i < |rs| && rs[i].Some? ==> rs[i].value.want != Some([]) && rs[i].value.pixel != Some([])
  }

  lemma RecordsInverse(rs: seq<Option<Record>>)
    requires NoneHollow(rs)
    ensures AsRecords(RecordValues(false, rs)) == rs
  {
    hide RecordFields, AsRecord;
    forall i | 0 <= i < |rs| ensures AsRecordValue(RecordValue(false, rs[i])) == rs[i] {
      if rs[i].Some? {
        RecordFieldsInverse(rs[i].value);
      }
    }
  }

  /** Every attribute is recovered from the fields. */
  lemma PasteDataInverse(p: PasteData)
    requires NoneHollow(p.records)
    ensures AsPasteData(Struct(PLAIN_ORDER, PasteFields(false, p))) == Some(p)
  {
    hide PropertyFields, AsProperty, RecordValues, AsRecords;
    PropertyInverse(p.props);
    RecordsInverse(p.records);
  }

  // ----- which attribute is which field, by its tag less 0x101

  lemma PropertyPositions(p: Property)
    ensures var f := PropertyFields(p);
            && f[0] == Raw(p.additions) && f[1].List? && AsStrings(f[1].items) == p.mimeTypes && f[2] == Text(p.tag)
            && f[3] == Bool(p.localOnly) && f[4] == I64(p.timestamp) && f[5] == I32(p.shareOption)
            && f[6] == U32(p.tokenId) && f[7] == Bool(p.isRemote) && f[8] == Text(p.bundleName)
            && f[9] == Text(p.setTime) && f[10] == I32(p.screenStatus)
  {
    hide AsStrings, Texts;
    StringsInverse(p.mimeTypes);
  }

  lemma PastePositions(remote: bool, p: PasteData)
    ensures var f := PasteFields(remote, p);
            && f[0].Struct? && f[0].fields == PropertyFields(p.props)
            && f[1].List? && |f[1].items| == |p.records|
            && (forall i :: 0 <= i < |p.records| ==> f[1].items[i] == RecordValue(remote, p.records[i]))
            && f[2] == Bool(p.isDragged) && f[3] == Bool(p.isLocalPaste) && f[4] == Bool(p.isDelayData)
            && f[5] == Text(p.deviceId) && f[6] == Text(p.pasteId) && f[7] == Bool(p.isDelayRecord)
            && f[8] == U32(p.dataId) && f[9] == U32(p.recordId) && f[10] == I32(p.userId)
  {
    hide PropertyFields, RecordValue;
  }

  /** Optional text is a pointer; want_ and uri_ are raw memory, empty when there is none. */
  lemma RecordPositions(r: Record)
    ensures var f := RecordFields(r);
            && f[0] == Text(r.mime)
            && f[1] == (if r.html.Some? then Text(r.html.value) else Null)
            && f[2] == Raw(if r.want.Some? then r.want.value else [])
            && f[3] == (if r.plain.Some? then Text(r.plain.value) else Null)
            && f[4] == Raw(if r.uri.Some? then MarshalUri(r.uri.value) else [])
            && f[5] == (if r.pixel.Some? then Shared(r.pixel.value) else Null)
            && f[6] == r.custom && f[7] == Text(r.convertUri) && f[8] == Bool(r.granted)
    ensures LaterPositions(r)
  {
    hide MarshalUri, OptText, OptRaw, OptShared, OptUri, LaterPositions, RecordFields;
    OptionsAre(r.html, r.want, r.uri);
    OptionsAre(r.plain, r.want, r.uri);
    OptionsAre(r.pixel, r.want, r.uri);
    EarlyFields(r);
    MiddleFields(r);
    LaterFields(r);
  }

  lemma EarlyFields(r: Record)
    ensures var f := RecordFields(r);
            f[0] == Text(r.mime) && f[1] == OptText(r.html) && f[2] == OptRaw(r.want) && f[3] == OptText(r.plain)
  {
    hide EntryValues, OptText, OptRaw, OptShared, OptUri;
  }

  lemma MiddleFields(r: Record)
    ensures var f := RecordFields(r);
            && f[4] == OptRaw(OptUri(r.uri)) && f[5] == OptShared(r.pixel)
            && f[6] == r.custom && f[7] == Text(r.convertUri) && f[8] == Bool(r.granted)
  {
    hide EntryValues, OptText, OptRaw, OptShared, OptUri;
  }

  predicate LaterPositions(r: Record)
  {
    var f := RecordFields(r);
    && f[9] == I32(r.udType) && f[10] == r.details && f[11] == Text(r.text) && f[12] == r.sys && f[13] == r.udmf
    && f[14].List? && |f[14].items| == |r.entries|
    && (forall i :: 0 <= i < |r.entries| ==> f[14].items[i] == EntryValue(r.entries[i]))
    && f[15] == U32(r.dataId) && f[16] == U32(r.id) && f[17] == Bool(r.delay) && f[18] == U32(r.from)
  }

  lemma LaterFields(r: Record)
    ensures LaterPositions(r)
  {
    hide MarshalUri, EntryValue, EntryValues, OptText, OptRaw, OptShared, OptUri;
    EntriesAre(r.entries);
  }

  lemma OptionsAre(text: Option<bytes>, raw: Option<bytes>, uri: Option<bytes>)
    ensures OptText(text) == if text.Some? then Text(text.value) else Null
    ensures OptShared(text) == if text.Some? then Shared(text.value) else Null
    ensures OptRaw(raw) == Raw(if raw.Some? then raw.value else [])
    ensures OptRaw(OptUri(uri)) == Raw(if uri.Some? then MarshalUri(uri.value) else [])
  {
    hide MarshalUri;
  }

  lemma EntriesAre(es: seq<Option<Entry>>)
    ensures |EntryValues(es)| == |es| && forall i :: 0 <= i < |es| ==> EntryValues(es)[i] == EntryValue(es[i])
  {
    hide EntryValue;
  }

  lemma EntryPositions(e: Entry)
    ensures var v := EntryValue(Some(e));
            && v.Struct? && |v.fields| == 3
            && v.fields[0] == Text(e.utdId) && v.fields[1] == Text(e.mime) && v.fields[2] == e.value
  {
  }

  // ----- the classes of the framework

  function RecordTypes(): (t: seq<Ty>)
    ensures |t| == 19
  {
    [TText, TPtr(TText), TWant, TPtr(TText), TWant, TWant, TPtr(TStruct(KCustom)), TText, TBool, TI32,
     TPtr(TDetails), TText, TPtr(TDetails), TPtr(TEntryValue), TVec(TPtr(TStruct(KEntry))), TU32, TU32, TBool, TU32]
  }

  function FieldTypes(kind: Kind): seq<Ty>
  {
    match kind
    case KCustom => [TBlobMap]
    case KEntry => [TText, TText, TEntryValue]
    case KRecord => RecordTypes()
    case KProps => [TParams, TVec(TText), TText, TBool, TI64, TI32, TU32, TBool, TText, TText, TI32]
    case KPaste => [TStruct(KProps), TVec(TPtr(TStruct(KRecord))), TBool, TBool, TBool, TText, TText, TBool,
                    TU32, TU32, TI32]
  }

  function WriteOrder(kind: Kind): seq<nat>
  {
    match kind
    case KCustom => CUSTOM_ORDER
    case KEntry => ENTRY_ORDER
    case KRecord => RecordOrder(false)
    case KProps => PLAIN_ORDER
    case KPaste => PLAIN_ORDER
  }

  function InitialRecord(): (f: seq<Value>)
    ensures |f| == 19
  {
    [Text([]), Null, Null, Null, Null, Null, Null, Text([]), Bool(false), I32(UD_BUTT), Null, Text([]), Null, Null,
     List([]), U32(0), U32(0), Bool(false), U32(0)]
  }

  function InitialProperty(): seq<Value>
  {
    [Raw([]), List([]), Text([]), Bool(false), I64(0), I32(2), U32(0), Bool(false), Text([]), Text([]), I32(0)]
  }

  /** Fresh objects: userId_ is -1, udType_ UD_BUTT, and a PasteData shares across devices. */
  function InitialFields(kind: Kind): seq<Value>
  {
    match kind
    case KCustom => [Dict(TAG_MAP_VALUE, [])]
    case KEntry => [Text([]), Text([]), EvMono()]
    case KRecord => InitialRecord()
    case KProps => InitialProperty()
    case KPaste => [Struct(PLAIN_ORDER, InitialProperty()), List([]), Bool(false), Bool(false), Bool(false), Text([]),
                    Text([]), Bool(false), U32(0), U32(0), I32(-1)]
  }

  /** PasteData, PasteDataProperty, PasteDataRecord, PasteDataEntry and MineCustomData. */
  function PasteClasses(): Classes { Classes(FieldTypes, WriteOrder, InitialFields, Finish) }
}
