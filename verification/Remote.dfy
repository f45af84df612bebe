/**
 Cross-device transfer of a record: the first entry travels in the legacy fields and is rebuilt by
 the receiver (PasteDataRecord::Local2Remote, Remote2Local). What it means survives, and a second
 trip changes nothing more.
 */
module Remote {
  import opened Bytes
  import opened Assoc
  import opened Tlv
  import opened PasteModel
  import opened PasteCodec
  import opened Clipboard
  import opened ReaderSpec
  import opened RoundTrip

  /** What an application gets out of an entry, by the entry's mime type. */
  datatype Content = Data(bytes: Option<bytes>) | Custom(item: Option<Pair<bytes>>)

  function ContentOf(e: Entry): Content
  {
    if e.mime == MIME_PIXELMAP then Data(ConvertToPixelMap(e))
    else if e.mime == MIME_HTML then Data(ConvertToHtml(e))
    else if e.mime == MIME_PLAIN then Data(ConvertToPlainText(e))
    else if e.mime == MIME_URI then Data(ConvertToUri(e))
    else if e.mime == MIME_WANT then Data(ConvertToWant(e))
    else Custom(ConvertToCustomData(e))
  }

  /** PasteDataEntry::HasContentByMimeType for the entry's own mime type. */
  predicate HasContent(e: Entry)
  {
    match ContentOf(e)
    case Data(b) => b.Some? && (e.mime == MIME_PIXELMAP || e.mime == MIME_WANT || b.value != [])
    case Custom(item) => item.Some?
  }

  /** The type identifier and the mime type name each other; file kinds share one mime type. */
  predicate TypesMatch(e: Entry)
  {
    && e.mime != [] && e.mime == Convert2MimeType(e.utdId)
    && (IsFileUri(e.utdId) || Convert2UtdId(EnumOf(e.utdId), e.mime) == e.utdId)
  }

  predicate IsBareHyperlink(e: Entry) { e.utdId == UTD_HYPERLINK && HoldsText(e.value) }

  function NormalUtdId(utdId: bytes): bytes { if IsFileUri(utdId) then UTD_FILE_URI else utdId }

  /** The receiver's entry for a first entry e, or nothing. */
  function Rebuilt(e: Entry): Option<Entry>
  {
    Remote2Local(Local2Remote(Carrier(e)))
  }

  /** A record holding just e. */
  function Carrier(e: Entry): Record
  {
    Record([], None, None, None, None, None, Null, [], false, UD_BUTT, Null, [], Null, Null, [Some(e)], 0, 0, false, 0)
  }

  lemma TypeNamesDiffer()
    ensures UTD_PLAIN != UTD_HYPERLINK && UTD_PLAIN != UTD_HTML && UTD_HYPERLINK != UTD_HTML
    ensures !IsFileUri(UTD_PLAIN) && !IsFileUri(UTD_HYPERLINK) && !IsFileUri(UTD_HTML)
    ensures UTD_FILE_URI != UTD_WANT && UTD_FILE_URI != UTD_PIXELMAP
  {
    assert |UTD_PLAIN| == 18 && |UTD_HYPERLINK| == 17 && |UTD_HTML| == 12 && |UTD_FILE| == 12 && |UTD_FILE_URI| == 16;
    assert UTD_HTML[8] == 'h' as int && UTD_FILE[8] == 'f' as int;
    assert UTD_FILE_URI[0] == 'g' as int && UTD_WANT[0] == 'o' as int;
  }

  lemma KeysDiffer()
    ensures KEY_TYPE != KEY_CONTENT && KEY_TYPE != KEY_HTML && KEY_TYPE != KEY_URI && KEY_TYPE != KEY_PIXELMAP
    ensures KEY_URL != KEY_TYPE && KEY_URL != KEY_CONTENT && KEY_HTML != KEY_PLAIN && KEY_PLAIN != KEY_TYPE
  {
    assert |KEY_TYPE| == 15 && |KEY_CONTENT| == 11 && |KEY_HTML| == 11 && |KEY_PLAIN| == 12 && |KEY_URI| == 6 &&
           |KEY_PIXELMAP| == 8 && |KEY_URL| == 3;
  }

  /** An object built from a type and one more item. */
  lemma BuiltObject(utdId: bytes, key: bytes, v: Value)
    requires key != KEY_TYPE
    ensures var items := Assign(FreshObject(utdId), key, v);
            && items != [] && Lookup(items, key) == Some(v) && Lookup(items, KEY_TYPE) == Some(EvText(utdId))
            && forall k :: k != key && k != KEY_TYPE ==> Lookup(items, k) == None
  {
    var m := FreshObject(utdId);
    LookupAssign(m, key, v, key);
    LookupAssign(m, key, v, KEY_TYPE);
    assert m[1..] == [];
    forall k | k != key && k != KEY_TYPE ensures Lookup(Assign(m, key, v), k) == None {
      LookupAssign(m, key, v, k);
    }
  }

  /** The entry value the receiver puts together. */
  function RebuiltValue(e: Entry): Value
    requires HasContent(e)
  {
    if !(HoldsText(e.value) || HoldsPixel(e.value)) then e.value
    else if e.mime == MIME_PLAIN then EvObject(Assign(FreshObject(UTD_PLAIN), KEY_CONTENT, e.value))
    else if e.mime == MIME_HTML then EvObject(Assign(FreshObject(UTD_HTML), KEY_HTML, e.value))
    else if e.mime == MIME_URI then EvObject(Assign(FreshObject(UTD_FILE_URI), KEY_URI, e.value))
    else EvObject(Assign(FreshObject(UTD_PIXELMAP), KEY_PIXELMAP, e.value))
  }

  /** The entry as it arrives: same mime type, file kinds as file URIs, the value put together anew. */
  function Arriving(e: Entry): Entry
    requires HasContent(e)
  {
    Entry(NormalUtdId(e.utdId), e.mime, RebuiltValue(e))
  }

  predicate Rebuilds(e: Entry)
    requires HasContent(e)
  {
    Rebuilt(e) == Some(Arriving(e))
  }

  lemma PlainRebuilds(e: Entry)
    requires TypesMatch(e) && HasContent(e) && e.mime == MIME_PLAIN
    ensures Rebuilds(e)
  {
    MimeNamesDiffer();
    TypeNamesDiffer();
  }

  lemma HtmlRebuilds(e: Entry)
    requires TypesMatch(e) && HasContent(e) && e.mime == MIME_HTML
    ensures Rebuilds(e)
  {
    MimeNamesDiffer();
    TypeNamesDiffer();
  }

  lemma UriRebuilds(e: Entry)
    requires TypesMatch(e) && HasContent(e) && e.mime == MIME_URI
    ensures Rebuilds(e)
  {
    MimeNamesDiffer();
    TypeNamesDiffer();
  }

  lemma OtherRebuilds(e: Entry)
    requires TypesMatch(e) && HasContent(e) && e.mime != MIME_PLAIN && e.mime != MIME_HTML && e.mime != MIME_URI
    ensures Rebuilds(e)
  {
    MimeNamesDiffer();
    TypeNamesDiffer();
  }

  lemma RebuiltShape(e: Entry)
    requires TypesMatch(e) && HasContent(e)
    ensures Rebuilds(e)
  {
    hide Rebuilds, TypesMatch, HasContent;
    if e.mime == MIME_PLAIN {
      PlainRebuilds(e);
    } else if e.mime == MIME_HTML {
      HtmlRebuilds(e);
    } else if e.mime == MIME_URI {
      UriRebuilds(e);
    } else {
      OtherRebuilds(e);
    }
  }

  /** A string value, or a string item of an Object. */
  function TextOr(v: Value, key: bytes): Option<bytes>
  {
    if HoldsText(v) then Some(v.val.s) else if HoldsObject(v) then Some(TextAt(v.val.pairs, key)) else None
  }

  /** The pixel map itself, or the one in an Object that says it is a pixel map. */
  function PixelOr(v: Value): Option<bytes>
  {
    if HoldsPixel(v) then Some(v.val.s)
    else if !HoldsObject(v) || TextAt(v.val.pairs, KEY_TYPE) != UTD_PIXELMAP then None
    else
      var item := Lookup(v.val.pairs, KEY_PIXELMAP);
      if item.Some? && HoldsPixel(item.value) then Some(item.value.val.s) else None
  }

  /** The text fields a first entry is written in, by its mime type. */
  ghost predicate TextFieldsAre(e: Entry, s: Record)
  {
    var key := if e.utdId == UTD_PLAIN then KEY_CONTENT else if e.utdId == UTD_HTML then KEY_PLAIN else KEY_URL;
    var plain := if HoldsObject(e.value) && TextAt(e.value.val.pairs, KEY_PLAIN) != []
                 then Some(TextAt(e.value.val.pairs, KEY_PLAIN)) else None;
    && s.plain == (if e.mime == MIME_PLAIN then TextOr(e.value, key) else if e.mime == MIME_HTML then plain else None)
    && s.html == (if e.mime == MIME_HTML && e.utdId == UTD_HTML then TextOr(e.value, KEY_HTML) else None)
  }

  /** ... and the other legacy fields. */
  ghost predicate OtherFieldsAre(e: Entry, s: Record)
  {
    && s.uri == (if e.mime == MIME_URI && IsFileUri(e.utdId) then TextOr(e.value, KEY_URI) else None)
    && s.want == (if e.mime == MIME_WANT && e.utdId == UTD_WANT && HoldsWant(e.value)
                  then Some(e.value.val.s) else None)
    && s.pixel == (if e.mime == MIME_PIXELMAP && e.utdId == UTD_PIXELMAP then PixelOr(e.value) else None)
  }

  /** A record for another device: its first entry as legacy fields and as the UDMF value, the others as they are. */
  lemma LegacyFieldsAre(r: Record)
    requires r.entries != [] && r.entries[0].Some?
    ensures var e, s := r.entries[0].value, Local2Remote(r);
            && TextFieldsAre(e, s) && OtherFieldsAre(e, s)
            && s.mime == e.mime && s.udType == EnumOf(e.utdId) && s.entries == r.entries[1..]
            && (e.mime != MIME_PIXELMAP ==> s.udmf == e.value)
  {
    hide Local2Remote, TextFieldsAre, OtherFieldsAre, EnumOf;
    TextFieldsSent(r);
    OtherFieldsSent(r);
    FrameSent(r);
  }

  lemma TextFieldsSent(r: Record)
    requires r.entries != [] && r.entries[0].Some?
    ensures TextFieldsAre(r.entries[0].value, Local2Remote(r))
  {
    hide TextAt, Lookup, IsFileUri, EnumOf, AfterConvertToPixelMap, TextOr, HoldsObject;
    hide ConvertToPlainText, ConvertToHtml, ConvertToUri, ConvertToWant, ConvertToPixelMap;
    MimeNamesDiffer();
    ConversionsAre(r.entries[0].value);
  }

  lemma OtherFieldsSent(r: Record)
    requires r.entries != [] && r.entries[0].Some?
    ensures OtherFieldsAre(r.entries[0].value, Local2Remote(r))
  {
    hide TextAt, Lookup, IsFileUri, EnumOf, AfterConvertToPixelMap, TextOr, PixelOr, HoldsObject, HoldsWant;
    hide ConvertToPlainText, ConvertToHtml, ConvertToUri, ConvertToWant, ConvertToPixelMap;
    MimeNamesDiffer();
    ConversionsAre(r.entries[0].value);
  }

  lemma FrameSent(r: Record)
    requires r.entries != [] && r.entries[0].Some?
    ensures var e, s := r.entries[0].value, Local2Remote(r);
            && s.mime == e.mime && s.udType == EnumOf(e.utdId) && s.entries == r.entries[1..]
            && (e.mime != MIME_PIXELMAP ==> s.udmf == e.value)
  {
    hide TextAt, HoldsObject, EnumOf, AfterConvertToPixelMap;
    hide ConvertToPlainText, ConvertToHtml, ConvertToUri, ConvertToWant, ConvertToPixelMap;
  }

  /** A byte vector under the mime type, or the buffer of an Object that has a type, under the type identifier. */
  lemma CustomDataIs(e: Entry)
    ensures HoldsBlob(e.value) ==> ConvertToCustomData(e) == Some(Pair(e.mime, e.value.val.s))
    ensures !HoldsBlob(e.value) && !HoldsObject(e.value) ==> ConvertToCustomData(e) == None
    ensures HoldsObject(e.value) ==>
              var t, b := Lookup(e.value.val.pairs, KEY_TYPE), Lookup(e.value.val.pairs, KEY_BUFFER);
              ConvertToCustomData(e) ==
              if t.Some? && HoldsText(t.value) && b.Some? && HoldsBlob(b.value)
              then Some(Pair(e.utdId, b.value.val.s)) else None
  {
    hide Lookup;
  }

  lemma ConversionsAre(e: Entry)
    ensures ConvertToPlainText(e) ==
            TextOr(e.value,
                   if e.utdId == UTD_PLAIN then KEY_CONTENT else if e.utdId == UTD_HTML then KEY_PLAIN else KEY_URL)
    ensures ConvertToHtml(e) == if e.utdId == UTD_HTML then TextOr(e.value, KEY_HTML) else None
    ensures ConvertToUri(e) == if IsFileUri(e.utdId) then TextOr(e.value, KEY_URI) else None
    ensures ConvertToWant(e) == if e.utdId == UTD_WANT && HoldsWant(e.value) then Some(e.value.val.s) else None
    ensures ConvertToPixelMap(e) == if e.utdId == UTD_PIXELMAP then PixelOr(e.value) else None
  {
    hide TextAt, Lookup, IsFileUri;
  }

  /** The legacy fields alone give no entry: the one that goes with the mime type is not there. */
  predicate NoLegacy(r: Record)
  {
    && (r.mime == MIME_PLAIN ==> r.plain.None?) && (r.mime == MIME_HTML ==> r.html.None?)
    && (r.mime == MIME_URI ==> r.uri.None?) && (r.mime == MIME_PIXELMAP ==> r.pixel.None?)
    && (r.mime == MIME_WANT ==> r.want.None?)
  }

  /** An Object of a type and one more item, and nothing else. */
  ghost predicate IsObjectOf(v: Value, utdId: bytes, key: bytes, x: Value)
  {
    HoldsObject(v) && Lookup(v.val.pairs, KEY_TYPE) == Some(EvText(utdId)) && Lookup(v.val.pairs, key) == Some(x)
  }

  /** What an entry is rebuilt as from a record without a UDMF value, as an older sender leaves it. */
  lemma RebuiltFromLegacy(r: Record)
    requires r.mime != [] && !HoldsObject(r.udmf) && !HoldsBlob(r.udmf)
    ensures Remote2Local(r).None? <==>
            NoLegacy(r) || r.mime !in [MIME_PLAIN, MIME_HTML, MIME_URI, MIME_PIXELMAP, MIME_WANT]
    ensures var e := Remote2Local(r);
            e.Some? ==>
              && e.value.mime == r.mime && e.value.utdId == Convert2UtdId(r.udType, r.mime)
              && (r.mime == MIME_PLAIN && r.plain.Some? ==>
                    IsObjectOf(e.value.value, UTD_PLAIN, KEY_CONTENT, EvText(r.plain.value)))
              && (r.mime == MIME_HTML && r.html.Some? ==>
                    IsObjectOf(e.value.value, UTD_HTML, KEY_HTML, EvText(r.html.value)))
              && (r.mime == MIME_HTML && r.plain.Some? ==>
                    IsObjectOf(e.value.value, UTD_HTML, KEY_PLAIN, EvText(r.plain.value)))
              && (r.mime == MIME_URI && r.uri.Some? ==>
                    IsObjectOf(e.value.value, UTD_FILE_URI, KEY_URI, EvText(r.uri.value)))
              && (r.mime == MIME_PIXELMAP && r.pixel.Some? ==>
                    IsObjectOf(e.value.value, UTD_PIXELMAP, KEY_PIXELMAP, EvPixel(r.pixel.value)))
              && (r.mime == MIME_WANT && r.want.Some? ==> e.value.value == EvWant(r.want.value))
  {
    hide Convert2UtdId, Lookup, Assign, FreshObject;
    MimeNamesDiffer();
    KeysDiffer();
    if r.plain.Some? {
      BuiltObject(UTD_PLAIN, KEY_CONTENT, EvText(r.plain.value));
    }
    if r.html.Some? {
      BuiltObject(UTD_HTML, KEY_HTML, EvText(r.html.value));
      if r.plain.Some? {
        var items := Assign(FreshObject(UTD_HTML), KEY_HTML, EvText(r.html.value));
        LookupAssign(items, KEY_PLAIN, EvText(r.plain.value), KEY_PLAIN);
        LookupAssign(items, KEY_PLAIN, EvText(r.plain.value), KEY_HTML);
        LookupAssign(items, KEY_PLAIN, EvText(r.plain.value), KEY_TYPE);
      }
    }
    if r.uri.Some? {
      BuiltObject(UTD_FILE_URI, KEY_URI, EvText(r.uri.value));
    }
    if r.pixel.Some? {
      BuiltObject(UTD_PIXELMAP, KEY_PIXELMAP, EvPixel(r.pixel.value));
    }
  }

  /** The type an entry is rebuilt under, by the mime type; only a hyperlink needs the type enum. */
  lemma RebuiltType(udType: int32)
    ensures Convert2UtdId(udType, MIME_PLAIN) == if udType == 6 then UTD_HYPERLINK else UTD_PLAIN
    ensures Convert2UtdId(udType, MIME_HTML) == UTD_HTML && Convert2UtdId(udType, MIME_URI) == UTD_FILE_URI
    ensures Convert2UtdId(udType, MIME_WANT) == UTD_WANT && Convert2UtdId(udType, MIME_PIXELMAP) == UTD_PIXELMAP
    ensures forall mime :: mime !in [MIME_PLAIN, MIME_HTML, MIME_URI, MIME_PIXELMAP, MIME_WANT] ==>
              Convert2UtdId(udType, mime) == mime
  {
    MimeNamesDiffer();
  }

  /** The named types and their mime types match: six kinds of file share one. */
  lemma NamedTypesMatch(v: Value)
    ensures TypesMatch(Entry(UTD_PLAIN, MIME_PLAIN, v)) && TypesMatch(Entry(UTD_HYPERLINK, MIME_PLAIN, v))
    ensures TypesMatch(Entry(UTD_HTML, MIME_HTML, v)) && TypesMatch(Entry(UTD_PIXELMAP, MIME_PIXELMAP, v))
    ensures TypesMatch(Entry(UTD_WANT, MIME_WANT, v))
    ensures forall utd :: utd in [UTD_FILE_URI, UTD_FILE, UTD_IMAGE, UTD_VIDEO, UTD_AUDIO, UTD_FOLDER] ==>
              TypesMatch(Entry(utd, MIME_URI, v))
  {
    MimeNamesDiffer();
    TypeNamesDiffer();
    KindsDiffer();
    assert |MIME_PLAIN| == 10 && |MIME_HTML| == 9 && |MIME_URI| == 8 && |MIME_WANT| == 9 && |MIME_PIXELMAP| == 8;
  }

  lemma KindsDiffer()
    ensures UTD_PIXELMAP !in [UTD_PLAIN, UTD_HYPERLINK, UTD_HTML, UTD_WANT]
    ensures UTD_WANT !in [UTD_PLAIN, UTD_HYPERLINK, UTD_HTML] && !IsFileUri(UTD_PIXELMAP) && !IsFileUri(UTD_WANT)
    ensures forall utd :: IsFileUri(utd) ==> utd !in [UTD_PLAIN, UTD_HYPERLINK, UTD_HTML]
  {
    assert |UTD_PLAIN| == 18 && |UTD_HYPERLINK| == 17 && |UTD_HTML| == 12 && |UTD_FILE| == 12 && |UTD_FILE_URI| == 16 &&
           |UTD_AUDIO| == 13 && |UTD_IMAGE| == 13 && |UTD_VIDEO| == 13 && |UTD_FOLDER| == 14 && |UTD_PIXELMAP| == 21 &&
           |UTD_WANT| == 16;
    assert UTD_HTML[8] == 'h' as int && UTD_FILE[8] == 'f' as int;
    assert UTD_FILE_URI[0] == 'g' as int && UTD_WANT[0] == 'o' as int;
  }

  /**
   The first entry keeps its mime type, and its type up to the kind of file. It keeps its content
   exactly when it is not a hyperlink given as a bare string: that one is rebuilt under the key of
   plain text, where a hyperlink is not looked for.
   */
  lemma FirstEntryArrives(e: Entry)
    requires TypesMatch(e) && HasContent(e)
    ensures Rebuilt(e).Some?
    ensures Rebuilt(e).value.mime == e.mime && Rebuilt(e).value.utdId == NormalUtdId(e.utdId)
    ensures ContentOf(Rebuilt(e).value) == ContentOf(e) <==> !IsBareHyperlink(e)
  {
    RebuiltShape(e);
    hide Rebuilt;
    if e.mime == MIME_PLAIN {
      PlainContent(e);
    } else if e.mime == MIME_HTML {
      HtmlContent(e);
    } else if e.mime == MIME_URI {
      UriContent(e);
    } else {
      OtherContent(e);
    }
  }

  /** A hyperlink given as a bare string arrives as a hyperlink with no text. */
  lemma BareHyperlinkIsLost(text: bytes)
    requires text != []
    ensures var e := Entry(UTD_HYPERLINK, MIME_PLAIN, EvText(text));
            && TypesMatch(e) && HasContent(e) && ContentOf(e) == Data(Some(text))
            && Rebuilt(e).Some? && Rebuilt(e).value.utdId == UTD_HYPERLINK
            && ContentOf(Rebuilt(e).value) == Data(Some([]))
  {
    var e := Entry(UTD_HYPERLINK, MIME_PLAIN, EvText(text));
    MimeNamesDiffer();
    TypeNamesDiffer();
    KeysDiffer();
    RebuiltShape(e);
    hide Rebuilt;
    BuiltObject(UTD_PLAIN, KEY_CONTENT, e.value);
  }

  lemma PlainContent(e: Entry)
    requires TypesMatch(e) && HasContent(e) && e.mime == MIME_PLAIN
    ensures ContentOf(Arriving(e)) == ContentOf(e) <==> !IsBareHyperlink(e)
  {
    MimeNamesDiffer();
    TypeNamesDiffer();
    KeysDiffer();
    BuiltObject(UTD_PLAIN, KEY_CONTENT, e.value);
  }

  lemma HtmlContent(e: Entry)
    requires TypesMatch(e) && HasContent(e) && e.mime == MIME_HTML
    ensures ContentOf(Arriving(e)) == ContentOf(e) && !IsBareHyperlink(e)
  {
    MimeNamesDiffer();
    TypeNamesDiffer();
    KeysDiffer();
    BuiltObject(UTD_HTML, KEY_HTML, e.value);
  }

  lemma UriContent(e: Entry)
    requires TypesMatch(e) && HasContent(e) && e.mime == MIME_URI
    ensures ContentOf(Arriving(e)) == ContentOf(e) && !IsBareHyperlink(e)
  {
    MimeNamesDiffer();
    TypeNamesDiffer();
    KeysDiffer();
    BuiltObject(UTD_FILE_URI, KEY_URI, e.value);
  }

  lemma OtherContent(e: Entry)
    requires TypesMatch(e) && HasContent(e) && e.mime != MIME_PLAIN && e.mime != MIME_HTML && e.mime != MIME_URI
    ensures ContentOf(Arriving(e)) == ContentOf(e) && !IsBareHyperlink(e)
  {
    MimeNamesDiffer();
    TypeNamesDiffer();
    KeysDiffer();
    hide IsFileUri, ConvertToPlainText, ConvertToHtml, ConvertToUri;
    if e.mime == MIME_PIXELMAP {
      BuiltObject(UTD_PIXELMAP, KEY_PIXELMAP, e.value);
    }
  }

  /** A rebuilt entry is rebuilt as itself. */
  lemma RebuiltIsStable(e: Entry)
    requires TypesMatch(e) && HasContent(e) && !IsBareHyperlink(e)
    ensures var a := Arriving(e);
            TypesMatch(a) && HasContent(a) && !IsBareHyperlink(a) && Rebuilt(a) == Some(a)
  {
    var a := Arriving(e);
    ArrivingTypes(e);
    FirstEntryArrives(e);
    RebuiltShape(e);
    assert HasContent(a) by {
      hide RebuiltValue, Rebuilt;
    }
    ArrivingValue(e);
    RebuiltShape(a);
    ArrivingTypes(a);
  }

  lemma ArrivingTypes(e: Entry)
    requires TypesMatch(e) && HasContent(e)
    ensures TypesMatch(Arriving(e)) && NormalUtdId(NormalUtdId(e.utdId)) == NormalUtdId(e.utdId)
  {
    MimeNamesDiffer();
    TypeNamesDiffer();
    hide RebuiltValue, HasContent;
  }

  lemma ArrivingValue(e: Entry)
    requires TypesMatch(e) && HasContent(e) && !IsBareHyperlink(e)
    ensures !HoldsText(RebuiltValue(e)) && !HoldsPixel(RebuiltValue(e))
  {
    hide TypesMatch, HasContent;
  }

  // ----- the whole record

  /** The fields Remote2Local looks at are the same. */
  predicate SameLegacy(a: Record, b: Record)
  {
    && a.mime == b.mime && a.udType == b.udType && a.udmf == b.udmf && a.plain == b.plain && a.html == b.html
    && a.uri == b.uri && a.pixel == b.pixel && a.want == b.want
  }

  lemma LegacyDecides(a: Record, b: Record)
    requires SameLegacy(a, b)
    ensures Remote2Local(a) == Remote2Local(b)
  {
    hide Convert2UtdId, FreshObject, Assign, HoldsObject, HoldsBlob;
  }

  lemma FirstEntryDecides(r: Record, e: Entry)
    requires r.entries != [] && r.entries[0] == Some(e)
    ensures var s := Local2Remote(r);
            && SameLegacy(s, Local2Remote(Carrier(e)))
            && s == r.(mime := e.mime, udType := EnumOf(e.utdId), entries := r.entries[1..], udmf := s.udmf,
                       plain := s.plain, html := s.html, uri := s.uri, pixel := s.pixel, want := s.want)
  {
    hide ConvertToPixelMap, ConvertToWant, ConvertToHtml, ConvertToPlainText, ConvertToUri, TextAt, EnumOf, HoldsObject;
  }

  /**
   A record whose first entry can be rebuilt arrives with that entry rebuilt, every other entry
   (except null ones) as it was, the entry's mime type and enum as its own, and no legacy fields.
   */
  lemma RemoteRecordArrives(r: Record, e: Entry)
    requires r.entries != [] && r.entries[0] == Some(e) && TypesMatch(e) && HasContent(e)
    ensures Received(true, r) ==
            r.(entries := [Some(Arriving(e))] + NonNull(r.entries[1..]), mime := e.mime, udType := EnumOf(e.utdId),
               udmf := Null, plain := None, html := None, uri := None, pixel := None, want := None)
  {
    hide Local2Remote, Remote2Local, TypesMatch, HasContent, EnumOf, Arriving;
    RebuiltShape(e);
    FirstEntryDecides(r, e);
    var s := Local2Remote(r);
    LegacyDecides(s.(entries := NonNull(s.entries)), Local2Remote(Carrier(e)));
    HasMime(e);
  }

  lemma HasMime(e: Entry)
    requires TypesMatch(e)
    ensures e.mime != []
  {
  }

  /** File kinds have enums of their own, so only their enum moves on a second trip. */
  lemma EnumIsStable(utdId: bytes)
    ensures EnumOf(NormalUtdId(utdId)) == EnumOf(utdId) <==> !IsFileUri(utdId) || utdId == UTD_FILE_URI
  {
    assert |UTD_PLAIN| == 18 && |UTD_HYPERLINK| == 17 && |UTD_HTML| == 12 && |UTD_FILE| == 12 && |UTD_FILE_URI| == 16 &&
           |UTD_AUDIO| == 13 && |UTD_IMAGE| == 13 && |UTD_VIDEO| == 13 && |UTD_FOLDER| == 14;
    assert UTD_HTML[8] == 'h' as int && UTD_FILE[8] == 'f' as int;
  }

  /**
   A second trip changes nothing but the record's type enum, and that only when the first entry was
   of a file kind other than a plain file URI.
   */
  lemma SecondTrip(r: Record, e: Entry)
    requires r.entries != [] && r.entries[0] == Some(e) && TypesMatch(e) && HasContent(e) && !IsBareHyperlink(e)
    ensures var q := Received(true, r);
            && Received(true, q) == q.(udType := EnumOf(NormalUtdId(e.utdId)))
            && (Received(true, q) == q <==> !IsFileUri(e.utdId) || e.utdId == UTD_FILE_URI)
  {
    hide TypesMatch, HasContent, IsBareHyperlink, EnumOf, Received, RebuiltValue, Rebuilt;
    var q, a, rest := Received(true, r), Arriving(e), NonNull(r.entries[1..]);
    RemoteRecordArrives(r, e);
    RebuiltIsStable(e);
    RebuiltShape(a);
    RemoteRecordArrives(q, a);
    EnumIsStable(e.utdId);
    assert q.entries[1..] == rest;
    NonNullOfComplete(rest);
  }

  // ----- whole clipboard data

  /** The first entry is there, typed, and has content. */
  predicate Rebuildable(r: Record)
  {
    r.entries != [] && r.entries[0].Some? && TypesMatch(r.entries[0].value) && HasContent(r.entries[0].value)
  }

  /** A record as it arrives on the other device. */
  function Across(r: Record): Record
    requires Rebuildable(r)
  {
    var e := r.entries[0].value;
    r.(entries := [Some(Arriving(e))] + NonNull(r.entries[1..]), mime := e.mime, udType := EnumOf(e.utdId),
       udmf := Null, plain := None, html := None, uri := None, pixel := None, want := None)
  }

  predicate AllRebuildable(rs: seq<Option<Record>>)
  {
    forall i :: 0 <= i < |rs| ==> rs[i].Some? && Rebuildable(rs[i].value)
  }

  function AcrossAll(rs: seq<Option<Record>>): (r: seq<Option<Record>>)
    requires AllRebuildable(rs)
    ensures |r| == |rs|
  {
    seq(|rs|, i requires 0 <= i < |rs| => Some(Across(rs[i].value)))
  }

  lemma {:induction false} RecordsCross(rs: seq<Option<Record>>)
    requires AllRebuildable(rs)
    ensures ReceivedRecords(true, rs) == AcrossAll(rs)
    decreases |rs|
  {
    hide Rebuildable, Across, Received;
    if rs != [] {
      RecordCrosses(rs[0].value);
      RecordsCross(rs[1..]);
      assert AcrossAll(rs) == [Some(Across(rs[0].value))] + AcrossAll(rs[1..]);
    }
  }

  lemma RecordCrosses(r: Record)
    requires Rebuildable(r)
    ensures Received(true, r) == Across(r)
  {
    hide TypesMatch, HasContent, EnumOf, Received, Arriving;
    RemoteRecordArrives(r, r.entries[0].value);
  }

  /**
   Clipboard data encoded for another device and decoded there, zero tail included: every field as it
   was, and every record with its first entry rebuilt.
   */
  lemma RemoteDataArrives(p: PasteData, k: nat)
    requires PasteFits(true, p) && AllRebuildable(p.records) && |Message(true, p, k)| < TWO32
    ensures ReadData(Message(true, p, k)) ==
            if RecordsNestWithin(true, p.records, 3) && !SendsNull(true, p.records)
            then Some(p.(records := AcrossAll(p.records))) else None
  {
    hide Message, ReadData, Decode, PasteFits, SendsNull, RecordsNestWithin, AcrossAll, AllRebuildable;
    PasteDataArrives(true, p, k);
    RecordsCross(p.records);
  }

  // ----- a pixel map object without a pixel map

  /** Sending it gives it an empty pixel map, and so it arrives with one more item than it had. */
  lemma PixelMapIsInserted(e: Entry)
    requires e.utdId == UTD_PIXELMAP && e.mime == MIME_PIXELMAP && HoldsObject(e.value)
    requires TextAt(e.value.val.pairs, KEY_TYPE) == UTD_PIXELMAP && Lookup(e.value.val.pairs, KEY_PIXELMAP).None?
    ensures Rebuilt(e) == Some(e.(value := EvObject(Assign(e.value.val.pairs, KEY_PIXELMAP, EvMono()))))
  {
    hide Lookup, TextAt, Assign, EnumOf, ConvertToPixelMap;
    MimeNamesDiffer();
    var pairs := e.value.val.pairs;
    var more := Assign(pairs, KEY_PIXELMAP, EvMono());
    assert more != [] by { LookupAssign(pairs, KEY_PIXELMAP, EvMono(), KEY_PIXELMAP); }
  }

  // ----- the second trip of whole clipboard data

  predicate NoBareHyperlink(rs: seq<Option<Record>>)
    requires AllRebuildable(rs)
  {
    forall i :: 0 <= i < |rs| ==> !IsBareHyperlink(rs[i].value.entries[0].value)
  }

  /** The first entry is not of a file kind with an enum of its own. */
  predicate KeepsEnum(r: Record)
    requires Rebuildable(r)
  {
    !IsFileUri(r.entries[0].value.utdId) || r.entries[0].value.utdId == UTD_FILE_URI
  }

  /** The record after the second trip: the enum of a file kind has become that of a file URI. */
  function Settled(r: Record): Record
    requires Rebuildable(r)
  {
    Across(r).(udType := EnumOf(NormalUtdId(r.entries[0].value.utdId)))
  }

  function SettledAll(rs: seq<Option<Record>>): (r: seq<Option<Record>>)
    requires AllRebuildable(rs)
    ensures |r| == |rs|
  {
    seq(|rs|, i requires 0 <= i < |rs| => Some(Settled(rs[i].value)))
  }

  lemma ArrivingIsOk(e: Entry)
    requires EntryOk(e) && HasContent(e)
    ensures EntryOk(Arriving(e)) && Nesting(Arriving(e).value) <= Max(1, Nesting(e.value))
  {
    hide HasContent, WellTyped, PasteClasses, Nesting, EvObject, Assign;
    var v := RebuiltValue(e);
    if HoldsText(e.value) || HoldsPixel(e.value) {
      PlainNests(e.value);
      var utdId, key :| v == EvObject(Assign(FreshObject(utdId), key, e.value));
      BuiltIsOk(utdId, key, e.value);
    }
  }

  lemma PlainNests(v: Value)
    requires HoldsText(v) || HoldsPixel(v)
    ensures Nesting(v) == 0
  {
    assert Nesting(v.val) == 0;
  }

  lemma BuiltIsOk(utdId: bytes, key: bytes, v: Value)
    requires WellTyped(PasteClasses(), TEntryValue, v) && Nesting(v) == 0
    ensures var o := EvObject(Assign(FreshObject(utdId), key, v));
            WellTyped(PasteClasses(), TEntryValue, o) && Nesting(o) == 1
  {
    hide PasteClasses, WellTyped, Nesting, EvText, Less, EvObject;
    var c, m := PasteClasses(), FreshObject(utdId);
    var o := Assign(m, key, v);
    TextIsOk(utdId);
    AssignSorted(m, key, v);
    forall i | 0 <= i < |o| ensures WellTyped(c, TEntryValue, o[i].val) && Nesting(o[i].val) == 0 {
      AssignKeys(m, key, v, i);
    }
    FlatNesting(o);
    ObjectStep(c, o);
  }

  lemma {:induction false} FlatNesting(pairs: Items)
    requires forall i :: 0 <= i < |pairs| ==> Nesting(pairs[i].val) == 0
    ensures NestingOf(pairs) == 0
    decreases |pairs|
  {
    hide Nesting;
    if pairs != [] {
      FlatNesting(pairs[1..]);
    }
  }

  lemma TextIsOk(s: bytes)
    ensures WellTyped(PasteClasses(), TEntryValue, EvText(s)) && Nesting(EvText(s)) == 0
  {
    hide PasteClasses;
    TextStep(PasteClasses(), s);
    assert EntryAlts()[5] == TText && WellTyped(PasteClasses(), EntryAlts()[5], Text(s));
    assert Nesting(Text(s)) == 0;
  }

  /** The entries behind the first one, without null ones, fit and nest as before. */
  lemma OthersFit(r: Record, n: nat, x: Option<Entry>)
    requires RecordFits(r) && Rebuildable(r) && NestsWithin(Sent(true, r), n) && !HasNullEntry(Sent(true, r))
    requires x in NonNull(r.entries[1..])
    ensures x.Some? && EntryOk(x.value) && Nesting(x.value.value) <= n && !IsNullValue(x.value.value)
  {
    hide TypesMatch, HasContent, EntryOk, Nesting, FrameOk, EnumOf, Local2Remote, IsNullValue, SentValue, EvMono;
    var rest, s := r.entries[1..], Sent(true, r);
    RemoteFrame(r);
    var j :| 0 <= j < |rest| && rest[j] == x;
    assert s.entries[j] == x && r.entries[j + 1] == x;
    assert !NullAt(s, j);
  }

  /** An arrived record can be sent again. */
  lemma AcrossFits(r: Record, n: nat)
    requires RecordFits(r) && FirstOk(r) && Rebuildable(r)
    requires NestsWithin(Sent(true, r), n) && !HasNullEntry(Sent(true, r))
    ensures RecordFits(Across(r)) && FirstOk(Across(r))
  {
    hide TypesMatch, HasContent, EntryOk, Nesting, CustomOk, WellTyped, PasteClasses, EnumOf, Local2Remote, IsNullValue;
    hide Arriving;
    hide NestsWithin, HasNullEntry, Sent;
    var e, q := r.entries[0].value, Across(r);
    ArrivingIsOk(e);
    forall i | 0 <= i < |q.entries| && q.entries[i].Some? ensures EntryOk(q.entries[i].value) {
      if i > 0 {
        assert q.entries[i] in NonNull(r.entries[1..]);
        OthersFit(r, n, q.entries[i]);
      }
    }
  }

  /** ... and nests no deeper than before. */
  lemma AcrossNests(r: Record, n: nat)
    requires RecordFits(r) && FirstOk(r) && Rebuildable(r) && n >= 1
    requires NestsWithin(Sent(true, r), n) && !HasNullEntry(Sent(true, r))
    ensures NestsWithin(Sent(true, Across(r)), n) && !HasNullEntry(Sent(true, Across(r)))
  {
    hide TypesMatch, HasContent, EntryOk, Nesting, EnumOf, Local2Remote, IsNullValue, SentValue, Arriving, EvMono;
    hide RecordFits;
    var e, q := r.entries[0].value, Across(r);
    var s, t := Sent(true, r), Sent(true, q);
    assert q.entries[0] == Some(Arriving(e)) && q.entries[1..] == NonNull(r.entries[1..]);
    RemoteFrame(q);
    RemoteValue(r);
    RemoteValue(q);
    SentValueIsOk(e);
    ArrivingIsOk(e);
    SentValueIsOk(Arriving(e));
    SentValueIsThere(e);
    forall i: nat | i < |t.entries|
      ensures t.entries[i].Some? && Nesting(t.entries[i].value.value) <= n && !NullAt(t, i)
    {
      assert t.entries[i] in NonNull(r.entries[1..]);
      OthersFit(r, n, t.entries[i]);
    }
  }

  lemma SentValueIsThere(e: Entry)
    requires EntryOk(e)
    ensures !SentValue(e).Null?
  {
    hide PasteClasses, WellTyped, Lookup, TextAt, Assign;
    VariantStep(PasteClasses(), TEntryValue, e.value);
  }

  lemma SettledRecord(r: Record)
    requires Rebuildable(r) && !IsBareHyperlink(r.entries[0].value)
    ensures Rebuildable(Across(r)) && Across(Across(r)) == Settled(r)
    ensures Settled(r) == Across(r) <==> KeepsEnum(r)
  {
    hide TypesMatch, HasContent, IsBareHyperlink, EnumOf, Received, Arriving, IsFileUri;
    var e := r.entries[0].value;
    RebuiltIsStable(e);
    RecordCrosses(r);
    RecordCrosses(Across(r));
    SecondTrip(r, e);
  }

  /**
   Clipboard data that was sent to another device and is sent on from there: it arrives with nothing
   changed but the type enums of records whose first entry was of another file kind.
   */
  lemma SecondDataTrip(p: PasteData, k: nat)
    requires PasteFits(true, p) && AllRebuildable(p.records) && NoBareHyperlink(p.records)
    requires RecordsNestWithin(true, p.records, 3) && !SendsNull(true, p.records)
    requires |Message(true, p.(records := AcrossAll(p.records)), k)| < TWO32
    ensures var q := p.(records := AcrossAll(p.records));
            ReadData(Message(true, q, k)) == Some(q.(records := SettledAll(p.records)))
    ensures SettledAll(p.records) == AcrossAll(p.records) <==>
            forall i :: 0 <= i < |p.records| ==> KeepsEnum(p.records[i].value)
  {
    hide ReadData, Message, PasteClasses, RecordFits, FirstOk, NestsWithin, HasNullEntry, Sent;
    hide Rebuildable, Across, Settled, IsBareHyperlink, KeepsEnum;
    var rs, q := p.records, p.(records := AcrossAll(p.records));
    forall i | 0 <= i < |rs|
      ensures RecordFits(q.records[i].value) && FirstOk(q.records[i].value) && Rebuildable(q.records[i].value)
      ensures NestsWithin(Sent(true, q.records[i].value), 3) && !HasNullEntry(Sent(true, q.records[i].value))
      ensures Across(q.records[i].value) == Settled(rs[i].value)
      ensures Settled(rs[i].value) == Across(rs[i].value) <==> KeepsEnum(rs[i].value)
    {
      AcrossFits(rs[i].value, 3);
      AcrossNests(rs[i].value, 3);
      SettledRecord(rs[i].value);
    }
    RemoteDataArrives(q, k);
    assert AcrossAll(q.records) == SettledAll(rs);
    if SettledAll(rs) == AcrossAll(rs) {
      forall i | 0 <= i < |rs| ensures Settled(rs[i].value) == Across(rs[i].value) {
        assert SettledAll(rs)[i] == AcrossAll(rs)[i];
      }
    }
  }
}
