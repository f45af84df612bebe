/**
 Encoding and decoding whole clipboard data, locally and across devices: what arrives, and exactly
 when it arrives.
 */
module Clipboard {
  import opened Bytes
  import opened Assoc
  import opened Tlv
  import opened ReaderSpec
  import opened RoundTrip
  import opened Compat
  import opened Unreadable
  import opened PasteModel
  import opened PasteCodec

  // ----- whole clipboard data

  function ReceivedRecords(remote: bool, rs: seq<Option<Record>>): seq<Option<Record>>
  {
    if rs == [] then []
    else (if rs[0].Some? then [Some(Received(remote, rs[0].value))] else []) + ReceivedRecords(remote, rs[1..])
  }

  /** The clipboard data the receiver ends up with. */
  function ReceivedData(remote: bool, p: PasteData): PasteData
  {
    p.(records := ReceivedRecords(remote, p.records))
  }

  ghost predicate RecordsNestWithin(remote: bool, rs: seq<Option<Record>>, n: nat)
  {
    forall i :: 0 <= i < |rs| && rs[i].Some? ==> NestsWithin(Sent(remote, rs[i].value), n)
  }

  lemma LookupIsTyped(c: Classes, items: Items, key: bytes)
    requires forall i :: 0 <= i < |items| ==> WellTyped(c, TEntryValue, items[i].val)
    ensures var v := Lookup(items, key); v.Some? ==> WellTyped(c, TEntryValue, v.value)
  {
    hide WellTyped;
  }

  lemma ConvertedPixelMap(e: Entry)
    requires EntryOk(e)
    ensures ConvertToPixelMap(e) != Some([]) && ConvertToWant(e) != Some([])
  {
    var c := PasteClasses();
    Alternative(c, e.value);
    SharedIsNotEmpty(c, e.value);
    if HoldsObject(e.value) {
      var items := e.value.val.pairs;
      LookupIsTyped(c, items, KEY_PIXELMAP);
      var v := Lookup(items, KEY_PIXELMAP);
      if v.Some? {
        SharedIsNotEmpty(c, v.value);
      }
    }
  }

  lemma SharedIsNotEmpty(c: Classes, v: Value)
    requires WellTyped(c, TEntryValue, v)
    ensures v.Variant? && v.val.Shared? ==> v.val.s != []
  {
    var alt := EntryAlts()[v.index];
    assert WellTyped(c, alt, v.val);
  }

  lemma MonoIsTyped()
    ensures WellTyped(PasteClasses(), TEntryValue, EvMono()) && Nesting(EvMono()) == 0
  {
    assert EntryAlts()[0] == TMono;
  }

  /** What Local2Remote keeps and where the rest comes from. */
  lemma RemoteShape(r: Record)
    ensures var s, first := Local2Remote(r), r.entries != [] && r.entries[0].Some?;
            && s.custom == r.custom && s.details == r.details && s.sys == r.sys
            && s.udmf == (if first then SentValue(r.entries[0].value) else EvMono())
            && s.entries == (if first then r.entries[1..] else [])
            && (s.want.None? || (first && s.want == ConvertToWant(r.entries[0].value)))
            && (s.pixel.None? || (first && s.pixel == ConvertToPixelMap(r.entries[0].value)))
  {
    hide Local2Remote, ConvertToPixelMap, ConvertToWant, SentValue, EvMono;
    RemoteFrame(r);
    RemoteValue(r);
    RemotePointers(r);
  }

  lemma RemoteFrame(r: Record)
    ensures var s, first := Local2Remote(r), r.entries != [] && r.entries[0].Some?;
            && s.custom == r.custom && s.details == r.details && s.sys == r.sys
            && s.entries == (if first then r.entries[1..] else [])
  {
    hide ConvertToPixelMap, ConvertToWant, ConvertToHtml, ConvertToPlainText, ConvertToUri, TextAt, EnumOf, HoldsObject;
    hide AfterConvertToPixelMap;
  }

  lemma RemoteValue(r: Record)
    ensures Local2Remote(r).udmf ==
            if r.entries != [] && r.entries[0].Some? then SentValue(r.entries[0].value) else EvMono()
  {
    hide ConvertToPixelMap, ConvertToWant, ConvertToHtml, ConvertToPlainText, ConvertToUri, TextAt, EnumOf, HoldsObject;
    hide AfterConvertToPixelMap;
    MimeNamesDiffer();
  }

  lemma RemotePointers(r: Record)
    ensures var s, first := Local2Remote(r), r.entries != [] && r.entries[0].Some?;
            && (s.want.None? || (first && s.want == ConvertToWant(r.entries[0].value)))
            && (s.pixel.None? || (first && s.pixel == ConvertToPixelMap(r.entries[0].value)))
  {
    hide ConvertToPixelMap, ConvertToWant, ConvertToHtml, ConvertToPlainText, ConvertToUri, TextAt, EnumOf, HoldsObject;
    hide AfterConvertToPixelMap;
  }

  /** The first entry's value as it is written for another device. */
  function SentValue(e: Entry): Value { if e.mime == MIME_PIXELMAP then AfterConvertToPixelMap(e) else e.value }

  lemma {:induction false} NestingOfInserted(pairs: Items, key: bytes)
    requires Lookup(pairs, key).None?
    ensures NestingOf(Assign(pairs, key, EvMono())) == NestingOf(pairs)
    decreases |pairs|
  {
    hide Nesting, EvMono, Less;
    assert Nesting(EvMono()) == 0 by { MonoIsTyped(); }
    if pairs != [] && !Less(key, pairs[0].key) {
      assert pairs[0].key != key;
      NestingOfInserted(pairs[1..], key);
      assert Assign(pairs, key, EvMono())[1..] == Assign(pairs[1..], key, EvMono());
    } else {
      assert Assign(pairs, key, EvMono())[1..] == pairs;
    }
  }

  /** Written for another device, the value is still well typed and nests no deeper. */
  lemma SentValueIsOk(e: Entry)
    requires EntryOk(e)
    ensures WellTyped(PasteClasses(), TEntryValue, SentValue(e)) && Nesting(SentValue(e)) == Nesting(e.value)
  {
    hide WellTyped, PasteClasses, TextAt, Lookup, Assign, Nesting, NestingOf, EvMono, Sorted, EvObject;
    var c, v := PasteClasses(), SentValue(e);
    if v != e.value {
      var pairs := e.value.val.pairs;
      var more := Assign(pairs, KEY_PIXELMAP, EvMono());
      MonoIsTyped();
      ObjectIs(c, e.value);
      ObjectStep(c, pairs);
      AssignSorted(pairs, KEY_PIXELMAP, EvMono());
      forall i | 0 <= i < |more| ensures WellTyped(c, TEntryValue, more[i].val) {
        AssignKeys(pairs, KEY_PIXELMAP, EvMono(), i);
      }
      ObjectStep(c, more);
      NestingOfInserted(pairs, KEY_PIXELMAP);
    }
  }

  lemma ObjectIs(c: Classes, v: Value)
    requires WellTyped(c, TEntryValue, v) && HoldsObject(v)
    ensures v == EvObject(v.val.pairs)
  {
    hide Sorted;
    VariantStep(c, TEntryValue, v);
    PtrStep(c, TObject, v.val);
  }

  lemma ObjectStep(c: Classes, pairs: Items)
    ensures WellTyped(c, TEntryValue, EvObject(pairs)) <==>
            Sorted(pairs) && forall i :: 0 <= i < |pairs| ==> WellTyped(c, TEntryValue, pairs[i].val)
    ensures Nesting(EvObject(pairs)) == 1 + NestingOf(pairs)
  {
    var x := Dict(TAG_MAP_VALUE_TYPE, pairs);
    assert EntryAlts()[9] == TPtr(TObject);
    assert WellTyped(c, TPtr(TObject), x) <==> WellTyped(c, TObject, x);
  }

  lemma SentFrame(remote: bool, r: Record)
    requires FrameOk(r) && (remote ==> FirstOk(r))
    ensures FrameOk(Sent(remote, r))
  {
    hide WellTyped, ConvertToPixelMap, ConvertToWant, Local2Remote, EvMono, CustomOk, SentValue;
    MonoIsTyped();
    RemoteShape(r);
    if remote && r.entries != [] && r.entries[0].Some? {
      ConvertedPixelMap(r.entries[0].value);
      SentValueIsOk(r.entries[0].value);
    }
  }

  /** What is sent for a record whose first entry is not null is well formed up to null values. */
  lemma SentFits(remote: bool, r: Record)
    requires RecordFits(r) && (remote ==> FirstOk(r))
    ensures RecordFits(Sent(remote, r))
    ensures RecordOk(r) ==> RecordOk(Sent(remote, r))
  {
    hide FrameOk, EntryOk, FirstOk, Local2Remote, IsNullValue;
    SentFrame(remote, r);
    RemoteShape(r);
  }

  /** A record in the vector: its structure, what it is read back as, and the guards it takes. */
  lemma RecordValueBack(remote: bool, r: Record)
    requires RecordOk(Sent(remote, r))
    ensures var c, ty, v := PasteClasses(), TPtr(TStruct(KRecord)), RecordValue(remote, Some(r));
            && WellTyped(c, ty, v) && !v.Null?
            && Norm(c, ty, v) == RecordValue(false, Some(Received(remote, r)))
            && (Need(c, ty, v) <= 9 <==> NestsWithin(Sent(remote, r), 3))
  {
    hide RecordFields, RecordOrder, Arrived, FinishRecord, Local2Remote, NormFields, NeedFields, WellTypedFields;
    hide NestsWithin;
    hide PasteClasses, WellTyped, Norm, Need, AsRecord;
    var c, s := PasteClasses(), Sent(remote, r);
    RecordBack(remote, s);
    ArrivedRecord(s);
    RecordFinish(Arrived(s));
    StructStep(c, KRecord, RecordOrder(remote), RecordFields(s));
    PtrStep(c, TStruct(KRecord), RecordValue(remote, Some(r)));
  }

  lemma RecordFinish(f: seq<Value>)
    requires |f| == 19
    ensures PasteClasses().finish(KRecord, f) == RecordFields(FinishRecord(AsRecord(f)))
    ensures PasteClasses().order(KRecord) == RecordOrder(false)
  {
    hide RecordFields, FinishRecord, AsRecord, RecordOrder;
  }

  lemma RecordValuesCons(remote: bool, r: Option<Record>, rest: seq<Option<Record>>)
    ensures RecordValues(remote, [r] + rest) == [RecordValue(remote, r)] + RecordValues(remote, rest)
  {
    hide RecordValue;
  }

  lemma NullRecord(remote: bool)
    ensures RecordValue(remote, None) == Null && WellTyped(PasteClasses(), TPtr(TStruct(KRecord)), Null)
  {
  }

  /** No entry that is sent has a null value. */
  ghost predicate RecordsOk(remote: bool, rs: seq<Option<Record>>)
  {
    forall i :: 0 <= i < |rs| && rs[i].Some? ==> RecordOk(Sent(remote, rs[i].value))
  }

  lemma {:induction false} RecordsBack(remote: bool, rs: seq<Option<Record>>)
    requires RecordsOk(remote, rs)
    ensures var c, elem, vs := PasteClasses(), TPtr(TStruct(KRecord)), RecordValues(remote, rs);
            && (forall i :: 0 <= i < |vs| ==> WellTyped(c, elem, vs[i]))
            && NormItems(c, elem, vs) == RecordValues(false, ReceivedRecords(remote, rs))
            && (NeedItems(c, elem, vs) <= 9 <==> RecordsNestWithin(remote, rs, 3))
    decreases |rs|
  {
    hide RecordValue, RecordValues, Norm, Need, WellTyped, RecordOk, NestsWithin, Received, Sent, PasteClasses;
    if rs == [] {
      assert RecordValues(remote, rs) == [] && RecordValues(false, []) == [];
    } else {
      var r, rest, vs := rs[0], rs[1..], RecordValues(remote, rs);
      assert rs == [r] + rest;
      RecordsBack(remote, rest);
      RecordValuesCons(remote, r, rest);
      assert vs[1..] == RecordValues(remote, rest) && vs[0] == RecordValue(remote, r);
      assert forall i :: 0 < i < |rs| ==> rs[i] == rest[i - 1];
      assert forall i :: 0 < i < |vs| ==> vs[i] == vs[1..][i - 1];
      assert forall i :: 0 <= i < |rest| ==> rest[i] == rs[i + 1];
      if r.Some? {
        RecordValueBack(remote, r.value);
        RecordValuesCons(false, Some(Received(remote, r.value)), ReceivedRecords(remote, rest));
      } else {
        NullRecord(remote);
        NullHasNoBytes(PasteClasses(), TPtr(TStruct(KRecord)), 0);
        Regroup([], [], ReceivedRecords(remote, rest));
        Regroup([], [], RecordValues(false, ReceivedRecords(remote, rest)));
      }
    }
  }

  lemma TextItemsAreNormal(ts: seq<bytes>)
    ensures NormItems(PasteClasses(), TText, Texts(ts)) == Texts(ts)
    ensures NeedItems(PasteClasses(), TText, Texts(ts)) == 0
    decreases |ts|
  {
    hide PasteClasses, Norm, Need;
    if ts != [] {
      TextItemsAreNormal(ts[1..]);
      assert Texts(ts)[1..] == Texts(ts[1..]);
      TextStep(PasteClasses(), ts[0]);
      assert Texts(ts) == [Text(ts[0])] + Texts(ts[1..]);
    }
  }

  lemma TextsCome(ts: seq<bytes>)
    ensures Comes(TVec(TText), List(Texts(ts)), List(Texts(ts)), 1)
  {
    hide PasteClasses, WellTyped, Norm, Need, NormItems, NeedItems;
    TextItemsAreNormal(ts);
    VecStep(PasteClasses(), TText, Texts(ts));
    forall i | 0 <= i < |ts| ensures WellTyped(PasteClasses(), TText, Texts(ts)[i]) {
      TextStep(PasteClasses(), ts[i]);
    }
  }

  lemma PropertyFieldComes(p: Property, i: nat)
    requires p.additions != [] && i < 11
    ensures Comes(FieldTypes(KProps)[i], PropertyFields(p)[i], PropertyFields(p)[i], 1)
  {
    hide Norm, Need, WellTyped, Texts;
    if i == 1 {
      TextsCome(p.mimeTypes);
    } else {
      LeafComes(FieldTypes(KProps)[i], PropertyFields(p)[i]);
    }
  }

  lemma PlainOrderIsPermutation()
    ensures IsPermutation(PLAIN_ORDER, 11)
  {
    forall j: nat | j < 11 ensures PLAIN_ORDER[j] == j {
    }
  }

  lemma PropertyComes(p: Property)
    requires p.additions != []
    ensures Comes(TStruct(KProps), Struct(PLAIN_ORDER, PropertyFields(p)), Struct(PLAIN_ORDER, PropertyFields(p)), 1)
  {
    hide Norm, Need, WellTyped, PropertyFields, FieldTypes, NeedFields, IsPermutation;
    var c, f, v := PasteClasses(), PropertyFields(p), Struct(PLAIN_ORDER, PropertyFields(p));
    assert |FieldTypes(KProps)| == 11 by { InitialPropertyIsFresh(); }
    forall i: nat | i < 11 ensures Comes(FieldTypes(KProps)[i], f[i], f[i], 1) {
      PropertyFieldComes(p, i);
    }
    PlainOrderIsPermutation();
    NeedOfAll(c, KProps, PLAIN_ORDER, f, 1);
    assert NormFields(c, KProps, f) == f;
    assert WellTypedFields(c, KProps, PLAIN_ORDER, f);
    PropertyStruct(v);
  }

  lemma PropertyStruct(v: Value)
    requires v.Struct? && v.order == PLAIN_ORDER && WellTypedFields(PasteClasses(), KProps, PLAIN_ORDER, v.fields)
    requires NormFields(PasteClasses(), KProps, v.fields) == v.fields
    requires NeedFields(PasteClasses(), KProps, PLAIN_ORDER, v.fields) <= 1
    ensures Comes(TStruct(KProps), v, v, 1)
  {
    hide NormFields, NeedFields, WellTypedFields;
  }

  function PasteValue(p: PasteData): Value { Struct(PLAIN_ORDER, PasteFields(false, p)) }

  /** The bytes that are sent: the fields of the data, and k blank heads of over-counted room. */
  function Message(remote: bool, p: PasteData, k: nat): bytes
  {
    EncFields(PLAIN_ORDER, PasteFields(remote, p)) + Zeros(HEAD * k)
  }

  /** The attributes of the data that the receiver gets out of a buffer, if it decodes. */
  function ReadData(d: bytes): Option<PasteData>
  {
    var v := Decode(PasteClasses(), KPaste, d);
    if v.None? then None else AsPasteData(v.value)
  }

  lemma PasteFieldComes(remote: bool, p: PasteData, i: nat)
    requires p.props.additions != [] && RecordsOk(remote, p.records) && i < 11
    ensures var c, ty, v := PasteClasses(), FieldTypes(KPaste)[i], PasteFields(remote, p)[i];
            && WellTyped(c, ty, v) && !v.Mono? && !v.Nullptr?
            && Norm(c, ty, v) == PasteFields(false, ReceivedData(remote, p))[i]
            && (Need(c, ty, v) <= 10 <==> i != 1 || RecordsNestWithin(remote, p.records, 3))
  {
    hide Norm, Need, WellTyped, PropertyFields, RecordValues, ReceivedRecords, RecordsNestWithin, RecordsOk;
    hide PasteClasses;
    hide FieldTypes, PasteFields, IsLeaf;
    PasteShape(remote, p, i);
    if i == 0 {
      PropertyComes(p.props);
    } else if i == 1 {
      RecordsBack(remote, p.records);
      RecordVector(remote, p.records);
    } else {
      LeafComes(FieldTypes(KPaste)[i], PasteFields(remote, p)[i]);
    }
  }

  /** The fields of a PasteData: its properties, its records, and plain values. */
  lemma PasteShape(remote: bool, p: PasteData, i: nat)
    requires i < 11
    ensures |FieldTypes(KPaste)| == 11
    ensures var ty, v := FieldTypes(KPaste)[i], PasteFields(remote, p)[i];
            var w := PasteFields(false, ReceivedData(remote, p))[i];
            if i == 0 then ty == TStruct(KProps) && v == w == Struct(PLAIN_ORDER, PropertyFields(p.props))
            else if i == 1 then ty == TVec(TPtr(TStruct(KRecord))) && v == List(RecordValues(remote, p.records)) &&
                                w == List(RecordValues(false, ReceivedRecords(remote, p.records)))
            else IsLeaf(ty, v) && v == w
  {
    hide PropertyFields, RecordValues, ReceivedRecords, IsLeaf, PasteFields, FieldTypes, PlainFields, PlainTypes;
    PasteFieldsSplit(remote, p);
    PasteFieldsSplit(false, ReceivedData(remote, p));
    PlainLeaves(p);
    PlainLeavesStay(remote, p);
  }

  lemma PlainLeavesStay(remote: bool, p: PasteData)
    ensures PlainFields(ReceivedData(remote, p)) == PlainFields(p)
  {
    hide ReceivedRecords;
  }

  lemma PasteFieldsSplit(remote: bool, p: PasteData)
    ensures PasteFields(remote, p) ==
            [Struct(PLAIN_ORDER, PropertyFields(p.props)), List(RecordValues(remote, p.records))] + PlainFields(p)
    ensures FieldTypes(KPaste) == [TStruct(KProps), TVec(TPtr(TStruct(KRecord)))] + PlainTypes()
  {
    hide PropertyFields, RecordValues;
  }

  function PlainTypes(): seq<Ty> { [TBool, TBool, TBool, TText, TText, TBool, TU32, TU32, TI32] }

  function PlainFields(p: PasteData): seq<Value>
  {
    [Bool(p.isDragged), Bool(p.isLocalPaste), Bool(p.isDelayData), Text(p.deviceId), Text(p.pasteId),
     Bool(p.isDelayRecord), U32(p.dataId), U32(p.recordId), I32(p.userId)]
  }

  lemma PlainLeaves(p: PasteData)
    ensures |PlainTypes()| == |PlainFields(p)| == 9
    ensures forall i :: 0 <= i < 9 ==> IsLeaf(PlainTypes()[i], PlainFields(p)[i])
  {
  }

  lemma RecordVector(remote: bool, rs: seq<Option<Record>>)
    requires var vs := RecordValues(remote, rs);
             forall i :: 0 <= i < |vs| ==> WellTyped(PasteClasses(), TPtr(TStruct(KRecord)), vs[i])
    ensures var c, elem, v := PasteClasses(), TPtr(TStruct(KRecord)), List(RecordValues(remote, rs));
            && WellTyped(c, TVec(elem), v)
            && Norm(c, TVec(elem), v) == List(NormItems(c, elem, v.items))
            && Need(c, TVec(elem), v) == 1 + NeedItems(c, elem, v.items)
  {
    hide NormItems, NeedItems, RecordValues, PasteClasses, WellTyped, Norm, Need;
    VecStep(PasteClasses(), TPtr(TStruct(KRecord)), RecordValues(remote, rs));
  }

  /** Data without null values, written with room for its zero tail and decoded again. */
  lemma CleanDataArrives(remote: bool, p: PasteData, k: nat)
    requires p.props.additions != [] && RecordsOk(remote, p.records)
    requires |EncFields(PLAIN_ORDER, PasteFields(remote, p))| + HEAD * k < TWO32
    ensures Decode(PasteClasses(), KPaste, EncFields(PLAIN_ORDER, PasteFields(remote, p)) + Zeros(HEAD * k)) ==
            if RecordsNestWithin(remote, p.records, 3) then Some(PasteValue(ReceivedData(remote, p))) else None
  {
    hide Norm, Need, WellTyped, PasteFields, FieldTypes, NeedFields, IsPermutation, Decode, EncFields, Good;
    hide ReceivedData, RecordsNestWithin, RecordsOk;
    var c, f, g := PasteClasses(), PasteFields(remote, p), PasteFields(false, ReceivedData(remote, p));
    assert |FieldTypes(KPaste)| == 11 by { InitialPasteIsFresh(); }
    forall i: nat | i < 11
      ensures WellTyped(c, FieldTypes(KPaste)[i], f[i]) && !f[i].Mono? && !f[i].Nullptr?
      ensures Norm(c, FieldTypes(KPaste)[i], f[i]) == g[i]
      ensures Need(c, FieldTypes(KPaste)[i], f[i]) <= 10 <==> i != 1 || RecordsNestWithin(remote, p.records, 3)
    {
      PasteFieldComes(remote, p, i);
    }
    PlainOrderIsPermutation();
    assert Need(c, FieldTypes(KPaste)[1], f[1]) <= 10 <==> RecordsNestWithin(remote, p.records, 3);
    NeedOfAll(c, KPaste, PLAIN_ORDER, f, 10);
    assert WellTypedFields(c, KPaste, PLAIN_ORDER, f);
    assert NormFields(c, KPaste, f) == g;
    ClassesAreGood();
    DecodeOfEncoded(c, KPaste, PLAIN_ORDER, f, k);
    FinishPaste(g);
  }

  // ----- null values in clipboard data

  ghost predicate HasNullEntry(r: Record) { exists i: nat :: NullAt(r, i) }

  lemma FitsWithoutNull(r: Record)
    requires RecordFits(r)
    ensures RecordOk(r) <==> !HasNullEntry(r)
  {
    hide FrameOk, WellTyped;
    if RecordOk(r) {
      forall i: nat | i < |r.entries| && r.entries[i].Some? ensures !NullAt(r, i) {
        NullIsNotOk(r.entries[i].value);
      }
    } else if !HasNullEntry(r) {
      forall i | 0 <= i < |r.entries| && r.entries[i].Some? ensures EntryOk(r.entries[i].value) {
        assert !NullAt(r, i);
      }
    }
  }

  lemma NullIsNotOk(e: Entry)
    requires EntryOk(e)
    ensures !IsNullValue(e.value)
  {
    VariantStep(PasteClasses(), TEntryValue, e.value);
  }

  predicate NullAt(r: Record, i: nat)
  {
    i < |r.entries| && r.entries[i].Some? && IsNullValue(r.entries[i].value.value)
  }

  /** The first entry with a null value; those before it are well typed. */
  lemma {:induction false} FirstNull(r: Record, k: nat) returns (j: nat)
    requires RecordFits(r) && NullAt(r, k)
    ensures NullAt(r, j) && forall i :: 0 <= i < j && r.entries[i].Some? ==> EntryOk(r.entries[i].value)
    decreases k
  {
    hide FrameOk, EntryOk, IsNullValue;
    if i :| 0 <= i < k && NullAt(r, i) {
      j := FirstNull(r, i);
    } else {
      j := k;
      forall i | 0 <= i < j && r.entries[i].Some? ensures EntryOk(r.entries[i].value) {
        assert !NullAt(r, i);
      }
    }
  }

  lemma NullEntriesAreUnreadable(r: Record)
    requires RecordFits(r) && HasNullEntry(r)
    ensures IsUnreadable(PasteClasses(), TVec(TPtr(TStruct(KEntry))), List(EntryValues(r.entries)))
  {
    hide FrameOk, EntryOk, IsNullValue, PasteClasses, IsUnreadable, WellTyped, EntryValue, RecordFits;
    var k: nat :| NullAt(r, k);
    var j := FirstNull(r, k);
    var vs := EntryValues(r.entries);
    forall i | 0 <= i < j ensures WellTyped(PasteClasses(), TPtr(TStruct(KEntry)), vs[i]) {
      EntryIsTyped(r.entries[i]);
    }
    NullEntryIsUnreadable(r.entries[j].value);
    NullOrNot(r.entries[j]);
    ClassesAreGood();
    VectorIsUnreadable(PasteClasses(), TPtr(TStruct(KEntry)), vs, j);
  }

  /** All other fields of the record are well typed. */
  lemma OtherFieldIsTyped(r: Record, i: nat)
    requires FrameOk(r) && i < 19 && i != R_ENTRIES
    ensures WellTyped(PasteClasses(), RecordTypes()[i], RecordFields(r)[i])
    ensures !RecordFields(r)[i].Mono? && !RecordFields(r)[i].Nullptr?
  {
    hide WellTyped, RecordTypes, PasteClasses, CustomOk, Arrived, FieldNeed, Norm, Need;
    var q := r.(entries := []);
    RecordFieldComes(q, i);
    assert RecordFields(q)[i] == RecordFields(r)[i] by { hide EntryValues; }
  }

  /** One null value makes the whole record unreadable. */
  lemma NullRecordIsUnreadable(remote: bool, r: Record)
    requires RecordFits(Sent(remote, r)) && HasNullEntry(Sent(remote, r))
    ensures IsUnreadable(PasteClasses(), TPtr(TStruct(KRecord)), RecordValue(remote, Some(r)))
  {
    hide FrameOk, IsUnreadable, WellTyped, RecordFields, RecordOrder, HasNullEntry, RecordTypes, IsPermutation, Sent;
    hide Local2Remote, PasteClasses;
    var c, s := PasteClasses(), Sent(remote, r);
    var f, order, j := RecordFields(s), RecordOrder(remote), PlaceOf(remote, R_ENTRIES);
    RecordOrderIsPermutation(remote);
    PlaceOfEntries(remote);
    RecordClass();
    EntriesField(s);
    NullEntriesAreUnreadable(s);
    forall l | 0 <= l < j
      ensures order[l] < 19 && WellTyped(c, RecordTypes()[order[l]], f[order[l]])
      ensures !f[order[l]].Mono? && !f[order[l]].Nullptr?
    {
      OrderWithin(order, 19, l);
      OtherFieldIsTyped(s, order[l]);
    }
    ClassesAreGood();
    assert SpoiledAt(c, KRecord, order, f, j);
    StructIsUnreadable(c, KRecord, order, f, j);
    RecordValueIs(remote, r);
    PointerIsUnreadable(c, TStruct(KRecord), Struct(order, f));
  }

  lemma RecordValueIs(remote: bool, r: Record)
    ensures RecordValue(remote, Some(r)) == Struct(RecordOrder(remote), RecordFields(Sent(remote, r)))
  {
    hide RecordFields, RecordOrder, Local2Remote;
  }

  lemma OrderWithin(order: seq<nat>, n: nat, l: nat)
    requires IsPermutation(order, n) && l < n
    ensures order[l] < n
  {
  }

  lemma RecordClass()
    ensures PasteClasses().types(KRecord) == RecordTypes() && PasteClasses().types(KPaste) == FieldTypes(KPaste)
  {
  }

  lemma EntriesField(r: Record)
    ensures RecordTypes()[R_ENTRIES] == TVec(TPtr(TStruct(KEntry))) &&
            RecordFields(r)[R_ENTRIES] == List(EntryValues(r.entries))
  {
    hide EntryValues;
  }

  /** The entries are written once, at their place. */
  lemma PlaceOfEntries(remote: bool)
    ensures var j := PlaceOf(remote, R_ENTRIES);
            && j < 19 && RecordOrder(remote)[j] == R_ENTRIES
            && forall l :: 0 <= l < j ==> RecordOrder(remote)[l] != R_ENTRIES
  {
  }

  ghost predicate SpoiledRecordAt(remote: bool, rs: seq<Option<Record>>, i: nat)
  {
    i < |rs| && rs[i].Some? && !RecordOk(Sent(remote, rs[i].value))
  }

  /** The first record that cannot be read; those before it are well formed. */
  lemma {:induction false} FirstSpoiled(remote: bool, rs: seq<Option<Record>>, k: nat) returns (j: nat)
    requires SpoiledRecordAt(remote, rs, k)
    ensures SpoiledRecordAt(remote, rs, j) && RecordsOk(remote, rs[..j])
    decreases k
  {
    hide RecordOk, Sent;
    if i :| 0 <= i < k && SpoiledRecordAt(remote, rs, i) {
      j := FirstSpoiled(remote, rs, i);
    } else {
      j := k;
      forall i | 0 <= i < j && rs[i].Some? ensures RecordOk(Sent(remote, rs[i].value)) {
        assert !SpoiledRecordAt(remote, rs, i);
      }
    }
  }

  lemma NullRecordsAreUnreadable(remote: bool, rs: seq<Option<Record>>)
    requires !RecordsOk(remote, rs)
    requires forall i :: 0 <= i < |rs| && rs[i].Some? ==> RecordFits(Sent(remote, rs[i].value))
    ensures IsUnreadable(PasteClasses(), TVec(TPtr(TStruct(KRecord))), List(RecordValues(remote, rs)))
  {
    hide RecordFits, RecordOk, Sent, PasteClasses, IsUnreadable, WellTyped, RecordValue, HasNullEntry;
    hide RecordsNestWithin, Norm, Need, NormItems, NeedItems;
    var k :| 0 <= k < |rs| && rs[k].Some? && !RecordOk(Sent(remote, rs[k].value));
    var j := FirstSpoiled(remote, rs, k);
    var vs := RecordValues(remote, rs);
    RecordsBack(remote, rs[..j]);
    forall i | 0 <= i < j ensures WellTyped(PasteClasses(), TPtr(TStruct(KRecord)), vs[i]) {
      assert vs[i] == RecordValues(remote, rs[..j])[i];
    }
    FitsWithoutNull(Sent(remote, rs[j].value));
    NullRecordIsUnreadable(remote, rs[j].value);
    RecordIsThere(remote, rs[j].value);
    ClassesAreGood();
    VectorIsUnreadable(PasteClasses(), TPtr(TStruct(KRecord)), vs, j);
  }

  lemma RecordIsThere(remote: bool, r: Record)
    ensures !RecordValue(remote, Some(r)).Null?
  {
  }

  lemma NullDataFails(remote: bool, p: PasteData, k: nat)
    requires p.props.additions != [] && !RecordsOk(remote, p.records)
    requires forall i :: 0 <= i < |p.records| && p.records[i].Some? ==> RecordFits(Sent(remote, p.records[i].value))
    requires |EncFields(PLAIN_ORDER, PasteFields(remote, p))| + HEAD * k < TWO32
    ensures Decode(PasteClasses(), KPaste, EncFields(PLAIN_ORDER, PasteFields(remote, p)) + Zeros(HEAD * k)) == None
  {
    hide RecordFits, Sent, PasteClasses, IsUnreadable, WellTyped, RecordsOk, PasteFields, FieldTypes, EncFields;
    hide ReadFields, IsPermutation, SpoiledAt;
    var c, f := PasteClasses(), PasteFields(remote, p);
    var d := EncFields(PLAIN_ORDER, f) + Zeros(HEAD * k);
    ClassesAreGood();
    NullDataIsSpoiled(remote, p);
    SpoiledPlace(c, KPaste, PLAIN_ORDER, f, 1, 1);
    FieldIsFresh(c, KPaste, 1);
    assert PLAIN_ORDER[0..] == PLAIN_ORDER;
    FrontBuffer(EncFields(PLAIN_ORDER, f), Zeros(HEAD * k));
    FieldsAreUnreadable(c, d, |d|, 0, 0, KPaste, f, PLAIN_ORDER, c.initial(KPaste), 0, 1);
  }

  lemma NullDataIsSpoiled(remote: bool, p: PasteData)
    requires p.props.additions != [] && !RecordsOk(remote, p.records)
    requires forall i :: 0 <= i < |p.records| && p.records[i].Some? ==> RecordFits(Sent(remote, p.records[i].value))
    ensures SpoiledAt(PasteClasses(), KPaste, PLAIN_ORDER, PasteFields(remote, p), 1)
  {
    hide RecordFits, Sent, PasteClasses, IsUnreadable, WellTyped, RecordsOk, PasteFields, FieldTypes, IsPermutation;
    hide Norm, Need;
    hide RecordValues, PropertyFields, ReceivedData;
    PasteShape(remote, p, 0);
    PasteShape(remote, p, 1);
    PropertyComes(p.props);
    NullRecordsAreUnreadable(remote, p.records);
    PlainOrderIsPermutation();
    RecordClass();
  }

  lemma FrontBuffer(a: bytes, b: bytes)
    requires |a| + |b| < TWO32
    ensures InBuffer(a + b, |a + b|, 0, a)
  {
  }

  lemma {:induction false} ReceivedAreFree(remote: bool, rs: seq<Option<Record>>)
    ensures NoneHollow(ReceivedRecords(remote, rs))
    decreases |rs|
  {
    hide Remote2Local, GetMimeType, Local2Remote;
    if rs != [] {
      ReceivedAreFree(remote, rs[1..]);
    }
  }

  /** The attributes of the received data are recovered from its fields. */
  lemma ReceivedReads(remote: bool, p: PasteData)
    ensures AsPasteData(PasteValue(ReceivedData(remote, p))) == Some(ReceivedData(remote, p))
  {
    hide AsPasteData, PasteFields, ReceivedRecords, NoneHollow;
    ReceivedAreFree(remote, p.records);
    PasteDataInverse(ReceivedData(remote, p));
  }

  /**
   Clipboard data written with room for its zero tail and decoded again: every encoded attribute, except
   that null records and entries are gone and each record is finished. It decodes iff no entry that
   is sent has a null value, and no entry and no UDMF value nests objects more than three deep: one
   null value loses the whole clipboard.
   */
  lemma PasteDataArrives(remote: bool, p: PasteData, k: nat)
    requires PasteFits(remote, p) && |Message(remote, p, k)| < TWO32
    ensures var arrives := RecordsNestWithin(remote, p.records, 3) && !SendsNull(remote, p.records);
            && ReadData(Message(remote, p, k)) == (if arrives then Some(ReceivedData(remote, p)) else None)
            && (!arrives ==> Decode(PasteClasses(), KPaste, Message(remote, p, k)) == None)
  {
    hide Decode, EncFields, PasteFields, PasteClasses, RecordsNestWithin, RecordFits, FirstOk, Sent, RecordOk;
    hide HasNullEntry, ReceivedData, AsPasteData;
    forall i | 0 <= i < |p.records| && p.records[i].Some?
      ensures RecordFits(Sent(remote, p.records[i].value))
      ensures RecordOk(Sent(remote, p.records[i].value)) <==> !HasNullEntry(Sent(remote, p.records[i].value))
    {
      SentFits(remote, p.records[i].value);
      FitsWithoutNull(Sent(remote, p.records[i].value));
    }
    if RecordsOk(remote, p.records) {
      CleanDataArrives(remote, p, k);
      ReceivedReads(remote, p);
    } else {
      NullDataFails(remote, p, k);
    }
  }

  /** Some entry that is sent has a null value. */
  ghost predicate SendsNull(remote: bool, rs: seq<Option<Record>>)
  {
    exists i :: 0 <= i < |rs| && rs[i].Some? && HasNullEntry(Sent(remote, rs[i].value))
  }

  /** Data without null pointers in variants fits, and sends none. */
  lemma OkFits(remote: bool, p: PasteData)
    requires PasteOk(p)
    ensures PasteFits(remote, p) && !SendsNull(remote, p.records)
  {
    hide FrameOk, EntryOk, Sent, HasNullEntry, IsNullValue;
    forall i | 0 <= i < |p.records| && p.records[i].Some? ensures !HasNullEntry(Sent(remote, p.records[i].value)) {
      SentFits(remote, p.records[i].value);
      FitsWithoutNull(Sent(remote, p.records[i].value));
    }
  }

  // ----- local transfer

  /** A record whose legacy fields are null, as the builders make it. */
  predicate LegacyFree(r: Record)
  {
    r.html.None? && r.want.None? && r.plain.None? && r.uri.None? && r.pixel.None? && r.udmf.Null?
  }

  /** Locally a record arrives as it was, without null entries, and with a mime type if it had none. */
  lemma LocalRecordArrives(r: Record)
    requires LegacyFree(r)
    ensures Received(false, r) == LocalRecord(r)
  {
    assert [] + NonNull(r.entries) == NonNull(r.entries);
  }

  /** The records of local data as they arrive: null ones dropped, mime types filled. */
  function LocalRecords(rs: seq<Option<Record>>): seq<Option<Record>>
  {
    if rs == [] then [] else (if rs[0].Some? then [Some(LocalRecord(rs[0].value))] else []) + LocalRecords(rs[1..])
  }

  function LocalRecord(r: Record): Record
  {
    var es := NonNull(r.entries);
    r.(entries := es, mime := if r.mime != [] || es == [] then r.mime else es[0].value.mime)
  }

  predicate AllLegacyFree(rs: seq<Option<Record>>)
  {
    forall i :: 0 <= i < |rs| && rs[i].Some? ==> LegacyFree(rs[i].value)
  }

  lemma {:induction false} LocalRecordsArrive(rs: seq<Option<Record>>)
    requires AllLegacyFree(rs)
    ensures ReceivedRecords(false, rs) == LocalRecords(rs)
    decreases |rs|
  {
    hide Received, LegacyFree, LocalRecord;
    if rs != [] {
      if rs[0].Some? {
        LocalRecordArrives(rs[0].value);
      }
      LocalRecordsArrive(rs[1..]);
    }
  }

  /**
   The local round trip, for all data without legacy fields: every encoded field, null records and
   entries dropped and empty mime types filled, unless a null value or too deep an object loses it.
   */
  lemma LocalDataArrives(p: PasteData, k: nat)
    requires PasteFits(false, p) && AllLegacyFree(p.records) && |Message(false, p, k)| < TWO32
    ensures ReadData(Message(false, p, k)) ==
            if RecordsNestWithin(false, p.records, 3) && !SendsNull(false, p.records)
            then Some(p.(records := LocalRecords(p.records))) else None
  {
    hide Decode, Message, PasteFits, RecordsNestWithin, SendsNull, AllLegacyFree, LocalRecords, PasteClasses, ReadData;
    PasteDataArrives(false, p, k);
    LocalRecordsArrive(p.records);
  }

  /** Data without null pointers and with all mime types set. */
  ghost predicate Complete(p: PasteData)
  {
    forall i :: 0 <= i < |p.records| ==>
      && p.records[i].Some? && LegacyFree(p.records[i].value) && p.records[i].value.mime != []
      && forall j :: 0 <= j < |p.records[i].value.entries| ==> p.records[i].value.entries[j].Some?
  }

  lemma {:induction false} NonNullOfComplete<T>(s: seq<Option<T>>)
    requires forall i :: 0 <= i < |s| ==> s[i].Some?
    ensures NonNull(s) == s
    decreases |s|
  {
    if s != [] {
      NonNullOfComplete(s[1..]);
      assert s == [s[0]] + s[1..];
    }
  }

  lemma {:induction false} CompleteRecordsArrive(p: PasteData)
    requires Complete(p)
    ensures LocalRecords(p.records) == p.records
    decreases |p.records|
  {
    hide LegacyFree, LocalRecord;
    if p.records != [] {
      CompleteRecordStays(p.records[0].value);
      CompleteRecordsArrive(p.(records := p.records[1..]));
      assert p.records == [p.records[0]] + p.records[1..];
    }
  }

  lemma CompleteRecordStays(r: Record)
    requires r.mime != [] && forall j :: 0 <= j < |r.entries| ==> r.entries[j].Some?
    ensures LocalRecord(r) == r
  {
    NonNullOfComplete(r.entries);
  }

  /** On complete data the local round trip is the identity. */
  lemma LocalRoundTrip(p: PasteData, k: nat)
    requires PasteOk(p) && Complete(p) && RecordsNestWithin(false, p.records, 3)
    requires |Message(false, p, k)| < TWO32
    ensures ReadData(Message(false, p, k)) == Some(p)
  {
    hide Message, PasteOk, RecordsNestWithin, SendsNull, PasteFits, LocalRecords, LegacyFree, ReadData;
    OkFits(false, p);
    LocalDataArrives(p, k);
    CompleteRecordsArrive(p);
  }
}
