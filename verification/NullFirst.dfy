/**
 A record for another device whose first entry is a null pointer (PasteDataRecord::Local2Remote and
 EncodeTLVRemote). The value of that entry is written as the UDMF field, so the null takes the next
 field of the record for its own, and that is the field with all the other entries.
 */
module NullFirst {
  import opened Bytes
  import opened Assoc
  import opened Tlv
  import opened ReaderSpec
  import opened RoundTrip
  import opened Unreadable
  import opened Misread
  import opened PasteModel
  import opened PasteCodec
  import opened Clipboard
  import opened NullValues

  /** The value of the first entry is a null Want or PixelMap; a null Object may be dereferenced before it is sent. */
  predicate StartsNull(r: Record)
  {
    r.entries != [] && r.entries[0].Some? &&
    IsNullValue(r.entries[0].value.value) && r.entries[0].value.value.index <= 8
  }

  lemma NullConvertsToNothing(e: Entry)
    requires IsNullValue(e.value)
    ensures ConvertToHtml(e) == ConvertToPlainText(e) == ConvertToUri(e) == None
    ensures ConvertToWant(e) == ConvertToPixelMap(e) == None
    ensures AfterConvertToPixelMap(e) == e.value && !HoldsObject(e.value)
  {
  }

  /** What is sent then: no legacy field, the null value as the UDMF value, and the other entries. */
  lemma NullFirstShape(r: Record)
    requires StartsNull(r)
    ensures var s := Local2Remote(r);
            && s.udmf == r.entries[0].value.value && s.entries == r.entries[1..]
            && s.html == s.want == s.plain == s.uri == s.pixel == None
            && s.custom == r.custom && s.details == r.details && s.sys == r.sys
  {
    hide ConvertToPixelMap, ConvertToWant, ConvertToHtml, ConvertToPlainText, ConvertToUri, TextAt, EnumOf, HoldsObject;
    hide AfterConvertToPixelMap;
    NullConvertsToNothing(r.entries[0].value);
    RemoteShape(r);
  }

  /** The record as it can be read: without the null value, and without the entries it takes. */
  function Rest(r: Record): Record { Local2Remote(r).(udmf := Null, entries := []) }

  lemma RestIsOk(r: Record)
    requires FrameOk(r) && StartsNull(r)
    ensures RecordOk(Rest(r))
  {
    hide CustomOk, WellTyped, Local2Remote;
    NullFirstShape(r);
  }

  /** A UDMF value from which no entry is rebuilt. */
  predicate Bare(x: Value) { !(HoldsObject(x) && x.val.pairs != []) && !HoldsBlob(x) }

  /** The null value takes the field behind it, its head included. */
  lemma NullTakes(c: Classes, d: bytes, lim: nat, cur: nat, dep: nat, v: Value, tag: nat, p: bytes) returns (x: Value)
    requires IsNullValue(v) && v.index <= 8 && dep <= MAX_DEPTH && tag < 0x1_0000
    requires InBuffer(d, lim, cur, Payload(v) + Tlv1(tag, p))
    ensures cur <= lim <= |d| && Bare(x)
    ensures Read(c, d, lim, cur, dep, TPtr(TEntryValue), Null, |Payload(v)|) ==
            Outcome(dep + 1 <= MAX_DEPTH, x, cur + |Payload(v)| + HEAD + |p|)
  {
    hide Le, Tlv1, HeadAt, Default, Payload, EntryAlts, At, ReadPairs, ReadItems, ReadFields, ReadVariant;
    var one := Payload(v);
    NullPayload(v.index);
    assert v == Variant(v.index, Null);
    InBufferSplit(d, lim, cur, one, Tlv1(tag, p));
    x := Variant(v.index, if p == [] then Null else Shared(p));
    if dep < MAX_DEPTH {
      assert Read(c, d, lim, cur, dep, TPtr(TEntryValue), Null, |one|) ==
             Read(c, d, lim, cur, dep + 1, TEntryValue, Default(c, TEntryValue), |one|);
      hide Read;
      NextFieldIsTaken(c, d, lim, cur, dep + 1, Default(c, TEntryValue), |one|, v.index, tag, p);
    }
  }

  /** The fields of the rest are well typed and take one guard each; all but two are those that are sent. */
  lemma RestFields(r: Record, i: nat)
    requires FrameOk(r) && StartsNull(r) && i < 19
    ensures |PasteClasses().types(KRecord)| == |PasteClasses().initial(KRecord)| == 19
    ensures var f := RecordFields(Rest(r));
            && FieldOk(PasteClasses(), KRecord, i, f[i])
            && Need(PasteClasses(), PasteClasses().types(KRecord)[i], f[i]) <= 1
    ensures i != R_UDMF && i != R_ENTRIES ==> RecordFields(Rest(r))[i] == RecordFields(Local2Remote(r))[i]
  {
    hide FrameOk, StartsNull, PasteClasses, Local2Remote, Norm, Need, WellTyped, RecordFields, FieldTypes;
    hide InitialFields;
    RestIsOk(r);
    RecordClass();
    assert |PasteClasses().initial(KRecord)| == 19 by { ClassesAreGood(); FieldIsFresh(PasteClasses(), KRecord, i); }
    RecordFieldComes(Rest(r), i);
    OtherFieldsAreSent(Local2Remote(r), i);
  }

  lemma OtherFieldsAreSent(s: Record, i: nat)
    requires i < 19
    ensures i != R_UDMF && i != R_ENTRIES ==> RecordFields(s.(udmf := Null, entries := []))[i] == RecordFields(s)[i]
  {
    hide EntryValues, OptText, OptRaw, OptShared, OptUri;
  }

  lemma {:induction false} RangeSame(order: seq<nat>, f: seq<Value>, g: seq<Value>)
    requires |f| == |g| && forall l :: 0 <= l < |order| ==> order[l] < |f| && f[order[l]] == g[order[l]]
    ensures EncFields(order, f) == EncFields(order, g)
    decreases |order|
  {
    hide Enc;
    if order != [] {
      assert forall l :: 0 <= l < |order[1..]| ==> order[1..][l] == order[l + 1];
      RangeSame(order[1..], f, g);
    }
  }

  /** The order of a record for another device: the UDMF value at place 7, the entries behind it. */
  lemma RemoteOrder()
    ensures var order := RecordOrder(true);
            && IsPermutation(order, 19) && |order| == 19 && order[7] == R_UDMF && order[8] == R_ENTRIES
            && forall l :: 0 <= l < 19 && l != 7 && l != 8 ==>
                 order[l] < 19 && order[l] != R_UDMF && order[l] != R_ENTRIES
  {
    RecordOrderIsPermutation(true);
  }

  /** A range of the other fields: the bytes that are sent are those of the rest, and one guard is enough. */
  lemma OtherRange(r: Record, m: nat, n: nat)
    requires FrameOk(r) && StartsNull(r) && (n <= 7 || 9 <= m) && m <= n <= 19
    ensures |PasteClasses().types(KRecord)| == |PasteClasses().initial(KRecord)| == 19
    ensures var order, g := RecordOrder(true)[m..n], RecordFields(Rest(r));
            && EncFields(order, RecordFields(Local2Remote(r))) == EncFields(order, g)
            && NeedFields(PasteClasses(), KRecord, order, g) <= 1
            && forall l :: 0 <= l < |order| ==>
                 order[l] < 19 && order[l] != R_UDMF && FieldOk(PasteClasses(), KRecord, order[l], g[order[l]])
  {
    hide FrameOk, StartsNull, PasteClasses, Local2Remote, Need, RecordFields, RecordOrder, Rest, FieldOk, EncFields;
    hide NeedFields;
    RemoteOrder();
    var order, f, g := RecordOrder(true)[m..n], RecordFields(Local2Remote(r)), RecordFields(Rest(r));
    RestFields(r, 0);
    forall l | 0 <= l < |order|
      ensures order[l] < 19 && order[l] != R_UDMF && order[l] != R_ENTRIES
      ensures FieldOk(PasteClasses(), KRecord, order[l], g[order[l]]) && g[order[l]] == f[order[l]]
      ensures Need(PasteClasses(), PasteClasses().types(KRecord)[order[l]], g[order[l]]) <= 1
    {
      assert order[l] == RecordOrder(true)[m + l];
      RestFields(r, order[l]);
    }
    RangeSame(order, f, g);
    NeedFieldsWithin(PasteClasses(), KRecord, order, g, 1);
  }

  /** The bytes of the record: the fields before the UDMF value, that value, the entries, and the fields behind. */
  lemma RecordBytes(r: Record)
    requires StartsNull(r)
    ensures var s, order, f := Local2Remote(r), RecordOrder(true), RecordFields(Local2Remote(r));
            EncFields(order, f) ==
            EncFields(order[0..7], f) +
            (Enc(TagOf(R_UDMF), s.udmf) +
             (Tlv1(TagOf(R_ENTRIES), EncItems(EntryValues(s.entries))) + EncFields(order[9..19], f)))
  {
    hide Local2Remote, RecordFields, RecordOrder, Enc, Need, EncFields, NeedFields, Tlv1, EncItems, PasteClasses;
    hide RecordTypes;
    var c, s, order, f := PasteClasses(), Local2Remote(r), RecordOrder(true), RecordFields(Local2Remote(r));
    RemoteOrder();
    RecordClass();
    RangeSplits(c, KRecord, f, order, 0, 7);
    FieldsUnfold(c, KRecord, f, order, 7);
    FieldsUnfold(c, KRecord, f, order, 8);
    assert order[0..] == order && order[9..] == order[9..19];
    UdmfField(s);
    EntriesField(s);
    EntriesBytes(s.entries);
  }

  lemma UdmfField(r: Record)
    ensures RecordFields(r)[R_UDMF] == r.udmf && RecordTypes()[R_UDMF] == TPtr(TEntryValue)
    ensures PasteClasses().initial(KRecord)[R_UDMF] == Null && PasteClasses().initial(KRecord)[R_ENTRIES] == List([])
  {
    hide EntryValues;
  }

  lemma EntriesBytes(es: seq<Option<Entry>>)
    ensures Enc(TagOf(R_ENTRIES), List(EntryValues(es))) == Tlv1(TagOf(R_ENTRIES), EncItems(EntryValues(es)))
  {
    hide EncItems, EntryValues;
    ListPayload(EntryValues(es));
  }

  /** Between the two fields of the null value and the entries, nothing else has been read. */
  lemma HalfSkipsTwo(r: Record, x: Value)
    requires FrameOk(r) && StartsNull(r)
    ensures |PasteClasses().types(KRecord)| == |PasteClasses().initial(KRecord)| == 19
    ensures var c, g, order := PasteClasses(), RecordFields(Rest(r)), RecordOrder(true);
            && Half(c, KRecord, g, order[..0])[R_UDMF := Null] == c.initial(KRecord)
            && Half(c, KRecord, g, order[..7])[R_UDMF := Null] == Half(c, KRecord, g, order[..7])
            && Half(c, KRecord, g, order[..7])[R_UDMF := x] == Half(c, KRecord, g, order[..9])[R_UDMF := x]
  {
    hide FrameOk, StartsNull, PasteClasses, Local2Remote, RecordFields, RecordOrder, Rest, Norm, Half, IsPermutation;
    var c, g, order := PasteClasses(), RecordFields(Rest(r)), RecordOrder(true);
    RestFields(r, 0);
    RemoteOrder();
    HalfEnds(c, KRecord, g, order);
    HalfStep(c, KRecord, g, order, 7);
    HalfStep(c, KRecord, g, order, 8);
    UdmfField(Rest(r));
    assert c.initial(KRecord)[R_UDMF := Null] == c.initial(KRecord);
    EmptyEntries(r);
    var half := Half(c, KRecord, g, order[..7]);
    assert half[R_ENTRIES] == List([]) by { EntriesUntouched(c, g, order); }
  }

  lemma EmptyEntries(r: Record)
    ensures |PasteClasses().types(KRecord)| == 19
    ensures Norm(PasteClasses(), PasteClasses().types(KRecord)[R_ENTRIES], RecordFields(Rest(r))[R_ENTRIES]) == List([])
    ensures Norm(PasteClasses(), PasteClasses().types(KRecord)[R_UDMF], RecordFields(Rest(r))[R_UDMF]) == Null
  {
    hide Local2Remote;
    EntriesField(Rest(r));
  }

  lemma EntriesUntouched(c: Classes, g: seq<Value>, order: seq<nat>)
    requires c == PasteClasses() && order == RecordOrder(true) &&
             |g| == |c.types(KRecord)| == |c.initial(KRecord)| == 19
    ensures Half(c, KRecord, g, order[..7])[R_ENTRIES] == List([])
  {
    hide Norm;
    assert R_ENTRIES !in order[..7];
  }

  lemma InBufferJoin(d: bytes, lim: nat, cur: nat, a: bytes, b: bytes)
    requires InBuffer(d, lim, cur, a) && InBuffer(d, lim, cur + |a|, b)
    ensures InBuffer(d, lim, cur, a + b)
  {
    AtSplit(d, cur, a, b);
  }

  /** The UDMF field is read past its end, over the field with the entries. */
  lemma UdmfIsRead(d: bytes, lim: nat, cur: nat, dep: nat, now: seq<Value>, r: Record) returns (x: Value)
    requires StartsNull(r) && dep <= MAX_DEPTH && |now| == 19 && now[R_UDMF] == Null
    requires var s := Local2Remote(r);
             InBuffer(d, lim, cur,
                      Enc(TagOf(R_UDMF), s.udmf) + Tlv1(TagOf(R_ENTRIES), EncItems(EntryValues(s.entries))))
    ensures cur <= lim <= |d| && Bare(x)
    ensures var s := Local2Remote(r);
            ReadField(PasteClasses(), d, lim, cur, dep, KRecord, now) ==
            if dep + 1 <= MAX_DEPTH
            then Some(Step(now[R_UDMF := x],
                           cur + |Enc(TagOf(R_UDMF), s.udmf)| +
                           |Tlv1(TagOf(R_ENTRIES), EncItems(EntryValues(s.entries)))|))
            else None
  {
    hide PasteClasses, Local2Remote, Bare, Read, ReadField, InBuffer, Enc, Payload, Tlv1, EncItems, Good;
    var c, v, p := PasteClasses(), Local2Remote(r).udmf, EncItems(EntryValues(Local2Remote(r).entries));
    var one, two := Enc(TagOf(R_UDMF), v), Tlv1(TagOf(R_ENTRIES), p);
    NullFirstShape(r);
    InBufferSplit(d, lim, cur, one, two);
    Bounds(d, lim, cur, one);
    ClassesAreGood();
    RecordClass();
    UdmfField(Local2Remote(r));
    FieldIsRead(c, d, lim, cur, dep, KRecord, now, R_UDMF, v);
    EncLength(TagOf(R_UDMF), v);
    InBufferJoin(d, lim, cur + HEAD, Payload(v), two);
    x := NullTakes(c, d, lim, cur + HEAD, dep, v, TagOf(R_ENTRIES), p);
  }

  /** The fields of such a record: all but the entries arrive, and something bare is the UDMF value. */
  lemma NullFirstFields(d: bytes, lim: nat, cur: nat, dep: nat, r: Record) returns (x: Value)
    requires FrameOk(r) && StartsNull(r) && dep <= MAX_DEPTH
    requires InBuffer(d, lim, cur, EncFields(RecordOrder(true), RecordFields(Local2Remote(r))))
    ensures Bare(x) && cur + |EncFields(RecordOrder(true), RecordFields(Local2Remote(r)))| <= lim <= |d|
    ensures |PasteClasses().types(KRecord)| == |PasteClasses().initial(KRecord)| == 19
    ensures var n := |EncFields(RecordOrder(true), RecordFields(Local2Remote(r)))|;
            ReadFields(PasteClasses(), d, lim, cur, dep, KRecord, PasteClasses().initial(KRecord)) ==
            if dep + 1 <= MAX_DEPTH
            then ReadFields(PasteClasses(), d, lim, cur + n, dep, KRecord,
                            NormFields(PasteClasses(), KRecord, RecordFields(Rest(r)))[R_UDMF := x])
            else None
  {
    hide FrameOk, PasteClasses, Local2Remote, RecordFields, RecordOrder, Rest, Norm, Half, IsPermutation, Bare;
    hide IsNullValue;
    hide Read, ReadField, ReadFields, InBuffer, Enc, Payload, Tlv1, EncItems, EncFields, NeedFields, NormFields;
    hide FieldOk, Good;
    var c, s, order, g := PasteClasses(), Local2Remote(r), RecordOrder(true), RecordFields(Rest(r));
    var whole := EncFields(order, RecordFields(s));
    Bounds(d, lim, cur, whole);
    NullFirstShape(r);
    RecordBytes(r);
    RemoteOrder();
    OtherRange(r, 0, 7);
    OtherRange(r, 9, 19);
    ClassesAreGood();
    HalfSkipsTwo(r, Null);
    var v, p := s.udmf, EncItems(EntryValues(s.entries));
    var before, behind := EncFields(order[0..7], g), EncFields(order[9..19], g);
    var one, two := Enc(TagOf(R_UDMF), v), Tlv1(TagOf(R_ENTRIES), p);
    InBufferSplit(d, lim, cur, before, one + (two + behind));
    var b := cur + |before|;
    InBufferSplit(d, lim, b, one, two + behind);
    InBufferSplit(d, lim, b + |one|, two, behind);
    ReadRange(c, d, lim, cur, dep, KRecord, g, order, 0, 7, R_UDMF, Null);
    var half := Half(c, KRecord, g, order[..7]);
    FieldsTurn(c, d, lim, b, dep, KRecord, half);
    InBufferJoin(d, lim, b, one, two);
    x := UdmfIsRead(d, lim, b, dep, half, r);
    HalfSkipsTwo(r, x);
    ReadRange(c, d, lim, b + |one| + |two|, dep, KRecord, g, order, 9, 19, R_UDMF, x);
    HalfEnds(c, KRecord, g, order);
  }

  // ----- the record

  /** From a bare UDMF value and no legacy fields no entry is rebuilt. */
  lemma BareRebuildsNothing(s: Record)
    requires s.html == s.want == s.plain == s.uri == s.pixel == None && Bare(s.udmf)
    ensures Remote2Local(s) == None
  {
    hide Convert2UtdId, Bare, HoldsObject, HoldsBlob;
    BareValue(s.udmf);
  }

  lemma NothingIsRebuilt(s: Record, x: Value)
    requires s.html == s.want == s.plain == s.uri == s.pixel == None && Bare(x)
    ensures FinishRecord(s.(udmf := x)) == FinishRecord(s.(udmf := Null))
  {
    hide Remote2Local, Bare;
    assert Bare(Null) by { BareValue(x); }
    BareRebuildsNothing(s.(udmf := x));
    BareRebuildsNothing(s.(udmf := Null));
  }

  lemma BareValue(x: Value)
    ensures Bare(x) ==> !(HoldsObject(x) && x.val.pairs != []) && !HoldsBlob(x)
    ensures Bare(Null) && !HoldsObject(Null) && !HoldsBlob(Null)
  {
  }

  /** The record that is read instead: none of the other entries is left. */
  function WithoutOthers(r: Record): Record { FinishRecord(Local2Remote(r).(entries := [])) }

  lemma NullFirstFinishes(r: Record, x: Value)
    requires FrameOk(r) && StartsNull(r) && Bare(x)
    ensures |PasteClasses().types(KRecord)| == 19
    ensures var f := NormFields(PasteClasses(), KRecord, RecordFields(Rest(r)))[R_UDMF := x];
            Struct(PasteClasses().order(KRecord), PasteClasses().finish(KRecord, f)) ==
              RecordValue(false, Some(WithoutOthers(r)))
  {
    hide FrameOk, PasteClasses, Local2Remote, RecordFields, Arrived, FinishRecord, AsRecord, NormFields, RecordOrder;
    hide Bare, IsNullValue;
    hide RecordOk, NeedFields, WellTypedFields, Remote2Local;
    var s, q := Local2Remote(r), Rest(r);
    RestIsOk(r);
    RecordClass();
    RecordBack(true, q);
    RestArrives(q, x);
    RecordFinish(Arrived(q)[R_UDMF := x]);
    NullFirstShape(r);
    NothingIsRebuilt(s.(entries := []), x);
    assert Bare(s.udmf) by { NullIsBare(s.udmf); }
    NothingIsRebuilt(s.(entries := []), s.udmf);
    assert s.(entries := []).(udmf := s.udmf) == s.(entries := []);
    RecordValueIs(false, WithoutOthers(r));
  }

  lemma NullIsBare(v: Value)
    requires IsNullValue(v)
    ensures Bare(v)
  {
  }

  lemma RestArrives(q: Record, x: Value)
    requires RecordOk(q) && q.entries == []
    ensures AsRecord(Arrived(q)[R_UDMF := x]) == q.(udmf := x)
  {
    hide RecordOk, MarshalUri, UnmarshalUri, AsEntries, EntryValues, OptText, OptShared, OptUri;
    assert q.want != Some([]) && q.pixel != Some([]) by { NothingEmpty(q); }
    ArrivedRecord(q);
  }

  lemma NothingEmpty(q: Record)
    requires RecordOk(q)
    ensures q.want != Some([]) && q.pixel != Some([])
  {
  }

  lemma NullFirstRead(d: bytes, lim: nat, cur: nat, dep: nat, was: Value, r: Record)
    requires FrameOk(r) && StartsNull(r) && dep <= MAX_DEPTH && Fresh(PasteClasses(), TStruct(KRecord), was)
    requires InBuffer(d, lim, cur, Payload(RecordValue(true, Some(r))))
    ensures cur <= lim <= |d|
    ensures var len := |Payload(RecordValue(true, Some(r)))|;
            Read(PasteClasses(), d, lim, cur, dep, TStruct(KRecord), was, len) ==
            Outcome(dep + 1 <= MAX_DEPTH, RecordValue(false, Some(WithoutOthers(r))), cur + len)
  {
    hide PasteClasses, Local2Remote, RecordFields, RecordOrder, FrameOk, IsNullValue, EncFields, ReadFields, At, Bare;
    hide NormFields, WithoutOthers;
    RecordValueIs(true, r);
    StructPayload(RecordOrder(true), RecordFields(Local2Remote(r)));
    hide Payload, RecordValue;
    var c, end := PasteClasses(), cur + |Payload(RecordValue(true, Some(r)))|;
    var x := NullFirstFields(d, end, cur, dep, r);
    FieldsTurn(c, d, end, end, dep, KRecord, NormFields(c, KRecord, RecordFields(Rest(r)))[R_UDMF := x]);
    NullFirstFinishes(r, x);
    assert AsFields(was) == c.initial(KRecord);
  }

  /**
   A record for another device whose first entry is a null Want or PixelMap: wherever it stands, it
   is read as the record without any entry, however many entries were sent.
   */
  lemma NullFirstLosesOthers(r: Record)
    requires FrameOk(r) && StartsNull(r)
    ensures IsReadAs(PasteClasses(), TPtr(TStruct(KRecord)), RecordValue(true, Some(r)),
                     RecordValue(false, Some(WithoutOthers(r))), 2)
    ensures WithoutOthers(r).entries == []
    ensures WithoutOthers(r) == Received(true, r) <==> NonNull(r.entries[1..]) == []
  {
    hide PasteClasses, FrameOk, IsNullValue, Local2Remote, Read, Payload, InBuffer, RecordValue, Fresh, WithoutOthers;
    hide Received;
    var v, x := RecordValue(true, Some(r)), RecordValue(false, Some(WithoutOthers(r)));
    forall d: bytes, lim: nat, cur: nat, dep: nat, was: Value
      | InBuffer(d, lim, cur, Payload(v)) && dep <= MAX_DEPTH && Fresh(PasteClasses(), TStruct(KRecord), was)
      ensures cur <= lim <= |d|
      ensures Read(PasteClasses(), d, lim, cur, dep, TStruct(KRecord), was, |Payload(v)|) ==
              Outcome(dep + 1 <= MAX_DEPTH, x, cur + |Payload(v)|)
    {
      NullFirstRead(d, lim, cur, dep, was, r);
    }
    PointerIsReadAs(PasteClasses(), TStruct(KRecord), v, x, 1);
    EntriesOfFinished(r);
  }

  lemma EntriesOfFinished(r: Record)
    requires StartsNull(r)
    ensures WithoutOthers(r).entries == [] && Received(true, r).entries == NonNull(r.entries[1..])
    ensures WithoutOthers(r) == Received(true, r) <==> NonNull(r.entries[1..]) == []
  {
    hide FinishRecord, Remote2Local, Local2Remote, IsNullValue, Bare;
    var s := Local2Remote(r);
    NullFirstShape(r);
    assert Bare(s.udmf) by { NullIsBare(s.udmf); }
    assert Remote2Local(s) == None by { BareRebuildsNothing(s); }
    FinishEntries(s, []);
    FinishEntries(s, NonNull(s.entries));
    Regroup([], [], NonNull(s.entries));
  }

  /** Finishing a record puts at most one entry in front of those that were read. */
  lemma FinishEntries(r: Record, es: seq<Option<Entry>>)
    ensures FinishRecord(r.(entries := es)).entries == AsFront(Remote2Local(r)) + es
  {
    hide Convert2UtdId, Assign;
  }

  function AsFront(e: Option<Entry>): seq<Option<Entry>> { if e.Some? then [e] else [] }
}
