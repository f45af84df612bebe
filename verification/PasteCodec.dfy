/**
 Encoding and decoding entries and records: what is well formed, what it decodes to, and how many
 recursion guards it takes.
 */
module PasteCodec {
  import opened Bytes
  import opened Assoc
  import opened Tlv
  import opened ReaderSpec
  import opened RoundTrip
  import opened Compat
  import opened Unreadable
  import opened PasteModel

  // ----- well-formed data

  ghost predicate EntryOk(e: Entry) { WellTyped(PasteClasses(), TEntryValue, e.value) }

  /** A pointer to custom data: null, or a map of byte arrays. */
  ghost predicate CustomOk(v: Value)
  {
    v.Null? || (v.Struct? && v.order == CUSTOM_ORDER && |v.fields| == 1 &&
                WellTyped(PasteClasses(), TBlobMap, v.fields[0]))
  }

  ghost predicate EntriesOk(es: seq<Option<Entry>>)
  {
    forall i :: 0 <= i < |es| && es[i].Some? ==> EntryOk(es[i].value)
  }

  /** Everything but the entries: opaque Wants and pixel maps are not empty. */
  ghost predicate FrameOk(r: Record)
  {
    && r.want != Some([]) && r.pixel != Some([])
    && CustomOk(r.custom)
    && WellTyped(PasteClasses(), TPtr(TDetails), r.details) && WellTyped(PasteClasses(), TPtr(TDetails), r.sys)
    && (r.udmf.Null? || WellTyped(PasteClasses(), TEntryValue, r.udmf))
  }

  /** No variant holds a null pointer. */
  ghost predicate RecordOk(r: Record) { FrameOk(r) && EntriesOk(r.entries) }

  /** A Want, PixelMap or Object alternative (7, 8 and 9) that is a null pointer. */
  predicate IsNullValue(v: Value) { v.Variant? && 7 <= v.index <= 9 && v.val.Null? }

  /** The value of an entry may itself be a null pointer. */
  ghost predicate RecordFits(r: Record)
  {
    FrameOk(r) && forall i :: 0 <= i < |r.entries| && r.entries[i].Some? ==>
                    EntryOk(r.entries[i].value) || IsNullValue(r.entries[i].value.value)
  }

  /** The first entry is not null: for another device its value is written as a field of the record. */
  ghost predicate FirstOk(r: Record) { r.entries != [] && r.entries[0].Some? ==> EntryOk(r.entries[0].value) }

  ghost predicate PasteFits(remote: bool, p: PasteData)
  {
    p.props.additions != [] &&
    forall i :: 0 <= i < |p.records| && p.records[i].Some? ==>
      RecordFits(p.records[i].value) && (remote ==> FirstOk(p.records[i].value))
  }

  /** Data without any null pointer in a variant. */
  ghost predicate PasteOk(p: PasteData)
  {
    p.props.additions != [] && forall i :: 0 <= i < |p.records| && p.records[i].Some? ==> RecordOk(p.records[i].value)
  }

  // ----- the classes meet the framework's conditions

  lemma ClassesAreGood()
    ensures Good(PasteClasses())
  {
    var c := PasteClasses();
    forall kind: Kind
      ensures |c.initial(kind)| == |c.types(kind)| < 0xFE00
      ensures forall i :: 0 <= i < |c.types(kind)| ==> Fresh(c, c.types(kind)[i], c.initial(kind)[i])
    {
      match kind
      case KRecord => InitialRecordIsFresh();
      case KPaste => InitialPasteIsFresh();
      case KProps => InitialPropertyIsFresh();
      case KEntry =>
      case KCustom =>
    }
  }

  lemma InitialRecordIsFresh()
    ensures forall i :: 0 <= i < 19 ==> Fresh(PasteClasses(), RecordTypes()[i], InitialRecord()[i])
  {
  }

  lemma InitialPropertyIsFresh()
    ensures |InitialFields(KProps)| == |FieldTypes(KProps)| == 11
    ensures forall i :: 0 <= i < 11 ==> Fresh(PasteClasses(), FieldTypes(KProps)[i], InitialFields(KProps)[i])
  {
  }

  lemma InitialPasteIsFresh()
    ensures |InitialFields(KPaste)| == |FieldTypes(KPaste)| == 11
    ensures forall i :: 0 <= i < 11 ==> Fresh(PasteClasses(), FieldTypes(KPaste)[i], InitialFields(KPaste)[i])
  {
  }

  // ----- entry values

  /** The normal form of an entry value, of details or of a byte map is itself. */
  lemma {:induction false} EntryValueIsNormal(c: Classes, ty: Ty, v: Value)
    requires WellTyped(c, ty, v) && !v.Raw?
    requires IsFlat(ty) || IsVariant(ty) || IsMap(ty) || ty == TPtr(TObject) || ty == TPtr(TDetails)
    ensures Norm(c, ty, v) == v
    decreases v, ty
  {
    if IsVariant(ty) {
      var alt := Alts(ty)[v.index];
      EntryValueIsNormal(c, alt, v.val);
    } else if IsMap(ty) {
      MapValuesAreNormal(c, ty, v.pairs);
    } else if ty.TPtr? && !v.Null? {
      EntryValueIsNormal(c, ty.elem, v);
    }
  }

  lemma {:induction false} MapValuesAreNormal(c: Classes, ty: Ty, pairs: Items)
    requires IsMap(ty) && forall i :: 0 <= i < |pairs| ==> WellTyped(c, MapValue(ty), pairs[i].val)
    ensures NormPairs(c, MapValue(ty), pairs) == pairs
    decreases pairs
  {
    if pairs != [] {
      MapValueIsThere(c, ty, pairs[0].val);
      EntryValueIsNormal(c, MapValue(ty), pairs[0].val);
      MapValuesAreNormal(c, ty, pairs[1..]);
      assert pairs == [pairs[0]] + pairs[1..];
    }
  }

  // ----- how deep objects nest

  /** How deep objects nest inside an entry value. */
  function Nesting(v: Value): nat
    decreases v
  {
    match v
    case Variant(_, x) => Nesting(x)
    case Dict(_, pairs) => 1 + NestingOf(pairs)
    case _ => 0
  }

  function NestingOf(pairs: Items): nat
    decreases pairs
  {
    if pairs == [] then 0 else Max(Nesting(pairs[0].val), NestingOf(pairs[1..]))
  }

  /** Only the object alternative nests, behind a pointer. */
  lemma Alternative(c: Classes, v: Value)
    requires WellTyped(c, TEntryValue, v)
    ensures v.Variant? && !v.val.Variant?
    ensures v.val.Dict? ==> forall i :: 0 <= i < |v.val.pairs| ==> WellTyped(c, TEntryValue, v.val.pairs[i].val)
    ensures Need(c, TEntryValue, v) == if v.val.Dict? then 2 + NeedPairs(c, TEntryValue, v.val.pairs) else 0
  {
    var x, alt := v.val, EntryAlts()[v.index];
    assert WellTyped(c, alt, x);
    assert Need(c, TEntryValue, v) == Need(c, alt, x);
    if v.index == 9 {
      assert alt == TPtr(TObject) && WellTyped(c, TObject, x);
      assert Need(c, alt, x) == 1 + Need(c, TObject, x);
    } else {
      assert IsFlat(alt);
    }
  }

  /** Each level of nesting costs two recursion guards: one for the pointer, one for the object. */
  lemma {:induction false} NestingCostsTwo(c: Classes, v: Value)
    requires WellTyped(c, TEntryValue, v)
    ensures Need(c, TEntryValue, v) == 2 * Nesting(v)
    decreases v
  {
    Alternative(c, v);
    if v.val.Dict? {
      NestingOfCostsTwo(c, v.val.pairs);
    }
  }

  lemma {:induction false} NestingOfCostsTwo(c: Classes, pairs: Items)
    requires forall i :: 0 <= i < |pairs| ==> WellTyped(c, TEntryValue, pairs[i].val)
    ensures NeedPairs(c, TEntryValue, pairs) == 2 * NestingOf(pairs)
    decreases pairs
  {
    if pairs != [] {
      NestingCostsTwo(c, pairs[0].val);
      NestingOfCostsTwo(c, pairs[1..]);
    }
  }

  /** A field value that is well typed, with its normal form and the most guards it takes. */
  ghost predicate Comes(ty: Ty, v: Value, w: Value, most: nat)
  {
    && WellTyped(PasteClasses(), ty, v) && !v.Mono? && !v.Nullptr?
    && Norm(PasteClasses(), ty, v) == w && Need(PasteClasses(), ty, v) <= most
  }

  // ----- records

  lemma EntryIsTyped(e: Option<Entry>)
    requires e.Some? ==> EntryOk(e.value)
    ensures WellTyped(PasteClasses(), TPtr(TStruct(KEntry)), EntryValue(e))
  {
    if e.Some? {
      var f, t := EntryFields(e.value), FieldTypes(KEntry);
      forall i | 0 <= i < 3 ensures WellTyped(PasteClasses(), t[i], f[i]) && !f[i].Mono? && !f[i].Nullptr? {
        if i == 2 {
          assert t[i] == TEntryValue && f[i] == e.value.value;
        }
      }
      assert WellTypedFields(PasteClasses(), KEntry, ENTRY_ORDER, f);
    }
  }

  lemma EntriesAreTyped(es: seq<Option<Entry>>)
    requires EntriesOk(es)
    ensures WellTyped(PasteClasses(), TVec(TPtr(TStruct(KEntry))), List(EntryValues(es)))
  {
    hide EntryValue;
    forall i | 0 <= i < |es| ensures WellTyped(PasteClasses(), TPtr(TStruct(KEntry)), EntryValues(es)[i]) {
      EntryIsTyped(es[i]);
    }
  }

  lemma FlatValueNeedsNothing(c: Classes, ty: Ty, v: Value)
    requires (ty.TBlob? || ty.TDetailValue?) && WellTyped(c, ty, v)
    ensures Need(c, ty, v) == 0
  {
    hide WellTypedFields, WellTypedVariant, NormItems, NormPairs, NormFields, NeedItems, NeedPairs, NeedFields;
    if ty.TDetailValue? {
      VariantStep(c, TDetailValue, v);
      assert IsFlat(DetailAlts()[v.index]);
    }
  }

  lemma {:induction false} FlatMapNeedsNothing(c: Classes, ty: Ty, pairs: Items)
    requires ty.TBlobMap? || ty.TDetails?
    requires forall i :: 0 <= i < |pairs| ==> WellTyped(c, MapValue(ty), pairs[i].val)
    ensures NeedPairs(c, MapValue(ty), pairs) == 0
    decreases pairs
  {
    hide WellTyped, Need;
    if pairs != [] {
      FlatMapNeedsNothing(c, ty, pairs[1..]);
      FlatValueNeedsNothing(c, MapValue(ty), pairs[0].val);
    }
  }

  lemma CustomIsTyped(v: Value)
    requires CustomOk(v)
    ensures Comes(TPtr(TStruct(KCustom)), v, v, 1)
  {
    if !v.Null? {
      var c, m := PasteClasses(), v.fields[0];
      hide WellTyped, Norm, Need;
      CustomMapIsNormal(m);
      CustomStruct(v);
    } else {
      NullComes(TStruct(KCustom));
    }
  }

  lemma NullComes(elem: Ty)
    ensures Comes(TPtr(elem), Null, Null, 0)
  {
    hide PasteClasses, WellTyped, Norm, Need;
    PtrStep(PasteClasses(), elem, Null);
  }

  lemma CustomMapIsNormal(m: Value)
    requires WellTyped(PasteClasses(), TBlobMap, m)
    ensures Norm(PasteClasses(), TBlobMap, m) == m && Need(PasteClasses(), TBlobMap, m) == 0
    ensures m.Dict?
  {
    EntryValueIsNormal(PasteClasses(), TBlobMap, m);
    FlatMapNeedsNothing(PasteClasses(), TBlobMap, m.pairs);
  }

  lemma CustomStruct(v: Value)
    requires v.Struct? && v.order == CUSTOM_ORDER && |v.fields| == 1
    requires WellTyped(PasteClasses(), TBlobMap, v.fields[0]) && v.fields[0].Dict?
    requires Norm(PasteClasses(), TBlobMap, v.fields[0]) == v.fields[0]
    requires Need(PasteClasses(), TBlobMap, v.fields[0]) == 0
    ensures WellTyped(PasteClasses(), TPtr(TStruct(KCustom)), v)
    ensures Norm(PasteClasses(), TPtr(TStruct(KCustom)), v) == v
    ensures Need(PasteClasses(), TPtr(TStruct(KCustom)), v) == 1
  {
    hide PasteClasses, FieldTypes, WellTyped, Norm, Need;
    var c := PasteClasses();
    CustomTypes();
    StructStep(c, KCustom, v.order, v.fields);
    PtrStep(c, TStruct(KCustom), v);
    assert NormFields(c, KCustom, v.fields) == v.fields;
    assert v.order[1..] == [] && NeedFields(c, KCustom, [], v.fields) == 0;
  }

  lemma CustomTypes()
    ensures PasteClasses().types(KCustom) == [TBlobMap] && PasteClasses().order(KCustom) == CUSTOM_ORDER
    ensures forall f :: PasteClasses().finish(KCustom, f) == f
    ensures IsPermutation(CUSTOM_ORDER, 1)
  {
  }

  lemma DetailsAreNormal(v: Value)
    requires WellTyped(PasteClasses(), TPtr(TDetails), v)
    ensures Comes(TPtr(TDetails), v, v, 1)
  {
    hide PasteClasses, WellTyped, Norm, Need, NeedPairs;
    var c := PasteClasses();
    PtrStep(c, TDetails, v);
    if !v.Null? {
      MapStep(c, TDetails, v);
      EntryValueIsNormal(c, TPtr(TDetails), v);
      FlatMapNeedsNothing(c, TDetails, v.pairs);
    }
  }

  /** Null entries and records are not written, so they do not arrive. */
  function NonNull<T>(s: seq<Option<T>>): (r: seq<Option<T>>)
    ensures forall i :: 0 <= i < |r| ==> r[i].Some? && r[i] in s
  {
    if s == [] then [] else (if s[0].Some? then [s[0]] else []) + NonNull(s[1..])
  }

  lemma EntryBack(e: Entry)
    requires EntryOk(e)
    ensures Norm(PasteClasses(), TPtr(TStruct(KEntry)), EntryValue(Some(e))) == EntryValue(Some(e))
    ensures Need(PasteClasses(), TPtr(TStruct(KEntry)), EntryValue(Some(e))) == 1 + 2 * Nesting(e.value)
  {
    var c, f, v := PasteClasses(), EntryFields(e), EntryValue(Some(e));
    Alternative(c, e.value);
    EntryValueIsNormal(c, TEntryValue, e.value);
    NestingCostsTwo(c, e.value);
    EntryFieldsBack(e);
    assert Norm(c, TStruct(KEntry), v) == v;
  }

  lemma EntryFieldsBack(e: Entry)
    requires Norm(PasteClasses(), TEntryValue, e.value) == e.value
    ensures NormFields(PasteClasses(), KEntry, EntryFields(e)) == EntryFields(e)
    ensures NeedFields(PasteClasses(), KEntry, ENTRY_ORDER, EntryFields(e)) ==
            Need(PasteClasses(), TEntryValue, e.value)
  {
    var c, f, n := PasteClasses(), EntryFields(e), Need(PasteClasses(), TEntryValue, e.value);
    hide Need;
    TextStep(c, e.utdId);
    TextStep(c, e.mime);
    assert NeedFields(c, KEntry, [], f) == 0;
    assert NeedFields(c, KEntry, [2], f) == n by { assert [2][1..] == []; }
    assert NeedFields(c, KEntry, [1, 2], f) == n by { assert [1, 2][1..] == [2]; }
    assert NeedFields(c, KEntry, [0, 1, 2], f) == n by { assert [0, 1, 2][1..] == [1, 2]; }
  }

  function EntriesNesting(es: seq<Option<Entry>>): nat
  {
    if es == [] then 0
    else Max(if es[0].Some? then 1 + 2 * Nesting(es[0].value.value) else 0, EntriesNesting(es[1..]))
  }

  lemma EntryValuesCons(e: Option<Entry>, rest: seq<Option<Entry>>)
    ensures EntryValues([e] + rest) == [EntryValue(e)] + EntryValues(rest)
  {
    hide EntryValue;
  }

  lemma {:induction false} EntriesBack(es: seq<Option<Entry>>)
    requires EntriesOk(es)
    ensures NormItems(PasteClasses(), TPtr(TStruct(KEntry)), EntryValues(es)) == EntryValues(NonNull(es))
    ensures NeedItems(PasteClasses(), TPtr(TStruct(KEntry)), EntryValues(es)) == EntriesNesting(es)
  {
    hide EntryValue, EntryValues, Norm, Need, Nesting, EntryOk, PasteClasses;
    if es == [] {
      assert EntryValues(es) == [];
    } else {
      var e, rest := es[0], es[1..];
      assert es == [e] + rest;
      EntriesBack(rest);
      EntryValuesCons(e, rest);
      assert EntryValues(es)[1..] == EntryValues(rest);
      NullOrNot(e);
      if e.Some? {
        EntryBack(e.value);
        EntryValuesCons(e, NonNull(rest));
      } else {
        NullHasNoBytes(PasteClasses(), TPtr(TStruct(KEntry)), 0);
        Regroup([], [], NonNull(rest));
        Regroup([], [], EntryValues(NonNull(rest)));
      }
    }
  }

  lemma NullOrNot(e: Option<Entry>)
    ensures EntryValue(e).Null? <==> e.None?
    ensures e.None? ==> EntryValue(e) == Null
  {
  }

  // ----- one record

  predicate IsLeaf(ty: Ty, v: Value)
  {
    || (ty.TText? && v.Text?) || (ty.TBool? && v.Bool?) || (ty.TI32? && v.I32?) || (ty.TU32? && v.U32?)
    || (ty.TI64? && v.I64?) || (ty.TParams? && v.Raw? && v.s != [])
  }

  lemma LeafComes(ty: Ty, v: Value)
    requires IsLeaf(ty, v)
    ensures Comes(ty, v, v, 0)
  {
    hide PasteClasses, WellTypedFields, WellTypedVariant, NormItems, NormPairs, NormFields, NeedItems, NeedPairs;
    hide NeedFields;
  }

  lemma OptTextComes(o: Option<bytes>)
    ensures Comes(TPtr(TText), OptText(o), OptText(o), 1)
  {
    hide PasteClasses, WellTyped, Norm, Need;
    PtrStep(PasteClasses(), TText, OptText(o));
    if o.Some? {
      TextStep(PasteClasses(), o.value);
    }
  }

  lemma RawComes(o: Option<bytes>)
    requires o != Some([])
    ensures Comes(TWant, OptRaw(o), OptShared(o), 0)
    ensures Comes(TWant, OptShared(o), OptShared(o), 0)
  {
    hide PasteClasses, WellTypedFields, WellTypedVariant, NormItems, NormPairs, NormFields, NeedItems, NeedPairs;
    hide NeedFields;
  }

  lemma UdmfComes(v: Value)
    requires v.Null? || WellTyped(PasteClasses(), TEntryValue, v)
    ensures Comes(TPtr(TEntryValue), v, v, if v.Null? then 0 else 1 + 2 * Nesting(v))
    ensures Need(PasteClasses(), TPtr(TEntryValue), v) == if v.Null? then 0 else 1 + 2 * Nesting(v)
  {
    hide PasteClasses, WellTyped, Norm, Need, Nesting;
    PtrStep(PasteClasses(), TEntryValue, v);
    if !v.Null? {
      Alternative(PasteClasses(), v);
      EntryValueIsNormal(PasteClasses(), TEntryValue, v);
      NestingCostsTwo(PasteClasses(), v);
    }
  }

  lemma EntriesCome(es: seq<Option<Entry>>)
    requires EntriesOk(es)
    ensures Comes(TVec(TPtr(TStruct(KEntry))), List(EntryValues(es)), List(EntryValues(NonNull(es))),
                  1 + EntriesNesting(es))
    ensures Need(PasteClasses(), TVec(TPtr(TStruct(KEntry))), List(EntryValues(es))) == 1 + EntriesNesting(es)
  {
    hide WellTyped, EntryValues, NormItems, NeedItems, PasteClasses, Norm, Need;
    EntriesAreTyped(es);
    EntriesBack(es);
    VecStep(PasteClasses(), TPtr(TStruct(KEntry)), EntryValues(es));
  }

  /** A record's fields as they arrive: pointers for raw memory, no null entries. */
  function Arrived(r: Record): (f: seq<Value>)
    ensures |f| == 19
  {
    [Text(r.mime), OptText(r.html), OptShared(r.want), OptText(r.plain), OptShared(OptUri(r.uri)), OptShared(r.pixel),
     r.custom, Text(r.convertUri), Bool(r.granted), I32(r.udType), r.details, Text(r.text), r.sys, r.udmf,
     List(EntryValues(NonNull(r.entries))), U32(r.dataId), U32(r.id), Bool(r.delay), U32(r.from)]
  }

  /** How many guards one field takes at most. */
  function FieldNeed(r: Record, i: nat): nat
  {
    if i == R_ENTRIES then 1 + EntriesNesting(r.entries)
    else if i == R_UDMF && !r.udmf.Null? then 1 + 2 * Nesting(r.udmf)
    else 1
  }

  lemma RecordFieldComes(r: Record, i: nat)
    requires RecordOk(r) && i < 19
    ensures Comes(RecordTypes()[i], RecordFields(r)[i], Arrived(r)[i], FieldNeed(r, i))
  {
    hide Norm, Need, WellTyped, OptText, OptRaw, OptShared, EntryValues, PasteClasses, EntriesNesting, Nesting;
    var ty, v := RecordTypes()[i], RecordFields(r)[i];
    if i == R_HTML { OptTextComes(r.html); }
    else if i == R_PLAIN { OptTextComes(r.plain); }
    else if i == R_WANT { RawComes(r.want); }
    else if i == R_URI { RawComes(OptUri(r.uri)); }
    else if i == R_PIXEL { RawComes(r.pixel); }
    else if i == R_CUSTOM { CustomIsTyped(r.custom); }
    else if i == R_DETAILS { DetailsAreNormal(r.details); }
    else if i == R_SYS { DetailsAreNormal(r.sys); }
    else if i == R_UDMF { UdmfComes(r.udmf); }
    else if i == R_ENTRIES { EntriesCome(r.entries); }
    else { LeafComes(ty, v); }
  }

  /** What the fields of a written record decode to, before DecodeTLV finishes it. */
  lemma ArrivedRecord(r: Record)
    requires r.want != Some([]) && r.pixel != Some([])
    ensures AsRecord(Arrived(r)) == r.(entries := NonNull(r.entries))
  {
    hide MarshalUri, UnmarshalUri, AsEntries, EntryValues;
    EntriesInverse(NonNull(r.entries));
    if r.uri.Some? {
      UriInverse(r.uri.value);
    }
  }

  /** The record EncodeTLV writes. */
  function Sent(remote: bool, r: Record): Record { if remote then Local2Remote(r) else r }

  /** The record the reader ends up with for a record that was written. */
  function Received(remote: bool, r: Record): Record
  {
    var sent := Sent(remote, r);
    FinishRecord(sent.(entries := NonNull(sent.entries)))
  }

  /** A maximum is within a bound iff every part is. */
  lemma {:induction false} NeedFieldsWithin(c: Classes, kind: Kind, order: seq<nat>, fields: seq<Value>, most: nat)
    requires |fields| == |c.types(kind)| && forall j :: 0 <= j < |order| ==> order[j] < |fields|
    ensures NeedFields(c, kind, order, fields) <= most <==>
            forall j :: 0 <= j < |order| ==> Need(c, c.types(kind)[order[j]], fields[order[j]]) <= most
    decreases |order|
  {
    hide Need;
    if order != [] {
      var rest := order[1..];
      forall j | 0 <= j < |rest| ensures rest[j] == order[j + 1] && rest[j] < |fields| {
      }
      NeedFieldsWithin(c, kind, rest, fields, most);
      assert forall j :: 0 < j < |order| ==> order[j] == rest[j - 1];
    }
  }

  lemma NeedOfAll(c: Classes, kind: Kind, order: seq<nat>, fields: seq<Value>, most: nat)
    requires |fields| == |c.types(kind)| && IsPermutation(order, |fields|)
    ensures NeedFields(c, kind, order, fields) <= most <==>
            forall i :: 0 <= i < |fields| ==> Need(c, c.types(kind)[i], fields[i]) <= most
  {
    hide Need, NeedFields;
    NeedFieldsWithin(c, kind, order, fields, most);
    if NeedFields(c, kind, order, fields) <= most {
      forall i | 0 <= i < |fields| ensures Need(c, c.types(kind)[i], fields[i]) <= most {
        assert i in order;
        var j :| 0 <= j < |order| && order[j] == i;
      }
    }
  }

  /** Objects nest at most n deep in a record's entries and in its UDMF value. */
  ghost predicate NestsWithin(r: Record, n: nat)
  {
    && (r.udmf.Null? || Nesting(r.udmf) <= n)
    && forall i :: 0 <= i < |r.entries| && r.entries[i].Some? ==> Nesting(r.entries[i].value.value) <= n
  }

  lemma {:induction false} EntriesNestWithin(es: seq<Option<Entry>>, n: nat)
    ensures EntriesNesting(es) <= 1 + 2 * n <==>
            forall i :: 0 <= i < |es| && es[i].Some? ==> Nesting(es[i].value.value) <= n
    decreases |es|
  {
    hide Nesting;
    if es != [] {
      var rest := es[1..];
      EntriesNestWithin(rest, n);
      assert forall i :: 0 < i < |es| ==> es[i] == rest[i - 1];
      assert forall i :: 0 <= i < |rest| ==> rest[i] == es[i + 1];
    }
  }

  /** A record in a PasteData has 8 guards left: enough for three levels of objects, not for four. */
  lemma RecordBack(remote: bool, r: Record)
    requires RecordOk(r)
    ensures var c, f, order := PasteClasses(), RecordFields(r), RecordOrder(remote);
            && WellTypedFields(c, KRecord, order, f)
            && NormFields(c, KRecord, f) == Arrived(r)
            && (NeedFields(c, KRecord, order, f) <= 8 <==> NestsWithin(r, 3))
  {
    hide Norm, Need, WellTyped, RecordFields, RecordOrder, Arrived, RecordTypes, NeedFields, Nesting;
    var c, f, order := PasteClasses(), RecordFields(r), RecordOrder(remote);
    forall i: nat | i < 19 ensures Comes(RecordTypes()[i], f[i], Arrived(r)[i], FieldNeed(r, i)) {
      RecordFieldComes(r, i);
    }
    RecordOrderIsPermutation(remote);
    NeedOfAll(c, KRecord, order, f, 8);
    RecordNeeds(r);
    assert NormFields(c, KRecord, f) == Arrived(r);
  }

  lemma RecordNeeds(r: Record)
    requires RecordOk(r)
    requires forall i: nat :: i < 19 ==> Comes(RecordTypes()[i], RecordFields(r)[i], Arrived(r)[i], FieldNeed(r, i))
    ensures (forall i :: 0 <= i < 19 ==> Need(PasteClasses(), RecordTypes()[i], RecordFields(r)[i]) <= 8) <==>
            NestsWithin(r, 3)
  {
    hide Norm, Need, WellTyped, Arrived, Nesting, PasteClasses, EntryValues, EntriesNesting;
    EntriesCome(r.entries);
    UdmfComes(r.udmf);
    EntriesNestWithin(r.entries, 3);
    assert RecordTypes()[R_ENTRIES] == TVec(TPtr(TStruct(KEntry))) &&
           RecordFields(r)[R_ENTRIES] == List(EntryValues(r.entries));
    assert RecordTypes()[R_UDMF] == TPtr(TEntryValue) && RecordFields(r)[R_UDMF] == r.udmf;
    if NestsWithin(r, 3) {
      forall i: nat | i < 19 ensures Need(PasteClasses(), RecordTypes()[i], RecordFields(r)[i]) <= 8 {
        assert Comes(RecordTypes()[i], RecordFields(r)[i], Arrived(r)[i], FieldNeed(r, i));
      }
    }
  }

  // ----- one entry

  lemma FinishPaste(f: seq<Value>)
    ensures PasteClasses().finish(KPaste, f) == f && PasteClasses().order(KPaste) == PLAIN_ORDER
    ensures PasteClasses().finish(KEntry, f) == f && PasteClasses().order(KEntry) == ENTRY_ORDER
  {
  }

  /** A single entry, as it is sent for a delayed record, has all ten guards: five levels of objects. */
  lemma EntryArrives(e: Entry, k: nat)
    requires EntryOk(e) && |EncFields(ENTRY_ORDER, EntryFields(e))| + HEAD * k < TWO32
    ensures Decode(PasteClasses(), KEntry, EncFields(ENTRY_ORDER, EntryFields(e)) + Zeros(HEAD * k)) ==
            if Nesting(e.value) <= 5 then Some(Struct(ENTRY_ORDER, EntryFields(e))) else None
  {
    hide Norm, Need, Decode, EncFields, Good, NeedFields, NormFields, EntryFields;
    var c := PasteClasses();
    EntryIsTyped(Some(e));
    Alternative(c, e.value);
    EntryValueIsNormal(c, TEntryValue, e.value);
    EntryFieldsBack(e);
    NestingCostsTwo(c, e.value);
    ClassesAreGood();
    DecodeOfEncoded(c, KEntry, ENTRY_ORDER, EntryFields(e), k);
    FinishPaste(EntryFields(e));
  }

  // ----- null values

  lemma WholeBuffer(d: bytes)
    ensures At(d, 0, d)
  {
  }

  lemma NullEntryBytes(utdId: bytes, mime: bytes, v: Value)
    requires v.Variant? && v.val.Null?
    ensures var x, y, z := Enc(TagOf(0), Text(utdId)), Enc(TagOf(1), Text(mime)), Enc(TagOf(2), v);
            && EncFields(ENTRY_ORDER, EntryFields(Entry(utdId, mime, v))) == x + (y + z)
            && |x| == HEAD + |utdId| && |y| == HEAD + |mime| && |z| == HEAD + 10
  {
    hide PasteClasses, Payload, Tlv1, Enc;
    EntryBytes(Entry(utdId, mime, v));
    EncLength(TagOf(0), Text(utdId));
    EncLength(TagOf(1), Text(mime));
    EncLength(TagOf(2), v);
    VariantPayload(v);
    TextPayload(utdId);
    TextPayload(mime);
    NullHasNoBytes(PasteClasses(), TWant, TAG_VARIANT_VALUE);
  }

  lemma EntryBytes(e: Entry)
    ensures EncFields(ENTRY_ORDER, EntryFields(e)) ==
            Enc(TagOf(0), Text(e.utdId)) + (Enc(TagOf(1), Text(e.mime)) + Enc(TagOf(2), e.value))
  {
    hide Enc;
    var f, z := EntryFields(e), Enc(TagOf(2), e.value);
    assert [0, 1, 2][1..] == [1, 2] && [1, 2][1..] == [2] && [2][1..] == [];
    assert EncFields([], f) == [];
    assert EncFields([2], f) == z + [] == z;
  }

  lemma TextPayload(s: bytes)
    ensures Payload(Text(s)) == s
  {
  }

  /** The last field is such a variant, and the limit is right behind it: its alternative has no head. */
  lemma NullValueFails(c: Classes, d: bytes, lim: nat, cur: nat, dep: nat, now: seq<Value>, v: Value)
    requires c == PasteClasses() && |now| == 3 && IsNullValue(v)
    requires InBuffer(d, lim, cur, Enc(TagOf(2), v)) && cur + HEAD + 10 == lim
    ensures ReadField(c, d, lim, cur, dep, KEntry, now) == None
  {
    hide Le, UnLe, PasteClasses;
    EntryTypes();
    var i := Tlv1(TAG_VARIANT_INDEX, Le(v.index, 4));
    VariantPayload(v);
    NullHasNoBytes(c, TWant, TAG_VARIANT_VALUE);
    assert Payload(v) == i + [] == i;
    EncBack(d, lim, cur, TagOf(2), v);
    IndexBack(d, lim, cur + HEAD, v.index);
    assert ReadVariant(c, d, lim, cur + HEAD, dep, TEntryValue, now[2]) == None;
    assert Read(c, d, lim, cur + HEAD, dep, TEntryValue, now[2], 10) == None;
  }

  lemma EntryTypes()
    ensures PasteClasses().types(KEntry) == [TText, TText, TEntryValue]
    ensures PasteClasses().initial(KEntry) == [Text([]), Text([]), EvMono()]
  {
  }

  /** The two strings of an entry are read, and the reader stands at its value. */
  lemma EntryValueIsNext(d: bytes, lim: nat, dep: nat, cur: nat, e: Entry) returns (at: nat)
    requires InBuffer(d, lim, cur, EncFields(ENTRY_ORDER, EntryFields(e))) && dep <= MAX_DEPTH
    ensures at == cur + HEAD + |e.utdId| + HEAD + |e.mime| && InBuffer(d, lim, at, Enc(TagOf(2), e.value))
    ensures ReadFields(PasteClasses(), d, lim, cur, dep, KEntry, PasteClasses().initial(KEntry)) ==
            ReadFields(PasteClasses(), d, lim, at, dep, KEntry, [Text(e.utdId), Text(e.mime), EvMono()])
  {
    hide Tlv1, Le, UnLe, Read, ReadField, ReadFields, InBuffer, Good, WellTyped, Norm, Need, PasteClasses, Enc;
    hide EncFields, EvMono;
    var c := PasteClasses();
    var x, y, z := Enc(TagOf(0), Text(e.utdId)), Enc(TagOf(1), Text(e.mime)), Enc(TagOf(2), e.value);
    EntryBytes(e);
    EntryTypes();
    TextPayload(e.utdId);
    TextPayload(e.mime);
    EncLength(TagOf(0), Text(e.utdId));
    EncLength(TagOf(1), Text(e.mime));
    InBufferSplit(d, lim, cur, x, y + z);
    InBufferSplit(d, lim, cur + |x|, y, z);
    Bounds(d, lim, cur + |x|, y);
    at := cur + |x| + |y|;
    var now := c.initial(KEntry);
    var next := now[0 := Text(e.utdId)];
    ClassesAreGood();
    TextStep(c, e.utdId);
    TextStep(c, e.mime);
    ReadFieldBack(c, d, lim, cur, dep, KEntry, now, 0, Text(e.utdId));
    ReadFieldBack(c, d, lim, cur + |x|, dep, KEntry, next, 1, Text(e.mime));
    FieldsTurn(c, d, lim, cur, dep, KEntry, now);
    FieldsTurn(c, d, lim, cur + |x|, dep, KEntry, next);
    assert next[1 := Text(e.mime)] == [Text(e.utdId), Text(e.mime), EvMono()];
  }

  /** An entry whose own value is null, with the limit at its end, cannot be read. */
  lemma NullEntryFails(d: bytes, lim: nat, cur: nat, dep: nat, e: Entry)
    requires IsNullValue(e.value) && dep <= MAX_DEPTH
    requires InBuffer(d, lim, cur, EncFields(ENTRY_ORDER, EntryFields(e))) &&
             lim == cur + |EncFields(ENTRY_ORDER, EntryFields(e))|
    ensures cur <= lim <= |d|
    ensures ReadFields(PasteClasses(), d, lim, cur, dep, KEntry, PasteClasses().initial(KEntry)) == None
  {
    hide Read, ReadField, ReadFields, InBuffer, PasteClasses, Enc, EncFields, IsNullValue, EvMono;
    Bounds(d, lim, cur, EncFields(ENTRY_ORDER, EntryFields(e)));
    var at := EntryValueIsNext(d, lim, dep, cur, e);
    NullIsVariant(e.value);
    NullEntryBytes(e.utdId, e.mime, e.value);
    var now := [Text(e.utdId), Text(e.mime), EvMono()];
    NullValueFails(PasteClasses(), d, lim, at, dep, now, e.value);
    FieldsTurn(PasteClasses(), d, lim, at, dep, KEntry, now);
  }

  lemma NullIsVariant(v: Value)
    requires IsNullValue(v)
    ensures v.Variant? && v.val.Null?
  {
  }

  /**
   A null pointer inside a variant writes no bytes after the index, so the reader finds no head for
   the alternative: an entry with such a value encodes without an error and never decodes.
   */
  lemma NullAlternativeIsLost(e: Entry)
    requires IsNullValue(e.value) && |e.utdId| + |e.mime| + 34 < TWO32
    ensures Decode(PasteClasses(), KEntry, EncFields(ENTRY_ORDER, EntryFields(e))) == None
  {
    hide ReadFields, PasteClasses, EncFields, At, Enc, IsNullValue;
    var d := EncFields(ENTRY_ORDER, EntryFields(e));
    NullIsVariant(e.value);
    NullEntryBytes(e.utdId, e.mime, e.value);
    WholeBuffer(d);
    NullEntryFails(d, |d|, 0, 0, e);
  }

  lemma NullEntryIsUnreadable(e: Entry)
    requires IsNullValue(e.value)
    ensures IsUnreadable(PasteClasses(), TPtr(TStruct(KEntry)), EntryValue(Some(e)))
  {
    hide PasteClasses, ReadFields, EncFields, At, IsNullValue, EntryFields;
    var c, v := PasteClasses(), Struct(ENTRY_ORDER, EntryFields(e));
    StructPayload(ENTRY_ORDER, EntryFields(e));
    hide Payload;
    forall d: bytes, lim: nat, cur: nat, dep: nat, was: Value
      | InBuffer(d, lim, cur, Payload(v)) && dep <= MAX_DEPTH && Fresh(c, TStruct(KEntry), was)
      ensures Read(c, d, lim, cur, dep, TStruct(KEntry), was, |Payload(v)|) == None
    {
      NullEntryFails(d, cur + |Payload(v)|, cur, dep, e);
    }
    PointerIsUnreadable(c, TStruct(KEntry), v);
  }
}
