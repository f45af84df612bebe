/**
 Reading the wire format (framework/tlv/tlv_readable.h, tlv_readable.cpp), said byte by byte: what each
 basic value is read as from any bytes at all, and what a whole structure in the wire format decodes to.
 */
module WireRead {
  import opened Bytes
  import opened Assoc
  import opened Tlv
  import opened Wire
  import opened ReaderSpec
  import opened RoundTrip
  import opened Compat

  /** The payload of this length is there in front of the limit. */
  predicate There(lim: nat, cur: nat, len: nat) { cur + len <= lim }

  lemma BoolRead(c: Classes, d: bytes, lim: nat, cur: nat, dep: nat, was: Value, len: nat)
    requires cur <= lim <= |d|
    ensures var r := Read(c, d, lim, cur, dep, TBool, was, len);
            if There(lim, cur, len) && len == 1 && d[cur] <= 1 then r == Some(Got(Bool(d[cur] == 1), cur + 1))
            else r == None
  {
    ReadOfFlat(c, d, lim, cur, dep, TBool, was, len);
  }

  lemma Int32Read(c: Classes, d: bytes, lim: nat, cur: nat, dep: nat, was: Value, len: nat)
    requires cur <= lim <= |d|
    ensures var r := Read(c, d, lim, cur, dep, TI32, was, len);
            if There(lim, cur, len) && len == 4 then
              && r.Some? && r.value.cur == cur + 4 && r.value.v.I32?
              && FourBytes(d, cur, if r.value.v.i < 0 then r.value.v.i + 0x1_0000_0000 else r.value.v.i)
            else r == None
  {
    ReadOfFlat(c, d, lim, cur, dep, TI32, was, len);
    if There(lim, cur, len) && len == 4 {
      UnLeFour(d[cur..cur + 4]);
      Fits(d[cur..cur + 4]);
    }
  }

  lemma Uint32Read(c: Classes, d: bytes, lim: nat, cur: nat, dep: nat, was: Value, len: nat)
    requires cur <= lim <= |d|
    ensures var r := Read(c, d, lim, cur, dep, TU32, was, len);
            if There(lim, cur, len) && len == 4 then
              r.Some? && r.value.cur == cur + 4 && r.value.v.U32? && FourBytes(d, cur, r.value.v.u)
            else r == None
  {
    ReadOfFlat(c, d, lim, cur, dep, TU32, was, len);
    if There(lim, cur, len) && len == 4 {
      UnLeFour(d[cur..cur + 4]);
      Fits(d[cur..cur + 4]);
    }
  }

  lemma Int64Read(c: Classes, d: bytes, lim: nat, cur: nat, dep: nat, was: Value, len: nat)
    requires cur <= lim <= |d|
    ensures var r := Read(c, d, lim, cur, dep, TI64, was, len);
            if There(lim, cur, len) && len == 8 then
              && r.Some? && r.value.cur == cur + 8 && r.value.v.I64?
              && EightBytes(d, cur, if r.value.v.l < 0 then r.value.v.l + 0x1_0000_0000_0000_0000 else r.value.v.l)
            else r == None
  {
    ReadOfFlat(c, d, lim, cur, dep, TI64, was, len);
    if There(lim, cur, len) && len == 8 {
      UnLeEight(d[cur..cur + 8]);
      Fits(d[cur..cur + 8]);
    }
  }

  lemma DoubleRead(c: Classes, d: bytes, lim: nat, cur: nat, dep: nat, was: Value, len: nat)
    requires cur <= lim <= |d|
    ensures var r := Read(c, d, lim, cur, dep, TF64, was, len);
            if There(lim, cur, len) && len == 8 then
              && r.Some? && r.value.cur == cur + 8 && r.value.v.F64?
              && forall k :: cur <= k < cur + 8 ==> d[k] == r.value.v.host[cur + 7 - k]
            else r == None
  {
    ReadOfFlat(c, d, lim, cur, dep, TF64, was, len);
    if There(lim, cur, len) && len == 8 {
      var b := d[cur..cur + 8];
      assert forall k :: cur <= k < cur + 8 ==> d[k] == b[k - cur] == Reversed(b)[cur + 7 - k];
    }
  }

  /** Strings are appended to what is there, byte vectors and opaque values take the place of it. */
  lemma BytesRead(c: Classes, d: bytes, lim: nat, cur: nat, dep: nat, was: Value, len: nat)
    requires cur <= lim <= |d|
    ensures !There(lim, cur, len) ==> forall ty :: ty in {TText, TBlob, TWant, TParams} ==>
              Read(c, d, lim, cur, dep, ty, was, len) == None
    ensures There(lim, cur, len) ==>
              var b, end := d[cur..cur + len], cur + len;
              && Read(c, d, lim, cur, dep, TText, was, len) ==
                 Some(Got(Text((if was.Text? then was.s else []) + b), end))
              && Read(c, d, lim, cur, dep, TBlob, was, len) == Some(Got(Blob(b), end))
              && Read(c, d, lim, cur, dep, TWant, was, len) == Some(Got(if len == 0 then Null else Shared(b), end))
              && Read(c, d, lim, cur, dep, TParams, was, len) == Some(Got(if len == 0 then was else Raw(b), end))
  {
    ReadOfFlat(c, d, lim, cur, dep, TText, was, len);
    ReadOfFlat(c, d, lim, cur, dep, TBlob, was, len);
    ReadOfFlat(c, d, lim, cur, dep, TWant, was, len);
    ReadOfFlat(c, d, lim, cur, dep, TParams, was, len);
  }

  /** Which index a value of an entry is written with; 7 and 8 are both opaque values. */
  function IndexOf(x: Value): nat
  {
    match x
    case Mono => 0
    case I32(_) => 1
    case I64(_) => 2
    case F64(_) => 3
    case Bool(_) => 4
    case Text(_) => 5
    case Blob(_) => 6
    case Shared(_) => 7
    case Dict(_, _) => 9
    case Nullptr => 10
    case _ => 11
  }

  /** ... and a value in details. */
  function DetailIndexOf(x: Value): nat
  {
    match x
    case I32(_) => 0
    case I64(_) => 1
    case Bool(_) => 2
    case F64(_) => 3
    case Text(_) => 4
    case Blob(_) => 5
    case _ => 6
  }

  /** The alternative a variant is written and read with is told by its value. */
  lemma IndexNamesType(c: Classes, v: Value)
    ensures WellTyped(c, TEntryValue, v) ==>
              v.Variant? && (IndexOf(v.val) == v.index || (v.val.Shared? && v.index == 8))
    ensures WellTyped(c, TDetailValue, v) ==> v.Variant? && DetailIndexOf(v.val) == v.index
  {
    hide WellTyped;
    if WellTyped(c, TEntryValue, v) {
      VariantStep(c, TEntryValue, v);
      EntryAlternative(c, v);
    }
    if WellTyped(c, TDetailValue, v) {
      VariantStep(c, TDetailValue, v);
      DetailAlternative(c, v);
    }
  }

  lemma DetailAlternative(c: Classes, v: Value)
    requires v.Variant? && v.index < 6 && WellTyped(c, DetailAlts()[v.index], v.val)
    ensures DetailIndexOf(v.val) == v.index
  {
    hide WellTypedFields, WellTypedVariant, Sorted;
  }

  lemma EntryAlternative(c: Classes, v: Value)
    requires v.Variant? && v.index < 11 && !v.val.Null? && !v.val.Raw? && WellTyped(c, EntryAlts()[v.index], v.val)
    ensures IndexOf(v.val) == v.index || (v.val.Shared? && v.index == 8)
  {
    hide WellTypedFields, WellTypedVariant, Sorted;
    if v.index == 9 {
      PtrStep(c, TObject, v.val);
    }
  }

  /**
   A structure whose fields stand in the buffer in the wire format, in any write order and with heads of
   zeros behind them: each decodes to its normal form, or a field needs more guards than there are.
   */
  lemma WireDecodes(c: Classes, kind: Kind, d: bytes, order: seq<nat>, fields: seq<Value>, end: nat, k: nat)
    requires Good(c) && WellTypedFields(c, kind, order, fields)
    requires |d| < TWO32 && end + 6 * k == |d| && forall i :: end <= i < |d| ==> d[i] == 0
    requires FieldsStand(d, 0, order, fields, end)
    ensures Decode(c, kind, d) ==
            if NeedFields(c, kind, order, fields) <= 10
            then Some(Struct(c.order(kind), c.finish(kind, NormFields(c, kind, fields)))) else None
  {
    hide Decode, FieldsStand, EncFields, WellTypedFields, Good, NeedFields, NormFields;
    FieldsHold(d, 0, order, fields, end);
    assert d == d[0..end] + Zeros(HEAD * k);
    DecodeOfEncoded(c, kind, order, fields, k);
  }
}
