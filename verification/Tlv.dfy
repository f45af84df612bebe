/**
 The tag-length-value format of framework/tlv: the values the C++ overloads write, the types the
 overloads read, and the bytes a value stands for.

 A head is a 2-byte tag and a 4-byte length. Overload resolution is explicit here: a Value says
 which Write overload applies, a Ty which ReadValue overload. Every tag enumeration of the paste
 data classes counts up from TAG_BUFF + 1, so a field is identified by its index in the enumeration.
 */
module Tlv {
  import opened Bytes
  import opened Assoc

  const HEAD: nat := 6
  const TAG_VECTOR_ITEM: nat := 0
  const TAG_MAP_KEY: nat := 1
  const TAG_MAP_VALUE: nat := 2
  const TAG_MAP_VALUE_TYPE: nat := 3
  const TAG_VARIANT_INDEX: nat := 4
  const TAG_VARIANT_VALUE: nat := 5
  const TAG_BUFF: nat := 0x100
  const MAX_DEPTH: nat := 10

  /** The classes that implement TLVWriteable and TLVReadable. */
  datatype Kind = KCustom | KEntry | KRecord | KProps | KPaste

  type Items = seq<Pair<Value>>

  datatype Value =
    | Mono                                          // std::monostate
    | Nullptr                                       // nullptr_t
    | Null                                          // an empty shared_ptr
    | Bool(b: bool)
    | I32(i: int32)
    | I64(l: int64)
    | U32(u: uint32)
    | F64(host: double)
    | Text(s: bytes)                                // std::string
    | Blob(s: bytes)                                // std::vector<uint8_t>
    | Raw(s: bytes)                                 // RawMem, empty for a null Parcelable
    | Shared(s: bytes)                              // a non-null shared Want or PixelMap
    | List(items: seq<Value>)                       // std::vector<T>
    | Dict(vtag: nat, pairs: Items)                 // the string maps, Details and Object
    | Variant(index: uint32, val: Value)
    | Struct(order: seq<nat>, fields: seq<Value>)   // fields in tag order, and the order they are written in

  datatype Ty =
    | TMono | TNullptr | TBool | TI32 | TI64 | TU32 | TF64 | TText | TBlob
    | TWant                     // shared_ptr<Want>, shared_ptr<Uri>, shared_ptr<PixelMap>
    | TParams                   // WantParams: an empty payload keeps the old value
    | TPtr(elem: Ty)            // any other shared_ptr
    | TVec(elem: Ty)
    | TBlobMap                  // std::map<std::string, std::vector<uint8_t>>
    | TDetails
    | TObject
    | TDetailValue              // the variant stored in Details
    | TEntryValue               // UDMF::ValueType
    | TStruct(kind: Kind)

  function EntryAlts(): (a: seq<Ty>)
    ensures |a| == 11
  {
    [TMono, TI32, TI64, TF64, TBool, TText, TBlob, TWant, TWant, TPtr(TObject), TNullptr]
  }

  function DetailAlts(): (a: seq<Ty>)
    ensures |a| == 6
  {
    [TI32, TI64, TBool, TF64, TText, TBlob]
  }

  function Alts(ty: Ty): seq<Ty>
    requires ty.TDetailValue? || ty.TEntryValue?
  {
    if ty.TEntryValue? then EntryAlts() else DetailAlts()
  }

  /** The type of the values of a map type, and the tag they are written under. */
  function MapValue(ty: Ty): Ty
    requires IsMap(ty)
  {
    match ty
    case TBlobMap => TBlob
    case TDetails => TDetailValue
    case TObject => TEntryValue
  }

  function MapTag(ty: Ty): nat
    requires IsMap(ty)
  {
    if ty.TBlobMap? then TAG_MAP_VALUE else TAG_MAP_VALUE_TYPE
  }

  predicate IsMap(ty: Ty) { ty.TBlobMap? || ty.TDetails? || ty.TObject? }

  predicate IsVariant(ty: Ty) { ty.TDetailValue? || ty.TEntryValue? }

  predicate IsScalar(ty: Ty) { ty.TBool? || ty.TI32? || ty.TI64? || ty.TU32? || ty.TF64? }

  /**
   What the framework gets from the virtual members of a class: the types of its fields in tag
   order, the order in which EncodeTLV writes them, the fields of a fresh object, and what
   DecodeTLV does after its loop.
   */
  datatype Classes = Classes(
    types: Kind -> seq<Ty>,
    order: Kind -> seq<nat>,
    initial: Kind -> seq<Value>,
    finish: (Kind, seq<Value>) -> seq<Value>)

  /** An order that names each of the n fields exactly once. */
  ghost predicate IsPermutation(order: seq<nat>, n: nat)
  {
    && |order| == n
    && (forall j :: 0 <= j < n ==> order[j] < n)
    && (forall j, k :: 0 <= j < k < n ==> order[j] != order[k])
    && (forall i :: 0 <= i < n ==> i in order)
  }

  function TagOf(i: nat): nat { TAG_BUFF + 1 + i }

  function AsText(v: Value): bytes { if v.Text? then v.s else [] }

  function AsItems(v: Value): seq<Value> { if v.List? then v.items else [] }

  function AsPairs(v: Value): Items { if v.Dict? then v.pairs else [] }

  function AsFields(v: Value): seq<Value> { if v.Struct? then v.fields else [] }

  // ----- the bytes of a value

  function Tlv1(tag: nat, p: bytes): (b: bytes)
    ensures |b| == HEAD + |p|
  {
    Le(tag, 2) + Le(|p|, 4) + p
  }

  /** A blank head is the head of an empty value with tag 0. */
  lemma BlankHead()
    ensures Tlv1(0, []) == Zeros(HEAD)
  {
    assert Le(0, 1) == [0] && Le(0, 2) == [0, 0] && Le(0, 3) == [0, 0, 0];
    assert Le(0, 4) == [0, 0, 0, 0];
  }

  /** monostate and nullptr_t leave their head zero. */
  function WireTag(tag: nat, v: Value): nat { if v.Mono? || v.Nullptr? then 0 else tag }

  /** head(tag, len) ++ payload; a null pointer has no bytes at all. */
  function Enc(tag: nat, v: Value): (b: bytes)
    decreases v, 1
  {
    if v.Null? then [] else Tlv1(WireTag(tag, v), Payload(v))
  }

  function Payload(v: Value): bytes
    decreases v, 0
  {
    match v
    case Mono => []
    case Nullptr => []
    case Null => []
    case Bool(b) => [if b then 1 else 0]
    case I32(i) => Le(ToUnsigned(i, TWO32), 4)
    case I64(l) => Le(ToUnsigned(l, TWO64), 8)
    case U32(u) => Le(u, 4)
    case F64(h) => Reversed(h)
    case Text(s) => s
    case Blob(s) => s
    case Raw(s) => s
    case Shared(s) => s
    case List(items) => EncItems(items)
    case Dict(vtag, pairs) => EncPairs(vtag, pairs)
    case Variant(index, x) => Tlv1(TAG_VARIANT_INDEX, Le(index, 4)) + Enc(TAG_VARIANT_VALUE, x)
    case Struct(order, fields) => EncFields(order, fields)
  }

  lemma VariantPayload(v: Value)
    requires v.Variant?
    ensures Payload(v) == Tlv1(TAG_VARIANT_INDEX, Le(v.index, 4)) + Enc(TAG_VARIANT_VALUE, v.val)
  {
  }

  function EncItems(items: seq<Value>): bytes
    decreases items
  {
    if items == [] then [] else Enc(TAG_VECTOR_ITEM, items[0]) + EncItems(items[1..])
  }

  function EncPairs(vtag: nat, pairs: Items): bytes
    decreases pairs
  {
    if pairs == [] then [] else EncPair(vtag, pairs[0]) + EncPairs(vtag, pairs[1..])
  }

  function EncPair(vtag: nat, p: Pair<Value>): bytes
    decreases p
  {
    Tlv1(TAG_MAP_KEY, p.key) + Enc(vtag, p.val)
  }

  function EncFields(order: seq<nat>, fields: seq<Value>): bytes
    decreases fields, |order|
  {
    if order == [] || order[0] >= |fields| then []
    else Enc(TagOf(order[0]), fields[order[0]]) + EncFields(order[1..], fields)
  }

  /** The number of non-null shared Want and PixelMap values written: each is counted 6 bytes too large. */
  function SharedIn(v: Value): nat
    decreases v, 0
  {
    match v
    case Shared(_) => 1
    case List(items) => SharedInItems(items)
    case Dict(_, pairs) => SharedInPairs(pairs)
    case Variant(_, x) => SharedIn(x)
    case Struct(order, fields) => SharedInFields(order, fields)
    case _ => 0
  }

  function SharedInItems(items: seq<Value>): nat
    decreases items
  {
    if items == [] then 0 else SharedIn(items[0]) + SharedInItems(items[1..])
  }

  function SharedInPairs(pairs: Items): nat
    decreases pairs
  {
    if pairs == [] then 0 else SharedIn(pairs[0].val) + SharedInPairs(pairs[1..])
  }

  function SharedInFields(order: seq<nat>, fields: seq<Value>): nat
    decreases fields, |order|
  {
    if order == [] || order[0] >= |fields| then 0
    else SharedIn(fields[order[0]]) + SharedInFields(order[1..], fields)
  }
}
