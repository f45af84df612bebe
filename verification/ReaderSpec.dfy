/**
 What the cursor-based reader of framework/tlv does to every byte string, as functions: the
 buffer, the limit total_, the cursor and the recursion depth go in; the decoded value and the new
 cursor come out, or nothing on failure. total_ and the depth are arguments, so they are the same
 again after every read.
 */
module ReaderSpec {
  import opened Bytes
  import opened Assoc
  import opened Tlv

  datatype Head = Head(tag: nat, len: nat)

  datatype Got = Got(v: Value, cur: nat)

  function HeadAt(d: bytes, cur: nat): Head
    requires cur + HEAD <= |d|
  {
    Head(UnLe(d[cur..cur + 2]), UnLe(d[cur + 2..cur + HEAD]))
  }

  // ----- values before anything is read

  function Default(c: Classes, ty: Ty): Value
  {
    match ty
    case TMono => Mono
    case TNullptr => Nullptr
    case TBool => Bool(false)
    case TI32 => I32(0)
    case TI64 => I64(0)
    case TU32 => U32(0)
    case TF64 => F64([0, 0, 0, 0, 0, 0, 0, 0])
    case TText => Text([])
    case TBlob => Blob([])
    case TWant => Null
    case TParams => Raw([])
    case TPtr(_) => Null
    case TVec(_) => List([])
    case TBlobMap => Dict(TAG_MAP_VALUE, [])
    case TDetails => Dict(TAG_MAP_VALUE_TYPE, [])
    case TObject => Dict(TAG_MAP_VALUE_TYPE, [])
    case TDetailValue => Variant(0, I32(0))
    case TEntryValue => Variant(0, Mono)
    case TStruct(kind) => Struct(c.order(kind), c.initial(kind))
  }

  // ----- leaves

  function Width(ty: Ty): nat
    requires IsScalar(ty)
  {
    match ty
    case TBool => 1
    case TI32 => 4
    case TI64 => 8
    case TU32 => 4
    case TF64 => 8
  }

  /** ReadBasicValue on the bytes of a scalar: a bool must be 0 or 1. */
  function Scalar(ty: Ty, b: bytes): Option<Value>
    requires IsScalar(ty)
  {
    if |b| != Width(ty) then None
    else match ty
      case TBool => if b[0] > 1 then None else Some(Bool(b[0] == 1))
      case TI32 => Fits(b); Some(I32(ToSigned(UnLe(b), TWO32)))
      case TI64 => Fits(b); Some(I64(ToSigned(UnLe(b), TWO64)))
      case TU32 => Fits(b); Some(U32(UnLe(b)))
      case TF64 => Some(F64(Reversed(b)))
  }

  lemma Fits(b: bytes)
    ensures |b| == 4 ==> UnLe(b) < TWO32
    ensures |b| == 8 ==> UnLe(b) < TWO64
  {
    LeOfUnLe(b);
    Widths();
  }

  predicate IsFlat(ty: Ty)
  {
    IsScalar(ty) || ty.TMono? || ty.TNullptr? || ty.TText? || ty.TBlob? || ty.TWant? || ty.TParams?
  }

  /** A value read from its payload alone. Strings append to what is there; empty parcels decode to nothing. */
  function ReadFlat(ty: Ty, was: Value, b: bytes): Option<Value>
    requires IsFlat(ty)
  {
    match ty
    case TMono => Some(Mono)
    case TNullptr => Some(Nullptr)
    case TText => Some(Text(AsText(was) + b))
    case TBlob => Some(Blob(b))
    case TWant => Some(if b == [] then Null else Shared(b))
    case TParams => Some(if b == [] then was else Raw(b))
    case _ => Scalar(ty, b)
  }

  /** monostate and nullptr_t read nothing, whatever the length says. */
  function FlatLength(ty: Ty, len: nat): nat { if ty.TMono? || ty.TNullptr? then 0 else len }

  // ----- the readers

  /** ReadValue for a value of type ty announced by a head with length len. */
  function Read(c: Classes, d: bytes, lim: nat, cur: nat, dep: nat, ty: Ty, was: Value, len: nat): (r: Option<Got>)
    requires cur <= lim <= |d|
    ensures r.Some? ==> cur <= r.value.cur <= lim
    decreases lim - cur, ty, 1
  {
    if IsFlat(ty) then
      var n := FlatLength(ty, len);
      if cur + n > lim then None
      else
        var v := ReadFlat(ty, was, d[cur..cur + n]);
        if v.None? then None else Some(Got(v.value, cur + n))
    else if IsMap(ty) then
      if cur + len > lim || (ty.TObject? && dep >= MAX_DEPTH) then None
      else ReadPairs(c, d, lim, cur, if ty.TObject? then dep + 1 else dep, ty, cur + len, AsPairs(was))
    else if IsVariant(ty) then ReadVariant(c, d, lim, cur, dep, ty, was)
    else if ty.TPtr? then
      if dep >= MAX_DEPTH then None else Read(c, d, lim, cur, dep + 1, ty.elem, Default(c, ty.elem), len)
    else if ty.TVec? then
      // the end is checked against the whole buffer, not against total_
      if cur + len >= TWO32 || cur + len > |d| || dep >= MAX_DEPTH then None
      else ReadItems(c, d, lim, cur, dep + 1, ty.elem, cur + len, AsItems(was))
    else if cur + len > lim then None
    else ReadFields(c, d, cur + len, cur, dep, ty.kind, AsFields(was))
  }

  lemma ReadOfFlat(c: Classes, d: bytes, lim: nat, cur: nat, dep: nat, ty: Ty, was: Value, len: nat)
    requires cur <= lim <= |d| && IsFlat(ty)
    ensures var n := FlatLength(ty, len);
            Read(c, d, lim, cur, dep, ty, was, len) ==
            if cur + n > lim then None
            else
              var v := ReadFlat(ty, was, d[cur..cur + n]);
              if v.None? then None else Some(Got(v.value, cur + n))
  {
    hide ReadFlat, FlatLength;
  }

  /** The vector loop: items until the cursor reaches the end. */
  function ReadItems(c: Classes, d: bytes, lim: nat, cur: nat, dep: nat, elem: Ty, end: nat,
                     acc: seq<Value>): (r: Option<Got>)
    requires cur <= lim <= |d|
    ensures r.Some? ==> cur <= r.value.cur <= lim && end <= r.value.cur && (cur < end ==> cur + HEAD <= r.value.cur)
    decreases lim - cur, elem, 2
  {
    if cur >= end then Some(Got(List(acc), cur))
    else if cur + HEAD > lim then None
    else
      var g := Read(c, d, lim, cur + HEAD, dep, elem, Default(c, elem), HeadAt(d, cur).len);
      if g.None? then None else ReadItems(c, d, lim, g.value.cur, dep, elem, end, acc + [g.value.v])
  }

  /** The map loop: key and value, emplaced; their tags are not looked at. */
  function ReadPairs(c: Classes, d: bytes, lim: nat, cur: nat, dep: nat, ty: Ty, end: nat, acc: Items): (r: Option<Got>)
    requires cur <= lim <= |d| && IsMap(ty)
    ensures r.Some? ==> cur <= r.value.cur <= lim && end <= r.value.cur && (cur < end ==> cur + 2 * HEAD <= r.value.cur)
    decreases lim - cur, ty, 0
  {
    if cur >= end then Some(Got(Dict(MapTag(ty), acc), cur))
    else
      var p := ReadPair(c, d, lim, cur, dep, ty);
      if p.None? then None else ReadPairs(c, d, lim, p.value.cur, dep, ty, end, Emplace(acc, p.value.key, p.value.v))
  }

  datatype GotPair = GotPair(key: bytes, v: Value, cur: nat)

  function ReadPair(c: Classes, d: bytes, lim: nat, cur: nat, dep: nat, ty: Ty): (r: Option<GotPair>)
    requires cur <= lim <= |d| && IsMap(ty)
    ensures r.Some? ==> cur + 2 * HEAD <= r.value.cur <= lim
    decreases lim - cur, ty, 0, 0
  {
    if cur + HEAD > lim then None
    else
      var k := HeadAt(d, cur).len;
      var at := cur + HEAD + k;
      if at + HEAD > lim then None
      else
        var g := Read(c, d, lim, at + HEAD, dep, MapValue(ty), Default(c, MapValue(ty)), HeadAt(d, at).len);
        if g.None? then None else Some(GotPair(d[cur + HEAD..at], g.value.v, g.value.cur))
  }

  /** A variant: the index, then the alternative; an index out of range reads nothing more. */
  function ReadVariant(c: Classes, d: bytes, lim: nat, cur: nat, dep: nat, ty: Ty, was: Value): (r: Option<Got>)
    requires cur <= lim <= |d| && IsVariant(ty)
    ensures r.Some? ==> cur <= r.value.cur <= lim
    decreases lim - cur, ty, 0
  {
    if cur + HEAD > lim || HeadAt(d, cur).len != 4 || cur + HEAD + 4 > lim then None
    else
      var at := cur + HEAD + 4;
      var index := UnLe(d[cur + HEAD..at]);
      if index >= |Alts(ty)| then Some(Got(was, at))
      else if at + HEAD > lim then None
      else
        var alt := Alts(ty)[index];
        var g := Read(c, d, lim, at + HEAD, dep, alt, Default(c, alt), HeadAt(d, at).len);
        if g.None? then None else Some(Got(Variant(index, g.value.v), g.value.cur))
  }

  datatype Step = Step(fields: seq<Value>, cur: nat)

  /** DecodeTLV: fields until the limit, so on success the cursor is exactly at the limit. */
  function ReadFields(c: Classes, d: bytes, lim: nat, cur: nat, dep: nat, kind: Kind,
                      fields: seq<Value>): (r: Option<Got>)
    requires cur <= lim <= |d|
    ensures r.Some? ==> r.value.cur == lim
    decreases lim - cur, TStruct(kind), 0
  {
    if cur >= lim then Some(Got(Struct(c.order(kind), c.finish(kind, fields)), cur))
    else
      var s := ReadField(c, d, lim, cur, dep, kind, fields);
      if s.None? then None else ReadFields(c, d, lim, s.value.cur, dep, kind, s.value.fields)
  }

  /** One field: dispatch on the tag, skip what the kind does not know. */
  function ReadField(c: Classes, d: bytes, lim: nat, cur: nat, dep: nat, kind: Kind,
                     fields: seq<Value>): (r: Option<Step>)
    requires cur <= lim <= |d|
    ensures r.Some? ==> cur + HEAD <= r.value.cur <= lim && |r.value.fields| == |fields|
    decreases lim - cur, TStruct(kind), 0, 0
  {
    if cur + HEAD > lim then None
    else
      var head := HeadAt(d, cur);
      var i := head.tag - TagOf(0);
      if i < 0 || i >= |c.types(kind)| || i >= |fields| then
        if head.len > lim - (cur + HEAD) then None else Some(Step(fields, cur + HEAD + head.len))
      else
        var g := Read(c, d, lim, cur + HEAD, dep, c.types(kind)[i], fields[i], head.len);
        if g.None? then None else Some(Step(fields[i := g.value.v], g.value.cur))
  }

  // ----- one turn of each loop

  lemma ItemsTurn(c: Classes, d: bytes, lim: nat, cur: nat, dep: nat, elem: Ty, end: nat, acc: seq<Value>)
    requires cur <= lim <= |d|
    ensures ReadItems(c, d, lim, cur, dep, elem, end, acc) ==
            if cur >= end then Some(Got(List(acc), cur))
            else if cur + HEAD > lim then None
            else
              var g := Read(c, d, lim, cur + HEAD, dep, elem, Default(c, elem), HeadAt(d, cur).len);
              if g.None? then None else ReadItems(c, d, lim, g.value.cur, dep, elem, end, acc + [g.value.v])
  {
    hide Read, HeadAt, Default;
  }

  lemma PairsTurn(c: Classes, d: bytes, lim: nat, cur: nat, dep: nat, ty: Ty, end: nat, acc: Items)
    requires cur <= lim <= |d| && IsMap(ty)
    ensures ReadPairs(c, d, lim, cur, dep, ty, end, acc) ==
            if cur >= end then Some(Got(Dict(MapTag(ty), acc), cur))
            else
              var p := ReadPair(c, d, lim, cur, dep, ty);
              if p.None? then None
              else ReadPairs(c, d, lim, p.value.cur, dep, ty, end, Emplace(acc, p.value.key, p.value.v))
  {
    hide ReadPair, Emplace;
  }

  lemma FieldsTurn(c: Classes, d: bytes, lim: nat, cur: nat, dep: nat, kind: Kind, fields: seq<Value>)
    requires cur <= lim <= |d|
    ensures ReadFields(c, d, lim, cur, dep, kind, fields) ==
            if cur >= lim then Some(Got(Struct(c.order(kind), c.finish(kind, fields)), cur))
            else
              var s := ReadField(c, d, lim, cur, dep, kind, fields);
              if s.None? then None else ReadFields(c, d, lim, s.value.cur, dep, kind, s.value.fields)
  {
    hide ReadField;
  }

  /** An Object behind a pointer takes two guards. */
  lemma ObjectTurn(c: Classes, d: bytes, lim: nat, cur: nat, dep: nat, was: Value, len: nat)
    requires cur <= lim <= |d|
    ensures Read(c, d, lim, cur, dep, TPtr(TObject), was, len) ==
            if dep + 2 > MAX_DEPTH || cur + len > lim then None
            else ReadPairs(c, d, lim, cur, dep + 2, TObject, cur + len, [])
  {
    hide ReadPairs;
    assert dep < MAX_DEPTH ==>
        Read(c, d, lim, cur, dep, TPtr(TObject), was, len) ==
          Read(c, d, lim, cur, dep + 1, TObject, Default(c, TObject), len);
  }

  /** TLVReadable::Decode into a fresh object of the class. */
  function Decode(c: Classes, kind: Kind, d: bytes): Option<Value>
  {
    var r := ReadFields(c, d, |d|, 0, 0, kind, c.initial(kind));
    if r.None? then None else Some(r.value.v)
  }
}
