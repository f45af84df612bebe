/**
 Reading back what the writer wrote. For every well-typed value the reader either returns its
 normal form and stands right behind the payload, or fails; it fails exactly when the value needs
 more recursion guards than are left.
 */
module RoundTrip {
  import opened Bytes
  import opened Assoc
  import opened Tlv
  import opened ReaderSpec

  /** The values the overloads for ty can write. No alternative of a variant is a null pointer. */
  ghost predicate WellTyped(c: Classes, ty: Ty, v: Value)
    decreases v, ty
  {
    match ty
    case TMono => v.Mono?
    case TNullptr => v.Nullptr?
    case TBool => v.Bool?
    case TI32 => v.I32?
    case TI64 => v.I64?
    case TU32 => v.U32?
    case TF64 => v.F64?
    case TText => v.Text?
    case TBlob => v.Blob?
    case TWant => v.Null? || v.Raw? || (v.Shared? && v.s != [])
    case TParams => v.Raw? && v.s != []
    case TPtr(elem) => v.Null? || WellTyped(c, elem, v)
    case TVec(elem) => v.List? && forall i :: 0 <= i < |v.items| ==> WellTyped(c, elem, v.items[i])
    case TStruct(kind) => v.Struct? && WellTypedFields(c, kind, v.order, v.fields)
    case TDetailValue => WellTypedVariant(c, ty, v)
    case TEntryValue => WellTypedVariant(c, ty, v)
    case _ =>
      && v.Dict? && v.vtag == MapTag(ty) && Sorted(v.pairs)
      && forall i :: 0 <= i < |v.pairs| ==> WellTyped(c, MapValue(ty), v.pairs[i].val)
  }

  ghost predicate WellTypedFields(c: Classes, kind: Kind, order: seq<nat>, fields: seq<Value>)
    decreases fields
  {
    && |fields| == |c.types(kind)| && IsPermutation(order, |fields|)
    && forall i :: 0 <= i < |fields| ==>
         WellTyped(c, c.types(kind)[i], fields[i]) && !fields[i].Mono? && !fields[i].Nullptr?
  }

  ghost predicate WellTypedVariant(c: Classes, ty: Ty, v: Value)
    requires IsVariant(ty)
    decreases v, ty, 0
  {
    v.Variant? && v.index < |Alts(ty)| && !v.val.Null? && !v.val.Raw? && WellTyped(c, Alts(ty)[v.index], v.val)
  }

  /** What is left of a value after writing and reading: null items are gone, raw memory is a pointer. */
  function Norm(c: Classes, ty: Ty, v: Value): Value
    decreases v, ty, 1
  {
    if ty.TWant? && v.Raw? then (if v.s == [] then Null else Shared(v.s))
    else if ty.TPtr? && !v.Null? then Norm(c, ty.elem, v)
    else if ty.TVec? && v.List? then List(NormItems(c, ty.elem, v.items))
    else if IsMap(ty) && v.Dict? then Dict(v.vtag, NormPairs(c, MapValue(ty), v.pairs))
    else if IsVariant(ty) && v.Variant? && v.index < |Alts(ty)| then Variant(v.index, Norm(c, Alts(ty)[v.index], v.val))
    else if ty.TStruct? && v.Struct? then Struct(c.order(ty.kind), c.finish(ty.kind, NormFields(c, ty.kind, v.fields)))
    else v
  }

  function NormItems(c: Classes, elem: Ty, items: seq<Value>): seq<Value>
    decreases items
  {
    if items == [] then []
    else (if items[0].Null? then [] else [Norm(c, elem, items[0])]) + NormItems(c, elem, items[1..])
  }

  function NormPairs(c: Classes, ty: Ty, pairs: Items): Items
    decreases pairs
  {
    if pairs == [] then [] else [Pair(pairs[0].key, Norm(c, ty, pairs[0].val))] + NormPairs(c, ty, pairs[1..])
  }

  function NormFields(c: Classes, kind: Kind, fields: seq<Value>): (f: seq<Value>)
    ensures |f| == |fields|
    decreases fields, TStruct(kind), 0
  {
    seq(|fields|, i requires 0 <= i < |fields| =>
      if i < |c.types(kind)| then Norm(c, c.types(kind)[i], fields[i]) else fields[i])
  }

  function Max(a: nat, b: nat): nat { if a < b then b else a }

  /** How many recursion guards reading the value takes at once. */
  function Need(c: Classes, ty: Ty, v: Value): nat
    decreases v, ty, 1
  {
    if ty.TPtr? && !v.Null? then 1 + Need(c, ty.elem, v)
    else if ty.TVec? && v.List? then 1 + NeedItems(c, ty.elem, v.items)
    else if IsMap(ty) && v.Dict? then (if ty.TObject? then 1 else 0) + NeedPairs(c, MapValue(ty), v.pairs)
    else if IsVariant(ty) && v.Variant? && v.index < |Alts(ty)| then Need(c, Alts(ty)[v.index], v.val)
    else if ty.TStruct? && v.Struct? then NeedFields(c, ty.kind, v.order, v.fields)
    else 0
  }

  function NeedItems(c: Classes, elem: Ty, items: seq<Value>): nat
    decreases items
  {
    if items == [] then 0 else Max(Need(c, elem, items[0]), NeedItems(c, elem, items[1..]))
  }

  function NeedPairs(c: Classes, ty: Ty, pairs: Items): nat
    decreases pairs
  {
    if pairs == [] then 0 else Max(Need(c, ty, pairs[0].val), NeedPairs(c, ty, pairs[1..]))
  }

  function NeedFields(c: Classes, kind: Kind, order: seq<nat>, fields: seq<Value>): nat
    decreases fields, |order|
  {
    if order == [] || order[0] >= |fields| || order[0] >= |c.types(kind)| then 0
    else Max(Need(c, c.types(kind)[order[0]], fields[order[0]]), NeedFields(c, kind, order[1..], fields))
  }

  // ----- one level of each shape

  lemma PtrStep(c: Classes, elem: Ty, v: Value)
    ensures WellTyped(c, TPtr(elem), v) <==> v.Null? || WellTyped(c, elem, v)
    ensures Norm(c, TPtr(elem), v) == if v.Null? then Null else Norm(c, elem, v)
    ensures Need(c, TPtr(elem), v) == if v.Null? then 0 else 1 + Need(c, elem, v)
  {
    hide WellTyped, Norm, Need;
    PtrTyped(c, elem, v);
    PtrNorm(c, elem, v);
    PtrNeed(c, elem, v);
  }

  lemma PtrTyped(c: Classes, elem: Ty, v: Value)
    ensures WellTyped(c, TPtr(elem), v) <==> v.Null? || WellTyped(c, elem, v)
  {
  }

  lemma PtrNorm(c: Classes, elem: Ty, v: Value)
    ensures Norm(c, TPtr(elem), v) == if v.Null? then Null else Norm(c, elem, v)
  {
  }

  lemma PtrNeed(c: Classes, elem: Ty, v: Value)
    ensures Need(c, TPtr(elem), v) == if v.Null? then 0 else 1 + Need(c, elem, v)
  {
  }

  lemma VecStep(c: Classes, elem: Ty, items: seq<Value>)
    ensures WellTyped(c, TVec(elem), List(items)) <==> forall i :: 0 <= i < |items| ==> WellTyped(c, elem, items[i])
    ensures Norm(c, TVec(elem), List(items)) == List(NormItems(c, elem, items))
    ensures Need(c, TVec(elem), List(items)) == 1 + NeedItems(c, elem, items)
  {
  }

  lemma MapStep(c: Classes, ty: Ty, v: Value)
    requires IsMap(ty) && WellTyped(c, ty, v)
    ensures v.Dict? && forall i :: 0 <= i < |v.pairs| ==> WellTyped(c, MapValue(ty), v.pairs[i].val)
    ensures Need(c, ty, v) == (if ty.TObject? then 1 else 0) + NeedPairs(c, MapValue(ty), v.pairs)
  {
  }

  lemma VariantStep(c: Classes, ty: Ty, v: Value)
    requires IsVariant(ty) && WellTyped(c, ty, v)
    ensures v.Variant? && v.index < |Alts(ty)| && !v.val.Null? && !v.val.Raw? && WellTyped(c, Alts(ty)[v.index], v.val)
    ensures Need(c, ty, v) == Need(c, Alts(ty)[v.index], v.val)
    ensures Norm(c, ty, v) == Variant(v.index, Norm(c, Alts(ty)[v.index], v.val))
  {
  }

  lemma StructStep(c: Classes, kind: Kind, order: seq<nat>, fields: seq<Value>)
    ensures var v := Struct(order, fields);
            && (WellTyped(c, TStruct(kind), v) <==> WellTypedFields(c, kind, order, fields))
            && Norm(c, TStruct(kind), v) == Struct(c.order(kind), c.finish(kind, NormFields(c, kind, fields)))
            && Need(c, TStruct(kind), v) == NeedFields(c, kind, order, fields)
  {
    hide WellTypedFields, WellTypedVariant, NormItems, NormPairs, NormFields, NeedItems, NeedPairs, NeedFields;
  }

  lemma TextStep(c: Classes, s: bytes)
    ensures WellTyped(c, TText, Text(s)) && Norm(c, TText, Text(s)) == Text(s) && Need(c, TText, Text(s)) == 0
  {
  }

  // ----- leaves

  lemma HeadBack(d: bytes, cur: nat, tag: nat, p: bytes)
    requires At(d, cur, Tlv1(tag, p)) && tag < 0x1_0000 && |p| < TWO32
    ensures HeadAt(d, cur) == Head(tag, |p|)
    ensures At(d, cur + HEAD, p)
  {
    AtSplit(d, cur, Le(tag, 2) + Le(|p|, 4), p);
    AtSplit(d, cur, Le(tag, 2), Le(|p|, 4));
    Widths();
    UnLeOfLe(tag, 2);
    UnLeOfLe(|p|, 4);
  }

  lemma FlatBack(c: Classes, ty: Ty, was: Value, v: Value)
    requires IsFlat(ty) && WellTyped(c, ty, v) && !v.Null? && Fresh(c, ty, was)
    ensures ReadFlat(ty, was, Payload(v)) == Some(Norm(c, ty, v))
    ensures FlatLength(ty, |Payload(v)|) == |Payload(v)|
    ensures Need(c, ty, v) == 0
  {
    FlatIsSimple(c, ty, v);
    hide Norm, Need, EncItems, EncPairs, EncFields, Scalar, Le, Reversed, WellTypedFields, WellTypedVariant;
    if IsScalar(ty) {
      ScalarBack(c, ty, v);
    } else if ty.TText? {
      assert AsText(was) + v.s == v.s;
    }
  }

  lemma FlatIsSimple(c: Classes, ty: Ty, v: Value)
    requires IsFlat(ty)
    ensures Norm(c, ty, v) == if ty.TWant? && v.Raw? then (if v.s == [] then Null else Shared(v.s)) else v
    ensures Need(c, ty, v) == 0
  {
  }

  lemma ScalarBack(c: Classes, ty: Ty, v: Value)
    requires IsScalar(ty) && WellTyped(c, ty, v)
    ensures Scalar(ty, Payload(v)) == Some(v)
  {
    Widths();
    match v
    case I32(i) => UnLeOfLe(ToUnsigned(i, TWO32), 4);
    case I64(l) => UnLeOfLe(ToUnsigned(l, TWO64), 8);
    case U32(u) => UnLeOfLe(u, 4);
    case F64(h) => assert Reversed(Reversed(h)) == h;
    case Bool(b) =>
  }

  /** The destination of a read holds nothing that reading would append to. */
  ghost predicate Fresh(c: Classes, ty: Ty, was: Value)
  {
    match ty
    case TText => was == Text([])
    case TWant => was == Null
    case TPtr(_) => was == Null
    case TVec(_) => was == List([])
    case TBlobMap => was.Dict? && was.pairs == []
    case TDetails => was.Dict? && was.pairs == []
    case TObject => was.Dict? && was.pairs == []
    case TStruct(kind) => was == Default(c, ty)
    case _ => true
  }

  lemma DefaultIsFresh(c: Classes, ty: Ty)
    ensures Fresh(c, ty, Default(c, ty))
  {
  }

  /** Fresh objects have one field per type, each empty, and the tags fit in 16 bits. */
  ghost predicate Good(c: Classes)
  {
    forall kind: Kind ::
      && |c.initial(kind)| == |c.types(kind)| < 0xFE00
      && forall i :: 0 <= i < |c.types(kind)| ==> Fresh(c, c.types(kind)[i], c.initial(kind)[i])
  }

  // ----- reading back a payload

  ghost predicate InBuffer(d: bytes, lim: nat, cur: nat, p: bytes)
  {
    cur + |p| <= lim <= |d| < TWO32 && At(d, cur, p)
  }

  lemma InBufferSplit(d: bytes, lim: nat, cur: nat, a: bytes, b: bytes)
    requires InBuffer(d, lim, cur, a + b)
    ensures InBuffer(d, lim, cur, a) && InBuffer(d, lim, cur + |a|, b)
  {
    AtSplit(d, cur, a, b);
  }

  /** A written value in the buffer: its head, and its payload behind it. */
  lemma EncBack(d: bytes, lim: nat, cur: nat, tag: nat, v: Value)
    requires InBuffer(d, lim, cur, Enc(tag, v)) && !v.Null? && tag < 0x1_0000
    ensures cur + HEAD <= lim && HeadAt(d, cur) == Head(WireTag(tag, v), |Payload(v)|)
    ensures InBuffer(d, lim, cur + HEAD, Payload(v))
    ensures |Enc(tag, v)| == HEAD + |Payload(v)| && cur + |Enc(tag, v)| <= lim <= |d|
  {
    HeadBack(d, cur, WireTag(tag, v), Payload(v));
  }

  lemma Bounds(d: bytes, lim: nat, cur: nat, p: bytes)
    requires InBuffer(d, lim, cur, p)
    ensures cur + |p| <= lim <= |d| < TWO32
  {
  }

  lemma EncLength(tag: nat, v: Value)
    requires !v.Null?
    ensures |Enc(tag, v)| == HEAD + |Payload(v)|
  {
  }

  lemma NullHasNoBytes(c: Classes, ty: Ty, tag: nat)
    ensures Enc(tag, Null) == [] && Need(c, ty, Null) == 0
  {
  }

  function Outcome(ok: bool, v: Value, cur: nat): Option<Got> { if ok then Some(Got(v, cur)) else None }

  ghost predicate IsReadBack(c: Classes, d: bytes, lim: nat, cur: nat, dep: nat, ty: Ty, was: Value, v: Value)
    requires cur <= lim <= |d|
  {
    Read(c, d, lim, cur, dep, ty, was, |Payload(v)|) ==
    Outcome(dep + Need(c, ty, v) <= MAX_DEPTH, Norm(c, ty, v), cur + |Payload(v)|)
  }

  /**
   Reading a payload: the normal form and the cursor right behind it, or a failure exactly when the
   value needs more recursion guards than are left.
   */
  lemma {:induction false} ReadBack(c: Classes, d: bytes, lim: nat, cur: nat, dep: nat, ty: Ty, was: Value, v: Value)
    requires Good(c) && WellTyped(c, ty, v) && !v.Null? && Fresh(c, ty, was) && dep <= MAX_DEPTH
    requires InBuffer(d, lim, cur, Payload(v))
    ensures cur + |Payload(v)| <= lim <= |d| && IsReadBack(c, d, lim, cur, dep, ty, was, v)
    decreases v, ty, 1
  {
    hide Read, Payload, At, Good, Norm, Need, WellTypedVariant, WellTypedFields, Fresh;
    if IsFlat(ty) {
      ReadFlatBack(c, d, lim, cur, dep, ty, was, v);
    } else if IsMap(ty) {
      ReadMapBack(c, d, lim, cur, dep, ty, was, v);
    } else if IsVariant(ty) {
      ReadVariantBack(c, d, lim, cur, dep, ty, was, v);
      VariantReadBack(c, d, lim, cur, dep, ty, was, v);
    } else if ty.TPtr? {
      if dep < MAX_DEPTH {
        DefaultIsFresh(c, ty.elem);
        ReadBack(c, d, lim, cur, dep + 1, ty.elem, Default(c, ty.elem), v);
      }
      PointerReadBack(c, d, lim, cur, dep, ty, was, v);
    } else if ty.TVec? {
      ReadVectorBack(c, d, lim, cur, dep, ty, was, v);
    } else {
      ReadStructBack(c, d, lim, cur, dep, ty.kind, v);
      StructReadBack(c, d, lim, cur, dep, ty, was, v);
    }
  }

  lemma ReadFlatBack(c: Classes, d: bytes, lim: nat, cur: nat, dep: nat, ty: Ty, was: Value, v: Value)
    requires IsFlat(ty) && WellTyped(c, ty, v) && !v.Null? && Fresh(c, ty, was) && dep <= MAX_DEPTH
    requires InBuffer(d, lim, cur, Payload(v))
    ensures IsReadBack(c, d, lim, cur, dep, ty, was, v)
  {
    hide Payload, WellTyped, Fresh, ReadFlat, Norm, Need, FlatLength;
    FlatBack(c, ty, was, v);
    assert d[cur..cur + FlatLength(ty, |Payload(v)|)] == Payload(v);
  }

  lemma {:induction false} ReadMapBack(c: Classes, d: bytes, lim: nat, cur: nat, dep: nat, ty: Ty, was: Value, v: Value)
    requires Good(c) && IsMap(ty) && WellTyped(c, ty, v) && Fresh(c, ty, was) && dep <= MAX_DEPTH
    requires InBuffer(d, lim, cur, Payload(v))
    ensures IsReadBack(c, d, lim, cur, dep, ty, was, v)
    decreases v, ty, 0
  {
    hide ReadPairs, At, Good, NormPairs, NeedPairs, EncPairs, MapValue, MapTag;
    if !(ty.TObject? && dep >= MAX_DEPTH) {
      ReadPairsBack(c, d, lim, cur, if ty.TObject? then dep + 1 else dep, ty, cur + |Payload(v)|, [], v.pairs);
      Regroup([], [], NormPairs(c, MapValue(ty), v.pairs));
    }
  }

  lemma {:induction false} ReadVectorBack(c: Classes, d: bytes, lim: nat, cur: nat, dep: nat, ty: Ty, was: Value,
                                          v: Value)
    requires Good(c) && ty.TVec? && WellTyped(c, ty, v) && Fresh(c, ty, was) && dep <= MAX_DEPTH
    requires InBuffer(d, lim, cur, Payload(v))
    ensures IsReadBack(c, d, lim, cur, dep, ty, was, v)
    decreases v, ty, 0
  {
    hide ReadItems, At, Good, NormItems, NeedItems, EncItems;
    if dep < MAX_DEPTH {
      ReadItemsBack(c, d, lim, cur, dep + 1, ty.elem, cur + |Payload(v)|, [], v.items);
      Regroup([], [], NormItems(c, ty.elem, v.items));
    }
  }

  lemma VariantReadBack(c: Classes, d: bytes, lim: nat, cur: nat, dep: nat, ty: Ty, was: Value, v: Value)
    requires IsVariant(ty) && WellTypedVariant(c, ty, v) && cur + |Payload(v)| <= lim <= |d|
    requires ReadVariant(c, d, lim, cur, dep, ty, was) ==
             if dep + Need(c, Alts(ty)[v.index], v.val) <= MAX_DEPTH
             then Some(Got(Variant(v.index, Norm(c, Alts(ty)[v.index], v.val)), cur + |Payload(v)|)) else None
    ensures IsReadBack(c, d, lim, cur, dep, ty, was, v)
  {
    hide ReadVariant, Payload, WellTyped, Alts;
  }

  lemma PointerReadBack(c: Classes, d: bytes, lim: nat, cur: nat, dep: nat, ty: Ty, was: Value, v: Value)
    requires ty.TPtr? && !v.Null? && cur + |Payload(v)| <= lim <= |d|
    requires dep < MAX_DEPTH ==> IsReadBack(c, d, lim, cur, dep + 1, ty.elem, Default(c, ty.elem), v)
    ensures IsReadBack(c, d, lim, cur, dep, ty, was, v)
  {
    hide Payload, Default;
  }

  lemma StructReadBack(c: Classes, d: bytes, lim: nat, cur: nat, dep: nat, ty: Ty, was: Value, v: Value)
    requires ty.TStruct? && v.Struct? && Fresh(c, ty, was) && cur + |Payload(v)| <= lim <= |d|
    requires ReadFields(c, d, cur + |Payload(v)|, cur, dep, ty.kind, c.initial(ty.kind)) ==
             Outcome(dep + NeedFields(c, ty.kind, v.order, v.fields) <= MAX_DEPTH,
                     Struct(c.order(ty.kind), c.finish(ty.kind, NormFields(c, ty.kind, v.fields))), cur + |Payload(v)|)
    ensures IsReadBack(c, d, lim, cur, dep, ty, was, v)
  {
    hide ReadFields, Payload, NormFields, NeedFields;
  }

  /** One turn of the vector loop. */
  lemma {:induction false} ReadItemBack(c: Classes, d: bytes, lim: nat, cur: nat, dep: nat, elem: Ty, end: nat,
                                        acc: seq<Value>, v: Value)
    requires Good(c) && dep <= MAX_DEPTH && WellTyped(c, elem, v) && !v.Null? && cur < end
    requires InBuffer(d, lim, cur, Enc(TAG_VECTOR_ITEM, v))
    ensures cur + |Enc(TAG_VECTOR_ITEM, v)| <= lim <= |d|
    ensures ReadItems(c, d, lim, cur, dep, elem, end, acc) ==
            if dep + Need(c, elem, v) <= MAX_DEPTH
            then ReadItems(c, d, lim, cur + |Enc(TAG_VECTOR_ITEM, v)|, dep, elem, end, acc + [Norm(c, elem, v)])
            else None
    decreases v, elem, 2
  {
    hide Read, InBuffer, Tlv1, HeadAt, Enc, Payload, Good, Fresh, WellTyped, Norm, Need, Default;
    EncBack(d, lim, cur, TAG_VECTOR_ITEM, v);
    DefaultIsFresh(c, elem);
    ReadBack(c, d, lim, cur + HEAD, dep, elem, Default(c, elem), v);
  }

  lemma NoItemsLeft(c: Classes, d: bytes, lim: nat, cur: nat, dep: nat, elem: Ty, end: nat, acc: seq<Value>)
    requires end <= cur <= lim <= |d|
    ensures ReadItems(c, d, lim, cur, dep, elem, end, acc) == Some(Got(List(acc), cur))
  {
  }

  lemma ItemsUnfold(c: Classes, elem: Ty, items: seq<Value>)
    ensures items == [] ==> EncItems(items) == [] && NormItems(c, elem, items) == [] && NeedItems(c, elem, items) == 0
    ensures items != [] ==>
              var v, rest := items[0], items[1..];
              && EncItems(items) == Enc(TAG_VECTOR_ITEM, v) + EncItems(rest)
              && NormItems(c, elem, items) == (if v.Null? then [] else [Norm(c, elem, v)]) + NormItems(c, elem, rest)
              && NeedItems(c, elem, items) == Max(Need(c, elem, v), NeedItems(c, elem, rest))
  {
    hide Enc, Norm, Need;
  }

  lemma ItemsCases(c: Classes, elem: Ty, items: seq<Value>)
    requires items != []
    ensures var v, rest := items[0], items[1..];
            if v.Null? then
              && EncItems(items) == EncItems(rest) && NormItems(c, elem, items) == NormItems(c, elem, rest)
              && NeedItems(c, elem, items) == NeedItems(c, elem, rest)
            else
              && EncItems(items) == Enc(TAG_VECTOR_ITEM, v) + EncItems(rest)
              && NormItems(c, elem, items) == [Norm(c, elem, v)] + NormItems(c, elem, rest)
              && NeedItems(c, elem, items) == Max(Need(c, elem, v), NeedItems(c, elem, rest))
  {
    hide EncItems, NormItems, NeedItems, Norm, Need;
    ItemsUnfold(c, elem, items);
    if items[0].Null? {
      NullHasNoBytes(c, elem, TAG_VECTOR_ITEM);
      Regroup([], [], EncItems(items[1..]));
      Regroup([], [], NormItems(c, elem, items[1..]));
    }
  }

  lemma {:induction false} ReadItemsBack(c: Classes, d: bytes, lim: nat, cur: nat, dep: nat, elem: Ty, end: nat,
                                         acc: seq<Value>, items: seq<Value>)
    requires Good(c) && dep <= MAX_DEPTH && forall i :: 0 <= i < |items| ==> WellTyped(c, elem, items[i])
    requires InBuffer(d, lim, cur, EncItems(items)) && end == cur + |EncItems(items)|
    ensures ReadItems(c, d, lim, cur, dep, elem, end, acc) ==
            Outcome(dep + NeedItems(c, elem, items) <= MAX_DEPTH, List(acc + NormItems(c, elem, items)), end)
    decreases items
  {
    hide ReadItems, Read, InBuffer, Tlv1, HeadAt, Enc, Payload, Good, Fresh, WellTyped, Norm, Need, Default;
    hide EncItems, NormItems, NeedItems;
    Bounds(d, lim, cur, EncItems(items));
    if items == [] {
      ItemsUnfold(c, elem, items);
      Regroup(acc, [], []);
      NoItemsLeft(c, d, lim, cur, dep, elem, end, acc);
    } else {
      var v, rest := items[0], items[1..];
      var next := Enc(TAG_VECTOR_ITEM, v);
      ItemsCases(c, elem, items);
      if v.Null? {
        ReadItemsBack(c, d, lim, cur, dep, elem, end, acc, rest);
      } else {
        InBufferSplit(d, lim, cur, next, EncItems(rest));
        Regroup(acc, [Norm(c, elem, v)], NormItems(c, elem, rest));
        EncLength(TAG_VECTOR_ITEM, v);
        ReadItemBack(c, d, lim, cur, dep, elem, end, acc, v);
        ReadItemsBack(c, d, lim, cur + |next|, dep, elem, end, acc + [Norm(c, elem, v)], rest);
      }
    }
  }

  lemma NoPairsLeft(c: Classes, d: bytes, lim: nat, cur: nat, dep: nat, ty: Ty, end: nat, acc: Items)
    requires end <= cur <= lim <= |d| && IsMap(ty)
    ensures ReadPairs(c, d, lim, cur, dep, ty, end, acc) == Some(Got(Dict(MapTag(ty), acc), cur))
  {
  }

  /** One turn of the map loop: a key larger than all before it is appended. */
  lemma {:induction false} ReadPairsStep(c: Classes, d: bytes, lim: nat, cur: nat, dep: nat, ty: Ty, end: nat,
                                         acc: Items, p: Pair<Value>)
    requires Good(c) && IsMap(ty) && dep <= MAX_DEPTH && WellTyped(c, MapValue(ty), p.val) && cur < end
    requires forall i :: 0 <= i < |acc| ==> Less(acc[i].key, p.key)
    requires InBuffer(d, lim, cur, EncPair(MapTag(ty), p))
    ensures cur + |EncPair(MapTag(ty), p)| <= lim <= |d|
    ensures ReadPairs(c, d, lim, cur, dep, ty, end, acc) ==
            if dep + Need(c, MapValue(ty), p.val) <= MAX_DEPTH
            then ReadPairs(c, d, lim, cur + |EncPair(MapTag(ty), p)|, dep, ty, end,
                           acc + [Pair(p.key, Norm(c, MapValue(ty), p.val))])
            else None
    decreases p, 1
  {
    hide ReadPair, At, EncPair, Good, Fresh, WellTyped, Norm, Need, Default, Less, Emplace;
    ReadPairBack(c, d, lim, cur, dep, ty, p);
    EmplaceLast(acc, p.key, Norm(c, MapValue(ty), p.val));
  }

  lemma {:induction false} ReadPairsBack(c: Classes, d: bytes, lim: nat, cur: nat, dep: nat, ty: Ty, end: nat,
                                         acc: Items, pairs: Items)
    requires Good(c) && IsMap(ty) && dep <= MAX_DEPTH && Sorted(pairs)
    requires forall i :: 0 <= i < |pairs| ==> WellTyped(c, MapValue(ty), pairs[i].val)
    requires forall i, j :: 0 <= i < |acc| && 0 <= j < |pairs| ==> Less(acc[i].key, pairs[j].key)
    requires InBuffer(d, lim, cur, EncPairs(MapTag(ty), pairs)) && end == cur + |EncPairs(MapTag(ty), pairs)|
    ensures ReadPairs(c, d, lim, cur, dep, ty, end, acc) ==
            Outcome(dep + NeedPairs(c, MapValue(ty), pairs) <= MAX_DEPTH,
                    Dict(MapTag(ty), acc + NormPairs(c, MapValue(ty), pairs)), end)
    decreases pairs
  {
    hide ReadPairs, InBuffer, EncPair, Good, Fresh, WellTyped, Norm, Need, Less, MapTag, MapValue;
    Bounds(d, lim, cur, EncPairs(MapTag(ty), pairs));
    if pairs == [] {
      Regroup(acc, [], []);
      NoPairsLeft(c, d, lim, cur, dep, ty, end, acc);
    } else {
      var p, rest := pairs[0], pairs[1..];
      var q, one := Pair(p.key, Norm(c, MapValue(ty), p.val)), EncPair(MapTag(ty), p);
      InBufferSplit(d, lim, cur, one, EncPairs(MapTag(ty), rest));
      PairLength(MapTag(ty), p);
      ReadPairsStep(c, d, lim, cur, dep, ty, end, acc, p);
      Regroup(acc, [q], NormPairs(c, MapValue(ty), rest));
      if dep + Need(c, MapValue(ty), p.val) <= MAX_DEPTH {
        ReadPairsBack(c, d, lim, cur + |one|, dep, ty, end, acc + [q], rest);
      }
    }
  }

  lemma MapValueIsThere(c: Classes, ty: Ty, v: Value)
    requires IsMap(ty) && WellTyped(c, MapValue(ty), v)
    ensures !v.Null? && !v.Raw?
  {
  }

  lemma PairLength(vtag: nat, p: Pair<Value>)
    ensures |EncPair(vtag, p)| >= HEAD
  {
  }

  lemma {:induction false} ReadPairBack(c: Classes, d: bytes, lim: nat, cur: nat, dep: nat, ty: Ty, p: Pair<Value>)
    requires Good(c) && IsMap(ty) && dep <= MAX_DEPTH && WellTyped(c, MapValue(ty), p.val)
    requires InBuffer(d, lim, cur, EncPair(MapTag(ty), p))
    ensures ReadPair(c, d, lim, cur, dep, ty) ==
            if dep + Need(c, MapValue(ty), p.val) <= MAX_DEPTH
            then Some(GotPair(p.key, Norm(c, MapValue(ty), p.val), cur + |EncPair(MapTag(ty), p)|)) else None
    ensures cur + |EncPair(MapTag(ty), p)| <= lim <= |d|
    decreases p, 0
  {
    hide Read, Payload, Tlv1, Good, Fresh, Norm, Need, Default;
    var k := Tlv1(TAG_MAP_KEY, p.key);
    InBufferSplit(d, lim, cur, k, Enc(MapTag(ty), p.val));
    HeadBack(d, cur, TAG_MAP_KEY, p.key);
    MapValueIsThere(c, ty, p.val);
    EncBack(d, lim, cur + |k|, MapTag(ty), p.val);
    DefaultIsFresh(c, MapValue(ty));
    ReadBack(c, d, lim, cur + |k| + HEAD, dep, MapValue(ty), Default(c, MapValue(ty)), p.val);
  }

  /** The index of a variant read back. */
  lemma IndexBack(d: bytes, lim: nat, cur: nat, index: uint32)
    requires InBuffer(d, lim, cur, Tlv1(TAG_VARIANT_INDEX, Le(index, 4)))
    ensures cur + HEAD + 4 <= lim <= |d| && HeadAt(d, cur).len == 4
    ensures UnLe(d[cur + HEAD..cur + HEAD + 4]) == index
  {
    HeadBack(d, cur, TAG_VARIANT_INDEX, Le(index, 4));
    Widths();
    UnLeOfLe(index, 4);
  }

  lemma {:induction false} ReadVariantBack(c: Classes, d: bytes, lim: nat, cur: nat, dep: nat, ty: Ty, was: Value,
                                           v: Value)
    requires Good(c) && IsVariant(ty) && WellTypedVariant(c, ty, v) && dep <= MAX_DEPTH
    requires InBuffer(d, lim, cur, Payload(v))
    ensures ReadVariant(c, d, lim, cur, dep, ty, was) ==
            if dep + Need(c, Alts(ty)[v.index], v.val) <= MAX_DEPTH
            then Some(Got(Variant(v.index, Norm(c, Alts(ty)[v.index], v.val)), cur + |Payload(v)|)) else None
    decreases v, ty, 0
  {
    hide Read, InBuffer, Payload, Enc, Tlv1, HeadAt, Le, UnLe, Good, Fresh, WellTyped, Norm, Need, Default, Alts;
    var x, alt := v.val, Alts(ty)[v.index];
    VariantPayload(v);
    InBufferSplit(d, lim, cur, Tlv1(TAG_VARIANT_INDEX, Le(v.index, 4)), Enc(TAG_VARIANT_VALUE, x));
    IndexBack(d, lim, cur, v.index);
    EncBack(d, lim, cur + 10, TAG_VARIANT_VALUE, x);
    DefaultIsFresh(c, alt);
    ReadBack(c, d, lim, cur + 10 + HEAD, dep, alt, Default(c, alt), x);
  }

  /** The fields once those named in done have been read. */
  function Half(c: Classes, kind: Kind, fields: seq<Value>, done: seq<nat>): (f: seq<Value>)
    requires |fields| == |c.types(kind)| == |c.initial(kind)|
    ensures |f| == |fields|
  {
    seq(|fields|, i requires 0 <= i < |fields| =>
      if i in done then Norm(c, c.types(kind)[i], fields[i]) else c.initial(kind)[i])
  }

  lemma HalfStep(c: Classes, kind: Kind, fields: seq<Value>, order: seq<nat>, m: nat)
    requires |fields| == |c.types(kind)| == |c.initial(kind)|
    requires IsPermutation(order, |fields|) && m < |fields|
    ensures Half(c, kind, fields, order[..m])[order[m]] == c.initial(kind)[order[m]]
    ensures Half(c, kind, fields, order[..m + 1]) ==
            Half(c, kind, fields, order[..m])[order[m] := Norm(c, c.types(kind)[order[m]], fields[order[m]])]
  {
    hide Norm;
    assert order[..m + 1] == order[..m] + [order[m]];
  }

  lemma HalfEnds(c: Classes, kind: Kind, fields: seq<Value>, order: seq<nat>)
    requires |fields| == |c.types(kind)| == |c.initial(kind)| && IsPermutation(order, |fields|)
    ensures Half(c, kind, fields, order[..0]) == c.initial(kind) && order[0..] == order
    ensures Half(c, kind, fields, order[..|fields|]) == NormFields(c, kind, fields)
  {
    hide Norm;
    assert order[..|fields|] == order;
  }

  /** What Good says about one field. */
  lemma FieldIsFresh(c: Classes, kind: Kind, i: nat)
    requires Good(c) && i < |c.types(kind)|
    ensures |c.initial(kind)| == |c.types(kind)| && TagOf(i) < 0x1_0000
    ensures Fresh(c, c.types(kind)[i], c.initial(kind)[i])
  {
    hide Fresh;
  }

  /** A field in the buffer is read into its place. */
  lemma {:induction false} ReadFieldBack(c: Classes, d: bytes, lim: nat, cur: nat, dep: nat, kind: Kind,
                                         now: seq<Value>, i: nat, x: Value)
    requires Good(c) && dep <= MAX_DEPTH && i < |c.types(kind)| == |now| == |c.initial(kind)|
    requires WellTyped(c, c.types(kind)[i], x) && !x.Null? && !x.Mono? && !x.Nullptr?
    requires now[i] == c.initial(kind)[i]
    requires InBuffer(d, lim, cur, Enc(TagOf(i), x))
    ensures cur + |Enc(TagOf(i), x)| <= lim <= |d|
    ensures ReadField(c, d, lim, cur, dep, kind, now) ==
            if dep + Need(c, c.types(kind)[i], x) <= MAX_DEPTH
            then Some(Step(now[i := Norm(c, c.types(kind)[i], x)], cur + |Enc(TagOf(i), x)|)) else None
    decreases x, c.types(kind)[i], 2
  {
    hide Read, InBuffer, Payload, Enc, Tlv1, HeadAt, Good, Fresh, Norm, Need, WellTyped;
    FieldIsFresh(c, kind, i);
    EncBack(d, lim, cur, TagOf(i), x);
    ReadBack(c, d, lim, cur + HEAD, dep, c.types(kind)[i], c.initial(kind)[i], x);
  }

  lemma FieldIsTyped(c: Classes, kind: Kind, order: seq<nat>, fields: seq<Value>, m: nat)
    requires WellTypedFields(c, kind, order, fields)
    ensures |order| == |fields| == |c.types(kind)| && IsPermutation(order, |fields|)
    ensures m < |fields| ==>
              order[m] < |fields| && WellTyped(c, c.types(kind)[order[m]], fields[order[m]]) &&
              !fields[order[m]].Mono? && !fields[order[m]].Nullptr?
  {
    hide WellTyped;
  }

  lemma FieldsUnfold(c: Classes, kind: Kind, fields: seq<Value>, order: seq<nat>, m: nat)
    requires IsPermutation(order, |fields|) && m < |fields| == |c.types(kind)|
    ensures var i, rest := order[m], order[m + 1..];
            && EncFields(order[m..], fields) == Enc(TagOf(i), fields[i]) + EncFields(rest, fields)
            && NeedFields(c, kind, order[m..], fields) ==
               Max(Need(c, c.types(kind)[i], fields[i]), NeedFields(c, kind, rest, fields))
  {
    hide Enc, Need;
    assert order[m..][0] == order[m] && order[m..][1..] == order[m + 1..];
  }

  lemma {:induction false} ReadStructBack(c: Classes, d: bytes, lim: nat, cur: nat, dep: nat, kind: Kind, v: Value)
    requires Good(c) && v.Struct? && WellTypedFields(c, kind, v.order, v.fields) && dep <= MAX_DEPTH
    requires InBuffer(d, lim, cur, Payload(v))
    ensures cur + |Payload(v)| <= lim <= |d|
    ensures ReadFields(c, d, cur + |Payload(v)|, cur, dep, kind, c.initial(kind)) ==
            Outcome(dep + NeedFields(c, kind, v.order, v.fields) <= MAX_DEPTH,
                    Struct(c.order(kind), c.finish(kind, NormFields(c, kind, v.fields))), cur + |Payload(v)|)
    decreases v, TStruct(kind), 0
  {
    hide ReadField, Enc, Fresh, Norm, NormFields, Need, WellTyped, Half;
    var end := cur + |Payload(v)|;
    HalfEnds(c, kind, v.fields, v.order);
    ReadFieldsBack(c, d, end, cur, dep, kind, v.fields, v.order, 0);
  }

  /** Fields read back in any write order, with anything behind them in the buffer. */
  lemma {:induction false} ReadFieldsBack(c: Classes, d: bytes, lim: nat, cur: nat, dep: nat, kind: Kind,
                                          fields: seq<Value>, order: seq<nat>, m: nat)
    requires Good(c) && WellTypedFields(c, kind, order, fields) && dep <= MAX_DEPTH &&
             m <= |fields| == |c.initial(kind)|
    requires InBuffer(d, lim, cur, EncFields(order[m..], fields))
    ensures cur + |EncFields(order[m..], fields)| <= lim <= |d|
    ensures ReadFields(c, d, lim, cur, dep, kind, Half(c, kind, fields, order[..m])) ==
            if dep + NeedFields(c, kind, order[m..], fields) <= MAX_DEPTH
            then ReadFields(c, d, lim, cur + |EncFields(order[m..], fields)|, dep, kind, NormFields(c, kind, fields))
            else None
    decreases fields, |fields| - m
  {
    hide ReadField, ReadFields, InBuffer, Enc, Payload, Good, Fresh, Norm, NormFields, Need, WellTyped, Half;
    hide WellTypedFields, IsPermutation;
    FieldIsTyped(c, kind, order, fields, m);
    Bounds(d, lim, cur, EncFields(order[m..], fields));
    if m == |fields| {
      HalfEnds(c, kind, fields, order);
    } else {
      var i, rest, now := order[m], order[m + 1..], Half(c, kind, fields, order[..m]);
      var x, next := fields[i], Enc(TagOf(i), fields[i]);
      FieldsUnfold(c, kind, fields, order, m);
      HalfStep(c, kind, fields, order, m);
      InBufferSplit(d, lim, cur, next, EncFields(rest, fields));
      if x.Null? {
        NullHasNoBytes(c, c.types(kind)[i], TagOf(i));
        NullStays(c, kind, i, now);
      } else {
        ReadFieldBack(c, d, lim, cur, dep, kind, now, i, x);
        EncLength(TagOf(i), x);
        FieldsTurn(c, d, lim, cur, dep, kind, now);
      }
      ReadFieldsBack(c, d, lim, cur + |next|, dep, kind, fields, order, m + 1);
    }
  }

  /** A null pointer is not written, and its field stays null. */
  lemma NullStays(c: Classes, kind: Kind, i: nat, now: seq<Value>)
    requires Good(c) && i < |c.types(kind)| == |now| == |c.initial(kind)|
    requires WellTyped(c, c.types(kind)[i], Null) && now[i] == c.initial(kind)[i]
    ensures now[i := Norm(c, c.types(kind)[i], Null)] == now
  {
    FieldIsFresh(c, kind, i);
  }
}
