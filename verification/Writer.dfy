/**
 The size counter (framework/tlv/tlv_countable.h) and the in-place writer
 (framework/tlv/tlv_writeable.h, tlv_writeable.cpp).

 Put says what the writer leaves in a buffer with a given room, including every way of running
 out of it; PutFits shows that with enough room it is the compositional encoding Enc.
 */
module Writer {
  import opened Bytes
  import opened Assoc
  import opened Tlv
  import opened Wire

  datatype Out = Out(bytes: bytes, ok: bool)

  function Then(a: Out, b: Out): Out { Out(a.bytes + b.bytes, a.ok && b.ok) }

  /** One step of a loop that appends b after start + a.bytes and still has to append c. */
  lemma ThenStep(start: bytes, a: Out, b: Out, c: Out)
    ensures start + a.bytes + b.bytes == start + Then(a, b).bytes
    ensures Then(a, Then(b, c)) == Then(Then(a, b), c)
  {
  }

  lemma ThenUnit(o: Out)
    ensures Then(Out([], true), o) == o && Then(o, Out([], true)) == o
  {
  }

  predicate IsBlank(v: Value) { v.Mono? || v.Nullptr? }

  predicate IsComposite(v: Value) { v.List? || v.Dict? || v.Variant? || v.Struct? }

  predicate IsLeaf(v: Value) { !v.Null? && !IsBlank(v) && !IsComposite(v) }

  /** What Write(tag, v) appends to a buffer with room bytes left, and what it returns. */
  function Put(tag: nat, v: Value, room: nat): (o: Out)
    ensures |o.bytes| <= room
    decreases v, 1
  {
    if v.Null? then Out([], true)
    else if IsLeaf(v) then PutLeaf(tag, Payload(v), room)
    else if room < HEAD then Out([], false)
    else if IsBlank(v) then Out(Zeros(HEAD), true)
    else if v.Variant? && room < HEAD + 10 then Out(Zeros(HEAD), false)  // the reserved head stays blank
    else
      var o := PutParts(v, room - HEAD);
      Out(Tlv1(tag, o.bytes), o.ok)
  }

  /** What a composite value puts behind its reserved head. */
  function PutParts(v: Value, room: nat): (o: Out)
    requires IsComposite(v) && (v.Variant? ==> room >= 10)
    ensures |o.bytes| <= room
    decreases v, 0
  {
    match v
    case List(items) => PutItems(items, room)
    case Dict(vtag, pairs) => PutPairs(vtag, pairs, room)
    case Struct(order, fields) => PutFields(order, fields, room)
    case Variant(index, x) =>
      // the result of writing the alternative is dropped
      Out(Tlv1(TAG_VARIANT_INDEX, Le(index, 4)) + Put(TAG_VARIANT_VALUE, x, room - 10).bytes, true)
  }

  function PutLeaf(tag: nat, p: bytes, room: nat): (o: Out)
    ensures |o.bytes| <= room
  {
    if room < HEAD + |p| then Out([], false) else Out(Tlv1(tag, p), true)
  }

  /** ret = ret && Write(...): after the first failure nothing more is written. */
  function PutItems(items: seq<Value>, room: nat): (o: Out)
    ensures |o.bytes| <= room
    decreases items
  {
    if items == [] then Out([], true)
    else
      var o := Put(TAG_VECTOR_ITEM, items[0], room);
      if !o.ok then o else Then(o, PutItems(items[1..], room - |o.bytes|))
  }

  function PutPairs(vtag: nat, pairs: Items, room: nat): (o: Out)
    ensures |o.bytes| <= room
    decreases pairs
  {
    if pairs == [] then Out([], true)
    else
      var o := PutPair(vtag, pairs[0], room);
      if !o.ok then o else Then(o, PutPairs(vtag, pairs[1..], room - |o.bytes|))
  }

  function PutPair(vtag: nat, p: Pair<Value>, room: nat): (o: Out)
    ensures |o.bytes| <= room
    decreases p
  {
    var k := PutLeaf(TAG_MAP_KEY, p.key, room);
    if !k.ok then k else Then(k, Put(vtag, p.val, room - |k.bytes|))
  }

  function PutFields(order: seq<nat>, fields: seq<Value>, room: nat): (o: Out)
    ensures |o.bytes| <= room
    decreases fields, |order|
  {
    if order == [] || order[0] >= |fields| then Out([], true)
    else
      var o := Put(TagOf(order[0]), fields[order[0]], room);
      if !o.ok then o else Then(o, PutFields(order[1..], fields, room - |o.bytes|))
  }

  lemma PutItemsStep(items: seq<Value>, i: nat, room: nat)
    requires i < |items|
    ensures var o := Put(TAG_VECTOR_ITEM, items[i], room);
            PutItems(items[i..], room) ==
            if o.ok then Then(o, PutItems(items[i + 1..], room - |o.bytes|)) else o
  {
    assert items[i..][1..] == items[i + 1..];
  }

  lemma PutPairsStep(vtag: nat, pairs: Items, i: nat, room: nat)
    requires i < |pairs|
    ensures var o := PutPair(vtag, pairs[i], room);
            PutPairs(vtag, pairs[i..], room) ==
            if o.ok then Then(o, PutPairs(vtag, pairs[i + 1..], room - |o.bytes|)) else o
  {
    assert pairs[i..][1..] == pairs[i + 1..];
  }

  // ----- with enough room the writer is the compositional encoding

  /** The writer leaves the whole encoding and reports success exactly when the room suffices. */
  lemma WriteIsExact(tag: nat, v: Value, room: nat)
    ensures Put(tag, v, room) == Out(Enc(tag, v), true) <==> |Enc(tag, v)| <= room
  {
    hide Put;
    if |Enc(tag, v)| <= room {
      PutFits(tag, v, room);
    }
  }

  /**
   A variant reports success as soon as its head and index fit: when its alternative does not, the
   write still succeeds, and what is left is not the encoding.
   */
  lemma VariantHidesFailure(tag: nat, index: uint32, x: Value, room: nat)
    ensures Put(tag, Variant(index, x), room).ok <==> room >= HEAD + 10
    ensures HEAD + 10 <= room < HEAD + 10 + |Enc(TAG_VARIANT_VALUE, x)| ==>
              Put(tag, Variant(index, x), room) ==
              Out(Tlv1(tag, PutParts(Variant(index, x), room - HEAD).bytes), true) &&
              Put(tag, Variant(index, x), room).bytes != Enc(tag, Variant(index, x))
  {
    hide Put, PutParts, Le;
    VariantPut(tag, index, x, room);
    var v := Variant(index, x);
    assert |Enc(tag, v)| == HEAD + |Payload(v)| && |Payload(v)| == 10 + |Enc(TAG_VARIANT_VALUE, x)|;
  }

  lemma VariantPut(tag: nat, index: uint32, x: Value, room: nat)
    ensures Put(tag, Variant(index, x), room) ==
            if room < HEAD then Out([], false)
            else if room < HEAD + 10 then Out(Zeros(HEAD), false)
            else Out(Tlv1(tag, PutParts(Variant(index, x), room - HEAD).bytes), true)
  {
  }

  lemma {:induction false} PutFits(tag: nat, v: Value, room: nat)
    requires |Enc(tag, v)| <= room
    ensures Put(tag, v, room) == Out(Enc(tag, v), true)
    decreases v, 1
  {
    BlankHead();
    if IsComposite(v) {
      PutPartsFits(v, room - HEAD);
    }
  }

  lemma {:induction false} PutPartsFits(v: Value, room: nat)
    requires IsComposite(v) && |Payload(v)| <= room
    ensures PutParts(v, room) == Out(Payload(v), true)
    decreases v, 0
  {
    match v
    case List(items) => PutItemsFits(items, room);
    case Dict(vtag, pairs) => PutPairsFits(vtag, pairs, room);
    case Struct(order, fields) => PutFieldsFits(order, fields, room);
    case Variant(index, x) => PutFits(TAG_VARIANT_VALUE, x, room - 10);
  }

  lemma {:induction false} PutItemsFits(items: seq<Value>, room: nat)
    requires |EncItems(items)| <= room
    ensures PutItems(items, room) == Out(EncItems(items), true)
    decreases items
  {
    if items != [] {
      PutFits(TAG_VECTOR_ITEM, items[0], room);
      PutItemsFits(items[1..], room - |Enc(TAG_VECTOR_ITEM, items[0])|);
    }
  }

  lemma {:induction false} PutPairsFits(vtag: nat, pairs: Items, room: nat)
    requires |EncPairs(vtag, pairs)| <= room
    ensures PutPairs(vtag, pairs, room) == Out(EncPairs(vtag, pairs), true)
    decreases pairs
  {
    if pairs != [] {
      var k := Tlv1(TAG_MAP_KEY, pairs[0].key);
      PutFits(vtag, pairs[0].val, room - |k|);
      PutPairsFits(vtag, pairs[1..], room - |k| - |Enc(vtag, pairs[0].val)|);
    }
  }

  lemma {:induction false} PutFieldsFits(order: seq<nat>, fields: seq<Value>, room: nat)
    requires |EncFields(order, fields)| <= room
    ensures PutFields(order, fields, room) == Out(EncFields(order, fields), true)
    decreases fields, |order|
  {
    if order != [] && order[0] < |fields| {
      PutFits(TagOf(order[0]), fields[order[0]], room);
      PutFieldsFits(order[1..], fields, room - |Enc(TagOf(order[0]), fields[order[0]])|);
    }
  }

  // ----- the buffer

  class WriteOnlyBuffer {
    const data: array<byte>
    var cursor: nat
    ghost var written: bytes

    /** The bytes before the cursor have been written, those from the cursor on are zero. */
    ghost predicate Valid()
      reads this, data
    {
      cursor == |written| <= data.Length && data[..] == written + Zeros(data.Length - cursor)
    }

    constructor (len: nat)
      ensures Valid() && data.Length == len && written == [] && fresh(data)
    {
      data := new byte[len](_ => 0);
      cursor := 0;
      written := [];
      new;
      assert data[..] == Zeros(len);
    }

    ghost function Room(): nat
      requires Valid()
      reads this, data
    {
      data.Length - |written|
    }

    /** memcpy_s into the buffer at a given position. */
    method Copy(at: nat, s: bytes)
      requires at + |s| <= data.Length
      modifies data
      ensures data[..] == old(data[..at]) + s + old(data[at + |s|..])
    {
      forall i | 0 <= i < |s| {
        data[at + i] := s[i];
      }
    }

    /** Patches a head reserved earlier. */
    method WriteHead(tag: nat, at: nat, len: nat)
      requires Valid() && at + HEAD <= cursor
      modifies this`written, data
      ensures Valid()
      ensures written == old(written[..at]) + Le(tag, 2) + Le(len, 4) + old(written[at + HEAD..])
    {
      var h := Le(tag, 2) + Le(len, 4);
      Copy(at, h);
      written := written[..at] + h + written[at + HEAD..];
      assert data[..] == written + Zeros(data.Length - cursor);
    }

    method WriteLeaf(tag: nat, p: bytes) returns (ok: bool)
      requires Valid()
      modifies this, data
      ensures Valid()
      ensures written == old(written) + PutLeaf(tag, p, old(Room())).bytes
      ensures ok == PutLeaf(tag, p, old(Room())).ok
    {
      if data.Length - cursor < HEAD + |p| {
        return false;
      }
      var b := Tlv1(tag, p);
      Copy(cursor, b);
      written := written + b;
      cursor := cursor + |b|;
      assert data[..] == written + Zeros(data.Length - cursor);
      ok := true;
    }

    /** Write: reserve a head, write the parts, patch the length in. */
    method Write(tag: nat, v: Value) returns (ok: bool)
      requires Valid()
      modifies this, data
      ensures Valid()
      ensures written == old(written) + Put(tag, v, old(Room())).bytes
      ensures ok == Put(tag, v, old(Room())).ok
      decreases v, 3
    {
      if v.Null? {
        return true;
      }
      if v.F64? {
        var b := ConvertDouble(v.host);
        ok := WriteLeaf(tag, b);
        return;
      }
      if IsLeaf(v) {
        ok := WriteLeaf(tag, Payload(v));
        return;
      }
      if data.Length - cursor < HEAD {
        return false;
      }
      if IsBlank(v) {
        Reserve();
        return true;
      }
      ok := WriteComposite(tag, v);
    }

    method WriteComposite(tag: nat, v: Value) returns (ok: bool)
      requires Valid() && IsComposite(v) && Room() >= HEAD
      modifies this, data
      ensures Valid()
      ensures written == old(written) + Put(tag, v, old(Room())).bytes
      ensures ok == Put(tag, v, old(Room())).ok
      decreases v, 2
    {
      hide PutParts, Le;
      var tagCursor := cursor;
      ghost var start := written;
      Reserve();
      if v.Variant? && data.Length - cursor < 10 {
        return false;
      }
      ghost var o := PutParts(v, Room());
      ok := WriteParts(v);
      Patched(start, written, o.bytes, tag);
      WriteHead(tag, tagCursor, cursor - (tagCursor + HEAD));
    }

    /** cursor_ += sizeof(TLVHead): a blank head. */
    method Reserve()
      requires Valid() && Room() >= HEAD
      modifies this
      ensures Valid()
      ensures written == old(written) + Zeros(HEAD)
    {
      cursor := cursor + HEAD;
      written := written + Zeros(HEAD);
      assert data[..] == written + Zeros(data.Length - cursor);
    }

    static lemma Patched(start: bytes, all: bytes, body: bytes, tag: nat)
      requires all == start + Zeros(HEAD) + body
      ensures all[..|start|] + Le(tag, 2) + Le(|body|, 4) + all[|start| + HEAD..] == start + Tlv1(tag, body)
    {
      assert all[..|start|] == start && all[|start| + HEAD..] == body;
    }

    method WriteParts(v: Value) returns (ok: bool)
      requires Valid() && IsComposite(v) && (v.Variant? ==> Room() >= 10)
      modifies this, data
      ensures Valid()
      ensures written == old(written) + PutParts(v, old(Room())).bytes
      ensures ok == PutParts(v, old(Room())).ok
      decreases v, 1
    {
      match v {
        case List(items) => ok := WriteItems(items);
        case Dict(vtag, pairs) => ok := WritePairs(vtag, pairs);
        case Struct(order, fields) => ok := WriteFields(order, fields);
        case Variant(index, x) => WriteVariant(index, x); ok := true;
      }
    }

    method WriteVariant(index: uint32, x: Value)
      requires Valid() && Room() >= 10
      modifies this, data
      ensures Valid()
      ensures written == old(written) +
                (Tlv1(TAG_VARIANT_INDEX, Le(index, 4)) + Put(TAG_VARIANT_VALUE, x, old(Room()) - 10).bytes)
      decreases x, 4
    {
      ghost var start, i := written, Out(Tlv1(TAG_VARIANT_INDEX, Le(index, 4)), true);
      var found := WriteLeaf(TAG_VARIANT_INDEX, Le(index, 4));
      ghost var o := Put(TAG_VARIANT_VALUE, x, Room());
      var dropped := Write(TAG_VARIANT_VALUE, x);
      ThenStep(start, i, o, o);
    }

    method WriteItems(items: seq<Value>) returns (ok: bool)
      requires Valid()
      modifies this, data
      ensures Valid()
      ensures written == old(written) + PutItems(items, old(Room())).bytes
      ensures ok == PutItems(items, old(Room())).ok
      decreases items
    {
      hide Put;
      ok := true;
      ghost var start, room, acc := written, Room(), Out([], true);
      assert items[0..] == items;
      ThenUnit(PutItems(items, room));
      for i := 0 to |items|
        invariant Valid() && written == start + acc.bytes && ok == acc.ok && Room() == room - |acc.bytes|
        invariant PutItems(items, room) == if acc.ok then Then(acc, PutItems(items[i..], room - |acc.bytes|)) else acc
      {
        if ok {
          ghost var o := Put(TAG_VECTOR_ITEM, items[i], Room());
          ghost var rest := if o.ok then PutItems(items[i + 1..], Room() - |o.bytes|) else Out([], true);
          PutItemsStep(items, i, Room());
          ThenStep(start, acc, o, rest);
          ThenUnit(o);
          ok := Write(TAG_VECTOR_ITEM, items[i]);
          acc := Then(acc, o);
        }
      }
      ThenUnit(acc);
    }

    method WritePairs(vtag: nat, pairs: Items) returns (ok: bool)
      requires Valid()
      modifies this, data
      ensures Valid()
      ensures written == old(written) + PutPairs(vtag, pairs, old(Room())).bytes
      ensures ok == PutPairs(vtag, pairs, old(Room())).ok
      decreases pairs
    {
      hide PutPair;
      ok := true;
      ghost var start, room, acc := written, Room(), Out([], true);
      assert pairs[0..] == pairs;
      ThenUnit(PutPairs(vtag, pairs, room));
      for i := 0 to |pairs|
        invariant Valid() && written == start + acc.bytes && ok == acc.ok && Room() == room - |acc.bytes|
        invariant PutPairs(vtag, pairs, room) ==
                  if acc.ok then Then(acc, PutPairs(vtag, pairs[i..], room - |acc.bytes|)) else acc
      {
        if ok {
          ghost var o := PutPair(vtag, pairs[i], Room());
          ghost var rest := if o.ok then PutPairs(vtag, pairs[i + 1..], Room() - |o.bytes|) else Out([], true);
          PutPairsStep(vtag, pairs, i, Room());
          ThenStep(start, acc, o, rest);
          ThenUnit(o);
          ok := WritePair(vtag, pairs[i]);
          acc := Then(acc, o);
        }
      }
      ThenUnit(acc);
    }

    method WritePair(vtag: nat, p: Pair<Value>) returns (ok: bool)
      requires Valid()
      modifies this, data
      ensures Valid()
      ensures written == old(written) + PutPair(vtag, p, old(Room())).bytes
      ensures ok == PutPair(vtag, p, old(Room())).ok
      decreases p
    {
      ok := WriteLeaf(TAG_MAP_KEY, p.key);
      if ok {
        ok := Write(vtag, p.val);
      }
    }

    /** EncodeTLV: the fields one after the other. */
    method WriteFields(order: seq<nat>, fields: seq<Value>) returns (ok: bool)
      requires Valid()
      modifies this, data
      ensures Valid()
      ensures written == old(written) + PutFields(order, fields, old(Room())).bytes
      ensures ok == PutFields(order, fields, old(Room())).ok
      decreases fields, |order|
    {
      if order == [] || order[0] >= |fields| {
        return true;
      }
      ghost var start, o := written, Put(TagOf(order[0]), fields[order[0]], Room());
      ok := Write(TagOf(order[0]), fields[order[0]]);
      if ok {
        ThenStep(start, o, PutFields(order[1..], fields, Room()), Out([], true));
        ok := WriteFields(order[1..], fields);
      }
    }
  }

  /** TLVCountable::Count: 6 bytes too many for every shared Want or PixelMap. */
  method Count(v: Value) returns (n: nat)
    ensures n == |Enc(TAG_BUFF, v)| + HEAD * SharedIn(v)
    decreases v, 1
  {
    if v.Null? {
      n := 0;
    } else if IsLeaf(v) {
      n := |Payload(v)| + HEAD + if v.Shared? then HEAD else 0;
    } else if IsBlank(v) {
      n := HEAD;
    } else {
      n := CountParts(v);
      n := n + HEAD;
    }
  }

  method CountParts(v: Value) returns (n: nat)
    requires IsComposite(v)
    ensures n == |Payload(v)| + HEAD * SharedIn(v)
    decreases v, 0
  {
    match v
    case List(items) => n := CountItems(items);
    case Dict(vtag, pairs) => n := CountPairs(vtag, pairs);
    case Struct(order, fields) => n := CountFields(order, fields);
    case Variant(index, x) =>
      n := Count(x);
      n := n + (4 + HEAD);
  }

  method CountItems(items: seq<Value>) returns (n: nat)
    ensures n == |EncItems(items)| + HEAD * SharedInItems(items)
    decreases items
  {
    n := 0;
    assert items[0..] == items;
    for i := 0 to |items|
      invariant n + |EncItems(items[i..])| + HEAD * SharedInItems(items[i..]) ==
                |EncItems(items)| + HEAD * SharedInItems(items)
    {
      assert items[i..][1..] == items[i + 1..];
      var k := Count(items[i]);
      n := n + k;
    }
  }

  method CountPairs(vtag: nat, pairs: Items) returns (n: nat)
    ensures n == |EncPairs(vtag, pairs)| + HEAD * SharedInPairs(pairs)
    decreases pairs
  {
    n := 0;
    assert pairs[0..] == pairs;
    for i := 0 to |pairs|
      invariant n + |EncPairs(vtag, pairs[i..])| + HEAD * SharedInPairs(pairs[i..]) ==
                |EncPairs(vtag, pairs)| + HEAD * SharedInPairs(pairs)
    {
      assert pairs[i..][1..] == pairs[i + 1..];
      var k := Count(pairs[i].val);
      assert |EncPair(vtag, pairs[i])| == HEAD + |pairs[i].key| + |Enc(TAG_BUFF, pairs[i].val)|;
      n := n + (HEAD + |pairs[i].key|) + k;
    }
  }

  /** CountTLV: the sum over the fields. */
  method CountFields(order: seq<nat>, fields: seq<Value>) returns (n: nat)
    ensures n == |EncFields(order, fields)| + HEAD * SharedInFields(order, fields)
    decreases fields, |order|
  {
    if order == [] || order[0] >= |fields| {
      return 0;
    }
    n := Count(fields[order[0]]);
    var m := CountFields(order[1..], fields);
    n := n + m;
  }

  /**
   TLVWriteable::Encode: count, write into a buffer of that size. No write fails, the bytes are the
   compositional encoding of the fields, which is their wire format byte by byte, and 6 zero bytes
   per shared Want or PixelMap follow.
   */
  method Encode(order: seq<nat>, fields: seq<Value>) returns (buffer: bytes, ok: bool)
    ensures ok
    ensures buffer == EncFields(order, fields) + Zeros(HEAD * SharedInFields(order, fields))
    ensures |buffer| < TWO32 ==> FieldsStand(buffer, 0, order, fields, |EncFields(order, fields)|)
  {
    var total := CountFields(order, fields);
    var w := new WriteOnlyBuffer(total);
    PutFieldsFits(order, fields, total);
    ok := w.WriteFields(order, fields);
    buffer := w.data[..];
    EncodingStands(order, fields, Zeros(HEAD * SharedInFields(order, fields)));
  }

  lemma EncodingStands(order: seq<nat>, fields: seq<Value>, tail: bytes)
    ensures var a := EncFields(order, fields); |a + tail| < TWO32 ==> FieldsStand(a + tail, 0, order, fields, |a|)
  {
    hide FieldsStand, EncFields;
    var a := EncFields(order, fields);
    if |a + tail| < TWO32 {
      assert (a + tail)[0..|a|] == a;
      FieldsHold(a + tail, 0, order, fields, |a|);
    }
  }
}
