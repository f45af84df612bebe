/**
 The wire format of framework/tlv, said byte by byte: which bytes stand for a value, without the
 functions that make them. Heads are little-endian, a double goes out most significant byte first,
 and the tags are the numbers of the format.
 */
module Wire {
  import opened Bytes
  import opened Assoc
  import opened Tlv

  /** The number of two, four or eight bytes, the least significant one first. */
  function Two(a: int, b: int): int { a + 0x100 * b }
  function Four(a: int, b: int, c: int, d: int): int { a + 0x100 * b + 0x1_0000 * c + 0x100_0000 * d }

  predicate TwoBytes(b: bytes, at: nat, n: int) { at + 2 <= |b| && n == Two(b[at], b[at + 1]) }

  predicate FourBytes(b: bytes, at: nat, n: int)
  {
    at + 4 <= |b| && n == Four(b[at], b[at + 1], b[at + 2], b[at + 3])
  }

  predicate EightBytes(b: bytes, at: nat, n: int)
  {
    && at + 8 <= |b|
    && n == Four(b[at], b[at + 1], b[at + 2], b[at + 3]) +
            0x1_0000_0000 * Four(b[at + 4], b[at + 5], b[at + 6], b[at + 7])
  }

  /** A value under a tag: six bytes of head, and what it holds; a null pointer has no bytes. */
  ghost predicate Stands(b: bytes, at: nat, tag: nat, v: Value, end: nat)
    decreases v, 1
  {
    if v.Null? then at == end <= |b|
    else
      && at + 6 <= end <= |b|
      && TwoBytes(b, at, if v.Mono? || v.Nullptr? then 0 else tag % 0x1_0000)
      && FourBytes(b, at + 2, end - at - 6)
      && Holds(b, at + 6, v, end)
  }

  ghost predicate Holds(b: bytes, lo: nat, v: Value, end: nat)
    requires lo <= end <= |b|
    decreases v, 0
  {
    match v
    case Mono => end == lo
    case Nullptr => end == lo
    case Null => end == lo
    case Bool(x) => end == lo + 1 && b[lo] == if x then 1 else 0
    case I32(i) => end == lo + 4 && FourBytes(b, lo, if i < 0 then i + 0x1_0000_0000 else i)
    case I64(l) => end == lo + 8 && EightBytes(b, lo, if l < 0 then l + 0x1_0000_0000_0000_0000 else l)
    case U32(u) => end == lo + 4 && FourBytes(b, lo, u)
    case F64(h) => end == lo + 8 && forall k :: lo <= k < end ==> b[k] == h[lo + 7 - k]
    case Text(s) => b[lo..end] == s
    case Blob(s) => b[lo..end] == s
    case Raw(s) => b[lo..end] == s
    case Shared(s) => b[lo..end] == s
    case List(items) => ItemsStand(b, lo, items, end)
    case Dict(vtag, pairs) => PairsStand(b, lo, vtag, pairs, end)
    case Variant(index, x) => VariantStands(b, lo, index, x, end)
    case Struct(order, fields) => FieldsStand(b, lo, order, fields, end)
  }

  /** Items one after the other, each with tag 0. */
  ghost predicate ItemsStand(b: bytes, lo: nat, items: seq<Value>, end: nat)
    decreases items
  {
    if items == [] then lo == end <= |b|
    else exists mid: nat :: Stands(b, lo, 0, items[0], mid) && ItemsStand(b, mid, items[1..], end)
  }

  /** Keys with tag 1, each in front of its value. */
  ghost predicate PairsStand(b: bytes, lo: nat, vtag: nat, pairs: Items, end: nat)
    decreases pairs
  {
    if pairs == [] then lo == end <= |b|
    else
      var p, at := pairs[0], lo + 6 + |pairs[0].key|;
      && at <= |b| && TwoBytes(b, lo, 1) && FourBytes(b, lo + 2, |p.key|) && b[lo + 6..at] == p.key
      && exists mid: nat :: Stands(b, at, vtag, p.val, mid) && PairsStand(b, mid, vtag, pairs[1..], end)
  }

  /** The index with tag 4 in four bytes, and the alternative with tag 5. */
  ghost predicate VariantStands(b: bytes, lo: nat, index: uint32, x: Value, end: nat)
    decreases x, 2
  {
    && lo + 10 <= |b| && TwoBytes(b, lo, 4) && FourBytes(b, lo + 2, 4) && FourBytes(b, lo + 6, index)
    && Stands(b, lo + 10, 5, x, end)
  }

  /** The fields in the order they are written, field i with tag 0x101 + i. */
  ghost predicate FieldsStand(b: bytes, lo: nat, order: seq<nat>, fields: seq<Value>, end: nat)
    decreases fields, |order|
  {
    if order == [] || order[0] >= |fields| then lo == end <= |b|
    else
      exists mid: nat ::
        Stands(b, lo, 0x101 + order[0], fields[order[0]], mid) && FieldsStand(b, mid, order[1..], fields, end)
  }

  // ----- numbers

  lemma LowTwo(n: nat)
    ensures n % 0x1_0000 == Two(n % 256, n / 256 % 256)
  {
    var q := n / 256;
    var r, low := q / 256, n % 256 + 256 * (q % 256);
    assert n == 0x1_0000 * r + low && 0 <= low < 0x1_0000;
  }

  lemma LeTwo(n: nat)
    ensures Le(n, 2) == [n % 256, n / 256 % 256]
  {
    var q := n / 256;
    assert Le(q, 1) == [q % 256] + Le(q / 256, 0) == [q % 256];
    assert Le(n, 2) == [n % 256] + Le(q, 1);
  }

  lemma TwoBytesAre(b: bytes, at: nat, n: nat)
    ensures At(b, at, Le(n, 2)) <==> TwoBytes(b, at, n % 0x1_0000)
  {
    hide Le;
    LeTwo(n);
    LowTwo(n);
    var x: int, y: int := n % 256, n / 256 % 256;
    if at + 2 <= |b| {
      TwoIsUnique(b[at], b[at + 1], x, y);
      assert b[at..at + 2] == [b[at], b[at + 1]];
    }
  }

  lemma TwoIsUnique(a: int, b: int, x: int, y: int)
    requires 0 <= a < 256 && 0 <= b < 256 && 0 <= x < 256 && 0 <= y < 256
    ensures Two(a, b) == Two(x, y) <==> a == x && b == y
  {
  }

  lemma UnLeFour(b: bytes)
    requires |b| == 4
    ensures UnLe(b) == Four(b[0], b[1], b[2], b[3])
  {
    assert b[1..][1..] == b[2..] && b[2..][1..] == b[3..] && b[3..][1..] == b[4..] == [];
    var z: int := b[3];
    assert UnLe(b[3..]) == z && UnLe(b[2..]) == b[2] + 256 * UnLe(b[3..]);
    assert UnLe(b[1..]) == b[1] + 256 * UnLe(b[2..]);
  }

  lemma UnLeEight(b: bytes)
    requires |b| == 8
    ensures UnLe(b) == Four(b[0], b[1], b[2], b[3]) + 0x1_0000_0000 * Four(b[4], b[5], b[6], b[7])
  {
    UnLeFour(b[4..]);
    assert b[1..][1..] == b[2..] && b[2..][1..] == b[3..] && b[3..][1..] == b[4..];
    assert UnLe(b[3..]) == b[3] + 256 * UnLe(b[4..]);
    assert UnLe(b[2..]) == b[2] + 256 * UnLe(b[3..]);
    assert UnLe(b[1..]) == b[1] + 256 * UnLe(b[2..]);
  }

  lemma FourBytesAre(b: bytes, at: nat, n: nat)
    requires n < TWO32
    ensures At(b, at, Le(n, 4)) <==> FourBytes(b, at, n)
  {
    hide Le, UnLe;
    Widths();
    UnLeOfLe(n, 4);
    if at + 4 <= |b| {
      var s := b[at..at + 4];
      UnLeFour(s);
      LeOfUnLe(s);
    }
  }

  lemma EightBytesAre(b: bytes, at: nat, n: nat)
    requires n < TWO64
    ensures At(b, at, Le(n, 8)) <==> EightBytes(b, at, n)
  {
    hide Le, UnLe;
    Widths();
    UnLeOfLe(n, 8);
    if at + 8 <= |b| {
      var s := b[at..at + 8];
      UnLeEight(s);
      LeOfUnLe(s);
    }
  }

  lemma HeadStands(b: bytes, at: nat, tag: nat, n: nat)
    requires n < TWO32
    ensures At(b, at, Le(tag, 2) + Le(n, 4)) <==> TwoBytes(b, at, tag % 0x1_0000) && FourBytes(b, at + 2, n)
  {
    hide Le;
    AtSplit(b, at, Le(tag, 2), Le(n, 4));
    TwoBytesAre(b, at, tag);
    FourBytesAre(b, at + 2, n);
  }

  lemma Tlv1Stands(b: bytes, at: nat, tag: nat, p: bytes)
    requires |p| < TWO32
    ensures At(b, at, Tlv1(tag, p)) <==>
            TwoBytes(b, at, tag % 0x1_0000) && FourBytes(b, at + 2, |p|) && At(b, at + 6, p)
  {
    hide Le;
    AtSplit(b, at, Le(tag, 2) + Le(|p|, 4), p);
    HeadStands(b, at, tag, |p|);
  }

  // ----- the encoding is the wire format, and nothing else is

  /** The bytes of an encoding, from at to end. */
  ghost predicate Between(b: bytes, at: nat, p: bytes, end: nat) { At(b, at, p) && end == at + |p| }

  lemma BetweenJoin(b: bytes, at: nat, p: bytes, q: bytes, end: nat)
    ensures Between(b, at, p + q, end) <==> Between(b, at, p, at + |p|) && Between(b, at + |p|, q, end)
  {
    AtSplit(b, at, p, q);
  }

  lemma {:induction false} EncStands(b: bytes, at: nat, tag: nat, v: Value, end: nat)
    requires |b| < TWO32
    ensures Stands(b, at, tag, v, end) <==> Between(b, at, Enc(tag, v), end)
    decreases v, 1
  {
    hide Holds, Payload, Tlv1, TwoBytes, FourBytes;
    if !v.Null? {
      var p := Payload(v);
      if |p| < TWO32 {
        Tlv1Stands(b, at, WireTag(tag, v), p);
      }
      if at + 6 <= end <= |b| {
        PayloadHolds(b, at + 6, v, end);
      }
      EncIs(tag, v);
    } else {
      assert Enc(tag, v) == [];
      assert at <= |b| ==> b[at..at] == [];
    }
  }

  lemma EncIs(tag: nat, v: Value)
    requires !v.Null?
    ensures Enc(tag, v) == Tlv1(WireTag(tag, v), Payload(v)) && |Enc(tag, v)| == 6 + |Payload(v)|
  {
  }

  lemma {:induction false} PayloadHolds(b: bytes, lo: nat, v: Value, end: nat)
    requires lo <= end <= |b| < TWO32
    ensures Holds(b, lo, v, end) <==> Between(b, lo, Payload(v), end)
    decreases v, 0
  {
    hide FourBytes, EightBytes, Le, ItemsStand, PairsStand, VariantStands, FieldsStand, EncItems, EncPairs, EncFields;
    match v {
      case I32(i) => FourBytesAre(b, lo, ToUnsigned(i, TWO32));
      case I64(l) => EightBytesAre(b, lo, ToUnsigned(l, TWO64));
      case U32(u) => FourBytesAre(b, lo, u);
      case F64(h) => DoubleStands(b, lo, h);
      case List(items) => ItemsHold(b, lo, items, end);
      case Dict(vtag, pairs) => PairsHold(b, lo, vtag, pairs, end);
      case Variant(index, x) => VariantHolds(b, lo, v, end);
      case Struct(order, fields) => FieldsHold(b, lo, order, fields, end);
      case _ => LeafHolds(b, lo, v, end);
    }
  }

  lemma LeafHolds(b: bytes, lo: nat, v: Value, end: nat)
    requires lo <= end <= |b|
    requires v.Mono? || v.Nullptr? || v.Null? || v.Bool? || v.Text? || v.Blob? || v.Raw? || v.Shared?
    ensures Holds(b, lo, v, end) <==> Between(b, lo, Payload(v), end)
  {
    if v.Bool? && lo + 1 <= |b| {
      assert b[lo..lo + 1] == [b[lo]];
    }
  }

  lemma DoubleStands(b: bytes, lo: nat, h: double)
    ensures At(b, lo, Reversed(h)) <==>
            lo + 8 <= |b| && forall k :: lo <= k < lo + 8 ==> b[k] == h[lo + 7 - k]
  {
    if lo + 8 <= |b| {
      var s := b[lo..lo + 8];
      assert forall k :: lo <= k < lo + 8 ==> b[k] == s[k - lo];
      assert forall j :: 0 <= j < 8 ==> s[j] == b[lo + j] && Reversed(h)[j] == h[7 - j];
    }
  }

  lemma {:induction false} ItemsHold(b: bytes, lo: nat, items: seq<Value>, end: nat)
    requires |b| < TWO32
    ensures ItemsStand(b, lo, items, end) <==> Between(b, lo, EncItems(items), end)
    decreases items
  {
    hide Stands, Enc, Between;
    if items == [] {
      NothingBetween(b, lo, end);
    } else {
      var one := Enc(TAG_VECTOR_ITEM, items[0]);
      BetweenJoin(b, lo, one, EncItems(items[1..]), end);
      forall mid: nat ensures Stands(b, lo, 0, items[0], mid) <==> Between(b, lo, one, mid) {
        EncStands(b, lo, 0, items[0], mid);
      }
      OneEnd(b, lo, one);
      ItemsHold(b, lo + |one|, items[1..], end);
    }
  }

  lemma NothingBetween(b: bytes, lo: nat, end: nat)
    ensures Between(b, lo, [], end) <==> lo == end <= |b|
  {
    assert lo <= |b| ==> b[lo..lo] == [];
  }

  lemma OneEnd(b: bytes, lo: nat, p: bytes)
    ensures forall mid: nat :: Between(b, lo, p, mid) ==> mid == lo + |p|
  {
  }

  lemma {:induction false} PairsHold(b: bytes, lo: nat, vtag: nat, pairs: Items, end: nat)
    requires |b| < TWO32
    ensures PairsStand(b, lo, vtag, pairs, end) <==> Between(b, lo, EncPairs(vtag, pairs), end)
    decreases pairs
  {
    hide Stands, Enc, Between, Tlv1, TwoBytes, FourBytes;
    if pairs == [] {
      NothingBetween(b, lo, end);
    } else {
      var p, rest := pairs[0], pairs[1..];
      var k, one, more := Tlv1(TAG_MAP_KEY, p.key), Enc(vtag, p.val), EncPairs(vtag, rest);
      BetweenJoin(b, lo, k + one, more, end);
      BetweenJoin(b, lo, k, one, lo + |k + one|);
      KeyStands(b, lo, p.key);
      var at := lo + |k|;
      forall mid: nat ensures Stands(b, at, vtag, p.val, mid) <==> Between(b, at, one, mid) {
        EncStands(b, at, vtag, p.val, mid);
      }
      OneEnd(b, lo + |k|, one);
      PairsHold(b, lo + |k| + |one|, vtag, rest, end);
    }
  }

  lemma KeyStands(b: bytes, lo: nat, key: bytes)
    requires |b| < TWO32
    ensures |Tlv1(TAG_MAP_KEY, key)| == 6 + |key|
    ensures Between(b, lo, Tlv1(TAG_MAP_KEY, key), lo + 6 + |key|) <==>
            && lo + 6 + |key| <= |b| && TwoBytes(b, lo, 1) && FourBytes(b, lo + 2, |key|)
            && b[lo + 6..lo + 6 + |key|] == key
  {
    hide Tlv1, TwoBytes, FourBytes;
    assert |Tlv1(TAG_MAP_KEY, key)| == 6 + |key|;
    if |key| < TWO32 {
      Tlv1Stands(b, lo, TAG_MAP_KEY, key);
    }
  }

  lemma VariantHolds(b: bytes, lo: nat, v: Value, end: nat)
    requires |b| < TWO32 && v.Variant?
    ensures VariantStands(b, lo, v.index, v.val, end) <==> Between(b, lo, Payload(v), end)
    decreases v.val, 3
  {
    hide Stands, Enc, Tlv1, TwoBytes, FourBytes, Le, At;
    VariantPayload(v);
    var i := Tlv1(TAG_VARIANT_INDEX, Le(v.index, 4));
    assert |i| == 10;
    BetweenJoin(b, lo, i, Enc(TAG_VARIANT_VALUE, v.val), end);
    Tlv1Stands(b, lo, TAG_VARIANT_INDEX, Le(v.index, 4));
    FourBytesAre(b, lo + 6, v.index);
    EncStands(b, lo + 10, 5, v.val, end);
    assert FourBytes(b, lo + 6, v.index) ==> lo + 10 <= |b| by { FourFit(b, lo + 6, v.index); }
  }

  lemma FourFit(b: bytes, at: nat, n: int)
    ensures FourBytes(b, at, n) ==> at + 4 <= |b|
  {
  }

  lemma {:induction false} FieldsHold(b: bytes, lo: nat, order: seq<nat>, fields: seq<Value>, end: nat)
    requires |b| < TWO32
    ensures FieldsStand(b, lo, order, fields, end) <==> Between(b, lo, EncFields(order, fields), end)
    decreases fields, |order|
  {
    hide Stands, Enc, Between;
    if order == [] || order[0] >= |fields| {
      NothingBetween(b, lo, end);
    } else {
      var one := Enc(TagOf(order[0]), fields[order[0]]);
      BetweenJoin(b, lo, one, EncFields(order[1..], fields), end);
      var tag, x := 0x101 + order[0], fields[order[0]];
      forall mid: nat ensures Stands(b, lo, tag, x, mid) <==> Between(b, lo, one, mid) {
        EncStands(b, lo, tag, x, mid);
      }
      OneEnd(b, lo, one);
      FieldsHold(b, lo + |one|, order[1..], fields, end);
    }
  }
}
