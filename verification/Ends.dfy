/**
 Where a read ends (framework/tlv/src/tlv_readable.cpp, tlv_readable.h). A structure ends exactly
 where its length says, because its fields are read with total_ at its end. The loops over vector
 items and map pairs stop at the first boundary at or behind the declared end, so they may pass it.
 Here every boundary is found by a walk over the heads and the variant indices alone, which gives
 the exact condition for a vector or a map to end at its declared end.
 */
module Ends {
  import opened Bytes
  import opened Assoc
  import opened Tlv
  import opened ReaderSpec
  import opened RoundTrip

  function Within(lim: nat, at: nat): (r: Option<nat>)
    ensures r.Some? ==> r.value == at <= lim
  {
    if at <= lim then Some(at) else None
  }

  // ----- vectors

  /** A value of this type ends where the length in its head says. */
  predicate Exact(ty: Ty)
  {
    ty.TStruct? || (IsFlat(ty) && !ty.TMono? && !ty.TNullptr?) || (ty.TPtr? && Exact(ty.elem))
  }

  lemma {:induction false} ExactEnds(c: Classes, d: bytes, lim: nat, cur: nat, dep: nat, ty: Ty, was: Value, len: nat)
    requires cur <= lim <= |d| && Exact(ty) && Read(c, d, lim, cur, dep, ty, was, len).Some?
    ensures Read(c, d, lim, cur, dep, ty, was, len).value.cur == cur + len
    decreases ty
  {
    hide ReadFields, ReadFlat, ReadItems, ReadPairs, ReadVariant, Default;
    if ty.TPtr? {
      ExactEnds(c, d, lim, cur, dep + 1, ty.elem, Default(c, ty.elem), len);
    }
  }

  /** From head to head over the lengths they announce, up to the first one at or behind end. */
  function HeadsStop(d: bytes, lim: nat, cur: nat, end: nat): (r: Option<nat>)
    requires cur <= lim <= |d|
    ensures r.Some? ==> end <= r.value
    decreases lim - cur
  {
    if cur >= end then Some(cur)
    else if cur + HEAD > lim || cur + HEAD + HeadAt(d, cur).len > lim then None
    else HeadsStop(d, lim, cur + HEAD + HeadAt(d, cur).len, end)
  }

  lemma {:induction false} ItemsStop(c: Classes, d: bytes, lim: nat, cur: nat, dep: nat, elem: Ty, end: nat,
                                     acc: seq<Value>)
    requires cur <= lim <= |d| && Exact(elem) && ReadItems(c, d, lim, cur, dep, elem, end, acc).Some?
    ensures HeadsStop(d, lim, cur, end) == Some(ReadItems(c, d, lim, cur, dep, elem, end, acc).value.cur)
    decreases lim - cur
  {
    hide Read, ReadItems, HeadAt, Default, Exact;
    ItemsTurn(c, d, lim, cur, dep, elem, end, acc);
    if cur < end {
      var len := HeadAt(d, cur).len;
      var g := Read(c, d, lim, cur + HEAD, dep, elem, Default(c, elem), len).value;
      ExactEnds(c, d, lim, cur + HEAD, dep, elem, Default(c, elem), len);
      ItemsStop(c, d, lim, g.cur, dep, elem, end, acc + [g.v]);
    }
  }

  /** The vector types of the paste data have items of these types. */
  lemma VectorTypesAreExact(kind: Kind)
    ensures Exact(TText) && Exact(TBlob) && Exact(TStruct(kind)) && Exact(TPtr(TStruct(kind)))
  {
  }

  /** A vector that is read ends at its declared end exactly when its heads lead there. */
  lemma VectorEndsIff(c: Classes, d: bytes, lim: nat, cur: nat, dep: nat, elem: Ty, was: Value, len: nat)
    requires cur <= lim <= |d| && Exact(elem)
    requires Read(c, d, lim, cur, dep, TVec(elem), was, len).Some?
    ensures var end := Read(c, d, lim, cur, dep, TVec(elem), was, len).value.cur;
            && HeadsStop(d, lim, cur, cur + len) == Some(end)
            && (end == cur + len <==> HeadsStop(d, lim, cur, cur + len) == Some(cur + len))
  {
    hide ReadItems, HeadsStop, Exact;
    ItemsStop(c, d, lim, cur, dep + 1, elem, cur + len, AsItems(was));
  }

  // ----- maps

  /**
   Where a map value ends: a blob behind its length, a variant with an unknown index behind that
   index, and any other variant behind its alternative; monostate and nullptr_t have no bytes.
   */
  function ValueStop(d: bytes, lim: nat, cur: nat, ty: Ty, len: nat): (r: Option<nat>)
    requires cur <= lim <= |d|
    ensures r.Some? ==> cur <= r.value <= lim
    decreases lim - cur, 1
  {
    if !IsVariant(ty) then Within(lim, cur + len)
    else if cur + 10 > lim then None
    else
      var index := UnLe(d[cur + HEAD..cur + 10]);
      if index >= |Alts(ty)| then Some(cur + 10)
      else if cur + 16 > lim then None
      else
        var alt, at, n := Alts(ty)[index], cur + 16, HeadAt(d, cur + 10).len;
        if alt == TPtr(TObject) then PairsStop(d, lim, at, TObject, at + n) else Within(lim, at + FlatLength(alt, n))
  }

  /** From pair to pair: the key's head, the value's head, the value; the end is tested between pairs only. */
  function PairsStop(d: bytes, lim: nat, cur: nat, ty: Ty, end: nat): (r: Option<nat>)
    requires cur <= lim <= |d| && IsMap(ty)
    ensures r.Some? ==> cur <= r.value <= lim && end <= r.value
    decreases lim - cur, 0
  {
    if cur >= end then Some(cur)
    else if cur + HEAD > lim then None
    else
      var at := cur + HEAD + HeadAt(d, cur).len;
      if at + HEAD > lim then None
      else
        var next := ValueStop(d, lim, at + HEAD, MapValue(ty), HeadAt(d, at).len);
        if next.None? then None else PairsStop(d, lim, next.value, ty, end)
  }

  lemma AlternativeTypes(ty: Ty, index: nat)
    requires IsVariant(ty) && index < |Alts(ty)|
    ensures IsFlat(Alts(ty)[index]) || Alts(ty)[index] == TPtr(TObject)
  {
  }

  lemma {:induction false} PairsEnd(c: Classes, d: bytes, lim: nat, cur: nat, dep: nat, ty: Ty, end: nat, acc: Items)
    requires cur <= lim <= |d| && IsMap(ty) && ReadPairs(c, d, lim, cur, dep, ty, end, acc).Some?
    ensures PairsStop(d, lim, cur, ty, end) == Some(ReadPairs(c, d, lim, cur, dep, ty, end, acc).value.cur)
    decreases lim - cur, 0
  {
    hide Read, ReadPairs, HeadAt, Default, ValueStop, Emplace;
    PairsTurn(c, d, lim, cur, dep, ty, end, acc);
    if cur < end {
      var p := ReadPair(c, d, lim, cur, dep, ty).value;
      var at := cur + HEAD + HeadAt(d, cur).len;
      ValueEnds(c, d, lim, at + HEAD, dep, MapValue(ty), Default(c, MapValue(ty)), HeadAt(d, at).len);
      PairsEnd(c, d, lim, p.cur, dep, ty, end, Emplace(acc, p.key, p.v));
    }
  }

  lemma {:induction false} ValueEnds(c: Classes, d: bytes, lim: nat, cur: nat, dep: nat, ty: Ty, was: Value, len: nat)
    requires cur <= lim <= |d| && (ty.TBlob? || IsVariant(ty)) && Read(c, d, lim, cur, dep, ty, was, len).Some?
    ensures ValueStop(d, lim, cur, ty, len) == Some(Read(c, d, lim, cur, dep, ty, was, len).value.cur)
    decreases lim - cur, 1
  {
    hide Read, HeadAt, Default, PairsStop, Alts, UnLe;
    if ty.TBlob? {
      ReadOfFlat(c, d, lim, cur, dep, ty, was, len);
    } else {
      VariantRead(c, d, lim, cur, dep, ty, was, len);
      var index := UnLe(d[cur + HEAD..cur + 10]);
      if index < |Alts(ty)| {
        var alt, n := Alts(ty)[index], HeadAt(d, cur + 10).len;
        AlternativeTypes(ty, index);
        if IsFlat(alt) {
          ReadOfFlat(c, d, lim, cur + 16, dep, alt, Default(c, alt), n);
        } else {
          ObjectTurn(c, d, lim, cur + 16, dep, Default(c, alt), n);
          PairsEnd(c, d, lim, cur + 16, dep + 2, TObject, cur + 16 + n, []);
        }
      }
    }
  }

  lemma VariantRead(c: Classes, d: bytes, lim: nat, cur: nat, dep: nat, ty: Ty, was: Value, len: nat)
    requires cur <= lim <= |d| && IsVariant(ty) && Read(c, d, lim, cur, dep, ty, was, len).Some?
    ensures cur + 10 <= lim
    ensures var end, index := Read(c, d, lim, cur, dep, ty, was, len).value.cur, UnLe(d[cur + HEAD..cur + 10]);
            if index >= |Alts(ty)| then end == cur + 10
            else
              && cur + 16 <= lim
              && var alt := Alts(ty)[index];
                 var g := Read(c, d, lim, cur + 16, dep, alt, Default(c, alt), HeadAt(d, cur + 10).len);
                 g.Some? && g.value.cur == end
  {
    hide HeadAt, Default, Alts, UnLe;
    assert Read(c, d, lim, cur, dep, ty, was, len) == ReadVariant(c, d, lim, cur, dep, ty, was);
    hide Read;
  }

  /** A map that is read ends at its declared end exactly when its heads and variant indices lead there. */
  lemma MapEndsIff(c: Classes, d: bytes, lim: nat, cur: nat, dep: nat, ty: Ty, was: Value, len: nat)
    requires cur <= lim <= |d| && IsMap(ty)
    requires Read(c, d, lim, cur, dep, ty, was, len).Some?
    ensures var end := Read(c, d, lim, cur, dep, ty, was, len).value.cur;
            && PairsStop(d, lim, cur, ty, cur + len) == Some(end)
            && (end == cur + len <==> PairsStop(d, lim, cur, ty, cur + len) == Some(cur + len))
  {
    hide ReadPairs, PairsStop;
    PairsEnd(c, d, lim, cur, if ty.TObject? then dep + 1 else dep, ty, cur + len, AsPairs(was));
  }

  // ----- both conditions fail on some input

  /** A vector with a length of 1 takes the 6 bytes of an empty string. */
  lemma VectorMayPassItsEnd(c: Classes)
    ensures Read(c, Zeros(HEAD), HEAD, 0, 0, TVec(TText), List([]), 1) == Some(Got(List([Text([])]), HEAD))
  {
    var d := Zeros(HEAD);
    BlankHead();
    HeadBack(d, 0, 0, []);
    hide HeadAt, Tlv1, Zeros, Default;
    TextDefault(c);
    ReadOfFlat(c, d, HEAD, HEAD, 1, TText, Text([]), 0);
    assert d[HEAD..HEAD] == [] && ReadFlat(TText, Text([]), []) == Some(Text([])) by { EmptyText(); }
    assert Read(c, d, HEAD, HEAD, 1, TText, Text([]), 0) == Some(Got(Text([]), HEAD));
    assert Read(c, d, HEAD, 0, 0, TVec(TText), List([]), 1) == ReadItems(c, d, HEAD, 0, 1, TText, 1, []);
    ItemsTurn(c, d, HEAD, 0, 1, TText, 1, []);
    ItemsTurn(c, d, HEAD, HEAD, 1, TText, 1, [Text([])]);
    assert [] + [Text([])] == [Text([])];
  }

  /** A map with a length of 1 that takes the 12 bytes of an empty key and an empty value. */
  lemma MapMayPassItsEnd(c: Classes)
    ensures Read(c, Zeros(2 * HEAD), 2 * HEAD, 0, 0, TBlobMap, Dict(TAG_MAP_VALUE, []), 1) ==
            Some(Got(Dict(TAG_MAP_VALUE, [Pair([], Blob([]))]), 2 * HEAD))
  {
    var d, lim := Zeros(2 * HEAD), 2 * HEAD;
    BlankHead();
    assert d[0..HEAD] == Zeros(HEAD) && d[HEAD..lim] == Zeros(HEAD);
    HeadBack(d, 0, 0, []);
    HeadBack(d, HEAD, 0, []);
    hide HeadAt, Tlv1, Zeros;
    ReadOfFlat(c, d, lim, lim, 0, TBlob, Blob([]), 0);
    assert d[lim..lim] == [] && d[HEAD..HEAD] == [];
    assert Read(c, d, lim, lim, 0, TBlob, Blob([]), 0) == Some(Got(Blob([]), lim));
    var empty: Items := [];
    assert Read(c, d, lim, 0, 0, TBlobMap, Dict(TAG_MAP_VALUE, []), 1) ==
           ReadPairs(c, d, lim, 0, 0, TBlobMap, 1, empty);
    assert ReadPair(c, d, lim, 0, 0, TBlobMap) == Some(GotPair([], Blob([]), lim));
    assert Emplace(empty, [], Blob([])) == [Pair([], Blob([]))];
    NoPairsLeft(c, d, lim, lim, 0, TBlobMap, 1, [Pair([], Blob([]))]);
  }

  lemma EmptyText()
    ensures ReadFlat(TText, Text([]), []) == Some(Text([]))
  {
    var none: bytes := [];
    assert none + none == none;
  }

  lemma TextDefault(c: Classes)
    ensures Default(c, TText) == Text([])
  {
  }
}
