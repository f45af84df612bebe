/**
 Values whose bytes can never be read back, wherever they stand and whatever follows them: one of
 them makes every pointer, vector and structure around it unreadable too.
 */
module Unreadable {
  import opened Bytes
  import opened Assoc
  import opened Tlv
  import opened ReaderSpec
  import opened RoundTrip

  ghost predicate IsUnreadable(c: Classes, ty: Ty, v: Value)
  {
    forall d: bytes, lim: nat, cur: nat, dep: nat, was: Value ::
      InBuffer(d, lim, cur, Payload(v)) && dep <= MAX_DEPTH && Fresh(c, ty, was) ==>
        Read(c, d, lim, cur, dep, ty, was, |Payload(v)|) == None
  }

  lemma PointerIsUnreadable(c: Classes, elem: Ty, v: Value)
    requires IsUnreadable(c, elem, v)
    ensures IsUnreadable(c, TPtr(elem), v)
  {
    hide Payload, Fresh, Default, At;
    DefaultIsFresh(c, elem);
    forall d: bytes, lim: nat, cur: nat, dep: nat, was: Value
      | InBuffer(d, lim, cur, Payload(v)) && dep <= MAX_DEPTH && Fresh(c, TPtr(elem), was)
      ensures Read(c, d, lim, cur, dep, TPtr(elem), was, |Payload(v)|) == None
    {
      if dep < MAX_DEPTH {
        assert Read(c, d, lim, cur, dep + 1, elem, Default(c, elem), |Payload(v)|) == None;
      }
    }
  }

  lemma ItemIsUnreadable(c: Classes, d: bytes, lim: nat, cur: nat, dep: nat, elem: Ty, end: nat, acc: seq<Value>,
                         v: Value)
    requires IsUnreadable(c, elem, v) && !v.Null? && dep <= MAX_DEPTH && cur < end
    requires InBuffer(d, lim, cur, Enc(TAG_VECTOR_ITEM, v))
    ensures cur <= lim <= |d| && ReadItems(c, d, lim, cur, dep, elem, end, acc) == None
  {
    hide Read, Payload, Enc, Tlv1, HeadAt, Fresh, Default, At;
    EncBack(d, lim, cur, TAG_VECTOR_ITEM, v);
    DefaultIsFresh(c, elem);
    assert Read(c, d, lim, cur + HEAD, dep, elem, Default(c, elem), |Payload(v)|) == None;
  }

  lemma {:induction false} ItemsAreUnreadable(c: Classes, d: bytes, lim: nat, cur: nat, dep: nat, elem: Ty, end: nat,
                                              acc: seq<Value>, items: seq<Value>, j: nat)
    requires Good(c) && dep <= MAX_DEPTH && j < |items| && !items[j].Null? && IsUnreadable(c, elem, items[j])
    requires forall i :: 0 <= i < j ==> WellTyped(c, elem, items[i])
    requires InBuffer(d, lim, cur, EncItems(items)) && end == cur + |EncItems(items)|
    ensures cur <= lim <= |d| && ReadItems(c, d, lim, cur, dep, elem, end, acc) == None
    decreases j
  {
    hide ReadItems, InBuffer, Enc, Payload, Good, WellTyped, Norm, Need, IsUnreadable, EncItems, NormItems, NeedItems;
    ItemsUnfold(c, elem, items);
    Bounds(d, lim, cur, EncItems(items));
    var v, rest := items[0], items[1..];
    var next := Enc(TAG_VECTOR_ITEM, v);
    InBufferSplit(d, lim, cur, next, EncItems(rest));
    if v.Null? {
      NullHasNoBytes(c, elem, TAG_VECTOR_ITEM);
      ItemsAreUnreadable(c, d, lim, cur, dep, elem, end, acc, rest, j - 1);
    } else {
      EncLength(TAG_VECTOR_ITEM, v);
      if j == 0 {
        ItemIsUnreadable(c, d, lim, cur, dep, elem, end, acc, v);
      } else {
        ReadItemBack(c, d, lim, cur, dep, elem, end, acc, v);
        ItemsAreUnreadable(c, d, lim, cur + |next|, dep, elem, end, acc + [Norm(c, elem, v)], rest, j - 1);
      }
    }
  }

  /** A vector with an unreadable item behind well-typed ones. */
  lemma VectorIsUnreadable(c: Classes, elem: Ty, items: seq<Value>, j: nat)
    requires Good(c) && j < |items| && !items[j].Null? && IsUnreadable(c, elem, items[j])
    requires forall i :: 0 <= i < j ==> WellTyped(c, elem, items[i])
    ensures IsUnreadable(c, TVec(elem), List(items))
  {
    hide ReadItems, At, Good, WellTyped, EncItems, Fresh;
    ListPayload(items);
    hide Payload;
    forall d: bytes, lim: nat, cur: nat, dep: nat, was: Value
      | InBuffer(d, lim, cur, Payload(List(items))) && dep <= MAX_DEPTH && Fresh(c, TVec(elem), was)
      ensures Read(c, d, lim, cur, dep, TVec(elem), was, |Payload(List(items))|) == None
    {
      if dep < MAX_DEPTH {
        ItemsAreUnreadable(c, d, lim, cur, dep + 1, elem, cur + |EncItems(items)|, AsItems(was), items, j);
      }
    }
  }

  lemma ListPayload(items: seq<Value>)
    ensures Payload(List(items)) == EncItems(items)
  {
  }

  lemma FieldIsUnreadable(c: Classes, d: bytes, lim: nat, cur: nat, dep: nat, kind: Kind, now: seq<Value>, i: nat,
                          x: Value)
    requires Good(c) && dep <= MAX_DEPTH && i < |c.types(kind)| == |now| == |c.initial(kind)|
    requires IsUnreadable(c, c.types(kind)[i], x) && !x.Null? && !x.Mono? && !x.Nullptr?
    requires now[i] == c.initial(kind)[i]
    requires InBuffer(d, lim, cur, Enc(TagOf(i), x))
    ensures cur <= lim <= |d| && ReadField(c, d, lim, cur, dep, kind, now) == None
  {
    hide Read, Payload, Enc, Tlv1, HeadAt, Fresh, Good, At;
    FieldIsFresh(c, kind, i);
    EncBack(d, lim, cur, TagOf(i), x);
    assert Read(c, d, lim, cur + HEAD, dep, c.types(kind)[i], now[i], |Payload(x)|) == None;
  }

  /** The fields named before place j are well typed, and the one at place j is unreadable. */
  ghost predicate SpoiledAt(c: Classes, kind: Kind, order: seq<nat>, fields: seq<Value>, j: nat)
  {
    && |fields| == |c.types(kind)| && IsPermutation(order, |fields|) && j < |fields|
    && (forall l :: 0 <= l <= j ==> !fields[order[l]].Mono? && !fields[order[l]].Nullptr?)
    && (forall l :: 0 <= l < j ==> WellTyped(c, c.types(kind)[order[l]], fields[order[l]]))
    && !fields[order[j]].Null? && IsUnreadable(c, c.types(kind)[order[j]], fields[order[j]])
  }

  lemma SpoiledPlace(c: Classes, kind: Kind, order: seq<nat>, fields: seq<Value>, j: nat, m: nat)
    requires SpoiledAt(c, kind, order, fields, j) && m <= j
    ensures |fields| == |c.types(kind)| && IsPermutation(order, |fields|) && m < |order| == |fields| &&
            order[m] < |fields|
    ensures !fields[order[m]].Mono? && !fields[order[m]].Nullptr?
    ensures m < j ==> WellTyped(c, c.types(kind)[order[m]], fields[order[m]])
    ensures m == j ==> !fields[order[m]].Null? && IsUnreadable(c, c.types(kind)[order[m]], fields[order[m]])
  {
    hide WellTyped, IsUnreadable;
  }

  lemma {:induction false} FieldsAreUnreadable(c: Classes, d: bytes, lim: nat, cur: nat, dep: nat, kind: Kind,
                                               fields: seq<Value>, order: seq<nat>, now: seq<Value>, m: nat, j: nat)
    requires Good(c) && dep <= MAX_DEPTH && SpoiledAt(c, kind, order, fields, j) && m <= j
    requires |now| == |fields| == |c.initial(kind)| && |order| == |fields|
    requires forall l :: m <= l < |order| ==> order[l] < |fields| && now[order[l]] == c.initial(kind)[order[l]]
    requires InBuffer(d, lim, cur, EncFields(order[m..], fields))
    ensures cur <= lim <= |d| && ReadFields(c, d, lim, cur, dep, kind, now) == None
    decreases j - m
  {
    hide ReadField, ReadFields, InBuffer, Enc, Payload, Good, Norm, Need, WellTyped, IsUnreadable, SpoiledAt, EncFields;
    hide NeedFields;
    SpoiledPlace(c, kind, order, fields, j, m);
    Bounds(d, lim, cur, EncFields(order[m..], fields));
    var i, rest := order[m], order[m + 1..];
    var x, next := fields[i], Enc(TagOf(i), fields[i]);
    FieldsUnfold(c, kind, fields, order, m);
    InBufferSplit(d, lim, cur, next, EncFields(rest, fields));
    if x.Null? {
      NullHasNoBytes(c, c.types(kind)[i], TagOf(i));
      FieldsAreUnreadable(c, d, lim, cur, dep, kind, fields, order, now, m + 1, j);
    } else {
      EncLength(TagOf(i), x);
      FieldsTurn(c, d, lim, cur, dep, kind, now);
      if m == j {
        FieldIsUnreadable(c, d, lim, cur, dep, kind, now, i, x);
      } else {
        ReadFieldBack(c, d, lim, cur, dep, kind, now, i, x);
        var later := now[i := Norm(c, c.types(kind)[i], x)];
        OthersStay(order, now, later, i, m);
        FieldsAreUnreadable(c, d, lim, cur + |next|, dep, kind, fields, order, later, m + 1, j);
      }
    }
  }

  lemma OthersStay(order: seq<nat>, now: seq<Value>, later: seq<Value>, i: nat, m: nat)
    requires IsPermutation(order, |now|) && m < |order| && i == order[m] && |later| == |now|
    requires forall l :: 0 <= l < |now| && l != i ==> later[l] == now[l]
    ensures forall l :: m + 1 <= l < |order| ==> later[order[l]] == now[order[l]]
  {
  }

  lemma StructIsUnreadable(c: Classes, kind: Kind, order: seq<nat>, fields: seq<Value>, j: nat)
    requires Good(c) && SpoiledAt(c, kind, order, fields, j)
    ensures IsUnreadable(c, TStruct(kind), Struct(order, fields))
  {
    hide ReadFields, At, Good, SpoiledAt, EncFields;
    SpoiledPlace(c, kind, order, fields, j, j);
    FieldIsFresh(c, kind, order[j]);
    StructPayload(order, fields);
    hide Payload;
    var v := Struct(order, fields);
    forall d: bytes, lim: nat, cur: nat, dep: nat, was: Value
      | InBuffer(d, lim, cur, Payload(v)) && dep <= MAX_DEPTH && Fresh(c, TStruct(kind), was)
      ensures Read(c, d, lim, cur, dep, TStruct(kind), was, |Payload(v)|) == None
    {
      assert order[0..] == order;
      FieldsAreUnreadable(c, d, cur + |Payload(v)|, cur, dep, kind, fields, order, c.initial(kind), 0, j);
    }
  }

  lemma StructPayload(order: seq<nat>, fields: seq<Value>)
    ensures Payload(Struct(order, fields)) == EncFields(order, fields)
  {
  }
}
