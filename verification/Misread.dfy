/**
 Values that are read as something else, wherever they stand and whatever follows them: the reader
 consumes exactly their bytes, if it succeeds, and a vector or a structure around them then holds
 something else at their place.
 */
module Misread {
  import opened Bytes
  import opened Assoc
  import opened Tlv
  import opened ReaderSpec
  import opened RoundTrip
  import opened Unreadable
  import opened Ends
  import opened PasteModel

  /** What a value should be read as: an entry, a list with something at one place, or a record. */
  datatype Wanted = AnEntry(e: Entry) | AnItem(pos: nat, item: Wanted) | ARecord(r: Record)

  predicate Missed(x: Value, w: Wanted)
    decreases w
  {
    match w
    case AnEntry(e) => AsEntry(x) != Some(e)
    case AnItem(pos, item) => x.List? && pos < |x.items| && Missed(x.items[pos], item)
    case ARecord(r) => AsRecordValue(x) != Some(r)
  }

  predicate MissedOrNone(g: Option<Got>, end: nat, w: Wanted) { g.Some? ==> g.value.cur == end && Missed(g.value.v, w) }

  ghost predicate IsMisread(c: Classes, ty: Ty, v: Value, w: Wanted)
  {
    forall d: bytes, lim: nat, cur: nat, dep: nat, was: Value ::
      InBuffer(d, lim, cur, Payload(v)) && dep <= MAX_DEPTH && Fresh(c, ty, was) ==>
        MissedOrNone(Read(c, d, lim, cur, dep, ty, was, |Payload(v)|), cur + |Payload(v)|, w)
  }

  lemma PointerIsMisread(c: Classes, elem: Ty, v: Value, w: Wanted)
    requires IsMisread(c, elem, v, w)
    ensures IsMisread(c, TPtr(elem), v, w)
  {
    hide Payload, Fresh, Default, At, Missed;
    DefaultIsFresh(c, elem);
    forall d: bytes, lim: nat, cur: nat, dep: nat, was: Value
      | InBuffer(d, lim, cur, Payload(v)) && dep <= MAX_DEPTH && Fresh(c, TPtr(elem), was)
      ensures MissedOrNone(Read(c, d, lim, cur, dep, TPtr(elem), was, |Payload(v)|), cur + |Payload(v)|, w)
    {
      if dep < MAX_DEPTH {
        assert MissedOrNone(Read(c, d, lim, cur, dep + 1, elem, Default(c, elem), |Payload(v)|), cur + |Payload(v)|, w);
      }
    }
  }

  // ----- vectors

  /** The heads of the items of a vector lead to its end, whatever the items are read as. */
  lemma {:induction false} ItemsLand(c: Classes, d: bytes, lim: nat, cur: nat, elem: Ty, end: nat, items: seq<Value>)
    requires InBuffer(d, lim, cur, EncItems(items)) && end == cur + |EncItems(items)|
    ensures cur <= lim <= |d| && HeadsStop(d, lim, cur, end) == Some(end)
    decreases |items|
  {
    hide InBuffer, EncItems, Enc, Payload, HeadAt, NormItems, NeedItems, Norm, Need;
    ItemsUnfold(c, elem, items);
    Bounds(d, lim, cur, EncItems(items));
    if items != [] {
      var v, rest := items[0], items[1..];
      InBufferSplit(d, lim, cur, Enc(TAG_VECTOR_ITEM, v), EncItems(rest));
      if v.Null? {
        NullHasNoBytes(c, elem, TAG_VECTOR_ITEM);
        ItemsLand(c, d, lim, cur, elem, end, rest);
      } else {
        EncBack(d, lim, cur, TAG_VECTOR_ITEM, v);
        ItemsLand(c, d, lim, cur + |Enc(TAG_VECTOR_ITEM, v)|, elem, end, rest);
      }
    }
  }

  /** What has been read stays in front. */
  lemma {:induction false} ItemsStay(c: Classes, d: bytes, lim: nat, cur: nat, dep: nat, elem: Ty, end: nat,
                                     acc: seq<Value>)
    requires cur <= lim <= |d|
    ensures var g := ReadItems(c, d, lim, cur, dep, elem, end, acc);
            g.Some? ==> g.value.v.List? && |acc| <= |g.value.v.items| && g.value.v.items[..|acc|] == acc
    decreases lim - cur
  {
    hide ReadItems, Read, HeadAt, Default;
    ItemsTurn(c, d, lim, cur, dep, elem, end, acc);
    if cur < end && cur + HEAD <= lim {
      var g := Read(c, d, lim, cur + HEAD, dep, elem, Default(c, elem), HeadAt(d, cur).len);
      if g.Some? {
        ItemsStay(c, d, lim, g.value.cur, dep, elem, end, acc + [g.value.v]);
        FrontOfFront(ReadItems(c, d, lim, cur, dep, elem, end, acc), acc, g.value.v);
      }
    }
  }

  lemma FrontOfFront(r: Option<Got>, acc: seq<Value>, v: Value)
    requires r.Some? ==> r.value.v.List? && |acc| + 1 <= |r.value.v.items| && r.value.v.items[..|acc| + 1] == acc + [v]
    ensures r.Some? ==> r.value.v.items[..|acc|] == acc
  {
    if r.Some? {
      assert r.value.v.items[..|acc|] == r.value.v.items[..|acc| + 1][..|acc|];
    }
  }

  ghost predicate MissedItem(g: Option<Got>, pos: nat, w: Wanted)
  {
    g.Some? ==> g.value.v.List? && pos < |g.value.v.items| && Missed(g.value.v.items[pos], w)
  }

  lemma ItemIsMisread(c: Classes, d: bytes, lim: nat, cur: nat, dep: nat, elem: Ty, end: nat, acc: seq<Value>, v: Value,
                      w: Wanted)
    requires IsMisread(c, elem, v, w) && !v.Null? && dep <= MAX_DEPTH && cur < end
    requires InBuffer(d, lim, cur, Enc(TAG_VECTOR_ITEM, v))
    ensures cur <= lim <= |d| && MissedItem(ReadItems(c, d, lim, cur, dep, elem, end, acc), |acc|, w)
  {
    hide Read, ReadItems, Payload, Enc, HeadAt, Fresh, Default, Missed, InBuffer;
    EncBack(d, lim, cur, TAG_VECTOR_ITEM, v);
    DefaultIsFresh(c, elem);
    ItemsTurn(c, d, lim, cur, dep, elem, end, acc);
    var g := Read(c, d, lim, cur + HEAD, dep, elem, Default(c, elem), |Payload(v)|);
    assert MissedOrNone(g, cur + HEAD + |Payload(v)|, w);
    if g.Some? {
      ItemsStay(c, d, lim, g.value.cur, dep, elem, end, acc + [g.value.v]);
      PlaceInFront(ReadItems(c, d, lim, cur, dep, elem, end, acc), acc, g.value.v);
    }
  }

  lemma PlaceInFront(r: Option<Got>, acc: seq<Value>, v: Value)
    requires r.Some? ==> r.value.v.List? && |acc| + 1 <= |r.value.v.items| && r.value.v.items[..|acc| + 1] == acc + [v]
    ensures r.Some? ==> r.value.v.items[|acc|] == v
  {
    if r.Some? {
      assert r.value.v.items[|acc|] == r.value.v.items[..|acc| + 1][|acc|];
    }
  }

  /** How many of the items are written. */
  function Present(items: seq<Value>): nat
  {
    if items == [] then 0 else (if items[0].Null? then 0 else 1) + Present(items[1..])
  }

  /** Items whose heads tell where they end keep the vector in step, whatever they are read as. */
  lemma {:induction false} ItemsAreMisread(c: Classes, d: bytes, lim: nat, cur: nat, dep: nat, elem: Ty, end: nat,
                                           acc: seq<Value>, items: seq<Value>, j: nat, w: Wanted)
    requires Exact(elem) && dep <= MAX_DEPTH && j < |items| && !items[j].Null? && IsMisread(c, elem, items[j], w)
    requires InBuffer(d, lim, cur, EncItems(items)) && end == cur + |EncItems(items)|
    ensures cur <= lim <= |d|
    ensures MissedItem(ReadItems(c, d, lim, cur, dep, elem, end, acc), |acc| + Present(items[..j]), w)
    decreases j
  {
    hide ReadItems, Read, HeadAt, Default, InBuffer, Enc, Payload, Norm, Need, IsMisread, EncItems, NormItems;
    hide NeedItems, Missed, Exact;
    ItemsUnfold(c, elem, items);
    Bounds(d, lim, cur, EncItems(items));
    var v, rest := items[0], items[1..];
    InBufferSplit(d, lim, cur, Enc(TAG_VECTOR_ITEM, v), EncItems(rest));
    assert j > 0 ==> items[..j][1..] == rest[..j - 1];
    if v.Null? {
      NullHasNoBytes(c, elem, TAG_VECTOR_ITEM);
      ItemsAreMisread(c, d, lim, cur, dep, elem, end, acc, rest, j - 1, w);
    } else {
      EncBack(d, lim, cur, TAG_VECTOR_ITEM, v);
      if j == 0 {
        ItemIsMisread(c, d, lim, cur, dep, elem, end, acc, v, w);
      } else {
        ItemsTurn(c, d, lim, cur, dep, elem, end, acc);
        var g := Read(c, d, lim, cur + HEAD, dep, elem, Default(c, elem), |Payload(v)|);
        if g.Some? {
          ExactEnds(c, d, lim, cur + HEAD, dep, elem, Default(c, elem), |Payload(v)|);
          ItemsAreMisread(c, d, lim, g.value.cur, dep, elem, end, acc + [g.value.v], rest, j - 1, w);
        }
      }
    }
  }

  lemma VectorMissed(c: Classes, d: bytes, lim: nat, cur: nat, dep: nat, elem: Ty, was: Value, items: seq<Value>,
                     j: nat, w: Wanted)
    requires Exact(elem) && j < |items| && !items[j].Null? && IsMisread(c, elem, items[j], w)
    requires InBuffer(d, lim, cur, Payload(List(items))) && dep <= MAX_DEPTH && Fresh(c, TVec(elem), was)
    ensures cur <= lim <= |d|
    ensures MissedOrNone(Read(c, d, lim, cur, dep, TVec(elem), was, |Payload(List(items))|),
                         cur + |Payload(List(items))|, AnItem(Present(items[..j]), w))
  {
    hide ReadItems, At, EncItems, Present, Fresh, HeadsStop, Exact, IsMisread, Missed;
    ListPayload(items);
    hide Payload;
    var len, pos := |Payload(List(items))|, Present(items[..j]);
    var g := Read(c, d, lim, cur, dep, TVec(elem), was, len);
    if g.Some? {
      FreshVector(c, elem, was);
      ItemsLand(c, d, lim, cur, elem, cur + len, items);
      VectorEndsIff(c, d, lim, cur, dep, elem, was, len);
      ItemsAreMisread(c, d, lim, cur, dep + 1, elem, cur + len, [], items, j, w);
      MissedInList(g.value.v, pos, w);
    }
  }

  /** A vector with a misread item, whatever the other items are. */
  lemma VectorIsMisread(c: Classes, elem: Ty, items: seq<Value>, j: nat, w: Wanted)
    requires Exact(elem) && j < |items| && !items[j].Null? && IsMisread(c, elem, items[j], w)
    ensures IsMisread(c, TVec(elem), List(items), AnItem(Present(items[..j]), w))
  {
    hide Read, InBuffer, Payload, Present, Fresh, Exact, MissedOrNone;
    forall d: bytes, lim: nat, cur: nat, dep: nat, was: Value
      | InBuffer(d, lim, cur, Payload(List(items))) && dep <= MAX_DEPTH && Fresh(c, TVec(elem), was)
      ensures cur <= lim <= |d|
      ensures MissedOrNone(Read(c, d, lim, cur, dep, TVec(elem), was, |Payload(List(items))|),
                           cur + |Payload(List(items))|, AnItem(Present(items[..j]), w))
    {
      VectorMissed(c, d, lim, cur, dep, elem, was, items, j, w);
    }
  }

  lemma FreshVector(c: Classes, elem: Ty, was: Value)
    requires Fresh(c, TVec(elem), was)
    ensures AsItems(was) == []
  {
  }

  lemma MissedInList(x: Value, pos: nat, w: Wanted)
    requires x.List? && pos < |x.items| && Missed(x.items[pos], w)
    ensures Missed(x, AnItem(pos, w))
  {
  }

  // ----- structures

  ghost predicate FieldOk(c: Classes, kind: Kind, i: nat, x: Value)
  {
    i < |c.types(kind)| && WellTyped(c, c.types(kind)[i], x) && !x.Mono? && !x.Nullptr?
  }

  lemma RangeUnfold(c: Classes, kind: Kind, fields: seq<Value>, order: seq<nat>, m: nat, n: nat)
    requires IsPermutation(order, |fields|) && m < n <= |fields| == |c.types(kind)|
    ensures var i := order[m];
            && EncFields(order[m..n], fields) == Enc(TagOf(i), fields[i]) + EncFields(order[m + 1..n], fields)
            && NeedFields(c, kind, order[m..n], fields) ==
               Max(Need(c, c.types(kind)[i], fields[i]), NeedFields(c, kind, order[m + 1..n], fields))
  {
    hide Enc, Need;
    assert order[m..n][0] == order[m] && order[m..n][1..] == order[m + 1..n];
  }

  lemma RangeEnds(c: Classes, kind: Kind, fields: seq<Value>, order: seq<nat>, m: nat)
    requires IsPermutation(order, |fields|) && m <= |fields| == |c.types(kind)|
    ensures EncFields(order[m..m], fields) == [] && NeedFields(c, kind, order[m..m], fields) == 0
  {
  }

  /** The bytes of all fields from place m on are those up to place n and those from there on. */
  lemma {:induction false} RangeSplits(c: Classes, kind: Kind, fields: seq<Value>, order: seq<nat>, m: nat, n: nat)
    requires IsPermutation(order, |fields|) && m <= n <= |fields| == |c.types(kind)|
    ensures EncFields(order[m..], fields) == EncFields(order[m..n], fields) + EncFields(order[n..], fields)
    decreases n - m
  {
    hide EncFields, NeedFields, Enc, Need, IsPermutation;
    PlaceWithin(order, |fields|, m);
    if m == n {
      RangeEnds(c, kind, fields, order, m);
      Regroup([], [], EncFields(order[n..], fields));
    } else {
      FieldsUnfold(c, kind, fields, order, m);
      RangeUnfold(c, kind, fields, order, m, n);
      RangeSplits(c, kind, fields, order, m + 1, n);
      Regroup(Enc(TagOf(order[m]), fields[order[m]]), EncFields(order[m + 1..n], fields),
              EncFields(order[n..], fields));
    }
  }

  lemma PlaceWithin(order: seq<nat>, n: nat, m: nat)
    requires IsPermutation(order, n)
    ensures |order| == n && (m < n ==> order[m] < n)
  {
  }

  /** Fields from place m to place n of any write order are read into their places, whatever field i holds. */
  lemma {:induction false} ReadRange(c: Classes, d: bytes, lim: nat, cur: nat, dep: nat, kind: Kind, fields: seq<Value>,
                                     order: seq<nat>, m: nat, n: nat, i: nat, y: Value)
    requires Good(c) && dep <= MAX_DEPTH && m <= n <= |fields| == |c.types(kind)| == |c.initial(kind)|
    requires IsPermutation(order, |fields|) && i < |fields|
    requires forall l :: m <= l < n ==>
               order[l] != i && order[l] < |fields| && FieldOk(c, kind, order[l], fields[order[l]])
    requires InBuffer(d, lim, cur, EncFields(order[m..n], fields))
    ensures cur + |EncFields(order[m..n], fields)| <= lim <= |d|
    ensures ReadFields(c, d, lim, cur, dep, kind, Half(c, kind, fields, order[..m])[i := y]) ==
            if dep + NeedFields(c, kind, order[m..n], fields) <= MAX_DEPTH
            then ReadFields(c, d, lim, cur + |EncFields(order[m..n], fields)|, dep, kind,
                            Half(c, kind, fields, order[..n])[i := y])
            else None
    decreases n - m
  {
    hide ReadField, ReadFields, InBuffer, Enc, Payload, Good, Fresh, Norm, Need, WellTyped, Half, IsPermutation;
    hide EncFields, NeedFields;
    PlaceWithin(order, |fields|, m);
    Bounds(d, lim, cur, EncFields(order[m..n], fields));
    if m == n {
      RangeEnds(c, kind, fields, order, m);
    } else {
      var k, half := order[m], Half(c, kind, fields, order[..m]);
      var now, x, next := half[i := y], fields[k], Enc(TagOf(k), fields[k]);
      RangeUnfold(c, kind, fields, order, m, n);
      HalfStep(c, kind, fields, order, m);
      InBufferSplit(d, lim, cur, next, EncFields(order[m + 1..n], fields));
      SwapUpdates(half, k, Norm(c, c.types(kind)[k], x), i, y);
      if x.Null? {
        NullHasNoBytes(c, c.types(kind)[k], TagOf(k));
        NullStays(c, kind, k, now);
      } else {
        ReadFieldBack(c, d, lim, cur, dep, kind, now, k, x);
        EncLength(TagOf(k), x);
        FieldsTurn(c, d, lim, cur, dep, kind, now);
      }
      ReadRange(c, d, lim, cur + |next|, dep, kind, fields, order, m + 1, n, i, y);
    }
  }

  lemma SwapUpdates(s: seq<Value>, i: nat, x: Value, k: nat, y: Value)
    requires i < |s| && k < |s| && i != k
    ensures s[i := x][k := y] == s[k := y][i := x]
  {
  }

  /** Whatever is read for the value, the reader is right behind its bytes then. */
  ghost predicate EndsRight(c: Classes, ty: Ty, v: Value)
  {
    forall d: bytes, lim: nat, cur: nat, dep: nat, was: Value ::
      InBuffer(d, lim, cur, Payload(v)) && dep <= MAX_DEPTH && Fresh(c, ty, was) ==>
        var g := Read(c, d, lim, cur, dep, ty, was, |Payload(v)|); g.Some? ==> g.value.cur == cur + |Payload(v)|
  }

  lemma MisreadHere(c: Classes, d: bytes, lim: nat, cur: nat, dep: nat, ty: Ty, was: Value, v: Value, w: Wanted)
    requires IsMisread(c, ty, v, w) && InBuffer(d, lim, cur, Payload(v)) && dep <= MAX_DEPTH && Fresh(c, ty, was)
    ensures cur <= lim <= |d| && MissedOrNone(Read(c, d, lim, cur, dep, ty, was, |Payload(v)|), cur + |Payload(v)|, w)
  {
    hide Read, Payload, Fresh, MissedOrNone;
  }

  lemma MisreadEndsRight(c: Classes, ty: Ty, v: Value, w: Wanted)
    requires IsMisread(c, ty, v, w)
    ensures EndsRight(c, ty, v)
  {
    hide Read, Payload, InBuffer, Fresh, Missed;
  }

  /** All fields but the one at place j of the write order are well typed, and that one ends where it should. */
  ghost predicate TypedBut(c: Classes, kind: Kind, order: seq<nat>, fields: seq<Value>, j: nat)
  {
    && |fields| == |c.types(kind)| && IsPermutation(order, |fields|) && j < |fields|
    && (forall l :: 0 <= l < |fields| && l != order[j] ==> FieldOk(c, kind, l, fields[l]))
    && !fields[order[j]].Null? && !fields[order[j]].Mono? && !fields[order[j]].Nullptr?
    && EndsRight(c, c.types(kind)[order[j]], fields[order[j]])
  }

  lemma PlaceOfOther(c: Classes, kind: Kind, order: seq<nat>, fields: seq<Value>, j: nat)
    requires TypedBut(c, kind, order, fields, j)
    ensures |fields| == |c.types(kind)| && IsPermutation(order, |fields|) && j < |order| == |fields| &&
            order[j] < |fields|
    ensures forall l :: 0 <= l < |fields| && l != j ==>
              order[l] != order[j] && order[l] < |fields| && FieldOk(c, kind, order[l], fields[order[l]])
    ensures !fields[order[j]].Null? && !fields[order[j]].Mono? && !fields[order[j]].Nullptr?
    ensures EndsRight(c, c.types(kind)[order[j]], fields[order[j]])
  {
    hide FieldOk, EndsRight;
  }

  /** A field in the buffer is read by its own type, and put in its place. */
  lemma FieldIsRead(c: Classes, d: bytes, lim: nat, cur: nat, dep: nat, kind: Kind, now: seq<Value>, i: nat, x: Value)
    requires Good(c) && i < |c.types(kind)| == |now| && !x.Null? && !x.Mono? && !x.Nullptr?
    requires InBuffer(d, lim, cur, Enc(TagOf(i), x))
    ensures InBuffer(d, lim, cur + HEAD, Payload(x)) && cur + HEAD <= lim <= |d|
    ensures var g := Read(c, d, lim, cur + HEAD, dep, c.types(kind)[i], now[i], |Payload(x)|);
            ReadField(c, d, lim, cur, dep, kind, now) ==
              if g.None? then None else Some(Step(now[i := g.value.v], g.value.cur))
  {
    hide Read, Payload, Enc, Tlv1, HeadAt, Fresh, Good, At;
    FieldIsFresh(c, kind, i);
    EncBack(d, lim, cur, TagOf(i), x);
  }

  /** Every field is read into its place, whatever is read for the one at place j. */
  lemma FieldsAround(c: Classes, d: bytes, lim: nat, cur: nat, dep: nat, kind: Kind, fields: seq<Value>,
                     order: seq<nat>, j: nat) returns (at: nat)
    requires Good(c) && TypedBut(c, kind, order, fields, j) && dep <= MAX_DEPTH && j < |fields| == |c.initial(kind)|
    requires InBuffer(d, lim, cur, EncFields(order, fields))
    ensures cur + |EncFields(order, fields)| <= lim <= |d| && |order| == |fields| == |c.types(kind)| &&
            order[j] < |fields|
    ensures InBuffer(d, lim, at, Payload(fields[order[j]])) && at <= lim
    ensures var i, n := order[j], |fields|;
            var g := Read(c, d, lim, at, dep, c.types(kind)[i], c.initial(kind)[i], |Payload(fields[i])|);
            ReadFields(c, d, lim, cur, dep, kind, c.initial(kind)) ==
            if g.Some? && dep + NeedFields(c, kind, order[0..j], fields) <= MAX_DEPTH &&
               dep + NeedFields(c, kind, order[j + 1..n], fields) <= MAX_DEPTH
            then ReadFields(c, d, lim, cur + |EncFields(order, fields)|, dep, kind,
                            NormFields(c, kind, fields)[i := g.value.v])
            else None
  {
    hide Read, ReadField, ReadFields, InBuffer, Enc, Payload, Good, Fresh, Norm, NormFields, NeedFields, Need, FieldOk;
    hide Half;
    hide TypedBut, IsPermutation, EncFields, EndsRight;
    PlaceOfOther(c, kind, order, fields, j);
    Bounds(d, lim, cur, EncFields(order, fields));
    var i, n := order[j], |fields|;
    var x, one := fields[i], Enc(TagOf(i), fields[i]);
    var before, behind := EncFields(order[0..j], fields), EncFields(order[j + 1..n], fields);
    HalfEnds(c, kind, fields, order);
    RangeSplits(c, kind, fields, order, 0, j);
    FieldsUnfold(c, kind, fields, order, j);
    assert order[j + 1..] == order[j + 1..n];
    InBufferSplit(d, lim, cur, before, one + behind);
    InBufferSplit(d, lim, cur + |before|, one, behind);
    HalfStep(c, kind, fields, order, j);
    var half := Half(c, kind, fields, order[..j]);
    assert half[i := c.initial(kind)[i]] == half && c.initial(kind)[i := c.initial(kind)[i]] == c.initial(kind);
    ReadRange(c, d, lim, cur, dep, kind, fields, order, 0, j, i, c.initial(kind)[i]);
    FieldsTurn(c, d, lim, cur + |before|, dep, kind, half);
    EncLength(TagOf(i), x);
    FieldIsRead(c, d, lim, cur + |before|, dep, kind, half, i, x);
    at := cur + |before| + HEAD;
    FieldIsFresh(c, kind, i);
    var g := Read(c, d, lim, at, dep, c.types(kind)[i], c.initial(kind)[i], |Payload(x)|);
    if g.Some? {
      RightEnd(c, d, lim, at, dep, c.types(kind)[i], c.initial(kind)[i], x);
      assert half[i := Norm(c, c.types(kind)[i], x)][i := g.value.v] == half[i := g.value.v];
      ReadRange(c, d, lim, cur + |before| + |one|, dep, kind, fields, order, j + 1, n, i, g.value.v);
    }
  }

  lemma RightEnd(c: Classes, d: bytes, lim: nat, cur: nat, dep: nat, ty: Ty, was: Value, v: Value)
    requires EndsRight(c, ty, v) && InBuffer(d, lim, cur, Payload(v)) && dep <= MAX_DEPTH && Fresh(c, ty, was)
    ensures cur <= lim <= |d|
    ensures var g := Read(c, d, lim, cur, dep, ty, was, |Payload(v)|); g.Some? ==> g.value.cur == cur + |Payload(v)|
  {
    hide Read, Payload, Fresh;
  }

  /** A structure whose limit is at its end, read around the field at place j. */
  lemma StructAround(c: Classes, d: bytes, lim: nat, cur: nat, dep: nat, kind: Kind, order: seq<nat>,
                     fields: seq<Value>, j: nat, was: Value) returns (at: nat, end: nat)
    requires Good(c) && TypedBut(c, kind, order, fields, j) && dep <= MAX_DEPTH && Fresh(c, TStruct(kind), was)
    requires InBuffer(d, lim, cur, Payload(Struct(order, fields))) && j < |fields|
    ensures |order| == |fields| == |c.types(kind)| && order[j] < |fields|
    ensures end == cur + |Payload(Struct(order, fields))| <= lim <= |d| && |c.initial(kind)| == |fields|
    ensures InBuffer(d, end, at, Payload(fields[order[j]])) && at <= end
    ensures var i, n := order[j], |fields|;
            var g := Read(c, d, end, at, dep, c.types(kind)[i], c.initial(kind)[i], |Payload(fields[i])|);
            Read(c, d, lim, cur, dep, TStruct(kind), was, |Payload(Struct(order, fields))|) ==
            if g.Some? && dep + NeedFields(c, kind, order[0..j], fields) <= MAX_DEPTH &&
               dep + NeedFields(c, kind, order[j + 1..n], fields) <= MAX_DEPTH
            then Some(Got(Struct(c.order(kind), c.finish(kind, NormFields(c, kind, fields)[i := g.value.v])), end))
            else None
  {
    hide ReadFields, TypedBut, EncFields, At, Good, NormFields, NeedFields, IsPermutation, FieldOk, EndsRight;
    PlaceOfOther(c, kind, order, fields, j);
    FieldIsFresh(c, kind, order[j]);
    StructPayload(order, fields);
    hide Payload;
    end := cur + |EncFields(order, fields)|;
    at := FieldsAround(c, d, end, cur, dep, kind, fields, order, j);
    assert Read(c, d, lim, cur, dep, TStruct(kind), was, |EncFields(order, fields)|) ==
           ReadFields(c, d, end, cur, dep, kind, c.initial(kind));
    var i := order[j];
    hide Read;
    var g := Read(c, d, end, at, dep, c.types(kind)[i], c.initial(kind)[i], |Payload(fields[i])|);
    if g.Some? {
      FieldsTurn(c, d, end, end, dep, kind, NormFields(c, kind, fields)[i := g.value.v]);
    }
  }

  // ----- values read as one thing wherever they stand

  /** Wherever it stands, v is read as x, with all its bytes, or not at all for want of guards. */
  ghost predicate IsReadAs(c: Classes, ty: Ty, v: Value, x: Value, most: nat)
  {
    forall d: bytes, lim: nat, cur: nat, dep: nat, was: Value ::
      InBuffer(d, lim, cur, Payload(v)) && dep <= MAX_DEPTH && Fresh(c, ty, was) ==>
        Read(c, d, lim, cur, dep, ty, was, |Payload(v)|) == Outcome(dep + most <= MAX_DEPTH, x, cur + |Payload(v)|)
  }

  lemma ReadAsAt(c: Classes, d: bytes, lim: nat, cur: nat, dep: nat, ty: Ty, was: Value, v: Value, x: Value, most: nat)
    requires IsReadAs(c, ty, v, x, most) && InBuffer(d, lim, cur, Payload(v)) && dep <= MAX_DEPTH && Fresh(c, ty, was)
    ensures cur <= lim <= |d|
    ensures Read(c, d, lim, cur, dep, ty, was, |Payload(v)|) == Outcome(dep + most <= MAX_DEPTH, x, cur + |Payload(v)|)
  {
    hide Read, Payload, Fresh;
  }

  lemma ReadAsEndsRight(c: Classes, ty: Ty, v: Value, x: Value, most: nat)
    requires IsReadAs(c, ty, v, x, most)
    ensures EndsRight(c, ty, v)
  {
    hide Read, Payload, InBuffer, Fresh;
  }

  /** Read as one value is misread for everything else. */
  lemma ReadAsIsMisread(c: Classes, ty: Ty, v: Value, x: Value, most: nat, w: Wanted)
    requires IsReadAs(c, ty, v, x, most) && Missed(x, w)
    ensures IsMisread(c, ty, v, w)
  {
    hide Read, Payload, InBuffer, Fresh, Missed;
  }

  lemma TypedIsReadAs(c: Classes, ty: Ty, v: Value)
    requires Good(c) && WellTyped(c, ty, v) && !v.Null?
    ensures IsReadAs(c, ty, v, Norm(c, ty, v), Need(c, ty, v))
  {
    hide Read, Payload, At, Fresh, Good, WellTyped, Norm, Need;
    forall d: bytes, lim: nat, cur: nat, dep: nat, was: Value
      | InBuffer(d, lim, cur, Payload(v)) && dep <= MAX_DEPTH && Fresh(c, ty, was)
      ensures Read(c, d, lim, cur, dep, ty, was, |Payload(v)|) ==
              Outcome(dep + Need(c, ty, v) <= MAX_DEPTH, Norm(c, ty, v), cur + |Payload(v)|)
    {
      ReadBack(c, d, lim, cur, dep, ty, was, v);
    }
  }

  lemma PointerIsReadAs(c: Classes, elem: Ty, v: Value, x: Value, most: nat)
    requires IsReadAs(c, elem, v, x, most)
    ensures IsReadAs(c, TPtr(elem), v, x, 1 + most)
  {
    hide Payload, Fresh, Default, At;
    DefaultIsFresh(c, elem);
    forall d: bytes, lim: nat, cur: nat, dep: nat, was: Value
      | InBuffer(d, lim, cur, Payload(v)) && dep <= MAX_DEPTH && Fresh(c, TPtr(elem), was)
      ensures Read(c, d, lim, cur, dep, TPtr(elem), was, |Payload(v)|) ==
              Outcome(dep + 1 + most <= MAX_DEPTH, x, cur + |Payload(v)|)
    {
      if dep < MAX_DEPTH {
        assert Read(c, d, lim, cur, dep + 1, elem, Default(c, elem), |Payload(v)|) ==
               Outcome(dep + 1 + most <= MAX_DEPTH, x, cur + |Payload(v)|);
      }
    }
  }

  datatype Reading = Reading(x: Value, most: nat)

  /** What the items that are written are read as. */
  function Kept(items: seq<Value>, rs: seq<Reading>): seq<Value>
    requires |items| == |rs|
  {
    if items == [] then [] else (if items[0].Null? then [] else [rs[0].x]) + Kept(items[1..], rs[1..])
  }

  function MostOf(items: seq<Value>, rs: seq<Reading>): nat
    requires |items| == |rs|
  {
    if items == [] then 0 else Max(if items[0].Null? then 0 else rs[0].most, MostOf(items[1..], rs[1..]))
  }

  lemma ReadingsUnfold(items: seq<Value>, rs: seq<Reading>)
    requires |items| == |rs|
    ensures items == [] ==> Kept(items, rs) == [] && MostOf(items, rs) == 0
    ensures items != [] && items[0].Null? ==>
              Kept(items, rs) == Kept(items[1..], rs[1..]) && MostOf(items, rs) == MostOf(items[1..], rs[1..])
    ensures items != [] && !items[0].Null? ==>
              && Kept(items, rs) == [rs[0].x] + Kept(items[1..], rs[1..])
              && MostOf(items, rs) == Max(rs[0].most, MostOf(items[1..], rs[1..]))
  {
    if items != [] {
      Regroup([], [], Kept(items[1..], rs[1..]));
    }
  }

  ghost predicate ReadItemAs(c: Classes, elem: Ty, v: Value, r: Reading)
  {
    v.Null? || IsReadAs(c, elem, v, r.x, r.most)
  }

  /** One turn of the vector loop. */
  lemma ItemIsRead(c: Classes, d: bytes, lim: nat, cur: nat, dep: nat, elem: Ty, end: nat, acc: seq<Value>, v: Value,
                   r: Reading)
    requires IsReadAs(c, elem, v, r.x, r.most) && !v.Null? && dep <= MAX_DEPTH && cur < end
    requires InBuffer(d, lim, cur, Enc(TAG_VECTOR_ITEM, v))
    ensures cur + |Enc(TAG_VECTOR_ITEM, v)| <= lim <= |d|
    ensures ReadItems(c, d, lim, cur, dep, elem, end, acc) ==
            if dep + r.most <= MAX_DEPTH
            then ReadItems(c, d, lim, cur + |Enc(TAG_VECTOR_ITEM, v)|, dep, elem, end, acc + [r.x]) else None
  {
    hide Read, ReadItems, Payload, Enc, HeadAt, Fresh, Default, InBuffer, IsReadAs;
    EncBack(d, lim, cur, TAG_VECTOR_ITEM, v);
    DefaultIsFresh(c, elem);
    ReadAsAt(c, d, lim, cur + HEAD, dep, elem, Default(c, elem), v, r.x, r.most);
    ItemsTurn(c, d, lim, cur, dep, elem, end, acc);
  }

  lemma {:induction false} ItemsAreRead(c: Classes, d: bytes, lim: nat, cur: nat, dep: nat, elem: Ty, end: nat,
                                        acc: seq<Value>, items: seq<Value>, rs: seq<Reading>)
    requires dep <= MAX_DEPTH && |items| == |rs|
    requires forall i :: 0 <= i < |items| ==> ReadItemAs(c, elem, items[i], rs[i])
    requires InBuffer(d, lim, cur, EncItems(items)) && end == cur + |EncItems(items)|
    ensures cur <= lim <= |d|
    ensures ReadItems(c, d, lim, cur, dep, elem, end, acc) ==
            Outcome(dep + MostOf(items, rs) <= MAX_DEPTH, List(acc + Kept(items, rs)), end)
    decreases |items|
  {
    hide ReadItems, Read, InBuffer, HeadAt, Enc, Payload, Fresh, Norm, Need, Default, EncItems, NormItems, NeedItems;
    hide IsReadAs;
    hide Kept, MostOf;
    ReadingsUnfold(items, rs);
    Bounds(d, lim, cur, EncItems(items));
    ItemsUnfold(c, elem, items);
    if items == [] {
      Regroup(acc, [], []);
      NoItemsLeft(c, d, lim, cur, dep, elem, end, acc);
    } else {
      var v, rest, r := items[0], items[1..], rs[0];
      var next := Enc(TAG_VECTOR_ITEM, v);
      InBufferSplit(d, lim, cur, next, EncItems(rest));
      assert forall i :: 0 <= i < |rest| ==> rest[i] == items[i + 1] && rs[1..][i] == rs[i + 1];
      if v.Null? {
        NullHasNoBytes(c, elem, TAG_VECTOR_ITEM);
        ItemsAreRead(c, d, lim, cur, dep, elem, end, acc, rest, rs[1..]);
      } else {
        assert ReadItemAs(c, elem, items[0], rs[0]);
        EncLength(TAG_VECTOR_ITEM, v);
        ItemIsRead(c, d, lim, cur, dep, elem, end, acc, v, r);
        Regroup(acc, [r.x], Kept(rest, rs[1..]));
        ItemsAreRead(c, d, lim, cur + |next|, dep, elem, end, acc + [r.x], rest, rs[1..]);
      }
    }
  }

  lemma VectorReadAs(c: Classes, d: bytes, lim: nat, cur: nat, dep: nat, elem: Ty, was: Value, items: seq<Value>,
                     rs: seq<Reading>)
    requires |items| == |rs| && forall i :: 0 <= i < |items| ==> ReadItemAs(c, elem, items[i], rs[i])
    requires InBuffer(d, lim, cur, Payload(List(items))) && dep <= MAX_DEPTH && Fresh(c, TVec(elem), was)
    ensures cur <= lim <= |d|
    ensures Read(c, d, lim, cur, dep, TVec(elem), was, |Payload(List(items))|) ==
            Outcome(dep + 1 + MostOf(items, rs) <= MAX_DEPTH, List(Kept(items, rs)), cur + |Payload(List(items))|)
  {
    hide ReadItems, At, EncItems, Kept, MostOf, Fresh, ReadItemAs;
    ListPayload(items);
    hide Payload;
    FreshVector(c, elem, was);
    if dep < MAX_DEPTH {
      ItemsAreRead(c, d, lim, cur, dep + 1, elem, cur + |EncItems(items)|, [], items, rs);
      Regroup([], [], Kept(items, rs));
    }
  }

  lemma VectorIsReadAs(c: Classes, elem: Ty, items: seq<Value>, rs: seq<Reading>)
    requires |items| == |rs| && forall i :: 0 <= i < |items| ==> ReadItemAs(c, elem, items[i], rs[i])
    ensures IsReadAs(c, TVec(elem), List(items), List(Kept(items, rs)), 1 + MostOf(items, rs))
  {
    hide Read, InBuffer, Payload, Kept, MostOf, Fresh, ReadItemAs;
    forall d: bytes, lim: nat, cur: nat, dep: nat, was: Value
      | InBuffer(d, lim, cur, Payload(List(items))) && dep <= MAX_DEPTH && Fresh(c, TVec(elem), was)
      ensures cur <= lim <= |d|
      ensures Read(c, d, lim, cur, dep, TVec(elem), was, |Payload(List(items))|) ==
              Outcome(dep + 1 + MostOf(items, rs) <= MAX_DEPTH, List(Kept(items, rs)), cur + |Payload(List(items))|)
    {
      VectorReadAs(c, d, lim, cur, dep, elem, was, items, rs);
    }
  }
}
