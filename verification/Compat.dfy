/**
 What a successful read depends on: the bytes it consumes and nothing else. From it follow
 forward compatibility (unknown fields change nothing) and that the zero bytes left by the size
 counter are harmless.
 */
module Compat {
  import opened Bytes
  import opened Assoc
  import opened Tlv
  import opened ReaderSpec
  import opened RoundTrip

  /** n bytes are the same in d from cur on and in e from at on. */
  ghost predicate Same(d: bytes, cur: nat, e: bytes, at: nat, n: nat)
  {
    cur + n <= |d| && at + n <= |e| && d[cur..cur + n] == e[at..at + n]
  }

  lemma SamePart(d: bytes, cur: nat, e: bytes, at: nat, n: nat, k: nat, m: nat)
    requires Same(d, cur, e, at, n) && k + m <= n
    ensures Same(d, cur + k, e, at + k, m)
  {
    var a, b := d[cur + k..cur + k + m], e[at + k..at + k + m];
    forall j | 0 <= j < m ensures a[j] == b[j] {
      assert d[cur..cur + n][k + j] == e[at..at + n][k + j];
    }
    assert a == b;
  }

  lemma SameHead(d: bytes, cur: nat, e: bytes, at: nat, n: nat)
    requires Same(d, cur, e, at, n) && HEAD <= n
    ensures HeadAt(d, cur) == HeadAt(e, at)
  {
    SamePart(d, cur, e, at, n, 0, 2);
    SamePart(d, cur, e, at, n, 2, 4);
  }

  /** The outcome of a read, moved from position cur to position at. */
  function Moved(r: Option<Got>, cur: nat, at: nat): Option<Got>
    requires r.Some? ==> cur <= r.value.cur
  {
    if r.None? then None else Some(Got(r.value.v, at + (r.value.cur - cur)))
  }

  /** A read that succeeds in d from cur on finds its bytes again in e from at on. */
  ghost predicate Found(d: bytes, cur: nat, end: nat, e: bytes, lim: nat, at: nat)
    requires cur <= end
  {
    at + (end - cur) <= lim <= |e| < TWO32 && Same(d, cur, e, at, end - cur)
  }

  lemma FoundPart(d: bytes, cur: nat, end: nat, e: bytes, lim: nat, at: nat, from: nat, to: nat)
    requires cur <= from <= to <= end && Found(d, cur, end, e, lim, at)
    ensures Found(d, from, to, e, lim, at + (from - cur))
  {
    SamePart(d, cur, e, at, end - cur, from - cur, to - from);
  }

  lemma FoundBytes(d: bytes, cur: nat, end: nat, e: bytes, lim: nat, at: nat, from: nat, to: nat)
    requires cur <= from <= to <= end <= |d| && Found(d, cur, end, e, lim, at)
    ensures at + (to - cur) <= lim <= |e| && d[from..to] == e[at + (from - cur)..at + (to - cur)]
  {
    FoundPart(d, cur, end, e, lim, at, from, to);
  }

  lemma FoundHead(d: bytes, cur: nat, end: nat, e: bytes, lim: nat, at: nat)
    requires cur + HEAD <= end && Found(d, cur, end, e, lim, at)
    ensures at + HEAD <= lim && HeadAt(d, cur) == HeadAt(e, at)
  {
    SameHead(d, cur, e, at, end - cur);
  }

  lemma {:induction false} MoveRead(c: Classes, d: bytes, dl: nat, cur: nat, e: bytes, el: nat, at: nat, dep: nat,
                                    ty: Ty, was: Value, len: nat)
    requires cur <= dl <= |d|
    requires var r := Read(c, d, dl, cur, dep, ty, was, len);
             r.Some? && Found(d, cur, r.value.cur, e, el, at)
    ensures at <= el <= |e|
    ensures Read(c, e, el, at, dep, ty, was, len) == Moved(Read(c, d, dl, cur, dep, ty, was, len), cur, at)
    decreases dl - cur, ty, 1
  {
    hide ReadPairs, ReadVariant, ReadItems, ReadFields, ReadFlat, Same, Default;
    if IsFlat(ty) {
      MoveFlat(c, d, dl, cur, e, el, at, dep, ty, was, len);
    } else if IsMap(ty) {
      MovePairs(c, d, dl, cur, e, el, at, if ty.TObject? then dep + 1 else dep, ty, cur + len, at + len, AsPairs(was));
    } else if IsVariant(ty) {
      MoveVariant(c, d, dl, cur, e, el, at, dep, ty, was);
    } else if ty.TPtr? {
      MoveRead(c, d, dl, cur, e, el, at, dep + 1, ty.elem, Default(c, ty.elem), len);
    } else if ty.TVec? {
      MoveItems(c, d, dl, cur, e, el, at, dep + 1, ty.elem, cur + len, at + len, AsItems(was));
    } else {
      MoveFields(c, d, cur + len, cur, e, at + len, at, dep, ty.kind, AsFields(was));
    }
  }

  lemma MoveFlat(c: Classes, d: bytes, dl: nat, cur: nat, e: bytes, el: nat, at: nat, dep: nat, ty: Ty, was: Value,
                 len: nat)
    requires cur <= dl <= |d| && IsFlat(ty)
    requires var r := Read(c, d, dl, cur, dep, ty, was, len);
             r.Some? && Found(d, cur, r.value.cur, e, el, at)
    ensures Read(c, e, el, at, dep, ty, was, len) == Moved(Read(c, d, dl, cur, dep, ty, was, len), cur, at)
  {
    hide ReadFlat;
  }

  lemma {:induction false} MoveItems(c: Classes, d: bytes, dl: nat, cur: nat, e: bytes, el: nat, at: nat, dep: nat,
                                     elem: Ty, dend: nat, eend: nat, acc: seq<Value>)
    requires cur <= dl <= |d| && dend - cur == eend - at
    requires var r := ReadItems(c, d, dl, cur, dep, elem, dend, acc);
             r.Some? && Found(d, cur, r.value.cur, e, el, at)
    ensures at <= el <= |e|
    ensures ReadItems(c, e, el, at, dep, elem, eend, acc) ==
            Moved(ReadItems(c, d, dl, cur, dep, elem, dend, acc), cur, at)
    decreases dl - cur, elem, 2
  {
    hide ReadItems, Read, Same, HeadAt, Default;
    ItemsTurn(c, d, dl, cur, dep, elem, dend, acc);
    ItemsTurn(c, e, el, at, dep, elem, eend, acc);
    if cur < dend {
      var end, len := ReadItems(c, d, dl, cur, dep, elem, dend, acc).value.cur, HeadAt(d, cur).len;
      var g := Read(c, d, dl, cur + HEAD, dep, elem, Default(c, elem), len).value;
      var next := at + (g.cur - cur);
      FoundHead(d, cur, end, e, el, at);
      FoundPart(d, cur, end, e, el, at, cur + HEAD, g.cur);
      FoundPart(d, cur, end, e, el, at, g.cur, end);
      MoveRead(c, d, dl, cur + HEAD, e, el, at + HEAD, dep, elem, Default(c, elem), len);
      MoveItems(c, d, dl, g.cur, e, el, next, dep, elem, dend, eend, acc + [g.v]);
    }
  }

  lemma {:induction false} MovePairs(c: Classes, d: bytes, dl: nat, cur: nat, e: bytes, el: nat, at: nat, dep: nat,
                                     ty: Ty, dend: nat, eend: nat, acc: Items)
    requires cur <= dl <= |d| && dend - cur == eend - at && IsMap(ty)
    requires var r := ReadPairs(c, d, dl, cur, dep, ty, dend, acc);
             r.Some? && Found(d, cur, r.value.cur, e, el, at)
    ensures at <= el <= |e|
    ensures ReadPairs(c, e, el, at, dep, ty, eend, acc) == Moved(ReadPairs(c, d, dl, cur, dep, ty, dend, acc), cur, at)
    decreases dl - cur, ty, 0
  {
    hide ReadPair, Same, HeadAt, Emplace;
    if cur < dend {
      var end := ReadPairs(c, d, dl, cur, dep, ty, dend, acc).value.cur;
      var p := ReadPair(c, d, dl, cur, dep, ty).value;
      var next := at + (p.cur - cur);
      FoundPart(d, cur, end, e, el, at, cur, p.cur);
      FoundPart(d, cur, end, e, el, at, p.cur, end);
      MovePair(c, d, dl, cur, e, el, at, dep, ty);
      MovePairs(c, d, dl, p.cur, e, el, next, dep, ty, dend, eend, Emplace(acc, p.key, p.v));
    }
  }

  lemma {:induction false} MovePair(c: Classes, d: bytes, dl: nat, cur: nat, e: bytes, el: nat, at: nat, dep: nat,
                                    ty: Ty)
    requires cur <= dl <= |d| && IsMap(ty)
    requires var r := ReadPair(c, d, dl, cur, dep, ty);
             r.Some? && Found(d, cur, r.value.cur, e, el, at)
    ensures at <= el <= |e|
    ensures var p := ReadPair(c, d, dl, cur, dep, ty).value;
            ReadPair(c, e, el, at, dep, ty) == Some(GotPair(p.key, p.v, at + (p.cur - cur)))
    decreases dl - cur, ty, 0, 0
  {
    hide Read, HeadAt, Default;
    var p := ReadPair(c, d, dl, cur, dep, ty).value;
    FoundHead(d, cur, p.cur, e, el, at);
    var k := HeadAt(d, cur).len;
    var v := cur + HEAD + k;
    FoundPart(d, cur, p.cur, e, el, at, cur + HEAD, v);
    FoundPart(d, cur, p.cur, e, el, at, v, p.cur);
    FoundHead(d, v, p.cur, e, el, at + HEAD + k);
    FoundPart(d, cur, p.cur, e, el, at, v + HEAD, p.cur);
    MoveRead(c, d, dl, v + HEAD, e, el, at + HEAD + k + HEAD, dep, MapValue(ty), Default(c, MapValue(ty)),
             HeadAt(d, v).len);
  }

  lemma {:induction false} MoveVariant(c: Classes, d: bytes, dl: nat, cur: nat, e: bytes, el: nat, at: nat, dep: nat,
                                       ty: Ty, was: Value)
    requires cur <= dl <= |d| && IsVariant(ty)
    requires var r := ReadVariant(c, d, dl, cur, dep, ty, was);
             r.Some? && Found(d, cur, r.value.cur, e, el, at)
    ensures at <= el <= |e|
    ensures ReadVariant(c, e, el, at, dep, ty, was) == Moved(ReadVariant(c, d, dl, cur, dep, ty, was), cur, at)
    decreases dl - cur, ty, 0
  {
    hide Read, HeadAt, Default, Alts, UnLe, Found;
    var end := ReadVariant(c, d, dl, cur, dep, ty, was).value.cur;
    var v := cur + HEAD + 4;
    FoundHead(d, cur, end, e, el, at);
    FoundBytes(d, cur, end, e, el, at, cur + HEAD, v);
    var index := UnLe(d[cur + HEAD..v]);
    if index < |Alts(ty)| {
      var alt := Alts(ty)[index];
      FoundPart(d, cur, end, e, el, at, v, end);
      FoundHead(d, v, end, e, el, at + HEAD + 4);
      FoundPart(d, cur, end, e, el, at, v + HEAD, end);
      MoveRead(c, d, dl, v + HEAD, e, el, at + HEAD + 4 + HEAD, dep, alt, Default(c, alt), HeadAt(d, v).len);
    }
  }

  /** All fields up to the limit: the limit moves along. */
  lemma {:induction false} MoveFields(c: Classes, d: bytes, dl: nat, cur: nat, e: bytes, el: nat, at: nat, dep: nat,
                                      kind: Kind, fields: seq<Value>)
    requires cur <= dl <= |d| && at <= el && dl - cur == el - at
    requires var r := ReadFields(c, d, dl, cur, dep, kind, fields);
             r.Some? && Found(d, cur, r.value.cur, e, el, at)
    ensures ReadFields(c, e, el, at, dep, kind, fields) == Moved(ReadFields(c, d, dl, cur, dep, kind, fields), cur, at)
    decreases dl - cur, TStruct(kind), 0
  {
    hide ReadField, Same;
    if cur < dl {
      var s := ReadField(c, d, dl, cur, dep, kind, fields).value;
      var next := at + (s.cur - cur);
      FoundPart(d, cur, dl, e, el, at, cur, s.cur);
      FoundPart(d, cur, dl, e, el, at, s.cur, dl);
      MoveField(c, d, dl, cur, e, el, at, dep, kind, fields);
      MoveFields(c, d, dl, s.cur, e, el, next, dep, kind, s.fields);
    }
  }

  lemma {:induction false} MoveField(c: Classes, d: bytes, dl: nat, cur: nat, e: bytes, el: nat, at: nat, dep: nat,
                                     kind: Kind, fields: seq<Value>)
    requires cur <= dl <= |d|
    requires var s := ReadField(c, d, dl, cur, dep, kind, fields);
             s.Some? && Found(d, cur, s.value.cur, e, el, at)
    ensures at <= el <= |e|
    ensures var s := ReadField(c, d, dl, cur, dep, kind, fields).value;
            ReadField(c, e, el, at, dep, kind, fields) == Some(Step(s.fields, at + (s.cur - cur)))
    decreases dl - cur, TStruct(kind), 0, 0
  {
    hide Read, Same, HeadAt;
    var s := ReadField(c, d, dl, cur, dep, kind, fields).value;
    FoundHead(d, cur, s.cur, e, el, at);
    var head := HeadAt(d, cur);
    var i := head.tag - TagOf(0);
    if 0 <= i < |c.types(kind)| && i < |fields| {
      FoundPart(d, cur, s.cur, e, el, at, cur + HEAD, s.cur);
      MoveRead(c, d, dl, cur + HEAD, e, el, at + HEAD, dep, c.types(kind)[i], fields[i], head.len);
    }
  }

  // ----- unknown fields

  predicate IsUnknown(c: Classes, kind: Kind, tag: nat) { tag < TagOf(0) || tag >= TagOf(|c.types(kind)|) }

  /** Decoding the fields of d from cur on passes a field boundary at position at. */
  ghost predicate Boundary(c: Classes, d: bytes, cur: nat, dep: nat, kind: Kind, fields: seq<Value>, at: nat)
    requires cur <= |d|
    decreases |d| - cur
  {
    if cur >= at then cur == at
    else
      var s := ReadField(c, d, |d|, cur, dep, kind, fields);
      s.Some? && Boundary(c, d, s.value.cur, dep, kind, s.value.fields, at)
  }

  lemma ReadUnknown(c: Classes, d: bytes, cur: nat, dep: nat, kind: Kind, fields: seq<Value>, tag: nat, p: bytes)
    requires At(d, cur, Tlv1(tag, p)) && tag < 0x1_0000 && |p| < TWO32 && IsUnknown(c, kind, tag)
    ensures cur + HEAD + |p| <= |d|
    ensures ReadField(c, d, |d|, cur, dep, kind, fields) == Some(Step(fields, cur + HEAD + |p|))
  {
    hide Read, Le, UnLe;
    HeadBack(d, cur, tag, p);
  }

  function Insert(d: bytes, at: nat, s: bytes): bytes
    requires at <= |d|
  {
    d[..at] + s + d[at..]
  }

  lemma {:induction false} InsertedField(c: Classes, kind: Kind, d: bytes, dep: nat, cur: nat, fields: seq<Value>,
                                         at: nat, tag: nat, p: bytes)
    requires cur <= at <= |d| && Boundary(c, d, cur, dep, kind, fields, at)
    requires tag < 0x1_0000 && IsUnknown(c, kind, tag) && |d| + HEAD + |p| < TWO32
    requires ReadFields(c, d, |d|, cur, dep, kind, fields).Some?
    ensures var e := Insert(d, at, Tlv1(tag, p));
            ReadFields(c, e, |e|, cur, dep, kind, fields).Some? &&
            ReadFields(c, e, |e|, cur, dep, kind, fields).value.v ==
              ReadFields(c, d, |d|, cur, dep, kind, fields).value.v
    decreases |d| - cur
  {
    hide ReadField, ReadFields, Tlv1, Insert;
    var u := Tlv1(tag, p);
    var e := Insert(d, at, u);
    InsertedParts(d, at, u);
    FieldsTurn(c, d, |d|, cur, dep, kind, fields);
    FieldsTurn(c, e, |e|, cur, dep, kind, fields);
    if cur == at {
      ReadUnknown(c, e, at, dep, kind, fields, tag, p);
      MoveFields(c, d, |d|, at, e, |e|, at + |u|, dep, kind, fields);
    } else {
      var s := ReadField(c, d, |d|, cur, dep, kind, fields).value;
      BoundaryAhead(c, d, s.cur, dep, kind, s.fields, at);
      SamePrefix(d, e, at, cur, s.cur);
      MoveField(c, d, |d|, cur, e, |e|, cur, dep, kind, fields);
      InsertedField(c, kind, d, dep, s.cur, s.fields, at, tag, p);
    }
  }

  lemma InsertedParts(d: bytes, at: nat, u: bytes)
    requires at <= |d|
    ensures var e := Insert(d, at, u);
            |e| == |d| + |u| && e[..at] == d[..at] && e[at..at + |u|] == u && e[at + |u|..] == d[at..]
  {
  }

  lemma SamePrefix(d: bytes, e: bytes, at: nat, lo: nat, hi: nat)
    requires lo <= hi <= at <= |d| && at <= |e| && d[..at] == e[..at]
    ensures d[lo..hi] == e[lo..hi]
  {
    assert d[lo..hi] == d[..at][lo..hi] && e[lo..hi] == e[..at][lo..hi];
  }

  lemma BoundaryAhead(c: Classes, d: bytes, cur: nat, dep: nat, kind: Kind, fields: seq<Value>, at: nat)
    requires cur <= |d| && Boundary(c, d, cur, dep, kind, fields, at)
    ensures cur <= at
  {
  }

  /**
   Forward compatibility: a complete field with an unknown tag, inserted at any field boundary of a
   buffer that decodes, leaves the decoded object unchanged.
   */
  lemma UnknownFieldIsIgnored(c: Classes, kind: Kind, d: bytes, at: nat, tag: nat, p: bytes)
    requires Decode(c, kind, d).Some?
    requires at <= |d| && Boundary(c, d, 0, 0, kind, c.initial(kind), at)
    requires tag < 0x1_0000 && IsUnknown(c, kind, tag) && |d| + HEAD + |p| < TWO32
    ensures Decode(c, kind, Insert(d, at, Tlv1(tag, p))) == Decode(c, kind, d)
  {
    hide ReadFields, Boundary, Tlv1;
    InsertedField(c, kind, d, 0, 0, c.initial(kind), at, tag, p);
  }

  /** The end of a buffer that decodes is a field boundary. */
  lemma {:induction false} EndIsBoundary(c: Classes, d: bytes, cur: nat, dep: nat, kind: Kind, fields: seq<Value>)
    requires cur <= |d| && ReadFields(c, d, |d|, cur, dep, kind, fields).Some?
    ensures Boundary(c, d, cur, dep, kind, fields, |d|)
    decreases |d| - cur
  {
    hide ReadField, ReadFields;
    FieldsTurn(c, d, |d|, cur, dep, kind, fields);
    if cur < |d| {
      var s := ReadField(c, d, |d|, cur, dep, kind, fields).value;
      EndIsBoundary(c, d, s.cur, dep, kind, s.fields);
    }
  }

  /** The zero bytes that over-counting leaves behind read as empty unknown fields. */
  lemma {:induction false} ZeroTailIsIgnored(c: Classes, kind: Kind, d: bytes, k: nat)
    requires Decode(c, kind, d).Some? && |d| + HEAD * k < TWO32
    ensures Decode(c, kind, d + Zeros(HEAD * k)) == Decode(c, kind, d)
    decreases k
  {
    hide ReadFields, ReadField, Boundary, Tlv1;
    if k == 0 {
      assert d + Zeros(0) == d;
    } else {
      var e := Insert(d, |d|, Tlv1(0, []));
      EndIsBoundary(c, d, 0, 0, kind, c.initial(kind));
      UnknownFieldIsIgnored(c, kind, d, |d|, 0, []);
      BlankHead();
      assert e == d + Zeros(HEAD);
      assert e + Zeros(HEAD * (k - 1)) == d + Zeros(HEAD * k);
      ZeroTailIsIgnored(c, kind, e, k - 1);
    }
  }

  // ----- what Encode wrote, decoded

  /**
   Decoding what Encode wrote, zero tail included: the normal form of every field, or a failure
   exactly when some field needs more than MAX_DEPTH recursion guards.
   */
  lemma DecodeOfEncoded(c: Classes, kind: Kind, order: seq<nat>, fields: seq<Value>, k: nat)
    requires Good(c) && WellTypedFields(c, kind, order, fields)
    requires |EncFields(order, fields)| + HEAD * k < TWO32
    ensures Decode(c, kind, EncFields(order, fields) + Zeros(HEAD * k)) ==
            if NeedFields(c, kind, order, fields) <= MAX_DEPTH
            then Some(Struct(c.order(kind), c.finish(kind, NormFields(c, kind, fields)))) else None
  {
    hide ReadField, ReadFields, EncFields, NeedFields, NormFields, WellTyped, Good;
    var d := EncFields(order, fields);
    var e := d + Zeros(HEAD * k);
    InitialFits(c, kind);
    HalfEnds(c, kind, fields, order);
    ReadFieldsBack(c, e, |e|, 0, 0, kind, fields, order, 0);
    ReadFieldsBack(c, d, |d|, 0, 0, kind, fields, order, 0);
    FieldsTurn(c, d, |d|, |d|, 0, kind, NormFields(c, kind, fields));
    if NeedFields(c, kind, order, fields) <= MAX_DEPTH {
      ZeroTailIsIgnored(c, kind, d, k);
    }
  }

  lemma InitialFits(c: Classes, kind: Kind)
    requires Good(c)
    ensures |c.initial(kind)| == |c.types(kind)|
  {
  }
}
