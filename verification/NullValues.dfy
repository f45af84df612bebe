/**
 Null pointers inside variants, exactly. A null alternative has no head of its own, so the reader
 takes the next head it finds: the key of the next pair, a head of the zero tail, or none. For every
 entry that is well typed up to null pointers, this module says when it is read back as itself.
 */
module NullValues {
  import opened Bytes
  import opened Assoc
  import opened Tlv
  import opened ReaderSpec
  import opened RoundTrip
  import opened PasteModel
  import opened PasteCodec
  import opened Clipboard

  // ----- values with null pointers

  /** Well typed, except that a Want, PixelMap or Object may be a null pointer at any depth. */
  ghost predicate Loose(c: Classes, v: Value)
    decreases v
  {
    && v.Variant? && v.index < 11 && !v.val.Raw?
    && (if v.val.Null? then 7 <= v.index <= 9
        else if v.index == 9
        then v.val.Dict? && v.val.vtag == TAG_MAP_VALUE_TYPE && Sorted(v.val.pairs) &&
             forall i :: 0 <= i < |v.val.pairs| ==> Loose(c, v.val.pairs[i].val)
        else WellTyped(c, EntryAlts()[v.index], v.val))
  }

  predicate HasNull(v: Value)
    decreases v
  {
    v.Variant? && (v.val.Null? || (v.val.Dict? && NullIn(v.val.pairs)))
  }

  predicate NullIn(pairs: Items)
    decreases pairs
  {
    pairs != [] && (HasNull(pairs[0].val) || NullIn(pairs[1..]))
  }

  /** The only null pointer is the very last thing in the value. */
  predicate NullAtEnd(v: Value)
    decreases v
  {
    v.Variant? && (v.val.Null? || (v.val.Dict? && NullAtEndOf(v.val.pairs)))
  }

  predicate NullAtEndOf(pairs: Items)
    decreases pairs
  {
    pairs != [] &&
    if |pairs| == 1 then NullAtEnd(pairs[0].val) else !HasNull(pairs[0].val) && NullAtEndOf(pairs[1..])
  }

  /** The value with its last null pointer read from an empty field: an Object is there then, and empty. */
  function FilledIn(v: Value): Value
    decreases v
  {
    if v.Variant? && v.val.Null? && v.index == 9 then EvObject([])
    else if v.Variant? && v.val.Dict? then Variant(v.index, Dict(v.val.vtag, FilledPairs(v.val.pairs)))
    else v
  }

  function FilledPairs(pairs: Items): Items
    decreases pairs
  {
    if pairs == [] then []
    else if |pairs| == 1 then [Pair(pairs[0].key, FilledIn(pairs[0].val))]
    else [pairs[0]] + FilledPairs(pairs[1..])
  }

  lemma {:induction false} LooseIsTyped(c: Classes, v: Value)
    requires Loose(c, v) && !HasNull(v)
    ensures WellTyped(c, TEntryValue, v)
    decreases v
  {
    hide WellTyped, Sorted;
    if v.index == 9 {
      LooseAreTyped(c, v.val.pairs);
      ObjectStep(c, v.val.pairs);
    } else {
      AlternativeIsTyped(c, v);
    }
  }

  lemma AlternativeIsTyped(c: Classes, v: Value)
    requires v.Variant? && v.index < 11 && !v.val.Null? && !v.val.Raw? && WellTyped(c, EntryAlts()[v.index], v.val)
    ensures WellTyped(c, TEntryValue, v)
  {
  }

  lemma LooseObject(c: Classes, v: Value)
    requires Loose(c, v) && v.val.Dict?
    ensures v.index == 9 && v.val.vtag == TAG_MAP_VALUE_TYPE && Sorted(v.val.pairs)
    ensures forall i :: 0 <= i < |v.val.pairs| ==> Loose(c, v.val.pairs[i].val)
  {
    hide Sorted;
  }

  lemma {:induction false} LooseAreTyped(c: Classes, pairs: Items)
    requires !NullIn(pairs) && forall i :: 0 <= i < |pairs| ==> Loose(c, pairs[i].val)
    ensures forall i :: 0 <= i < |pairs| ==> WellTyped(c, TEntryValue, pairs[i].val)
    decreases pairs
  {
    hide WellTyped, Loose, HasNull;
    if pairs != [] {
      LooseIsTyped(c, pairs[0].val);
      LooseAreTyped(c, pairs[1..]);
    }
  }

  // ----- one step of the reader

  /** The index of a variant is there: what is read next depends on the head behind it. */
  lemma VariantTurn(c: Classes, d: bytes, lim: nat, cur: nat, dep: nat, was: Value, len: nat, index: uint32)
    requires index < 11 && InBuffer(d, lim, cur, Tlv1(TAG_VARIANT_INDEX, Le(index, 4)))
    ensures cur + 10 <= lim <= |d|
    ensures Read(c, d, lim, cur, dep, TEntryValue, was, len) ==
            if cur + 10 + HEAD > lim then None
            else
              var alt := EntryAlts()[index];
              var g := Read(c, d, lim, cur + 10 + HEAD, dep, alt, Default(c, alt), HeadAt(d, cur + 10).len);
              if g.None? then None else Some(Got(Variant(index, g.value.v), g.value.cur))
  {
    hide Le, UnLe, HeadAt, Tlv1, At, Default, EntryAlts;
    IndexBack(d, lim, cur, index);
    assert Read(c, d, lim, cur, dep, TEntryValue, was, len) == ReadVariant(c, d, lim, cur, dep, TEntryValue, was);
    hide Read;
  }

  lemma WantTurn(c: Classes, d: bytes, lim: nat, cur: nat, dep: nat, was: Value, len: nat)
    requires cur <= lim <= |d|
    ensures Read(c, d, lim, cur, dep, TWant, was, len) ==
            if cur + len > lim then None else Some(Got(if len == 0 then Null else Shared(d[cur..cur + len]), cur + len))
  {
    ReadOfFlat(c, d, lim, cur, dep, TWant, was, len);
  }

  lemma NullAlternatives()
    ensures EntryAlts()[7] == EntryAlts()[8] == TWant && EntryAlts()[9] == TPtr(TObject)
  {
  }

  /** A null alternative takes the next field for its own, whatever that field is. */
  lemma NextFieldIsTaken(c: Classes, d: bytes, lim: nat, cur: nat, dep: nat, was: Value, len: nat, index: uint32,
                         tag: nat, p: bytes)
    requires 7 <= index <= 8 && tag < 0x1_0000
    requires InBuffer(d, lim, cur, Payload(Variant(index, Null)) + Tlv1(tag, p))
    ensures cur <= lim <= |d|
    ensures Read(c, d, lim, cur, dep, TEntryValue, was, len) ==
            Some(Got(Variant(index, if p == [] then Null else Shared(p)), cur + 10 + HEAD + |p|))
  {
    hide Read, Le, UnLe, HeadAt, Default, Payload, EntryAlts;
    var i := Tlv1(TAG_VARIANT_INDEX, Le(index, 4));
    NullPayload(index);
    InBufferSplit(d, lim, cur, i, Tlv1(tag, p));
    VariantTurn(c, d, lim, cur, dep, was, len, index);
    HeadBack(d, cur + 10, tag, p);
    NullAlternatives();
    var at := cur + 10 + HEAD;
    WantTurn(c, d, lim, at, dep, Default(c, TWant), |p|);
    assert d[at..at + |p|] == p;
  }

  lemma NullPayload(index: uint32)
    ensures Payload(Variant(index, Null)) == Tlv1(TAG_VARIANT_INDEX, Le(index, 4)) &&
            |Payload(Variant(index, Null))| == 10
  {
    var v := Variant(index, Null);
    VariantPayload(v);
    assert Enc(TAG_VARIANT_VALUE, Null) == [];
  }

  /** A pair of an Object stands here: its key is read, and its value by its own payload. */
  lemma PairTurn(c: Classes, d: bytes, lim: nat, cur: nat, dep: nat, p: Pair<Value>) returns (at: nat)
    requires InBuffer(d, lim, cur, EncPair(TAG_MAP_VALUE_TYPE, p)) && p.val.Variant?
    ensures at + |Payload(p.val)| == cur + |EncPair(TAG_MAP_VALUE_TYPE, p)| <= lim <= |d| && cur + 2 * HEAD <= at
    ensures InBuffer(d, lim, at, Payload(p.val))
    ensures ReadPair(c, d, lim, cur, dep, TObject) ==
            var g := Read(c, d, lim, at, dep, TEntryValue, Default(c, TEntryValue), |Payload(p.val)|);
            if g.None? then None else Some(GotPair(p.key, g.value.v, g.value.cur))
  {
    hide Read, Payload, Tlv1, Default, Enc;
    var k := Tlv1(TAG_MAP_KEY, p.key);
    InBufferSplit(d, lim, cur, k, Enc(TAG_MAP_VALUE_TYPE, p.val));
    HeadBack(d, cur, TAG_MAP_KEY, p.key);
    EncBack(d, lim, cur + |k|, TAG_MAP_VALUE_TYPE, p.val);
    at := cur + |k| + HEAD;
  }

  /** The head of a nested Object, and its pairs behind it. */
  lemma ObjectBytes(d: bytes, lim: nat, cur: nat, v: Value)
    requires v.Variant? && v.val.Dict? && v.val.vtag == TAG_MAP_VALUE_TYPE && InBuffer(d, lim, cur, Payload(v))
    ensures InBuffer(d, lim, cur, Tlv1(TAG_VARIANT_INDEX, Le(v.index, 4))) && cur + 10 + HEAD <= lim <= |d|
    ensures HeadAt(d, cur + 10).len == |EncPairs(TAG_MAP_VALUE_TYPE, v.val.pairs)|
    ensures InBuffer(d, lim, cur + 10 + HEAD, EncPairs(TAG_MAP_VALUE_TYPE, v.val.pairs))
    ensures |Payload(v)| == 10 + HEAD + |EncPairs(TAG_MAP_VALUE_TYPE, v.val.pairs)|
  {
    hide Le, EncPairs, Enc, HeadAt, At;
    VariantPayload(v);
    DictPayload(v.val);
    hide Payload;
    var i := Tlv1(TAG_VARIANT_INDEX, Le(v.index, 4));
    InBufferSplit(d, lim, cur, i, Enc(TAG_VARIANT_VALUE, v.val));
    EncBack(d, lim, cur + 10, TAG_VARIANT_VALUE, v.val);
  }

  lemma DictPayload(x: Value)
    requires x.Dict?
    ensures Payload(x) == EncPairs(x.vtag, x.pairs)
  {
  }

  /** A blank head stands in the buffer. */
  ghost predicate BlankAt(d: bytes, lim: nat, cur: nat) { InBuffer(d, lim, cur, Zeros(HEAD)) }

  lemma BlankHeadAt(d: bytes, lim: nat, cur: nat)
    requires BlankAt(d, lim, cur)
    ensures cur + HEAD <= lim <= |d| && HeadAt(d, cur) == Head(0, 0)
  {
    hide Zeros;
    BlankHead();
    HeadBack(d, cur, 0, []);
  }

  // ----- a null at the end, with a blank head behind it

  lemma NullFilled(c: Classes, d: bytes, lim: nat, cur: nat, dep: nat, was: Value, len: nat, v: Value)
    requires IsNullValue(v) && dep <= MAX_DEPTH
    requires InBuffer(d, lim, cur, Payload(v)) && BlankAt(d, lim, cur + |Payload(v)|)
    ensures cur <= lim <= |d|
    ensures Read(c, d, lim, cur, dep, TEntryValue, was, len) ==
            Outcome(dep + 2 * Nesting(FilledIn(v)) <= MAX_DEPTH, FilledIn(v), cur + |Payload(v)| + HEAD)
  {
    hide Read, Le, Tlv1, HeadAt, Default, Payload, EntryAlts, At, Zeros, BlankAt, ReadPairs;
    NullPayload(v.index);
    assert v == Variant(v.index, Null);
    VariantTurn(c, d, lim, cur, dep, was, len, v.index);
    BlankHeadAt(d, lim, cur + 10);
    NullAlternatives();
    var at := cur + 10 + HEAD;
    if v.index == 9 {
      ObjectTurn(c, d, lim, at, dep, Default(c, TPtr(TObject)), 0);
      if dep + 2 <= MAX_DEPTH {
        NoPairsLeft(c, d, lim, at, dep + 2, TObject, at, []);
      }
      EmptyObjectNests();
    } else {
      WantTurn(c, d, lim, at, dep, Default(c, TWant), 0);
    }
  }

  lemma EmptyObjectNests()
    ensures Nesting(EvObject([])) == 1
  {
    assert NestingOf([]) == 0;
  }

  lemma {:induction false} ReadFilled(c: Classes, d: bytes, lim: nat, cur: nat, dep: nat, was: Value, len: nat,
                                      v: Value)
    requires Good(c) && Loose(c, v) && NullAtEnd(v) && dep <= MAX_DEPTH
    requires InBuffer(d, lim, cur, Payload(v)) && BlankAt(d, lim, cur + |Payload(v)|)
    ensures cur <= lim <= |d|
    ensures Read(c, d, lim, cur, dep, TEntryValue, was, len) ==
            Outcome(dep + 2 * Nesting(FilledIn(v)) <= MAX_DEPTH, FilledIn(v), cur + |Payload(v)| + HEAD)
    decreases v, 1
  {
    hide Read, Le, Tlv1, HeadAt, Default, Payload, EntryAlts, InBuffer, Good, EncPairs, Sorted, BlankAt, ReadPairs;
    hide NullAtEndOf, FilledPairs, NestingOf;
    Bounds(d, lim, cur, Payload(v));
    if v.val.Null? {
      NullFilled(c, d, lim, cur, dep, was, len, v);
    } else {
      LooseObject(c, v);
      ObjectBytes(d, lim, cur, v);
      VariantTurn(c, d, lim, cur, dep, was, len, 9);
      NullAlternatives();
      var at, pairs := cur + 10 + HEAD, v.val.pairs;
      var n := |EncPairs(TAG_MAP_VALUE_TYPE, pairs)|;
      Bounds(d, lim, at, EncPairs(TAG_MAP_VALUE_TYPE, pairs));
      ObjectTurn(c, d, lim, at, dep, Default(c, TPtr(TObject)), n);
      if dep + 2 <= MAX_DEPTH {
        ReadPairsFilled(c, d, lim, at, dep + 2, at + n, [], pairs);
        Regroup([], [], FilledPairs(pairs));
      }
    }
  }

  lemma {:induction false} ReadPairsFilled(c: Classes, d: bytes, lim: nat, cur: nat, dep: nat, end: nat, acc: Items,
                                           pairs: Items)
    requires Good(c) && dep <= MAX_DEPTH && Sorted(pairs) && NullAtEndOf(pairs)
    requires forall i :: 0 <= i < |pairs| ==> Loose(c, pairs[i].val)
    requires forall i, j :: 0 <= i < |acc| && 0 <= j < |pairs| ==> Less(acc[i].key, pairs[j].key)
    requires InBuffer(d, lim, cur, EncPairs(TAG_MAP_VALUE_TYPE, pairs)) &&
             end == cur + |EncPairs(TAG_MAP_VALUE_TYPE, pairs)|
    requires BlankAt(d, lim, end)
    ensures cur <= lim <= |d|
    ensures ReadPairs(c, d, lim, cur, dep, TObject, end, acc) ==
            Outcome(dep + 2 * NestingOf(FilledPairs(pairs)) <= MAX_DEPTH,
                    Dict(TAG_MAP_VALUE_TYPE, acc + FilledPairs(pairs)), end + HEAD)
    decreases pairs, 0
  {
    hide ReadPairs, ReadPair, InBuffer, EncPair, Good, WellTyped, Norm, Need, Less, Loose, HasNull, NullAtEnd, FilledIn;
    hide Nesting, BlankAt, Emplace, Read, Payload;
    var p, rest := pairs[0], pairs[1..];
    var one := EncPair(TAG_MAP_VALUE_TYPE, p);
    Bounds(d, lim, cur, EncPairs(TAG_MAP_VALUE_TYPE, pairs));
    InBufferSplit(d, lim, cur, one, EncPairs(TAG_MAP_VALUE_TYPE, rest));
    PairLength(TAG_MAP_VALUE_TYPE, p);
    LooseIsVariant(c, p.val);
    if |pairs| == 1 {
      assert rest == [] && EncPairs(TAG_MAP_VALUE_TYPE, rest) == [] && one + [] == one;
      var at := PairTurn(c, d, lim, cur, dep, p);
      ReadFilled(c, d, lim, at, dep, Default(c, TEntryValue), |Payload(p.val)|, p.val);
      BlankHeadAt(d, lim, end);
      PairsTurn(c, d, lim, cur, dep, TObject, end, acc);
      EmplaceLast(acc, p.key, FilledIn(p.val));
      NoPairsLeft(c, d, lim, end + HEAD, dep, TObject, end, acc + [Pair(p.key, FilledIn(p.val))]);
      OnePairNests(p.key, FilledIn(p.val));
    } else {
      LooseIsTyped(c, p.val);
      ValueIsNormal(c, p.val);
      ReadPairsStep(c, d, lim, cur, dep, TObject, end, acc, p);
      assert Pair(p.key, p.val) == p;
      Regroup(acc, [p], FilledPairs(rest));
      assert ([p] + FilledPairs(rest))[1..] == FilledPairs(rest);
      if dep + Need(c, TEntryValue, p.val) <= MAX_DEPTH {
        ReadPairsFilled(c, d, lim, cur + |one|, dep, end, acc + [p], rest);
      }
    }
  }

  lemma LooseIsVariant(c: Classes, v: Value)
    requires Loose(c, v)
    ensures v.Variant?
  {
  }

  lemma OnePairNests(key: bytes, v: Value)
    ensures NestingOf([Pair(key, v)]) == Nesting(v)
  {
    assert NestingOf([]) == 0;
  }

  lemma ValueIsNormal(c: Classes, v: Value)
    requires WellTyped(c, TEntryValue, v)
    ensures Norm(c, TEntryValue, v) == v && Need(c, TEntryValue, v) == 2 * Nesting(v)
  {
    hide WellTyped, Norm, Need, Nesting;
    VariantStep(c, TEntryValue, v);
    EntryValueIsNormal(c, TEntryValue, v);
    NestingCostsTwo(c, v);
  }

  // ----- a null anywhere else is misread

  /** No head stands here, or the head of a field that is not empty. */
  ghost predicate ClosedAt(d: bytes, lim: nat, at: nat)
    requires lim <= |d|
  {
    at + HEAD > lim || HeadAt(d, at).len > 0
  }

  /** Read as itself when a blank head follows. */
  predicate EndsOpen(v: Value) { NullAtEnd(v) && FilledIn(v) == v }

  predicate EndOpen(pairs: Items) { NullAtEndOf(pairs) && FilledPairs(pairs) == pairs }

  /** Nothing was read, or something else than v, and all its bytes were consumed. */
  ghost predicate Misread(g: Option<Got>, v: Value, end: nat) { g.Some? ==> g.value.v != v && end <= g.value.cur }

  lemma NullMisread(c: Classes, d: bytes, lim: nat, cur: nat, dep: nat, was: Value, len: nat, v: Value)
    requires IsNullValue(v) && InBuffer(d, lim, cur, Payload(v))
    requires ClosedAt(d, lim, cur + |Payload(v)|) || !EndsOpen(v)
    ensures cur <= lim <= |d| && Misread(Read(c, d, lim, cur, dep, TEntryValue, was, len), v, cur + |Payload(v)|)
  {
    hide Read, Le, Tlv1, HeadAt, Default, Payload, EntryAlts, At, ReadPairs;
    NullPayload(v.index);
    assert v == Variant(v.index, Null);
    VariantTurn(c, d, lim, cur, dep, was, len, v.index);
    NullAlternatives();
    var at := cur + 10 + HEAD;
    if at <= lim {
      var n := HeadAt(d, cur + 10).len;
      if v.index == 9 {
        ObjectTurn(c, d, lim, at, dep, Default(c, TPtr(TObject)), n);
        if dep + 2 <= MAX_DEPTH && at + n <= lim {
          PairsGiveDict(c, d, lim, at, dep + 2, at + n, []);
        }
      } else {
        WantTurn(c, d, lim, at, dep, Default(c, TWant), n);
      }
    }
  }

  /** The map loop ends with a map, and a key keeps the value it had first. */
  lemma {:induction false} PairsKeep(c: Classes, d: bytes, lim: nat, cur: nat, dep: nat, end: nat, acc: Items, q: bytes)
    requires cur <= lim <= |d| && Sorted(acc) && Lookup(acc, q).Some?
    ensures var g := ReadPairs(c, d, lim, cur, dep, TObject, end, acc);
            g.Some? ==> g.value.v.Dict? && Lookup(g.value.v.pairs, q) == Lookup(acc, q)
    decreases lim - cur
  {
    hide ReadPair, Emplace, Lookup, Sorted, ReadPairs;
    if cur >= end {
      NoPairsLeft(c, d, lim, cur, dep, TObject, end, acc);
    } else {
      PairsTurn(c, d, lim, cur, dep, TObject, end, acc);
      var p := ReadPair(c, d, lim, cur, dep, TObject);
      if p.Some? {
        EmplaceSorted(acc, p.value.key, p.value.v);
        LookupEmplace(acc, p.value.key, p.value.v, q);
        PairsKeep(c, d, lim, p.value.cur, dep, end, Emplace(acc, p.value.key, p.value.v), q);
      }
    }
  }

  lemma {:induction false} PairsGiveDict(c: Classes, d: bytes, lim: nat, cur: nat, dep: nat, end: nat, acc: Items)
    requires cur <= lim <= |d|
    ensures var g := ReadPairs(c, d, lim, cur, dep, TObject, end, acc); g.Some? ==> g.value.v.Dict?
    decreases lim - cur
  {
    hide ReadPair, Emplace, ReadPairs;
    if cur >= end {
      NoPairsLeft(c, d, lim, cur, dep, TObject, end, acc);
    } else {
      PairsTurn(c, d, lim, cur, dep, TObject, end, acc);
      var p := ReadPair(c, d, lim, cur, dep, TObject);
      if p.Some? {
        PairsGiveDict(c, d, lim, p.value.cur, dep, end, Emplace(acc, p.value.key, p.value.v));
      }
    }
  }

  lemma {:induction false} ReadMisreads(c: Classes, d: bytes, lim: nat, cur: nat, dep: nat, was: Value, len: nat,
                                        v: Value)
    requires Good(c) && Loose(c, v) && HasNull(v) && dep <= MAX_DEPTH && InBuffer(d, lim, cur, Payload(v))
    requires ClosedAt(d, lim, cur + |Payload(v)|) || !EndsOpen(v)
    ensures cur <= lim <= |d| && Misread(Read(c, d, lim, cur, dep, TEntryValue, was, len), v, cur + |Payload(v)|)
    decreases v, 1
  {
    hide Read, Le, Tlv1, HeadAt, Default, Payload, EntryAlts, InBuffer, Good, EncPairs, Sorted, ReadPairs, NullIn;
    hide NullAtEndOf, FilledPairs, ClosedAt;
    Bounds(d, lim, cur, Payload(v));
    if v.val.Null? {
      NullMisread(c, d, lim, cur, dep, was, len, v);
    } else {
      LooseObject(c, v);
      ObjectBytes(d, lim, cur, v);
      VariantTurn(c, d, lim, cur, dep, was, len, 9);
      NullAlternatives();
      var at, pairs := cur + 10 + HEAD, v.val.pairs;
      var n := |EncPairs(TAG_MAP_VALUE_TYPE, pairs)|;
      Bounds(d, lim, at, EncPairs(TAG_MAP_VALUE_TYPE, pairs));
      ObjectTurn(c, d, lim, at, dep, Default(c, TPtr(TObject)), n);
      if dep + 2 <= MAX_DEPTH {
        NoneSorted();
        ReadPairsMisread(c, d, lim, at, dep + 2, at + n, [], pairs);
        var g := ReadPairs(c, d, lim, at, dep + 2, TObject, at + n, []);
        if g.Some? {
          DiffersIsDifferent(g.value.v.pairs, pairs);
        }
      }
    }
  }

  lemma NoneSorted()
    ensures Sorted<Value>([])
  {
  }

  /** Some key has another value, or none. */
  ghost predicate Differs(m: Items, pairs: Items)
  {
    exists i :: 0 <= i < |pairs| && Lookup(m, pairs[i].key) != Some(pairs[i].val)
  }

  lemma DiffersIsDifferent(m: Items, pairs: Items)
    requires Differs(m, pairs) && Sorted(pairs)
    ensures m != pairs
  {
    hide Lookup, Sorted;
    var i :| 0 <= i < |pairs| && Lookup(m, pairs[i].key) != Some(pairs[i].val);
    LookupOfSorted(pairs, i);
  }

  lemma DiffersMore(m: Items, p: Pair<Value>, rest: Items)
    requires Differs(m, rest)
    ensures Differs(m, [p] + rest)
  {
    hide Lookup;
    var i :| 0 <= i < |rest| && Lookup(m, rest[i].key) != Some(rest[i].val);
    assert ([p] + rest)[i + 1] == rest[i];
  }

  /** The first pair with a null: its value is misread, and its key keeps the wrong value. */
  lemma PairMisread(c: Classes, d: bytes, lim: nat, cur: nat, dep: nat, end: nat, acc: Items, p: Pair<Value>, at: nat,
                    pairs: Items)
    requires pairs != [] && pairs[0] == p && cur < end
    requires Sorted(acc) && forall i :: 0 <= i < |acc| ==> Less(acc[i].key, p.key)
    requires cur <= at <= lim <= |d|
    requires var g := Read(c, d, lim, at, dep, TEntryValue, Default(c, TEntryValue), |Payload(p.val)|);
             && (g.Some? ==> g.value.v != p.val)
             && ReadPair(c, d, lim, cur, dep, TObject) ==
                if g.None? then None else Some(GotPair(p.key, g.value.v, g.value.cur))
    ensures var r := ReadPairs(c, d, lim, cur, dep, TObject, end, acc);
            r.Some? ==> r.value.v.Dict? && Differs(r.value.v.pairs, pairs)
  {
    hide Read, ReadPair, ReadPairs, Payload, Default, Less, Emplace, Lookup, Sorted;
    var g := Read(c, d, lim, at, dep, TEntryValue, Default(c, TEntryValue), |Payload(p.val)|);
    PairsTurn(c, d, lim, cur, dep, TObject, end, acc);
    if g.Some? {
      var w := g.value.v;
      EmplaceLast(acc, p.key, w);
      var next := acc + [Pair(p.key, w)];
      EmplaceSorted(acc, p.key, w);
      LookupOfSorted(next, |acc|);
      PairsKeep(c, d, lim, g.value.cur, dep, end, next, p.key);
      var r := ReadPairs(c, d, lim, cur, dep, TObject, end, acc);
      if r.Some? {
        assert Lookup(r.value.v.pairs, pairs[0].key) != Some(pairs[0].val);
      }
    }
  }

  lemma {:induction false} ReadPairsMisread(c: Classes, d: bytes, lim: nat, cur: nat, dep: nat, end: nat, acc: Items,
                                            pairs: Items)
    requires Good(c) && dep <= MAX_DEPTH && Sorted(pairs) && Sorted(acc) && NullIn(pairs)
    requires forall i :: 0 <= i < |pairs| ==> Loose(c, pairs[i].val)
    requires forall i, j :: 0 <= i < |acc| && 0 <= j < |pairs| ==> Less(acc[i].key, pairs[j].key)
    requires InBuffer(d, lim, cur, EncPairs(TAG_MAP_VALUE_TYPE, pairs)) &&
             end == cur + |EncPairs(TAG_MAP_VALUE_TYPE, pairs)|
    requires ClosedAt(d, lim, end) || !EndOpen(pairs)
    ensures cur <= lim <= |d|
    ensures var g := ReadPairs(c, d, lim, cur, dep, TObject, end, acc);
            g.Some? ==> g.value.v.Dict? && Differs(g.value.v.pairs, pairs)
    decreases pairs, 0
  {
    hide ReadPairs, ReadPair, InBuffer, EncPair, EncPairs, Good, WellTyped, Norm, Need, Less, Loose, HasNull, EndOpen;
    hide ClosedAt, Emplace, Read, Payload, Differs, Sorted, EndsOpen;
    var p, rest := pairs[0], pairs[1..];
    var one := EncPair(TAG_MAP_VALUE_TYPE, p);
    assert pairs == [p] + rest;
    PairsBytes(p, rest);
    Bounds(d, lim, cur, EncPairs(TAG_MAP_VALUE_TYPE, pairs));
    InBufferSplit(d, lim, cur, one, EncPairs(TAG_MAP_VALUE_TYPE, rest));
    PairLength(TAG_MAP_VALUE_TYPE, p);
    OpenTail(p, rest);
    SortedTail(acc, p, rest);
    if HasNull(p.val) {
      LooseIsVariant(c, p.val);
      var at := PairTurn(c, d, lim, cur, dep, p);
      if rest != [] {
        KeyIsClosed(d, lim, at + |Payload(p.val)|, p, rest);
      }
      ReadMisreads(c, d, lim, at, dep, Default(c, TEntryValue), |Payload(p.val)|, p.val);
      PairMisread(c, d, lim, cur, dep, end, acc, p, at, pairs);
    } else {
      LooseIsTyped(c, p.val);
      ValueIsNormal(c, p.val);
      ReadPairsStep(c, d, lim, cur, dep, TObject, end, acc, p);
      assert Pair(p.key, p.val) == p;
      if dep + Need(c, TEntryValue, p.val) <= MAX_DEPTH {
        ReadPairsMisread(c, d, lim, cur + |one|, dep, end, acc + [p], rest);
        var g := ReadPairs(c, d, lim, cur, dep, TObject, end, acc);
        if g.Some? {
          DiffersMore(g.value.v.pairs, p, rest);
        }
      }
    }
  }

  lemma PairsBytes(p: Pair<Value>, rest: Items)
    ensures EncPairs(TAG_MAP_VALUE_TYPE, [p] + rest) ==
            EncPair(TAG_MAP_VALUE_TYPE, p) + EncPairs(TAG_MAP_VALUE_TYPE, rest)
    ensures rest == [] ==> EncPairs(TAG_MAP_VALUE_TYPE, rest) == []
  {
    hide EncPair;
    assert ([p] + rest)[1..] == rest;
  }

  /** How openness passes from a list of pairs to its parts. */
  lemma OpenTail(p: Pair<Value>, rest: Items)
    ensures rest == [] ==> (EndOpen([p] + rest) <==> EndsOpen(p.val))
    ensures rest != [] && !HasNull(p.val) && EndOpen(rest) ==> EndOpen([p] + rest)
    ensures NullIn([p] + rest) && !HasNull(p.val) ==> NullIn(rest)
  {
    hide NullAtEnd, FilledIn, HasNull;
    var all := [p] + rest;
    assert all[0] == p && all[1..] == rest;
    if rest == [] && EndOpen(all) {
      assert FilledPairs(all)[0] == all[0];
    }
  }

  lemma SortedTail(acc: Items, p: Pair<Value>, rest: Items)
    requires Sorted(acc) && Sorted([p] + rest)
    requires forall i, j :: 0 <= i < |acc| && 0 <= j < |[p] + rest| ==> Less(acc[i].key, ([p] + rest)[j].key)
    ensures Sorted(rest) && (forall i :: 0 <= i < |acc| ==> Less(acc[i].key, p.key)) && Sorted(acc + [p])
    ensures forall i, j :: 0 <= i < |acc + [p]| && 0 <= j < |rest| ==> Less((acc + [p])[i].key, rest[j].key)
  {
    hide Less;
    var all := [p] + rest;
    assert all[0] == p && forall j :: 0 <= j < |rest| ==> all[j + 1] == rest[j];
  }

  /** The key behind a pair is larger than its key, so it is not empty. */
  lemma KeyIsClosed(d: bytes, lim: nat, at: nat, p: Pair<Value>, rest: Items)
    requires rest != [] && Sorted([p] + rest) && InBuffer(d, lim, at, EncPairs(TAG_MAP_VALUE_TYPE, rest))
    ensures lim <= |d| && ClosedAt(d, lim, at)
  {
    hide EncPairs, Payload, At, HeadAt, Tlv1, Enc;
    var q := rest[0];
    assert ([p] + rest)[0] == p && ([p] + rest)[1] == q;
    assert Less(p.key, q.key);
    PairsBytes(q, rest[1..]);
    assert rest == [q] + rest[1..];
    InBufferSplit(d, lim, at, EncPair(TAG_MAP_VALUE_TYPE, q), EncPairs(TAG_MAP_VALUE_TYPE, rest[1..]));
    InBufferSplit(d, lim, at, Tlv1(TAG_MAP_KEY, q.key), Enc(TAG_MAP_VALUE_TYPE, q.val));
    HeadBack(d, at, TAG_MAP_KEY, q.key);
  }

  // ----- the zero tail behind an entry

  /** Only zero bytes are left from here on. */
  ghost predicate ZerosFrom(d: bytes, cur: nat) { cur <= |d| && forall i :: cur <= i < |d| ==> d[i] == 0 }

  lemma ZeroHead(d: bytes, cur: nat)
    requires ZerosFrom(d, cur) && cur + HEAD <= |d| < TWO32
    ensures BlankAt(d, |d|, cur) && ZerosFrom(d, cur + HEAD)
  {
    assert d[cur..cur + HEAD] == Zeros(HEAD);
  }

  /** Behind the value only blank heads are read, if anything, and they change nothing. */
  lemma {:induction false} TailIsSkipped(c: Classes, d: bytes, cur: nat, kind: Kind, fields: seq<Value>)
    requires cur <= |d| < TWO32 && ZerosFrom(d, cur)
    ensures var r := ReadFields(c, d, |d|, cur, 0, kind, fields);
            && (r.Some? ==> r.value.v == Struct(c.order(kind), c.finish(kind, fields)))
            && ((|d| - cur) % HEAD == 0 ==> r.Some?)
    decreases |d| - cur
  {
    hide ReadField, ReadFields, ZerosFrom;
    if cur < |d| {
      FieldsTurn(c, d, |d|, cur, 0, kind, fields);
      BlankField(c, d, cur, kind, fields);
      if cur + HEAD <= |d| {
        ZeroHead(d, cur);
        TailIsSkipped(c, d, cur + HEAD, kind, fields);
      }
    } else {
      NoFieldsLeft(c, d, cur, kind, fields);
    }
  }

  lemma NoFieldsLeft(c: Classes, d: bytes, cur: nat, kind: Kind, fields: seq<Value>)
    requires cur == |d|
    ensures ReadFields(c, d, |d|, cur, 0, kind, fields) == Some(Got(Struct(c.order(kind), c.finish(kind, fields)), cur))
  {
    hide ReadField;
  }

  lemma BlankField(c: Classes, d: bytes, cur: nat, kind: Kind, fields: seq<Value>)
    requires ZerosFrom(d, cur) && |d| < TWO32
    ensures ReadField(c, d, |d|, cur, 0, kind, fields) ==
            if cur + HEAD > |d| then None else Some(Step(fields, cur + HEAD))
  {
    hide Read, HeadAt, BlankAt;
    if cur + HEAD <= |d| {
      ZeroHead(d, cur);
      BlankHeadAt(d, |d|, cur);
    }
  }

  // ----- entries

  /** The fields of an entry are read up to its value, and then what comes behind that. */
  lemma EntryReads(d: bytes, lim: nat, cur: nat, dep: nat, e: Entry) returns (at: nat)
    requires InBuffer(d, lim, cur, EncFields(ENTRY_ORDER, EntryFields(e))) && dep <= MAX_DEPTH && e.value.Variant?
    ensures at + |Payload(e.value)| == cur + |EncFields(ENTRY_ORDER, EntryFields(e))| <= lim <= |d|
    ensures InBuffer(d, lim, at, Payload(e.value))
    ensures var g := Read(PasteClasses(), d, lim, at, dep, TEntryValue, EvMono(), |Payload(e.value)|);
            ReadFields(PasteClasses(), d, lim, cur, dep, KEntry, PasteClasses().initial(KEntry)) ==
            if g.None? then None
            else ReadFields(PasteClasses(), d, lim, g.value.cur, dep, KEntry, EntryFields(e.(value := g.value.v)))
  {
    hide Read, ReadFields, InBuffer, PasteClasses, Enc, EncFields, EvMono, Payload, HeadAt;
    var c := PasteClasses();
    var start := EntryValueIsNext(d, lim, dep, cur, e);
    Bounds(d, lim, start, Enc(TagOf(2), e.value));
    EntryBytes(e);
    TextPayload(e.utdId);
    TextPayload(e.mime);
    EncLength(TagOf(0), Text(e.utdId));
    EncLength(TagOf(1), Text(e.mime));
    EncLength(TagOf(2), e.value);
    EncBack(d, lim, start, TagOf(2), e.value);
    at := start + HEAD;
    var now := [Text(e.utdId), Text(e.mime), EvMono()];
    FieldsTurn(c, d, lim, start, dep, KEntry, now);
    ValueField(d, lim, start, dep, now, |Payload(e.value)|);
    var g := Read(c, d, lim, at, dep, TEntryValue, EvMono(), |Payload(e.value)|);
    if g.Some? {
      assert now[2 := g.value.v] == EntryFields(e.(value := g.value.v));
    }
  }

  /** Everything the value contributes is known once it has been read. */
  lemma EntryDecodes(e: Entry, k: nat) returns (d: bytes, at: nat)
    requires e.value.Variant? && |EncFields(ENTRY_ORDER, EntryFields(e))| + HEAD * k < TWO32
    ensures d == EncFields(ENTRY_ORDER, EntryFields(e)) + Zeros(HEAD * k)
    ensures InBuffer(d, |d|, at, Payload(e.value)) && |d| < TWO32
    ensures at + |Payload(e.value)| + HEAD * k == |d| && ZerosFrom(d, at + |Payload(e.value)|)
    ensures var g := Read(PasteClasses(), d, |d|, at, 0, TEntryValue, EvMono(), |Payload(e.value)|);
            Decode(PasteClasses(), KEntry, d) ==
            if g.None? then None
            else
              var r := ReadFields(PasteClasses(), d, |d|, g.value.cur, 0, KEntry, EntryFields(e.(value := g.value.v)));
              if r.None? then None else Some(r.value.v)
  {
    hide Read, ReadFields, InBuffer, PasteClasses, EncFields, EvMono, Payload, EntryFields;
    var a := EncFields(ENTRY_ORDER, EntryFields(e));
    d := a + Zeros(HEAD * k);
    FrontBuffer(a, Zeros(HEAD * k));
    at := EntryReads(d, |d|, 0, 0, e);
    assert forall i :: |a| <= i < |d| ==> d[i] == 0;
  }

  lemma ValueField(d: bytes, lim: nat, cur: nat, dep: nat, now: seq<Value>, len: nat)
    requires |now| == 3 && cur + HEAD <= lim <= |d| && HeadAt(d, cur) == Head(TagOf(2), len)
    ensures var g := Read(PasteClasses(), d, lim, cur + HEAD, dep, TEntryValue, now[2], len);
            ReadField(PasteClasses(), d, lim, cur, dep, KEntry, now) ==
            if g.None? then None else Some(Step(now[2 := g.value.v], g.value.cur))
  {
    hide Read, HeadAt, PasteClasses;
    EntryTypes();
  }

  /** An entry whose only null is at its very end, with a tail behind it: the null takes a blank head. */
  lemma NullAtEndArrives(e: Entry, k: nat)
    requires Loose(PasteClasses(), e.value) && NullAtEnd(e.value) && k > 0
    requires |EncFields(ENTRY_ORDER, EntryFields(e))| + HEAD * k < TWO32
    ensures Decode(PasteClasses(), KEntry, EncFields(ENTRY_ORDER, EntryFields(e)) + Zeros(HEAD * k)) ==
            if Nesting(FilledIn(e.value)) <= 5
            then Some(Struct(ENTRY_ORDER, EntryFields(e.(value := FilledIn(e.value))))) else None
  {
    hide Read, ReadFields, InBuffer, PasteClasses, EncFields, EvMono, Payload, Loose, NullAtEnd, FilledIn, Nesting;
    hide Decode, EntryFields, ZerosFrom, Good, BlankAt;
    var c := PasteClasses();
    LooseIsVariant(c, e.value);
    var d, at := EntryDecodes(e, k);
    var end := at + |Payload(e.value)|;
    ZeroHead(d, end);
    ClassesAreGood();
    ReadFilled(c, d, |d|, at, 0, EvMono(), |Payload(e.value)|, e.value);
    if Nesting(FilledIn(e.value)) <= 5 {
      var f := EntryFields(e.(value := FilledIn(e.value)));
      assert |d| - (end + HEAD) == HEAD * (k - 1);
      TailIsSkipped(c, d, end + HEAD, KEntry, f);
      FinishPaste(f);
    }
  }

  /**
   Exactly when an entry comes back, for every tail: it nests at most five deep, and either holds no
   null pointer, or its only one is a Want or PixelMap at the very end with a blank head behind it.
   */
  lemma EntryComesBack(e: Entry, k: nat)
    requires Loose(PasteClasses(), e.value) && |EncFields(ENTRY_ORDER, EntryFields(e))| + HEAD * k < TWO32
    ensures Decode(PasteClasses(), KEntry, EncFields(ENTRY_ORDER, EntryFields(e)) + Zeros(HEAD * k)) ==
            Some(Struct(ENTRY_ORDER, EntryFields(e))) <==>
            Nesting(e.value) <= 5 && (!HasNull(e.value) || (k > 0 && EndsOpen(e.value)))
  {
    hide Read, ReadFields, InBuffer, PasteClasses, EncFields, EvMono, Payload, Loose, HasNull, NullAtEnd, FilledIn;
    hide Nesting, Decode, ZerosFrom, Good;
    var c := PasteClasses();
    if !HasNull(e.value) {
      LooseIsTyped(c, e.value);
      EntryArrives(e, k);
    } else if k > 0 && NullAtEnd(e.value) {
      NullAtEndArrives(e, k);
      assert EntryFields(e.(value := FilledIn(e.value)))[2] == FilledIn(e.value);
    } else {
      LooseIsVariant(c, e.value);
      var d, at := EntryDecodes(e, k);
      ClassesAreGood();
      var end := at + |Payload(e.value)|;
      if k == 0 {
        EndIsClosed(d, end);
      }
      ReadMisreads(c, d, |d|, at, 0, EvMono(), |Payload(e.value)|, e.value);
      var g := Read(c, d, |d|, at, 0, TEntryValue, EvMono(), |Payload(e.value)|);
      if g.Some? {
        var f := EntryFields(e.(value := g.value.v));
        ZerosLater(d, end, g.value.cur);
        TailIsSkipped(c, d, g.value.cur, KEntry, f);
        FinishPaste(f);
        assert f[2] == g.value.v && EntryFields(e)[2] == e.value;
      }
    }
  }

  lemma EndIsClosed(d: bytes, lim: nat)
    requires lim <= |d|
    ensures ClosedAt(d, lim, lim)
  {
  }

  lemma ZerosLater(d: bytes, cur: nat, later: nat)
    requires ZerosFrom(d, cur) && cur <= later <= |d|
    ensures ZerosFrom(d, later)
  {
  }

  /** Without a tail, an entry comes back iff it holds no null pointer and nests at most five deep. */
  lemma EntryComesBackAlone(e: Entry)
    requires Loose(PasteClasses(), e.value) && |EncFields(ENTRY_ORDER, EntryFields(e))| < TWO32
    ensures Decode(PasteClasses(), KEntry, EncFields(ENTRY_ORDER, EntryFields(e))) ==
            Some(Struct(ENTRY_ORDER, EntryFields(e))) <==>
            Nesting(e.value) <= 5 && !HasNull(e.value)
  {
    hide Decode, EncFields, PasteClasses, Loose, Nesting, HasNull;
    EntryComesBack(e, 0);
    var a := EncFields(ENTRY_ORDER, EntryFields(e));
    assert a + Zeros(HEAD * 0) == a;
  }

  // ----- no bytes at all give a null Object

  /** No Object pointer in the value is null. */
  predicate Solid(v: Value)
    decreases v
  {
    match v
    case Variant(index, x) => !(index == 9 && x.Null?) && Solid(x)
    case Dict(_, pairs) => AllSolid(pairs)
    case _ => true
  }

  predicate AllSolid(pairs: Items)
    decreases pairs
  {
    pairs != [] ==> Solid(pairs[0].val) && AllSolid(pairs[1..])
  }

  lemma {:induction false} EmplaceKeepsSolid(m: Items, k: bytes, v: Value)
    requires AllSolid(m) && Solid(v)
    ensures AllSolid(Emplace(m, k, v))
    decreases |m|
  {
    hide Solid, Less;
    if m == [] || Less(k, m[0].key) {
      assert Emplace(m, k, v)[1..] == m;
    } else if m[0].key != k {
      EmplaceKeepsSolid(m[1..], k, v);
      assert Emplace(m, k, v)[1..] == Emplace(m[1..], k, v);
    }
  }

  lemma FlatIsSolid(c: Classes, d: bytes, lim: nat, cur: nat, dep: nat, ty: Ty, was: Value, len: nat)
    requires cur <= lim <= |d| && IsFlat(ty) && !ty.TParams?
    ensures var g := Read(c, d, lim, cur, dep, ty, was, len); g.Some? ==> Solid(g.value.v)
  {
    hide Read, Scalar;
    ReadOfFlat(c, d, lim, cur, dep, ty, was, len);
    if IsScalar(ty) && cur + len <= lim {
      ScalarIsSolid(ty, d[cur..cur + len]);
    }
  }

  lemma ScalarIsSolid(ty: Ty, b: bytes)
    requires IsScalar(ty)
    ensures Scalar(ty, b).Some? ==> Solid(Scalar(ty, b).value)
  {
    hide UnLe, ToSigned, Reversed;
  }

  lemma {:induction false} EntryValueIsSolid(c: Classes, d: bytes, lim: nat, cur: nat, dep: nat, was: Value, len: nat)
    requires cur <= lim <= |d| && Solid(was)
    ensures var g := Read(c, d, lim, cur, dep, TEntryValue, was, len); g.Some? ==> Solid(g.value.v)
    decreases lim - cur
  {
    hide Read, HeadAt, UnLe, Default, ReadPairs, AllSolid;
    VariantCases(c, d, lim, cur, dep, was, len);
    if cur + HEAD + 4 + HEAD <= lim {
      var index := UnLe(d[cur + HEAD..cur + HEAD + 4]);
      var at := cur + HEAD + 4 + HEAD;
      var n := HeadAt(d, cur + HEAD + 4).len;
      if index < 11 && index != 9 {
        AlternativeIsFlat(index);
        FlatIsSolid(c, d, lim, at, dep, EntryAlts()[index], Default(c, EntryAlts()[index]), n);
      } else if index == 9 {
        NullAlternatives();
        ObjectTurn(c, d, lim, at, dep, Default(c, TPtr(TObject)), n);
        if dep + 2 <= MAX_DEPTH && at + n <= lim {
          assert AllSolid([]) by { NoneSolid(); }
          PairsAreSolid(c, d, lim, at, dep + 2, at + n, []);
        }
      }
    }
  }

  lemma NoneSolid()
    ensures AllSolid([])
  {
  }

  lemma AlternativeIsFlat(index: nat)
    requires index < 11 && index != 9
    ensures IsFlat(EntryAlts()[index]) && !EntryAlts()[index].TParams?
  {
  }

  /** Reading a variant: nothing, the old value, or an alternative. */
  lemma VariantCases(c: Classes, d: bytes, lim: nat, cur: nat, dep: nat, was: Value, len: nat)
    requires cur <= lim <= |d|
    ensures var r := Read(c, d, lim, cur, dep, TEntryValue, was, len);
            r.Some? ==>
              && cur + HEAD + 4 <= lim
              && var index := UnLe(d[cur + HEAD..cur + HEAD + 4]);
              if index >= 11 then r.value.v == was
              else
                && cur + HEAD + 4 + HEAD <= lim
                && var alt := EntryAlts()[index];
                var g := Read(c, d, lim, cur + HEAD + 4 + HEAD, dep, alt, Default(c, alt),
                              HeadAt(d, cur + HEAD + 4).len);
                g.Some? && r.value.v == Variant(index, g.value.v)
  {
    hide HeadAt, UnLe, Default;
    assert Read(c, d, lim, cur, dep, TEntryValue, was, len) == ReadVariant(c, d, lim, cur, dep, TEntryValue, was);
    hide Read;
  }

  lemma {:induction false} PairsAreSolid(c: Classes, d: bytes, lim: nat, cur: nat, dep: nat, end: nat, acc: Items)
    requires cur <= lim <= |d| && AllSolid(acc)
    ensures var g := ReadPairs(c, d, lim, cur, dep, TObject, end, acc); g.Some? ==> g.value.v.Dict? && Solid(g.value.v)
    decreases lim - cur
  {
    hide Read, ReadPairs, HeadAt, Default, Emplace, AllSolid;
    if cur >= end {
      NoPairsLeft(c, d, lim, cur, dep, TObject, end, acc);
    } else {
      PairsTurn(c, d, lim, cur, dep, TObject, end, acc);
      var p := ReadPair(c, d, lim, cur, dep, TObject);
      if p.Some? {
        var at := cur + HEAD + HeadAt(d, cur).len;
        EntryDefault(c);
        EntryValueIsSolid(c, d, lim, at + HEAD, dep, Default(c, TEntryValue), HeadAt(d, at).len);
        EmplaceKeepsSolid(acc, p.value.key, p.value.v);
        PairsAreSolid(c, d, lim, p.value.cur, dep, end, Emplace(acc, p.value.key, p.value.v));
      }
    }
  }

  lemma EntryDefault(c: Classes)
    ensures Solid(Default(c, TEntryValue)) && Solid(EvMono())
  {
  }

  lemma {:induction false} EntryFieldsAreSolid(d: bytes, cur: nat, fields: seq<Value>)
    requires cur <= |d| && |fields| == 3 && Solid(fields[2])
    ensures var r := ReadFields(PasteClasses(), d, |d|, cur, 0, KEntry, fields);
            r.Some? ==> r.value.v.Struct? && |r.value.v.fields| == 3 && Solid(r.value.v.fields[2])
    decreases |d| - cur
  {
    hide Read, HeadAt, PasteClasses, Solid, ReadFields;
    var c := PasteClasses();
    EntryTypes();
    FinishPaste(fields);
    if cur < |d| {
      FieldsTurn(c, d, |d|, cur, 0, KEntry, fields);
      var s := ReadField(c, d, |d|, cur, 0, KEntry, fields);
      if s.Some? {
        var head := HeadAt(d, cur);
        if head.tag == TagOf(2) {
          EntryValueIsSolid(c, d, |d|, cur + HEAD, 0, fields[2], head.len);
        }
        EntryFieldsAreSolid(d, s.value.cur, s.value.fields);
      }
    } else {
      NoFieldsLeft(c, d, cur, KEntry, fields);
    }
  }

  /** Whatever the bytes are, no Object pointer in a decoded entry is null. */
  lemma NoBytesGiveNullObject(d: bytes)
    ensures var r := Decode(PasteClasses(), KEntry, d);
            r.Some? ==> r.value.Struct? && |r.value.fields| == 3 && Solid(r.value.fields[2])
  {
    hide ReadFields, PasteClasses, Solid;
    EntryTypes();
    EntryDefault(PasteClasses());
    EntryFieldsAreSolid(d, 0, PasteClasses().initial(KEntry));
  }

  /** So an entry with a null Object pointer anywhere never comes back, whatever is decoded. */
  lemma NullObjectNeverComesBack(e: Entry, d: bytes)
    requires !Solid(e.value)
    ensures Decode(PasteClasses(), KEntry, d) != Some(Struct(ENTRY_ORDER, EntryFields(e)))
  {
    hide Decode, PasteClasses, Solid;
    NoBytesGiveNullObject(d);
    assert EntryFields(e)[2] == e.value;
  }

  // ----- two entries

  /** An Object of a Want w under key a, and a null pointer of the given alternative under key b. */
  function WantAndNull(a: bytes, w: bytes, b: bytes, index: uint32): Value
  {
    EvObject([Pair(a, EvWant(w)), Pair(b, Variant(index, Null))])
  }

  /** Two pairs, and what they add up to. */
  lemma TwoPairs(p: Pair<Value>, q: Pair<Value>)
    ensures NestingOf([p, q]) == Max(Nesting(p.val), Nesting(q.val))
    ensures SharedInPairs([p, q]) == SharedIn(p.val) + SharedIn(q.val)
    ensures NullIn([p, q]) <==> HasNull(p.val) || HasNull(q.val)
    ensures NullAtEndOf([p, q]) <==> !HasNull(p.val) && NullAtEnd(q.val)
    ensures FilledPairs([p, q]) == [p, Pair(q.key, FilledIn(q.val))]
  {
    hide Nesting, SharedIn, HasNull, NullAtEnd, FilledIn;
    var none: Items, one: Items, two: Items := [], [q], [p, q];
    assert two[1..] == one && one[1..] == none;
    assert NestingOf(none) == 0 && SharedInPairs(none) == 0 && !NullIn(none);
    assert NestingOf(one) == Nesting(q.val) && SharedInPairs(one) == SharedIn(q.val) && NullIn(one) == HasNull(q.val);
    assert FilledPairs(one) == [Pair(q.key, FilledIn(q.val))];
  }

  lemma WantIs(w: bytes)
    ensures Nesting(EvWant(w)) == 0 && SharedIn(EvWant(w)) == 1 && !HasNull(EvWant(w))
    ensures w != [] ==> Loose(PasteClasses(), EvWant(w))
  {
    assert Nesting(Shared(w)) == 0 && SharedIn(Shared(w)) == 1;
    assert EntryAlts()[7] == TWant && (w != [] ==> WellTyped(PasteClasses(), TWant, Shared(w)));
  }

  lemma NullIs(index: uint32)
    requires 7 <= index <= 9
    ensures var v := Variant(index, Null);
            && Nesting(v) == 0 && SharedIn(v) == 0 && HasNull(v) && NullAtEnd(v) && Loose(PasteClasses(), v)
            && FilledIn(v) == if index == 9 then EvObject([]) else v
  {
    assert Nesting(Null) == 0 && SharedIn(Null) == 0;
  }

  lemma WantAndNullIs(a: bytes, w: bytes, b: bytes, index: uint32)
    requires Less(a, b) && w != [] && 7 <= index <= 9
    ensures var v := WantAndNull(a, w, b, index);
            && Loose(PasteClasses(), v) && HasNull(v) && NullAtEnd(v) && Nesting(v) == 1 && SharedIn(v) == 1
            && FilledIn(v) == (if index == 9 then EvObject([Pair(a, EvWant(w)), Pair(b, EvObject([]))]) else v)
            && Nesting(FilledIn(v)) <= 2
  {
    hide PasteClasses, Less, NullIn, NullAtEndOf, NestingOf, SharedInPairs, FilledPairs, EntryAlts, WellTyped;
    var p, q := Pair(a, EvWant(w)), Pair(b, Variant(index, Null));
    TwoPairs(p, q);
    WantIs(w);
    NullIs(index);
    TwoPairs(p, Pair(b, EvObject([])));
    EmptyObjectNests();
    var v, x := WantAndNull(a, w, b, index), Dict(TAG_MAP_VALUE_TYPE, [p, q]);
    assert v == Variant(9, x) && Nesting(x) == 1 + NestingOf([p, q]) && SharedIn(x) == SharedInPairs([p, q]);
    assert FilledIn(v) == Variant(9, Dict(TAG_MAP_VALUE_TYPE, FilledPairs([p, q])));
    var y := Dict(TAG_MAP_VALUE_TYPE, FilledPairs([p, q]));
    assert Nesting(y) == 1 + NestingOf(FilledPairs([p, q]));
  }

  lemma EntryShares(e: Entry)
    ensures SharedInFields(ENTRY_ORDER, EntryFields(e)) == SharedIn(e.value)
  {
    hide SharedIn;
    var f := EntryFields(e);
    TextShares(e.utdId);
    TextShares(e.mime);
    assert SharedInFields([], f) == 0;
    assert SharedInFields([2], f) == SharedIn(e.value) by { assert [2][1..] == []; }
    assert SharedInFields([1, 2], f) == SharedIn(e.value) by { assert [1, 2][1..] == [2]; }
    assert SharedInFields([0, 1, 2], f) == SharedIn(e.value) by { assert [0, 1, 2][1..] == [1, 2]; }
  }

  lemma TextShares(s: bytes)
    ensures SharedIn(Text(s)) == 0
  {
  }

  /**
   What Encode leaves for an entry that holds a Want and, behind it, a null pointer: the zero bytes
   over-counted for the Want serve as the missing head. A null Want or PixelMap comes back as itself,
   and a null Object comes back as an empty one.
   */
  lemma WantLendsItsTail(utdId: bytes, mime: bytes, a: bytes, w: bytes, b: bytes, index: uint32)
    requires Less(a, b) && w != [] && 7 <= index <= 9
    requires var f := EntryFields(Entry(utdId, mime, WantAndNull(a, w, b, index)));
             |EncFields(ENTRY_ORDER, f)| + HEAD * SharedInFields(ENTRY_ORDER, f) < TWO32
    ensures var f := EntryFields(Entry(utdId, mime, WantAndNull(a, w, b, index)));
            Decode(PasteClasses(), KEntry, EncFields(ENTRY_ORDER, f) + Zeros(HEAD * SharedInFields(ENTRY_ORDER, f))) ==
            Some(Struct(ENTRY_ORDER, if index == 9
                                     then EntryFields(Entry(utdId, mime, EvObject([Pair(a, EvWant(w)),
                                                                                   Pair(b, EvObject([]))])))
                                     else f))
  {
    hide Decode, EncFields, PasteClasses, Loose, NullAtEnd, FilledIn, Nesting, SharedInFields, SharedIn, Less, HasNull;
    hide WantAndNull, EvObject, EvWant;
    var e := Entry(utdId, mime, WantAndNull(a, w, b, index));
    WantAndNullIs(a, w, b, index);
    EntryShares(e);
    NullAtEndArrives(e, 1);
  }
}
