/**
 The cursor-based reader of framework/tlv (tlv_buffer.h, tlv_readable.h, tlv_readable.cpp), in place:
 total_ is narrowed for a nested structure and restored, the recursion guard counts depth. Every
 method agrees with its function in ReaderSpec, and restores total_ and depth on success and on failure.
 */
module Reader {
  import opened Bytes
  import opened Assoc
  import opened Tlv
  import opened ReaderSpec

  class ReadOnlyBuffer {
    const data: bytes
    const classes: Classes
    var total: nat
    var cursor: nat
    var depth: nat

    constructor (classes: Classes, data: bytes)
      ensures Valid() && this.data == data && this.classes == classes
      ensures total == |data| && cursor == 0 && depth == 0
    {
      this.data, this.classes := data, classes;
      total, cursor, depth := |data|, 0, 0;
    }

    predicate Valid()
      reads this
    {
      cursor <= total <= |data|
    }

    predicate HasExpectBuffer(len: nat)
      reads this
    {
      total >= cursor && total - cursor >= len
    }

    predicate IsEnough()
      reads this
    {
      cursor < total
    }

    method Skip(len: nat) returns (ok: bool)
      requires Valid()
      modifies this`cursor
      ensures Valid() && ok == (old(cursor) + len <= total)
      ensures cursor == if ok then old(cursor) + len else old(cursor)
    {
      if len > total - cursor {
        return false;
      }
      cursor := cursor + len;
      ok := true;
    }

    method ReadHead() returns (ok: bool, head: Head)
      requires Valid()
      modifies this`cursor
      ensures Valid() && ok == (old(cursor) + HEAD <= total)
      ensures ok ==> head == HeadAt(data, old(cursor)) && cursor == old(cursor) + HEAD
      ensures !ok ==> cursor == old(cursor)
    {
      head := Head(0, 0);
      ok := HasExpectBuffer(HEAD);
      if ok {
        head := Head(UnLe(data[cursor..cursor + 2]), UnLe(data[cursor + 2..cursor + HEAD]));
        cursor := cursor + HEAD;
      }
    }

    /** The results of a read, and the state it leaves, are those of its specification. */
    twostate predicate Follows(spec: Option<Got>, ok: bool, v: Value)
      reads this
    {
      && Valid() && total == old(total) && depth == old(depth) && old(cursor) <= cursor
      && ok == spec.Some? && (ok ==> spec == Some(Got(v, cursor)))
    }

    /** ReadValue for the overloads that only look at their payload. */
    method ReadFlatValue(ty: Ty, was: Value, len: nat) returns (ok: bool, v: Value)
      requires Valid() && IsFlat(ty)
      modifies this`cursor
      ensures Follows(Read(classes, data, total, old(cursor), depth, ty, was, len), ok, v)
    {
      hide ReadFlat, Read;
      ReadOfFlat(classes, data, total, cursor, depth, ty, was, len);
      v := was;
      var n := FlatLength(ty, len);
      if !HasExpectBuffer(n) {
        return false, v;
      }
      if ty.TF64? {
        ok, v := ReadDouble(was, n);
        return;
      }
      var r := ReadFlat(ty, was, data[cursor..cursor + n]);
      if r.None? {
        return false, v;
      }
      cursor := cursor + n;
      ok, v := true, r.value;
    }

    /** A double is put back into the host's order. */
    method ReadDouble(was: Value, len: nat) returns (ok: bool, v: Value)
      requires Valid() && cursor + len <= total
      modifies this`cursor
      ensures Follows(Read(classes, data, total, old(cursor), depth, TF64, was, len), ok, v)
    {
      ReadOfFlat(classes, data, total, cursor, depth, TF64, was, len);
      if len != 8 {
        return false, was;
      }
      var host := ConvertDouble(data[cursor..cursor + len]);
      cursor := cursor + len;
      ok, v := true, F64(host);
    }

    method ReadValue(ty: Ty, was: Value, len: nat) returns (ok: bool, v: Value)
      requires Valid()
      modifies this
      ensures Follows(Read(classes, data, old(total), old(cursor), old(depth), ty, was, len), ok, v)
      decreases total - cursor, ty, 1
    {
      if IsFlat(ty) {
        ok, v := ReadFlatValue(ty, was, len);
      } else if IsMap(ty) {
        ok, v := ReadMap(ty, was, len);
      } else if IsVariant(ty) {
        ok, v := ReadVariantValue(ty, was);
      } else if ty.TPtr? {
        ok, v := ReadPointer(ty, was, len);
      } else if ty.TVec? {
        ok, v := ReadVector(ty.elem, was, len);
      } else {
        ok, v := ReadStruct(ty.kind, was, len);
      }
    }

    /** std::shared_ptr<T>: one guard, a fresh T. */
    method ReadPointer(ty: Ty, was: Value, len: nat) returns (ok: bool, v: Value)
      requires Valid() && ty.TPtr?
      modifies this
      ensures Follows(Read(classes, data, old(total), old(cursor), old(depth), ty, was, len), ok, v)
      decreases total - cursor, ty, 0
    {
      depth := depth + 1;
      if depth > MAX_DEPTH {
        ok, v := false, was;
      } else {
        ok, v := ReadValue(ty.elem, Default(classes, ty.elem), len);
      }
      depth := depth - 1;
    }

    /** std::vector<T>: the end is checked against the whole buffer, then one guard. */
    method ReadVector(elem: Ty, was: Value, len: nat) returns (ok: bool, v: Value)
      requires Valid()
      modifies this
      ensures Follows(Read(classes, data, old(total), old(cursor), old(depth), TVec(elem), was, len), ok, v)
      decreases total - cursor, TVec(elem), 0
    {
      v := was;
      if cursor > TWO32 - 1 - len || cursor + len > |data| {
        return false, v;
      }
      var vectorEnd := cursor + len;
      depth := depth + 1;
      if depth > MAX_DEPTH {
        depth := depth - 1;
        return false, v;
      }
      ok, v := ReadVectorItems(elem, vectorEnd, AsItems(was));
      depth := depth - 1;
    }

    method ReadVectorItems(elem: Ty, vectorEnd: nat, was: seq<Value>) returns (ok: bool, v: Value)
      requires Valid()
      modifies this
      ensures Follows(ReadItems(classes, data, old(total), old(cursor), old(depth), elem, vectorEnd, was), ok, v)
      decreases total - cursor, elem, 2, 1
    {
      var items := was;
      v := Null;
      while cursor < vectorEnd
        invariant Valid() && total == old(total) && depth == old(depth) && old(cursor) <= cursor
        invariant ReadItems(classes, data, total, old(cursor), depth, elem, vectorEnd, was) ==
                  ReadItems(classes, data, total, cursor, depth, elem, vectorEnd, items)
        decreases total - cursor
      {
        var item;
        ok, item := ReadHeaded(elem);
        if !ok {
          return;
        }
        items := items + [item];
      }
      ok, v := true, List(items);
    }

    /** A head and a fresh value: an item of a vector, or the alternative of a variant. */
    method ReadHeaded(elem: Ty) returns (ok: bool, item: Value)
      requires Valid()
      modifies this
      ensures Valid() && total == old(total) && depth == old(depth) && old(cursor) <= cursor
      ensures ok ==> old(cursor) + HEAD <= cursor
      ensures var spec := if old(cursor) + HEAD > total then None
                          else Read(classes, data, total, old(cursor) + HEAD, depth, elem, Default(classes, elem),
                                    HeadAt(data, old(cursor)).len);
              ok == spec.Some? && (ok ==> spec == Some(Got(item, cursor)))
      decreases total - cursor, elem, 2, 0
    {
      hide Read, HeadAt, Default;
      item := Null;
      var head;
      ok, head := ReadHead();
      if ok {
        ok, item := ReadValue(elem, Default(classes, elem), head.len);
      }
    }

    /** The string maps, Details and Object; only Object takes a guard. */
    method ReadMap(ty: Ty, was: Value, len: nat) returns (ok: bool, v: Value)
      requires Valid() && IsMap(ty)
      modifies this
      ensures Follows(Read(classes, data, old(total), old(cursor), old(depth), ty, was, len), ok, v)
      decreases total - cursor, ty, 0
    {
      v := was;
      if !HasExpectBuffer(len) {
        return false, v;
      }
      var mapEnd := cursor + len;
      if ty.TObject? {
        depth := depth + 1;
        if depth > MAX_DEPTH {
          depth := depth - 1;
          return false, v;
        }
        ok, v := ReadMapPairs(ty, mapEnd, AsPairs(was));
        depth := depth - 1;
      } else {
        ok, v := ReadMapPairs(ty, mapEnd, AsPairs(was));
      }
    }

    method ReadMapPairs(ty: Ty, mapEnd: nat, was: Items) returns (ok: bool, v: Value)
      requires Valid() && IsMap(ty)
      modifies this
      ensures Follows(ReadPairs(classes, data, old(total), old(cursor), old(depth), ty, mapEnd, was), ok, v)
      decreases total - cursor, ty, 0, 1
    {
      var items := was;
      v := Null;
      while cursor < mapEnd
        invariant Valid() && total == old(total) && depth == old(depth) && old(cursor) <= cursor
        invariant ReadPairs(classes, data, total, old(cursor), depth, ty, mapEnd, was) ==
                  ReadPairs(classes, data, total, cursor, depth, ty, mapEnd, items)
        decreases total - cursor
      {
        var key, item;
        ok, key, item := ReadMapPair(ty);
        if !ok {
          return;
        }
        items := Emplace(items, key, item);
      }
      ok, v := true, Dict(MapTag(ty), items);
    }

    method ReadMapPair(ty: Ty) returns (ok: bool, key: bytes, item: Value)
      requires Valid() && IsMap(ty)
      modifies this
      ensures Valid() && total == old(total) && depth == old(depth) && old(cursor) <= cursor
      ensures ok ==> old(cursor) + 2 * HEAD <= cursor
      ensures var spec := ReadPair(classes, data, total, old(cursor), depth, ty);
              ok == spec.Some? && (ok ==> spec == Some(GotPair(key, item, cursor)))
      decreases total - cursor, ty, 0, 0
    {
      var start := cursor;
      key, item := [], Null;
      var head;
      ok, head := ReadHead();
      if !ok || !HasExpectBuffer(head.len) {
        return false, key, item;
      }
      key := data[cursor..cursor + head.len];
      cursor := cursor + head.len;
      ok, head := ReadHead();
      if !ok {
        return;
      }
      ok, item := ReadValue(MapValue(ty), Default(classes, MapValue(ty)), head.len);
    }

    method ReadVariantValue(ty: Ty, was: Value) returns (ok: bool, v: Value)
      requires Valid() && IsVariant(ty)
      modifies this
      ensures Follows(ReadVariant(classes, data, old(total), old(cursor), old(depth), ty, was), ok, v)
      decreases total - cursor, ty, 0
    {
      hide Read, Default, UnLe, HeadAt;
      v := was;
      var index: nat;
      ok, index := ReadVariantIndex();
      if !ok || index >= |Alts(ty)| {
        return;
      }
      var x;
      ok, x := ReadHeaded(Alts(ty)[index]);
      if ok {
        v := Variant(index, x);
      }
    }

    /** The index of a variant: a field of exactly four bytes. */
    method ReadVariantIndex() returns (ok: bool, index: nat)
      requires Valid()
      modifies this`cursor
      ensures Valid() && old(cursor) <= cursor
      ensures ok == (old(cursor) + HEAD + 4 <= total && HeadAt(data, old(cursor)).len == 4)
      ensures ok ==> cursor == old(cursor) + HEAD + 4 && index == UnLe(data[old(cursor) + HEAD..cursor])
    {
      hide UnLe, HeadAt;
      index := 0;
      var head;
      ok, head := ReadHead();
      if !ok || head.len != 4 || !HasExpectBuffer(4) {
        return false, 0;
      }
      index := UnLe(data[cursor..cursor + 4]);
      cursor := cursor + 4;
    }

    /** A nested TLVReadable: total_ is narrowed to it and restored. */
    method ReadStruct(kind: Kind, was: Value, len: nat) returns (ok: bool, v: Value)
      requires Valid()
      modifies this
      ensures Follows(Read(classes, data, old(total), old(cursor), old(depth), TStruct(kind), was, len), ok, v)
      ensures ok ==> cursor == old(cursor) + len
      decreases total - cursor, TStruct(kind), 0, 2
    {
      if !HasExpectBuffer(len) {
        return false, was;
      }
      var saved := total;
      total := cursor + len;
      ok, v := DecodeTLV(kind, AsFields(was));
      total := saved;
    }

    /** DecodeTLV of a class: dispatch on the tags until total_ is reached, then finish. */
    method DecodeTLV(kind: Kind, was: seq<Value>) returns (ok: bool, v: Value)
      requires Valid()
      modifies this
      ensures Follows(ReadFields(classes, data, old(total), old(cursor), old(depth), kind, was), ok, v)
      ensures ok ==> cursor == total
      decreases total - cursor, TStruct(kind), 0, 1
    {
      var fields := was;
      v := Null;
      while IsEnough()
        invariant Valid() && total == old(total) && depth == old(depth) && old(cursor) <= cursor
        invariant ReadFields(classes, data, total, old(cursor), depth, kind, was) ==
                  ReadFields(classes, data, total, cursor, depth, kind, fields)
        decreases total - cursor
      {
        ok, fields := ReadOneField(kind, fields);
        if !ok {
          return;
        }
      }
      ok, v := true, Struct(classes.order(kind), classes.finish(kind, fields));
    }

    method ReadOneField(kind: Kind, was: seq<Value>) returns (ok: bool, fields: seq<Value>)
      requires Valid()
      modifies this
      ensures Valid() && total == old(total) && depth == old(depth) && old(cursor) <= cursor
      ensures ok ==> old(cursor) + HEAD <= cursor
      ensures var spec := ReadField(classes, data, total, old(cursor), depth, kind, was);
              ok == spec.Some? && (ok ==> spec == Some(Step(fields, cursor)))
      decreases total - cursor, TStruct(kind), 0, 0
    {
      fields := was;
      var head;
      ok, head := ReadHead();
      if !ok {
        return;
      }
      var i := head.tag - TagOf(0);
      if i < 0 || i >= |classes.types(kind)| || i >= |fields| {
        ok := Skip(head.len);
      } else {
        var v;
        ok, v := ReadValue(classes.types(kind)[i], fields[i], head.len);
        if ok {
          fields := fields[i := v];
        }
      }
    }
  }

  /** TLVReadable::Decode into a fresh object. */
  method DecodeBuffer(classes: Classes, kind: Kind, data: bytes) returns (r: Option<Value>)
    ensures r == Decode(classes, kind, data)
  {
    var buffer := new ReadOnlyBuffer(classes, data);
    var ok, v := buffer.DecodeTLV(kind, classes.initial(kind));
    r := if ok then Some(v) else None;
  }
}
