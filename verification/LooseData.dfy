/**
 Whole clipboard data with null pointers at any depth of its entries: exactly when it decodes to the
 received data. An entry inside a record is bounded by the length of its own structure, so no zero
 tail reaches it; the first entry of a record for another device is not (module NullFirst).
 */
module LooseData {
  import opened Bytes
  import opened Assoc
  import opened Tlv
  import opened ReaderSpec
  import opened RoundTrip
  import opened Ends
  import opened Unreadable
  import opened Misread
  import opened PasteModel
  import opened PasteCodec
  import opened Clipboard
  import opened NullValues
  import opened NullFirst
  import Writer
  import Reader

  /** Well formed, except that the values of entries may hold null pointers at any depth. */
  ghost predicate RecordLoose(r: Record)
  {
    FrameOk(r) && forall i :: 0 <= i < |r.entries| && r.entries[i].Some? ==>
      Loose(PasteClasses(), r.entries[i].value.value)
  }

  /** For another device, the value of the first entry holds no null pointer, or is a null Want or PixelMap. */
  ghost predicate FirstLoose(r: Record) { FirstOk(r) || StartsNull(r) }

  ghost predicate PasteLoose(remote: bool, p: PasteData)
  {
    p.props.additions != [] &&
    forall i :: 0 <= i < |p.records| && p.records[i].Some? ==>
      RecordLoose(p.records[i].value) && (remote ==> FirstLoose(p.records[i].value))
  }

  predicate NullEntryAt(r: Record, i: nat)
  {
    i < |r.entries| && r.entries[i].Some? && HasNull(r.entries[i].value.value)
  }

  /** Some entry of the record holds a null pointer. */
  ghost predicate HoldsNull(r: Record) { exists i: nat :: NullEntryAt(r, i) }

  /** A null first entry, for another device, with other entries behind it. */
  predicate NullTakesOthers(remote: bool, r: Record) { remote && StartsNull(r) && NonNull(r.entries[1..]) != [] }

  /** The record is read as something else than the received record, or not at all. */
  ghost predicate Spoils(remote: bool, r: Record) { HoldsNull(Sent(remote, r)) || NullTakesOthers(remote, r) }

  /** Some record that is sent holds a null pointer in an entry, or one that takes the other entries. */
  ghost predicate AnySpoils(remote: bool, rs: seq<Option<Record>>)
  {
    exists i :: 0 <= i < |rs| && rs[i].Some? && Spoils(remote, rs[i].value)
  }

  // ----- entries

  lemma EntryMissed(d: bytes, lim: nat, cur: nat, dep: nat, was: Value, e: Entry)
    requires Loose(PasteClasses(), e.value) && HasNull(e.value) && dep <= MAX_DEPTH
    requires Fresh(PasteClasses(), TStruct(KEntry), was) && InBuffer(d, lim, cur, Payload(EntryValue(Some(e))))
    ensures cur <= lim <= |d|
    ensures var len := |Payload(EntryValue(Some(e)))|;
            MissedOrNone(Read(PasteClasses(), d, lim, cur, dep, TStruct(KEntry), was, len), cur + len, AnEntry(e))
  {
    hide PasteClasses, ReadFields, EncFields, At, Loose, HasNull, EntryFields, EvMono, ClosedAt;
    var c := PasteClasses();
    StructPayload(ENTRY_ORDER, EntryFields(e));
    hide Payload;
    var end := cur + |EncFields(ENTRY_ORDER, EntryFields(e))|;
    LooseIsVariant(c, e.value);
    var at := EntryReads(d, end, cur, dep, e);
    EndIsClosed(d, end);
    ClassesAreGood();
    ReadMisreads(c, d, end, at, dep, EvMono(), |Payload(e.value)|, e.value);
    var g := Read(c, d, end, at, dep, TEntryValue, EvMono(), |Payload(e.value)|);
    assert AsFields(was) == c.initial(KEntry);
    if g.Some? {
      var f := EntryFields(e.(value := g.value.v));
      FieldsTurn(c, d, end, end, dep, KEntry, f);
      FinishPaste(f);
      EntryIsRead(e.(value := g.value.v));
    }
  }

  lemma EntryIsRead(e: Entry)
    ensures AsEntry(Struct(ENTRY_ORDER, EntryFields(e))) == Some(e)
  {
  }

  lemma EntryIsMisread(e: Entry)
    requires Loose(PasteClasses(), e.value) && HasNull(e.value)
    ensures IsMisread(PasteClasses(), TPtr(TStruct(KEntry)), EntryValue(Some(e)), AnEntry(e))
  {
    hide PasteClasses, Loose, HasNull, EntryValue, Fresh, Read, Payload, InBuffer, MissedOrNone;
    forall d: bytes, lim: nat, cur: nat, dep: nat, was: Value
      | InBuffer(d, lim, cur, Payload(EntryValue(Some(e)))) && dep <= MAX_DEPTH &&
        Fresh(PasteClasses(), TStruct(KEntry), was)
      ensures cur <= lim <= |d|
      ensures var len := |Payload(EntryValue(Some(e)))|;
              MissedOrNone(Read(PasteClasses(), d, lim, cur, dep, TStruct(KEntry), was, len), cur + len, AnEntry(e))
    {
      EntryMissed(d, lim, cur, dep, was, e);
    }
    PointerIsMisread(PasteClasses(), TStruct(KEntry), EntryValue(Some(e)), AnEntry(e));
  }

  /** Where an element stands among those that are not null. */
  lemma {:induction false} NonNullAt(es: seq<Option<Entry>>, j: nat)
    requires j < |es| && es[j].Some?
    ensures var pos := Present(EntryValues(es)[..j]); pos < |NonNull(es)| && NonNull(es)[pos] == es[j]
    decreases j
  {
    hide EntryValue;
    var vs := EntryValues(es);
    if j > 0 {
      NonNullAt(es[1..], j - 1);
      NullOrNot(es[0]);
      assert vs[..j][0] == EntryValue(es[0]) && vs[..j][1..] == EntryValues(es[1..])[..j - 1];
    } else {
      assert Present(vs[..0]) == 0;
    }
  }

  /** The entry at place pos of the received ones is wanted, and something else is read for it. */
  lemma EntriesAreMisread(r: Record) returns (pos: nat, e: Entry)
    requires RecordLoose(r) && HoldsNull(r)
    ensures pos < |NonNull(r.entries)| && NonNull(r.entries)[pos] == Some(e)
    ensures IsMisread(PasteClasses(), TVec(TPtr(TStruct(KEntry))), List(EntryValues(r.entries)),
                      AnItem(pos, AnEntry(e)))
  {
    hide FrameOk, Loose, HasNull, PasteClasses, IsMisread, EntryValue;
    var j: nat :| NullEntryAt(r, j);
    e, pos := r.entries[j].value, Present(EntryValues(r.entries)[..j]);
    NonNullAt(r.entries, j);
    EntryIsMisread(e);
    NullOrNot(r.entries[j]);
    VectorTypesAreExact(KEntry);
    VectorIsMisread(PasteClasses(), TPtr(TStruct(KEntry)), EntryValues(r.entries), j, AnEntry(e));
  }

  // ----- records

  /** Apart from the entries, the fields of a record are read as they arrive. */
  lemma OtherFieldsArrive(r: Record, y: Value)
    requires FrameOk(r)
    ensures |PasteClasses().types(KRecord)| == 19
    ensures NormFields(PasteClasses(), KRecord, RecordFields(r))[R_ENTRIES := y] == Arrived(r)[R_ENTRIES := y]
  {
    hide FrameOk, WellTyped, Norm, Need, PasteClasses, RecordTypes, FieldNeed, CustomOk;
    var c, q := PasteClasses(), r.(entries := []);
    RecordClass();
    var f := NormFields(c, KRecord, RecordFields(r));
    forall i: nat | i < 19 && i != R_ENTRIES ensures f[i] == Arrived(r)[i] {
      FrameIsOk(r);
      RecordFieldComes(q, i);
      SameFields(r, i);
    }
  }

  lemma FrameIsOk(r: Record)
    requires FrameOk(r)
    ensures RecordOk(r.(entries := []))
  {
    hide WellTyped, CustomOk;
  }

  lemma SameFields(r: Record, i: nat)
    requires i < 19 && i != R_ENTRIES
    ensures RecordFields(r.(entries := []))[i] == RecordFields(r)[i] && Arrived(r.(entries := []))[i] == Arrived(r)[i]
  {
    hide EntryValues;
  }

  lemma EntriesAsRead(r: Record, y: Value)
    requires r.want != Some([]) && r.pixel != Some([])
    ensures AsRecord(Arrived(r)[R_ENTRIES := y]) == r.(entries := AsEntries(AsItems(y)))
  {
    ArrivedRecord(r);
    hide MarshalUri, UnmarshalUri, AsEntries, EntryValues, OptText, OptShared, OptUri;
  }

  /** A record with something else at one place of its entries is not the received record. */
  lemma RecordDiffers(remote: bool, r: Record, y: Value, pos: nat, e: Entry)
    requires var s := Sent(remote, r); FrameOk(s) && pos < |NonNull(s.entries)| && NonNull(s.entries)[pos] == Some(e)
    requires Missed(y, AnItem(pos, AnEntry(e)))
    ensures |PasteClasses().types(KRecord)| == 19
    ensures var f := NormFields(PasteClasses(), KRecord, RecordFields(Sent(remote, r)))[R_ENTRIES := y];
            var v := Struct(PasteClasses().order(KRecord), PasteClasses().finish(KRecord, f));
            Missed(v, ARecord(Received(remote, r)))
  {
    hide FrameOk, PasteClasses, RecordFields, Arrived, FinishRecord, AsRecord, NormFields, Local2Remote, AsEntry;
    hide Remote2Local, RecordOrder;
    var s := Sent(remote, r);
    OtherFieldsArrive(s, y);
    var f := NormFields(PasteClasses(), KRecord, RecordFields(s))[R_ENTRIES := y];
    RecordFinish(f);
    FrameIsThere(s);
    EntriesAsRead(s, y);
    FinishEntries(s, AsEntries(AsItems(y)));
    FinishEntries(s, NonNull(s.entries));
    var a, b := FinishRecord(AsRecord(f)), Received(remote, r);
    var front := AsFront(Remote2Local(s));
    assert a.entries[|front| + pos] != b.entries[|front| + pos];
    FinishedReads(AsRecord(f));
  }

  /** A finished record is recovered from its fields. */
  lemma FinishedReads(r: Record)
    ensures var a := FinishRecord(r); |RecordFields(a)| == 19 && AsRecord(RecordFields(a)) == a
  {
    hide Remote2Local, GetMimeType, RecordFields, AsRecord;
    RecordFieldsInverse(FinishRecord(r));
  }

  lemma FrameIsThere(r: Record)
    requires FrameOk(r)
    ensures r.want != Some([]) && r.pixel != Some([])
  {
  }

  lemma SentIsLoose(remote: bool, r: Record)
    requires RecordLoose(r) && (remote ==> FirstOk(r))
    ensures RecordLoose(Sent(remote, r))
  {
    hide FrameOk, EntryOk, FirstOk, Local2Remote, Loose, PasteClasses;
    SentFrame(remote, r);
    RemoteShape(r);
  }

  lemma LooseWithoutNull(r: Record)
    requires RecordLoose(r) && !HoldsNull(r)
    ensures RecordOk(r)
  {
    hide FrameOk, Loose, HasNull, PasteClasses, WellTyped;
    forall i | 0 <= i < |r.entries| && r.entries[i].Some? ensures EntryOk(r.entries[i].value) {
      assert !NullEntryAt(r, i);
      LooseIsTyped(PasteClasses(), r.entries[i].value.value);
    }
  }

  lemma {:induction false} NoneHeld(es: seq<Option<Entry>>)
    requires NonNull(es) == []
    ensures forall i :: 0 <= i < |es| ==> es[i].None?
    decreases |es|
  {
    if es != [] {
      NoneHeld(es[1..]);
    }
  }

  /** A null first entry without others leaves no entry that is sent. */
  lemma AloneHoldsNoNull(r: Record)
    requires StartsNull(r) && NonNull(r.entries[1..]) == []
    ensures !HoldsNull(Local2Remote(r)) && NestsWithin(Local2Remote(r), 3)
  {
    hide Local2Remote, HasNull;
    NullFirstShape(r);
    NoneHeld(r.entries[1..]);
    assert Nesting(r.entries[0].value.value) == 0;
  }

  /** In the write order, every field but the entries is well typed. */
  lemma TypedButEntries(remote: bool, s: Record)
    requires FrameOk(s) && EndsRight(PasteClasses(), TVec(TPtr(TStruct(KEntry))), List(EntryValues(s.entries)))
    ensures TypedBut(PasteClasses(), KRecord, RecordOrder(remote), RecordFields(s), PlaceOf(remote, R_ENTRIES))
  {
    hide FrameOk, EndsRight, WellTyped, RecordFields, RecordOrder, RecordTypes, IsPermutation, PasteClasses;
    RecordOrderIsPermutation(remote);
    PlaceOfEntries(remote);
    RecordClass();
    EntriesField(s);
    forall l: nat | l < 19 && l != R_ENTRIES ensures FieldOk(PasteClasses(), KRecord, l, RecordFields(s)[l]) {
      OtherFieldIsTyped(s, l);
    }
  }

  lemma RecordMissed(d: bytes, lim: nat, cur: nat, dep: nat, was: Value, remote: bool, r: Record)
    requires RecordLoose(Sent(remote, r)) && HoldsNull(Sent(remote, r)) && dep <= MAX_DEPTH
    requires Fresh(PasteClasses(), TStruct(KRecord), was) &&
             InBuffer(d, lim, cur, Payload(RecordValue(remote, Some(r))))
    ensures cur <= lim <= |d|
    ensures var len := |Payload(RecordValue(remote, Some(r)))|;
            MissedOrNone(Read(PasteClasses(), d, lim, cur, dep, TStruct(KRecord), was, len), cur + len,
                         ARecord(Received(remote, r)))
  {
    hide PasteClasses, Read, Payload, InBuffer, Fresh, FrameOk, Loose, HoldsNull, Sent, RecordValue, RecordFields;
    hide RecordOrder, IsMisread;
    hide EndsRight, TypedBut, NormFields, NeedFields, Received, Good, Missed;
    var c, s, j := PasteClasses(), Sent(remote, r), PlaceOf(remote, R_ENTRIES);
    var pos, e := EntriesAreMisread(s);
    var ty, v, w := TVec(TPtr(TStruct(KEntry))), List(EntryValues(s.entries)), AnItem(pos, AnEntry(e));
    MisreadEndsRight(c, ty, v, w);
    TypedButEntries(remote, s);
    RecordValueIs(remote, r);
    ClassesAreGood();
    PlaceOfEntries(remote);
    RecordClass();
    EntriesField(s);
    var at, end := StructAround(c, d, lim, cur, dep, KRecord, RecordOrder(remote), RecordFields(s), j, was);
    FieldIsFresh(c, KRecord, R_ENTRIES);
    MisreadHere(c, d, end, at, dep, ty, c.initial(KRecord)[R_ENTRIES], v, w);
    var g := Read(c, d, end, at, dep, ty, c.initial(KRecord)[R_ENTRIES], |Payload(v)|);
    if g.Some? {
      RecordDiffers(remote, r, g.value.v, pos, e);
    }
  }

  /** A record with a null pointer in one of its entries is read as another record, or not at all. */
  lemma RecordIsMisread(remote: bool, r: Record)
    requires RecordLoose(Sent(remote, r)) && HoldsNull(Sent(remote, r))
    ensures IsMisread(PasteClasses(), TPtr(TStruct(KRecord)), RecordValue(remote, Some(r)),
                      ARecord(Received(remote, r)))
  {
    hide PasteClasses, RecordLoose, HoldsNull, RecordValue, Fresh, Read, Payload, InBuffer, MissedOrNone, Sent;
    hide Received;
    var v, w := RecordValue(remote, Some(r)), ARecord(Received(remote, r));
    forall d: bytes, lim: nat, cur: nat, dep: nat, was: Value
      | InBuffer(d, lim, cur, Payload(v)) && dep <= MAX_DEPTH && Fresh(PasteClasses(), TStruct(KRecord), was)
      ensures cur <= lim <= |d|
      ensures MissedOrNone(Read(PasteClasses(), d, lim, cur, dep, TStruct(KRecord), was, |Payload(v)|),
                           cur + |Payload(v)|, w)
    {
      RecordMissed(d, lim, cur, dep, was, remote, r);
    }
    PointerIsMisread(PasteClasses(), TStruct(KRecord), v, w);
  }

  /** So is a record whose null first entry takes the others. */
  lemma NullFirstIsMisread(r: Record)
    requires FrameOk(r) && StartsNull(r) && NonNull(r.entries[1..]) != []
    ensures IsMisread(PasteClasses(), TPtr(TStruct(KRecord)), RecordValue(true, Some(r)),
                      ARecord(Received(true, r)))
  {
    hide PasteClasses, FrameOk, IsNullValue, RecordValue, RecordFields, RecordOrder, WithoutOthers, Received;
    hide IsReadAs, IsMisread, Sent;
    NullFirstLosesOthers(r);
    EntriesOfFinished(r);
    LocalValue(WithoutOthers(r));
    OthersLost(r);
    ReadAsIsMisread(PasteClasses(), TPtr(TStruct(KRecord)), RecordValue(true, Some(r)),
                    RecordValue(false, Some(WithoutOthers(r))), 2, ARecord(Received(true, r)));
  }

  lemma OthersLost(r: Record)
    requires StartsNull(r) && NonNull(r.entries[1..]) != []
    ensures Missed(RecordValue(false, Some(WithoutOthers(r))), ARecord(Received(true, r)))
  {
    hide IsNullValue, Local2Remote, FinishRecord, RecordFields, RecordOrder, AsRecord;
    EntriesOfFinished(r);
    FinishedReads(Local2Remote(r).(entries := []));
    RecordValueIs(false, WithoutOthers(r));
  }

  lemma LocalValue(r: Record)
    ensures RecordValue(false, Some(r)) == Struct(RecordOrder(false), RecordFields(r))
  {
    RecordValueIs(false, r);
  }

  lemma SpoiledIsMisread(remote: bool, r: Record)
    requires RecordLoose(r) && (remote ==> FirstLoose(r)) && Spoils(remote, r)
    ensures IsMisread(PasteClasses(), TPtr(TStruct(KRecord)), RecordValue(remote, Some(r)),
                      ARecord(Received(remote, r)))
  {
    hide FrameOk, EntryOk, PasteClasses, Loose, Local2Remote, IsMisread, IsNullValue, RecordValue, Received, HasNull;
    if NullTakesOthers(remote, r) {
      NullFirstIsMisread(r);
    } else {
      if remote && StartsNull(r) {
        AloneHoldsNoNull(r);
      }
      SentIsLoose(remote, r);
      RecordIsMisread(remote, r);
    }
  }

  // ----- records that come back

  /** What a record is read as, and how many guards that takes. */
  function ReadingOf(remote: bool, r: Option<Record>): Reading
  {
    if r.None? then Reading(Null, 0)
    else
      Reading(RecordValue(false, Some(Received(remote, r.value))),
              if remote && StartsNull(r.value) then 2
              else Need(PasteClasses(), TPtr(TStruct(KRecord)), RecordValue(remote, r)))
  }

  lemma RecordComesBack(remote: bool, r: Record)
    requires RecordLoose(r) && (remote ==> FirstLoose(r)) && !Spoils(remote, r)
    ensures ReadItemAs(PasteClasses(), TPtr(TStruct(KRecord)), RecordValue(remote, Some(r)), ReadingOf(remote, Some(r)))
    ensures ReadingOf(remote, Some(r)).most <= 9 <==> NestsWithin(Sent(remote, r), 3)
  {
    hide FrameOk, PasteClasses, Loose, Local2Remote, IsReadAs, IsNullValue, RecordValue, Received, HoldsNull, RecordOk;
    hide FirstOk, WellTyped;
    hide NestsWithin, Need, Norm, WithoutOthers;
    if remote && StartsNull(r) {
      NullFirstLosesOthers(r);
      AloneHoldsNoNull(r);
    } else {
      SentIsLoose(remote, r);
      LooseWithoutNull(Sent(remote, r));
      RecordValueBack(remote, r);
      ClassesAreGood();
      TypedIsReadAs(PasteClasses(), TPtr(TStruct(KRecord)), RecordValue(remote, Some(r)));
    }
  }

  function Readings(remote: bool, rs: seq<Option<Record>>): (ms: seq<Reading>)
    ensures |ms| == |rs|
  {
    seq(|rs|, i requires 0 <= i < |rs| => ReadingOf(remote, rs[i]))
  }

  /** A record that is written is well formed up to null pointers, and none of those spoils it. */
  ghost predicate Unspoiled(remote: bool, r: Option<Record>)
  {
    r.Some? ==> RecordLoose(r.value) && (remote ==> FirstLoose(r.value)) && !Spoils(remote, r.value)
  }

  lemma RecordsCons(remote: bool, r: Option<Record>, rest: seq<Option<Record>>)
    ensures var vs, ms := RecordValues(remote, [r] + rest), Readings(remote, [r] + rest);
            && vs[0] == RecordValue(remote, r) && vs[1..] == RecordValues(remote, rest)
            && ms[0] == ReadingOf(remote, r) && ms[1..] == Readings(remote, rest)
    ensures RecordsNestWithin(remote, [r] + rest, 3) <==>
            (r.Some? ==> NestsWithin(Sent(remote, r.value), 3)) && RecordsNestWithin(remote, rest, 3)
  {
    hide RecordValue, ReadingOf, NestsWithin, Sent;
    var all := [r] + rest;
    assert all[0] == r && forall i :: 0 <= i < |rest| ==> all[i + 1] == rest[i];
    assert forall i :: 0 < i < |all| ==> all[i] == rest[i - 1];
  }

  lemma {:induction false} RecordsComeBack(remote: bool, rs: seq<Option<Record>>)
    requires forall i :: 0 <= i < |rs| ==> Unspoiled(remote, rs[i])
    ensures var vs, ms := RecordValues(remote, rs), Readings(remote, rs);
            && (forall i :: 0 <= i < |vs| ==> ReadItemAs(PasteClasses(), TPtr(TStruct(KRecord)), vs[i], ms[i]))
            && Kept(vs, ms) == RecordValues(false, ReceivedRecords(remote, rs))
            && (MostOf(vs, ms) <= 9 <==> RecordsNestWithin(remote, rs, 3))
    decreases |rs|
  {
    hide PasteClasses, Unspoiled, RecordValue, RecordValues, Received, Sent, NestsWithin, ReadingOf, ReadItemAs, Kept;
    hide MostOf, Readings;
    hide ReceivedRecords;
    var vs, ms := RecordValues(remote, rs), Readings(remote, rs);
    ReadingsUnfold(vs, ms);
    if rs == [] {
      assert RecordValues(false, ReceivedRecords(remote, [])) == [] by { NoRecords(remote); }
    } else {
      var r, rest := rs[0], rs[1..];
      assert rs == [r] + rest;
      assert forall i :: 0 <= i < |rest| ==> rest[i] == rs[i + 1];
      hide RecordsNestWithin;
      RecordsComeBack(remote, rest);
      RecordsCons(remote, r, rest);
      FirstComesBack(remote, r, rest);
      Regroup([], [], Kept(vs[1..], ms[1..]));
      assert forall i :: 0 < i < |vs| ==> vs[i] == vs[1..][i - 1] && ms[i] == ms[1..][i - 1];
    }
  }

  lemma NoRecords(remote: bool)
    ensures ReceivedRecords(remote, []) == [] && RecordValues(false, []) == []
  {
  }

  /** The first record in front of those that come back. */
  lemma FirstComesBack(remote: bool, r: Option<Record>, rest: seq<Option<Record>>)
    requires Unspoiled(remote, r)
    ensures var v, m := RecordValue(remote, r), ReadingOf(remote, r);
            && ReadItemAs(PasteClasses(), TPtr(TStruct(KRecord)), v, m)
            && (v.Null? <==> r.None?)
            && RecordValues(false, ReceivedRecords(remote, [r] + rest)) ==
               (if r.None? then [] else [m.x]) + RecordValues(false, ReceivedRecords(remote, rest))
            && (r.Some? ==> (m.most <= 9 <==> NestsWithin(Sent(remote, r.value), 3)))
  {
    hide PasteClasses, RecordLoose, FirstLoose, Spoils, RecordValue, RecordValues, Received, Sent, NestsWithin;
    hide ReadingOf, ReadItemAs;
    assert ([r] + rest)[0] == r && ([r] + rest)[1..] == rest;
    if r.Some? {
      RecordComesBack(remote, r.value);
      RecordIsThere(remote, r.value);
      RecordValuesCons(false, Some(Received(remote, r.value)), ReceivedRecords(remote, rest));
      ReadingIs(remote, r);
    } else {
      NullRecord(remote);
      NullItem(ReadingOf(remote, r));
      Regroup([], [], ReceivedRecords(remote, rest));
      Regroup([], [], RecordValues(false, ReceivedRecords(remote, rest)));
    }
  }

  lemma ReadingIs(remote: bool, r: Option<Record>)
    requires r.Some?
    ensures ReadingOf(remote, r).x == RecordValue(false, Some(Received(remote, r.value)))
  {
  }

  lemma NullItem(r: Reading)
    ensures ReadItemAs(PasteClasses(), TPtr(TStruct(KRecord)), Null, r)
  {
  }

  // ----- whole data

  /** The fields of the data other than its records, at places m to n of the order: each takes at most one guard. */
  lemma PlainRange(remote: bool, p: PasteData, m: nat, n: nat)
    requires p.props.additions != [] && m <= n <= 11 && (n <= 1 || 2 <= m)
    ensures NeedFields(PasteClasses(), KPaste, PLAIN_ORDER[m..n], PasteFields(remote, p)) <= 1
    ensures |PasteClasses().types(KPaste)| == 11
  {
    hide PasteClasses, Need, NeedFields, PasteFields, FieldTypes;
    RecordClass();
    PasteShape(remote, p, 0);
    var order := PLAIN_ORDER[m..n];
    forall l | 0 <= l < |order|
      ensures order[l] < 11
      ensures Need(PasteClasses(), PasteClasses().types(KPaste)[order[l]], PasteFields(remote, p)[order[l]]) <= 1
    {
      PlaceIsField(m + l);
      assert order[l] == PLAIN_ORDER[m + l];
      PlainFieldNeeds(remote, p, m + l);
    }
    NeedFieldsWithin(PasteClasses(), KPaste, order, PasteFields(remote, p), 1);
  }

  lemma PlaceIsField(i: nat)
    requires i < 11
    ensures PLAIN_ORDER[i] == i
  {
  }

  lemma PlainFieldNeeds(remote: bool, p: PasteData, i: nat)
    requires p.props.additions != [] && i < 11 && i != 1
    ensures |PasteClasses().types(KPaste)| == 11
    ensures Need(PasteClasses(), PasteClasses().types(KPaste)[i], PasteFields(remote, p)[i]) <= 1
  {
    hide PasteClasses, Need, Norm, WellTyped, PasteFields, FieldTypes, ReceivedData;
    RecordClass();
    PasteShape(remote, p, 0);
    PlainFieldComes(remote, p, i);
  }

  lemma PlainFieldComes(remote: bool, p: PasteData, i: nat)
    requires p.props.additions != [] && i < 11 && i != 1
    ensures Comes(FieldTypes(KPaste)[i], PasteFields(remote, p)[i], PasteFields(false, ReceivedData(remote, p))[i], 1)
  {
    hide PasteFields, FieldTypes, PropertyFields, ReceivedData, IsLeaf, WellTyped, Norm, Need, PasteClasses;
    PasteShape(remote, p, i);
    if i == 0 {
      PropertyComes(p.props);
    } else {
      LeafComes(FieldTypes(KPaste)[i], PasteFields(remote, p)[i]);
    }
  }

  lemma TypedButRecords(remote: bool, p: PasteData)
    requires p.props.additions != []
    requires EndsRight(PasteClasses(), TVec(TPtr(TStruct(KRecord))), List(RecordValues(remote, p.records)))
    ensures TypedBut(PasteClasses(), KPaste, PLAIN_ORDER, PasteFields(remote, p), 1)
  {
    hide PasteClasses, EndsRight, WellTyped, PasteFields, FieldTypes, IsPermutation, Norm, Need, RecordValues;
    RecordClass();
    PlainOrderIsPermutation();
    PasteShape(remote, p, 1);
    forall i: nat | i < 11 && i != 1 ensures FieldOk(PasteClasses(), KPaste, i, PasteFields(remote, p)[i]) {
      PlainFieldComes(remote, p, i);
    }
  }

  /** Apart from the records, the fields of the data are read as they were. */
  lemma PlainFieldsArrive(remote: bool, p: PasteData, y: Value)
    requires p.props.additions != []
    ensures |PasteClasses().types(KPaste)| == 11
    ensures NormFields(PasteClasses(), KPaste, PasteFields(remote, p))[1 := y] ==
            PasteFields(false, ReceivedData(remote, p))[1 := y]
  {
    hide PasteClasses, WellTyped, PasteFields, FieldTypes, Norm, Need, ReceivedData;
    RecordClass();
    PasteShape(remote, p, 0);
    forall i: nat | i < 11 && i != 1
      ensures NormFields(PasteClasses(), KPaste, PasteFields(remote, p))[i] ==
              PasteFields(false, ReceivedData(remote, p))[i]
    {
      PlainFieldComes(remote, p, i);
    }
  }

  /** Decoding data, zero tail included: everything is known but what the records are read as. */
  lemma DataAround(remote: bool, p: PasteData, k: nat) returns (d: bytes, at: nat)
    requires p.props.additions != [] && |EncFields(PLAIN_ORDER, PasteFields(remote, p))| + HEAD * k < TWO32
    requires EndsRight(PasteClasses(), TVec(TPtr(TStruct(KRecord))), List(RecordValues(remote, p.records)))
    ensures d == EncFields(PLAIN_ORDER, PasteFields(remote, p)) + Zeros(HEAD * k)
    ensures at <= |d| && InBuffer(d, |d|, at, Payload(List(RecordValues(remote, p.records))))
    ensures var v := List(RecordValues(remote, p.records));
            var g := Read(PasteClasses(), d, |d|, at, 0, TVec(TPtr(TStruct(KRecord))), List([]), |Payload(v)|);
            Decode(PasteClasses(), KPaste, d) ==
            if g.None? then None
            else Some(Struct(PLAIN_ORDER, PasteFields(false, ReceivedData(remote, p))[1 := g.value.v]))
  {
    hide PasteClasses, EndsRight, TypedBut, PasteFields, EncFields, ReadFields, NormFields, NeedFields, Good;
    hide RecordValues, Read, Payload;
    hide InBuffer, ReceivedData, FieldTypes, Fresh;
    var c, f, a := PasteClasses(), PasteFields(remote, p), EncFields(PLAIN_ORDER, PasteFields(remote, p));
    d := a + Zeros(HEAD * k);
    TypedButRecords(remote, p);
    ClassesAreGood();
    FrontBuffer(a, Zeros(HEAD * k));
    RecordsPlace(remote, p);
    PlainRange(remote, p, 0, 1);
    PlainRange(remote, p, 2, 11);
    at := FieldsAround(c, d, |d|, 0, 0, KPaste, f, PLAIN_ORDER, 1);
    var g := Read(c, d, |d|, at, 0, TVec(TPtr(TStruct(KRecord))), List([]), |Payload(f[1])|);
    if g.Some? {
      DataTail(remote, p, k, g.value.v);
    }
  }

  lemma DataTail(remote: bool, p: PasteData, k: nat, y: Value)
    requires p.props.additions != [] && |EncFields(PLAIN_ORDER, PasteFields(remote, p))| + HEAD * k < TWO32
    ensures |PasteClasses().types(KPaste)| == 11
    ensures var a := EncFields(PLAIN_ORDER, PasteFields(remote, p));
            var d, f := a + Zeros(HEAD * k), NormFields(PasteClasses(), KPaste, PasteFields(remote, p))[1 := y];
            var r := ReadFields(PasteClasses(), d, |d|, |a|, 0, KPaste, f);
            r.Some? && r.value.v == Struct(PLAIN_ORDER, PasteFields(false, ReceivedData(remote, p))[1 := y])
  {
    hide PasteClasses, PasteFields, EncFields, ReadFields, NormFields, ReceivedData, ZerosFrom;
    var a := EncFields(PLAIN_ORDER, PasteFields(remote, p));
    var d := a + Zeros(HEAD * k);
    PlainFieldsArrive(remote, p, y);
    var f := NormFields(PasteClasses(), KPaste, PasteFields(remote, p))[1 := y];
    ZeroTail(a, HEAD * k);
    TailIsSkipped(PasteClasses(), d, |a|, KPaste, f);
    FinishPaste(f);
  }

  lemma RecordsPlace(remote: bool, p: PasteData)
    ensures |PasteClasses().types(KPaste)| == |PasteClasses().initial(KPaste)| == 11 && PLAIN_ORDER[1] == 1
    ensures PasteClasses().types(KPaste)[1] == TVec(TPtr(TStruct(KRecord))) &&
            PasteClasses().initial(KPaste)[1] == List([])
    ensures PasteFields(remote, p)[1] == List(RecordValues(remote, p.records))
  {
    hide PasteClasses, FieldTypes, PasteFields, RecordValues, PropertyFields, ReceivedRecords;
    RecordClass();
    InitialData();
    PasteShape(remote, p, 1);
    PlaceIsField(1);
  }

  lemma InitialData()
    ensures |PasteClasses().initial(KPaste)| == 11 && PasteClasses().initial(KPaste)[1] == List([])
  {
    hide InitialProperty;
  }

  lemma ZeroTail(a: bytes, n: nat)
    ensures ZerosFrom(a + Zeros(n), |a|)
  {
  }

  lemma NoneSpoils(remote: bool, p: PasteData)
    requires PasteLoose(remote, p) && !AnySpoils(remote, p.records)
    ensures forall i :: 0 <= i < |p.records| ==> Unspoiled(remote, p.records[i])
  {
    hide RecordLoose, FirstLoose, Spoils;
  }

  /** With records that are not spoiled, the data arrives unless something nests too deep. */
  lemma CleanLooseData(remote: bool, p: PasteData, k: nat)
    requires PasteLoose(remote, p) && !AnySpoils(remote, p.records)
    requires |EncFields(PLAIN_ORDER, PasteFields(remote, p))| + HEAD * k < TWO32
    ensures Decode(PasteClasses(), KPaste, EncFields(PLAIN_ORDER, PasteFields(remote, p)) + Zeros(HEAD * k)) ==
            if RecordsNestWithin(remote, p.records, 3) then Some(PasteValue(ReceivedData(remote, p))) else None
  {
    hide PasteClasses, IsReadAs, EndsRight, PasteFields, EncFields, RecordValues, Read, Payload, InBuffer, RecordLoose;
    hide AnySpoils;
    hide Decode, RecordsNestWithin, ReadItemAs, Readings, Kept, MostOf, Unspoiled, ReceivedRecords;
    NoneSpoils(remote, p);
    var c, elem := PasteClasses(), TPtr(TStruct(KRecord));
    var vs, ms := RecordValues(remote, p.records), Readings(remote, p.records);
    RecordsComeBack(remote, p.records);
    VectorIsReadAs(c, elem, vs, ms);
    ReadAsEndsRight(c, TVec(elem), List(vs), List(Kept(vs, ms)), 1 + MostOf(vs, ms));
    var d, at := DataAround(remote, p, k);
    assert Fresh(c, TVec(elem), List([]));
    ReadAsAt(c, d, |d|, at, 0, TVec(elem), List([]), List(vs), List(Kept(vs, ms)), 1 + MostOf(vs, ms));
    PasteShape(remote, p, 1);
    var g := PasteFields(false, ReceivedData(remote, p));
    assert g[1 := g[1]] == g;
  }

  lemma {:induction false} ReceivedAt(remote: bool, rs: seq<Option<Record>>, j: nat)
    requires j < |rs| && rs[j].Some?
    ensures var all, pos := ReceivedRecords(remote, rs), Present(RecordValues(remote, rs)[..j]);
            pos < |all| && all[pos] == Some(Received(remote, rs[j].value))
    decreases j
  {
    hide Received, RecordValue;
    var vs := RecordValues(remote, rs);
    if j > 0 {
      ReceivedAt(remote, rs[1..], j - 1);
      if rs[0].Some? {
        RecordIsThere(remote, rs[0].value);
      } else {
        NullRecord(remote);
      }
      assert vs[..j][0] == RecordValue(remote, rs[0]) && vs[..j][1..] == RecordValues(remote, rs[1..])[..j - 1];
    } else {
      assert Present(vs[..0]) == 0;
    }
  }

  lemma DataDiffers(p: PasteData, f: seq<Value>, y: Value, pos: nat, r: Record)
    requires |f| == 11 && pos < |p.records| && p.records[pos] == Some(r) && Missed(y, AnItem(pos, ARecord(r)))
    ensures AsPasteData(Struct(PLAIN_ORDER, f[1 := y])) != Some(p)
  {
    hide AsRecordValue, AsProperty;
    var v := Struct(PLAIN_ORDER, f[1 := y]);
    assert v.fields[1] == y;
    assert AsRecords(y.items)[pos] == AsRecordValue(y.items[pos]);
  }

  /** The record at place pos of the received ones is wanted, and something else is read for it. */
  lemma RecordsAreMisread(remote: bool, p: PasteData) returns (pos: nat, r: Record)
    requires PasteLoose(remote, p) && AnySpoils(remote, p.records)
    ensures var rs := ReceivedRecords(remote, p.records); pos < |rs| && rs[pos] == Some(r)
    ensures IsMisread(PasteClasses(), TVec(TPtr(TStruct(KRecord))), List(RecordValues(remote, p.records)),
                      AnItem(pos, ARecord(r)))
  {
    hide PasteClasses, IsMisread, RecordValue, RecordValues, RecordLoose, FirstLoose, Spoils, Received;
    var j :| 0 <= j < |p.records| && p.records[j].Some? && Spoils(remote, p.records[j].value);
    var vs := RecordValues(remote, p.records);
    r, pos := Received(remote, p.records[j].value), Present(vs[..j]);
    SpoiledIsMisread(remote, p.records[j].value);
    RecordIsThere(remote, p.records[j].value);
    ItemOf(remote, p.records, j);
    VectorTypesAreExact(KRecord);
    VectorIsMisread(PasteClasses(), TPtr(TStruct(KRecord)), vs, j, ARecord(r));
    ReceivedAt(remote, p.records, j);
  }

  /** With a spoiled record, what is decoded is not what should be received. */
  lemma SpoiledDataDiffers(remote: bool, p: PasteData, k: nat)
    requires PasteLoose(remote, p) && AnySpoils(remote, p.records) && |Message(remote, p, k)| < TWO32
    ensures ReadData(Message(remote, p, k)) != Some(ReceivedData(remote, p))
  {
    hide PasteClasses, IsMisread, EndsRight, PasteFields, EncFields, RecordValues, Read, Payload, InBuffer, RecordLoose;
    hide FirstLoose, AnySpoils, Decode, Missed, ReceivedRecords, AsPasteData;
    var c, ty, v := PasteClasses(), TVec(TPtr(TStruct(KRecord))), List(RecordValues(remote, p.records));
    var pos, r := RecordsAreMisread(remote, p);
    MisreadEndsRight(c, ty, v, AnItem(pos, ARecord(r)));
    var d, at := DataAround(remote, p, k);
    assert Fresh(c, ty, List([]));
    MisreadHere(c, d, |d|, at, 0, ty, List([]), v, AnItem(pos, ARecord(r)));
    var g := Read(c, d, |d|, at, 0, ty, List([]), |Payload(v)|);
    if g.Some? {
      DataDiffers(ReceivedData(remote, p), PasteFields(false, ReceivedData(remote, p)), g.value.v, pos, r);
    }
  }

  lemma ItemOf(remote: bool, rs: seq<Option<Record>>, i: nat)
    requires i < |rs|
    ensures RecordValues(remote, rs)[i] == RecordValue(remote, rs[i])
  {
  }

  /**
   For all data whose entries may hold null pointers at any depth, and for every zero tail: it
   decodes to the received data exactly when no entry or UDMF value nests objects more than three
   deep, no entry that is sent holds a null pointer, and, for another device, no null first entry
   has other entries behind it.
   */
  lemma LooseDataArrives(remote: bool, p: PasteData, k: nat)
    requires PasteLoose(remote, p) && |Message(remote, p, k)| < TWO32
    ensures ReadData(Message(remote, p, k)) == Some(ReceivedData(remote, p)) <==>
            RecordsNestWithin(remote, p.records, 3) && !AnySpoils(remote, p.records)
  {
    hide Decode, EncFields, PasteFields, PasteClasses, RecordsNestWithin, PasteLoose, AnySpoils, ReceivedData;
    hide PasteValue, AsPasteData;
    if AnySpoils(remote, p.records) {
      SpoiledDataDiffers(remote, p, k);
    } else {
      CleanLooseData(remote, p, k);
      ReceivedReads(remote, p);
    }
  }

  /** Whatever bytes decode as clipboard data, every attribute can be read off the result. */
  lemma DecodedReads(d: bytes)
    ensures Decode(PasteClasses(), KPaste, d).Some? ==> ReadData(d).Some?
  {
    hide ReadFields, PasteClasses;
    assert PasteShaped(PasteClasses().initial(KPaste)) by { InitialShape(); }
    FieldsKeepShape(d, 0, PasteClasses().initial(KPaste));
  }

  /** No bytes at all decode to a fresh PasteData: user -1, shared across devices, everything else empty. */
  lemma FreshData()
    ensures ReadData([]) ==
            Some(PasteData(Property([], [], [], 0, false, 2, 0, false, [], [], 0), [], false, false, false, [], [],
                           false, 0, 0, -1))
  {
    FinishPaste(InitialFields(KPaste));
    var none: seq<Value> := [];
    assert AsStrings(none) == [] && AsRecords(none) == [];
  }

  predicate PasteShaped(f: seq<Value>) { |f| == 11 && f[0].Struct? && |f[0].fields| == 11 }

  lemma InitialShape()
    ensures PasteShaped(PasteClasses().initial(KPaste))
  {
  }

  lemma {:induction false} StructKeepsLength(d: bytes, lim: nat, cur: nat, dep: nat, fields: seq<Value>)
    requires cur <= lim <= |d|
    ensures var r := ReadFields(PasteClasses(), d, lim, cur, dep, KProps, fields);
            r.Some? ==> r.value.v.Struct? && |r.value.v.fields| == |fields|
    decreases lim - cur
  {
    hide ReadField, ReadFields, PasteClasses;
    FieldsTurn(PasteClasses(), d, lim, cur, dep, KProps, fields);
    if cur < lim {
      var s := ReadField(PasteClasses(), d, lim, cur, dep, KProps, fields);
      if s.Some? {
        StructKeepsLength(d, lim, s.value.cur, dep, s.value.fields);
      }
    } else {
      PlainFinish(fields);
    }
  }

  lemma PlainFinish(f: seq<Value>)
    ensures PasteClasses().finish(KProps, f) == f
  {
  }

  lemma {:induction false} FieldsKeepShape(d: bytes, cur: nat, fields: seq<Value>)
    requires cur <= |d| && PasteShaped(fields)
    ensures var r := ReadFields(PasteClasses(), d, |d|, cur, 0, KPaste, fields);
            r.Some? ==> r.value.v.Struct? && PasteShaped(r.value.v.fields)
    decreases |d| - cur
  {
    hide ReadField, ReadFields, PasteClasses;
    FieldsTurn(PasteClasses(), d, |d|, cur, 0, KPaste, fields);
    if cur < |d| {
      var s := ReadField(PasteClasses(), d, |d|, cur, 0, KPaste, fields);
      if s.Some? {
        FieldKeepsShape(d, cur, fields);
        FieldsKeepShape(d, s.value.cur, s.value.fields);
      }
    } else {
      FinishPaste(fields);
    }
  }

  lemma FieldKeepsShape(d: bytes, cur: nat, fields: seq<Value>)
    requires cur <= |d| && PasteShaped(fields)
    ensures var s := ReadField(PasteClasses(), d, |d|, cur, 0, KPaste, fields);
            s.Some? ==> PasteShaped(s.value.fields)
  {
    hide Read, HeadAt, PasteClasses, FieldTypes;
    RecordClass();
    PropsType();
    if cur + HEAD <= |d| && HeadAt(d, cur).tag == TagOf(0) {
      PropsKeepLength(d, |d|, cur + HEAD, 0, fields[0], HeadAt(d, cur).len);
    }
  }

  lemma PropsType()
    ensures |FieldTypes(KPaste)| == 11 && FieldTypes(KPaste)[0] == TStruct(KProps)
  {
  }

  lemma PropsKeepLength(d: bytes, lim: nat, cur: nat, dep: nat, was: Value, len: nat)
    requires cur <= lim <= |d| && was.Struct? && |was.fields| == 11
    ensures var g := Read(PasteClasses(), d, lim, cur, dep, TStruct(KProps), was, len);
            g.Some? ==> g.value.v.Struct? && |g.value.v.fields| == 11
  {
    hide ReadFields, PasteClasses;
    if cur + len <= lim {
      StructKeepsLength(d, cur + len, cur, dep, was.fields);
    }
  }

  /** Well typed is loose without null pointers. */
  lemma {:induction false} TypedIsLoose(v: Value)
    requires WellTyped(PasteClasses(), TEntryValue, v)
    ensures Loose(PasteClasses(), v) && !HasNull(v)
    decreases v
  {
    hide PasteClasses, WellTyped, Loose, HasNull, NullIn, Sorted;
    Alternative(PasteClasses(), v);
    if v.val.Dict? {
      DictIsObject(v);
      TypedAreLoose(v.val.pairs);
      LoosePairs(v.val.pairs);
    } else {
      LeafIsLoose(v);
    }
  }

  lemma DictIsObject(v: Value)
    requires WellTyped(PasteClasses(), TEntryValue, v) && v.Variant? && v.val.Dict?
    ensures v == EvObject(v.val.pairs) && Sorted(v.val.pairs)
  {
    hide PasteClasses, WellTyped, Sorted;
    VariantStep(PasteClasses(), TEntryValue, v);
    assert v.index == 9 by { DictAlternative(v); }
    ObjectIs(PasteClasses(), v);
    ObjectStep(PasteClasses(), v.val.pairs);
  }

  lemma DictAlternative(v: Value)
    requires WellTyped(PasteClasses(), TEntryValue, v) && v.Variant? && v.val.Dict?
    ensures v.index == 9
  {
    hide PasteClasses;
    VariantStep(PasteClasses(), TEntryValue, v);
    if v.index != 9 {
      AlternativeIsFlat(v.index);
    }
  }

  lemma LoosePairs(pairs: Items)
    requires Sorted(pairs) && !NullIn(pairs) && forall i :: 0 <= i < |pairs| ==> Loose(PasteClasses(), pairs[i].val)
    ensures Loose(PasteClasses(), EvObject(pairs)) && !HasNull(EvObject(pairs))
  {
    hide PasteClasses, WellTyped, Sorted, NullIn;
  }

  lemma LeafIsLoose(v: Value)
    requires WellTyped(PasteClasses(), TEntryValue, v) && v.Variant? && !v.val.Dict?
    ensures Loose(PasteClasses(), v) && !HasNull(v)
  {
    hide PasteClasses, WellTyped, EntryAlts, Sorted, NullIn;
    VariantStep(PasteClasses(), TEntryValue, v);
    LeafAlternative(v);
  }

  lemma LeafAlternative(v: Value)
    requires v.Variant? && v.index < 11 && !v.val.Null? && !v.val.Dict?
    requires WellTyped(PasteClasses(), EntryAlts()[v.index], v.val)
    ensures v.index != 9
  {
    hide PasteClasses, Sorted;
    NullAlternatives();
  }

  lemma {:induction false} TypedAreLoose(pairs: Items)
    requires forall i :: 0 <= i < |pairs| ==> WellTyped(PasteClasses(), TEntryValue, pairs[i].val)
    ensures !NullIn(pairs) && forall i :: 0 <= i < |pairs| ==> Loose(PasteClasses(), pairs[i].val)
    decreases pairs
  {
    hide WellTyped, Loose, HasNull, PasteClasses;
    if pairs != [] {
      TypedIsLoose(pairs[0].val);
      TypedAreLoose(pairs[1..]);
    }
  }

  /** Data whose entries are null pointers themselves, or hold none, is loose. */
  lemma FitsIsLoose(remote: bool, p: PasteData)
    requires PasteFits(remote, p)
    ensures PasteLoose(remote, p)
  {
    hide FrameOk, FirstOk, PasteClasses, WellTyped;
    forall i, j | 0 <= i < |p.records| && p.records[i].Some? &&
                  0 <= j < |p.records[i].value.entries| && p.records[i].value.entries[j].Some?
      ensures Loose(PasteClasses(), p.records[i].value.entries[j].value.value)
    {
      var e := p.records[i].value.entries[j].value;
      if !IsNullValue(e.value) {
        TypedIsLoose(e.value);
      }
    }
  }

  // ----- from the sender to the receiver

  datatype Delivery = TooLarge | Undecodable | Delivered(p: PasteData)

  /**
   From the sender's data to the receiver's: count, refuse what is over the cap, encode in place,
   decode. No write fails. The received data is delivered exactly when it is not too large, no record
   is spoiled by a null pointer and nothing nests too deep. Where only whole values of entries are
   null pointers, and no first entry for another device, everything else is undecodable.
   */
  method Transfer(remote: bool, p: PasteData, cap: nat) returns (r: Delivery)
    requires PasteLoose(remote, p) && cap <= 0x8000_0000
    ensures var size := |Message(remote, p, SharedInFields(PLAIN_ORDER, PasteFields(remote, p)))|;
            && (r == TooLarge <==> size > cap)
            && (r == Delivered(ReceivedData(remote, p)) <==>
                size <= cap && RecordsNestWithin(remote, p.records, 3) && !AnySpoils(remote, p.records))
            && (PasteFits(remote, p) && size <= cap && r != Delivered(ReceivedData(remote, p)) ==> r == Undecodable)
  {
    hide PasteFields, PasteFits, PasteLoose, RecordsNestWithin, SendsNull, AnySpoils, EncFields, Decode, AsPasteData;
    hide ReceivedData, PasteClasses;
    var fields := PasteFields(remote, p);
    var size := Writer.CountFields(PLAIN_ORDER, fields);
    if size > cap {
      return TooLarge;
    }
    LooseDataArrives(remote, p, SharedInFields(PLAIN_ORDER, fields));
    if PasteFits(remote, p) {
      PasteDataArrives(remote, p, SharedInFields(PLAIN_ORDER, fields));
    }
    var buffer, ok := Writer.Encode(PLAIN_ORDER, fields);
    var v := Reader.DecodeBuffer(PasteClasses(), KPaste, buffer);
    DecodedReads(buffer);
    r := if v.Some? then Delivered(AsPasteData(v.value).value) else Undecodable;
  }
}
