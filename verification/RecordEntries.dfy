/**
 The entries of a record as an ordered map (PasteDataRecord::AddEntry and Builder::Build): a
 replacement keeps its position, a new key goes last, and Build puts the record's own type first.
 */
module RecordEntries {
  import opened Bytes
  import opened Tlv
  import opened PasteModel

  /** All URIs of a record share one key; any other entry goes by its type. */
  function KeyOf(e: Entry): bytes { if e.mime == MIME_URI then MIME_URI else e.utdId }

  predicate Consistent(e: Entry) { e.mime == Convert2MimeType(e.utdId) }

  lemma SlotIsKey(a: Entry, b: Entry)
    requires Consistent(a) && Consistent(b)
    ensures SameSlot(a, b) <==> KeyOf(a) == KeyOf(b)
  {
    hide IsFileUri;
    assert Convert2MimeType(MIME_URI) == MIME_URI by {
      assert |MIME_URI| == 8 && |UTD_PLAIN| == 18 && |UTD_HYPERLINK| == 17 && |UTD_HTML| == 12 &&
             |UTD_PIXELMAP| == 21 && |UTD_WANT| == 16;
    }
  }

  // ----- an ordered map, by its history

  /** The keys in the order of their first appearance. */
  function FirstSeen(es: seq<Entry>): seq<bytes>
  {
    if es == [] then []
    else
      var seen, key := FirstSeen(es[..|es| - 1]), KeyOf(es[|es| - 1]);
      if key in seen then seen else seen + [key]
  }

  /** The latest entry with a key. */
  function Latest(es: seq<Entry>, key: bytes): (e: Option<Entry>)
    ensures e.Some? ==> KeyOf(e.value) == key && e.value in es
  {
    if es == [] then None
    else if KeyOf(es[|es| - 1]) == key then Some(es[|es| - 1])
    else Latest(es[..|es| - 1], key)
  }

  function AddAll(r: Record, es: seq<Entry>): Record
  {
    if es == [] then r else AddEntry(AddAll(r, es[..|es| - 1]), es[|es| - 1].utdId, es[|es| - 1])
  }

  /** The entries are the map that a history describes. */
  ghost predicate Reflects(m: seq<Option<Entry>>, es: seq<Entry>)
  {
    && |m| == |FirstSeen(es)|
    && forall i :: 0 <= i < |m| ==> m[i].Some? && m[i] == Latest(es, FirstSeen(es)[i])
  }

  lemma {:induction false} SeenAreDistinct(es: seq<Entry>)
    ensures forall i, j :: 0 <= i < j < |FirstSeen(es)| ==> FirstSeen(es)[i] != FirstSeen(es)[j]
    decreases |es|
  {
    if es != [] {
      SeenAreDistinct(es[..|es| - 1]);
    }
  }

  lemma HistoryStep(es: seq<Entry>, e: Entry)
    ensures FirstSeen(es + [e]) == if KeyOf(e) in FirstSeen(es) then FirstSeen(es) else FirstSeen(es) + [KeyOf(e)]
    ensures forall key :: Latest(es + [e], key) == if KeyOf(e) == key then Some(e) else Latest(es, key)
  {
    var all := es + [e];
    assert all[..|all| - 1] == es && all[|all| - 1] == e;
  }

  lemma ReplaceReflects(m: seq<Option<Entry>>, es: seq<Entry>, e: Entry, i: nat)
    requires Reflects(m, es) && i < |m| && FirstSeen(es)[i] == KeyOf(e)
    ensures Reflects(m[i := Some(e)], es + [e])
  {
    hide FirstSeen, Latest;
    HistoryStep(es, e);
    SeenAreDistinct(es);
  }

  lemma AppendReflects(m: seq<Option<Entry>>, es: seq<Entry>, e: Entry)
    requires Reflects(m, es) && KeyOf(e) !in FirstSeen(es)
    ensures Reflects(m + [Some(e)], es + [e])
  {
    hide FirstSeen, Latest;
    HistoryStep(es, e);
  }

  /** One more entry is added: it takes over the slot of its key, or goes last. */
  lemma AddReflects(m: seq<Option<Entry>>, es: seq<Entry>, e: Entry, slot: Option<nat>)
    requires Reflects(m, es) && Consistent(e) && forall x :: x in es ==> Consistent(x)
    requires slot == SlotOf(m, e, 0)
    ensures Reflects(if slot.Some? then m[slot.value := Some(e)] else m + [Some(e)], es + [e])
  {
    hide Consistent, FirstSeen, Latest, SlotOf, SameSlot, KeyOf;
    var seen, key := FirstSeen(es), KeyOf(e);
    forall i | 0 <= i < |m| ensures m[i].Some? && (SameSlot(m[i].value, e) <==> seen[i] == key) {
      assert m[i] == Latest(es, seen[i]);
      SlotIsKey(m[i].value, e);
    }
    if slot.Some? {
      ReplaceReflects(m, es, e, slot.value);
    } else {
      AppendReflects(m, es, e);
    }
  }

  /** Over every run of AddEntry from an empty record: each key once, in order of first use, with its latest entry. */
  lemma {:induction false} AddEntryIsOrderedMap(r: Record, es: seq<Entry>)
    requires r.entries == [] && forall x :: x in es ==> Consistent(x)
    ensures Reflects(AddAll(r, es).entries, es)
    decreases |es|
  {
    hide Consistent, Reflects, EnumOf, SlotOf;
    if es == [] {
      NothingReflects();
    } else {
      var before, e := es[..|es| - 1], es[|es| - 1];
      assert es == before + [e] && e in es;
      AddEntryIsOrderedMap(r, before);
      var m := AddAll(r, before).entries;
      AddReflects(m, before, e, SlotOf(m, e, 0));
    }
  }

  lemma NothingReflects()
    ensures Reflects([], [])
  {
  }

  /** Types stay pairwise distinct, and there is at most one URI. */
  lemma TypesAreDistinct(r: Record, es: seq<Entry>, i: nat, j: nat)
    requires r.entries == [] && forall x :: x in es ==> Consistent(x)
    requires i < j < |AddAll(r, es).entries|
    ensures var m := AddAll(r, es).entries;
            m[i].Some? && m[j].Some? && m[i].value.utdId != m[j].value.utdId &&
            !(m[i].value.mime == MIME_URI && m[j].value.mime == MIME_URI)
  {
    hide AddAll, Convert2MimeType;
    AddEntryIsOrderedMap(r, es);
    SeenAreDistinct(es);
    var m := AddAll(r, es).entries;
    SlotIsKey(m[i].value, m[j].value);
  }

  // ----- Builder::Build

  function Having(es: seq<Entry>, mime: bytes, wanted: bool): seq<Entry>
  {
    if es == [] then []
    else Having(es[..|es| - 1], mime, wanted) + if (es[|es| - 1].mime == mime) == wanted then [es[|es| - 1]] else []
  }

  function EmptyRecord(): Record
  {
    Record([], None, None, None, None, None, Null, [], false, UD_BUTT, Null, [], Null, Null, [], 0, 0, false, 0)
  }

  function Somes(es: seq<Entry>): (os: seq<Option<Entry>>)
    ensures |os| == |es|
  {
    seq(|es|, i requires 0 <= i < |es| => Some(es[i]))
  }

  /** No entry would take over another's slot. */
  ghost predicate Separate(es: seq<Entry>) { forall i, j :: 0 <= i < j < |es| ==> !SameSlot(es[i], es[j]) }

  lemma {:induction false} InHaving(es: seq<Entry>, mime: bytes, wanted: bool, e: Entry)
    ensures e in Having(es, mime, wanted) <==> e in es && (e.mime == mime) == wanted
    decreases |es|
  {
    if es != [] {
      InHaving(es[..|es| - 1], mime, wanted, e);
      assert es == es[..|es| - 1] + [es[|es| - 1]];
    }
  }

  lemma {:induction false} HavingIsSeparate(es: seq<Entry>, mime: bytes, wanted: bool)
    requires Separate(es)
    ensures Separate(Having(es, mime, wanted))
    decreases |es|
  {
    hide SameSlot;
    if es != [] {
      var before, e := es[..|es| - 1], es[|es| - 1];
      HavingIsSeparate(before, mime, wanted);
      var h := Having(before, mime, wanted);
      forall i | 0 <= i < |h| ensures !SameSlot(h[i], e) {
        InHaving(before, mime, wanted, h[i]);
        assert h[i] in before;
      }
    }
  }

  lemma PartsAreSeparate(es: seq<Entry>, mime: bytes)
    requires Separate(es)
    ensures Separate(Having(es, mime, true) + Having(es, mime, false))
  {
    hide Having;
    var a, b := Having(es, mime, true), Having(es, mime, false);
    HavingIsSeparate(es, mime, true);
    HavingIsSeparate(es, mime, false);
    forall i, j | 0 <= i < |a| && 0 <= j < |b| ensures !SameSlot(a[i], b[j]) {
      InHaving(es, mime, true, a[i]);
      InHaving(es, mime, false, b[j]);
      var k :| 0 <= k < |es| && es[k] == a[i];
      var l :| 0 <= l < |es| && es[l] == b[j];
    }
  }

  lemma {:induction false} AddSeparate(r: Record, es: seq<Entry>)
    requires r.entries == [] && Separate(es)
    ensures AddAll(r, es) == r.(entries := Somes(es), udType := if es == [] then r.udType else FirstType(es[0].utdId))
    decreases |es|
  {
    hide SameSlot, EnumOf, Somes;
    if es == [] {
      assert r.entries == Somes(es) by { NoSomes(); }
    } else {
      var before, e := es[..|es| - 1], es[|es| - 1];
      AddSeparate(r, before);
      NoSlot(before, e);
      NoSomes();
      assert es == before + [e];
    }
  }

  lemma NoSomes()
    ensures Somes([]) == []
  {
  }

  /** The last of separate entries takes over no slot. */
  lemma NoSlot(before: seq<Entry>, e: Entry)
    requires Separate(before + [e])
    ensures SlotOf(Somes(before), e, 0).None? && Somes(before) + [Some(e)] == Somes(before + [e])
  {
    hide SameSlot;
    var all := before + [e];
    forall k | 0 <= k < |before| ensures !SameSlot(before[k], e) {
      assert all[k] == before[k] && all[|before|] == e;
    }
  }

  /** Whatever was added, no entry is left that would take over another's slot. */
  lemma AddedIsSeparate(r: Record, es: seq<Entry>)
    requires r.entries == [] && forall x :: x in es ==> Consistent(x)
    ensures var m := AddAll(r, es).entries;
            && (forall i :: 0 <= i < |m| ==> m[i].Some?)
            && var list := seq(|m|, i requires 0 <= i < |m| => m[i].value); m == Somes(list) && Separate(list)
  {
    hide AddAll, Consistent;
    var m := AddAll(r, es).entries;
    AddEntryIsOrderedMap(r, es);
    var list := seq(|m|, i requires 0 <= i < |m| => m[i].value);
    forall i, j | 0 <= i < j < |list| ensures !SameSlot(list[i], list[j]) {
      TypesAreDistinct(r, es, i, j);
    }
  }

  function FirstType(utdId: bytes): int32 { if EnumOf(utdId) == UD_BUTT then UD_APPLICATION else EnumOf(utdId) }

  /** Over every run the type enum is that of the first entry ever added, or the one for applications' own types. */
  lemma {:induction false} FirstEntryDecides(r: Record, es: seq<Entry>)
    requires r.entries == [] && es != []
    ensures var t := EnumOf(es[0].utdId);
            AddAll(r, es).entries != [] && AddAll(r, es).udType == if t == 1000 then 25 else t
    decreases |es|
  {
    hide EnumOf, SlotOf;
    var before := es[..|es| - 1];
    if before != [] {
      FirstEntryDecides(r, before);
    } else {
      assert SlotOf([], es[0], 0).None?;
    }
  }

  function Built(r: Record, es: seq<Entry>): Record
  {
    if r.mime == [] then r
    else
      AddAll(EmptyRecord(), Having(es, r.mime, true) + Having(es, r.mime, false)).(custom := r.custom, mime := r.mime)
  }

  /** Build keeps the entries, those of the record's type first, each part in its old order. */
  lemma BuildPartitions(r: Record, es: seq<Entry>)
    requires r.entries == Somes(es) && Separate(es) && r.mime != []
    ensures Built(r, es).entries == Somes(Having(es, r.mime, true) + Having(es, r.mime, false))
    ensures multiset(Having(es, r.mime, true) + Having(es, r.mime, false)) == multiset(es)
    ensures Built(r, es).mime == r.mime && Built(r, es).custom == r.custom
    ensures Built(r, es).udType ==
            if es == [] then UD_BUTT else FirstType((Having(es, r.mime, true) + Having(es, r.mime, false))[0].utdId)
  {
    hide AddAll, Having;
    PartsAreSeparate(es, r.mime);
    AddSeparate(EmptyRecord(), Having(es, r.mime, true) + Having(es, r.mime, false));
    PartsArePermutation(es, r.mime);
  }

  /** The entries after a run: each key once, in order of first use, with its latest entry. */
  function Added(r: Record, es: seq<Entry>): (list: seq<Entry>)
    requires r.entries == [] && forall x :: x in es ==> Consistent(x)
    ensures AddAll(r, es).entries == Somes(list) && Separate(list)
  {
    var m := AddAll(r, es).entries;
    AddedIsSeparate(r, es);
    seq(|m|, i requires 0 <= i < |m| => m[i].value)
  }

  /**
   Build after any run of AddEntry on a typed record: exactly the entries of the run, each key with
   its latest entry, those of the record's type first, and each part in order of first use.
   */
  lemma BuildAfterRun(r: Record, es: seq<Entry>)
    requires r.entries == [] && r.mime != [] && forall x :: x in es ==> Consistent(x)
    ensures var list, built := Added(r, es), Built(AddAll(r, es), Added(r, es));
            && Reflects(Somes(list), es)
            && built.entries == Somes(Having(list, r.mime, true) + Having(list, r.mime, false))
            && multiset(Having(list, r.mime, true) + Having(list, r.mime, false)) == multiset(list)
            && built.mime == r.mime && built.custom == r.custom
            && built.udType == (if list == [] then UD_BUTT
                                else FirstType((Having(list, r.mime, true) + Having(list, r.mime, false))[0].utdId))
  {
    hide AddEntry, Having, Reflects, Consistent;
    AddEntryIsOrderedMap(r, es);
    AddAllKeeps(r, es);
    BuildPartitions(AddAll(r, es), Added(r, es));
  }

  lemma {:induction false} AddAllKeeps(r: Record, es: seq<Entry>)
    ensures AddAll(r, es).mime == r.mime && AddAll(r, es).custom == r.custom
    decreases |es|
  {
    hide SlotOf, EnumOf;
    if es != [] {
      AddAllKeeps(r, es[..|es| - 1]);
    }
  }

  lemma {:induction false} PartsArePermutation(es: seq<Entry>, mime: bytes)
    ensures multiset(Having(es, mime, true)) + multiset(Having(es, mime, false)) == multiset(es)
    decreases |es|
  {
    if es != [] {
      var before, e := es[..|es| - 1], es[|es| - 1];
      PartsArePermutation(before, mime);
      assert es == before + [e];
      var a, b := Having(before, mime, true), Having(before, mime, false);
      HavingStep(es, mime);
      hide Having;
      OneMore(a, e);
      OneMore(b, e);
      OneMore(before, e);
    }
  }

  lemma OneMore(s: seq<Entry>, e: Entry)
    ensures multiset(s + [e]) == multiset(s) + multiset{e}
  {
  }

  lemma HavingStep(es: seq<Entry>, mime: bytes)
    requires es != []
    ensures var before, e := es[..|es| - 1], es[|es| - 1];
            && Having(es, mime, true) ==
               (if e.mime == mime then Having(before, mime, true) + [e] else Having(before, mime, true))
            && Having(es, mime, false) ==
               (if e.mime == mime then Having(before, mime, false) else Having(before, mime, false) + [e])
  {
  }

  class PasteRecord {
    var fields: Record

    constructor (fields: Record)
      ensures this.fields == fields
    {
      this.fields := fields;
    }

    method AddEntry(utdType: bytes, value: Option<Entry>)
      modifies this
      ensures fields == if value.None? then old(fields) else PasteModel.AddEntry(old(fields), utdType, value.value)
      ensures value.None? || utdType != value.value.utdId ==> fields == old(fields)
    {
      hide EnumOf, SameSlot;
      if value.None? || utdType != value.value.utdId {
        return;
      }
      var e := value.value;
      var i := 0;
      while i < |fields.entries|
        invariant i <= |fields.entries| && fields == old(fields) &&
                  SlotOf(fields.entries, e, i) == SlotOf(fields.entries, e, 0)
      {
        if fields.entries[i].Some? && SameSlot(fields.entries[i].value, e) {
          fields := fields.(entries := fields.entries[i := value]);
          return;
        }
        i := i + 1;
      }
      if fields.entries == [] {
        var udType := EnumOf(utdType);
        fields := fields.(udType := if udType == UD_BUTT then UD_APPLICATION else udType);
      }
      fields := fields.(entries := fields.entries + [value]);
    }
  }

  /** One of the two passes of Build. */
  method AddHaving(b: PasteRecord, entries: seq<Entry>, mime: bytes, wanted: bool, ghost r: Record,
                   ghost before: seq<Entry>)
    requires b.fields == AddAll(r, before)
    modifies b
    ensures b.fields == AddAll(r, before + Having(entries, mime, wanted))
  {
    hide AddEntry, AddAll;
    assert before + [] == before;
    for i := 0 to |entries|
      invariant b.fields == AddAll(r, before + Having(entries[..i], mime, wanted))
    {
      ghost var added := before + Having(entries[..i], mime, wanted);
      assert entries[..i + 1][..i] == entries[..i];
      assert Having(entries[..i], mime, wanted) + [] == Having(entries[..i], mime, wanted);
      if (entries[i].mime == mime) == wanted {
        AddAllStep(r, added, entries[i]);
        assert added + [entries[i]] == before + (Having(entries[..i], mime, wanted) + [entries[i]]);
        b.AddEntry(entries[i].utdId, Some(entries[i]));
      }
    }
    assert entries[..|entries|] == entries;
  }

  method Build(record: Record, entries: seq<Entry>) returns (built: Record)
    requires record.entries == Somes(entries)
    ensures built == Built(record, entries)
    ensures record.mime == [] ==> built == record
  {
    if record.mime == [] {
      return record;
    }
    var b := new PasteRecord(EmptyRecord());
    AddHaving(b, entries, record.mime, true, EmptyRecord(), []);
    AddHaving(b, entries, record.mime, false, EmptyRecord(), [] + Having(entries, record.mime, true));
    assert [] + Having(entries, record.mime, true) == Having(entries, record.mime, true);
    built := b.fields.(custom := record.custom, mime := record.mime);
  }

  lemma AddAllStep(r: Record, es: seq<Entry>, e: Entry)
    ensures AddAll(r, es + [e]) == PasteModel.AddEntry(AddAll(r, es), e.utdId, e)
  {
    assert (es + [e])[..|es + [e]| - 1] == es;
  }
}
