/**
 The record list of PasteData (framework/innerkits/src/paste_data.cpp): records_, props_.mimeTypes
 and recordId_, and the operations that must keep them in step. Neither AddRecord nor
 ReplaceRecordAt lets a null record in, so the list holds records.
 */
module RecordList {
  import opened Bytes
  import opened Tlv
  import opened PasteModel

  /** The two parallel lists and the last id given out. */
  datatype Lists = Lists(records: seq<Record>, mimeTypes: seq<bytes>, lastId: uint32)

  /** What RefreshMimeProp collects. */
  function MimesOf(rs: seq<Record>): (ms: seq<bytes>)
    ensures |ms| == |rs|
  {
    seq(|rs|, i requires 0 <= i < |rs| => GetMimeType(rs[i]))
  }

  /** RemoveEmptyEntry of one record: null entries and entries without a value go. */
  function Filled(es: seq<Option<Entry>>): seq<Option<Entry>>
  {
    if es == [] then []
    else (if IsEmpty(es[0]) then [] else [es[0]]) + Filled(es[1..])
  }

  predicate IsEmpty(e: Option<Entry>) { e.None? || (e.value.value.Variant? && e.value.value.index == 0) }

  function FilledAll(rs: seq<Record>): (fs: seq<Record>)
    ensures |fs| == |rs|
  {
    seq(|rs|, i requires 0 <= i < |rs| => rs[i].(entries := Filled(rs[i].entries)))
  }

  datatype Op = Add(record: Option<Record>) | Remove(at: nat) | Replace(at: nat, record: Option<Record>) | RemoveEmpty

  /** What an operation makes of the lists, as the sources do it. */
  function Step(service: bool, s: Lists, op: Op): Lists
  {
    match op
    case Add(None) => s
    case Add(Some(r)) =>
      var id := (s.lastId + 1) % TWO32;
      var r' := r.(id := id);
      if service then Lists(s.records + [r'], s.mimeTypes + [GetMimeType(r')], id)
      else Lists([r'] + s.records, [GetMimeType(r')] + s.mimeTypes, id)
    case Remove(at) =>
      if at < |s.records| then WithRecords(s, s.records[..at] + s.records[at + 1..]) else s
    case Replace(at, r) =>
      if r.Some? && at < |s.records| then WithRecords(s, s.records[at := r.value]) else s
    case RemoveEmpty => WithRecords(s, FilledAll(s.records))
  }

  function WithRecords(s: Lists, rs: seq<Record>): Lists { Lists(rs, MimesOf(rs), s.lastId) }

  function Run(service: bool, s: Lists, ops: seq<Op>): Lists
    decreases |ops|
  {
    if ops == [] then s else Run(service, Step(service, s, ops[0]), ops[1..])
  }

  /** One entry stays exactly when it is there and its value is not monostate, the first alternative. */
  lemma FilledOne(e: Option<Entry>)
    ensures Filled([e]) == if e.Some? && !(e.value.value.Variant? && e.value.value.index == 0) then [e] else []
  {
    assert [e][1..] == [] && Filled([]) == [];
  }

  /** Entries stay or go one by one, in order. */
  lemma {:induction false} FilledJoin(a: seq<Option<Entry>>, b: seq<Option<Entry>>)
    ensures Filled(a + b) == Filled(a) + Filled(b)
    decreases |a|
  {
    hide IsEmpty;
    if a == [] {
      assert a + b == b && [] + Filled(b) == Filled(b);
    } else {
      assert (a + b)[0] == a[0] && (a + b)[1..] == a[1..] + b;
      FilledJoin(a[1..], b);
      Regroup(if IsEmpty(a[0]) then [] else [a[0]], Filled(a[1..]), Filled(b));
    }
  }

  /** What each operation does to the records, by position; a null record or a position outside does nothing. */
  ghost predicate Edits(service: bool, rs: seq<Record>, ts: seq<Record>, op: Op, id: uint32)
  {
    match op
    case Add(record) =>
      if record.None? then ts == rs
      else
        && |ts| == |rs| + 1 && ts[if service then |rs| else 0] == record.value.(id := id)
        && forall i :: 0 <= i < |rs| ==> ts[if service then i else i + 1] == rs[i]
    case Remove(at) =>
      if at >= |rs| then ts == rs
      else |ts| == |rs| - 1 && forall i :: 0 <= i < |ts| ==> ts[i] == rs[if i < at then i else i + 1]
    case Replace(at, record) =>
      if at >= |rs| || record.None? then ts == rs
      else |ts| == |rs| && ts[at] == record.value && forall i :: 0 <= i < |rs| && i != at ==> ts[i] == rs[i]
    case RemoveEmpty =>
      |ts| == |rs| && forall i :: 0 <= i < |rs| ==> ts[i] == rs[i].(entries := Filled(rs[i].entries))
  }

  lemma StepEdits(service: bool, s: Lists, op: Op)
    ensures Edits(service, s.records, Step(service, s, op).records, op, (s.lastId + 1) % 0x1_0000_0000)
    ensures Step(service, s, op).lastId ==
            if op.Add? && op.record.Some? then (s.lastId + 1) % 0x1_0000_0000 else s.lastId
  {
    hide GetMimeType, MimesOf, Filled;
  }

  const EMPTY := Lists([], [], 0)

  ghost predicate Paired(s: Lists) { s.mimeTypes == MimesOf(s.records) }

  lemma StepKeepsPaired(service: bool, s: Lists, op: Op)
    requires Paired(s)
    ensures Paired(Step(service, s, op))
  {
    hide GetMimeType;
  }

  /** Over every run from an empty list, the mime types are those of the records, one by one. */
  lemma {:induction false} RunKeepsPaired(service: bool, s: Lists, ops: seq<Op>)
    requires Paired(s)
    ensures Paired(Run(service, s, ops))
    decreases |ops|
  {
    hide Paired, Step;
    if ops != [] {
      StepKeepsPaired(service, s, ops[0]);
      RunKeepsPaired(service, Step(service, s, ops[0]), ops[1..]);
    }
  }

  /** Ids are positive, distinct, and up to the counter. */
  ghost predicate Numbered(s: Lists)
  {
    && (forall i :: 0 <= i < |s.records| ==> 0 < s.records[i].id <= s.lastId)
    && (forall i, j :: 0 <= i < j < |s.records| ==> s.records[i].id != s.records[j].id)
  }

  function Additions(ops: seq<Op>): nat
  {
    if ops == [] then 0 else (if ops[0].Add? && ops[0].record.Some? then 1 else 0) + Additions(ops[1..])
  }

  /** The new record carries the next id, the others are unchanged behind or in front of it. */
  lemma AddedRecords(service: bool, s: Lists, r: Record)
    requires s.lastId + 1 < TWO32
    ensures var t, at := Step(service, s, Add(Some(r))), if service then |s.records| else 0;
            && t.lastId == s.lastId + 1
            && |t.records| == |s.records| + 1
            && t.records[at].id == s.lastId + 1
            && t.records[..at] + t.records[at + 1..] == s.records
  {
    hide GetMimeType, MimesOf;
  }

  lemma AddKeepsNumbered(service: bool, s: Lists, r: Record)
    requires Numbered(s) && s.lastId + 1 < TWO32
    ensures var t := Step(service, s, Add(Some(r))); Numbered(t) && t.lastId == s.lastId + 1
  {
    hide Step;
    AddedRecords(service, s, r);
    var t, at := Step(service, s, Add(Some(r))), if service then |s.records| else 0;
    assert forall i :: 0 <= i < |t.records| && i != at ==> t.records[i] == s.records[if i < at then i else i - 1];
  }

  lemma RemoveKeepsNumbered(service: bool, s: Lists, at: nat)
    requires Numbered(s)
    ensures var t := Step(service, s, Remove(at)); Numbered(t) && t.lastId == s.lastId
  {
    hide GetMimeType;
    if at < |s.records| {
      var t := Step(service, s, Remove(at)).records;
      assert forall i :: 0 <= i < |t| ==> t[i] == s.records[if i < at then i else i + 1];
    }
  }

  lemma StepKeepsNumbered(service: bool, s: Lists, op: Op)
    requires Numbered(s) && !op.Replace?
    requires s.lastId + Additions([op]) < TWO32
    ensures Numbered(Step(service, s, op)) && Step(service, s, op).lastId == s.lastId + Additions([op])
  {
    hide GetMimeType, Filled;
    assert Additions([]) == 0;
    if op.Add? && op.record.Some? {
      AddKeepsNumbered(service, s, op.record.value);
    } else if op.Remove? {
      RemoveKeepsNumbered(service, s, op.at);
    }
  }

  /** Over every run that adds and removes, ids stay distinct while the 32-bit counter does not wrap. */
  lemma {:induction false} RunKeepsNumbered(service: bool, s: Lists, ops: seq<Op>)
    requires Numbered(s) && s.lastId + Additions(ops) < TWO32
    requires forall i :: 0 <= i < |ops| ==> !ops[i].Replace?
    ensures Numbered(Run(service, s, ops)) && Run(service, s, ops).lastId == s.lastId + Additions(ops)
    decreases |ops|
  {
    hide Numbered, Step;
    if ops != [] {
      assert Additions([ops[0]]) == Additions(ops) - Additions(ops[1..]);
      StepKeepsNumbered(service, s, ops[0]);
      RunKeepsNumbered(service, Step(service, s, ops[0]), ops[1..]);
    }
  }

  /** At the end of the counter an added record gets id 0, which no numbered list has. */
  lemma CounterWraps(service: bool, s: Lists, r: Record)
    requires s.lastId == TWO32 - 1
    ensures !Numbered(Step(service, s, Add(Some(r))))
  {
    hide GetMimeType;
    var s' := Step(service, s, Add(Some(r)));
    assert s'.records[if service then |s.records| else 0].id == 0;
  }

  /** The lists of a PasteData; service says whether the process is the pasteboard service. */
  class PasteList {
    var records: seq<Record>
    var mimeTypes: seq<bytes>
    var recordId: uint32
    var tag: bytes
    const service: bool

    function State(): Lists
      reads this
    {
      Lists(records, mimeTypes, recordId)
    }

    constructor (service: bool)
      ensures State() == EMPTY && Paired(State()) && Numbered(State()) && tag == [] && this.service == service
    {
      records, mimeTypes, recordId, tag := [], [], 0, [];
      this.service := service;
    }

    method AddRecord(record: Option<Record>)
      modifies this
      ensures State() == Step(service, old(State()), Add(record)) && tag == old(tag)
      ensures old(Paired(State())) ==> Paired(State())
    {
      StepKeepsPairedIf(service, State(), Add(record));
      if record.None? {
        return;
      }
      recordId := (recordId + 1) % TWO32;
      var r := record.value.(id := recordId);
      if service {
        mimeTypes := mimeTypes + [GetMimeType(r)];
        records := records + [r];
      } else {
        mimeTypes := [GetMimeType(r)] + mimeTypes;
        records := [r] + records;
      }
    }

    method RefreshMimeProp()
      modifies this`mimeTypes
      ensures mimeTypes == MimesOf(records)
    {
      var mimes: seq<bytes> := [];
      for i := 0 to |records|
        invariant mimes == MimesOf(records)[..i]
      {
        mimes := mimes + [GetMimeType(records[i])];
      }
      mimeTypes := mimes;
    }

    method RemoveRecordAt(number: nat) returns (ok: bool)
      modifies this`records, this`mimeTypes
      ensures State() == Step(service, old(State()), Remove(number)) && ok == (number < |old(records)|)
      ensures old(Paired(State())) ==> Paired(State())
    {
      StepKeepsPairedIf(service, State(), Remove(number));
      ok := number < |records|;
      if ok {
        records := records[..number] + records[number + 1..];
        RefreshMimeProp();
      }
    }

    method ReplaceRecordAt(number: nat, record: Option<Record>) returns (ok: bool)
      modifies this`records, this`mimeTypes
      ensures State() == Step(service, old(State()), Replace(number, record))
      ensures ok == (record.Some? && number < |old(records)|)
      ensures old(Paired(State())) ==> Paired(State())
    {
      StepKeepsPairedIf(service, State(), Replace(number, record));
      ok := record.Some? && number < |records|;
      if ok {
        records := records[number := record.value];
        RefreshMimeProp();
      }
    }

    method RemoveEmptyEntry()
      modifies this`records, this`mimeTypes
      ensures State() == Step(service, old(State()), RemoveEmpty)
      ensures old(Paired(State())) ==> Paired(State())
    {
      StepKeepsPairedIf(service, State(), RemoveEmpty);
      for i := 0 to |records|
        invariant |records| == |old(records)|
        invariant records[..i] == FilledAll(old(records))[..i] && records[i..] == old(records)[i..]
        invariant mimeTypes == old(mimeTypes)
      {
        assert records[i] == old(records)[i..][0];
        var es := RemoveEmptyEntries(records[i].entries);
        records := records[i := records[i].(entries := es)];
      }
      RefreshMimeProp();
    }
  }

  lemma StepKeepsPairedIf(service: bool, s: Lists, op: Op)
    ensures Paired(s) ==> Paired(Step(service, s, op))
  {
    if Paired(s) {
      StepKeepsPaired(service, s, op);
    }
  }

  lemma FilledFirst(es: seq<Option<Entry>>)
    requires es != []
    ensures Filled(es) == if IsEmpty(es[0]) then Filled(es[1..]) else [es[0]] + Filled(es[1..])
  {
    hide IsEmpty;
    assert [] + Filled(es[1..]) == Filled(es[1..]);
  }

  lemma NoneFilled()
    ensures Filled([]) == []
  {
  }

  /** What is left when the first i entries have been kept. */
  ghost function Walked(es: seq<Option<Entry>>, i: nat): seq<Option<Entry>>
    requires i <= |es|
  {
    es[..i] + Filled(es[i..])
  }

  lemma WalkEnds(es: seq<Option<Entry>>)
    ensures Walked(es, 0) == Filled(es) && Walked(es, |es|) == es
  {
    hide Filled;
    NoneFilled();
    assert es[0..] == es && es[..0] == [] && es[|es|..] == [] && es[..|es|] == es;
  }

  lemma WalkStep(es: seq<Option<Entry>>, i: nat)
    requires i < |es|
    ensures if IsEmpty(es[i]) then Walked(es[..i] + es[i + 1..], i) == Walked(es, i)
            else Walked(es, i + 1) == Walked(es, i)
  {
    hide IsEmpty, Filled;
    var before, rest := es[..i], es[i + 1..];
    FilledFirst(es[i..]);
    assert es[i..][0] == es[i] && es[i..][1..] == rest;
    if IsEmpty(es[i]) {
      var t := before + rest;
      assert t[..i] == before && t[i..] == rest;
    } else {
      assert es[..i + 1] == before + [es[i]];
      assert before + [es[i]] + Filled(rest) == before + ([es[i]] + Filled(rest));
    }
  }

  /** PasteDataRecord::RemoveEmptyEntry: erases while it walks. */
  method RemoveEmptyEntries(entries: seq<Option<Entry>>) returns (es: seq<Option<Entry>>)
    ensures es == Filled(entries)
  {
    hide IsEmpty, Filled, Walked;
    es := entries;
    WalkEnds(es);
    var i := 0;
    while i < |es|
      invariant i <= |es| && Walked(es, i) == Filled(entries)
      decreases |es| - i
    {
      WalkStep(es, i);
      if IsEmpty(es[i]) {
        es := es[..i] + es[i + 1..];
      } else {
        i := i + 1;
      }
    }
    WalkEnds(es);
  }
}
