/**
 The batched authorization check of PasteboardWebController::CheckAppUriPermission: URIs go out in
 batches, and every answer must reach the record its URI came from.
 */
module UriPermission {
  import opened Bytes
  import opened PasteModel
  import opened Web

  const BATCH := 10000
  /** Want's authorization flags for reading, and for reading and writing. */
  const READ := 1
  const READ_WRITE := 3

  /** A record with its uriPermission_, which is not encoded. */
  datatype Item = Item(record: Record, permission: nat)

  // ----- batches

  function Batches(uris: seq<bytes>): seq<seq<bytes>>
  {
    if uris == [] then [] else if |uris| < BATCH then [uris] else [uris[..BATCH]] + Batches(uris[BATCH..])
  }

  function Joined<T>(parts: seq<seq<T>>): seq<T>
  {
    if parts == [] then [] else parts[0] + Joined(parts[1..])
  }

  function Replies(check: seq<bytes> -> seq<bool>, batches: seq<seq<bytes>>): (rs: seq<seq<bool>>)
    ensures |rs| == |batches|
  {
    seq(|batches|, i requires 0 <= i < |batches| => check(batches[i]))
  }

  /** What the loop over the batches collects. */
  function Answers(check: seq<bytes> -> seq<bool>, uris: seq<bytes>): seq<bool>
  {
    Joined(Replies(check, Batches(uris)))
  }

  /** The batches are the list, in order; each is full but the last, and none is empty. */
  lemma {:induction false} BatchesPartition(uris: seq<bytes>)
    ensures Joined(Batches(uris)) == uris
    ensures forall i :: 0 <= i < |Batches(uris)| ==> 0 < |Batches(uris)[i]| <= 10000
    ensures forall i :: 0 <= i < |Batches(uris)| - 1 ==> |Batches(uris)[i]| == 10000
    decreases |uris|
  {
    if uris != [] && |uris| < BATCH {
      assert Joined([uris]) == uris + Joined([]);
    } else if uris != [] {
      BatchesPartition(uris[BATCH..]);
      assert uris == uris[..BATCH] + uris[BATCH..];
    }
  }

  /** A service that answers each URI by itself. */
  ghost predicate Answering(check: seq<bytes> -> seq<bool>, allowed: bytes -> bool)
  {
    forall uris :: |check(uris)| == |uris| && forall i :: 0 <= i < |uris| ==> check(uris)[i] == allowed(uris[i])
  }

  lemma AnswersStep(check: seq<bytes> -> seq<bool>, uris: seq<bytes>)
    requires uris != []
    ensures Answers(check, uris) ==
            if |uris| < BATCH then check(uris) else check(uris[..BATCH]) + Answers(check, uris[BATCH..])
  {
    var batches := Batches(uris);
    assert Replies(check, batches)[1..] == Replies(check, batches[1..]);
    if |uris| < BATCH {
      assert Joined(Replies(check, batches[1..])) == [];
    }
  }

  lemma NextBatch(check: seq<bytes> -> seq<bool>, uris: seq<bytes>, offset: nat, count: nat)
    requires offset < |uris| && count == if |uris| - offset < BATCH then |uris| - offset else BATCH
    ensures Answers(check, uris[offset..]) ==
            check(uris[offset..offset + count]) + Answers(check, uris[offset + count..])
  {
    hide Answers;
    AnswersStep(check, uris[offset..]);
    if count < BATCH {
      assert uris[offset..] == uris[offset..offset + count] && uris[offset + count..] == [];
      NoAnswers(check);
    } else {
      assert uris[offset..][..BATCH] == uris[offset..offset + count] &&
             uris[offset..][BATCH..] == uris[offset + count..];
    }
  }

  /** The place of URI i in its batch. */
  function PlaceIn(i: nat): (p: nat)
    ensures p < BATCH
  {
    if i < BATCH then i else PlaceIn(i - BATCH)
  }

  /** The batch that URI i is sent in. */
  function BatchOf(uris: seq<bytes>, i: nat): (b: seq<bytes>)
    requires i < |uris|
    ensures PlaceIn(i) < |b| && b[PlaceIn(i)] == uris[i]
    decreases i
  {
    if i >= BATCH then BatchOf(uris[BATCH..], i - BATCH) else if |uris| < BATCH then uris else uris[..BATCH]
  }

  /** Every reply to a batch of the list is as long as the batch. */
  ghost predicate Complete(check: seq<bytes> -> seq<bool>, uris: seq<bytes>)
  {
    forall n :: 0 <= n < |Batches(uris)| ==> |check(Batches(uris)[n])| == |Batches(uris)[n]|
  }

  lemma CompleteStep(check: seq<bytes> -> seq<bool>, uris: seq<bytes>)
    requires Complete(check, uris) && uris != []
    ensures if |uris| < BATCH then |check(uris)| == |uris|
            else |check(uris[..BATCH])| == BATCH && Complete(check, uris[BATCH..])
  {
    if |uris| < BATCH {
      assert Batches(uris)[0] == uris;
    } else {
      var rest := Batches(uris[BATCH..]);
      assert Batches(uris)[0] == uris[..BATCH];
      forall n | 0 <= n < |rest| ensures |check(rest[n])| == |rest[n]| {
        assert Batches(uris)[n + 1] == rest[n];
      }
    }
  }

  /** When every reply is as long as its batch, answer i is the one given for URI i. */
  lemma {:induction false} AnswerAt(check: seq<bytes> -> seq<bool>, uris: seq<bytes>, i: nat)
    requires i < |uris| && Complete(check, uris)
    ensures |Answers(check, uris)| == |uris| && |check(BatchOf(uris, i))| == |BatchOf(uris, i)|
    ensures Answers(check, uris)[i] == check(BatchOf(uris, i))[PlaceIn(i)]
    decreases |uris|
  {
    hide Answers, Complete;
    AnswersStep(check, uris);
    CompleteStep(check, uris);
    if |uris| >= BATCH {
      var rest := uris[BATCH..];
      if i >= BATCH {
        AnswerAt(check, rest, i - BATCH);
      } else if rest != [] {
        AnswerAt(check, rest, 0);
      } else {
        NoAnswers(check);
      }
    }
  }

  /** Batched answers are the answers to the whole list. */
  lemma {:induction false} BatchedEqualsUnbatched(check: seq<bytes> -> seq<bool>, allowed: bytes -> bool,
                                                  uris: seq<bytes>)
    requires Answering(check, allowed)
    ensures Answers(check, uris) == check(uris)
    decreases |uris|
  {
    hide Answers;
    if uris == [] {
      NoAnswers(check);
    } else {
      AnswersStep(check, uris);
      if |uris| >= BATCH {
        BatchedEqualsUnbatched(check, allowed, uris[BATCH..]);
      }
    }
  }

  lemma NoAnswers(check: seq<bytes> -> seq<bool>)
    ensures Answers(check, []) == []
  {
  }

  // ----- who is asked about

  /** Positions of records with a URI. */
  ghost predicate HaveUris(items: seq<Item>, at: seq<nat>)
  {
    forall k :: 0 <= k < |at| ==> at[k] < |items| && OriginUri(items[at[k]].record).Some?
  }

  /** All of them from position i on, in order. */
  function Asked(items: seq<Item>, i: nat): (at: seq<nat>)
    ensures HaveUris(items, at)
    decreases |items| - i
  {
    if i >= |items| then []
    else (if OriginUri(items[i].record).Some? then [i] else []) + Asked(items, i + 1)
  }

  /** They are listed in order. */
  lemma {:induction false} AskedAscends(items: seq<Item>, i: nat)
    ensures Ascending(Asked(items, i)) && Behind(i, Asked(items, i))
    decreases |items| - i
  {
    if i < |items| {
      AskedStep(items, i);
      AskedAscends(items, i + 1);
      hide Asked;
      OneBefore(i, Asked(items, i + 1));
    }
  }

  ghost predicate Ascending(at: seq<nat>) { forall k, l :: 0 <= k < l < |at| ==> at[k] < at[l] }

  ghost predicate Behind(i: nat, at: seq<nat>) { forall k :: 0 <= k < |at| ==> i <= at[k] }

  lemma OneBefore(i: nat, at: seq<nat>)
    requires Ascending(at) && Behind(i + 1, at)
    ensures Ascending([i] + at) && Behind(i, [i] + at) && Behind(i, at)
  {
    var m := [i] + at;
    forall k, l | 0 <= k < l < |m| ensures m[k] < m[l] {
      StepBack(i, at, l);
      if k > 0 {
        StepBack(i, at, k);
      }
    }
    forall k | 0 <= k < |m| ensures i <= m[k] {
      if k > 0 {
        StepBack(i, at, k);
      }
    }
  }

  lemma StepBack(i: nat, at: seq<nat>, k: nat)
    requires 0 < k <= |at|
    ensures ([i] + at)[k] == at[k - 1]
  {
  }

  /** Every record with a URI is listed. */
  lemma {:induction false} IsAsked(items: seq<Item>, i: nat, n: nat)
    requires i <= n < |items| && OriginUri(items[n].record).Some?
    ensures n in Asked(items, i)
    decreases n - i
  {
    hide OriginUri, Asked, HaveUris;
    AskedStep(items, i);
    var rest := Asked(items, i + 1);
    if i < n {
      IsAsked(items, i + 1, n);
      InLonger(i, rest, n);
    } else {
      FirstIn(i, rest);
    }
  }

  lemma FirstIn(i: nat, at: seq<nat>)
    ensures i in [i] + at
  {
    assert ([i] + at)[0] == i;
  }

  lemma InLonger(i: nat, at: seq<nat>, n: nat)
    requires n in at
    ensures n in [i] + at
  {
    var k :| 0 <= k < |at| && at[k] == n;
    assert ([i] + at)[k + 1] == n;
  }

  function UrisAt(items: seq<Item>, at: seq<nat>): (uris: seq<bytes>)
    requires HaveUris(items, at)
    ensures |uris| == |at|
  {
    seq(|at|, k requires 0 <= k < |at| => OriginUri(items[at[k]].record).value)
  }

  /** SetGrantUriPermission and SetUriPermission for one record. */
  function Granted(item: Item, read: bool, write: bool, persistable: bool): Item
  {
    Item(item.record.(granted := read),
         if !read then item.permission else if persistable && write then READ_WRITE else READ)
  }

  /**
   The record remembers whether it may be read. Its permission is 1 for reading, or 3 for reading and
   writing if it may be written and permissions persist; without reading it stays as it was.
   */
  ghost predicate Authorized(before: Item, after: Item, read: bool, write: bool, persistable: bool)
  {
    && after.record.granted == read && after.record.(granted := before.record.granted) == before.record
    && (!read ==> after.permission == before.permission)
    && (read && write && persistable ==> after.permission == 3)
    && (read && !(write && persistable) ==> after.permission == 1)
  }

  lemma GrantedIsAuthorized(item: Item, read: bool, write: bool, persistable: bool)
    ensures Authorized(item, Granted(item, read, write, persistable), read, write, persistable)
  {
  }

  /** The answers reach the records: after the first n answers. */
  function Applied(items: seq<Item>, at: seq<nat>, readings: seq<bool>, writes: seq<bool>,
                   persistable: bool): (r: seq<Item>)
    requires |readings| == |writes| == |at| && forall k :: 0 <= k < |at| ==> at[k] < |items|
    ensures |r| == |items|
    decreases |at|
  {
    if at == [] then items
    else
      var n := |at| - 1;
      var before := Applied(items, at[..n], readings[..n], writes[..n], persistable);
      before[at[n] := Granted(before[at[n]], readings[n], writes[n], persistable)]
  }

  lemma NothingApplied(items: seq<Item>, persistable: bool)
    ensures Applied(items, [], [], [], persistable) == items
  {
  }

  lemma AppliedStep(items: seq<Item>, at: seq<nat>, readings: seq<bool>, writes: seq<bool>, persistable: bool, i: nat)
    requires |readings| == |writes| == |at| && (forall k :: 0 <= k < |at| ==> at[k] < |items|) && i < |at|
    ensures var before := Applied(items, at[..i], readings[..i], writes[..i], persistable);
            Applied(items, at[..i + 1], readings[..i + 1], writes[..i + 1], persistable) ==
            before[at[i] := Granted(before[at[i]], readings[i], writes[i], persistable)]
  {
    hide Granted;
    assert at[..i + 1][..i] == at[..i] && readings[..i + 1][..i] == readings[..i] &&
           writes[..i + 1][..i] == writes[..i];
  }

  lemma GrantKeepsUri(item: Item, read: bool, write: bool, persistable: bool)
    ensures OriginUri(Granted(item, read, write, persistable).record) == OriginUri(item.record)
  {
    hide UriIndex, ConvertToUri;
  }

  /** The last position is not among those before it. */
  lemma LastIsNew(at: seq<nat>)
    requires Ascending(at) && at != []
    ensures at[|at| - 1] !in at[..|at| - 1] && Ascending(at[..|at| - 1])
  {
  }

  /** A record that is not asked about does not change. */
  lemma {:induction false} AppliedElsewhere(items: seq<Item>, at: seq<nat>, readings: seq<bool>, writes: seq<bool>,
                                            persistable: bool, n: nat)
    requires |readings| == |writes| == |at| && forall k :: 0 <= k < |at| ==> at[k] < |items|
    requires n < |items| && n !in at
    ensures Applied(items, at, readings, writes, persistable)[n] == items[n]
    decreases |at|
  {
    hide Granted;
    if at != [] {
      var m := |at| - 1;
      assert at[m] in at;
      AppliedElsewhere(items, at[..m], readings[..m], writes[..m], persistable, n);
    }
  }

  /** Answer k goes to the record of URI k. */
  lemma {:induction false} AppliedAt(items: seq<Item>, at: seq<nat>, readings: seq<bool>, writes: seq<bool>,
                                     persistable: bool, k: nat)
    requires |readings| == |writes| == |at| && forall k :: 0 <= k < |at| ==> at[k] < |items|
    requires Ascending(at) && k < |at|
    ensures Authorized(items[at[k]], Applied(items, at, readings, writes, persistable)[at[k]], readings[k], writes[k],
                       persistable)
    decreases |at|
  {
    hide Granted, Authorized;
    var m := |at| - 1;
    LastIsNew(at);
    if k == m {
      AppliedElsewhere(items, at[..m], readings[..m], writes[..m], persistable, at[m]);
      GrantedIsAuthorized(items[at[m]], readings[m], writes[m], persistable);
    } else {
      assert at[k] < at[m];
      hide Ascending;
      AppliedAt(items, at[..m], readings[..m], writes[..m], persistable, k);
    }
  }

  /** What a call makes of the list. */
  function Checked(items: seq<Item>, read: seq<bytes> -> seq<bool>, write: seq<bytes> -> seq<bool>,
                   persistable: bool): seq<Item>
  {
    var at := Asked(items, 0);
    var uris := UrisAt(items, at);
    if |Answers(read, uris)| != |at| || |Answers(write, uris)| != |at| then items
    else Applied(items, at, Answers(read, uris), Answers(write, uris), persistable)
  }

  /** With a service that answers each URI by itself, batching makes no difference: every record gets its own answer. */
  lemma CheckedOneByOne(items: seq<Item>, read: seq<bytes> -> seq<bool>, write: seq<bytes> -> seq<bool>,
                        persistable: bool, mayRead: bytes -> bool, mayWrite: bytes -> bool, n: nat)
    requires Answering(read, mayRead) && Answering(write, mayWrite) && n < |items|
    ensures |Checked(items, read, write, persistable)| == |items|
    ensures var uri, after := OriginUri(items[n].record), Checked(items, read, write, persistable)[n];
            if uri.Some? then Authorized(items[n], after, mayRead(uri.value), mayWrite(uri.value), persistable)
            else after == items[n]
  {
    hide Answers, OriginUri, Granted, Authorized, Applied, Asked;
    var at := Asked(items, 0);
    var uris := UrisAt(items, at);
    AskedAscends(items, 0);
    BatchedEqualsUnbatched(read, mayRead, uris);
    BatchedEqualsUnbatched(write, mayWrite, uris);
    if OriginUri(items[n].record).Some? {
      IsAsked(items, 0, n);
      var k :| 0 <= k < |at| && at[k] == n;
      AppliedAt(items, at, Answers(read, uris), Answers(write, uris), persistable, k);
      assert uris[k] == OriginUri(items[n].record).value;
    } else {
      AppliedElsewhere(items, at, Answers(read, uris), Answers(write, uris), persistable, n);
    }
  }

  /** The first n records with a URI are granted everything. */
  function AllGranted(items: seq<Item>, n: nat, persistable: bool): (r: seq<Item>)
    ensures |r| == |items|
  {
    seq(|items|, k requires 0 <= k < |items| =>
      if k < n && OriginUri(items[k].record).Some? then Granted(items[k], true, true, persistable) else items[k])
  }

  /** A call by the broker: every record with a URI may be read, and written if permissions persist. */
  lemma BrokerIsGranted(items: seq<Item>, persistable: bool, n: nat)
    requires n < |items|
    ensures var after := AllGranted(items, |items|, persistable)[n];
            if OriginUri(items[n].record).Some? then Authorized(items[n], after, true, true, persistable)
            else after == items[n]
  {
    hide OriginUri, Granted, Authorized;
    GrantedIsAuthorized(items[n], true, true, persistable);
  }

  lemma NothingGranted(items: seq<Item>, persistable: bool)
    ensures AllGranted(items, 0, persistable) == items && Listed(items, [], [], 0)
  {
    assert [] + Asked(items, 0) == Asked(items, 0);
  }

  lemma GrantedStep(items: seq<Item>, i: nat, persistable: bool)
    requires i < |items|
    ensures AllGranted(items, i, persistable)[i] == items[i]
    ensures AllGranted(items, i + 1, persistable) ==
            if OriginUri(items[i].record).Some?
            then AllGranted(items, i, persistable)[i := Granted(items[i], true, true, persistable)]
            else AllGranted(items, i, persistable)
  {
    hide OriginUri, Granted;
  }

  /** The URIs found before position i, with their positions. */
  ghost predicate Listed(items: seq<Item>, uris: seq<bytes>, at: seq<nat>, i: nat)
  {
    at + Asked(items, i) == Asked(items, 0) && HaveUris(items, at) && uris == UrisAt(items, at)
  }

  lemma UrisStep(items: seq<Item>, at: seq<nat>, i: nat)
    requires HaveUris(items, at) && i < |items| && OriginUri(items[i].record).Some?
    ensures HaveUris(items, at + [i])
    ensures UrisAt(items, at + [i]) == UrisAt(items, at) + [OriginUri(items[i].record).value]
  {
    hide OriginUri;
  }

  lemma ListedStep(items: seq<Item>, uris: seq<bytes>, at: seq<nat>, i: nat)
    requires i < |items| && Listed(items, uris, at, i)
    ensures var uri := OriginUri(items[i].record);
            if uri.Some? then Listed(items, uris + [uri.value], at + [i], i + 1) else Listed(items, uris, at, i + 1)
  {
    AskedStep(items, i);
    hide OriginUri, Asked, HaveUris, UrisAt;
    if OriginUri(items[i].record).Some? {
      UrisStep(items, at, i);
    }
    Regroup(at, [i], Asked(items, i + 1));
  }

  lemma AskedStep(items: seq<Item>, i: nat)
    requires i < |items|
    ensures Asked(items, i) ==
            if OriginUri(items[i].record).Some? then [i] + Asked(items, i + 1) else Asked(items, i + 1)
  {
    hide OriginUri;
    assert [] + Asked(items, i + 1) == Asked(items, i + 1);
  }

  lemma AllListed(items: seq<Item>, uris: seq<bytes>, at: seq<nat>)
    requires Listed(items, uris, at, |items|)
    ensures at == Asked(items, 0) && uris == UrisAt(items, at)
  {
    hide OriginUri, UrisAt, HaveUris;
    assert Asked(items, |items|) == [] && at + [] == at;
  }

  class CheckedList {
    var items: seq<Item>

    constructor (items: seq<Item>)
      ensures this.items == items
    {
      this.items := items;
    }

    /** GetNeedCheckUris: for the broker, records are granted at once and not asked about. */
    method GetNeedCheckUris(anco: bool, persistable: bool) returns (uris: seq<bytes>, at: seq<nat>)
      modifies this
      ensures anco ==> uris == [] && at == [] && items == AllGranted(old(items), |old(items)|, persistable)
      ensures !anco ==> items == old(items) && at == Asked(items, 0) && uris == UrisAt(items, at)
    {
      hide OriginUri, Asked, AllGranted, Listed;
      uris, at := [], [];
      NothingGranted(items, persistable);
      for i := 0 to |items|
        invariant |items| == |old(items)|
        invariant anco ==> uris == [] && at == [] && items == AllGranted(old(items), i, persistable)
        invariant !anco ==> items == old(items) && Listed(items, uris, at, i)
      {
        var uri := OriginUri(items[i].record);
        if anco {
          GrantedStep(old(items), i, persistable);
          if uri.Some? {
            items := items[i := Item(items[i].record.(granted := true), if persistable then READ_WRITE else READ)];
          }
        } else {
          ListedStep(items, uris, at, i);
          if uri.Some? {
            uris, at := uris + [uri.value], at + [i];
          }
        }
      }
      if !anco {
        AllListed(items, uris, at);
      }
    }

    method CheckAppUriPermission(anco: bool, persistable: bool, read: seq<bytes> -> seq<bool>,
                                 write: seq<bytes> -> seq<bool>)
      modifies this
      ensures items == if anco then AllGranted(old(items), |old(items)|, persistable)
                       else Checked(old(items), read, write, persistable)
    {
      hide OriginUri, Answers, Granted;
      var uris, at := GetNeedCheckUris(anco, persistable);
      if uris == [] {
        NoAnswers(read);
        NoAnswers(write);
        return;
      }
      var readResults, writeResults := Collect(uris, read, write);
      if |readResults| != |at| || |writeResults| != |at| {
        return;
      }
      Grant(at, readResults, writeResults, persistable);
    }

    /** The final loop: a record whose URI is gone is skipped. */
    method Grant(at: seq<nat>, readResults: seq<bool>, writeResults: seq<bool>, persistable: bool)
      requires |readResults| == |writeResults| == |at| && forall k :: 0 <= k < |at| ==> at[k] < |items|
      requires HaveUris(items, at)
      modifies this
      ensures items == Applied(old(items), at, readResults, writeResults, persistable)
    {
      hide Asked, OriginUri, Granted, Applied;
      NothingApplied(items, persistable);
      for i := 0 to |at|
        invariant |items| == |old(items)|
        invariant forall n :: 0 <= n < |items| ==> OriginUri(items[n].record) == OriginUri(old(items)[n].record)
        invariant items == Applied(old(items), at[..i], readResults[..i], writeResults[..i], persistable)
      {
        AppliedStep(old(items), at, readResults, writeResults, persistable, i);
        GrantKeepsUri(items[at[i]], readResults[i], writeResults[i], persistable);
        var item := items[at[i]];
        if OriginUri(item.record).Some? {
          items := items[at[i] := Granted(item, readResults[i], writeResults[i], persistable)];
        }
      }
      assert at[..|at|] == at && readResults[..|at|] == readResults && writeResults[..|at|] == writeResults;
    }
  }

  /** Both kinds of answers, batch by batch. */
  method Collect(uris: seq<bytes>, read: seq<bytes> -> seq<bool>, write: seq<bytes> -> seq<bool>)
    returns (readResults: seq<bool>, writeResults: seq<bool>)
    ensures readResults == Answers(read, uris) && writeResults == Answers(write, uris)
  {
    hide Answers;
    readResults, writeResults := [], [];
    var offset, count := 0, BATCH;
    NoAnswers(read);
    NoAnswers(write);
    assert uris[0..] == uris;
    assert [] + Answers(read, uris) == Answers(read, uris) && [] + Answers(write, uris) == Answers(write, uris);
    while |uris| > offset
      invariant offset <= |uris| && (|uris| - offset >= BATCH ==> count == BATCH)
      invariant readResults + Answers(read, uris[offset..]) == Answers(read, uris)
      invariant writeResults + Answers(write, uris[offset..]) == Answers(write, uris)
    {
      if |uris| - offset < BATCH {
        count := |uris| - offset;
      }
      var batch := uris[offset..offset + count];
      NextBatch(read, uris, offset, count);
      NextBatch(write, uris, offset, count);
      Regroup(readResults, read(batch), Answers(read, uris[offset + count..]));
      Regroup(writeResults, write(batch), Answers(write, uris[offset + count..]));
      readResults := readResults + read(batch);
      writeResults := writeResults + write(batch);
      offset := offset + count;
    }
    assert uris[offset..] == [];
  }
}
