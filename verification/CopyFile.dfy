/**
 Pasting files: the loop of PasteBoardCopyFile over the records
 (framework/innerkits/src/pasteboard_copy.cpp) and the progress it reports after the client's
 smoothing phase (framework/innerkits/src/pasteboard_client.cpp). The file system, the copies and
 the moments of a cancellation are arbitrary. Percentages are scaled over the reals.
 */
module CopyFile {
  import opened Bytes
  import Assoc
  import opened PasteModel
  import opened RecordList
  import opened Web

  const E_OK: int32 := 27787264
  const INVALID_PARAM_ERROR: int32 := 27787266
  const COPY_FILE_ERROR: int32 := 27787311
  const DFS_CANCEL_SUCCESS: int32 := 204

  /** One progress callback of a copy: the file's own percentage, and whether a cancellation mutes it. */
  datatype Report = Report(percent: nat, muted: bool)

  /**
   What happens in one turn of the loop: whether a cancellation is seen at its top, whether the
   destination exists and is to be skipped, where the file goes, what the copy returns and reports,
   and whether a cancellation is seen by the two later checks.
   */
  datatype Turn = Turn(cancelled: bool, skipped: bool, dest: bytes, ret: int32, reports: seq<Report>,
                       cancelledAfter: bool, cancelledLast: bool)

  /** Turns are numbered from one; a cancellation once seen stays. */
  type Turns = nat -> Turn

  ghost predicate CancelStays(turns: Turns)
  {
    forall n: nat ::
      && (turns(n).cancelled ==> turns(n).cancelledAfter) && (turns(n).cancelledAfter ==> turns(n).cancelledLast)
      && (turns(n).cancelledLast ==> turns(n + 1).cancelled)
  }

  // ----- the records

  predicate Copied(t: Turn) { (t.ret == E_OK || t.ret == 0) && !t.cancelledAfter }

  predicate IsWebExtra(r: Record) { r.from > 0 && r.id != r.from }

  /** ShouldKeepRecord: the record as it stays, if it does. */
  function KeptRecord(r: Record, t: Turn): Option<Record>
  {
    if Copied(t) then Some(SetUri(r, t.dest).(convertUri := []))
    else if IsWebExtra(r) && !t.cancelledLast then Some(r)
    else None
  }

  /** ... and the return value it leaves. */
  function KeptRet(r: Record, t: Turn): int32
  {
    if Copied(t) then t.ret else if IsWebExtra(r) && !t.cancelledLast then 0 else t.ret
  }

  /** What one turn makes of its record. */
  function Outcome(r: Record, t: Turn): Option<Record>
  {
    if t.cancelled then None else if UriOf(r).None? then Some(r) else if t.skipped then None else KeptRecord(r, t)
  }

  predicate Attempted(r: Record, t: Turn) { !t.cancelled && UriOf(r).Some? && !t.skipped }

  function AsSeq<T>(o: Option<T>): seq<T> { if o.Some? then [o.value] else [] }

  /** The records left when turn n finds rs. */
  function Left(rs: seq<Record>, turns: Turns, n: nat): seq<Record>
    decreases |rs|
  {
    if rs == [] then [] else AsSeq(Outcome(rs[0], turns(n))) + Left(rs[1..], turns, n + 1)
  }

  /** The value of ret when the loop ends. */
  function RetOf(rs: seq<Record>, turns: Turns, n: nat, ret: int32): int32
    decreases |rs|
  {
    if rs == [] then ret
    else RetOf(rs[1..], turns, n + 1, if Attempted(rs[0], turns(n)) then KeptRet(rs[0], turns(n)) else ret)
  }

  lemma {:induction false} NoneLeft(rs: seq<Record>, turns: Turns, n: nat)
    requires CancelStays(turns) && turns(n).cancelled
    ensures Left(rs, turns, n) == []
    decreases |rs|
  {
    if rs != [] {
      NoneLeft(rs[1..], turns, n + 1);
    }
  }

  /**
   Nothing stays from the record on where the loop sees the cancellation; before it, every record
   goes by its own turn.
   */
  lemma {:induction false} CopyIsFilter(rs: seq<Record>, turns: Turns, n: nat, k: nat)
    requires CancelStays(turns) && k <= |rs|
    requires (forall i :: n <= i < n + k ==> !turns(i).cancelled) && (k < |rs| ==> turns(n + k).cancelled)
    ensures Left(rs, turns, n) == Left(rs[..k], turns, n)
    decreases k
  {
    hide Outcome, CancelStays;
    if k == 0 {
      if rs != [] {
        NoneLeft(rs, turns, n);
      }
    } else {
      CopyIsFilter(rs[1..], turns, n + 1, k - 1);
      assert rs[..k][1..] == rs[1..][..k - 1];
    }
  }

  /** The copy succeeded, with 0 or E_OK, and no cancellation is seen behind it. */
  predicate Succeeded(ret: int, cancelledAfter: bool) { (ret == 0 || ret == 27787264) && !cancelledAfter }

  /**
   Before the cancellation is seen, a record is dropped exactly when its destination is skipped, or
   its copy failed or was cancelled and it is not a web extra that failed uncancelled. Otherwise it
   stays: unchanged if it was not copied, and else without its converted URI. The copied record has
   the destination as its URI exactly when its URI entry, if any, is of a file kind.
   */
  lemma OutcomeCases(r: Record, t: Turn)
    requires !t.cancelled
    ensures var kept, tried := Outcome(r, t), UriOf(r).Some? && !t.skipped;
            var copied := tried && Succeeded(t.ret, t.cancelledAfter);
            var extra := r.from > 0 && r.id != r.from && !t.cancelledLast;
            && (kept.None? <==> UriOf(r).Some? && (t.skipped || (!copied && !extra)))
            && (kept.Some? && !copied ==> kept.value == r)
            && (copied ==> kept.Some? && kept.value.convertUri == []
                           && (UriOf(kept.value) == Some(t.dest) <==> TakesUri(r))
                           && (UriOf(kept.value) == None <==> !TakesUri(r)))
  {
    hide SetUri, IsFileUri, UriIndex;
    SetUriReads(r, t.dest);
    if Attempted(r, t) && Copied(t) {
      ConvertUriIsApart(SetUri(r, t.dest));
    }
  }

  /** A record copied from its converted URI has no URI left when its URI entry is of another type. */
  lemma CopiedUriIsLost(r: Record, t: Turn, text: bytes)
    requires r.convertUri != [] && r.entries == [Some(Entry(UTD_PLAIN, MIME_URI, EvText(text)))]
    requires !t.cancelled && !t.skipped && Copied(t)
    ensures UriOf(r) == Some(r.convertUri) && Outcome(r, t).Some? && UriOf(Outcome(r, t).value) == None
  {
    OutcomeCases(r, t);
    assert UriIndex(r.entries, 0) == Some(0);
    PlainIsNoFile();
  }

  /** The record has no URI entry, or its first one is of a file kind. */
  predicate TakesUri(r: Record)
  {
    var i := UriIndex(r.entries, 0);
    i.Some? ==> IsFileUri(r.entries[i.value].value.utdId)
  }

  lemma ConvertUriIsApart(r: Record)
    ensures UriOf(r.(convertUri := [])) == OriginUri(r)
  {
  }

  lemma {:induction false} UriIndexStays(es: seq<Option<Entry>>, i: nat, e: Entry)
    requires UriIndex(es, i).Some? && e.mime == MIME_URI
    ensures UriIndex(es[UriIndex(es, i).value := Some(e)], i) == UriIndex(es, i)
    decreases |es| - i
  {
    if !(es[i].Some? && es[i].value.mime == MIME_URI) {
      UriIndexStays(es, i + 1, e);
    }
  }

  /** Without a URI entry, the one that AddEntry puts in is the first. */
  lemma {:induction false} NewUriIndex(es: seq<Option<Entry>>, e: Entry, i: nat)
    requires UriIndex(es, i).None? && e.mime == MIME_URI && i <= |es|
    ensures var slot := SlotOf(es, e, i);
            if slot.Some? then UriIndex(es[slot.value := Some(e)], i) == slot
            else UriIndex(es + [Some(e)], i) == Some(|es|)
    decreases |es| - i
  {
    if i < |es| {
      NewUriIndex(es, e, i + 1);
    } else {
      assert (es + [Some(e)])[i] == Some(e);
    }
  }

  /** A URI entry that holds an Object keeps all its other items. */
  lemma SetUriKeepsItems(r: Record, uri: bytes, i: nat)
    requires UriIndex(r.entries, 0) == Some(i) && HoldsObject(r.entries[i].value.value)
    ensures var e, items := r.entries[i].value, r.entries[i].value.value.val.pairs;
            var v := EvObject(Assoc.Assign(items, KEY_URI, EvText(uri)));
            SetUri(r, uri) == r.(entries := r.entries[i := Some(e.(value := v))])
    ensures forall key :: key != KEY_URI ==>
              Assoc.Lookup(Assoc.Assign(r.entries[i].value.value.val.pairs, KEY_URI, EvText(uri)), key) ==
              Assoc.Lookup(r.entries[i].value.value.val.pairs, key)
  {
    hide UriIndex, Assoc.Assign, Assoc.Lookup;
    var items := r.entries[i].value.value.val.pairs;
    forall key | key != KEY_URI
      ensures Assoc.Lookup(Assoc.Assign(items, KEY_URI, EvText(uri)), key) == Assoc.Lookup(items, key)
    {
      Assoc.LookupAssign(items, KEY_URI, EvText(uri), key);
    }
  }

  lemma SetUriReads(r: Record, uri: bytes)
    ensures OriginUri(SetUri(r, uri)) == if TakesUri(r) then Some(uri) else None
  {
    hide IsFileUri, UriIndex, SlotOf, EnumOf, Assoc.Assign, Assoc.Lookup;
    var i := UriIndex(r.entries, 0);
    if i.None? {
      var e := Entry(UTD_FILE_URI, MIME_URI, EvText(uri));
      NewUriIndex(r.entries, e, 0);
      assert IsFileUri(UTD_FILE_URI) by { FileUriIsFile(); }
    } else {
      var e := r.entries[i.value].value;
      UriIndexStays(r.entries, 0, SetUri(r, uri).entries[i.value].value);
      if HoldsObject(e.value) {
        Assoc.LookupAssign(e.value.val.pairs, KEY_URI, EvText(uri), KEY_URI);
      }
    }
  }

  lemma PlainIsNoFile()
    ensures !IsFileUri(UTD_PLAIN)
  {
    assert |UTD_PLAIN| == 18;
  }

  lemma FileUriIsFile()
    ensures IsFileUri(UTD_FILE_URI)
  {
  }

  /** Only the last copy that was tried decides the return value; earlier failures are forgotten. */
  lemma {:induction false} LastCopyDecides(rs: seq<Record>, turns: Turns, n: nat, ret: int32, i: nat)
    requires i < |rs| && Attempted(rs[i], turns(n + i))
    requires forall j :: i < j < |rs| ==> !Attempted(rs[j], turns(n + j))
    ensures RetOf(rs, turns, n, ret) == KeptRet(rs[i], turns(n + i))
    decreases |rs|
  {
    hide Attempted, KeptRet;
    var next := if Attempted(rs[0], turns(n)) then KeptRet(rs[0], turns(n)) else ret;
    if i == 0 {
      NoCopy(rs[1..], turns, n + 1, next);
    } else {
      LastCopyDecides(rs[1..], turns, n + 1, next, i - 1);
    }
  }

  lemma {:induction false} NoCopy(rs: seq<Record>, turns: Turns, n: nat, ret: int32)
    requires forall j :: 0 <= j < |rs| ==> !Attempted(rs[j], turns(n + j))
    ensures RetOf(rs, turns, n, ret) == ret
    decreases |rs|
  {
    hide Attempted, KeptRet;
    if rs != [] {
      assert !Attempted(rs[0], turns(n + 0));
      forall j | 0 <= j < |rs[1..]| ensures !Attempted(rs[1..][j], turns(n + 1 + j)) {
        assert !Attempted(rs[j + 1], turns(n + (j + 1)));
      }
      NoCopy(rs[1..], turns, n + 1, ret);
    }
  }

  function EndCode(ret: int32): int32 { if ret == 0 || ret == DFS_CANCEL_SUCCESS then E_OK else ret }

  /** The file of this turn is copied: no cancellation, a URI, and a destination that is not skipped. */
  predicate Tries(r: Record, t: Turn) { !t.cancelled && UriOf(r).Some? && !t.skipped }

  /** What the whole copy comes to when the record of the last turn that copied is r: fine, or an error. */
  predicate EndsWell(r: Record, t: Turn)
  {
    t.ret == 0 || t.ret == 27787264 || t.ret == 204 ||
    (!Succeeded(t.ret, t.cancelledAfter) && r.from > 0 && r.id != r.from && !t.cancelledLast)
  }

  /**
   The return value is 27787264, everything is fine, exactly when no file was copied, or the last copy
   returned 0, 27787264 or the 204 of a cancellation, or failed uncancelled for a web extra.
   */
  lemma CodeIsFine(rs: seq<Record>, turns: Turns, i: nat)
    requires i <= |rs| && forall j :: i < j < |rs| ==> !Tries(rs[j], turns(1 + j))
    requires if i < |rs| then Tries(rs[i], turns(1 + i)) else forall j :: 0 <= j < |rs| ==> !Tries(rs[j], turns(1 + j))
    ensures EndCode(RetOf(rs, turns, 1, 27787264)) == 27787264 <==> i == |rs| || EndsWell(rs[i], turns(1 + i))
  {
    hide UriOf;
    if i < |rs| {
      LastCopyDecides(rs, turns, 1, 27787264, i);
    } else {
      NoCopy(rs, turns, 1, 27787264);
    }
  }

  // ----- progress

  /** OnProgressNotify: the copy phase runs from 20 to 100. */
  function Scaled(percentage: int): int
  {
    var p := if percentage > 100 then 100 else percentage;
    var v := Truncated(p as real * 0.8 + 20.0);
    var w := if v < 0 then -v else v;
    if w < 0 then 0 else w
  }

  /** A conversion to an integer drops the fraction. */
  function Truncated(x: real): int { if x >= 0.0 then x.Floor else -((-x).Floor) }

  lemma ScaledIs(p: nat)
    requires p <= 100
    ensures Scaled(p) == 20 + 4 * p / 5
  {
    var x := p as real * 0.8 + 20.0;
    var k := 4 * p / 5;
    assert 5 * k <= 4 * p < 5 * k + 5;
    assert (20 + k) as real <= x < (21 + k) as real;
  }

  lemma ScaledKeepsOrder(p: nat, q: nat)
    requires p <= q <= 100
    ensures 20 <= Scaled(p) <= Scaled(q) <= 100
  {
    hide Scaled;
    ScaledIs(p);
    ScaledIs(q);
  }

  /** HandleProgress: the whole progress when file n of size files has come to its percentage. */
  function TotalAt(n: nat, percent: nat, size: nat): nat
    requires n >= 1 && size > 0
  {
    ((n - 1) * 100 + percent) / size
  }

  function NoticesIn(n: nat, reports: seq<Report>, size: nat): seq<int>
    requires n >= 1
  {
    if reports == [] then []
    else (if size == 0 || reports[0].muted then [] else [Scaled(TotalAt(n, reports[0].percent, size))]) +
         NoticesIn(n, reports[1..], size)
  }

  /** One report that is not muted is one notice: 20 and four fifths of the whole progress, in integers. */
  lemma OneNotice(n: nat, r: Report, size: nat)
    requires 1 <= n <= size && r.percent <= 100
    ensures NoticesIn(n, [r], size) == if r.muted then [] else [20 + 4 * (((n - 1) * 100 + r.percent) / size) / 5]
  {
    hide Scaled;
    TotalKeepsOrder(n, r.percent, r.percent, size);
    ScaledIs(TotalAt(n, r.percent, size));
    assert [r][1..] == [] && NoticesIn(n, [], size) == [];
  }

  lemma {:induction false} NoticesInJoin(n: nat, a: seq<Report>, b: seq<Report>, size: nat)
    requires n >= 1
    ensures NoticesIn(n, a + b, size) == NoticesIn(n, a, size) + NoticesIn(n, b, size)
    decreases |a|
  {
    hide Scaled, TotalAt;
    if a == [] {
      assert a + b == b && [] + NoticesIn(n, b, size) == NoticesIn(n, b, size);
    } else {
      assert (a + b)[0] == a[0] && (a + b)[1..] == a[1..] + b;
      NoticesInJoin(n, a[1..], b, size);
      Regroup(if size == 0 || a[0].muted then [] else [Scaled(TotalAt(n, a[0].percent, size))],
              NoticesIn(n, a[1..], size), NoticesIn(n, b, size));
    }
  }

  /** The notices of a list are those of its records that are copied, one after the other. */
  lemma {:induction false} NoticesJoin(a: seq<Record>, b: seq<Record>, turns: Turns, n: nat, size: nat)
    requires n >= 1
    ensures Notices(a + b, turns, n, size) == Notices(a, turns, n, size) + Notices(b, turns, n + |a|, size)
    decreases |a|
  {
    hide NoticesIn, Attempted;
    if a == [] {
      assert a + b == b && [] + Notices(b, turns, n, size) == Notices(b, turns, n, size);
    } else {
      assert (a + b)[0] == a[0] && (a + b)[1..] == a[1..] + b;
      NoticesJoin(a[1..], b, turns, n + 1, size);
      Regroup(if Attempted(a[0], turns(n)) then NoticesIn(n, turns(n).reports, size) else [],
              Notices(a[1..], turns, n + 1, size), Notices(b, turns, n + |a|, size));
    }
  }

  lemma OneRecordNotices(r: Record, turns: Turns, n: nat, size: nat)
    requires n >= 1
    ensures Notices([r], turns, n, size) == if Tries(r, turns(n)) then NoticesIn(n, turns(n).reports, size) else []
  {
    hide NoticesIn, UriOf;
    assert [r][1..] == [] && Notices([], turns, n + 1, size) == [];
  }

  /** Everything notified from turn n on. */
  function Notices(rs: seq<Record>, turns: Turns, n: nat, size: nat): seq<int>
    requires n >= 1
    decreases |rs|
  {
    if rs == [] then []
    else (if Attempted(rs[0], turns(n)) then NoticesIn(n, turns(n).reports, size) else []) +
         Notices(rs[1..], turns, n + 1, size)
  }

  /** Values that never go back, between two bounds. */
  ghost predicate Climbs(vs: seq<int>, lo: int, hi: int)
  {
    && (forall i, j :: 0 <= i < j < |vs| ==> vs[i] <= vs[j])
    && (forall i :: 0 <= i < |vs| ==> lo <= vs[i] <= hi)
  }

  lemma NoneClimbs(lo: int, hi: int)
    ensures Climbs([], lo, hi)
  {
  }

  lemma OneClimbs(v: int, lo: int, hi: int)
    requires lo <= v <= hi
    ensures Climbs([v], lo, hi)
  {
  }

  lemma JoinClimbs(a: seq<int>, b: seq<int>, lo: int, mid: int, hi: int)
    requires Climbs(a, lo, mid) && Climbs(b, mid, hi) && lo <= mid <= hi
    ensures Climbs(a + b, lo, hi)
  {
  }

  lemma WidenClimbs(a: seq<int>, lo: int, hi: int, low: int, high: int)
    requires Climbs(a, lo, hi) && low <= lo && hi <= high
    ensures Climbs(a, low, high)
  {
  }

  /** Each file's own percentage never goes back and stays within 0..100. */
  ghost predicate Steady(reports: seq<Report>)
  {
    && (forall i :: 0 <= i < |reports| ==> reports[i].percent <= 100)
    && (forall i, j :: 0 <= i < j < |reports| ==> reports[i].percent <= reports[j].percent)
  }

  lemma ProductsKeepOrder(d: nat, x: nat, y: nat)
    ensures x < y ==> d * x + d <= d * y
  {
    if x < y {
      assert d * (x + 1) <= d * y;
    }
  }

  lemma Quotient(a: nat, d: nat, q: nat)
    requires d > 0 && d * q <= a < d * q + d
    ensures a / d == q
  {
    assert a == d * (a / d) + a % d;
    ProductsKeepOrder(d, a / d, q);
    ProductsKeepOrder(d, q, a / d);
  }

  lemma DivKeepsOrder(a: nat, b: nat, d: nat)
    requires d > 0 && a <= b
    ensures a / d <= b / d
  {
    assert a == d * (a / d) + a % d && b == d * (b / d) + b % d;
    ProductsKeepOrder(d, b / d, a / d);
  }

  lemma TotalKeepsOrder(n: nat, p: nat, q: nat, size: nat)
    requires 1 <= n <= size && p <= q <= 100
    ensures TotalAt(n, p, size) <= TotalAt(n, q, size) <= 100
  {
    var a, b := (n - 1) * 100 + p, (n - 1) * 100 + q;
    DivKeepsOrder(a, b, size);
    DivKeepsOrder(b, size * 100, size);
    Quotient(size * 100, size, 100);
  }

  /** The value reached when the files before number n are complete. */
  function Floor(n: nat, size: nat): int
    requires n >= 1 && size > 0
  {
    Scaled(TotalAt(n, 0, size))
  }

  lemma NoticeIn(n: nat, percent: nat, size: nat)
    requires 1 <= n <= size && percent <= 100
    ensures 20 <= Floor(n, size) <= Scaled(TotalAt(n, percent, size)) <= Scaled(TotalAt(n, 100, size)) <= 100
  {
    hide Scaled, TotalAt;
    TotalKeepsOrder(n, 0, percent, size);
    TotalKeepsOrder(n, percent, 100, size);
    ScaledKeepsOrder(TotalAt(n, 0, size), TotalAt(n, percent, size));
    ScaledKeepsOrder(TotalAt(n, percent, size), TotalAt(n, 100, size));
  }

  lemma {:induction false} FileNeverGoesBack(n: nat, reports: seq<Report>, size: nat, least: nat)
    requires 1 <= n <= size && least <= 100 && Steady(reports)
    requires forall i :: 0 <= i < |reports| ==> least <= reports[i].percent
    ensures Climbs(NoticesIn(n, reports, size), Scaled(TotalAt(n, least, size)), Scaled(TotalAt(n, 100, size)))
    decreases |reports|
  {
    hide Scaled, TotalAt, Climbs;
    var lo, hi := Scaled(TotalAt(n, least, size)), Scaled(TotalAt(n, 100, size));
    if reports == [] {
      NoneClimbs(lo, hi);
    } else {
      var p := reports[0].percent;
      var v := Scaled(TotalAt(n, p, size));
      TotalKeepsOrder(n, least, p, size);
      TotalKeepsOrder(n, p, 100, size);
      ScaledKeepsOrder(TotalAt(n, least, size), TotalAt(n, p, size));
      ScaledKeepsOrder(TotalAt(n, p, size), TotalAt(n, 100, size));
      FileNeverGoesBack(n, reports[1..], size, p);
      var rest := NoticesIn(n, reports[1..], size);
      OneClimbs(v, lo, v);
      JoinClimbs([v], rest, lo, v, hi);
      WidenClimbs(rest, v, hi, lo, hi);
      assert [] + rest == rest;
    }
  }

  /** The copy phase never goes back: from the value of the files done so far up to 100. */
  lemma {:induction false} CopyNeverGoesBack(rs: seq<Record>, turns: Turns, n: nat, size: nat)
    requires 1 <= n && n - 1 + |rs| <= size && size > 0
    requires forall i: nat :: Steady(turns(i).reports)
    ensures Climbs(Notices(rs, turns, n, size), Floor(n, size), 100)
    decreases |rs|
  {
    hide Climbs, NoticesIn, Attempted, Steady, Floor;
    if rs == [] {
      NoneClimbs(Floor(n, size), 100);
    } else {
      var rest := Notices(rs[1..], turns, n + 1, size);
      FileWithin(n, turns(n).reports, size);
      CopyNeverGoesBack(rs[1..], turns, n + 1, size);
      if Attempted(rs[0], turns(n)) {
        JoinClimbs(NoticesIn(n, turns(n).reports, size), rest, Floor(n, size), Floor(n + 1, size), 100);
      } else {
        assert [] + rest == rest;
        WidenClimbs(rest, Floor(n + 1, size), 100, Floor(n, size), 100);
      }
    }
  }

  lemma FileWithin(n: nat, reports: seq<Report>, size: nat)
    requires 1 <= n <= size && Steady(reports)
    ensures Climbs(NoticesIn(n, reports, size), Floor(n, size), Floor(n + 1, size))
    ensures 20 <= Floor(n, size) <= Floor(n + 1, size) <= 100
  {
    hide Scaled, TotalAt, NoticesIn, Climbs;
    FileNeverGoesBack(n, reports, size, 0);
    NoticeIn(n, 100, size);
    NextFile(n, size);
  }

  lemma NextFile(n: nat, size: nat)
    requires 1 <= n <= size
    ensures Floor(n + 1, size) == Scaled(TotalAt(n, 100, size))
  {
    hide Scaled;
    assert (n - 1) * 100 + 100 == n * 100;
  }

  // ----- the smoothing phase

  /** What a turn of the smoothing loop meets. */
  datatype Tick = RemoteDone | Due | CancelSeen | Early

  /** ProgressSmoothToTwentyPercent from a value on; ticks are counted by their number. */
  function Smoothed(hasUri: bool, ticks: nat -> Tick, n: nat, value: nat): seq<int>
    decreases if value < 20 then 20 - value else 0
  {
    if value >= 20 then []
    else
      match ticks(n)
      case RemoteDone => []
      case Due => [if hasUri then 20 else 100]
      case CancelSeen => []
      case Early => [value + 5] + Smoothed(hasUri, ticks, n + 1, value + 5)
  }

  /** How the smoothing ends at a tick. */
  function LastSmoothed(hasUri: bool, t: Tick): seq<int>
  {
    if t.Due? then [if hasUri then 20 else 100] else []
  }

  /** Five at every early tick up to 20; the first other tick ends it, with 20 or 100 if the data has come. */
  lemma {:induction false} SmoothedIs(hasUri: bool, ticks: nat -> Tick, n: nat, k: nat)
    requires n <= k <= 4 && (forall i :: n <= i < k ==> ticks(i) == Early) && (k < 4 ==> ticks(k) != Early)
    ensures Smoothed(hasUri, ticks, n, 5 * n) ==
            seq(k - n, i requires 0 <= i < k - n => 5 * (n + 1 + i)) +
            if k < 4 then LastSmoothed(hasUri, ticks(k)) else []
    decreases k - n
  {
    if n < k {
      SmoothedIs(hasUri, ticks, n + 1, k);
    }
  }

  lemma {:induction false} SmoothingClimbs(ticks: nat -> Tick, n: nat, value: nat)
    requires value <= 20 && value % 5 == 0
    ensures Climbs(Smoothed(true, ticks, n, value), value, 20)
    decreases 20 - value
  {
    hide Climbs;
    if value >= 20 || ticks(n).RemoteDone? || ticks(n).CancelSeen? {
      NoneClimbs(value, 20);
    } else if ticks(n).Due? {
      OneClimbs(20, value, 20);
    } else {
      SmoothingClimbs(ticks, n + 1, value + 5);
      OneClimbs(value + 5, value, value + 5);
      JoinClimbs([value + 5], Smoothed(true, ticks, n + 1, value + 5), value, value + 5, 20);
    }
  }

  /** Reported progress never goes back over both phases, the copy phase starts at 20 or more, and the end is 100. */
  lemma ProgressNeverGoesBack(ticks: nat -> Tick, rs: seq<Record>, turns: Turns)
    requires rs != [] && forall i: nat :: Steady(turns(i).reports)
    ensures Climbs(Smoothed(true, ticks, 0, 0) + (Notices(rs, turns, 1, |rs|) + [100]), 0, 100)
    ensures Climbs(Notices(rs, turns, 1, |rs|) + [100], 20, 100)
  {
    hide Climbs, Smoothed, Notices, Floor, Steady;
    var copy := Notices(rs, turns, 1, |rs|);
    SmoothingClimbs(ticks, 0, 0);
    CopyNeverGoesBack(rs, turns, 1, |rs|);
    FloorStarts(|rs|);
    OneClimbs(100, 100, 100);
    JoinClimbs(copy, [100], 20, 100, 100);
    JoinClimbs(Smoothed(true, ticks, 0, 0), copy + [100], 0, 20, 100);
  }

  lemma FloorStarts(size: nat)
    requires size > 0
    ensures Floor(1, size) == 20
  {
    hide Scaled;
    Quotient(0, size, 0);
    ScaledIs(0);
  }

  // ----- the code

  method OnProgressNotify(percentage: int) returns (value: int)
    ensures value == Scaled(percentage)
  {
    value := percentage;
    if value > 100 {
      value := 100;
    }
    value := Truncated(value as real * 0.8 + 20.0);
    if value < 0 {
      value := -value;
    }
  }

  /** The callbacks of one copy. */
  method HandleReports(n: nat, reports: seq<Report>, size: nat) returns (notices: seq<int>)
    requires n >= 1
    ensures notices == NoticesIn(n, reports, size)
  {
    hide Scaled, TotalAt, NoticesIn;
    notices := [];
    assert reports[0..] == reports && [] + NoticesIn(n, reports, size) == NoticesIn(n, reports, size);
    NoNotices(n, size);
    for i := 0 to |reports|
      invariant notices + NoticesIn(n, reports[i..], size) == NoticesIn(n, reports, size)
    {
      NoticesStep(n, reports, i, size);
      ghost var rest := NoticesIn(n, reports[i + 1..], size);
      if size > 0 && !reports[i].muted {
        var v := OnProgressNotify(TotalAt(n, reports[i].percent, size));
        assert notices + ([v] + rest) == notices + [v] + rest;
        notices := notices + [v];
      }
    }
    assert reports[|reports|..] == [];
  }

  lemma NoNotices(n: nat, size: nat)
    requires n >= 1
    ensures NoticesIn(n, [], size) == []
  {
  }

  lemma NoticesStep(n: nat, reports: seq<Report>, i: nat, size: nat)
    requires n >= 1 && i < |reports|
    ensures var rest := NoticesIn(n, reports[i + 1..], size);
            NoticesIn(n, reports[i..], size) ==
            if size == 0 || reports[i].muted then rest else [Scaled(TotalAt(n, reports[i].percent, size))] + rest
  {
    hide Scaled, TotalAt;
    assert reports[i..][1..] == reports[i + 1..];
  }

  lemma LeftStep(rs: seq<Record>, turns: Turns, n: nat, ret: int32, size: nat)
    requires rs != [] && n >= 1
    ensures Left(rs, turns, n) == AsSeq(Outcome(rs[0], turns(n))) + Left(rs[1..], turns, n + 1)
    ensures RetOf(rs, turns, n, ret) ==
            RetOf(rs[1..], turns, n + 1, if Attempted(rs[0], turns(n)) then KeptRet(rs[0], turns(n)) else ret)
    ensures Notices(rs, turns, n, size) ==
            (if Attempted(rs[0], turns(n)) then NoticesIn(n, turns(n).reports, size) else []) +
              Notices(rs[1..], turns, n + 1, size)
  {
  }

  /** What one turn of the loop does with the record at index. */
  method CopyRecord(p: PasteList, index: nat, n: nat, t: Turn, ret: int32, size: nat)
      returns (index': nat, ret': int32, notices: seq<int>)
    requires index < |p.records| && n >= 1
    modifies p`records, p`mimeTypes
    ensures var r := old(p.records)[index]; var kept := AsSeq(Outcome(r, t));
            && p.records == old(p.records)[..index] + kept + old(p.records)[index + 1..]
            && index' == index + |kept|
            && ret' == (if Attempted(r, t) then KeptRet(r, t) else ret)
            && notices == (if Attempted(r, t) then NoticesIn(n, t.reports, size) else [])
  {
    hide SetUri, UriOf, NoticesIn;
    var rs := p.records;
    var record := rs[index];
    index', ret', notices := index, ret, [];
    assert rs[..index] + [record] + rs[index + 1..] == rs;
    assert rs[..index] + [] + rs[index + 1..] == rs[..index] + rs[index + 1..];
    if t.cancelled {
      var ok := p.RemoveRecordAt(index);
      return;
    }
    var uri := UriOf(record);
    if uri.None? {
      index' := index + 1;
      return;
    }
    if t.skipped {
      var ok := p.RemoveRecordAt(index);
      return;
    }
    notices := HandleReports(n, t.reports, size);
    ret' := KeptRet(record, t);
    var kept := KeptRecord(record, t);
    if kept.None? {
      var ok := p.RemoveRecordAt(index);
    } else {
      p.records := rs[index := kept.value];
      index' := index + 1;
    }
  }

  method CopyFileData(p: PasteList, turns: Turns, size: nat) returns (ret: int32, notices: seq<int>)
    modifies p`records, p`mimeTypes
    ensures p.records == Left(old(p.records), turns, 1)
    ensures ret == EndCode(RetOf(old(p.records), turns, 1, E_OK))
    ensures notices == Notices(old(p.records), turns, 1, size)
  {
    hide Outcome, Attempted, KeptRet, NoticesIn, Left, RetOf, Notices;
    var rs := p.records;
    var index: nat, n: nat := 0, 1;
    ret, notices := E_OK, [];
    assert rs[0..] == rs && [] + Left(rs, turns, 1) == Left(rs, turns, 1);
    assert [] + Notices(rs, turns, 1, size) == Notices(rs, turns, 1, size);
    while index < |p.records|
      invariant 1 <= n <= |rs| + 1 && index <= |p.records| && p.records[index..] == rs[n - 1..]
      invariant p.records[..index] + Left(rs[n - 1..], turns, n) == Left(rs, turns, 1)
      invariant RetOf(rs[n - 1..], turns, n, ret) == RetOf(rs, turns, 1, E_OK)
      invariant notices + Notices(rs[n - 1..], turns, n, size) == Notices(rs, turns, 1, size)
      decreases |p.records| - index
    {
      ghost var before, rest := p.records[..index], rs[n - 1..];
      assert p.records[index] == p.records[index..][0] == rest[0];
      assert rest[1..] == rs[n..] && p.records[index + 1..] == rest[1..];
      LeftStep(rest, turns, n, ret, size);
      var said: seq<int>;
      index, ret, said := CopyRecord(p, index, n, turns(n), ret, size);
      ghost var kept := AsSeq(Outcome(rest[0], turns(n)));
      assert p.records == before + kept + rs[n..] && p.records[..index] == before + kept &&
             p.records[index..] == rs[n..];
      assert before + (kept + Left(rs[n..], turns, n + 1)) == before + kept + Left(rs[n..], turns, n + 1);
      assert notices + (said + Notices(rs[n..], turns, n + 1, size)) ==
             notices + said + Notices(rs[n..], turns, n + 1, size);
      notices := notices + said;
      n := n + 1;
    }
    NothingLeft(turns, n, ret, size);
    assert rs[n - 1..] == [] && p.records[..index] == p.records;
    ret := EndCode(ret);
  }

  lemma NothingLeft(turns: Turns, n: nat, ret: int32, size: nat)
    requires n >= 1
    ensures Left([], turns, n) == [] && RetOf([], turns, n, ret) == ret && Notices([], turns, n, size) == []
  {
  }

  /** The whole copy phase: it fails its check only on an empty list, and otherwise ends by reporting 100. */
  method CopyPasteData(p: PasteList, turns: Turns) returns (ret: int32, notices: seq<int>)
    modifies p`records, p`mimeTypes
    ensures old(p.records) == [] ==> ret == INVALID_PARAM_ERROR && notices == [] && p.records == []
    ensures old(p.records) != [] ==>
              && p.records == Left(old(p.records), turns, 1)
              && notices == Notices(old(p.records), turns, 1, |old(p.records)|) + [100]
              && ret == (if EndCode(RetOf(old(p.records), turns, 1, E_OK)) == E_OK then E_OK else COPY_FILE_ERROR)
  {
    hide Left, Notices, RetOf;
    var size := |p.records|;
    if size == 0 {
      return INVALID_PARAM_ERROR, [];
    }
    ret, notices := CopyFileData(p, turns, size);
    if ret != E_OK {
      ret := COPY_FILE_ERROR;
    }
    ScaledIs(100);
    var last := OnProgressNotify(100);
    notices := notices + [last];
  }

  method ProgressSmoothToTwentyPercent(hasUri: bool, ticks: nat -> Tick) returns (notices: seq<int>)
    ensures notices == Smoothed(hasUri, ticks, 0, 0)
  {
    notices := [];
    var value, n := 0, 0;
    while value < 20 && !ticks(n).RemoteDone?
      invariant notices + Smoothed(hasUri, ticks, n, value) == Smoothed(hasUri, ticks, 0, 0)
      decreases 20 - value
    {
      if ticks(n).Due? {
        return notices + [if hasUri then 20 else 100];
      }
      if ticks(n).CancelSeen? {
        return;
      }
      assert notices + ([value + 5] + Smoothed(hasUri, ticks, n + 1, value + 5)) ==
             notices + [value + 5] + Smoothed(hasUri, ticks, n + 1, value + 5);
      value := value + 5;
      notices := notices + [value];
      n := n + 1;
    }
  }
}
